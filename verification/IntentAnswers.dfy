/**
What a contender of a /3 intent is told, step by step and over runs: when a success is given at all, what
a denied authorisation leads to, and what every lookup and append does with the claim.
*/
module IntentAnswers {
  import opened Text
  import opened Codecs
  import opened Projection
  import opened ProjectionTables
  import opened Intents

  /** The contender gets this answer and is done; the store does not change. */
  ghost predicate Told(s: System, t: System, w: nat, a: Answer) {
    t.db == s.db && t.claims == s.claims && t.answers == s.answers + [a] && PcOf(t, w).Idle?
  }

  /** The contender moves on without an answer; the store does not change. */
  ghost predicate MovesTo(s: System, t: System, w: nat, pc: Pc) {
    t.db == s.db && t.claims == s.claims && t.answers == s.answers && PcOf(t, w) == pc
  }

  // ---- authorisation of a replay, confirmation of an append ----

  /** A found batch is answered only when the authoriser allows it. */
  lemma AuthorizeTells(plan: Plan, h: string -> string, s: System, w: nat, allowed: bool)
    requires IsDigest(h) && PcOf(s, w).Replaying?
    ensures var pc, t := PcOf(s, w), Apply(plan, h, s, Authorize(w, allowed));
      && (allowed ==> Told(s, t, w, Success(pc.request, pc.recorded.events, pc.recorded.version, true)))
      && (!allowed && !pc.deciding ==> Told(s, t, w, Failed))
      && (!allowed && pc.deciding ==> MovesTo(s, t, w, Resolving(pc.request)))
  {
  }

  lemma ConfirmTells(plan: Plan, h: string -> string, s: System, w: nat, fault: bool)
    requires IsDigest(h) && PcOf(s, w).Confirming?
    ensures var pc, t := PcOf(s, w), Apply(plan, h, s, Confirm(w, fault));
      && (!fault ==> Told(s, t, w, Success(pc.request, pc.events, pc.version, false)))
      && (fault ==> MovesTo(s, t, w, Resolving(pc.request)))
  {
  }

  // ---- beginning, deciding, giving up, crashing ----

  /** A call begins with a lookup; a busy contender does not begin another. */
  lemma BeginTells(plan: Plan, h: string -> string, s: System, w: nat, r: Request)
    requires IsDigest(h)
    ensures MovesTo(s, Apply(plan, h, s, Begin(w, r)), w, if PcOf(s, w).Idle? then Looking(r) else PcOf(s, w))
  {
  }

  /** A decision for the request's own stream key goes on to its append with exactly these events. */
  lemma DecideTells(plan: Plan, h: string -> string, s: System, w: nat, key: string, expected: nat, events: seq<Event>)
    requires IsDigest(h) && PcOf(s, w).Deciding?
    requires HostSized(PcOf(s, w).request.id, key) && forall i :: 0 <= i < |events| ==> Usable(events[i])
    requires PcOf(s, w).request.id.streamKey in [None, Some(key)]
    ensures MovesTo(s, Apply(plan, h, s, Decide(w, key, expected, events)), w,
                    Appending(PcOf(s, w).request, key, expected, events))
  {
  }

  /** Whatever fails between the first lookup and the append leads to the second lookup. */
  lemma GiveUpTells(plan: Plan, h: string -> string, s: System, w: nat)
    requires IsDigest(h) && (PcOf(s, w).Deciding? || PcOf(s, w).Appending?)
    ensures MovesTo(s, Apply(plan, h, s, GiveUp(w)), w, Resolving(PcOf(s, w).request))
  {
  }

  /** A crash ends the call without an answer. */
  lemma CrashTells(plan: Plan, h: string -> string, s: System, w: nat)
    requires IsDigest(h)
    ensures MovesTo(s, Apply(plan, h, s, Crash(w)), w, Idle)
  {
  }

  // ---- what a claim must look like to be read back ----

  /** The claimed range is usable and its stream is one of the claim's tenant, service, realm and category. */
  ghost predicate Consistent(plan: Plan, db: Db, id: ClaimId, c: Claimed, key: string) {
    && UsableRange(db.streams, c)
    && c.stream.tenant == id.tenant && c.stream.kind == Kind(plan.service)
    && DecodeStreamId(c.stream.id) == Some((id.realm, id.category, key))
    && (id.streamKey.Some? ==> id.streamKey.value == key)
  }

  /** A claim reads back exactly when it is consistent, and then as exactly its range. */
  lemma RecordedIff(plan: Plan, db: Db, id: ClaimId, c: Claimed, recorded: Recorded)
    ensures RecordedIntent(plan, db, id, c) == Some(recorded) <==> (
      && Consistent(plan, db, id, c, recorded.key)
      && recorded.events == BatchIn(db.streams, c) && recorded.version == c.last)
  {
    if RecordedIntent(plan, db, id, c) == Some(recorded) {
      RecordedIsConsistent(plan, db, id, c, recorded);
    } else if Consistent(plan, db, id, c, recorded.key) {
      RecordedRange(plan, db, id, c, recorded.key);
    }
  }

  lemma RecordedIsConsistent(plan: Plan, db: Db, id: ClaimId, c: Claimed, recorded: Recorded)
    requires RecordedIntent(plan, db, id, c) == Some(recorded)
    ensures Consistent(plan, db, id, c, recorded.key)
    ensures recorded.events == BatchIn(db.streams, c) && recorded.version == c.last
  {
  }

  // ---- lookups ----

  /** The claim is stored under the request's own digest. */
  predicate Mine(s: System, r: Request) { r.id in s.claims && s.claims[r.id].digest == r.digest }

  /** The batch of a stored claim, as a replay carries it. */
  ghost predicate Carries(s: System, r: Request, recorded: Recorded)
    requires r.id in s.claims
  {
    Won(s, r, recorded.events, recorded.version)
  }

  lemma StoredIsFound(plan: Plan, s: System, r: Request) returns (recorded: Recorded)
    requires Inv(plan, s) && Mine(s, r)
    ensures Found(plan, s, r, recorded) && Carries(s, r, recorded)
  {
    RecordedIsBatch(plan, s.db, r.id, s.claims[r.id]);
    recorded := RecordedIntent(plan, s.db, r.id, s.claims[r.id]).value;
    assert ClaimOk(plan, s.db.streams, r.id, s.claims[r.id]);
  }

  /** The first lookup: decide on an unknown claim, replay one's own, fail on another intent or a fault. */
  lemma LookupTells(plan: Plan, s: System, w: nat, fault: bool)
    requires Inv(plan, s) && PcOf(s, w).Looking?
    ensures var r, t := PcOf(s, w).request, LookupStep(plan, s, w, fault);
      && (fault || (r.id in s.claims && !Mine(s, r)) ==> Told(s, t, w, Failed))
      && (!fault && r.id !in s.claims ==> MovesTo(s, t, w, Deciding(r)))
      && (!fault && Mine(s, r) ==> exists recorded ::
            Carries(s, r, recorded) && MovesTo(s, t, w, Replaying(r, recorded, false)))
  {
    var r := PcOf(s, w).request;
    if !fault && Mine(s, r) {
      var recorded := StoredIsFound(plan, s, r);
      FirstLookupFinds(plan, s, w, r, recorded);
      assert MovesTo(s, Goto(s, w, Replaying(r, recorded, false)), w, Replaying(r, recorded, false));
    }
  }

  /** The second lookup: replay one's own claim, otherwise the original failure stands. */
  lemma ResolveTells(plan: Plan, s: System, w: nat, fault: bool)
    requires Inv(plan, s) && PcOf(s, w).Resolving?
    ensures var r, t := PcOf(s, w).request, ResolveStep(plan, s, w, fault);
      && (fault || !Mine(s, r) ==> Told(s, t, w, Failed))
      && (!fault && Mine(s, r) ==> exists recorded ::
            Carries(s, r, recorded) && MovesTo(s, t, w, Replaying(r, recorded, false)))
  {
    var r := PcOf(s, w).request;
    if !fault && Mine(s, r) {
      var recorded := StoredIsFound(plan, s, r);
      SecondLookupFinds(plan, s, w, r, recorded);
      assert MovesTo(s, Goto(s, w, Replaying(r, recorded, false)), w, Replaying(r, recorded, false));
    }
  }

  // ---- the append ----

  /** The append stores the contender's batch: the claim is new and the store commits the events. */
  predicate Stores(plan: Plan, h: string -> string, s: System, w: nat)
    requires IsDigest(h) && PcOf(s, w).Appending?
  {
    var pc := PcOf(s, w);
    && pc.request.id !in s.claims && |pc.events| <= MAX_EVENTS_PER_APPEND
    && Commit(plan, h, s.db, StreamFor(plan, pc.request.id, pc.key), pc.expected, pc.events).Some?
  }

  /** The contender's events are at the end of stream `x`, claimed under its digest. */
  ghost predicate StoredAs(s: System, t: System, w: nat, x: Stream, lost: bool)
    requires PcOf(s, w).Appending?
  {
    var pc, length := PcOf(s, w), |Log(s.db.streams, x)|;
    && t.db.streams == s.db.streams[x := Log(s.db.streams, x) + pc.events] && t.answers == s.answers
    && t.claims == s.claims[pc.request.id := Claimed(pc.request.digest, x, length + 1, length + |pc.events|)]
    && PcOf(t, w) == if lost then Resolving(pc.request) else Confirming(pc.request, pc.events, length + |pc.events|)
  }

  /** A first append stores exactly the decided events, claimed under the request's digest. */
  lemma FirstAppendTells(plan: Plan, h: string -> string, s: System, w: nat, lost: bool)
    requires IsDigest(h) && PcOf(s, w).Appending? && Stores(plan, h, s, w)
    ensures StoredAs(s, AppendStep(plan, h, s, w, lost), w,
                     StreamFor(plan, PcOf(s, w).request.id, PcOf(s, w).key), lost)
  {
    var pc := PcOf(s, w);
    var x := StreamFor(plan, pc.request.id, pc.key);
    var db := StoredDb(plan, h, s, pc, x);
    FirstAppendIs(plan, h, s, w, lost, x, db);
    ClaimedThere(s, w, lost, x, db);
  }

  lemma FirstAppendIs(plan: Plan, h: string -> string, s: System, w: nat, lost: bool, x: Stream, db: Db)
    requires IsDigest(h) && PcOf(s, w).Appending?
    requires ClaimedAppend(plan, h, s, PcOf(s, w)) == Some(WithClaim(s, PcOf(s, w).request, x, PcOf(s, w).events, db))
    ensures AppendStep(plan, h, s, w, lost) == FirstAppended(s, w, lost, x, db)
  {
    FirstAppendMoves(plan, s, w, PcOf(s, w), WithClaim(s, PcOf(s, w).request, x, PcOf(s, w).events, db), lost);
  }

  function FirstAppended(s: System, w: nat, lost: bool, x: Stream, db: Db): System
    requires PcOf(s, w).Appending?
  {
    var pc := PcOf(s, w);
    var next := WithClaim(s, pc.request, x, pc.events, db);
    Goto(next, w, if lost then Resolving(pc.request)
                  else Confirming(pc.request, pc.events, next.claims[pc.request.id].last))
  }

  lemma ClaimedThere(s: System, w: nat, lost: bool, x: Stream, db: Db)
    requires PcOf(s, w).Appending? && db.streams == s.db.streams[x := Log(s.db.streams, x) + PcOf(s, w).events]
    ensures StoredAs(s, FirstAppended(s, w, lost, x, db), w, x, lost)
  {
  }

  lemma StoredDb(plan: Plan, h: string -> string, s: System, pc: Pc, x: Stream) returns (db: Db)
    requires IsDigest(h) && pc.Appending? && pc.request.id !in s.claims && |pc.events| <= MAX_EVENTS_PER_APPEND
    requires x == StreamFor(plan, pc.request.id, pc.key) && Commit(plan, h, s.db, x, pc.expected, pc.events).Some?
    ensures db.streams == s.db.streams[x := Log(s.db.streams, x) + pc.events]
    ensures ClaimedAppend(plan, h, s, pc) == Some(WithClaim(s, pc.request, x, pc.events, db))
  {
    db := Commit(plan, h, s.db, x, pc.expected, pc.events).value;
    CommitShape(plan, h, s.db, x, pc.expected, pc.events);
  }

  lemma FirstAppendMoves(plan: Plan, s: System, w: nat, pc: Pc, next: System, lost: bool)
    requires pc.Appending? && pc.request.id in next.claims
    ensures AfterAppend(plan, s, w, pc, Some(next), lost)
      == Goto(next, w, if lost then Resolving(pc.request)
                       else Confirming(pc.request, pc.events, next.claims[pc.request.id].last))
  {
  }

  /** Any other append stores nothing: it replays one's own claim, or leads to the second lookup. */
  lemma OtherAppendTells(plan: Plan, h: string -> string, s: System, w: nat, lost: bool)
    requires IsDigest(h) && Inv(plan, s) && PcOf(s, w).Appending? && !Stores(plan, h, s, w)
    ensures var r, t := PcOf(s, w).request, AppendStep(plan, h, s, w, lost);
      && (lost || !Mine(s, r) ==> MovesTo(s, t, w, Resolving(r)))
      && (!lost && Mine(s, r) ==> exists recorded ::
            Carries(s, r, recorded) && MovesTo(s, t, w, Replaying(r, recorded, true)))
  {
    var r := PcOf(s, w).request;
    NothingStored(plan, h, s, w);
    if !lost && Mine(s, r) {
      var recorded := StoredIsFound(plan, s, r);
      KnownIsReplayed(plan, s, w, r, recorded);
      assert MovesTo(s, Goto(s, w, Replaying(r, recorded, true)), w, Replaying(r, recorded, true));
    }
  }

  lemma NothingStored(plan: Plan, h: string -> string, s: System, w: nat)
    requires IsDigest(h) && PcOf(s, w).Appending? && !Stores(plan, h, s, w)
    ensures ClaimedAppend(plan, h, s, PcOf(s, w)).None?
  {
  }

  lemma KnownIsReplayed(plan: Plan, s: System, w: nat, r: Request, recorded: Recorded)
    requires Found(plan, s, r, recorded)
    ensures AfterKnown(plan, s, w, r, false) == Goto(s, w, Replaying(r, recorded, true))
  {
  }

  // ---- over runs ----

  /** One more answer is given, a success that is marked as replayed, or as not replayed. */
  ghost predicate GivesSuccess(s: System, t: System, replayed: bool) {
    && |t.answers| == |s.answers| + 1 && s.answers <= t.answers
    && t.answers[|s.answers|].Success? && t.answers[|s.answers|].replayed == replayed
  }

  lemma QuietSteps(plan: Plan, h: string -> string, s: System, step: Step)
    requires IsDigest(h) && !step.Authorize? && !step.Confirm?
    ensures var t := Apply(plan, h, s, step); t.answers == s.answers || t.answers == s.answers + [Failed]
  {
    match step
    case Lookup(w, fault) => QuietLookup(plan, s, w, fault);
    case Resolve(w, fault) => QuietResolve(plan, s, w, fault);
    case Append(w, lost) => QuietAppend(plan, h, s, w, lost);
    case _ =>
  }

  lemma QuietLookup(plan: Plan, s: System, w: nat, fault: bool)
    ensures var t := LookupStep(plan, s, w, fault); t.answers == s.answers || t.answers == s.answers + [Failed]
  {
  }

  lemma QuietResolve(plan: Plan, s: System, w: nat, fault: bool)
    ensures var t := ResolveStep(plan, s, w, fault); t.answers == s.answers || t.answers == s.answers + [Failed]
  {
  }

  lemma QuietAppend(plan: Plan, h: string -> string, s: System, w: nat, lost: bool)
    requires IsDigest(h)
    ensures AppendStep(plan, h, s, w, lost).answers == s.answers
  {
    if PcOf(s, w).Appending? && ClaimedAppend(plan, h, s, PcOf(s, w)).Some? {
      FirstAppendMoves(plan, s, w, PcOf(s, w), ClaimedAppend(plan, h, s, PcOf(s, w)).value, lost);
    }
  }

  /** A replayed success is given exactly by an allowed authorisation of a contender that found its claim. */
  lemma ReplayedSuccessIff(plan: Plan, h: string -> string, s: System, step: Step)
    requires IsDigest(h)
    ensures GivesSuccess(s, Apply(plan, h, s, step), true) <==>
      step.Authorize? && step.allowed && PcOf(s, step.w).Replaying?
  {
    if step.Authorize? && PcOf(s, step.w).Replaying? {
      AuthorizeTells(plan, h, s, step.w, step.allowed);
    } else if step.Confirm? && PcOf(s, step.w).Confirming? {
      ConfirmTells(plan, h, s, step.w, step.fault);
    } else if !step.Authorize? && !step.Confirm? {
      QuietSteps(plan, h, s, step);
    }
  }

  /** A fresh success is given exactly by a confirmation without a fault. */
  lemma FreshSuccessIff(plan: Plan, h: string -> string, s: System, step: Step)
    requires IsDigest(h)
    ensures GivesSuccess(s, Apply(plan, h, s, step), false) <==>
      step.Confirm? && !step.fault && PcOf(s, step.w).Confirming?
  {
    if step.Confirm? && PcOf(s, step.w).Confirming? {
      ConfirmTells(plan, h, s, step.w, step.fault);
    } else if step.Authorize? && PcOf(s, step.w).Replaying? {
      AuthorizeTells(plan, h, s, step.w, step.allowed);
    } else if !step.Authorize? && !step.Confirm? {
      QuietSteps(plan, h, s, step);
    }
  }

  /** A contender that committed is answered, without faults, with its own events and the stored version. */
  lemma CommitterIsAnswered(plan: Plan, h: string -> string, steps: seq<Step>, w: nat)
    requires IsDigest(h) && PcOf(Run(plan, h, steps), w).Confirming?
    ensures var s, pc := Run(plan, h, steps), PcOf(Run(plan, h, steps), w);
      && Won(s, pc.request, pc.events, pc.version)
      && Run(plan, h, steps + [Confirm(w, false)]).answers
         == s.answers + [Success(pc.request, pc.events, pc.version, false)]
  {
    var s := Run(plan, h, steps);
    RunKeepsInv(plan, h, steps);
    assert PcOk(s, s.contenders[w]);
    RunSnoc(plan, h, steps, Confirm(w, false));
    ConfirmTells(plan, h, s, w, false);
  }

  /** A denied contender that found its claim by a lookup is told of a failure, whatever was recorded. */
  lemma DeniedAfterLookup(plan: Plan, h: string -> string, steps: seq<Step>, w: nat)
    requires IsDigest(h) && PcOf(Run(plan, h, steps), w).Replaying? && !PcOf(Run(plan, h, steps), w).deciding
    ensures Told(Run(plan, h, steps), Run(plan, h, steps + [Authorize(w, false)]), w, Failed)
  {
    RunSnoc(plan, h, steps, Authorize(w, false));
    AuthorizeTells(plan, h, Run(plan, h, steps), w, false);
  }

  /** Denied after a deduplicated append, it looks once more, and a second denial is final. */
  lemma DeniedAfterAppend(plan: Plan, h: string -> string, steps: seq<Step>, w: nat)
    requires IsDigest(h) && PcOf(Run(plan, h, steps), w).Replaying? && PcOf(Run(plan, h, steps), w).deciding
    ensures var s := Run(plan, h, steps);
      Run(plan, h, steps + [Authorize(w, false)] + [Resolve(w, false)] + [Authorize(w, false)]).answers
        == s.answers + [Failed]
  {
    var s := Run(plan, h, steps);
    var again := steps + [Authorize(w, false)];
    RunKeepsInv(plan, h, again);
    RunSnoc(plan, h, steps, Authorize(w, false));
    AuthorizeTells(plan, h, s, w, false);
    LookThenDenied(plan, h, again, w);
  }

  lemma LookThenDenied(plan: Plan, h: string -> string, steps: seq<Step>, w: nat)
    requires IsDigest(h) && Inv(plan, Run(plan, h, steps)) && PcOf(Run(plan, h, steps), w).Resolving?
    ensures Run(plan, h, steps + [Resolve(w, false)] + [Authorize(w, false)]).answers
      == Run(plan, h, steps).answers + [Failed]
  {
    var s := Run(plan, h, steps);
    RunSnoc(plan, h, steps, Resolve(w, false));
    LookupSteps(plan, h, s, w);
    ResolveTells(plan, s, w, false);
    var t := Run(plan, h, steps + [Resolve(w, false)]);
    RunSnoc(plan, h, steps + [Resolve(w, false)], Authorize(w, false));
    if PcOf(t, w).Replaying? {
      AuthorizeTells(plan, h, t, w, false);
    } else {
      IdleAuthorize(plan, h, t, w);
    }
  }

  lemma IdleAuthorize(plan: Plan, h: string -> string, s: System, w: nat)
    requires IsDigest(h) && !PcOf(s, w).Replaying?
    ensures Apply(plan, h, s, Authorize(w, false)) == s
  {
  }
}
