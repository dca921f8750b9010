/**
The external-effect journal: a lease protocol of many workers over one append-only stream.

Every operation reads the journal, decides, and appends under a version guard. Reading, appending
and the final reload are separate steps here, so a sequence of `Step`s is one interleaving.
*/
module EffectJournal {
  import opened Text

  type Time = int

  datatype Effect = Effect(operationId: string, idempotencyKey: string, plan: string)
  datatype Claim = Claim(lease: string, worker: string, expiresAt: Time)

  /** A stored body by event name; `OtherBody` has another name or data that does not decode. */
  datatype Body = PreparedBody(effect: Effect) | ClaimedBody(claim: Claim) | CompletedBody(outcome: string) | OtherBody

  /** A stored event with the metadata the store keeps beside it. */
  datatype Recorded = Recorded(version: nat, redacted: bool, body: Body, key: string, at: Time)

  datatype EffectState = Prepared | Claimed(claim: Claim) | Completed(outcome: string)
  datatype EffectRecord = EffectRecord(prepared: Effect, state: EffectState, revision: nat)
  datatype Loaded = Absent | Present(record: EffectRecord) | Invalid

  // ---- load_effect ----

  datatype Progress = Start | At(prepared: Effect, state: EffectState) | Broken

  /** One transition of the fold. A claim is accepted after anything that was prepared. */
  function Advance(p: Progress, index: nat, event: Recorded): Progress {
    if event.version != index + 1 || event.redacted then Broken
    else match (p, event.body)
      case (Start, PreparedBody(effect)) => At(effect, Prepared)
      case (At(effect, _), ClaimedBody(claim)) => At(effect, Claimed(claim))
      case (At(effect, Claimed(_)), CompletedBody(outcome)) => At(effect, Completed(outcome))
      case _ => Broken
  }

  function Fold(log: seq<Recorded>): Progress {
    if log == [] then Start
    else Advance(Fold(log[..|log| - 1]), |log| - 1, log[|log| - 1])
  }

  function Load(log: seq<Recorded>): Loaded {
    match Fold(log)
    case Start => Absent
    case At(effect, state) => Present(EffectRecord(effect, state, |log|))
    case Broken => Invalid
  }

  lemma {:induction false} BrokenStays(log: seq<Recorded>, n: nat)
    requires n <= |log| && Fold(log[..n]) == Broken
    ensures Fold(log) == Broken
    decreases |log| - n
  {
    if n == |log| {
      assert log[..n] == log;
    } else {
      assert log[..n + 1][..n] == log[..n];
      BrokenStays(log, n + 1);
    }
  }

  lemma FoldNext(log: seq<Recorded>, n: nat)
    requires n < |log|
    ensures Fold(log[..n + 1]) == Advance(Fold(log[..n]), n, log[n])
  {
    assert log[..n + 1][..n] == log[..n];
  }

  const PAGE: nat := 1000

  datatype Slice = Slice(events: seq<Recorded>, endOfStream: bool, nextVersion: nat)

  /** The store's `read_stream`: at most `limit` entries after the given position. */
  function ReadStream(log: seq<Recorded>, after: nat, limit: nat): Slice
    requires after <= |log|
  {
    var end := if after + limit < |log| then after + limit else |log|;
    Slice(log[after..end], end == |log|, end + 1)
  }

  /** The event loop over one page that starts after `begin`. */
  method FoldPage(log: seq<Recorded>, begin: nat, events: seq<Recorded>, state0: Progress)
    returns (state: Progress, after: nat)
    requires begin + |events| <= |log| && events == log[begin..begin + |events|]
    requires state0 == Fold(log[..begin]) && state0 != Broken
    ensures state == Broken ==> Fold(log) == Broken
    ensures state != Broken ==> after == begin + |events| && state == Fold(log[..after])
  {
    state, after := state0, begin;
    for i := 0 to |events|
      invariant after == begin + i && state == Fold(log[..after]) && state != Broken
    {
      var event := events[i];
      state := Advance(state, after, event);
      FoldNext(log, after);
      if state == Broken {
        BrokenStays(log, after + 1);
        return;
      }
      after := event.version;
    }
  }

  /** The paged loop of `load_effect` computes the fold of the whole stream. */
  method LoadEffect(log: seq<Recorded>) returns (r: Loaded)
    ensures r == Load(log)
  {
    var after: nat := 0;
    var state := Start;
    while true
      invariant after <= |log|
      invariant state == Fold(log[..after]) && state != Broken
      invariant after == |log| ==> after == 0
      decreases |log| - after
    {
      var slice := ReadStream(log, after, PAGE);
      if slice.events == [] && after == 0 {
        return Absent;
      }
      state, after := FoldPage(log, after, slice.events, state);
      if state == Broken {
        return Invalid;
      }
      if slice.endOfStream {
        break;
      }
      after := slice.nextVersion - 1;
    }
    assert log[..after] == log;
    return if state.At? then Present(EffectRecord(state.prepared, state.state, after)) else Absent;
  }

  // ---- the store's guarded append ----

  datatype AppendResult = Appended(log: seq<Recorded>) | Deduplicated | Refused

  /** A known idempotency key never appends; otherwise the expected version must be the length. */
  function Append(log: seq<Recorded>, expected: nat, body: Body, key: string, at: Time): AppendResult {
    if exists i :: 0 <= i < |log| && log[i].key == key then
      if exists i :: 0 <= i < |log| && log[i].key == key && log[i].body == body then Deduplicated else Refused
    else if |log| != expected then Refused
    else Appended(log + [Recorded(|log| + 1, false, body, key, at)])
  }

  function ClaimKey(lease: string): string { "effect-claim:" + lease }
  function CompleteKey(lease: string): string { "effect-complete:" + lease }

  predicate ValidClaim(claim: Claim, now: Time) {
    !Blank(claim.lease) && !Blank(claim.worker) && now < claim.expiresAt
  }

  // ---- workers ----

  datatype Answer =
    | PrepareOk(effect: Effect, record: EffectRecord)
    | Acquired(lease: string, record: EffectRecord)
    | Busy(lease: string, now: Time, record: EffectRecord)
    | Terminal(record: EffectRecord)
    | CompleteOk(outcome: string, record: EffectRecord)
    | Failed

  /** Where a worker is inside its call; `rev` is the revision its decision was based on. */
  datatype Pc =
    | Idle
    | AppendPrepare(effect: Effect)
    | AppendClaim(claim: Claim, now: Time, rev: nat)
    | AppendComplete(lease: string, outcome: string, rev: nat)
    | ReloadPrepare(effect: Effect)
    | ReloadClaim(claim: Claim)
    | ReloadComplete(outcome: string)

  datatype System = System(log: seq<Recorded>, workers: map<nat, Pc>, answers: seq<Answer>)

  datatype Step =
    | BeginPrepare(w: nat, effect: Effect)
    | BeginClaim(w: nat, claim: Claim, now: Time)
    | BeginComplete(w: nat, lease: string, outcome: string)
    | AppendStep(w: nat, clock: Time, responseLost: bool)
    | Reload(w: nat)
    | Crash(w: nat)

  const EMPTY := System([], map[], [])

  function PcOf(s: System, w: nat): Pc { if w in s.workers then s.workers[w] else Idle }

  function Goto(s: System, w: nat, pc: Pc): System { s.(workers := s.workers[w := pc]) }

  function Reply(s: System, w: nat, a: Answer): System {
    s.(workers := s.workers[w := Idle], answers := s.answers + [a])
  }

  function DecidePrepare(s: System, w: nat, effect: Effect): System {
    match Load(s.log)
    case Absent => Goto(s, w, AppendPrepare(effect))
    case Present(record) => Reply(s, w, if record.prepared == effect then PrepareOk(effect, record) else Failed)
    case Invalid => Reply(s, w, Failed)
  }

  function DecideClaim(s: System, w: nat, claim: Claim, now: Time): System {
    match Load(s.log)
    case Present(record) =>
      if record.state.Completed? then Reply(s, w, Terminal(record))
      else if record.state.Claimed? && record.state.claim.lease == claim.lease then
        Reply(s, w, Acquired(claim.lease, record))
      else if record.state.Claimed? && !(record.state.claim.expiresAt <= now) then
        Reply(s, w, Busy(claim.lease, now, record))
      else if !ValidClaim(claim, now) then Reply(s, w, Failed)
      else Goto(s, w, AppendClaim(claim, now, record.revision))
    case _ => Reply(s, w, Failed)
  }

  function DecideComplete(s: System, w: nat, lease: string, outcome: string): System {
    match Load(s.log)
    case Present(record) =>
      (match record.state
       case Completed(existing) => Reply(s, w, if existing == outcome then CompleteOk(outcome, record) else Failed)
       case Claimed(claim) =>
         if claim.lease == lease then Goto(s, w, AppendComplete(lease, outcome, record.revision))
         else Reply(s, w, Failed)
       case Prepared => Reply(s, w, Failed))
    case _ => Reply(s, w, Failed)
  }

  /** The append a waiting worker performs; `clock` is the host clock of prepare and complete. */
  function WorkerAppend(log: seq<Recorded>, pc: Pc, clock: Time): AppendResult {
    match pc
    case AppendPrepare(effect) => Append(log, 0, PreparedBody(effect), effect.idempotencyKey, clock)
    case AppendClaim(claim, now, rev) => Append(log, rev, ClaimedBody(claim), ClaimKey(claim.lease), now)
    case AppendComplete(lease, outcome, rev) =>
      Append(log, rev, CompletedBody(outcome), CompleteKey(lease), clock)
    case _ => Refused
  }

  function AfterAppend(pc: Pc): Pc {
    match pc
    case AppendPrepare(effect) => ReloadPrepare(effect)
    case AppendClaim(claim, _, _) => ReloadClaim(claim)
    case AppendComplete(_, outcome, _) => ReloadComplete(outcome)
    case _ => pc
  }

  predicate Waiting(pc: Pc) { pc.AppendPrepare? || pc.AppendClaim? || pc.AppendComplete? }

  function FinalAnswer(pc: Pc, loaded: Loaded): Answer {
    match (pc, loaded)
    case (ReloadPrepare(effect), Present(record)) => PrepareOk(effect, record)
    case (ReloadClaim(claim), Present(record)) => Acquired(claim.lease, record)
    case (ReloadComplete(outcome), Present(record)) => CompleteOk(outcome, record)
    case _ => Failed
  }

  /** One atomic step; a step that does not apply leaves the system unchanged. */
  function Apply(s: System, step: Step): System {
    var pc := PcOf(s, step.w);
    match step
    case BeginPrepare(w, effect) => if pc.Idle? then DecidePrepare(s, w, effect) else s
    case BeginClaim(w, claim, now) => if pc.Idle? then DecideClaim(s, w, claim, now) else s
    case BeginComplete(w, lease, outcome) => if pc.Idle? then DecideComplete(s, w, lease, outcome) else s
    case AppendStep(w, clock, responseLost) =>
      if !Waiting(pc) then s else
        var result := WorkerAppend(s.log, pc, clock);
        var stored := if result.Appended? then s.(log := result.log) else s;
        if result.Refused? || responseLost then Reply(stored, w, Failed)
        else Goto(stored, w, AfterAppend(pc))
    case Reload(w) =>
      if pc.Idle? || Waiting(pc) then s else Reply(s, w, FinalAnswer(pc, Load(s.log)))
    case Crash(w) => Goto(s, w, Idle)
  }

  function Run(steps: seq<Step>): System {
    if steps == [] then EMPTY else Apply(Run(steps[..|steps| - 1]), steps[|steps| - 1])
  }

  // ---- invariants ----

  /** Consecutive versions, nothing redacted, every body one of the journal's own. */
  ghost predicate Numbered(log: seq<Recorded>) {
    forall i :: 0 <= i < |log| ==> log[i].version == i + 1 && !log[i].redacted && !log[i].body.OtherBody?
  }

  /** The grammar of a journal: prepared, claims, and at most one completion right after a claim. */
  ghost predicate Shaped(log: seq<Recorded>) {
    && Numbered(log)
    && (forall i :: 0 <= i < |log| ==> (i == 0 <==> log[i].body.PreparedBody?))
    && (forall i :: 0 <= i < |log| && log[i].body.CompletedBody? ==>
          i == |log| - 1 && i >= 2 && log[i - 1].body.ClaimedBody?)
  }

  /** Each claim is live when appended, and its predecessor had expired by then. */
  ghost predicate Leased(log: seq<Recorded>) {
    && (forall i :: 0 <= i < |log| && log[i].body.ClaimedBody? ==>
          log[i].at < log[i].body.claim.expiresAt && log[i].key == ClaimKey(log[i].body.claim.lease))
    && (forall i :: 1 <= i < |log| && log[i].body.ClaimedBody? && log[i - 1].body.ClaimedBody? ==>
          log[i - 1].body.claim.expiresAt <= log[i].at)
    && (forall i :: 1 <= i < |log| && log[i].body.CompletedBody? && log[i - 1].body.ClaimedBody? ==>
          log[i].key == CompleteKey(log[i - 1].body.claim.lease))
  }

  ghost predicate DistinctKeys(log: seq<Recorded>) {
    forall i, j :: 0 <= i < j < |log| ==> log[i].key != log[j].key
  }

  ghost predicate LogOk(log: seq<Recorded>) { Shaped(log) && Leased(log) && DistinctKeys(log) }

  ghost predicate Done(log: seq<Recorded>) { log != [] && log[|log| - 1].body.CompletedBody? }

  /** What a worker's pending decision still guarantees about the journal it read. */
  ghost predicate PcOk(log: seq<Recorded>, pc: Pc) {
    match pc
    case AppendClaim(claim, now, rev) =>
      && 1 <= rev <= |log| && ValidClaim(claim, now) && !log[rev - 1].body.CompletedBody?
      && (log[rev - 1].body.ClaimedBody? ==> log[rev - 1].body.claim.expiresAt <= now)
    case AppendComplete(lease, _, rev) =>
      2 <= rev <= |log| && log[rev - 1].body.ClaimedBody? && log[rev - 1].body.claim.lease == lease
    case ReloadPrepare(effect) => log != [] && log[0].body == PreparedBody(effect)
    case ReloadClaim(claim) => exists i :: 0 <= i < |log| && log[i].body == ClaimedBody(claim)
    case ReloadComplete(outcome) => Done(log) && log[|log| - 1].body.outcome == outcome
    case _ => true
  }

  /** A record shown to a caller is the journal folded up to the record's own revision. */
  ghost predicate Shows(log: seq<Recorded>, record: EffectRecord) {
    record.revision <= |log| && Load(log[..record.revision]) == Present(record)
  }

  /** What a successful answer promises; it only mentions the journal, so it never goes stale. */
  ghost predicate AnswerOk(log: seq<Recorded>, a: Answer) {
    match a
    case PrepareOk(effect, record) => Shows(log, record) && record.prepared == effect
    case Acquired(lease, record) =>
      && Shows(log, record)
      && exists i :: 0 <= i < record.revision && log[i].body.ClaimedBody? && log[i].body.claim.lease == lease
    case Busy(lease, now, record) =>
      && Shows(log, record) && record.state.Claimed? && record.state.claim.lease != lease
      && now < record.state.claim.expiresAt
    case Terminal(record) => Shows(log, record) && record.state.Completed?
    case CompleteOk(outcome, record) => Shows(log, record) && record.state == Completed(outcome)
    case Failed => true
  }

  ghost predicate Inv(s: System) {
    && LogOk(s.log)
    && (forall w :: w in s.workers ==> PcOk(s.log, s.workers[w]))
    && (forall i :: 0 <= i < |s.answers| ==> AnswerOk(s.log, s.answers[i]))
  }

  /** The state named by the last event of a shaped journal. */
  function StateOf(body: Body): EffectState
    requires !body.OtherBody?
  {
    match body
    case PreparedBody(_) => Prepared
    case ClaimedBody(claim) => Claimed(claim)
    case CompletedBody(outcome) => Completed(outcome)
  }

  /** What `load_effect` accepts: any claims and completions after one preparation, no completion without a claim. */
  ghost predicate Acceptable(log: seq<Recorded>) {
    && Numbered(log)
    && (forall i :: 0 <= i < |log| ==> (i == 0 <==> log[i].body.PreparedBody?))
    && (forall i :: 1 <= i < |log| && log[i].body.CompletedBody? ==> log[i - 1].body.ClaimedBody?)
  }

  /** `load_effect` succeeds exactly on acceptable logs, and then reports the first and the last event. */
  lemma {:induction false} LoadAcceptsIff(log: seq<Recorded>)
    ensures Load(log) != Invalid <==> Acceptable(log)
    ensures Acceptable(log) ==> Load(log) == if log == [] then Absent
      else Present(EffectRecord(log[0].body.effect, StateOf(log[|log| - 1].body), |log|))
  {
    if log != [] {
      var n := |log| - 1;
      LoadAcceptsIff(log[..n]);
      assert forall i :: 0 <= i < n ==> log[..n][i] == log[i];
      if Acceptable(log[..n]) && Load(log) != Invalid {
        assert n > 0 ==> log[..n][n - 1] == log[n - 1];
        assert Acceptable(log);
      }
    }
  }

  /** An accepted log has the grammar exactly when nothing follows a completion. */
  lemma ShapedIff(log: seq<Recorded>)
    ensures Shaped(log) <==> Load(log) != Invalid && forall i :: 0 <= i < |log| - 1 ==> !log[i].body.CompletedBody?
  {
    LoadAcceptsIff(log);
  }

  /** On a shaped journal `load_effect` succeeds and reports the first and the last event. */
  lemma LoadShaped(log: seq<Recorded>)
    requires Shaped(log)
    ensures Load(log) == if log == [] then Absent
      else Present(EffectRecord(log[0].body.effect, StateOf(log[|log| - 1].body), |log|))
  {
    LoadAcceptsIff(log);
  }

  lemma AppendOnly(s: System, step: Step)
    ensures s.log <= Apply(s, step).log
  {
  }

  /** A completed journal admits no extension. */
  lemma DoneIsFinal(log: seq<Recorded>, longer: seq<Recorded>)
    requires LogOk(longer) && log <= longer && Done(log)
    ensures longer == log
  {
    assert longer[|log| - 1].body.CompletedBody?;
  }

  lemma AnswersStay(log: seq<Recorded>, longer: seq<Recorded>, a: Answer)
    requires log <= longer && AnswerOk(log, a)
    ensures AnswerOk(longer, a)
  {
    if !a.Failed? {
      assert longer[..a.record.revision] == log[..a.record.revision];
      if a.Acquired? {
        var i :| 0 <= i < a.record.revision && log[i].body.ClaimedBody? && log[i].body.claim.lease == a.lease;
        assert longer[i] == log[i];
      }
    }
  }

  lemma PcsStay(log: seq<Recorded>, longer: seq<Recorded>, pc: Pc)
    requires log <= longer && LogOk(longer) && PcOk(log, pc)
    ensures PcOk(longer, pc)
  {
    if pc.ReloadComplete? {
      DoneIsFinal(log, longer);
    } else if pc.ReloadClaim? {
      var i :| 0 <= i < |log| && log[i].body == ClaimedBody(pc.claim);
      assert longer[i] == log[i];
    }
  }

  /** Appending under an unknown key keeps keys distinct. */
  lemma KeysStayDistinct(log: seq<Recorded>, last: Recorded)
    requires DistinctKeys(log) && forall i :: 0 <= i < |log| ==> log[i].key != last.key
    ensures DistinctKeys(log + [last])
  {
  }

  lemma ShapeStays(log: seq<Recorded>, last: Recorded)
    requires Shaped(log) && !Done(log) && last.version == |log| + 1 && !last.redacted && !last.body.OtherBody?
    requires log == [] <==> last.body.PreparedBody?
    requires last.body.CompletedBody? ==> |log| >= 2 && log[|log| - 1].body.ClaimedBody?
    ensures Shaped(log + [last])
  {
  }

  lemma LeasesStay(log: seq<Recorded>, last: Recorded)
    requires Leased(log)
    requires last.body.ClaimedBody? ==>
      last.at < last.body.claim.expiresAt && last.key == ClaimKey(last.body.claim.lease)
    requires last.body.ClaimedBody? && log != [] && log[|log| - 1].body.ClaimedBody? ==>
      log[|log| - 1].body.claim.expiresAt <= last.at
    requires last.body.CompletedBody? && log != [] && log[|log| - 1].body.ClaimedBody? ==>
      last.key == CompleteKey(log[|log| - 1].body.claim.lease)
    ensures Leased(log + [last])
  {
    var longer := log + [last];
    assert forall i :: 0 <= i < |log| ==> longer[i] == log[i];
  }

  /** The version guard and the idempotency key carry the decision over to the append. */
  lemma AppendKeepsLog(log: seq<Recorded>, pc: Pc, clock: Time)
    requires LogOk(log) && PcOk(log, pc)
    ensures var r := WorkerAppend(log, pc, clock); r.Appended? ==> LogOk(r.log)
  {
    var r := WorkerAppend(log, pc, clock);
    if r.Appended? {
      var last := r.log[|log|];
      assert r.log == log + [last];
      ShapeStays(log, last);
      LeasesStay(log, last);
      KeysStayDistinct(log, last);
    }
  }

  /** After a successful append, or a deduplicated one, the reload sees the worker's own event. */
  lemma AppendThenReload(log: seq<Recorded>, pc: Pc, clock: Time)
    requires LogOk(log) && PcOk(log, pc) && Waiting(pc)
    ensures var r := WorkerAppend(log, pc, clock);
      && (r.Appended? ==> PcOk(r.log, AfterAppend(pc)))
      && (r.Deduplicated? ==> PcOk(log, AfterAppend(pc)))
  {
    var r := WorkerAppend(log, pc, clock);
    if r.Appended? {
      AppendKeepsLog(log, pc, clock);
      if pc.AppendClaim? { assert r.log[|log|].body == ClaimedBody(pc.claim); }
    }
  }

  lemma ReplyKeepsInv(s: System, w: nat, a: Answer)
    requires Inv(s) && AnswerOk(s.log, a)
    ensures Inv(Reply(s, w, a))
  {
  }

  lemma GotoKeepsInv(s: System, w: nat, pc: Pc)
    requires Inv(s) && PcOk(s.log, pc)
    ensures Inv(Goto(s, w, pc))
  {
  }

  /** A longer well-formed journal keeps every pending decision and every answer. */
  lemma GrowthKeepsInv(s: System, longer: seq<Recorded>)
    requires Inv(s) && s.log <= longer && LogOk(longer)
    ensures Inv(s.(log := longer))
  {
    forall w | w in s.workers ensures PcOk(longer, s.workers[w]) { PcsStay(s.log, longer, s.workers[w]); }
    forall i | 0 <= i < |s.answers| ensures AnswerOk(longer, s.answers[i]) { AnswersStay(s.log, longer, s.answers[i]); }
  }

  lemma PrepareKeepsInv(s: System, w: nat, effect: Effect)
    requires Inv(s)
    ensures Inv(DecidePrepare(s, w, effect))
  {
    LoadShaped(s.log);
    assert s.log[..|s.log|] == s.log;
    if s.log != [] {
      var record := Load(s.log).record;
      ReplyKeepsInv(s, w, if record.prepared == effect then PrepareOk(effect, record) else Failed);
    }
  }

  /** What a claim decision may rely on: the loaded record shows the whole journal. */
  lemma ClaimDecisionOk(log: seq<Recorded>, claim: Claim, now: Time)
    requires LogOk(log) && log != []
    ensures Load(log).Present?
    ensures var record := Load(log).record;
      && (record.state.Completed? ==> AnswerOk(log, Terminal(record)))
      && (record.state.Claimed? && record.state.claim.lease == claim.lease ==>
          AnswerOk(log, Acquired(claim.lease, record)))
      && (record.state.Claimed? && record.state.claim.lease != claim.lease && now < record.state.claim.expiresAt ==>
            AnswerOk(log, Busy(claim.lease, now, record)))
      && (!record.state.Completed? && ValidClaim(claim, now)
          && (record.state.Claimed? ==> record.state.claim.expiresAt <= now) ==>
            PcOk(log, AppendClaim(claim, now, record.revision)))
  {
    LoadShaped(log);
    assert log[..|log|] == log;
    var last := log[|log| - 1];
    assert last.body.ClaimedBody? ==> 0 <= |log| - 1 < |log|;
  }

  lemma ClaimKeepsInv(s: System, w: nat, claim: Claim, now: Time)
    requires Inv(s)
    ensures Inv(DecideClaim(s, w, claim, now))
  {
    var s' := DecideClaim(s, w, claim, now);
    LoadShaped(s.log);
    if s.log != [] { ClaimDecisionOk(s.log, claim, now); }
    if s'.answers != s.answers {
      ReplyKeepsInv(s, w, s'.answers[|s.answers|]);
    } else {
      GotoKeepsInv(s, w, s'.workers[w]);
    }
  }

  lemma CompleteKeepsInv(s: System, w: nat, lease: string, outcome: string)
    requires Inv(s)
    ensures Inv(DecideComplete(s, w, lease, outcome))
  {
    LoadShaped(s.log);
    assert s.log[..|s.log|] == s.log;
    var s' := DecideComplete(s, w, lease, outcome);
    if s'.answers != s.answers {
      ReplyKeepsInv(s, w, s'.answers[|s.answers|]);
    } else {
      GotoKeepsInv(s, w, s'.workers[w]);
    }
  }

  /** A worker that reloads after its append gets an answer the journal backs. */
  lemma FinalAnswerOk(log: seq<Recorded>, pc: Pc)
    requires LogOk(log) && PcOk(log, pc)
    ensures AnswerOk(log, FinalAnswer(pc, Load(log)))
  {
    LoadShaped(log);
    assert log[..|log|] == log;
  }

  lemma ReloadKeepsInv(s: System, step: Step)
    requires Inv(s) && step.Reload?
    ensures Inv(Apply(s, step))
  {
    var pc := PcOf(s, step.w);
    FinalAnswerOk(s.log, pc);
    ReplyKeepsInv(s, step.w, FinalAnswer(pc, Load(s.log)));
  }

  lemma AppendKeepsInv(s: System, step: Step)
    requires Inv(s) && step.AppendStep?
    ensures Inv(Apply(s, step))
  {
    var pc := PcOf(s, step.w);
    if Waiting(pc) {
      var result := WorkerAppend(s.log, pc, step.clock);
      AppendKeepsLog(s.log, pc, step.clock);
      AppendThenReload(s.log, pc, step.clock);
      var stored := if result.Appended? then s.(log := result.log) else s;
      if result.Appended? { GrowthKeepsInv(s, result.log); }
      if result.Refused? || step.responseLost {
        ReplyKeepsInv(stored, step.w, Failed);
      } else {
        GotoKeepsInv(stored, step.w, AfterAppend(pc));
      }
    }
  }

  lemma StepKeepsInv(s: System, step: Step)
    requires Inv(s)
    ensures Inv(Apply(s, step))
  {
    match step
    case AppendStep(_, _, _) => AppendKeepsInv(s, step);
    case Reload(_) => ReloadKeepsInv(s, step);
    case Crash(_) =>
    case BeginPrepare(w, effect) => PrepareKeepsInv(s, w, effect);
    case BeginClaim(w, claim, now) => ClaimKeepsInv(s, w, claim, now);
    case BeginComplete(w, lease, outcome) => CompleteKeepsInv(s, w, lease, outcome);
  }

  // ---- whole runs ----

  /** Every interleaving keeps the grammar, the lease discipline and every answer's promise. */
  lemma {:induction false} RunKeepsInv(steps: seq<Step>)
    ensures Inv(Run(steps))
  {
    if steps != [] {
      RunKeepsInv(steps[..|steps| - 1]);
      StepKeepsInv(Run(steps[..|steps| - 1]), steps[|steps| - 1]);
    }
  }

  lemma {:induction false} RunAppendOnly(steps: seq<Step>, n: nat)
    requires n <= |steps|
    ensures Run(steps[..n]).log <= Run(steps).log
    decreases |steps| - n
  {
    if n == |steps| {
      assert steps[..n] == steps;
    } else {
      assert steps[..n + 1][..n] == steps[..n];
      AppendOnly(Run(steps[..n]), steps[n]);
      RunAppendOnly(steps, n + 1);
    }
  }

  /** `load_effect` never fails on a reachable journal. */
  lemma LoadNeverFails(steps: seq<Step>)
    ensures Load(Run(steps).log) != Invalid
  {
    RunKeepsInv(steps);
    LoadShaped(Run(steps).log);
  }

  lemma CompletedIsFinal(log: seq<Recorded>, longer: seq<Recorded>)
    requires LogOk(log) && LogOk(longer) && log <= longer && Load(log).Present? && Load(log).record.state.Completed?
    ensures longer == log
  {
    LoadShaped(log);
    DoneIsFinal(log, longer);
  }

  /** Once a terminal outcome is recorded the journal is frozen, whatever any worker does later. */
  lemma CompletionIsFinal(steps: seq<Step>, n: nat)
    requires n <= |steps|
    requires Load(Run(steps[..n]).log).Present? && Load(Run(steps[..n]).log).record.state.Completed?
    ensures Run(steps).log == Run(steps[..n]).log
  {
    RunKeepsInv(steps);
    RunKeepsInv(steps[..n]);
    RunAppendOnly(steps, n);
    CompletedIsFinal(Run(steps[..n]).log, Run(steps).log);
  }

  lemma {:induction false} WindowsOrdered(log: seq<Recorded>, i: nat, j: nat)
    requires LogOk(log) && i < j < |log| && log[i].body.ClaimedBody? && log[j].body.ClaimedBody?
    ensures log[i].body.claim.expiresAt <= log[j].at
    ensures log[i].body.claim.expiresAt < log[j].body.claim.expiresAt
    ensures log[i].body.claim.lease != log[j].body.claim.lease
    decreases j - i
  {
    assert log[j - 1].body.ClaimedBody?;
    if i < j - 1 {
      WindowsOrdered(log, i, j - 1);
    }
    assert log[i].key != log[j].key;
  }

  /** All lease windows of a run are pairwise disjoint, in log order, with distinct lease ids. */
  lemma LeasesExclude(steps: seq<Step>, i: nat, j: nat, t: Time)
    requires i < j < |Run(steps).log|
    requires Run(steps).log[i].body.ClaimedBody? && Run(steps).log[j].body.ClaimedBody?
    ensures var a, b := Run(steps).log[i], Run(steps).log[j];
      && a.body.claim.expiresAt < b.body.claim.expiresAt
      && a.body.claim.lease != b.body.claim.lease
      && !(a.at <= t < a.body.claim.expiresAt && b.at <= t < b.body.claim.expiresAt)
  {
    RunKeepsInv(steps);
    WindowsOrdered(Run(steps).log, i, j);
  }

  /** A completion follows a claim directly and was written by that claim's lease. */
  lemma CompletionByLastLease(steps: seq<Step>, i: nat)
    requires i < |Run(steps).log| && Run(steps).log[i].body.CompletedBody?
    ensures var log := Run(steps).log;
      i == |log| - 1 >= 2 && log[i - 1].body.ClaimedBody? && log[i].key == CompleteKey(log[i - 1].body.claim.lease)
  {
    RunKeepsInv(steps);
  }

  /** Every answer ever given still holds of the final journal. */
  lemma AnswersHold(steps: seq<Step>, i: nat)
    requires i < |Run(steps).answers|
    ensures AnswerOk(Run(steps).log, Run(steps).answers[i])
  {
    RunKeepsInv(steps);
  }

  /** Two answers that report a terminal state never disagree. */
  lemma OutcomesAgree(steps: seq<Step>, i: nat, j: nat)
    requires i < |Run(steps).answers| && j < |Run(steps).answers|
    requires var a := Run(steps).answers[i]; (a.Terminal? || a.CompleteOk?)
    requires var b := Run(steps).answers[j]; (b.Terminal? || b.CompleteOk?)
    ensures Run(steps).answers[i].record == Run(steps).answers[j].record
  {
    RunKeepsInv(steps);
    var s := Run(steps);
    ShownDone(s.log, s.answers[i].record);
    ShownDone(s.log, s.answers[j].record);
  }

  lemma ShownDone(log: seq<Recorded>, record: EffectRecord)
    requires LogOk(log) && Shows(log, record) && record.state.Completed?
    ensures Load(log) == Present(record)
  {
    var n := record.revision;
    assert Shaped(log[..n]);
    LoadShaped(log[..n]);
    assert log[..n][n - 1] == log[n - 1];
    assert log[..n] == log;
  }

  // ---- what an acquired record shows ----

  lemma RunNext(steps: seq<Step>, n: nat)
    requires n < |steps|
    ensures Run(steps[..n + 1]) == Apply(Run(steps[..n]), steps[n])
  {
    assert steps[..n + 1][..n] == steps[..n];
  }

  lemma OtherStep(s: System, step: Step, w: nat)
    requires step.w != w
    ensures PcOf(Apply(s, step), w) == PcOf(s, w)
  {
    match step
    case BeginPrepare(_, _) =>
    case BeginClaim(_, _, _) =>
    case BeginComplete(_, _, _) =>
    case AppendStep(_, _, _) =>
    case Reload(_) =>
    case Crash(_) =>
  }

  lemma {:induction false} PcUntouched(steps: seq<Step>, n: nat, m: nat, w: nat)
    requires n <= m <= |steps| && forall k :: n <= k < m ==> steps[k].w != w
    ensures PcOf(Run(steps[..m]), w) == PcOf(Run(steps[..n]), w)
  {
    if n < m {
      PcUntouched(steps, n, m - 1, w);
      RunNext(steps, m - 1);
      OtherStep(Run(steps[..m - 1]), steps[m - 1], w);
    }
  }

  /** A claim occurs once, so a log that still ends with it has not grown past it. */
  lemma LastClaimOnce(log: seq<Recorded>, longer: seq<Recorded>, claim: Claim, i: nat)
    requires LogOk(longer) && log <= longer && i < |log| && log[i].body == ClaimedBody(claim)
    ensures longer[|longer| - 1].body == ClaimedBody(claim) <==> longer == log && i == |log| - 1
  {
    var j := |longer| - 1;
    if longer[j].body == ClaimedBody(claim) && i < j { WindowsOrdered(longer, i, j); }
  }

  /** Where a claim's event is once its append was answered: at the end, or where it already was. */
  lemma ClaimLands(log: seq<Recorded>, pc: Pc, clock: Time) returns (i: nat)
    requires LogOk(log) && PcOk(log, pc) && pc.AppendClaim? && !WorkerAppend(log, pc, clock).Refused?
    ensures var r := WorkerAppend(log, pc, clock);
      var after := if r.Appended? then r.log else log;
      && i < |after| && after[i].body == ClaimedBody(pc.claim)
      && (i == |after| - 1 <==> r.Appended? || (log != [] && log[|log| - 1].body == ClaimedBody(pc.claim)))
  {
    var r := WorkerAppend(log, pc, clock);
    if r.Appended? {
      i := |log|;
    } else {
      i :| 0 <= i < |log| && log[i].key == ClaimKey(pc.claim.lease) && log[i].body == ClaimedBody(pc.claim);
      LastClaimOnce(log, log, pc.claim, i);
    }
  }

  /**
  Worker `w` has a claim to append in `before`, which leaves the log `answered`; it reloads in `now`, and
  `after` has its answer. The record shown is the worker's own lease exactly when the log did not change
  in between and the append was a real one, or was deduplicated against a claim that was still the last.
  */
  ghost predicate ShowsOwnIff(before: System, w: nat, clock: Time, answered: seq<Recorded>, now: System, after: System)
    requires PcOf(before, w).AppendClaim?
  {
    var mine, r := PcOf(before, w).claim, WorkerAppend(before.log, PcOf(before, w), clock);
    && |after.answers| == |now.answers| + 1
    && var answer := after.answers[|now.answers|];
    && answer.Acquired? && answer.lease == mine.lease
    && (answer.record.state == Claimed(mine) <==>
          now.log == answered
          && (r.Appended? || (before.log != [] && before.log[|before.log| - 1].body == ClaimedBody(mine))))
  }

  /** `Acquired` carries a reloaded record: when it shows the worker's own lease, over whole runs. */
  lemma AcquiredShowsOwnLeaseIff(steps: seq<Step>, n: nat, m: nat, w: nat)
    requires n < m < |steps| && steps[m] == Reload(w) && forall k :: n < k < m ==> steps[k].w != w
    requires steps[n].AppendStep? && steps[n].w == w && !steps[n].responseLost && PcOf(Run(steps[..n]), w).AppendClaim?
    requires !WorkerAppend(Run(steps[..n]).log, PcOf(Run(steps[..n]), w), steps[n].clock).Refused?
    ensures ShowsOwnIff(Run(steps[..n]), w, steps[n].clock, Run(steps[..n + 1]).log,
                        Run(steps[..m]), Run(steps[..m + 1]))
  {
    RunNext(steps, n);
    RunNext(steps, m);
    RunKeepsInv(steps[..n]);
    RunKeepsInv(steps[..m]);
    assert steps[..m][..n + 1] == steps[..n + 1];
    RunAppendOnly(steps[..m], n + 1);
    PcUntouched(steps, n + 1, m, w);
    AnsweredThenReloaded(Run(steps[..n]), steps[n], Run(steps[..n + 1]), Run(steps[..m]), w);
  }

  lemma AnsweredThenReloaded(s: System, step: Step, next: System, t: System, w: nat)
    requires step.AppendStep? && step.w == w && !step.responseLost && Inv(s) && PcOf(s, w).AppendClaim?
    requires !WorkerAppend(s.log, PcOf(s, w), step.clock).Refused? && next == Apply(s, step)
    requires Inv(t) && next.log <= t.log && PcOf(t, w) == PcOf(next, w)
    ensures ShowsOwnIff(s, w, step.clock, next.log, t, Apply(t, Reload(w)))
  {
    ClaimAnswered(s, w, step.clock);
    assert step == AppendStep(w, step.clock, false);
    ClaimShown(s.log, PcOf(s, w), step.clock, next.log, t.log);
    ReloadAnswers(t, w, PcOf(s, w).claim);
  }

  lemma ClaimAnswered(s: System, w: nat, clock: Time)
    requires PcOf(s, w).AppendClaim? && !WorkerAppend(s.log, PcOf(s, w), clock).Refused?
    ensures var r, t := WorkerAppend(s.log, PcOf(s, w), clock), Apply(s, AppendStep(w, clock, false));
      t.log == (if r.Appended? then r.log else s.log) && PcOf(t, w) == ReloadClaim(PcOf(s, w).claim)
  {
  }

  lemma ClaimShown(log: seq<Recorded>, pc: Pc, clock: Time, answered: seq<Recorded>, now: seq<Recorded>)
    requires LogOk(log) && PcOk(log, pc) && pc.AppendClaim? && !WorkerAppend(log, pc, clock).Refused?
    requires var r := WorkerAppend(log, pc, clock); answered == if r.Appended? then r.log else log
    requires LogOk(now) && answered <= now
    ensures Load(now).Present?
    ensures Load(now).record.state == Claimed(pc.claim) <==> (
      && now == answered
      && (WorkerAppend(log, pc, clock).Appended? || (log != [] && log[|log| - 1].body == ClaimedBody(pc.claim))))
  {
    var i := ClaimLands(log, pc, clock);
    LastClaimShown(answered, now, pc.claim, i);
  }

  lemma ReloadAnswers(t: System, w: nat, claim: Claim)
    requires PcOf(t, w) == ReloadClaim(claim) && Load(t.log).Present?
    ensures Apply(t, Reload(w)).answers == t.answers + [Acquired(claim.lease, Load(t.log).record)]
  {
  }

  lemma LastClaimShown(answered: seq<Recorded>, now: seq<Recorded>, claim: Claim, i: nat)
    requires LogOk(now) && answered <= now && i < |answered| && answered[i].body == ClaimedBody(claim)
    ensures Load(now).Present? && (Load(now).record.state == Claimed(claim) <==> now == answered && i == |answered| - 1)
  {
    LastClaimOnce(answered, now, claim, i);
    LoadShaped(now);
  }

  const RACE_EFFECT := Effect("operation", "key", "plan")
  const EARLY := Claim("a", "first", 10)
  const LATE := Claim("b", "other", 20)

  /** Two workers race with one lease; it expires and a third worker claims before they reload. */
  const RACE: seq<Step> := [
    BeginPrepare(0, RACE_EFFECT), AppendStep(0, 0, false), BeginClaim(1, EARLY, 0), BeginClaim(2, EARLY, 0),
    AppendStep(1, 0, false), BeginClaim(3, LATE, 10), AppendStep(3, 0, false), AppendStep(2, 0, false),
    Reload(2), Reload(1)]

  function RaceLog(n: nat): seq<Recorded> {
    [Recorded(1, false, PreparedBody(RACE_EFFECT), "key", 0), Recorded(2, false, ClaimedBody(EARLY), ClaimKey("a"), 0),
     Recorded(3, false, ClaimedBody(LATE), ClaimKey("b"), 10)][..if n < 3 then n else 3]
  }

  lemma RaceLoads(n: nat)
    requires 1 <= n <= 3
    ensures Load(RaceLog(n)) == Present(EffectRecord(RACE_EFFECT, StateOf(RaceLog(n)[n - 1].body), n))
  {
    LoadShaped(RaceLog(n));
  }

  lemma RaceKeys()
    ensures ClaimKey("a") != "key" && ClaimKey("b") != "key" && ClaimKey("a") != ClaimKey("b")
  {
    assert ClaimKey("a")[13] == 'a' && ClaimKey("b")[13] == 'b';
  }

  /** The state of the race after its first `n` steps, for the steps that matter. */
  function RaceAt(n: nat): System {
    var prepared := ReloadPrepare(RACE_EFFECT);
    var waiting, claimed := AppendClaim(EARLY, 0, 1), ReloadClaim(EARLY);
    var shown := Acquired("a", EffectRecord(RACE_EFFECT, Claimed(LATE), 3));
    if n == 0 then EMPTY
    else if n == 1 then System([], map[0 := AppendPrepare(RACE_EFFECT)], [])
    else if n == 2 then System(RaceLog(1), map[0 := prepared], [])
    else if n == 3 then System(RaceLog(1), map[0 := prepared, 1 := waiting], [])
    else if n == 4 then System(RaceLog(1), map[0 := prepared, 1 := waiting, 2 := waiting], [])
    else if n == 5 then System(RaceLog(2), map[0 := prepared, 1 := claimed, 2 := waiting], [])
    else if n == 6 then
      System(RaceLog(2), map[0 := prepared, 1 := claimed, 2 := waiting, 3 := AppendClaim(LATE, 10, 2)], [])
    else if n == 7 then System(RaceLog(3), map[0 := prepared, 1 := claimed, 2 := waiting, 3 := ReloadClaim(LATE)], [])
    else if n == 8 then System(RaceLog(3), map[0 := prepared, 1 := claimed, 2 := claimed, 3 := ReloadClaim(LATE)], [])
    else if n == 9 then System(RaceLog(3), map[0 := prepared, 1 := claimed, 2 := Idle, 3 := ReloadClaim(LATE)], [shown])
    else System(RaceLog(3), map[0 := prepared, 1 := Idle, 2 := Idle, 3 := ReloadClaim(LATE)], [shown, shown])
  }

  lemma RacePrepares()
    ensures Apply(RaceAt(0), RACE[0]) == RaceAt(1)
  {
  }

  lemma RaceClaims(n: nat)
    requires n in {2, 3}
    ensures Apply(RaceAt(n), RACE[n]) == RaceAt(n + 1)
  {
    RaceLoads(1);
    assert !Blank("a") && !Blank("first") by { assert !Space("a"[0]) && !Space("first"[0]); }
    assert DecideClaim(RaceAt(n), n - 1, EARLY, 0) == Goto(RaceAt(n), n - 1, AppendClaim(EARLY, 0, 1));
  }

  lemma RaceClaimsLate()
    ensures Apply(RaceAt(5), RACE[5]) == RaceAt(6)
  {
    RaceLoads(2);
    assert !Blank("b") && !Blank("other") by { assert !Space("b"[0]) && !Space("other"[0]); }
    assert DecideClaim(RaceAt(5), 3, LATE, 10) == Goto(RaceAt(5), 3, AppendClaim(LATE, 10, 2));
  }

  lemma RaceAppends(n: nat)
    requires n in {1, 4, 6}
    ensures Apply(RaceAt(n), RACE[n]) == RaceAt(n + 1)
  {
    RaceKeys();
    if n == 1 {
      assert RaceLog(1) == [] + [Recorded(1, false, PreparedBody(RACE_EFFECT), "key", 0)];
    } else if n == 4 {
      assert RaceLog(2) == RaceLog(1) + [Recorded(2, false, ClaimedBody(EARLY), ClaimKey("a"), 0)];
    } else {
      assert RaceLog(3) == RaceLog(2) + [Recorded(3, false, ClaimedBody(LATE), ClaimKey("b"), 10)];
    }
  }

  lemma RaceDeduplicates()
    ensures WorkerAppend(RaceAt(7).log, PcOf(RaceAt(7), 2), 0) == Deduplicated
    ensures Apply(RaceAt(7), RACE[7]) == RaceAt(8)
  {
    assert RaceLog(3)[1].key == ClaimKey("a") && RaceLog(3)[1].body == ClaimedBody(EARLY);
  }

  lemma RaceReloads(n: nat)
    requires n in {8, 9}
    ensures Apply(RaceAt(n), RACE[n]) == RaceAt(n + 1)
  {
    RaceLoads(3);
  }

  lemma {:induction false} RaceRuns(n: nat)
    requires n <= 10
    ensures Run(RACE[..n]) == RaceAt(n)
  {
    if n > 0 {
      RaceRuns(n - 1);
      RunNext(RACE, n - 1);
      if n - 1 == 0 { RacePrepares(); }
      else if n - 1 in {2, 3} { RaceClaims(n - 1); }
      else if n - 1 == 5 { RaceClaimsLate(); }
      else if n - 1 in {1, 4, 6} { RaceAppends(n - 1); }
      else if n - 1 == 7 { RaceDeduplicates(); }
      else { RaceReloads(n - 1); }
    }
  }

  /**
  A run in which both racing workers acquire lease `a` and are shown lease `b`. Worker 1's append was
  real and the log grew before its reload; worker 2's was deduplicated and nothing was appended after it.
  */
  lemma AcquiredShowsForeignLease()
    ensures var shown := EffectRecord(RACE_EFFECT, Claimed(LATE), 3);
      Run(RACE).answers == [Acquired("a", shown), Acquired("a", shown)]
    ensures WorkerAppend(Run(RACE[..7]).log, PcOf(Run(RACE[..7]), 2), 0) == Deduplicated
    ensures Run(RACE[..7]).log == Run(RACE[..8]).log == Run(RACE).log
  {
    assert RACE[..10] == RACE;
    RaceRuns(7);
    RaceRuns(8);
    RaceRuns(10);
    RaceDeduplicates();
  }

  function ReclaimedLog(effect: Effect, claim: Claim, outcome: string): seq<Recorded> {
    [Recorded(1, false, PreparedBody(effect), "k", 0), Recorded(2, false, ClaimedBody(claim), "a", 0),
     Recorded(3, false, CompletedBody(outcome), "b", 0), Recorded(4, false, ClaimedBody(claim), "c", 0)]
  }

  /** The fold alone is too lax: it accepts a claim after a completion. */
  lemma FoldAloneIsLax(effect: Effect, claim: Claim, outcome: string)
    ensures var log := ReclaimedLog(effect, claim, outcome);
      Load(log) == Present(EffectRecord(effect, Claimed(claim), 4)) && !Shaped(log)
  {
    var log := ReclaimedLog(effect, claim, outcome);
    LoadAcceptsIff(log);
    assert log[2].body.CompletedBody?;
  }
}
