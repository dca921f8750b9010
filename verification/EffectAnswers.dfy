/**
What the journal's three operations answer, and what they append, on every reachable journal: stated by
the last event of the log, not by how an operation decides.
*/
module EffectAnswers {
  import opened Text
  import opened EffectJournal

  /** The journal holds no event under this idempotency key. */
  predicate Unused(log: seq<Recorded>, key: string) { forall i :: 0 <= i < |log| ==> log[i].key != key }

  /** What a caller is shown of a journal that has begun. */
  function Shown(log: seq<Recorded>, state: EffectState): EffectRecord
    requires log != [] && log[0].body.PreparedBody?
  {
    EffectRecord(log[0].body.effect, state, |log|)
  }

  function Last(log: seq<Recorded>): Body
    requires log != []
  {
    log[|log| - 1].body
  }

  /** The worker gets this answer at once and nothing is appended. */
  ghost predicate AnswersAtOnce(s: System, t: System, w: nat, a: Answer) {
    t.log == s.log && t.answers == s.answers + [a] && PcOf(t, w).Idle?
  }

  /** The worker appends this one event and gets this answer. */
  ghost predicate AppendsAndAnswers(s: System, t: System, w: nat, body: Body, key: string, at: Time, a: Answer) {
    && t.log == s.log + [Recorded(|s.log| + 1, false, body, key, at)]
    && t.answers == s.answers + [a] && PcOf(t, w).Idle?
  }

  lemma RunSnoc(steps: seq<Step>, step: Step)
    ensures Run(steps + [step]) == Apply(Run(steps), step)
  {
    assert (steps + [step])[..|steps|] == steps;
  }

  lemma RunThree(steps: seq<Step>, a: Step, b: Step, c: Step)
    ensures Run(steps + [a] + [b] + [c]) == Apply(Apply(Apply(Run(steps), a), b), c)
  {
    RunSnoc(steps, a);
    RunSnoc(steps + [a], b);
    RunSnoc(steps + [a] + [b], c);
  }

  /** A well-formed journal that has begun, and how it loads. */
  ghost predicate Begun(log: seq<Recorded>) {
    && LogOk(log) && log != [] && log[0].body.PreparedBody? && !Last(log).OtherBody?
    && Load(log) == Present(Shown(log, StateOf(Last(log))))
  }

  lemma ReachableShown(steps: seq<Step>)
    ensures var log := Run(steps).log; LogOk(log) && if log == [] then Load(log) == Absent else Begun(log)
  {
    RunKeepsInv(steps);
    LoadShaped(Run(steps).log);
  }

  /** A waiting worker's append under a fresh key, on the log it decided on. */
  lemma AppendLands(log: seq<Recorded>, pc: Pc, clock: Time, body: Body, key: string, at: Time)
    requires LogOk(log) && PcOk(log, pc) && Waiting(pc) && Unused(log, key)
    requires WorkerAppend(log, pc, clock) == Append(log, |log|, body, key, at)
    ensures var longer := log + [Recorded(|log| + 1, false, body, key, at)];
      && WorkerAppend(log, pc, clock) == Appended(longer)
      && longer[0].body.PreparedBody? && !body.OtherBody?
      && Load(longer) == Present(Shown(longer, StateOf(body)))
  {
    var longer := log + [Recorded(|log| + 1, false, body, key, at)];
    assert WorkerAppend(log, pc, clock) == Appended(longer);
    AppendKeepsLog(log, pc, clock);
    assert longer[|log|].body == body;
    LoadShaped(longer);
  }

  lemma AppendMoves(s: System, w: nat, clock: Time, longer: seq<Recorded>)
    requires Waiting(PcOf(s, w)) && WorkerAppend(s.log, PcOf(s, w), clock) == Appended(longer)
    ensures Apply(s, AppendStep(w, clock, false)) == Goto(s.(log := longer), w, AfterAppend(PcOf(s, w)))
  {
  }

  lemma ReloadMoves(s: System, w: nat, loaded: Loaded)
    requires Load(s.log) == loaded && !PcOf(s, w).Idle? && !Waiting(PcOf(s, w))
    ensures Apply(s, Reload(w)) == Reply(s, w, FinalAnswer(PcOf(s, w), loaded))
  {
  }

  /** Its append and its reload, undisturbed. */
  lemma AppendThenAnswer(s: System, w: nat, clock: Time, body: Body, key: string, at: Time)
    requires LogOk(s.log) && PcOk(s.log, PcOf(s, w)) && Waiting(PcOf(s, w)) && Unused(s.log, key)
    requires WorkerAppend(s.log, PcOf(s, w), clock) == Append(s.log, |s.log|, body, key, at)
    ensures var longer := s.log + [Recorded(|s.log| + 1, false, body, key, at)];
      && longer[0].body.PreparedBody? && !body.OtherBody?
      && AppendsAndAnswers(s, Apply(Apply(s, AppendStep(w, clock, false)), Reload(w)), w, body, key, at,
                           FinalAnswer(AfterAppend(PcOf(s, w)), Present(Shown(longer, StateOf(body)))))
  {
    var longer := s.log + [Recorded(|s.log| + 1, false, body, key, at)];
    AppendLands(s.log, PcOf(s, w), clock, body, key, at);
    AppendMoves(s, w, clock, longer);
    ReloadMoves(Apply(s, AppendStep(w, clock, false)), w, Present(Shown(longer, StateOf(body))));
  }

  // ---- prepare ----

  /** On a journal that has begun, prepare confirms the same effect, refuses any other, and never appends. */
  lemma PrepareAgain(steps: seq<Step>, w: nat, effect: Effect)
    requires PcOf(Run(steps), w).Idle? && Run(steps).log != []
    ensures var s := Run(steps);
      && s.log[0].body.PreparedBody? && !Last(s.log).OtherBody?
      && AnswersAtOnce(s, Run(steps + [BeginPrepare(w, effect)]), w,
           if s.log[0].body.effect == effect then PrepareOk(effect, Shown(s.log, StateOf(Last(s.log)))) else Failed)
  {
    ReachableShown(steps);
    RunSnoc(steps, BeginPrepare(w, effect));
  }

  /** On an empty journal, an undisturbed prepare writes the effect and shows it prepared at revision one. */
  lemma PrepareFirst(steps: seq<Step>, w: nat, effect: Effect, clock: Time)
    requires PcOf(Run(steps), w).Idle? && Run(steps).log == []
    ensures var t := Run(steps + [BeginPrepare(w, effect)] + [AppendStep(w, clock, false)] + [Reload(w)]);
      AppendsAndAnswers(Run(steps), t, w, PreparedBody(effect), effect.idempotencyKey, clock,
                        PrepareOk(effect, EffectRecord(effect, Prepared, 1)))
  {
    ReachableShown(steps);
    RunThree(steps, BeginPrepare(w, effect), AppendStep(w, clock, false), Reload(w));
    FirstPrepares(Run(steps), w, effect, clock);
  }

  lemma FirstPrepares(s: System, w: nat, effect: Effect, clock: Time)
    requires PcOf(s, w).Idle? && s.log == [] && LogOk(s.log) && Load(s.log) == Absent
    ensures var t := Apply(Apply(Apply(s, BeginPrepare(w, effect)), AppendStep(w, clock, false)), Reload(w));
      AppendsAndAnswers(s, t, w, PreparedBody(effect), effect.idempotencyKey, clock,
                        PrepareOk(effect, EffectRecord(effect, Prepared, 1)))
  {
    var waiting := Apply(s, BeginPrepare(w, effect));
    assert waiting == Goto(s, w, AppendPrepare(effect));
    AppendThenAnswer(waiting, w, clock, PreparedBody(effect), effect.idempotencyKey, clock);
  }

  // ---- claim ----

  /** A claim that may be appended: the journal is prepared or its last lease has expired, and the claim is valid. */
  predicate Claimable(log: seq<Recorded>, claim: Claim, now: Time) {
    && log != [] && !Blank(claim.lease) && !Blank(claim.worker) && now < claim.expiresAt
    && (Last(log).PreparedBody?
        || (Last(log).ClaimedBody? && Last(log).claim.lease != claim.lease && Last(log).claim.expiresAt <= now))
  }

  /** The answer of a claim that is not appended. */
  function ClaimAnswer(log: seq<Recorded>, claim: Claim, now: Time): Answer
    requires log != [] ==> log[0].body.PreparedBody?
  {
    if log == [] then Failed
    else
      match Last(log)
      case CompletedBody(outcome) => Terminal(Shown(log, Completed(outcome)))
      case ClaimedBody(active) =>
        if active.lease == claim.lease then Acquired(claim.lease, Shown(log, Claimed(active)))
        else if now < active.expiresAt then Busy(claim.lease, now, Shown(log, Claimed(active)))
        else Failed
      case _ => Failed
  }

  /**
  A claim is terminal exactly on a completed journal, acquired at once exactly when its lease is the last
  one, busy exactly under another lease that has not expired, and a failure on an empty journal or for an
  invalid claim; none of these appends.
  */
  lemma ClaimAtOnce(steps: seq<Step>, w: nat, claim: Claim, now: Time)
    requires PcOf(Run(steps), w).Idle? && !Claimable(Run(steps).log, claim, now)
    ensures var log := Run(steps).log; log != [] ==> log[0].body.PreparedBody?
    ensures AnswersAtOnce(Run(steps), Run(steps + [BeginClaim(w, claim, now)]), w,
                          ClaimAnswer(Run(steps).log, claim, now))
  {
    ReachableShown(steps);
    RunSnoc(steps, BeginClaim(w, claim, now));
  }

  /** A claimable claim under a fresh lease id is appended and acquired when nothing disturbs it. */
  lemma ClaimFresh(steps: seq<Step>, w: nat, claim: Claim, now: Time, clock: Time)
    requires PcOf(Run(steps), w).Idle? && Claimable(Run(steps).log, claim, now)
    requires Unused(Run(steps).log, ClaimKey(claim.lease))
    ensures var s := Run(steps);
      var t := Run(steps + [BeginClaim(w, claim, now)] + [AppendStep(w, clock, false)] + [Reload(w)]);
      && s.log[0].body.PreparedBody?
      && AppendsAndAnswers(s, t, w, ClaimedBody(claim), ClaimKey(claim.lease), now,
           Acquired(claim.lease, EffectRecord(s.log[0].body.effect, Claimed(claim), |s.log| + 1)))
  {
    ReachableShown(steps);
    RunThree(steps, BeginClaim(w, claim, now), AppendStep(w, clock, false), Reload(w));
    FreshClaims(Run(steps), w, claim, now, clock);
  }

  lemma FreshClaims(s: System, w: nat, claim: Claim, now: Time, clock: Time)
    requires PcOf(s, w).Idle? && Begun(s.log) && Claimable(s.log, claim, now) && Unused(s.log, ClaimKey(claim.lease))
    ensures var t := Apply(Apply(Apply(s, BeginClaim(w, claim, now)), AppendStep(w, clock, false)), Reload(w));
      AppendsAndAnswers(s, t, w, ClaimedBody(claim), ClaimKey(claim.lease), now,
        Acquired(claim.lease, EffectRecord(s.log[0].body.effect, Claimed(claim), |s.log| + 1)))
  {
    ClaimWaits(s, w, claim, now);
    AppendThenAnswer(Apply(s, BeginClaim(w, claim, now)), w, clock, ClaimedBody(claim), ClaimKey(claim.lease), now);
  }

  lemma ClaimWaits(s: System, w: nat, claim: Claim, now: Time)
    requires Begun(s.log) && PcOf(s, w).Idle? && Claimable(s.log, claim, now)
    ensures Apply(s, BeginClaim(w, claim, now)) == Goto(s, w, AppendClaim(claim, now, |s.log|))
    ensures PcOk(s.log, AppendClaim(claim, now, |s.log|))
  {
    ClaimDecisionOk(s.log, claim, now);
  }

  // ---- complete ----

  /** The lease that may complete the journal: that of a claim at its end. */
  predicate Holds(log: seq<Recorded>, lease: string) {
    log != [] && Last(log).ClaimedBody? && Last(log).claim.lease == lease
  }

  /**
  Without the lease a completion appends nothing: it repeats the recorded outcome to a caller with the
  same one, and is a failure for another outcome, another lease, or a journal that was never claimed.
  */
  lemma CompleteAtOnce(steps: seq<Step>, w: nat, lease: string, outcome: string)
    requires PcOf(Run(steps), w).Idle? && !Holds(Run(steps).log, lease)
    ensures var s := Run(steps);
      && (s.log != [] ==> s.log[0].body.PreparedBody?)
      && AnswersAtOnce(s, Run(steps + [BeginComplete(w, lease, outcome)]), w,
           if s.log != [] && Last(s.log) == CompletedBody(outcome)
           then CompleteOk(outcome, Shown(s.log, Completed(outcome))) else Failed)
  {
    ReachableShown(steps);
    RunSnoc(steps, BeginComplete(w, lease, outcome));
  }

  /** The lease holder's undisturbed completion is appended and answered with the completed record. */
  lemma CompleteByHolder(steps: seq<Step>, w: nat, lease: string, outcome: string, clock: Time)
    requires PcOf(Run(steps), w).Idle? && Holds(Run(steps).log, lease)
    requires Unused(Run(steps).log, CompleteKey(lease))
    ensures var s := Run(steps);
      var t := Run(steps + [BeginComplete(w, lease, outcome)] + [AppendStep(w, clock, false)] + [Reload(w)]);
      && s.log[0].body.PreparedBody?
      && AppendsAndAnswers(s, t, w, CompletedBody(outcome), CompleteKey(lease), clock,
           CompleteOk(outcome, EffectRecord(s.log[0].body.effect, Completed(outcome), |s.log| + 1)))
  {
    ReachableShown(steps);
    RunThree(steps, BeginComplete(w, lease, outcome), AppendStep(w, clock, false), Reload(w));
    HolderCompletes(Run(steps), w, lease, outcome, clock);
  }

  lemma HolderCompletes(s: System, w: nat, lease: string, outcome: string, clock: Time)
    requires PcOf(s, w).Idle? && Begun(s.log) && Holds(s.log, lease) && Unused(s.log, CompleteKey(lease))
    ensures var t := Apply(Apply(Apply(s, BeginComplete(w, lease, outcome)), AppendStep(w, clock, false)), Reload(w));
      AppendsAndAnswers(s, t, w, CompletedBody(outcome), CompleteKey(lease), clock,
        CompleteOk(outcome, EffectRecord(s.log[0].body.effect, Completed(outcome), |s.log| + 1)))
  {
    CompleteWaits(s, w, lease, outcome);
    var waiting := Apply(s, BeginComplete(w, lease, outcome));
    AppendThenAnswer(waiting, w, clock, CompletedBody(outcome), CompleteKey(lease), clock);
  }

  lemma CompleteWaits(s: System, w: nat, lease: string, outcome: string)
    requires Begun(s.log) && PcOf(s, w).Idle? && Holds(s.log, lease)
    ensures Apply(s, BeginComplete(w, lease, outcome)) == Goto(s, w, AppendComplete(lease, outcome, |s.log|))
    ensures PcOk(s.log, AppendComplete(lease, outcome, |s.log|))
  {
  }

  // ---- appends that lose a race ----

  /** The key a waiting worker appends under, and the log length it decided on. */
  function KeyOf(pc: Pc): string
    requires Waiting(pc)
  {
    match pc
    case AppendPrepare(effect) => effect.idempotencyKey
    case AppendClaim(claim, _, _) => ClaimKey(claim.lease)
    case AppendComplete(lease, _, _) => CompleteKey(lease)
  }

  function BasisOf(pc: Pc): nat
    requires Waiting(pc)
  {
    match pc
    case AppendPrepare(_) => 0
    case AppendClaim(_, _, rev) => rev
    case AppendComplete(_, _, rev) => rev
  }

  /** A decision on an older log, under a key nobody used, is answered with a failure and appends nothing. */
  lemma StaleAppendFails(s: System, w: nat, clock: Time, lost: bool)
    requires Waiting(PcOf(s, w)) && |s.log| != BasisOf(PcOf(s, w)) && Unused(s.log, KeyOf(PcOf(s, w)))
    ensures AnswersAtOnce(s, Apply(s, AppendStep(w, clock, lost)), w, Failed)
  {
  }

  /** A lost response is answered with a failure, although the event may have been appended. */
  lemma LostResponseFails(s: System, w: nat, clock: Time)
    requires Waiting(PcOf(s, w))
    ensures var t := Apply(s, AppendStep(w, clock, true));
      && t.answers == s.answers + [Failed] && PcOf(t, w).Idle?
      && (|s.log| == BasisOf(PcOf(s, w)) && Unused(s.log, KeyOf(PcOf(s, w))) ==> |t.log| == |s.log| + 1)
  {
  }
}
