/**
The /4 record of an intent: one batch of a decision and an observation, how it is recovered after
any growth of the store, and how a repair token finds it again.
*/
module IntentsV4 {
  import opened Text
  import opened JsonNumbers

  datatype Subject = Subject(entity: string, id: string)
  datatype Instance = Instance(subject: Subject, revision: nat, body: string)

  /** One decision of the Entity Runtime; `arguments` is the normalised command it decided on. */
  datatype DecisionRecord = DecisionRecord(
    revision: nat, outcome: Option<string>, response: Option<Value>, arguments: Value)
  datatype Decision = Decision(instance: Instance, record: DecisionRecord)

  datatype Selector = CommandField(value: string) | GeneratedUuid

  datatype Original = Original(
    planDigest: string, operation: string, input: Value, service: string, tenant: string, realm: Option<string>,
    authority: string, user: string, executor: Option<string>, idempotencyKey: string,
    expectedVersion: Option<nat>, category: string, selector: Selector)

  datatype Observation = Observation(
    format: string, intent: Original, intentDigest: string, selectedOutcome: Option<string>,
    response: Option<Value>, throughVersion: nat)

  datatype Entry =
    | DecisionEntry(decision: Decision)
    | ObservationEntry(subject: Subject, revision: nat, observation: Observation)
  datatype StoredBatch = StoredBatch(key: string, records: seq<Entry>, receipt: nat)

  const OBSERVATION_FORMAT := "service-intent-observation/4"

  /** External code: replay step, number semantics, intent digest and claim digest. */
  datatype Runtime = Runtime(
    step: (Option<Instance>, DecisionRecord) -> Option<Instance>, numerics: Numerics,
    intentDigest: Original -> string, claimDigest: (string, string, Selector, string) -> string)

  /** `entity_core::replay`: a left fold over the records; an empty or refused history has no instance. */
  function Replay(rt: Runtime, history: seq<DecisionRecord>): Option<Instance> {
    if history == [] then None
    else
      var before := Replay(rt, history[..|history| - 1]);
      if |history| > 1 && before.None? then None else rt.step(before, history[|history| - 1])
  }

  /** Record `i` steps from the instance before it to the instance at `i`. */
  ghost predicate StepsAt(rt: Runtime, history: seq<DecisionRecord>, through: seq<Instance>, i: nat)
    requires i < |history| && i < |through|
  {
    rt.step(if i == 0 then None else Some(through[i - 1]), history[i]) == Some(through[i])
  }

  /** The instances that a history goes through. */
  ghost predicate GoesThrough(rt: Runtime, history: seq<DecisionRecord>, through: seq<Instance>) {
    |through| == |history| && forall i :: 0 <= i < |history| ==> StepsAt(rt, history, through, i)
  }

  lemma ThroughMore(rt: Runtime, history: seq<DecisionRecord>, through: seq<Instance>)
    requires history != [] && |through| == |history|
    ensures var n := |history| - 1;
      GoesThrough(rt, history, through) <==>
        GoesThrough(rt, history[..n], through[..n]) && StepsAt(rt, history, through, n)
  {
    var n := |history| - 1;
    var init, before := history[..n], through[..n];
    forall i | 0 <= i < n ensures StepsAt(rt, history, through, i) <==> StepsAt(rt, init, before, i) {
      assert init[i] == history[i] && before[i] == through[i];
      if i > 0 { assert before[i - 1] == through[i - 1]; }
    }
  }

  /** A history replays exactly when every record steps from the instance before it, to the last of these. */
  lemma {:induction false} ReplayIff(rt: Runtime, history: seq<DecisionRecord>, last: Instance)
    requires history != []
    ensures Replay(rt, history) == Some(last) <==>
      exists through :: GoesThrough(rt, history, through) && through[|history| - 1] == last
  {
    if Replay(rt, history) == Some(last) { var through := ReplayThrough(rt, history); }
    if through :| GoesThrough(rt, history, through) && through[|history| - 1] == last {
      ThroughReplays(rt, history, through);
    }
  }

  lemma {:induction false} ReplayThrough(rt: Runtime, history: seq<DecisionRecord>) returns (through: seq<Instance>)
    requires history != [] && Replay(rt, history).Some?
    ensures GoesThrough(rt, history, through) && Replay(rt, history) == Some(through[|history| - 1])
  {
    var n := |history| - 1;
    var last := Replay(rt, history).value;
    if n == 0 {
      through := [last];
      assert history[..0] == [];
    } else {
      var before := ReplayThrough(rt, history[..n]);
      through := before + [last];
      assert through[..n] == before && through[n - 1] == before[n - 1];
    }
    ThroughMore(rt, history, through);
  }

  lemma {:induction false} ThroughReplays(rt: Runtime, history: seq<DecisionRecord>, through: seq<Instance>)
    requires history != [] && GoesThrough(rt, history, through)
    ensures Replay(rt, history) == Some(through[|history| - 1])
  {
    var n := |history| - 1;
    ThroughMore(rt, history, through);
    if n == 0 {
      assert history[..0] == [];
    } else {
      ThroughReplays(rt, history[..n], through[..n]);
    }
  }

  datatype Store = Store(batches: map<string, StoredBatch>, histories: map<Subject, seq<DecisionRecord>>)

  function History(s: Store, subject: Subject): seq<DecisionRecord> {
    if subject in s.histories then s.histories[subject] else []
  }

  // ---- recover ----

  datatype Failure = Admission | Input | Binding | Fulfillment | Conflict | Integrity | Persistence
    | Aftercare(receipt: nat, token: string)
  datatype Outcome = Committed(decision: Decision, receipt: nat, replayed: bool) | Refused | Failed(failure: Failure)

  /** Position of the first record with a revision. */
  function PositionOf(history: seq<DecisionRecord>, revision: nat): Option<nat> {
    if history == [] then None
    else if history[0].revision == revision then Some(0)
    else match PositionOf(history[1..], revision) case None => None case Some(i) => Some(i + 1)
  }

  /** `original_intents_match`: all fields, numbers by value, an unrecorded precondition not compared. */
  predicate IntentsMatch(rt: Runtime, recorded: Original, attempted: Original) {
    var compatible := if recorded.expectedVersion.None? then attempted.(expectedVersion := None) else attempted;
    rt.numerics.Equal(recorded.input, compatible.input) && recorded == compatible.(input := recorded.input)
  }

  /** The part of `recover` that needs the subject's history. */
  function VerifyHistory(rt: Runtime, history: seq<DecisionRecord>, d: Decision, receipt: nat): Outcome {
    if Replay(rt, history).None? then Failed(Integrity)
    else
      match PositionOf(history, d.instance.revision)
      case None => Failed(Integrity)
      case Some(target) =>
        if target >= |history| || history[target] != d.record then Failed(Integrity)
        else if Replay(rt, history[..target + 1]) != Some(d.instance) then Failed(Integrity)
        else Committed(d, receipt, true)
  }

  /** `recover`; `history` is `None` when reading it failed. */
  function Recover(rt: Runtime, batch: StoredBatch, original: Original, history: Option<seq<DecisionRecord>>): Outcome {
    if |batch.records| != 2 || !batch.records[0].DecisionEntry? || !batch.records[1].ObservationEntry? then
      Failed(Integrity)
    else
      var d, o := batch.records[0].decision, batch.records[1];
      var obs := o.observation;
      if o.subject != d.instance.subject || o.revision != d.instance.revision then Failed(Integrity)
      else if obs.format != OBSERVATION_FORMAT || obs.intentDigest != rt.intentDigest(obs.intent) then Failed(Integrity)
      else if !IntentsMatch(rt, obs.intent, original) then Failed(Conflict)
      else if obs.selectedOutcome != d.record.outcome || obs.response != d.record.response then Failed(Integrity)
      else if obs.throughVersion != d.instance.revision then Failed(Integrity)
      else if history.None? then Failed(Persistence)
      else VerifyHistory(rt, history.value, d, batch.receipt)
  }

  // ---- the store and its appends ----

  /** The batch that `execute_admitted` writes for a decision. */
  function BatchFor(rt: Runtime, claim: string, original: Original, d: Decision, receipt: nat): StoredBatch {
    var obs := Observation(OBSERVATION_FORMAT, original, rt.intentDigest(original), d.record.outcome,
                           d.record.response, d.instance.revision);
    StoredBatch(claim, [DecisionEntry(d), ObservationEntry(d.instance.subject, d.instance.revision, obs)], receipt)
  }

  datatype AppendResult = Fresh(store: Store) | Replayed(receipt: nat) | Rejected

  /** A stored claim answers with its receipt or refuses; otherwise the subject's revision is guarded. */
  function AppendBatch(rt: Runtime, s: Store, claim: string, original: Original, base: nat, d: Decision): AppendResult {
    var written := BatchFor(rt, claim, original, d, |s.batches|);
    if claim in s.batches then
      if s.batches[claim].records == written.records then Replayed(s.batches[claim].receipt) else Rejected
    else
      var h := History(s, d.instance.subject);
      if |h| != base then Rejected
      else Fresh(Store(s.batches[claim := written], s.histories[d.instance.subject := h + [d.record]]))
  }

  /** What the Entity Runtime promises of an accepted decision on the instance at revision `base`. */
  ghost predicate Legal(rt: Runtime, s: Store, base: nat, d: Decision) {
    var h := History(s, d.instance.subject);
    && base <= |h| && d.record.revision == d.instance.revision == base + 1
    && rt.step(Replay(rt, h[..base]), d.record) == Some(d.instance)
  }

  ghost predicate HistoryOk(rt: Runtime, subject: Subject, h: seq<DecisionRecord>) {
    forall i :: 0 <= i < |h| ==> RevisionOk(rt, subject, h, i)
  }

  /** Revisions count from one, and every prefix replays to an instance of the subject. */
  ghost predicate RevisionOk(rt: Runtime, subject: Subject, h: seq<DecisionRecord>, i: nat)
    requires i < |h|
  {
    h[i].revision == i + 1 && Replay(rt, h[..i + 1]).Some? && Replay(rt, h[..i + 1]).value.subject == subject
  }

  /** A stored batch is some intent's batch, and its decision is where the history says it is. */
  ghost predicate BatchOk(rt: Runtime, s: Store, claim: string, b: StoredBatch) {
    exists original, d :: BatchIs(rt, s, claim, b, original, d)
  }

  ghost predicate BatchIs(rt: Runtime, s: Store, claim: string, b: StoredBatch, original: Original, d: Decision) {
    && b == BatchFor(rt, claim, original, d, b.receipt)
    && Placed(rt, History(s, d.instance.subject), d)
  }

  ghost predicate Placed(rt: Runtime, h: seq<DecisionRecord>, d: Decision) {
    && 1 <= d.instance.revision <= |h| && h[d.instance.revision - 1] == d.record
    && Replay(rt, h[..d.instance.revision]) == Some(d.instance)
  }

  ghost predicate StoreOk(rt: Runtime, s: Store) {
    && (forall x :: x in s.histories ==> HistoryOk(rt, x, s.histories[x]))
    && (forall k :: k in s.batches ==> BatchOk(rt, s, k, s.batches[k]))
  }

  /** Later stores keep every batch and only lengthen histories. */
  ghost predicate Extends(s: Store, t: Store) {
    && (forall k :: k in s.batches ==> k in t.batches && t.batches[k] == s.batches[k])
    && (forall x :: History(s, x) <= History(t, x))
  }

  lemma PlacedStays(rt: Runtime, h: seq<DecisionRecord>, longer: seq<DecisionRecord>, d: Decision)
    requires h <= longer && Placed(rt, h, d)
    ensures Placed(rt, longer, d)
  {
    assert longer[..d.instance.revision] == h[..d.instance.revision];
  }

  lemma HistoryGrows(rt: Runtime, subject: Subject, h: seq<DecisionRecord>, d: Decision)
    requires HistoryOk(rt, subject, h) && d.instance.subject == subject
    requires d.record.revision == d.instance.revision == |h| + 1 && rt.step(Replay(rt, h), d.record) == Some(d.instance)
    ensures HistoryOk(rt, subject, h + [d.record]) && Placed(rt, h + [d.record], d)
  {
    var longer := h + [d.record];
    assert longer[..|h|] == h && longer[..|h| + 1] == longer;
    if h != [] {
      assert RevisionOk(rt, subject, h, |h| - 1);
      assert h[..|h| - 1 + 1] == h;
    }
    forall i | 0 <= i < |longer| ensures RevisionOk(rt, subject, longer, i) {
      if i < |h| {
        assert RevisionOk(rt, subject, h, i);
        assert longer[..i + 1] == h[..i + 1];
      }
    }
  }

  /** The revision guard turns a decision on a possibly stale load into the next history entry. */
  lemma AppendKeepsStore(rt: Runtime, s: Store, claim: string, original: Original, base: nat, d: Decision)
    requires StoreOk(rt, s) && Legal(rt, s, base, d) && AppendBatch(rt, s, claim, original, base, d).Fresh?
    ensures var t := AppendBatch(rt, s, claim, original, base, d).store;
      && StoreOk(rt, t) && Extends(s, t) && claim in t.batches
      && BatchIs(rt, t, claim, t.batches[claim], original, d)
  {
    var x, h := d.instance.subject, History(s, d.instance.subject);
    assert h[..base] == h;
    HistoryGrows(rt, x, h, d);
    WrittenKeepsStore(rt, s, claim, original, d, h + [d.record]);
  }

  lemma WrittenKeepsStore(rt: Runtime, s: Store, claim: string, original: Original, d: Decision, h: seq<DecisionRecord>)
    requires StoreOk(rt, s) && claim !in s.batches && History(s, d.instance.subject) <= h
    requires HistoryOk(rt, d.instance.subject, h) && Placed(rt, h, d)
    ensures var written := BatchFor(rt, claim, original, d, |s.batches|);
      var t := Store(s.batches[claim := written], s.histories[d.instance.subject := h]);
      StoreOk(rt, t) && Extends(s, t) && BatchIs(rt, t, claim, t.batches[claim], original, d)
  {
    var written := BatchFor(rt, claim, original, d, |s.batches|);
    var t := Store(s.batches[claim := written], s.histories[d.instance.subject := h]);
    assert forall y :: History(s, y) <= History(t, y);
    assert BatchIs(rt, t, claim, t.batches[claim], original, d);
    forall k | k in t.batches ensures BatchOk(rt, t, k, t.batches[k]) {
      if k != claim { BatchStays(rt, s, t, k); }
    }
  }

  lemma BatchStays(rt: Runtime, s: Store, t: Store, k: string)
    requires k in s.batches && BatchOk(rt, s, k, s.batches[k]) && k in t.batches && t.batches[k] == s.batches[k]
    requires forall x :: History(s, x) <= History(t, x)
    ensures BatchOk(rt, t, k, t.batches[k])
  {
    var original, d :| BatchIs(rt, s, k, s.batches[k], original, d);
    PlacedStays(rt, History(s, d.instance.subject), History(t, d.instance.subject), d);
    assert BatchIs(rt, t, k, t.batches[k], original, d);
  }

  /** A legal decision stays legal on any later store: its base is a prefix of the history. */
  lemma LegalStays(rt: Runtime, s: Store, t: Store, base: nat, d: Decision)
    requires Extends(s, t) && Legal(rt, s, base, d)
    ensures Legal(rt, t, base, d)
  {
    var x := d.instance.subject;
    assert History(s, x) <= History(t, x);
    assert History(t, x)[..base] == History(s, x)[..base];
  }

  // ---- recovery stays valid ----

  lemma {:induction false} PositionIsRevision(history: seq<DecisionRecord>, base: nat, revision: nat)
    requires forall i :: 0 <= i < |history| ==> history[i].revision == base + i + 1
    requires base + 1 <= revision <= base + |history|
    ensures PositionOf(history, revision) == Some(revision - base - 1)
  {
    if history[0].revision != revision { PositionIsRevision(history[1..], base + 1, revision); }
  }

  /**
  Two callers mean the same intent: equal input as JSON, every other field equal, and the same expected
  version where one was recorded.
  */
  ghost predicate SameIntent(n: Numerics, recorded: Original, attempt: Original) {
    && n.Equal(recorded.input, attempt.input)
    && attempt.planDigest == recorded.planDigest && attempt.operation == recorded.operation
    && attempt.service == recorded.service && attempt.tenant == recorded.tenant && attempt.realm == recorded.realm
    && attempt.authority == recorded.authority && attempt.user == recorded.user
    && attempt.executor == recorded.executor && attempt.idempotencyKey == recorded.idempotencyKey
    && attempt.category == recorded.category && attempt.selector == recorded.selector
    && (recorded.expectedVersion.Some? ==> attempt.expectedVersion == recorded.expectedVersion)
  }

  lemma MatchIsSame(rt: Runtime, recorded: Original, attempt: Original)
    ensures IntentsMatch(rt, recorded, attempt) <==> SameIntent(rt.numerics, recorded, attempt)
  {
  }

  // ---- what a recovery proves about any batch ----

  /** The decision is in the history under its revision, which the history reaches by replay. */
  ghost predicate VerifiedAt(rt: Runtime, history: seq<DecisionRecord>, d: Decision, i: nat) {
    && i < |history| && history[i] == d.record && history[i].revision == d.instance.revision
    && (forall j :: 0 <= j < i ==> history[j].revision != d.instance.revision)
    && Replay(rt, history).Some? && Replay(rt, history[..i + 1]) == Some(d.instance)
  }

  lemma {:induction false} PositionMeans(history: seq<DecisionRecord>, revision: nat)
    ensures var p := PositionOf(history, revision);
      && (p.None? <==> forall j :: 0 <= j < |history| ==> history[j].revision != revision)
      && (p.Some? ==> p.value < |history| && history[p.value].revision == revision
                      && forall j :: 0 <= j < p.value ==> history[j].revision != revision)
  {
    if history != [] {
      PositionMeans(history[1..], revision);
      assert forall j :: 0 < j < |history| ==> history[j] == history[1..][j - 1];
    }
  }

  lemma VerifyMeans(rt: Runtime, history: seq<DecisionRecord>, d: Decision, receipt: nat)
    ensures var r := VerifyHistory(rt, history, d, receipt);
      (r == Committed(d, receipt, true) <==> exists i :: VerifiedAt(rt, history, d, i))
      && (r != Committed(d, receipt, true) ==> r == Failed(Integrity))
  {
    PositionMeans(history, d.instance.revision);
    var p := PositionOf(history, d.instance.revision);
    if p.Some? && VerifyHistory(rt, history, d, receipt).Committed? {
      assert VerifiedAt(rt, history, d, p.value);
    }
    if i: nat :| VerifiedAt(rt, history, d, i) {
      assert history[i].revision == d.instance.revision;
      assert p.Some? && !(p.value < i) && !(i < p.value);
    }
  }

  /**
  For any batch whatever, and any readable history: recovery commits it exactly when it is the batch of
  some same intent for this decision, and the history verifies the decision.
  */
  lemma RecoverCommitsIff(rt: Runtime, batch: StoredBatch, attempt: Original, history: seq<DecisionRecord>, d: Decision)
    ensures Recover(rt, batch, attempt, Some(history)) == Committed(d, batch.receipt, true) <==> (
      && (exists i :: VerifiedAt(rt, history, d, i))
      && exists o :: batch == BatchFor(rt, batch.key, o, d, batch.receipt) && SameIntent(rt.numerics, o, attempt))
  {
    VerifyMeans(rt, history, d, batch.receipt);
    if |batch.records| == 2 && batch.records[0].DecisionEntry? && batch.records[1].ObservationEntry? {
      MatchIsSame(rt, batch.records[1].observation.intent, attempt);
      VerifyMeans(rt, history, batch.records[0].decision, batch.receipt);
    }
    if Recover(rt, batch, attempt, Some(history)) == Committed(d, batch.receipt, true) {
      var o := batch.records[1].observation.intent;
      assert batch.records == BatchFor(rt, batch.key, o, d, batch.receipt).records;
    }
  }

  lemma IntentMatchesItself(rt: Runtime, original: Original)
    ensures IntentsMatch(rt, original, original)
  {
    EqualReflexive(rt.numerics, original.input);
  }

  /** The history check of a placed decision passes on every well-formed history that contains it. */
  lemma PlacedVerifies(rt: Runtime, subject: Subject, h: seq<DecisionRecord>, d: Decision, receipt: nat)
    requires HistoryOk(rt, subject, h) && Placed(rt, h, d)
    ensures VerifyHistory(rt, h, d, receipt) == Committed(d, receipt, true)
  {
    forall i | 0 <= i < |h| ensures h[i].revision == 0 + i + 1 { assert RevisionOk(rt, subject, h, i); }
    PositionIsRevision(h, 0, d.instance.revision);
    assert RevisionOk(rt, subject, h, |h| - 1);
    assert h[..|h| - 1 + 1] == h;
  }

  /**
  A batch written for an intent is recovered, on any later store, with the same decision and receipt
  for every attempt of the same intent, and is a conflict for every attempt that differs in a compared field.
  */
  lemma RecoverIsStable(rt: Runtime, s: Store, t: Store, claim: string, original: Original, d: Decision,
                        attempt: Original)
    requires StoreOk(rt, s) && StoreOk(rt, t) && Extends(s, t) && claim in s.batches
    requires BatchIs(rt, s, claim, s.batches[claim], original, d)
    ensures Recover(rt, t.batches[claim], attempt, Some(History(t, d.instance.subject)))
      == if SameIntent(rt.numerics, original, attempt) then Committed(d, s.batches[claim].receipt, true)
         else Failed(Conflict)
    ensures Recover(rt, t.batches[claim], attempt, None)
      == Failed(if SameIntent(rt.numerics, original, attempt) then Persistence else Conflict)
  {
    var x := d.instance.subject;
    MatchIsSame(rt, original, attempt);
    PlacedStays(rt, History(s, x), History(t, x), d);
    PlacedVerifies(rt, x, History(t, x), d, s.batches[claim].receipt);
  }

  /**
  Matching one recorded intent is an equivalence: an attempt that matches it, taken with the recorded
  precondition, is matched by exactly the attempts that the recorded intent is matched by.
  */
  lemma MatchesAgree(rt: Runtime, recorded: Original, a: Original, b: Original)
    requires IntentsMatch(rt, recorded, a)
    ensures IntentsMatch(rt, recorded, b) <==> IntentsMatch(rt, a.(expectedVersion := recorded.expectedVersion), b)
  {
    var n := rt.numerics;
    EqualSymmetric(n, recorded.input, a.input);
    if n.Equal(recorded.input, b.input) { EqualTransitive(n, a.input, recorded.input, b.input); }
    if n.Equal(a.input, b.input) { EqualTransitive(n, recorded.input, a.input, b.input); }
  }

  // ---- runs of executors ----

  /** An executor has decided on a load at revision `base` and will append later. */
  datatype Pending = Pending(claim: string, original: Original, base: nat, decision: Decision)
  datatype System = System(store: Store, pending: map<nat, Pending>)
  datatype Step = DecideStep(w: nat, pending: Pending) | AppendStep(w: nat) | CrashStep(w: nat)

  const EMPTY := System(Store(map[], map[]), map[])

  /** A decision is legal on the load it was made on; a create is decided without a load, on revision zero. */
  ghost function Apply(rt: Runtime, sys: System, step: Step): System {
    match step
    case DecideStep(w, p) =>
      if Legal(rt, sys.store, p.base, p.decision) then sys.(pending := sys.pending[w := p]) else sys
    case AppendStep(w) =>
      if w !in sys.pending then sys
      else
        var p := sys.pending[w];
        var r := AppendBatch(rt, sys.store, p.claim, p.original, p.base, p.decision);
        System(if r.Fresh? then r.store else sys.store, sys.pending - {w})
    case CrashStep(w) => sys.(pending := sys.pending - {w})
  }

  ghost function Run(rt: Runtime, steps: seq<Step>): System {
    if steps == [] then EMPTY else Apply(rt, Run(rt, steps[..|steps| - 1]), steps[|steps| - 1])
  }

  ghost predicate SystemOk(rt: Runtime, sys: System) {
    && StoreOk(rt, sys.store)
    && forall w :: w in sys.pending ==> Legal(rt, sys.store, sys.pending[w].base, sys.pending[w].decision)
  }

  lemma StepKeepsSystem(rt: Runtime, sys: System, step: Step)
    requires SystemOk(rt, sys)
    ensures SystemOk(rt, Apply(rt, sys, step)) && Extends(sys.store, Apply(rt, sys, step).store)
  {
    if step.AppendStep? && step.w in sys.pending {
      var p := sys.pending[step.w];
      if AppendBatch(rt, sys.store, p.claim, p.original, p.base, p.decision).Fresh? {
        AppendKeepsStore(rt, sys.store, p.claim, p.original, p.base, p.decision);
        var t := Apply(rt, sys, step);
        forall w | w in t.pending ensures Legal(rt, t.store, t.pending[w].base, t.pending[w].decision) {
          LegalStays(rt, sys.store, t.store, t.pending[w].base, t.pending[w].decision);
        }
      }
    }
  }

  lemma {:induction false} RunKeepsSystem(rt: Runtime, steps: seq<Step>)
    ensures SystemOk(rt, Run(rt, steps))
  {
    if steps != [] {
      var n := |steps| - 1;
      RunKeepsSystem(rt, steps[..n]);
      StepKeepsSystem(rt, Run(rt, steps[..n]), steps[n]);
    }
  }

  lemma {:induction false} RunExtends(rt: Runtime, steps: seq<Step>, n: nat)
    requires n <= |steps|
    ensures Extends(Run(rt, steps[..n]).store, Run(rt, steps).store)
    decreases |steps| - n
  {
    if n == |steps| {
      assert steps[..n] == steps;
    } else {
      assert steps[..n + 1][..n] == steps[..n];
      RunKeepsSystem(rt, steps[..n]);
      StepKeepsSystem(rt, Run(rt, steps[..n]), steps[n]);
      RunExtends(rt, steps, n + 1);
    }
  }

  /** Over whole runs: the batch an executor wrote is recovered unchanged at every later moment. */
  lemma WrittenBatchRecovers(rt: Runtime, steps: seq<Step>, n: nat, w: nat, attempt: Original)
    requires n < |steps| && steps[n] == AppendStep(w) && w in Run(rt, steps[..n]).pending
    requires var p := Run(rt, steps[..n]).pending[w];
      AppendBatch(rt, Run(rt, steps[..n]).store, p.claim, p.original, p.base, p.decision).Fresh?
    ensures var p, now := Run(rt, steps[..n]).pending[w], Run(rt, steps).store;
      && p.claim in now.batches
      && Recover(rt, now.batches[p.claim], attempt, Some(History(now, p.decision.instance.subject)))
         == if SameIntent(rt.numerics, p.original, attempt)
            then Committed(p.decision, |Run(rt, steps[..n]).store.batches|, true)
            else Failed(Conflict)
  {
    var before, p := Run(rt, steps[..n]).store, Run(rt, steps[..n]).pending[w];
    RunKeepsSystem(rt, steps[..n]);
    RunKeepsSystem(rt, steps);
    assert steps[..n + 1][..n] == steps[..n];
    var after := AppendBatch(rt, before, p.claim, p.original, p.base, p.decision).store;
    assert Run(rt, steps[..n + 1]).store == after;
    RunExtends(rt, steps, n + 1);
    WrittenRecovers(rt, before, p, Run(rt, steps).store, attempt);
  }

  lemma WrittenRecovers(rt: Runtime, before: Store, p: Pending, now: Store, attempt: Original)
    requires StoreOk(rt, before) && Legal(rt, before, p.base, p.decision) && StoreOk(rt, now)
    requires AppendBatch(rt, before, p.claim, p.original, p.base, p.decision).Fresh?
    requires Extends(AppendBatch(rt, before, p.claim, p.original, p.base, p.decision).store, now)
    ensures p.claim in now.batches
    ensures Recover(rt, now.batches[p.claim], attempt, Some(History(now, p.decision.instance.subject)))
      == if SameIntent(rt.numerics, p.original, attempt)
         then Committed(p.decision, |before.batches|, true)
         else Failed(Conflict)
  {
    var after := AppendBatch(rt, before, p.claim, p.original, p.base, p.decision).store;
    AppendKeepsStore(rt, before, p.claim, p.original, p.base, p.decision);
    RecoverIsStable(rt, after, now, p.claim, p.original, p.decision, attempt);
  }
}
