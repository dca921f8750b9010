/** One /4 execution with its staged content, and the repair of a committed one. */
module ExecutionV4 {
  import opened Text
  import opened Codecs
  import opened JsonNumbers
  import opened IntentsV4

  // ---- staged content ----

  /**
  The content host: which tokens were accepted and which abandoned, and which recorded references were
  accepted by policy during a repair, with multiplicity.
  */
  class ContentHost {
    var accepted: multiset<string>
    var abandoned: multiset<string>
    var redelivered: multiset<(string, string)>

    constructor ()
      ensures accepted == multiset{} && abandoned == multiset{} && redelivered == multiset{}
    {
      accepted, abandoned, redelivered := multiset{}, multiset{}, multiset{};
    }

    /** `abandon_content`: every token once, whatever the host answers. */
    method AbandonAll(tokens: seq<string>)
      modifies this`abandoned
      ensures abandoned == old(abandoned) + multiset(tokens)
    {
      for i := 0 to |tokens|
        invariant abandoned == old(abandoned) + multiset(tokens[..i])
      {
        abandoned := abandoned + multiset{tokens[i]};
        assert tokens[..i + 1] == tokens[..i] + [tokens[i]];
      }
      assert tokens[..|tokens|] == tokens;
    }

    /** The accept loop: it stops at the first token the host fails to accept. */
    method AcceptAll(tokens: seq<string>, accepts: nat -> bool) returns (ok: bool, done: nat)
      modifies this`accepted
      ensures done <= |tokens| && accepted == old(accepted) + multiset(tokens[..done])
      ensures ok <==> done == |tokens|
      ensures ok <==> forall i :: 0 <= i < |tokens| ==> accepts(i)
    {
      done := 0;
      while done < |tokens|
        invariant done <= |tokens| && accepted == old(accepted) + multiset(tokens[..done])
        invariant forall i :: 0 <= i < done ==> accepts(i)
      {
        if !accepts(done) {
          return false, done;
        }
        accepted := accepted + multiset{tokens[done]};
        assert tokens[..done + 1] == tokens[..done] + [tokens[done]];
        done := done + 1;
      }
      ok := true;
    }

    /** The accept loop of `repair`, over recorded references. */
    method AcceptRecorded(recorded: seq<(string, string)>, accepts: nat -> bool) returns (ok: bool, done: nat)
      modifies this`redelivered
      ensures done <= |recorded| && redelivered == old(redelivered) + multiset(recorded[..done])
      ensures ok <==> done == |recorded|
      ensures ok <==> forall i :: 0 <= i < |recorded| ==> accepts(i)
    {
      done := 0;
      while done < |recorded|
        invariant done <= |recorded| && redelivered == old(redelivered) + multiset(recorded[..done])
        invariant forall i :: 0 <= i < done ==> accepts(i)
      {
        if !accepts(done) {
          return false, done;
        }
        redelivered := redelivered + multiset{recorded[done]};
        assert recorded[..done + 1] == recorded[..done] + [recorded[done]];
        done := done + 1;
      }
      ok := true;
    }
  }

  // ---- one execution ----

  /** How the decision phase ends; an error here happens before anything is appended. */
  datatype Choice = PreError(failure: Failure) | Refuse | Decide(base: nat, decision: Decision)

  /**
  Everything the run meets outside itself: the store as found at its first lookup, at its append, at
  its second lookup and at its history read, and the answers of the other resources. A store refuses
  an append with an error or with an outcome that has no receipt.
  */
  datatype World = World(
    first: Store, firstReadable: bool, firstHistory: bool,
    staging: seq<Option<string>>, choice: Choice,
    atAppend: Store, appendReaches: bool, responseLost: bool, answersWithoutReceipt: bool,
    second: Store, secondReadable: bool, later: Store, laterHistory: bool,
    projects: bool, effects: bool, accepts: nat -> bool)

  function Appended(rt: Runtime, claim: string, original: Original, w: World): AppendResult {
    if w.choice.Decide? && w.appendReaches then
      AppendBatch(rt, w.atAppend, claim, original, w.choice.base, w.choice.decision)
    else Rejected
  }

  function AfterAppend(rt: Runtime, claim: string, original: Original, w: World): Store {
    var r := Appended(rt, claim, original, w);
    if r.Fresh? then r.store else w.atAppend
  }

  /** An honest store only grows, stays well-formed, and the Entity Runtime's decision is legal. */
  ghost predicate Honest(rt: Runtime, claim: string, original: Original, w: World) {
    && StoreOk(rt, w.first) && StoreOk(rt, w.atAppend) && StoreOk(rt, w.second) && StoreOk(rt, w.later)
    && Extends(w.first, w.atAppend) && Extends(w.second, w.later)
    && Extends(AfterAppend(rt, claim, original, w), w.second)
    && (w.choice.PreError? ==> !w.choice.failure.Aftercare?)
    && (w.choice.Decide? ==> Legal(rt, w.atAppend, w.choice.base, w.choice.decision))
  }

  function SubjectOf(b: StoredBatch): Subject {
    if |b.records| > 0 && b.records[0].DecisionEntry? then b.records[0].decision.instance.subject else Subject("", "")
  }

  function RecoverFrom(rt: Runtime, b: StoredBatch, original: Original, s: Store, readable: bool): Outcome {
    Recover(rt, b, original, if readable then Some(History(s, SubjectOf(b))) else None)
  }

  /** The stored batch that a committed answer reports. */
  ghost predicate Reports(s: Store, claim: string, result: Outcome) {
    result.Committed? ==>
      && claim in s.batches && s.batches[claim].receipt == result.receipt
      && |s.batches[claim].records| == 2 && s.batches[claim].records[0] == DecisionEntry(result.decision)
  }

  /** The store holds a batch with this receipt for an intent that matches the original. */
  ghost predicate Evidence(rt: Runtime, s: Store, claim: string, original: Original, receipt: nat) {
    && claim in s.batches && s.batches[claim].receipt == receipt
    && exists o, d :: BatchIs(rt, s, claim, s.batches[claim], o, d) && SameIntent(rt.numerics, o, original)
  }

  lemma RecoverIsEvidence(rt: Runtime, s: Store, later: Store, claim: string, original: Original, readable: bool)
    requires StoreOk(rt, s) && claim in s.batches
    requires RecoverFrom(rt, s.batches[claim], original, later, readable).Committed?
    ensures Evidence(rt, s, claim, original, RecoverFrom(rt, s.batches[claim], original, later, readable).receipt)
  {
    assert BatchOk(rt, s, claim, s.batches[claim]);
    var o, d :| BatchIs(rt, s, claim, s.batches[claim], o, d);
    assert s.batches[claim].records[1].observation.intent == o;
  }

  /** An accepted append leaves evidence of this very intent. */
  lemma AppendIsEvidence(rt: Runtime, claim: string, original: Original, w: World)
    requires Honest(rt, claim, original, w) && w.choice.Decide? && !Appended(rt, claim, original, w).Rejected?
    ensures var s, r := AfterAppend(rt, claim, original, w), Appended(rt, claim, original, w);
      && StoreOk(rt, s) && claim in s.batches && s.batches[claim].records[0] == DecisionEntry(w.choice.decision)
      && |s.batches[claim].records| == 2 && (r.Replayed? ==> s.batches[claim].receipt == r.receipt)
      && Evidence(rt, s, claim, original, s.batches[claim].receipt)
  {
    IntentMatchesItself(rt, original);
    var s, d := AfterAppend(rt, claim, original, w), w.choice.decision;
    if Appended(rt, claim, original, w).Fresh? {
      AppendKeepsStore(rt, w.atAppend, claim, original, w.choice.base, d);
    } else {
      assert BatchOk(rt, s, claim, s.batches[claim]);
      var o, e :| BatchIs(rt, s, claim, s.batches[claim], o, e);
      assert s.batches[claim].records[1].observation.intent == o;
    }
  }

  lemma RecoverReports(rt: Runtime, s: Store, later: Store, claim: string, original: Original, readable: bool)
    requires claim in s.batches
    ensures Reports(s, claim, RecoverFrom(rt, s.batches[claim], original, later, readable))
    ensures RecoverFrom(rt, s.batches[claim], original, later, readable) != Refused
    ensures var r := RecoverFrom(rt, s.batches[claim], original, later, readable); r.Failed? ==> !r.failure.Aftercare?
  {
  }

  /** The run's own batch, once written, can only be recovered or left undecided. */
  lemma OwnBatchRecovers(rt: Runtime, claim: string, original: Original, w: World)
    requires Honest(rt, claim, original, w) && Appended(rt, claim, original, w).Fresh?
    ensures claim in w.second.batches
    ensures var r := RecoverFrom(rt, w.second.batches[claim], original, w.later, w.laterHistory);
      r.Committed? || r == Failed(Persistence)
  {
    var d := w.choice.decision;
    var t := Appended(rt, claim, original, w).store;
    AppendKeepsStore(rt, w.atAppend, claim, original, w.choice.base, d);
    ExtendsTransitive(t, w.second, w.later);
    assert w.second.batches[claim] == t.batches[claim];
    WrittenRecoversLater(rt, t, w.later, claim, original, d, w.laterHistory);
  }

  /** A written batch, looked up for its own intent on a later store, is committed or left undecided. */
  lemma WrittenRecoversLater(rt: Runtime, t: Store, later: Store, claim: string, original: Original, d: Decision,
                             readable: bool)
    requires StoreOk(rt, t) && StoreOk(rt, later) && Extends(t, later) && claim in t.batches
    requires BatchIs(rt, t, claim, t.batches[claim], original, d)
    ensures var r := RecoverFrom(rt, t.batches[claim], original, later, readable);
      r.Committed? || r == Failed(Persistence)
  {
    assert later.batches[claim] == t.batches[claim];
    RecoverIsStable(rt, t, later, claim, original, d, original);
    IntentMatchesItself(rt, original);
  }

  lemma ExtendsTransitive(a: Store, b: Store, c: Store)
    requires Extends(a, b) && Extends(b, c)
    ensures Extends(a, c)
  {
    forall x ensures History(a, x) <= History(c, x) {
      assert History(a, x) <= History(b, x) <= History(c, x);
    }
  }

  // ---- the answer of an execution, by what the world does ----

  predicate IsPair(b: StoredBatch) {
    |b.records| == 2 && b.records[0].DecisionEntry? && b.records[1].ObservationEntry?
  }

  /** What a stored batch answers a caller: its decision and receipt for the same intent, else a conflict. */
  ghost function StoredAnswer(rt: Runtime, b: StoredBatch, original: Original, historyReadable: bool): Outcome
    requires IsPair(b)
  {
    if !SameIntent(rt.numerics, b.records[1].observation.intent, original) then Failed(Conflict)
    else if !historyReadable then Failed(Persistence)
    else Committed(b.records[0].decision, b.receipt, true)
  }

  lemma RecoverIsStoredAnswer(rt: Runtime, s: Store, later: Store, claim: string, original: Original, readable: bool)
    requires StoreOk(rt, s) && StoreOk(rt, later) && Extends(s, later) && claim in s.batches
    ensures IsPair(s.batches[claim])
    ensures RecoverFrom(rt, s.batches[claim], original, later, readable)
      == StoredAnswer(rt, s.batches[claim], original, readable)
  {
    assert BatchOk(rt, s, claim, s.batches[claim]);
    var o, d :| BatchIs(rt, s, claim, s.batches[claim], o, d);
    assert later.batches[claim] == s.batches[claim];
    RecoverIsStable(rt, s, later, claim, o, d, original);
  }

  ghost predicate PairsOnly(s: Store) { forall k :: k in s.batches ==> IsPair(s.batches[k]) }

  lemma StoresArePairs(rt: Runtime, s: Store)
    requires StoreOk(rt, s)
    ensures PairsOnly(s)
  {
    forall k | k in s.batches ensures IsPair(s.batches[k]) {
      assert BatchOk(rt, s, k, s.batches[k]);
      var o, d :| BatchIs(rt, s, k, s.batches[k], o, d);
    }
  }

  /** The store takes the append: the claim is stored with these very records, or is new at the right revision. */
  ghost predicate Takes(rt: Runtime, s: Store, claim: string, original: Original, base: nat, d: Decision) {
    if claim in s.batches then s.batches[claim].records == BatchFor(rt, claim, original, d, 0).records
    else |History(s, d.instance.subject)| == base
  }

  /** The receipt of the batch under a claim, or the one a first append is given. */
  function ReceiptFor(s: Store, claim: string): nat {
    if claim in s.batches then s.batches[claim].receipt else |s.batches|
  }

  /**
  The answer after the append was dispatched: committed or an aftercare failure when the store took it and
  its response arrived, an integrity failure when the store answered without a receipt, and otherwise what
  the second lookup finds.
  */
  ghost function DispatchAnswer(rt: Runtime, operation: string, claim: string, original: Original, w: World): Outcome
    requires IsBytes(operation) && w.choice.Decide? && PairsOnly(w.second)
  {
    var d := w.choice.decision;
    var arrives := w.appendReaches && !w.responseLost;
    if arrives && Takes(rt, w.atAppend, claim, original, w.choice.base, d) then
      if w.projects && w.effects then Committed(d, ReceiptFor(w.atAppend, claim), claim in w.atAppend.batches)
      else Failed(Aftercare(ReceiptFor(w.atAppend, claim), RepairToken(operation, claim)))
    else if arrives && w.answersWithoutReceipt then Failed(Integrity)
    else SecondAnswer(rt, claim, original, w)
  }

  /** The answer of the whole execution. */
  ghost function ExecuteAnswer(rt: Runtime, operation: string, claim: string, original: Original, w: World): Outcome
    requires IsBytes(operation) && PairsOnly(w.first) && PairsOnly(w.second)
  {
    if !w.firstReadable then Failed(Persistence)
    else if claim in w.first.batches then StoredAnswer(rt, w.first.batches[claim], original, w.firstHistory)
    else if exists i :: 0 <= i < |w.staging| && w.staging[i].None? then Failed(Fulfillment)
    else
      match w.choice
      case PreError(failure) => Failed(failure)
      case Refuse => Refused
      case Decide(_, _) =>
        var answer := DispatchAnswer(rt, operation, claim, original, w);
        if answer.Committed? && exists i :: 0 <= i < |w.staging| && !w.accepts(i) then
          Failed(Aftercare(answer.receipt, RepairToken(operation, claim)))
        else answer
  }

  /** The tokens staged before the first failure, in order. */
  ghost predicate StagedUntilFailure(staging: seq<Option<string>>, staged: seq<string>) {
    && |staged| <= |staging| && (forall i :: 0 <= i < |staged| ==> staging[i] == Some(staged[i]))
    && (|staged| < |staging| ==> staging[|staged|].None?)
  }

  lemma AppendedIffTaken(rt: Runtime, claim: string, original: Original, w: World)
    requires w.choice.Decide?
    ensures var r := Appended(rt, claim, original, w);
      && (r.Rejected? <==>
            !(w.appendReaches && Takes(rt, w.atAppend, claim, original, w.choice.base, w.choice.decision)))
      && (!r.Rejected? ==> (r.Replayed? <==> claim in w.atAppend.batches))
      && (r.Replayed? ==> r.receipt == ReceiptFor(w.atAppend, claim))
      && (r.Fresh? ==> claim in r.store.batches && r.store.batches[claim].receipt == ReceiptFor(w.atAppend, claim))
  {
  }

  /** What the second lookup finds. */
  ghost function SecondAnswer(rt: Runtime, claim: string, original: Original, w: World): Outcome
    requires PairsOnly(w.second)
  {
    if w.secondReadable && claim in w.second.batches then
      StoredAnswer(rt, w.second.batches[claim], original, w.laterHistory)
    else Failed(Persistence)
  }

  /** The lookup after an append that failed or was not heard of again. */
  method LookAgain(rt: Runtime, claim: string, original: Original, w: World) returns (result: Outcome)
    requires StoreOk(rt, w.second) && StoreOk(rt, w.later) && Extends(w.second, w.later) && PairsOnly(w.second)
    ensures result == SecondAnswer(rt, claim, original, w)
    ensures Reports(w.second, claim, result) && result != Refused
    ensures result.Failed? ==> !result.failure.Aftercare?
    ensures result.Committed? ==> Evidence(rt, w.second, claim, original, result.receipt)
  {
    if !w.secondReadable || claim !in w.second.batches {
      return Failed(Persistence);
    }
    RecoverReports(rt, w.second, w.later, claim, original, w.laterHistory);
    RecoverIsStoredAnswer(rt, w.second, w.later, claim, original, w.laterHistory);
    result := RecoverFrom(rt, w.second.batches[claim], original, w.later, w.laterHistory);
    if result.Committed? { RecoverIsEvidence(rt, w.second, w.later, claim, original, w.laterHistory); }
  }

  /** A run whose own batch was written is committed by the second lookup or left undecided. */
  lemma OwnSecondAnswer(rt: Runtime, claim: string, original: Original, w: World)
    requires Honest(rt, claim, original, w) && Appended(rt, claim, original, w).Fresh? && PairsOnly(w.second)
    ensures var r := SecondAnswer(rt, claim, original, w); r.Committed? || r == Failed(Persistence)
  {
    OwnBatchRecovers(rt, claim, original, w);
    RecoverIsStoredAnswer(rt, w.second, w.later, claim, original, w.laterHistory);
  }

  /** The part of `execute_admitted` from dispatching the append to delivering what was committed. */
  method AppendAndDeliver(rt: Runtime, operation: string, claim: string, original: Original, w: World)
    returns (result: Outcome, ghost mine: bool, ghost seen: Store)
    requires IsBytes(operation) && w.choice.Decide? && Honest(rt, claim, original, w) && PairsOnly(w.second)
    ensures result == DispatchAnswer(rt, operation, claim, original, w)
    ensures mine <==> Appended(rt, claim, original, w).Fresh?
    ensures mine && result.Failed? ==> result.failure == Persistence || result.failure.Aftercare?
    ensures result != Refused && Reports(seen, claim, result)
    ensures result.Failed? && result.failure.Aftercare? ==> result.failure.token == RepairToken(operation, claim)
    ensures result.Failed? && result.failure.Aftercare? ==> Evidence(rt, seen, claim, original, result.failure.receipt)
    ensures result.Committed? ==> Evidence(rt, seen, claim, original, result.receipt)
    ensures StoreOk(rt, seen) && Extends(seen, w.later)
  {
    var r := Appended(rt, claim, original, w);
    mine := r.Fresh?;
    AppendedIffTaken(rt, claim, original, w);
    ExtendsTransitive(AfterAppend(rt, claim, original, w), w.second, w.later);
    if r.Rejected? && w.appendReaches && !w.responseLost && w.answersWithoutReceipt {
      seen := w.atAppend;
      return Failed(Integrity), mine, seen;
    }
    if r.Rejected? || w.responseLost {
      if mine { OwnSecondAnswer(rt, claim, original, w); }
      seen := w.second;
      result := LookAgain(rt, claim, original, w);
      return;
    }
    AppendIsEvidence(rt, claim, original, w);
    seen := AfterAppend(rt, claim, original, w);
    var receipt := if r.Fresh? then r.store.batches[claim].receipt else r.receipt;
    if !w.projects || !w.effects {
      return Failed(Aftercare(receipt, RepairToken(operation, claim))), mine, seen;
    }
    result := Committed(w.choice.decision, receipt, r.Replayed?);
  }

  /** What a finished run did with the tokens it staged. */
  ghost predicate Settled(result: Outcome, dispatched: bool, mine: bool, staged: seq<string>,
                          accepted0: multiset<string>, accepted: multiset<string>,
                          abandoned0: multiset<string>, abandoned: multiset<string>) {
    // a committed result accepts each token exactly once
    && (result.Committed? ==> accepted == accepted0 + multiset(staged) && abandoned == abandoned0)
    // a refusal, and every error but a failed aftercare or an undecided append, abandons each token exactly once
    && (result.Refused?
        || (result.Failed? && !result.failure.Aftercare? && !(dispatched && result.failure == Persistence)) ==>
          abandoned == abandoned0 + multiset(staged) && accepted == accepted0)
    // nothing is abandoned when this run's batch was, or may have been, committed
    && (mine || (dispatched && result == Failed(Persistence)) ==> abandoned == abandoned0)
    // a failed aftercare has accepted a prefix of the tokens and leaves the rest for repair
    && (result.Failed? && result.failure.Aftercare? ==>
          abandoned == abandoned0 && exists k :: 0 <= k <= |staged| && accepted == accepted0 + multiset(staged[..k]))
    && (result.Failed? && result.failure.Aftercare? ==> dispatched)
    // no token is both accepted and abandoned
    && (accepted == accepted0 || abandoned == abandoned0)
  }

  /** The closing match of `execute_admitted`: accept, abandon, or leave the tokens alone. */
  method Settle(host: ContentHost, operation: string, claim: string, execution: Outcome, dispatched: bool,
                ghost mine: bool, staged: seq<string>, accepts: nat -> bool) returns (result: Outcome)
    requires IsBytes(operation)
    requires execution.Failed? && execution.failure.Aftercare? ==> dispatched
    requires execution.Committed? ==> dispatched
    requires mine ==> dispatched && execution != Refused
    requires mine && execution.Failed? ==> execution.failure == Persistence || execution.failure.Aftercare?
    modifies host
    ensures Settled(result, dispatched, mine, staged, old(host.accepted), host.accepted,
                    old(host.abandoned), host.abandoned)
    ensures result == if execution.Committed? && exists i :: 0 <= i < |staged| && !accepts(i)
                      then Failed(Aftercare(execution.receipt, RepairToken(operation, claim))) else execution
  {
    result := execution;
    match execution
    case Committed(decision, receipt, replayed) =>
      var ok, done := host.AcceptAll(staged, accepts);
      assert ok ==> staged[..done] == staged;
      if !ok {
        result := Failed(Aftercare(receipt, RepairToken(operation, claim)));
      }
    case Refused =>
      host.AbandonAll(staged);
    case Failed(failure) =>
      if failure.Aftercare? {
        assert host.accepted == old(host.accepted) + multiset(staged[..0]);
      } else if !(failure == Persistence && dispatched) {
        host.AbandonAll(staged);
      }
  }

  /** `execute_admitted`, from its first lookup on. */
  method ExecuteAdmitted(rt: Runtime, host: ContentHost, operation: string, claim: string, original: Original, w: World)
    returns (result: Outcome, staged: seq<string>, dispatched: bool, ghost mine: bool, ghost seen: Store)
    requires IsBytes(operation) && Honest(rt, claim, original, w)
    modifies host
    ensures Settled(result, dispatched, mine, staged, old(host.accepted), host.accepted,
                    old(host.abandoned), host.abandoned)
    ensures Reports(seen, claim, result)
    ensures dispatched ==> w.choice.Decide? && (mine <==> Appended(rt, claim, original, w).Fresh?)
    ensures !dispatched ==> !mine
    ensures result.Failed? && result.failure.Aftercare? ==> result.failure.token == RepairToken(operation, claim)
    ensures result.Failed? && result.failure.Aftercare? ==>
      Evidence(rt, seen, claim, original, result.failure.receipt) && StoreOk(rt, seen) && Extends(seen, w.later)
    ensures PairsOnly(w.first) && PairsOnly(w.second)
    ensures result == ExecuteAnswer(rt, operation, claim, original, w)
    ensures if w.firstReadable && claim !in w.first.batches then StagedUntilFailure(w.staging, staged) else staged == []
  {
    StoresArePairs(rt, w.first);
    StoresArePairs(rt, w.second);
    staged, dispatched, mine, seen := [], false, false, w.first;
    if !w.firstReadable {
      return Failed(Persistence), staged, dispatched, mine, seen;
    }
    if claim in w.first.batches {
      RecoverReports(rt, w.first, w.atAppend, claim, original, w.firstHistory);
      RecoverIsStoredAnswer(rt, w.first, w.atAppend, claim, original, w.firstHistory);
      result := RecoverFrom(rt, w.first.batches[claim], original, w.atAppend, w.firstHistory);
      return;
    }
    for i := 0 to |w.staging|
      invariant |staged| == i && forall k :: 0 <= k < i ==> w.staging[k] == Some(staged[k])
      invariant host.accepted == old(host.accepted) && host.abandoned == old(host.abandoned)
    {
      if w.staging[i].None? {
        host.AbandonAll(staged);
        return Failed(Fulfillment), staged, dispatched, mine, seen;
      }
      staged := staged + [w.staging[i].value];
    }
    match w.choice {
      case PreError(failure) => result := Failed(failure);
      case Refuse => result := Refused;
      case Decide(_, _) =>
        dispatched := true;
        result, mine, seen := AppendAndDeliver(rt, operation, claim, original, w);
    }
    result := Settle(host, operation, claim, result, dispatched, mine, staged, w.accepts);
  }

  // ---- repair ----

  datatype Context = Context(
    tenant: string, realm: Option<string>, authority: string, user: string, executor: Option<string>)
  datatype ContentField = ContentField(name: string, policy: string, commandField: string)
  datatype IntentPlan = IntentPlan(category: string, content: seq<ContentField>)
  datatype Plan = Plan(service: string, planDigest: string, intents: map<string, IntentPlan>)

  /** `claim_key` over the derived partition. */
  function ClaimOf(rt: Runtime, service: string, ctx: Context, original: Original): string {
    rt.claimDigest(LogicalScope(service, ctx.tenant, ctx.realm), original.category, original.selector,
                   original.idempotencyKey)
  }

  /** The intent that this plan records for this context and operation. */
  predicate RecordedBy(plan: Plan, ctx: Context, operation: string, original: Original) {
    && operation in plan.intents
    && original.planDigest == plan.planDigest && original.operation == operation && original.service == plan.service
    && original.tenant == ctx.tenant && original.realm == ctx.realm && original.authority == ctx.authority
    && original.user == ctx.user && original.executor == ctx.executor
    && original.category == plan.intents[operation].category
  }

  function Member(v: Value, name: string): Option<Value> {
    if v.Object? && name in v.members then Some(v.members[name]) else None
  }

  /** `recorded_content_acceptances`: policy and committed reference of each content input of the intent. */
  function Acceptances(fields: seq<ContentField>, input: map<string, Value>,
                       decided: map<string, Value>): Option<seq<(string, string)>> {
    if fields == [] then Some([])
    else
      var f := fields[0];
      match Acceptances(fields[1..], input, decided)
      case None => None
      case Some(rest) =>
        if f.name !in input then Some(rest)
        else if f.commandField in decided && decided[f.commandField].Str? && !Blank(decided[f.commandField].s)
          then Some([(f.policy, decided[f.commandField].s)] + rest)
        else None
  }

  function RecordedAcceptances(fields: seq<ContentField>, original: Original, d: Decision)
    : Option<seq<(string, string)>>
  {
    var decided := Member(d.record.arguments, "input");
    if !original.input.Object? || decided.None? || !decided.value.Object? then None
    else Acceptances(fields, original.input.members, decided.value.members)
  }

  datatype RepairWorld = RepairWorld(admitted: bool, store: Store, readable: bool, later: Store, historyReadable: bool,
                                     projects: bool, effects: bool, accepts: nat -> bool)

  /** What a token leads to: the batch's intent and decision with the plan's content inputs, or a failure. */
  datatype Target =
    | Stop(failure: Failure)
    | Target(fields: seq<ContentField>, original: Original, decision: Decision, receipt: nat)

  function FindTarget(rt: Runtime, plan: Plan, ctx: Context, token: string, w: RepairWorld): Target {
    match RepairCoordinates(token)
    case None => Stop(Input)
    case Some((operation, claim)) =>
      if operation !in plan.intents then Stop(Binding)
      else if !w.admitted then Stop(Admission)
      else if !w.readable || claim !in w.store.batches then Stop(Persistence)
      else
        var b := w.store.batches[claim];
        if b.key != claim || |b.records| != 2 || !b.records[1].ObservationEntry? then Stop(Integrity)
        else
          var obs := b.records[1].observation;
          if obs.format != OBSERVATION_FORMAT || obs.intentDigest != rt.intentDigest(obs.intent) then Stop(Integrity)
          else if !RecordedBy(plan, ctx, operation, obs.intent) then Stop(Integrity)
          else if ClaimOf(rt, plan.service, ctx, obs.intent) != claim then Stop(Integrity)
          else
            match RecoverFrom(rt, b, obs.intent, w.later, w.historyReadable)
            case Committed(d, receipt, _) => Target(plan.intents[operation].content, obs.intent, d, receipt)
            case Refused => Stop(Integrity)
            case Failed(failure) => Stop(failure)
  }

  /** Redelivery from the durable evidence. */
  function Redeliver(fields: seq<ContentField>, original: Original, d: Decision, receipt: nat, token: string,
                     w: RepairWorld): Outcome {
    var recorded := RecordedAcceptances(fields, original, d);
    if recorded.None? then Failed(Integrity)
    else if !w.projects || !w.effects || exists i :: 0 <= i < |recorded.value| && !w.accepts(i) then
      Failed(Aftercare(receipt, token))
    else Committed(d, receipt, true)
  }

  /** The answer of a repair. */
  function Repaired(rt: Runtime, plan: Plan, ctx: Context, token: string, w: RepairWorld): Outcome {
    match FindTarget(rt, plan, ctx, token, w)
    case Stop(failure) => Failed(failure)
    case Target(fields, original, d, receipt) => Redeliver(fields, original, d, receipt, token, w)
  }

  /** What a repair accepts: all recorded references when it commits, a prefix when the host fails, else nothing. */
  ghost predicate Redelivered(target: Target, result: Outcome, before: multiset<(string, string)>,
                              after: multiset<(string, string)>) {
    if target.Stop? || RecordedAcceptances(target.fields, target.original, target.decision).None? then after == before
    else
      var recorded := RecordedAcceptances(target.fields, target.original, target.decision).value;
      && (result.Committed? ==> after == before + multiset(recorded))
      && exists k :: 0 <= k <= |recorded| && after == before + multiset(recorded[..k])
  }

  /** `repair`. */
  method Repair(rt: Runtime, host: ContentHost, plan: Plan, ctx: Context, token: string, w: RepairWorld)
    returns (result: Outcome)
    modifies host`redelivered
    ensures result == Repaired(rt, plan, ctx, token, w)
    ensures Redelivered(FindTarget(rt, plan, ctx, token, w), result, old(host.redelivered), host.redelivered)
  {
    var target := FindTarget(rt, plan, ctx, token, w);
    if target.Stop? {
      return Failed(target.failure);
    }
    var recorded := RecordedAcceptances(target.fields, target.original, target.decision);
    if recorded.None? {
      return Failed(Integrity);
    }
    assert host.redelivered == old(host.redelivered) + multiset(recorded.value[..0]);
    if !w.projects || !w.effects {
      return Failed(Aftercare(target.receipt, token));
    }
    var ok, done := host.AcceptRecorded(recorded.value, w.accepts);
    if !ok {
      return Failed(Aftercare(target.receipt, token));
    }
    assert recorded.value[..done] == recorded.value;
    result := Committed(target.decision, target.receipt, true);
  }

  /**
  The token of a committed batch, presented at any later time by the same context, reaches that batch
  with its decision and receipt; presented by any other context it is refused.
  */
  lemma RepairReachesItsBatch(rt: Runtime, plan: Plan, ctx: Context, operation: string, claim: string,
                              original: Original, d: Decision, s: Store, w: RepairWorld)
    requires IsBytes(operation) && ValidUtf8(operation) && operation != "" && |claim| == 64 && AllLowerHex(claim)
    requires StoreOk(rt, s) && StoreOk(rt, w.store) && StoreOk(rt, w.later)
    requires Extends(s, w.store) && Extends(w.store, w.later)
    requires claim in s.batches && BatchIs(rt, s, claim, s.batches[claim], original, d)
    requires operation in plan.intents && w.admitted && w.readable && w.historyReadable
    ensures Repaired(rt, plan, ctx, RepairToken(operation, claim), w)
      == if RecordedBy(plan, ctx, operation, original) && ClaimOf(rt, plan.service, ctx, original) == claim
         then Redeliver(plan.intents[operation].content, original, d, s.batches[claim].receipt,
                        RepairToken(operation, claim), w)
         else Failed(Integrity)
    ensures RecordedBy(plan, ctx, operation, original) && ClaimOf(rt, plan.service, ctx, original) == claim ==>
      FindTarget(rt, plan, ctx, RepairToken(operation, claim), w)
        == Target(plan.intents[operation].content, original, d, s.batches[claim].receipt)
  {
    RepairRoundTrip(operation, claim);
    ExtendsTransitive(s, w.store, w.later);
    assert w.store.batches[claim] == s.batches[claim] == w.later.batches[claim];
    RecoverIsStable(rt, s, w.later, claim, original, d, original);
    IntentMatchesItself(rt, original);
  }

  // ---- the references that a run staged are the ones a repair accepts ----

  /** Content inputs that the caller supplied, in plan order. */
  function Supplied(fields: seq<ContentField>, input: map<string, Value>): seq<ContentField> {
    if fields == [] then []
    else (if fields[0].name in input then [fields[0]] else []) + Supplied(fields[1..], input)
  }

  /** The staging loop's effect on the command input: each content input is replaced by its reference. */
  function StagedInput(fields: seq<ContentField>, input: map<string, Value>,
                       references: seq<string>): map<string, Value>
    requires |references| == |fields|
  {
    if fields == [] then input
    else
      var n := |fields| - 1;
      var before := StagedInput(fields[..n], input, references[..n]);
      (before - {fields[n].name})[fields[n].commandField := Str(references[n])]
  }

  /** A reference staged for this command field is not removed by a later input of that name. */
  ghost predicate Survives(fields: seq<ContentField>, commandField: string) {
    exists j :: 0 <= j < |fields| && fields[j].commandField == commandField
      && forall k :: j < k < |fields| ==> fields[k].name != commandField
  }

  /** Inputs that share a command field were staged under one reference. */
  ghost predicate OneReferenceEach(fields: seq<ContentField>, references: seq<string>)
    requires |references| == |fields|
  {
    forall i, j :: 0 <= i < j < |fields| && fields[i].commandField == fields[j].commandField ==>
      references[i] == references[j]
  }

  /** The reference that a command field holds in the end: the last one staged for it. */
  function ReferenceFor(fields: seq<ContentField>, references: seq<string>, commandField: string): string
    requires |references| == |fields|
  {
    if fields == [] then ""
    else
      var n := |fields| - 1;
      if fields[n].commandField == commandField then references[n]
      else ReferenceFor(fields[..n], references[..n], commandField)
  }

  /** After the staging loop a staged command field is there exactly when it survives, with its last reference. */
  lemma {:induction false} StagedHolds(fields: seq<ContentField>, input: map<string, Value>, references: seq<string>,
                                       i: nat)
    requires |references| == |fields| && i < |fields|
    ensures var f := fields[i].commandField; var staged := StagedInput(fields, input, references);
      && (f in staged <==> Survives(fields, f))
      && (f in staged ==> staged[f] == Str(ReferenceFor(fields, references, f)))
    ensures OneReferenceEach(fields, references) ==>
      ReferenceFor(fields, references, fields[i].commandField) == references[i]
  {
    var n, f := |fields| - 1, fields[i].commandField;
    if f != fields[n].commandField {
      StagedHolds(fields[..n], input, references[..n], i);
      SurvivesLast(fields, f);
    } else {
      assert Survives(fields, f);
    }
  }

  lemma SurvivesLast(fields: seq<ContentField>, f: string)
    requires fields != [] && fields[|fields| - 1].commandField != f
    ensures Survives(fields, f) <==> fields[|fields| - 1].name != f && Survives(fields[..|fields| - 1], f)
  {
    var n := |fields| - 1;
    if Survives(fields, f) {
      var j :| 0 <= j < |fields| && fields[j].commandField == f && forall k :: j < k < |fields| ==> fields[k].name != f;
      assert fields[..n][j] == fields[j];
    }
  }

  predicate Holds(decided: map<string, Value>, f: ContentField) {
    f.commandField in decided && decided[f.commandField].Str? && !Blank(decided[f.commandField].s)
  }

  predicate AllHold(supplied: seq<ContentField>, decided: map<string, Value>) {
    forall i :: 0 <= i < |supplied| ==> Holds(decided, supplied[i])
  }

  function Readings(supplied: seq<ContentField>, decided: map<string, Value>): seq<(string, string)>
    requires AllHold(supplied, decided)
  {
    seq(|supplied|, i requires 0 <= i < |supplied| && Holds(decided, supplied[i]) =>
      (supplied[i].policy, decided[supplied[i].commandField].s))
  }

  lemma ReadingsNext(f: ContentField, rest: seq<ContentField>, decided: map<string, Value>)
    ensures AllHold([f] + rest, decided) <==> Holds(decided, f) && AllHold(rest, decided)
    ensures AllHold([f] + rest, decided) ==>
      Readings([f] + rest, decided) == [(f.policy, decided[f.commandField].s)] + Readings(rest, decided)
  {
    assert ([f] + rest)[0] == f;
    forall i | 0 <= i < |rest| ensures rest[i] == ([f] + rest)[i + 1] {}
  }

  /** The recorded references can be read exactly when every supplied input's command field holds one. */
  lemma {:induction false} AcceptancesRead(fields: seq<ContentField>, input: map<string, Value>,
                                           decided: map<string, Value>)
    ensures var supplied := Supplied(fields, input);
      Acceptances(fields, input, decided)
        == if AllHold(supplied, decided) then Some(Readings(supplied, decided)) else None
  {
    if fields == [] {
      assert Readings([], decided) == [];
    } else {
      var rest := Supplied(fields[1..], input);
      AcceptancesRead(fields[1..], input, decided);
      if fields[0].name in input {
        assert Supplied(fields, input) == [fields[0]] + rest;
        ReadingsNext(fields[0], rest, decided);
      } else {
        assert Supplied(fields, input) == rest;
      }
    }
  }

  /** The decision was made on the staged input. */
  ghost predicate DecidedOn(fields: seq<ContentField>, original: Original, d: Decision, input: map<string, Value>,
                            references: seq<string>) {
    && original.input.Object? && |references| == |Supplied(fields, original.input.members)|
    && Member(d.record.arguments, "input")
       == Some(Object(StagedInput(Supplied(fields, original.input.members), input, references)))
  }

  /** Every command field keeps a reference that is not blank. */
  ghost predicate Readable(supplied: seq<ContentField>, references: seq<string>)
    requires |references| == |supplied|
  {
    forall i :: 0 <= i < |supplied| ==>
      && Survives(supplied, supplied[i].commandField)
      && !Blank(ReferenceFor(supplied, references, supplied[i].commandField))
  }

  /** What a repair of such a decision accepts: one reference per supplied content input, under its policy. */
  function StagedReferences(supplied: seq<ContentField>, references: seq<string>): seq<(string, string)>
    requires |references| == |supplied|
  {
    seq(|supplied|, i requires 0 <= i < |supplied| =>
      (supplied[i].policy, ReferenceFor(supplied, references, supplied[i].commandField)))
  }

  lemma ExactMeansOneEach(supplied: seq<ContentField>, references: seq<string>)
    requires |references| == |supplied|
    ensures StagedReferences(supplied, references) == Exactly(supplied, references) ==>
      OneReferenceEach(supplied, references)
  {
    if StagedReferences(supplied, references) == Exactly(supplied, references) {
      forall i, j | 0 <= i < j < |supplied| && supplied[i].commandField == supplied[j].commandField
        ensures references[i] == references[j]
      {
        assert StagedReferences(supplied, references)[i].1 == StagedReferences(supplied, references)[j].1;
        assert Exactly(supplied, references)[i].1 == Exactly(supplied, references)[j].1;
      }
    }
  }

  /**
  What a repair reads back from a decision on staged input. It reads references at all exactly when every
  command field keeps one, and the staged ones exactly when moreover inputs with one field have one reference.
  */
  lemma StagedAreRecorded(fields: seq<ContentField>, original: Original, d: Decision, input: map<string, Value>,
                          references: seq<string>)
    requires DecidedOn(fields, original, d, input, references)
    ensures var supplied := Supplied(fields, original.input.members);
      var recorded := RecordedAcceptances(fields, original, d);
      && (recorded.Some? <==> Readable(supplied, references))
      && (recorded.Some? ==> recorded == Some(StagedReferences(supplied, references)))
      && (recorded == Some(Exactly(supplied, references)) <==>
            Readable(supplied, references) && OneReferenceEach(supplied, references))
  {
    var supplied := Supplied(fields, original.input.members);
    var decided := StagedInput(supplied, input, references);
    forall i | 0 <= i < |supplied|
      ensures Holds(decided, supplied[i]) <==> (
        && Survives(supplied, supplied[i].commandField)
        && !Blank(ReferenceFor(supplied, references, supplied[i].commandField)))
      ensures Holds(decided, supplied[i]) ==>
        decided[supplied[i].commandField].s == ReferenceFor(supplied, references, supplied[i].commandField)
      ensures OneReferenceEach(supplied, references) ==>
        ReferenceFor(supplied, references, supplied[i].commandField) == references[i]
    {
      StagedHolds(supplied, input, references, i);
    }
    AcceptancesRead(fields, original.input.members, decided);
    if Readable(supplied, references) {
      assert Readings(supplied, decided) == StagedReferences(supplied, references);
    }
    ExactMeansOneEach(supplied, references);
    if OneReferenceEach(supplied, references) {
      assert StagedReferences(supplied, references) == Exactly(supplied, references);
    }
  }

  /** Each supplied content input's own reference, under its policy. */
  function Exactly(supplied: seq<ContentField>, references: seq<string>): seq<(string, string)>
    requires |references| == |supplied|
  {
    seq(|supplied|, i requires 0 <= i < |supplied| => (supplied[i].policy, references[i]))
  }

  function Pair(policy: string, one: string, oneField: string, two: string, twoField: string): seq<ContentField> {
    [ContentField(one, policy, oneField), ContentField(two, policy, twoField)]
  }

  lemma PairSupplied(policy: string, one: string, oneField: string, two: string, twoField: string,
                     input: map<string, Value>)
    requires |Supplied(Pair(policy, one, oneField, two, twoField), input)| == 2
    ensures Supplied(Pair(policy, one, oneField, two, twoField), input) == Pair(policy, one, oneField, two, twoField)
  {
    var fields := Pair(policy, one, oneField, two, twoField);
    assert fields[1..] == [fields[1]] && fields[1..][1..] == [];
    assert Supplied(fields[1..], input) == if two in input then [fields[1]] else [];
  }

  /** Two inputs bound to one command field: a repair accepts the later reference twice and the earlier never. */
  lemma SharedFieldLosesReference(policy: string, target: string, original: Original, d: Decision,
                                  input: map<string, Value>, first: string, second: string)
    requires first != second && !Blank(second)
    requires DecidedOn(Pair(policy, "one", target, "two", target), original, d, input, [first, second])
    ensures RecordedAcceptances(Pair(policy, "one", target, "two", target), original, d)
      == Some([(policy, second), (policy, second)])
  {
    var fields := Pair(policy, "one", target, "two", target);
    PairSupplied(policy, "one", target, "two", target, original.input.members);
    StagedAreRecorded(fields, original, d, input, [first, second]);
    assert Survives(fields, target) by { assert fields[1].commandField == target; }
    assert StagedReferences(fields, [first, second]) == [(policy, second), (policy, second)];
  }

  /** An input named like the command field of an earlier one removes its reference: no repair can succeed. */
  lemma LaterNameRemovesReference(policy: string, original: Original, d: Decision, input: map<string, Value>,
                                  first: string, second: string)
    requires DecidedOn(Pair(policy, "a", "x", "x", "y"), original, d, input, [first, second])
    ensures OneReferenceEach(Pair(policy, "a", "x", "x", "y"), [first, second])
    ensures RecordedAcceptances(Pair(policy, "a", "x", "x", "y"), original, d) == None
  {
    var fields := Pair(policy, "a", "x", "x", "y");
    PairSupplied(policy, "a", "x", "x", "y", original.input.members);
    StagedAreRecorded(fields, original, d, input, [first, second]);
    assert !Survives(fields, fields[0].commandField) by {
      assert fields[1].name == "x" && fields[1].commandField == "y";
    }
  }

  /**
  When every resource answers, the repair of a batch decided on staged input commits it with its receipt
  exactly when every command field keeps a reference; it then accepts one per content input. Otherwise it
  is an integrity failure.
  */
  lemma RepairDelivers(rt: Runtime, plan: Plan, ctx: Context, operation: string, claim: string, original: Original,
                       d: Decision, s: Store, w: RepairWorld, input: map<string, Value>, references: seq<string>)
    requires IsBytes(operation) && ValidUtf8(operation) && operation != "" && |claim| == 64 && AllLowerHex(claim)
    requires RecordedBy(plan, ctx, operation, original) && ClaimOf(rt, plan.service, ctx, original) == claim
    requires claim in s.batches && BatchIs(rt, s, claim, s.batches[claim], original, d) && StoreOk(rt, s)
    requires StoreOk(rt, w.store) && StoreOk(rt, w.later) && Extends(s, w.store) && Extends(w.store, w.later)
    requires w.admitted && w.readable && w.historyReadable && w.projects && w.effects && forall i :: w.accepts(i)
    requires DecidedOn(plan.intents[operation].content, original, d, input, references)
    ensures Repaired(rt, plan, ctx, RepairToken(operation, claim), w)
      == if Readable(Supplied(plan.intents[operation].content, original.input.members), references)
         then Committed(d, s.batches[claim].receipt, true) else Failed(Integrity)
    ensures var target := FindTarget(rt, plan, ctx, RepairToken(operation, claim), w);
      && target == Target(plan.intents[operation].content, original, d, s.batches[claim].receipt)
      && RecordedAcceptances(target.fields, original, d)
         == if Readable(Supplied(target.fields, original.input.members), references)
            then Some(StagedReferences(Supplied(target.fields, original.input.members), references)) else None
  {
    RepairReachesItsBatch(rt, plan, ctx, operation, claim, original, d, s, w);
    StagedAreRecorded(plan.intents[operation].content, original, d, input, references);
  }

  /**
  The token of a failed aftercare, presented by the context of the run at any later time, reaches the
  batch the run reported, with its receipt, and redelivers from it. When every resource answers and the
  batch was decided on staged input whose references survive, this commits.
  */
  lemma AftercareIsRepairable(rt: Runtime, plan: Plan, ctx: Context, operation: string, claim: string,
                              original: Original, seen: Store, receipt: nat, w: RepairWorld)
    requires IsBytes(operation) && ValidUtf8(operation) && operation != "" && |claim| == 64 && AllLowerHex(claim)
    requires RecordedBy(plan, ctx, operation, original) && ClaimOf(rt, plan.service, ctx, original) == claim
    requires Evidence(rt, seen, claim, original, receipt) && StoreOk(rt, seen)
    requires StoreOk(rt, w.store) && StoreOk(rt, w.later) && Extends(seen, w.store) && Extends(w.store, w.later)
    requires w.admitted && w.readable && w.historyReadable
    ensures exists o, d :: (
      && BatchIs(rt, seen, claim, seen.batches[claim], o, d) && SameIntent(rt.numerics, o, original)
      && Repaired(rt, plan, ctx, RepairToken(operation, claim), w)
         == Redeliver(plan.intents[operation].content, o, d, receipt, RepairToken(operation, claim), w)
      && (w.projects && w.effects && (forall i :: w.accepts(i))
          && StagedProperly(plan.intents[operation].content, o, d) ==>
            Repaired(rt, plan, ctx, RepairToken(operation, claim), w) == Committed(d, receipt, true)))
  {
    var o, d :| BatchIs(rt, seen, claim, seen.batches[claim], o, d) && SameIntent(rt.numerics, o, original);
    RepairReachesItsBatch(rt, plan, ctx, operation, claim, o, d, seen, w);
    ProperlyStagedCommits(plan.intents[operation].content, o, d, receipt, RepairToken(operation, claim), w);
  }

  lemma ProperlyStagedCommits(fields: seq<ContentField>, original: Original, d: Decision, receipt: nat, token: string,
                              w: RepairWorld)
    ensures w.projects && w.effects && (forall i :: w.accepts(i)) && StagedProperly(fields, original, d) ==>
      Redeliver(fields, original, d, receipt, token, w) == Committed(d, receipt, true)
  {
    if StagedProperly(fields, original, d) {
      var input, references :|
        && DecidedOn(fields, original, d, input, references)
        && Readable(Supplied(fields, original.input.members), references);
      StagedAreRecorded(fields, original, d, input, references);
    }
  }

  /** The decision was made on the input of a staging run that leaves every reference readable. */
  ghost predicate StagedProperly(fields: seq<ContentField>, original: Original, d: Decision) {
    exists input, references ::
      && DecidedOn(fields, original, d, input, references)
      && Readable(Supplied(fields, original.input.members), references)
  }

  // ---- who may repair, and what ----

  /** The caller and the plan are the ones that the intent was recorded with. */
  ghost predicate SameOrigin(plan: Plan, ctx: Context, operation: string, original: Original) {
    && operation in plan.intents && original.operation == operation
    && original.tenant == ctx.tenant && original.realm == ctx.realm && original.authority == ctx.authority
    && original.user == ctx.user && original.executor == ctx.executor
    && original.service == plan.service && original.planDigest == plan.planDigest
    && original.category == plan.intents[operation].category
  }

  /** The claim is the digest of the intent's own scope, category, selector and key. */
  ghost predicate OwnClaim(rt: Runtime, original: Original, claim: string) {
    claim == rt.claimDigest(LogicalScope(original.service, original.tenant, original.realm), original.category,
                            original.selector, original.idempotencyKey)
  }

  /** A written batch is found for repair exactly by its own origin, under its own claim; others are refused. */
  lemma RepairOnlyByOrigin(rt: Runtime, plan: Plan, ctx: Context, operation: string, claim: string,
                           original: Original, d: Decision, s: Store, w: RepairWorld)
    requires IsBytes(operation) && ValidUtf8(operation) && operation != "" && |claim| == 64 && AllLowerHex(claim)
    requires StoreOk(rt, s) && StoreOk(rt, w.store) && StoreOk(rt, w.later)
    requires Extends(s, w.store) && Extends(w.store, w.later)
    requires claim in s.batches && BatchIs(rt, s, claim, s.batches[claim], original, d)
    requires operation in plan.intents && w.admitted && w.readable && w.historyReadable
    ensures FindTarget(rt, plan, ctx, RepairToken(operation, claim), w)
      == if SameOrigin(plan, ctx, operation, original) && OwnClaim(rt, original, claim)
         then Target(plan.intents[operation].content, original, d, s.batches[claim].receipt) else Stop(Integrity)
  {
    RepairReachesItsBatch(rt, plan, ctx, operation, claim, original, d, s, w);
    RepairRoundTrip(operation, claim);
    assert w.store.batches[claim] == s.batches[claim];
  }

  /** Before a batch is looked at: a malformed token, an unknown operation, no admission, no readable batch. */
  lemma RepairStops(rt: Runtime, plan: Plan, ctx: Context, token: string, w: RepairWorld)
    ensures var at := RepairCoordinates(token);
      && (at.None? ==> Repaired(rt, plan, ctx, token, w) == Failed(Input))
      && (at.Some? && at.value.0 !in plan.intents ==> Repaired(rt, plan, ctx, token, w) == Failed(Binding))
      && (at.Some? && at.value.0 in plan.intents && !w.admitted ==>
            Repaired(rt, plan, ctx, token, w) == Failed(Admission))
      && (at.Some? && at.value.0 in plan.intents && w.admitted && (!w.readable || at.value.1 !in w.store.batches) ==>
            Repaired(rt, plan, ctx, token, w) == Failed(Persistence))
  {
  }

  /** Whatever the store holds, a repair only ever works on a genuine batch of the caller's own intent. */
  lemma TargetIsGenuine(rt: Runtime, plan: Plan, ctx: Context, token: string, w: RepairWorld)
    requires FindTarget(rt, plan, ctx, token, w).Target?
    ensures var t, at := FindTarget(rt, plan, ctx, token, w), RepairCoordinates(token);
      && at.Some? && at.value.1 in w.store.batches
      && SameOrigin(plan, ctx, at.value.0, t.original) && OwnClaim(rt, t.original, at.value.1)
      && w.store.batches[at.value.1] == BatchFor(rt, at.value.1, t.original, t.decision, t.receipt)
      && exists i :: VerifiedAt(rt, History(w.later, t.decision.instance.subject), t.decision, i)
  {
    var t, at := FindTarget(rt, plan, ctx, token, w), RepairCoordinates(token).value;
    var b := w.store.batches[at.1];
    assert w.historyReadable;
    GenuineBatch(rt, b, t.original, History(w.later, SubjectOf(b)), t.decision);
  }

  lemma GenuineBatch(rt: Runtime, b: StoredBatch, original: Original, history: seq<DecisionRecord>, d: Decision)
    requires IsPair(b) && b.records[1].observation.intent == original
    requires Recover(rt, b, original, Some(history)) == Committed(d, b.receipt, true)
    ensures b == BatchFor(rt, b.key, original, d, b.receipt) && exists i :: VerifiedAt(rt, history, d, i)
  {
    RecoverCommitsIff(rt, b, original, history, d);
  }

  /** A found batch: integrity when its references are gone, aftercare when a resource fails, else committed. */
  lemma RedeliverTells(fields: seq<ContentField>, original: Original, d: Decision, receipt: nat, token: string,
                       w: RepairWorld)
    ensures var recorded := RecordedAcceptances(fields, original, d);
      var r := Redeliver(fields, original, d, receipt, token, w);
      && (r == Failed(Integrity) <==> recorded.None?)
      && (r == Committed(d, receipt, true) <==>
            recorded.Some? && w.projects && w.effects && forall i :: 0 <= i < |recorded.value| ==> w.accepts(i))
      && (r == Failed(Integrity) || r == Committed(d, receipt, true) || r == Failed(Aftercare(receipt, token)))
  {
  }
}
