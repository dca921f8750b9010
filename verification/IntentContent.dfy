/**
Staged content of /3 intents: what happens to the tokens of a contender along every run of `Intents`,
and which committed batches end up with abandoned content.
*/
module IntentContent {
  import opened Text
  import opened Codecs
  import opened JsonNumbers
  import opened Projection
  import opened ProjectionTables
  import opened Intents

  /** Tokens that contenders hold, all that were ever staged, and what the host was told about them. */
  datatype Content = Content(
    staged: map<nat, seq<string>>, minted: set<string>, accepted: set<string>, abandoned: set<string>)

  /** A step, the tokens staged in it, and how many tokens its accept loop gets through. */
  datatype Move = Take(step: Step, tokens: seq<string>, done: nat)

  function Plain(step: Step): Move { Take(step, [], 0) }

  datatype World = World(system: System, content: Content)

  const START := World(EMPTY, Content(map[], {}, {}, {}))

  function Elements(tokens: seq<string>): set<string> { set t | t in tokens }

  function Held(c: Content, w: nat): seq<string> { if w in c.staged then c.staged[w] else [] }

  function Release(c: Content, w: nat): Content { c.(staged := c.staged - {w}) }

  function Abandon(c: Content, tokens: seq<string>): Content { c.(abandoned := c.abandoned + Elements(tokens)) }

  /** The append's outcome: an error abandons, a first commit keeps the tokens, a replay forgets them. */
  function AfterAnswer(c: Content, w: nat, after: Pc): Content {
    if after.Confirming? then c
    else if after.Resolving? then Abandon(Release(c, w), Held(c, w))
    else Release(c, w)
  }

  /** What one step of a contender does to content, given where it moved the contender. */
  function Effect(c: Content, before: Pc, after: Pc, m: Move): Content
    requires !m.step.External? && m.done <= |Held(c, m.step.w)|
  {
    var w, mint := m.step.w, c.minted + Elements(m.tokens);
    match m.step
    case Decide(_, _, _, _) =>
      if before.Deciding? && after.Appending? then c.(staged := c.staged[w := m.tokens], minted := mint) else c
    // staging or event production failed: what was staged is abandoned; after staging only the clock can fail
    case GiveUp(_) =>
      if before.Deciding? then Abandon(c.(minted := mint), m.tokens) else if before.Appending? then Release(c, w) else c
    case Append(_, _) => if before.Appending? then AfterAnswer(c, w, after) else c
    case Confirm(_, _) =>
      if before.Confirming? then Release(c.(accepted := c.accepted + Elements(Held(c, w)[..m.done])), w) else c
    case Crash(_) => Release(c, w)
    case _ => c
  }

  /** The host mints new tokens; a confirmation that succeeds has accepted all of them. */
  predicate Allowed(c: Content, m: Move) {
    && Elements(m.tokens) !! c.minted
    && (!m.step.External? ==> m.done <= |Held(c, m.step.w)|)
    && (m.step.Confirm? && !m.step.fault ==> m.done == |Held(c, m.step.w)|)
  }

  function ApplyMove(plan: Plan, h: string -> string, x: World, m: Move): World
    requires IsDigest(h)
  {
    if !Allowed(x.content, m) then x
    else
      var next := Apply(plan, h, x.system, m.step);
      World(next,
            if m.step.External? then x.content
            else Effect(x.content, PcOf(x.system, m.step.w), PcOf(next, m.step.w), m))
  }

  function RunMoves(plan: Plan, h: string -> string, moves: seq<Move>): World
    requires IsDigest(h)
  {
    if moves == [] then START
    else ApplyMove(plan, h, RunMoves(plan, h, moves[..|moves| - 1]), moves[|moves| - 1])
  }

  lemma RunMovesNext(plan: Plan, h: string -> string, moves: seq<Move>, n: nat)
    requires IsDigest(h) && n < |moves|
    ensures RunMoves(plan, h, moves[..n + 1]) == ApplyMove(plan, h, RunMoves(plan, h, moves[..n]), moves[n])
  {
    assert moves[..n + 1][..n] == moves[..n];
  }

  // ---- where a step can move a contender ----

  predicate Holding(pc: Pc) { pc.Appending? || pc.Confirming? }

  lemma LookupMoves(plan: Plan, s: System, w: nat, fault: bool, v: nat)
    ensures v != w || !PcOf(s, w).Looking? ==> PcOf(LookupStep(plan, s, w, fault), v) == PcOf(s, v)
  {
  }

  lemma ResolveMoves(plan: Plan, s: System, w: nat, fault: bool, v: nat)
    ensures v != w || !PcOf(s, w).Resolving? ==> PcOf(ResolveStep(plan, s, w, fault), v) == PcOf(s, v)
  {
  }

  lemma AfterAppendMoves(plan: Plan, s: System, w: nat, pc: Pc, first: Option<System>, lost: bool, v: nat)
    requires pc.Appending?
    requires first.Some? ==> pc.request.id in first.value.claims && first.value.contenders == s.contenders
    ensures v != w ==> PcOf(AfterAppend(plan, s, w, pc, first, lost), v) == PcOf(s, v)
    ensures first.Some? ==>
      var after := PcOf(AfterAppend(plan, s, w, pc, first, lost), w);
      if lost then after == Resolving(pc.request) else after.Confirming?
  {
  }

  lemma AppendMoves(plan: Plan, h: string -> string, s: System, w: nat, lost: bool, v: nat)
    requires IsDigest(h)
    ensures v != w || !PcOf(s, w).Appending? ==> PcOf(AppendStep(plan, h, s, w, lost), v) == PcOf(s, v)
  {
    var pc := PcOf(s, w);
    if pc.Appending? { AfterAppendMoves(plan, s, w, pc, ClaimedAppend(plan, h, s, pc), lost, v); }
  }

  /** A committing append leads to confirmation, or to a second lookup when its response is lost. */
  lemma CommitMoves(plan: Plan, h: string -> string, s: System, w: nat, lost: bool)
    requires IsDigest(h) && PcOf(s, w).Appending? && ClaimedAppend(plan, h, s, PcOf(s, w)).Some?
    ensures var after := PcOf(AppendStep(plan, h, s, w, lost), w);
      if lost then after == Resolving(PcOf(s, w).request) else after.Confirming?
  {
    AfterAppendMoves(plan, s, w, PcOf(s, w), ClaimedAppend(plan, h, s, PcOf(s, w)), lost, w);
  }

  /** Nobody but the stepping contender moves. */
  lemma OthersStay(plan: Plan, h: string -> string, s: System, step: Step, v: nat)
    requires IsDigest(h) && (step.External? || step.w != v)
    ensures PcOf(Apply(plan, h, s, step), v) == PcOf(s, v)
  {
    match step
    case Lookup(w, fault) => LookupMoves(plan, s, w, fault, v);
    case Resolve(w, fault) => ResolveMoves(plan, s, w, fault, v);
    case Append(w, lost) => AppendMoves(plan, h, s, w, lost, v);
    case _ =>
  }

  /** A contender that holds tokens moves only by its append, its confirmation, giving up or crashing. */
  lemma HoldersStay(plan: Plan, h: string -> string, s: System, step: Step)
    requires IsDigest(h) && !step.External? && Holding(PcOf(s, step.w)) && !step.Crash?
    requires PcOf(s, step.w).Appending? ==> !step.Append? && !step.GiveUp?
    requires PcOf(s, step.w).Confirming? ==> !step.Confirm?
    ensures PcOf(Apply(plan, h, s, step), step.w) == PcOf(s, step.w)
  {
    match step
    case Lookup(w, fault) => LookupMoves(plan, s, w, fault, w);
    case Resolve(w, fault) => ResolveMoves(plan, s, w, fault, w);
    case Append(w, lost) => AppendMoves(plan, h, s, w, lost, w);
    case _ =>
  }

  // ---- every run ----

  /** Tokens are held by one contender at most, and by none once they were accepted or abandoned. */
  ghost predicate ContentOk(c: Content) {
    && c.accepted <= c.minted && c.abandoned <= c.minted && c.accepted !! c.abandoned
    && (forall w :: w in c.staged ==> Elements(c.staged[w]) <= c.minted - c.accepted - c.abandoned)
    && (forall v, w :: v in c.staged && w in c.staged && v != w ==> Elements(c.staged[v]) !! Elements(c.staged[w]))
  }

  ghost predicate HoldersOk(x: World) { forall w :: w in x.content.staged ==> Holding(PcOf(x.system, w)) }

  lemma ReleaseKeeps(c: Content, w: nat)
    requires ContentOk(c)
    ensures ContentOk(Release(c, w)) && Elements(Held(c, w)) <= c.minted - c.accepted - c.abandoned
    ensures forall v :: v in Release(c, w).staged ==> Elements(c.staged[v]) !! Elements(Held(c, w))
  {
  }

  lemma EffectKeeps(c: Content, before: Pc, after: Pc, m: Move)
    requires ContentOk(c) && !m.step.External? && Allowed(c, m)
    requires m.step.Decide? && before.Deciding? ==> m.step.w !in c.staged
    ensures ContentOk(Effect(c, before, after, m))
  {
    ReleaseKeeps(c, m.step.w);
    if m.step.Confirm? {
      assert Elements(Held(c, m.step.w)[..m.done]) <= Elements(Held(c, m.step.w));
    }
  }

  lemma MoveKeepsHolders(plan: Plan, h: string -> string, x: World, m: Move)
    requires IsDigest(h) && HoldersOk(x)
    ensures HoldersOk(ApplyMove(plan, h, x, m))
  {
    var y := ApplyMove(plan, h, x, m);
    if Allowed(x.content, m) {
      forall v | v in y.content.staged ensures Holding(PcOf(y.system, v)) {
        if m.step.External? || v != m.step.w {
          OthersStay(plan, h, x.system, m.step, v);
        } else if v in x.content.staged && !MovesHolder(PcOf(x.system, v), m.step) {
          HoldersStay(plan, h, x.system, m.step);
        }
      }
    }
  }

  predicate MovesHolder(pc: Pc, step: Step) {
    step.Crash? || (pc.Appending? && (step.Append? || step.GiveUp?)) || (pc.Confirming? && step.Confirm?)
  }

  lemma MoveKeepsContent(plan: Plan, h: string -> string, x: World, m: Move)
    requires IsDigest(h) && HoldersOk(x) && ContentOk(x.content)
    ensures ContentOk(ApplyMove(plan, h, x, m).content)
  {
    if Allowed(x.content, m) && !m.step.External? {
      var next := Apply(plan, h, x.system, m.step);
      EffectKeeps(x.content, PcOf(x.system, m.step.w), PcOf(next, m.step.w), m);
    }
  }

  /** No token of any run is both accepted and abandoned, and none is decided while still held. */
  lemma {:induction false} RunKeepsContent(plan: Plan, h: string -> string, moves: seq<Move>)
    requires IsDigest(h)
    ensures ContentOk(RunMoves(plan, h, moves).content) && HoldersOk(RunMoves(plan, h, moves))
  {
    if moves != [] {
      var n := |moves| - 1;
      RunKeepsContent(plan, h, moves[..n]);
      MoveKeepsHolders(plan, h, RunMoves(plan, h, moves[..n]), moves[n]);
      MoveKeepsContent(plan, h, RunMoves(plan, h, moves[..n]), moves[n]);
    }
  }

  // ---- the tokens of a committed batch ----

  /** These tokens can no longer be abandoned: only a confirming contender may still hold them. */
  ghost predicate Safe(x: World, tokens: set<string>) {
    && tokens <= x.content.minted && tokens !! x.content.abandoned
    && forall w :: w in x.content.staged && !(Elements(x.content.staged[w]) !! tokens) ==> PcOf(x.system, w).Confirming?
  }

  lemma SafeEffect(c: Content, before: Pc, after: Pc, m: Move, tokens: set<string>)
    requires !m.step.External? && Allowed(c, m) && tokens <= c.minted && tokens !! c.abandoned
    requires m.step.w in c.staged && !(Elements(c.staged[m.step.w]) !! tokens) ==> before.Confirming?
    ensures tokens <= Effect(c, before, after, m).minted && tokens !! Effect(c, before, after, m).abandoned
    ensures forall w :: w in Effect(c, before, after, m).staged && w != m.step.w ==>
      w in c.staged && Effect(c, before, after, m).staged[w] == c.staged[w]
    ensures var d := Effect(c, before, after, m); var w := m.step.w;
      w in d.staged && !(Elements(d.staged[w]) !! tokens) ==>
        w in c.staged && d.staged[w] == c.staged[w] && !MovesHolder(before, m.step)
  {
  }

  lemma MoveKeepsSafe(plan: Plan, h: string -> string, x: World, m: Move, tokens: set<string>)
    requires IsDigest(h) && Safe(x, tokens)
    ensures Safe(ApplyMove(plan, h, x, m), tokens)
  {
    if Allowed(x.content, m) {
      var next := Apply(plan, h, x.system, m.step);
      if !m.step.External? { SafeEffect(x.content, PcOf(x.system, m.step.w), PcOf(next, m.step.w), m, tokens); }
      var y := ApplyMove(plan, h, x, m);
      forall w | w in y.content.staged && !(Elements(y.content.staged[w]) !! tokens)
        ensures PcOf(y.system, w).Confirming?
      {
        if m.step.External? || w != m.step.w {
          OthersStay(plan, h, x.system, m.step, w);
        } else {
          HoldersStay(plan, h, x.system, m.step);
        }
      }
    }
  }

  lemma AbandonedStays(plan: Plan, h: string -> string, x: World, m: Move)
    requires IsDigest(h)
    ensures x.content.abandoned <= ApplyMove(plan, h, x, m).content.abandoned
  {
  }

  lemma {:induction false} FatePersists(plan: Plan, h: string -> string, moves: seq<Move>, n: nat, tokens: set<string>)
    requires IsDigest(h) && n <= |moves|
    ensures Safe(RunMoves(plan, h, moves[..n]), tokens) ==> Safe(RunMoves(plan, h, moves), tokens)
    ensures RunMoves(plan, h, moves[..n]).content.abandoned <= RunMoves(plan, h, moves).content.abandoned
    decreases |moves| - n
  {
    if n == |moves| {
      assert moves[..n] == moves;
    } else {
      RunMovesNext(plan, h, moves, n);
      AbandonedStays(plan, h, RunMoves(plan, h, moves[..n]), moves[n]);
      if Safe(RunMoves(plan, h, moves[..n]), tokens) {
        MoveKeepsSafe(plan, h, RunMoves(plan, h, moves[..n]), moves[n], tokens);
      }
      FatePersists(plan, h, moves, n + 1, tokens);
    }
  }

  /** The move commits the batch of a contender. */
  ghost predicate CommitsBatch(plan: Plan, h: string -> string, x: World, m: Move)
    requires IsDigest(h)
  {
    && m.step.Append? && Allowed(x.content, m) && PcOf(x.system, m.step.w).Appending?
    && ClaimedAppend(plan, h, x.system, PcOf(x.system, m.step.w)).Some?
  }

  lemma CommitDecides(plan: Plan, h: string -> string, x: World, m: Move)
    requires IsDigest(h) && ContentOk(x.content) && CommitsBatch(plan, h, x, m)
    ensures var y, tokens := ApplyMove(plan, h, x, m), Elements(Held(x.content, m.step.w));
      if m.step.responseLost then tokens <= y.content.abandoned else Safe(y, tokens)
  {
    var w := m.step.w;
    CommitMoves(plan, h, x.system, w, m.step.responseLost);
    assert Apply(plan, h, x.system, m.step) == AppendStep(plan, h, x.system, w, m.step.responseLost);
    ReleaseKeeps(x.content, w);
  }

  /** The tokens of a committed batch are abandoned, then or ever, exactly when its append's response was lost. */
  lemma CommittedAbandonedIff(plan: Plan, h: string -> string, moves: seq<Move>, n: nat, t: string)
    requires IsDigest(h) && n < |moves| && CommitsBatch(plan, h, RunMoves(plan, h, moves[..n]), moves[n])
    requires t in Held(RunMoves(plan, h, moves[..n]).content, moves[n].step.w)
    ensures t in RunMoves(plan, h, moves).content.abandoned <==> moves[n].step.responseLost
  {
    var x := RunMoves(plan, h, moves[..n]);
    var tokens := Elements(Held(x.content, moves[n].step.w));
    RunKeepsContent(plan, h, moves[..n]);
    CommitDecides(plan, h, x, moves[n]);
    RunMovesNext(plan, h, moves, n);
    FatePersists(plan, h, moves, n + 1, tokens);
    assert t in tokens;
  }

  // ---- what becomes of the tokens of one attempt ----

  /** Tokens staged by a decision that then fails, or before an append that fails, are abandoned. */
  lemma FailuresAbandon(plan: Plan, h: string -> string, x: World, m: Move)
    requires IsDigest(h) && Allowed(x.content, m)
    ensures m.step.GiveUp? && PcOf(x.system, m.step.w).Deciding? ==>
      Elements(m.tokens) <= ApplyMove(plan, h, x, m).content.abandoned
    ensures m.step.Append? && PcOf(x.system, m.step.w).Appending? ==>
      var y := ApplyMove(plan, h, x, m);
      PcOf(y.system, m.step.w).Resolving? ==> Elements(Held(x.content, m.step.w)) <= y.content.abandoned
  {
  }

  /** A confirmation accepts a prefix of the batch's tokens, and all of them when it answers success. */
  lemma ConfirmationAccepts(plan: Plan, h: string -> string, x: World, m: Move)
    requires IsDigest(h) && Allowed(x.content, m) && m.step.Confirm? && PcOf(x.system, m.step.w).Confirming?
    ensures var y, tokens := ApplyMove(plan, h, x, m), Held(x.content, m.step.w);
      && y.content.accepted == x.content.accepted + Elements(tokens[..m.done])
      && y.content.abandoned == x.content.abandoned
      && (!m.step.fault ==> Elements(tokens) <= y.content.accepted)
  {
    var tokens := Held(x.content, m.step.w);
    assert !m.step.fault ==> tokens[..m.done] == tokens;
  }

  /** A deduplicated append, a clock failure after staging, and a crash leave the tokens undecided. */
  lemma Undecided(plan: Plan, h: string -> string, x: World, m: Move)
    requires IsDigest(h) && Allowed(x.content, m) && !m.step.External? && Holding(PcOf(x.system, m.step.w))
    requires m.step.Crash? || (m.step.GiveUp? && PcOf(x.system, m.step.w).Appending?)
      || (m.step.Append? && PcOf(ApplyMove(plan, h, x, m).system, m.step.w).Replaying?)
    ensures var y := ApplyMove(plan, h, x, m);
      && y.content.accepted == x.content.accepted && y.content.abandoned == x.content.abandoned
      && m.step.w !in y.content.staged
  {
    if m.step.Append? && PcOf(x.system, m.step.w).Confirming? {
      AppendMoves(plan, h, x.system, m.step.w, m.step.responseLost, m.step.w);
    }
  }

  // ---- such a batch is still answered with success ----

  /** The steps of a run without the moves that were not allowed. */
  function StepsOf(plan: Plan, h: string -> string, moves: seq<Move>): seq<Step>
    requires IsDigest(h)
  {
    if moves == [] then []
    else
      var init, last := moves[..|moves| - 1], moves[|moves| - 1];
      StepsOf(plan, h, init) + (if Allowed(RunMoves(plan, h, init).content, last) then [last.step] else [])
  }

  lemma {:induction false} SystemIsRun(plan: Plan, h: string -> string, moves: seq<Move>)
    requires IsDigest(h)
    ensures RunMoves(plan, h, moves).system == Run(plan, h, StepsOf(plan, h, moves))
  {
    if moves != [] {
      var init, last := moves[..|moves| - 1], moves[|moves| - 1];
      SystemIsRun(plan, h, init);
      if Allowed(RunMoves(plan, h, init).content, last) {
        RunSnoc(plan, h, StepsOf(plan, h, init), last.step);
      } else {
        assert StepsOf(plan, h, init) + [] == StepsOf(plan, h, init);
      }
    }
  }

  lemma RunMovesSnoc(plan: Plan, h: string -> string, moves: seq<Move>, m: Move)
    requires IsDigest(h)
    ensures RunMoves(plan, h, moves + [m]) == ApplyMove(plan, h, RunMoves(plan, h, moves), m)
  {
    assert (moves + [m])[..|moves|] == moves;
  }

  /** What a committing append with a lost response leaves behind. */
  lemma LostCommit(plan: Plan, h: string -> string, s: System, w: nat)
    requires IsDigest(h) && Inv(plan, s) && PcOf(s, w).Appending? && ClaimedAppend(plan, h, s, PcOf(s, w)).Some?
    ensures var pc, t := PcOf(s, w), AppendStep(plan, h, s, w, true);
      && PcOf(t, w) == Resolving(pc.request) && t.answers == s.answers
      && pc.request.id in t.claims && Won(t, pc.request, pc.events, t.claims[pc.request.id].last)
  {
    var pc := PcOf(s, w);
    var next := ClaimedAppend(plan, h, s, pc).value;
    ClaimedAppendKeeps(plan, h, s, pc);
    WonStays(next, Goto(next, w, Resolving(pc.request)), pc.request, pc.events, next.claims[pc.request.id].last);
  }

  /** A move that stages nothing and accepts nothing is always allowed, and its step is taken. */
  lemma PlainMove(plan: Plan, h: string -> string, x: World, step: Step)
    requires IsDigest(h) && !step.Confirm?
    ensures Allowed(x.content, Plain(step))
    ensures ApplyMove(plan, h, x, Plain(step)).system == Apply(plan, h, x.system, step)
    ensures x.content.abandoned <= ApplyMove(plan, h, x, Plain(step)).content.abandoned
  {
    AbandonedStays(plan, h, x, Plain(step));
  }

  /** From `x` to `y` the batch of `w` was stored, its content abandoned, and its caller told nothing. */
  ghost predicate LostBatch(x: World, y: World, w: nat) {
    var pc := PcOf(x.system, w);
    && pc.Appending? && Elements(Held(x.content, w)) <= y.content.abandoned
    && PcOf(y.system, w) == Resolving(pc.request) && y.system.answers == x.system.answers
    && pc.request.id in y.system.claims && Won(y.system, pc.request, pc.events, y.system.claims[pc.request.id].last)
  }

  lemma LostCommitMoves(plan: Plan, h: string -> string, moves: seq<Move>, w: nat)
    requires IsDigest(h) && CommitsBatch(plan, h, RunMoves(plan, h, moves), Plain(Append(w, true)))
    ensures LostBatch(RunMoves(plan, h, moves), RunMoves(plan, h, moves + [Plain(Append(w, true))]), w)
  {
    var x := RunMoves(plan, h, moves);
    SystemIsRun(plan, h, moves);
    Intents.RunKeepsInv(plan, h, StepsOf(plan, h, moves));
    RunKeepsContent(plan, h, moves);
    LostCommit(plan, h, x.system, w);
    CommitDecides(plan, h, x, Plain(Append(w, true)));
    RunMovesSnoc(plan, h, moves, Plain(Append(w, true)));
    PlainMove(plan, h, x, Append(w, true));
    AppendIsStep(plan, h, x.system, w, true);
  }

  lemma AppendIsStep(plan: Plan, h: string -> string, s: System, w: nat, lost: bool)
    requires IsDigest(h)
    ensures Apply(plan, h, s, Append(w, lost)) == AppendStep(plan, h, s, w, lost)
  {
  }

  lemma PlainMoves(plan: Plan, h: string -> string, moves: seq<Move>, a: Step, b: Step)
    requires IsDigest(h) && !a.Confirm? && !b.Confirm?
    ensures var x, y := RunMoves(plan, h, moves), RunMoves(plan, h, moves + [Plain(a)] + [Plain(b)]);
      && y.system == Apply(plan, h, Apply(plan, h, x.system, a), b)
      && x.content.abandoned <= y.content.abandoned
  {
    RunMovesSnoc(plan, h, moves, Plain(a));
    PlainMove(plan, h, RunMoves(plan, h, moves), a);
    RunMovesSnoc(plan, h, moves + [Plain(a)], Plain(b));
    PlainMove(plan, h, RunMoves(plan, h, moves + [Plain(a)]), b);
  }

  /** The move in which the append's response is lost, a second lookup, and its authorisation. */
  function Aftermath(w: nat): seq<Move> {
    [Plain(Append(w, true))] + [Plain(Resolve(w, false))] + [Plain(Authorize(w, true))]
  }

  /**
  Whenever a contender's batch commits but the response is lost, a working second lookup still answers it
  with success and that batch, although all of the batch's content has been abandoned.
  */
  lemma LostCommitStillSucceeds(plan: Plan, h: string -> string, moves: seq<Move>, w: nat) returns (version: nat)
    requires IsDigest(h) && CommitsBatch(plan, h, RunMoves(plan, h, moves), Plain(Append(w, true)))
    ensures AnsweredWithout(RunMoves(plan, h, moves), RunMoves(plan, h, moves + Aftermath(w)), w, version)
  {
    LostCommitMoves(plan, h, moves, w);
    version := LostBatchAnswered(plan, h, moves, w);
  }

  /** From `x` to `y` the batch that `w` holds in `x` was answered with success and its content abandoned. */
  ghost predicate AnsweredWithout(x: World, y: World, w: nat, version: nat) {
    var pc := PcOf(x.system, w);
    && pc.Appending? && Elements(Held(x.content, w)) <= y.content.abandoned
    && y.system.answers == x.system.answers + [Success(pc.request, pc.events, version, true)]
  }

  lemma LostBatchAnswered(plan: Plan, h: string -> string, moves: seq<Move>, w: nat) returns (version: nat)
    requires IsDigest(h)
    requires LostBatch(RunMoves(plan, h, moves), RunMoves(plan, h, moves + [Plain(Append(w, true))]), w)
    ensures AnsweredWithout(RunMoves(plan, h, moves), RunMoves(plan, h, moves + Aftermath(w)), w, version)
  {
    var lost, pc := moves + [Plain(Append(w, true))], PcOf(RunMoves(plan, h, moves).system, w);
    assert moves + Aftermath(w) == lost + [Plain(Resolve(w, false))] + [Plain(Authorize(w, true))];
    version := ThenAnswered(plan, h, lost, w, pc.request, pc.events);
  }

  lemma ThenAnswered(plan: Plan, h: string -> string, moves: seq<Move>, w: nat, r: Request, events: seq<Event>)
    returns (version: nat)
    requires IsDigest(h) && PcOf(RunMoves(plan, h, moves).system, w) == Resolving(r)
    requires r.id in RunMoves(plan, h, moves).system.claims
    requires var s := RunMoves(plan, h, moves).system; Won(s, r, events, s.claims[r.id].last)
    ensures var x := RunMoves(plan, h, moves);
      var y := RunMoves(plan, h, moves + [Plain(Resolve(w, false))] + [Plain(Authorize(w, true))]);
      && x.content.abandoned <= y.content.abandoned
      && y.system.answers == x.system.answers + [Success(r, events, version, true)]
  {
    PlainMoves(plan, h, moves, Resolve(w, false), Authorize(w, true));
    SystemIsRun(plan, h, moves);
    version := SecondLookupAnswers(plan, h, StepsOf(plan, h, moves), w, r, events);
  }

  lemma SecondLookupAnswers(plan: Plan, h: string -> string, steps: seq<Step>, w: nat, r: Request, events: seq<Event>)
    returns (version: nat)
    requires IsDigest(h) && PcOf(Run(plan, h, steps), w) == Resolving(r) && r.id in Run(plan, h, steps).claims
    requires Won(Run(plan, h, steps), r, events, Run(plan, h, steps).claims[r.id].last)
    ensures Apply(plan, h, Apply(plan, h, Run(plan, h, steps), Resolve(w, false)), Authorize(w, true)).answers
      == Run(plan, h, steps).answers + [Success(r, events, version, true)]
  {
    version := Run(plan, h, steps).claims[r.id].last;
    StoredClaimIsAnswered(plan, h, steps, w, r);
    RunSnoc(plan, h, steps, Resolve(w, false));
    RunSnoc(plan, h, steps + [Resolve(w, false)], Authorize(w, true));
  }

  // ---- a concrete run ----

  /** A service with one event that creates an item, and no view. */
  const ITEMS := Plan("items", map["created" := Reducer("item", "id", {}, None, Create("Active"))], map[])
  const CREATED := Event("created", Object(map["id" := Str("i")]), false)
  const REQUEST := Request(ClaimId("tenant", None, "item", Some("k"), "key"), "digest")

  /** Up to the append of a batch with one staged token. */
  const STAGED: seq<Move> := [
    Plain(Begin(0, REQUEST)), Plain(Lookup(0, false)), Take(Decide(0, "k", 0, [CREATED]), ["t"], 0)]

  lemma ItemStream()
    ensures var x := StreamFor(ITEMS, REQUEST.id, "k"); Ours(ITEMS, x) && DecodeStreamId(x.id).Some?
  {
    ItemDecodes();
  }

  lemma ItemDecodes()
    ensures DecodeStreamId(EncodeStreamId(None, "item", "k")) == Some((None, "item", "k"))
  {
    DecodeOfEncode(None, "item", "k");
  }

  lemma ItemReduces()
    ensures Reduce(ITEMS, map[], CREATED).Ok?
  {
  }

  lemma ItemProjects(h: string -> string, x: Stream)
    requires IsDigest(h) && DecodeStreamId(x.id).Some?
    ensures Project(ITEMS, h, EMPTY.db.tables, x, CREATED).Some?
  {
    ItemReduces();
  }

  lemma FirstBatchCommits(h: string -> string, x: Stream)
    requires IsDigest(h) && Project(ITEMS, h, EMPTY.db.tables, x, CREATED).Some?
    ensures Commit(ITEMS, h, EMPTY.db, x, 0, [CREATED]).Some?
  {
    var tables := EMPTY.db.tables;
    assert [CREATED][..0] == [];
    assert ProjectAll(ITEMS, h, tables, x, []) == Some(tables);
    assert ProjectAll(ITEMS, h, tables, x, [CREATED]) == Project(ITEMS, h, tables, x, CREATED);
    assert Log(EMPTY.db.streams, x) == [];
  }

  lemma FirstClaimCommits(h: string -> string, s: System)
    requires IsDigest(h) && s.db == EMPTY.db && s.claims == map[]
    ensures ClaimedAppend(ITEMS, h, s, Appending(REQUEST, "k", 0, [CREATED])).Some?
  {
    var x := StreamFor(ITEMS, REQUEST.id, "k");
    ItemStream();
    ItemProjects(h, x);
    FirstBatchCommits(h, x);
  }

  lemma BeginMove(plan: Plan, h: string -> string, x: World, w: nat, r: Request)
    requires IsDigest(h) && PcOf(x.system, w).Idle?
    ensures ApplyMove(plan, h, x, Plain(Begin(w, r))) == World(Goto(x.system, w, Looking(r)), x.content)
  {
  }

  lemma MissMove(plan: Plan, h: string -> string, x: World, w: nat, r: Request)
    requires IsDigest(h) && PcOf(x.system, w) == Looking(r) && r.id !in x.system.claims
    ensures ApplyMove(plan, h, x, Plain(Lookup(w, false))) == World(Goto(x.system, w, Deciding(r)), x.content)
  {
  }

  lemma DecideMove(plan: Plan, h: string -> string, x: World, w: nat, r: Request, key: string, event: Event, t: string)
    requires IsDigest(h) && PcOf(x.system, w) == Deciding(r) && t !in x.content.minted
    requires HostSized(r.id, key) && r.id.streamKey == Some(key) && Usable(event)
    ensures ApplyMove(plan, h, x, Take(Decide(w, key, 0, [event]), [t], 0))
      == World(Goto(x.system, w, Appending(r, key, 0, [event])),
               x.content.(staged := x.content.staged[w := [t]], minted := x.content.minted + {t}))
  {
    assert Elements([t]) == {t};
  }

  lemma StagedRun(h: string -> string)
    requires IsDigest(h)
    ensures RunMoves(ITEMS, h, STAGED).content == Content(map[0 := ["t"]], {"t"}, {}, {})
    ensures var s := RunMoves(ITEMS, h, STAGED).system;
      && s.db == EMPTY.db && s.claims == map[] && s.answers == []
      && PcOf(s, 0) == Appending(REQUEST, "k", 0, [CREATED])
  {
    assert STAGED[..0] == [] && STAGED[..3] == STAGED;
    RunMovesNext(ITEMS, h, STAGED, 0);
    BeginMove(ITEMS, h, START, 0, REQUEST);
    RunMovesNext(ITEMS, h, STAGED, 1);
    MissMove(ITEMS, h, RunMoves(ITEMS, h, STAGED[..1]), 0, REQUEST);
    RunMovesNext(ITEMS, h, STAGED, 2);
    DecideMove(ITEMS, h, RunMoves(ITEMS, h, STAGED[..2]), 0, REQUEST, "k", CREATED, "t");
  }

  /** Content of a committed batch is abandoned and the caller is told of success: a run of one contender. */
  lemma AbandonedYetAnswered(h: string -> string) returns (version: nat)
    requires IsDigest(h)
    ensures var y := RunMoves(ITEMS, h, STAGED + Aftermath(0));
      "t" in y.content.abandoned && y.system.answers == [Success(REQUEST, [CREATED], version, true)]
  {
    StagedRun(h);
    FirstClaimCommits(h, RunMoves(ITEMS, h, STAGED).system);
    version := LostCommitStillSucceeds(ITEMS, h, STAGED, 0);
    assert "t" in Elements(["t"]);
  }
}
