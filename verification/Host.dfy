/** Host-owned registration, sealing and draining of generated services, split at await points. */
module Host {
  import opened Text

  datatype Spec = Spec(name: string, indexed: seq<string>)
  datatype Projector = Projector(name: string, specs: seq<Spec>)
  type Roster = map<string, seq<Spec>>

  const MAX_SERVICES: nat := 64

  /** `Roster::new`: between one and 64 non-blank services whose projector names differ. */
  method NewRoster(services: seq<string>, declare: string -> Projector) returns (r: Option<Roster>)
    ensures r.Some? <==>
      && 1 <= |services| <= MAX_SERVICES && (forall i :: 0 <= i < |services| ==> !Blank(services[i]))
      && (forall i, j :: 0 <= i < j < |services| ==> declare(services[i]).name != declare(services[j]).name)
    ensures r.Some? ==>
      && (forall n :: n in r.value <==> exists i :: 0 <= i < |services| && declare(services[i]).name == n)
      && (forall i :: 0 <= i < |services| ==> Admits(r.value, declare(services[i])))
  {
    if services == [] || |services| > MAX_SERVICES {
      return None;
    }
    var roster: Roster := map[];
    for i := 0 to |services|
      invariant forall k :: 0 <= k < i ==> !Blank(services[k]) && Admits(roster, declare(services[k]))
      invariant forall j, k :: 0 <= j < k < i ==> declare(services[j]).name != declare(services[k]).name
      invariant forall n :: n in roster ==> exists k :: 0 <= k < i && declare(services[k]).name == n
    {
      if Blank(services[i]) {
        return None;
      }
      var p := declare(services[i]);
      if p.name in roster {
        return None;
      }
      roster := roster[p.name := p.specs];
    }
    r := Some(roster);
  }

  predicate Admits(roster: Roster, p: Projector) { p.name in roster && roster[p.name] == p.specs }

  /** The future that holds the registration lock across an await. */
  datatype Holder = Free | Creating(name: string) | Registering(name: string) | Sealing

  /** `sealed` remembers that some seal call has returned successfully. */
  datatype Status = Status(registered: set<string>, phase: nat, holder: Holder, sealed: bool)

  datatype Step =
    | EnterCreate(projector: Projector)
    | EnterRegister(projector: Projector)
    | EnterSeal
    | Resume(innerOk: bool)
    | Cancel
    | Drain

  const INITIAL := Status({}, 0, Free, false)

  /** The size-and-membership test of `seal`. */
  predicate Complete(roster: Roster, registered: set<string>) {
    |registered| == |roster| && forall n :: n in roster ==> n in registered
  }

  /** One atomic segment; entering waits, unchanged, while the lock is held. */
  function Apply(roster: Roster, s: Status, step: Step): Status {
    match step
    case EnterCreate(p) =>
      if !s.holder.Free? || s.phase != 0 || !Admits(roster, p) then s else s.(holder := Creating(p.name))
    case EnterRegister(p) =>
      if !s.holder.Free? || s.phase != 0 || !Admits(roster, p) then s else s.(holder := Registering(p.name))
    case EnterSeal =>
      if !s.holder.Free? || s.phase != 0 || !Complete(roster, s.registered) then s else s.(holder := Sealing)
    case Resume(innerOk) =>
      (match s.holder
       case Free => s
       case Creating(_) => s.(holder := Free)
       case Registering(name) =>
         s.(holder := Free, registered := if innerOk then s.registered + {name} else s.registered)
       case Sealing => s.(holder := Free, phase := 1, sealed := true))
    case Cancel => s.(holder := Free)
    case Drain => s.(phase := 2)
  }

  function Run(roster: Roster, steps: seq<Step>): Status {
    if steps == [] then INITIAL else Apply(roster, Run(roster, steps[..|steps| - 1]), steps[|steps| - 1])
  }

  /** The shared store object; each method is one segment between await points. */
  class ManagedStore {
    const roster: Roster
    var registered: set<string>
    var phase: nat
    var holder: Holder
    ghost var sealed: bool

    ghost function View(): Status
      reads this
    {
      Status(registered, phase, holder, sealed)
    }

    constructor (roster: Roster)
      ensures this.roster == roster && View() == INITIAL
    {
      this.roster := roster;
      registered, phase, holder, sealed := {}, 0, Free, false;
    }

    /** `create_projections` up to its inner call, with the lock free. */
    method BeginCreate(p: Projector) returns (ok: bool)
      requires holder == Free
      modifies this
      ensures View() == Apply(roster, old(View()), EnterCreate(p))
      ensures ok <==> holder == Creating(p.name)
    {
      ok := phase == 0 && Admits(roster, p);
      if ok {
        holder := Creating(p.name);
      }
    }

    /** `register_inline` up to its inner call, with the lock free. */
    method BeginRegister(p: Projector) returns (ok: bool)
      requires holder == Free
      modifies this
      ensures View() == Apply(roster, old(View()), EnterRegister(p))
      ensures ok <==> holder == Registering(p.name)
    {
      ok := phase == 0 && Admits(roster, p);
      if ok {
        holder := Registering(p.name);
      }
    }

    /** `seal` up to the adapter's own seal, with the lock free. */
    method BeginSeal() returns (ok: bool)
      requires holder == Free
      modifies this
      ensures View() == Apply(roster, old(View()), EnterSeal)
      ensures ok <==> holder == Sealing
    {
      if phase != 0 {
        return false;
      }
      ok := |registered| == |roster|;
      var todo := roster.Keys;
      while todo != {} && ok
        invariant todo <= roster.Keys
        invariant ok ==> forall n :: n in roster && n !in todo ==> n in registered
        invariant ok ==> |registered| == |roster|
        invariant !ok ==> !Complete(roster, registered)
        decreases todo, ok
      {
        var n :| n in todo;
        ok := n in registered;
        todo := todo - {n};
      }
      if ok {
        holder := Sealing;
      }
    }

    /** What the lock holder does when its await returns. */
    method Finish(innerOk: bool)
      requires holder != Free
      modifies this
      ensures View() == Apply(roster, old(View()), Resume(innerOk))
    {
      match holder
      case Creating(_) => holder := Free;
      case Registering(name) =>
        if innerOk {
          registered := registered + {name};
        }
        holder := Free;
      case Sealing =>
        phase, holder, sealed := 1, Free, true;
    }

    method BeginDrain()
      modifies this
      ensures View() == Apply(roster, old(View()), Drain)
    {
      phase := 2;
    }
  }

  lemma CompleteIsEqual(roster: Roster, registered: set<string>)
    ensures Complete(roster, registered) <==> registered == roster.Keys
  {
    assert |roster| == |roster.Keys|;
    if Complete(roster, registered) {
      assert roster.Keys <= registered;
      SubsetOfSameSize(roster.Keys, registered);
    }
  }

  ghost predicate Inv(roster: Roster, s: Status) {
    && s.registered <= roster.Keys
    && (s.holder.Registering? ==> s.holder.name in roster && !s.sealed)
    && (s.sealed ==> s.phase != 0)
    && (s.sealed || s.holder.Sealing? ==> s.registered == roster.Keys)
    && (s.phase == 1 ==> s.sealed)
  }

  lemma StepKeepsInv(roster: Roster, s: Status, step: Step)
    requires Inv(roster, s)
    ensures Inv(roster, Apply(roster, s, step))
    ensures s.sealed ==> Apply(roster, s, step).registered == s.registered && Apply(roster, s, step).sealed
  {
    CompleteIsEqual(roster, s.registered);
  }

  /** In every interleaving the registered set stays inside the roster. */
  lemma {:induction false} RunKeepsInv(roster: Roster, steps: seq<Step>)
    ensures Inv(roster, Run(roster, steps))
  {
    if steps != [] {
      var n := |steps| - 1;
      RunKeepsInv(roster, steps[..n]);
      StepKeepsInv(roster, Run(roster, steps[..n]), steps[n]);
    }
  }

  /** Step `n` is the successful return of this name's registration. */
  ghost predicate RegistersAt(roster: Roster, steps: seq<Step>, name: string, n: nat)
    requires n < |steps|
  {
    steps[n] == Resume(true) && Run(roster, steps[..n]).holder == Registering(name)
  }

  /** The registered names are exactly those whose registration has returned successfully. */
  lemma {:induction false} RegisteredIff(roster: Roster, steps: seq<Step>, name: string)
    ensures name in Run(roster, steps).registered <==>
      exists n :: 0 <= n < |steps| && RegistersAt(roster, steps, name, n)
  {
    if steps != [] {
      var m := |steps| - 1;
      var init := steps[..m];
      RegisteredIff(roster, init, name);
      if n :| 0 <= n < m && RegistersAt(roster, init, name, n) {
        assert init[..n] == steps[..n];
        assert RegistersAt(roster, steps, name, n);
      }
      if n :| 0 <= n < |steps| && RegistersAt(roster, steps, name, n) {
        if n < m {
          assert init[..n] == steps[..n];
          assert RegistersAt(roster, init, name, n);
        }
      }
      assert RegistersAt(roster, steps, name, m) <==>
        steps[m] == Resume(true) && Run(roster, init).holder == Registering(name);
    }
  }

  /** Once a seal has completed, the registered set equals the roster and never changes again. */
  lemma {:induction false} SealedIsFrozen(roster: Roster, steps: seq<Step>, n: nat)
    requires n <= |steps| && Run(roster, steps[..n]).sealed
    ensures Run(roster, steps).sealed && Run(roster, steps).registered == roster.Keys
    ensures Run(roster, steps[..n]).registered == roster.Keys
    decreases |steps| - n
  {
    RunKeepsInv(roster, steps[..n]);
    if n == |steps| {
      assert steps[..n] == steps;
    } else {
      assert steps[..n + 1][..n] == steps[..n];
      StepKeepsInv(roster, Run(roster, steps[..n]), steps[n]);
      SealedIsFrozen(roster, steps, n + 1);
    }
  }

  /** Storage operations run only in phase one, hence only after a complete seal. */
  lemma OperationsOnlyAfterSeal(roster: Roster, steps: seq<Step>)
    requires Run(roster, steps).phase == 1
    ensures Run(roster, steps).sealed && Run(roster, steps).registered == roster.Keys
  {
    RunKeepsInv(roster, steps);
  }

  /** A drain that starts while a seal is unfinished. */
  ghost predicate DrainOverlapsSeal(roster: Roster, steps: seq<Step>, i: nat)
    requires i < |steps|
  {
    steps[i].Drain? && Run(roster, steps[..i]).holder.Sealing?
  }

  /** Without such an overlap a sealing host is still in phase zero, and the phase never decreases. */
  lemma {:induction false} PhaseMonotone(roster: Roster, steps: seq<Step>)
    requires forall i :: 0 <= i < |steps| ==> !DrainOverlapsSeal(roster, steps, i)
    ensures Run(roster, steps).holder.Sealing? ==> Run(roster, steps).phase == 0
    ensures steps != [] ==> Run(roster, steps[..|steps| - 1]).phase <= Run(roster, steps).phase <= 2
  {
    if steps != [] {
      var n := |steps| - 1;
      var init := steps[..n];
      forall i | 0 <= i < n ensures !DrainOverlapsSeal(roster, init, i) {
        assert init[..i] == steps[..i];
        assert !DrainOverlapsSeal(roster, steps, i);
      }
      PhaseMonotone(roster, init);
      assert !DrainOverlapsSeal(roster, steps, n);
    }
  }

  lemma {:induction false} PhaseBound(roster: Roster, steps: seq<Step>)
    ensures Run(roster, steps).phase <= 2
  {
    if steps != [] { PhaseBound(roster, steps[..|steps| - 1]); }
  }

  /** At one step the phase drops exactly when an unfinished seal completes over a drain. */
  lemma StepDrops(roster: Roster, steps: seq<Step>, n: nat)
    requires n < |steps|
    ensures var s := Run(roster, steps[..n]);
      PhaseDropsAt(roster, steps, n) <==> steps[n].Resume? && s.holder.Sealing? && s.phase == 2
  {
    PhaseBound(roster, steps[..n]);
    RunKeepsInv(roster, steps[..n]);
    assert steps[..n + 1][..n] == steps[..n];
  }

  ghost predicate PhaseDropsAt(roster: Roster, steps: seq<Step>, n: nat)
    requires n < |steps|
  {
    Run(roster, steps[..n + 1]).phase < Run(roster, steps[..n]).phase
  }

  /** Between two steps the lock holder neither returns nor is cancelled. */
  predicate Undisturbed(steps: seq<Step>, i: nat, j: nat)
    requires i <= j <= |steps|
  {
    forall k :: i <= k < j ==> !steps[k].Resume? && !steps[k].Cancel?
  }

  /** A drain at step `i` overlaps a seal that is resumed at step `j`, with no cancel in between. */
  ghost predicate SealOutlivesDrain(roster: Roster, steps: seq<Step>, i: nat, j: nat)
    requires i < j < |steps|
  {
    DrainOverlapsSeal(roster, steps, i) && Undisturbed(steps, i + 1, j) && steps[j].Resume?
  }

  /** A seal held in phase two was overlapped by a drain and not disturbed since. */
  lemma {:induction false} DrainBehindSeal(roster: Roster, steps: seq<Step>, n: nat) returns (i: nat)
    requires n <= |steps| && Run(roster, steps[..n]).holder.Sealing? && Run(roster, steps[..n]).phase == 2
    ensures i < n && DrainOverlapsSeal(roster, steps, i) && Undisturbed(steps, i + 1, n)
  {
    assert steps[..n][..n - 1] == steps[..n - 1];
    if steps[n - 1].Drain? {
      i := n - 1;
    } else {
      i := DrainBehindSeal(roster, steps, n - 1);
    }
  }

  /** An overlapped seal that is not disturbed stays held in phase two. */
  lemma {:induction false} SealStaysHeld(roster: Roster, steps: seq<Step>, i: nat, n: nat)
    requires i < n <= |steps| && DrainOverlapsSeal(roster, steps, i) && Undisturbed(steps, i + 1, n)
    ensures Run(roster, steps[..n]).holder.Sealing? && Run(roster, steps[..n]).phase == 2
  {
    assert steps[..n][..n - 1] == steps[..n - 1];
    if i < n - 1 { SealStaysHeld(roster, steps, i, n - 1); }
  }

  /** Over a run, the phase decreases somewhere exactly when a drain overlaps a seal that later resumes. */
  lemma PhaseDropsExactly(roster: Roster, steps: seq<Step>)
    ensures (exists n :: 0 <= n < |steps| && PhaseDropsAt(roster, steps, n)) <==>
      exists i, j :: 0 <= i < j < |steps| && SealOutlivesDrain(roster, steps, i, j)
  {
    if n :| 0 <= n < |steps| && PhaseDropsAt(roster, steps, n) {
      StepDrops(roster, steps, n);
      var i := DrainBehindSeal(roster, steps, n);
      assert SealOutlivesDrain(roster, steps, i, n);
    }
    if i, j :| 0 <= i < j < |steps| && SealOutlivesDrain(roster, steps, i, j) {
      SealStaysHeld(roster, steps, i, j);
      StepDrops(roster, steps, j);
    }
  }

  lemma RunNext(roster: Roster, steps: seq<Step>, step: Step)
    ensures Run(roster, steps + [step]) == Apply(roster, Run(roster, steps), step)
  {
    assert (steps + [step])[..|steps|] == steps;
  }

  /** Such a run exists for a host of one service: the drain's phase two becomes one again. */
  lemma OverlapRevertsDrain(p: Projector)
    ensures var roster, sealing := map[p.name := p.specs], [] + [EnterRegister(p)] + [Resume(true)] + [EnterSeal];
      && Run(roster, sealing).holder.Sealing?
      && Run(roster, sealing + [Drain]).phase == 2
      && Run(roster, sealing + [Drain] + [Resume(true)]).phase == 1
  {
    var roster: Roster := map[p.name := p.specs];
    var none: seq<Step> := [];
    RunNext(roster, none, EnterRegister(p));
    RunNext(roster, none + [EnterRegister(p)], Resume(true));
    RunNext(roster, none + [EnterRegister(p)] + [Resume(true)], EnterSeal);
    var sealing := none + [EnterRegister(p)] + [Resume(true)] + [EnterSeal];
    CompleteIsEqual(roster, {p.name});
    assert Run(roster, none + [EnterRegister(p)] + [Resume(true)]) == Status({p.name}, 0, Free, false);
    RunNext(roster, sealing, Drain);
    RunNext(roster, sealing + [Drain], Resume(true));
  }
}
