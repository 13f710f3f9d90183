/**
 `marie lint` and `marie run`, or `marie debug`, on the same file
 (crates/bin/marie/src/lint.rs:36-61, run.rs:75-170, debug.rs:118-147, 332-373): assembled,
 linted, loaded into a machine and run.
 */
module LintedRuns {
  import opened Words
  import opened Instructions
  import opened Devices
  import opened Machine
  import opened Running
  import opened Syntax
  import opened Assembler
  import opened Consistency
  import opened Cfg
  import opened Soundness
  import opened PlainSources
  import opened MarieVM

  /** It assembles to something, into an exact graph about which the five lints are silent. */
  predicate LooksClean(a: Assembly, f: Findings) {
    a.Succeeded() && a.program.items != [] && GraphOf(a).Exact() && Silent(f)
  }

  /** Reachable code is intact, the machine is at or inside an instruction fetched from it, and no opcode was invalid. */
  ghost predicate EndsSafely<D>(a: Assembly, s: State<D>, end: Ending)
    requires GraphOf(a).Ok()
  {
    Safe(GraphOf(a), s) && !(end.Faulted? && end.fault.InvalidOpcode?)
  }

  /** A program that does not assemble touches nothing. */
  method LintAndLoad<D>(d: Dialect, source: string, core: MarieVMCore<D>) returns (a: Assembly, f: Findings)
    requires core.Valid()
    modifies core, core.memory, core.history
    ensures core.Valid() && core.breakpoints == old(core.breakpoints) && a == Assemble(d, source)
    ensures !a.Succeeded() ==> core.View() == old(core.View())
    ensures a.Succeeded() ==>
      && GraphOf(a).Ok() && Reports(GraphOf(a), f) && Loaded(GraphOf(a), core.StateView())
      && core.history.entries == []
  {
    a := AssembleSource(d, source);
    f := Findings([], [], [], [], [], []);
    if !a.Succeeded() {
      return;
    }
    AssembledProgramsEncode(d, source);
    f := Lint(GraphOf(a));
    ghost var before := core.StateView();
    var fits := core.LoadProgram(a.origin, a.words);
    LoadingLoads(GraphOf(a), before, core.StateView());
  }

  /** A bounded run, whatever is in the machine, its breakpoints and the budget. */
  method LintAndRun<D(!new)>(d: Dialect, source: string, core: MarieVMCore<D>, budget: nat)
    returns (a: Assembly, f: Findings, end: Option<Ending>)
    requires core.Valid()
    modifies core, core.memory, core.history
    ensures core.Valid() && a == Assemble(d, source)
    ensures a.Succeeded() ==> GraphOf(a).Ok() && Reports(GraphOf(a), f) && end.Some?
    ensures !a.Succeeded() ==> end.None? && core.View() == old(core.View())
    ensures LooksClean(a, f) ==> EndsSafely(a, core.StateView(), end.value)
  {
    a, f := LintAndLoad(d, source, core);
    if !a.Succeeded() {
      return a, f, None;
    }
    if LooksClean(a, f) {
      LintedRunsAreSafe(d, source, f, core.dev, core.View(), core.breakpoints, budget);
    }
    var o := core.RunBounded(budget);
    end := Some(o);
  }

  /** `marie run`: without breakpoints, in slices, until the step budget is spent or Ctrl-C is seen. */
  method LintAndRunInSlices<D(!new)>(
    d: Dialect, source: string, core: MarieVMCore<D>, maxSteps: Option<nat>, polls: nat)
    returns (a: Assembly, f: Findings, end: Option<Ending>, executed: nat)
    requires core.Valid() && core.breakpoints == {}
    modifies core, core.memory, core.history
    ensures core.Valid() && a == Assemble(d, source) && executed <= Allowance(maxSteps, polls)
    ensures a.Succeeded() ==> GraphOf(a).Ok() && Reports(GraphOf(a), f) && end.Some?
    ensures !a.Succeeded() ==> end.None? && executed == 0 && core.View() == old(core.View())
    ensures LooksClean(a, f) ==> EndsSafely(a, core.StateView(), end.value)
  {
    a, f := LintAndLoad(d, source, core);
    if !a.Succeeded() {
      return a, f, None, 0;
    }
    if LooksClean(a, f) {
      LintedRunsAreSafe(d, source, f, core.dev, core.View(), {}, Allowance(maxSteps, polls));
    }
    var o, n := Uninterrupted(core, maxSteps, polls);
    end, executed := Some(o), n;
  }

  lemma {:induction false} RunKeepsLimit<D>(dev: Device<D>, vm: Vm<D>, bps: set<Address>, budget: nat, executed: nat)
    requires vm.Ok()
    ensures Run(dev, vm, bps, budget, executed).vm.limit == vm.limit
    decreases budget - executed
  {
    if executed < budget {
      var (vm', stop) := Step(dev, vm);
      if stop.None? {
        RunKeepsLimit(dev, vm', bps, budget, executed + 1);
      }
    }
  }

  lemma {:induction false} SlicesKeepLimit<D>(dev: Device<D>, vm: Vm<D>, bps: set<Address>, slice: nat, count: nat)
    requires vm.Ok()
    ensures Slices(dev, vm, bps, slice, count).vm.limit == vm.limit
    decreases count
  {
    if count > 0 {
      RunKeepsOk(dev, vm, bps, slice, 0);
      RunKeepsLimit(dev, vm, bps, slice, 0);
      SlicesKeepLimit(dev, Run(dev, vm, bps, slice, 0).vm, bps, slice, count - 1);
    }
  }

  /** A loaded machine gets its journal and its breakpoints, and continues. */
  method Continue<D>(core: MarieVMCore<D>, limit: nat, breakpoints: set<Address>, slice: nat, polls: nat)
    returns (end: Ending)
    requires core.Valid()
    modifies core, core.memory, core.history
    ensures core.Valid() && core.history.limit == limit
    ensures old(core.history.entries) == [] ==>
      RunOutcome(core.View(), end) == Slices(core.dev, old(core.View()).(limit := limit), breakpoints, slice, polls)
  {
    core.SetHistoryLimit(limit);
    core.breakpoints := breakpoints;
    SlicesKeepLimit(core.dev, core.View(), breakpoints, slice, polls);
    end := ResumeInSlices(core, slice, polls);
  }

  /** `marie debug`: a journal of some length, breakpoints, and `continue` until something stops it. */
  method LintAndDebug<D(!new)>(
    d: Dialect, source: string, core: MarieVMCore<D>, limit: nat, breakpoints: set<Address>, slice: nat, polls: nat)
    returns (a: Assembly, f: Findings, end: Option<Ending>)
    requires core.Valid()
    modifies core, core.memory, core.history
    ensures core.Valid() && a == Assemble(d, source)
    ensures a.Succeeded() ==> GraphOf(a).Ok() && Reports(GraphOf(a), f) && end.Some? && core.history.limit == limit
    ensures !a.Succeeded() ==> end.None? && core.View() == old(core.View())
    ensures LooksClean(a, f) ==> EndsSafely(a, core.StateView(), end.value)
  {
    a, f := LintAndLoad(d, source, core);
    if !a.Succeeded() {
      return a, f, None;
    }
    if LooksClean(a, f) {
      LintedSlicesAreSafe(d, source, f, core.dev, core.View().(limit := limit), breakpoints, slice, polls);
    }
    var o := Continue(core, limit, breakpoints, slice, polls);
    end := Some(o);
  }

  // ----- there is such a program -----

  const NO_FINDINGS := Findings([], [], [], [], [], [])

  lemma HaltIsClean(g: Graph)
    requires g == Graph([OpcodeKind(Halt)], [0x7000], 0)
    ensures g.Ok() && g.Exact() && Reports(g, NO_FINDINGS)
  {
    assert g.Edges(0) == [];
    forall i: nat | Reaches(g, i)
      ensures i == 0
    {
      ReachesInside(g, i);
    }
    ReachesStart(g);
  }

  /** `Halt` alone is a source the soundness theorem speaks about: its lints have nothing to report. */
  lemma HaltIsLinted(source: string)
    requires source == "Halt"
    ensures Linted(Assemble(MARIE, source), NO_FINDINGS)
  {
    HaltAssembles(source);
    HaltIsClean(Graph([OpcodeKind(Halt)], [0x7000], 0));
    var a := Assemble(MARIE, source);
    assert |GraphOf(a).kinds| == 1;
  }
}
