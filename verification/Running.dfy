/**
 Running by instructions: `step`, `run_bounded`, and runs cut into slices
 (crates/lib/mrs-vm/src/lib.rs:371-399, 635-649; crates/bin/marie/src/run.rs:138-170).
 */
module Running {
  import opened Words
  import opened Instructions
  import opened Microcode
  import opened Devices
  import opened Machine
  import opened Sessions
  import opened Refinement

  /** `Finish` with the journal: forward to the next boundary or the first stop. */
  function Step<D>(dev: Device<D>, vm: Vm<D>): (r: (Vm<D>, Option<Reason>))
    requires vm.Ok()
    ensures r.0.Ok() && r.0.limit == vm.limit
    decreases 10 - vm.state.control.microPc
  {
    ControlInvariant(vm.state.control);
    MicroStepKeepsControl(dev, vm.state);
    ForwardKeepsOk(dev, vm);
    var (vm', outcome) := Forward(dev, vm);
    match outcome
    case Stuck(reason) => (vm', Some(reason))
    case Ran(_) =>
      ControlInvariant(vm'.state.control);
      if vm'.state.control.microPc == 0 then (vm', None) else Step(dev, vm')
  }

  lemma {:induction false} StepFinishes<D>(dev: Device<D>, vm: Vm<D>)
    requires vm.Ok()
    ensures (Step(dev, vm).0.state, Step(dev, vm).1) == Finish(dev, vm.state)
    ensures Step(dev, vm).1.None? ==> Step(dev, vm).0.state.control.microPc == 0
    decreases 10 - vm.state.control.microPc
  {
    ControlInvariant(vm.state.control);
    MicroStepKeepsControl(dev, vm.state);
    ForwardKeepsOk(dev, vm);
    var (vm', outcome) := Forward(dev, vm);
    ControlInvariant(vm'.state.control);
    if outcome.Ran? && vm'.state.control.microPc != 0 {
      StepFinishes(dev, vm');
    }
  }

  /** What one micro-step more does to the counter and to the step. */
  lemma StepGoesOn<D>(dev: Device<D>, vm: Vm<D>)
    requires vm.Ok()
    ensures var (vm', outcome) := Forward(dev, vm);
      && vm'.Ok() && vm.state.control.microPc < 10
      && (if outcome.Ran? && vm'.state.control.microPc != 0
          then vm'.state.control.microPc == vm.state.control.microPc + 1 && Step(dev, vm) == Step(dev, vm')
          else Step(dev, vm).0 == vm')
  {
    ControlInvariant(vm.state.control);
    MicroStepKeepsControl(dev, vm.state);
    ForwardKeepsOk(dev, vm);
  }

  lemma {:induction false} StepIsReplay<D>(dev: Device<D>, vm: Vm<D>) returns (n: nat)
    requires vm.Ok()
    ensures 1 <= n <= 10 - vm.state.control.microPc && Step(dev, vm).0 == Replay(dev, vm, n)
    decreases 10 - vm.state.control.microPc
  {
    StepGoesOn(dev, vm);
    var (vm', outcome) := Forward(dev, vm);
    if outcome.Ran? && vm'.state.control.microPc != 0 {
      StepGoesOn(dev, vm');
      n := StepIsReplay(dev, vm');
    } else {
      n := 0;
    }
    n := n + 1;
  }

  /**
   One `step` finishes the instruction, is nothing but micro-steps, and takes at most ten
   of them: as many as are left of the longest cycle, decode transition included.
   */
  lemma StepIsBounded<D>(dev: Device<D>, vm: Vm<D>) returns (n: nat)
    requires vm.Ok()
    ensures (Step(dev, vm).0.state, Step(dev, vm).1) == Finish(dev, vm.state)
    ensures 1 <= n <= 10 - vm.state.control.microPc && Step(dev, vm).0 == Replay(dev, vm, n)
    ensures Step(dev, vm).1.None? ==> Step(dev, vm).0.state.control.microPc == 0
  {
    StepFinishes(dev, vm);
    n := StepIsReplay(dev, vm);
  }

  // ----- control safety under a meddling host -----

  /** At the start of a fresh instruction at `entry`, with nothing to undo. */
  function Restarted<D>(vm: Vm<D>, entry: Address): Vm<D> {
    Vm(vm.state.(registers := vm.state.registers.(pc := entry), control := Control(0, entry, None, false)),
       [], vm.limit)
  }

  /**
   What a host does to the state between micro-steps. Resetting, flashing and loading are an
   edit of registers and memory and a restart; breakpoints are no part of a micro-step.
   */
  datatype HostAction<D> =
    | Debug(action: Action)
    | EditRegisters(registers: Registers)
    | EditMemory(memory: Memory)
    | EditDevice(device: D)
    | Restart(entry: Address)

  function HostAct<D>(dev: Device<D>, vm: Vm<D>, a: HostAction<D>): (r: Vm<D>)
    requires vm.Ok()
    ensures r.Ok()
  {
    match a
    case Debug(action) => ActKeepsOk(dev, Session(vm, []), action); Act(dev, Session(vm, []), action).vm
    case EditRegisters(registers) => vm.(state := vm.state.(registers := registers))
    case EditMemory(memory) => vm.(state := vm.state.(memory := memory))
    case EditDevice(device) => vm.(state := vm.state.(device := device))
    case Restart(entry) => Restarted(vm, entry)
  }

  function HostPlay<D>(dev: Device<D>, vm: Vm<D>, actions: seq<HostAction<D>>): Vm<D>
    requires vm.Ok()
    decreases |actions|
  {
    if actions == [] then vm else HostPlay(dev, HostAct(dev, vm, actions[0]), actions[1..])
  }

  /**
   In every state a host can bring about, with registers, memory and device edited at will
   and the machine restarted in the middle of instructions: there is a next micro-operation, a comparison is due only
   while a `Skipcond` is decoded, every control state the journal can restore is just as
   good, and the instruction ends within ten micro-operations.
   */
  lemma {:induction false} ControlSafety<D>(dev: Device<D>, vm: Vm<D>, actions: seq<HostAction<D>>)
    requires vm.Ok()
    ensures var r := HostPlay(dev, vm, actions);
      && r.Ok()
      && r.state.control.CurrentOp().Some?
      && (r.state.control.CurrentOp() == Some(Compare) ==>
            r.state.control.decoded.Some? && r.state.control.decoded.value.Condition().Some?)
      && (forall i :: 0 <= i < |r.journal| ==> r.journal[i].control.CurrentOp().Some?)
      && (exists n :: 1 <= n <= 10 && Step(dev, r).0 == Replay(dev, r, n))
    decreases |actions|
  {
    if actions != [] {
      ControlSafety(dev, HostAct(dev, vm, actions[0]), actions[1..]);
    } else {
      ControlInvariant(vm.state.control);
      forall i | 0 <= i < |vm.journal|
        ensures vm.journal[i].control.CurrentOp().Some?
      {
        ControlInvariant(vm.journal[i].control);
      }
      var n := StepIsBounded(dev, vm);
    }
  }

  // ----- bounded runs -----

  datatype Ending = AtBreakpoint(address: Address) | WaitsForInput | StepLimit | Terminated | Faulted(fault: Reason)

  datatype RunOutcome<D> = RunOutcome(vm: Vm<D>, end: Ending)

  function EndingFor(reason: Reason): Ending {
    match reason
    case Halted => Terminated
    case AwaitingInput => WaitsForInput
    case _ => Faulted(reason)
  }

  /** `run_inner` with a budget, from its loop head: the first instruction is exempt from breakpoints. */
  function Run<D>(dev: Device<D>, vm: Vm<D>, breakpoints: set<Address>, budget: nat, executed: nat): RunOutcome<D>
    requires vm.Ok()
    decreases budget - executed
  {
    if executed >= budget then RunOutcome(vm, StepLimit)
    else if executed > 0 && vm.state.control.microPc == 0 && vm.state.registers.pc in breakpoints then
      RunOutcome(vm, AtBreakpoint(vm.state.registers.pc))
    else
      match Step(dev, vm)
      case (vm', None) => Run(dev, vm', breakpoints, budget, executed + 1)
      case (vm', Some(reason)) => RunOutcome(vm', EndingFor(reason))
  }

  lemma {:induction false} RunKeepsOk<D>(dev: Device<D>, vm: Vm<D>, bps: set<Address>, budget: nat, executed: nat)
    requires vm.Ok()
    ensures Run(dev, vm, bps, budget, executed).vm.Ok()
    ensures Run(dev, vm, bps, budget, executed).end.StepLimit? && budget > executed ==>
      Run(dev, vm, bps, budget, executed).vm.state.control.microPc == 0
    decreases budget - executed
  {
    if executed < budget {
      var n := StepIsBounded(dev, vm);
      var (vm', stop) := Step(dev, vm);
      if stop.None? {
        RunKeepsOk(dev, vm', bps, budget, executed + 1);
      }
    }
  }

  /** Past the first instruction only the remaining budget matters. */
  lemma {:induction false} RunShift<D>(dev: Device<D>, vm: Vm<D>, bps: set<Address>, budget: nat, executed: nat, k: nat)
    requires vm.Ok() && executed > 0
    ensures Run(dev, vm, bps, budget + k, executed + k) == Run(dev, vm, bps, budget, executed)
    decreases budget - executed
  {
    if executed < budget {
      var (vm', stop) := Step(dev, vm);
      if stop.None? {
        RunShift(dev, vm', bps, budget, executed + 1, k);
      }
    }
  }

  /** A longer run passes through the machine a shorter one stopped at. */
  lemma {:induction false} RunContinues<D>(dev: Device<D>, vm: Vm<D>, bps: set<Address>, a: nat, b: nat, executed: nat)
    requires vm.Ok() && executed <= a && Run(dev, vm, bps, a, executed).end.StepLimit?
    ensures Run(dev, vm, bps, a, executed).vm.Ok()
    ensures Run(dev, vm, bps, a + b, executed) == Run(dev, Run(dev, vm, bps, a, executed).vm, bps, a + b, a)
    decreases a - executed
  {
    if executed < a {
      var (vm', stop) := Step(dev, vm);
      RunContinues(dev, vm', bps, a, b, executed + 1);
    }
  }

  /** Off a breakpoint it makes no difference how many instructions have been counted already. */
  lemma CountedSoFar<D>(dev: Device<D>, m: Vm<D>, bps: set<Address>, a: nat, b: nat)
    requires m.Ok() && m.state.registers.pc !in bps
    ensures Run(dev, m, bps, a + b, a) == Run(dev, m, bps, b, 0)
  {
    if b > 0 {
      var (m', stop) := Step(dev, m);
      if stop.None? {
        RunShift(dev, m', bps, b, 1, a);
      }
    }
  }

  /** Splitting a run is invisible unless the split falls on a breakpoint. */
  lemma SplitRun<D>(dev: Device<D>, vm: Vm<D>, bps: set<Address>, a: nat, b: nat)
    requires vm.Ok() && Run(dev, vm, bps, a, 0).end.StepLimit?
    ensures Run(dev, vm, bps, a, 0).vm.Ok()
    ensures var m := Run(dev, vm, bps, a, 0).vm;
      (a == 0 || b == 0 || m.state.registers.pc !in bps) ==>
        Run(dev, m, bps, b, 0) == Run(dev, vm, bps, a + b, 0)
  {
    RunContinues(dev, vm, bps, a, b, 0);
    var m := Run(dev, vm, bps, a, 0).vm;
    if m.state.registers.pc !in bps {
      CountedSoFar(dev, m, bps, a, b);
    }
  }

  /** A run that would have paused where the split falls does not, when split there. */
  lemma SplitLosesBreakpoint<D>(dev: Device<D>, vm: Vm<D>, bps: set<Address>, a: nat)
    requires vm.Ok() && Run(dev, vm, bps, a, 0).end.StepLimit?
    requires a > 0 && Run(dev, vm, bps, a, 0).vm.state.registers.pc in bps
    ensures Run(dev, vm, bps, a, 0).vm.Ok()
    ensures Run(dev, vm, bps, a + 1, 0).end.AtBreakpoint?
    ensures !Run(dev, Run(dev, vm, bps, a, 0).vm, bps, 1, 0).end.AtBreakpoint?
  {
    RunContinues(dev, vm, bps, a, 1, 0);
    RunKeepsOk(dev, vm, bps, a, 0);
  }

  /** A cleared machine into which the single word `Jump 001` has been loaded at 0. */
  function JumpLoaded<D>(device: D): Vm<D> {
    Vm(State(Registers.Cleared, [0x9001] + seq(WORDS_IN_MEMORY - 1, _ => 0), Control(0, 0, None, false), device), [], 0)
  }

  lemma JumpStep<D>(dev: Device<D>, device: D)
    ensures JumpLoaded(device).Ok()
    ensures var (vm, stop) := Step(dev, JumpLoaded(device));
      stop == None && vm.state.control.microPc == 0 && vm.state.registers.pc == 1
  {
    var vm := JumpLoaded(device);
    var n := StepIsBounded(dev, vm);
    MicrocodeRefinesInstructions(dev, vm.state);
    assert Instruction.Decode(0x9001) == Some(Instruction(Jump, 1));
    assert ExecuteNext(dev, ArchOf(vm.state)).1 == None;
  }

  /** There is such a run, and it is a short one: `Jump 001` with a breakpoint on 1, split after the jump. */
  lemma JumpLosesBreakpoint<D>(dev: Device<D>, device: D)
    ensures JumpLoaded(device).Ok()
    ensures Run(dev, JumpLoaded(device), {1}, 1, 0).vm.Ok() && Run(dev, JumpLoaded(device), {1}, 1, 0).end == StepLimit
    ensures Run(dev, JumpLoaded(device), {1}, 2, 0).end.AtBreakpoint?
    ensures !Run(dev, Run(dev, JumpLoaded(device), {1}, 1, 0).vm, {1}, 1, 0).end.AtBreakpoint?
  {
    JumpStep(dev, device);
    var vm := JumpLoaded(device);
    var next := Step(dev, vm).0;
    assert Run(dev, vm, {1}, 1, 0) == Run(dev, next, {1}, 1, 1) == RunOutcome(next, StepLimit);
    SplitLosesBreakpoint(dev, vm, {1}, 1);
  }

  /**
   Exactly when a run may be split: two bounded runs in a row are one bounded run, whatever
   the second budget, if and only if the first one executed nothing or did not stop on a
   breakpoint.
   */
  lemma SplitIsInvisibleIff<D(!new)>(dev: Device<D>, vm: Vm<D>, bps: set<Address>, a: nat)
    requires vm.Ok() && Run(dev, vm, bps, a, 0).end.StepLimit?
    ensures Run(dev, vm, bps, a, 0).vm.Ok()
    ensures var m := Run(dev, vm, bps, a, 0).vm;
      (forall b: nat :: Run(dev, m, bps, b, 0) == Run(dev, vm, bps, a + b, 0))
      <==> (a == 0 || m.state.registers.pc !in bps)
  {
    RunContinues(dev, vm, bps, a, 0, 0);
    var m := Run(dev, vm, bps, a, 0).vm;
    if a == 0 || m.state.registers.pc !in bps {
      forall b: nat
        ensures Run(dev, m, bps, b, 0) == Run(dev, vm, bps, a + b, 0)
      {
        SplitRun(dev, vm, bps, a, b);
      }
    } else {
      SplitLosesBreakpoint(dev, vm, bps, a);
      assert Run(dev, m, bps, 1, 0) != Run(dev, vm, bps, a + 1, 0);
    }
  }

  /**
   `continue` in the debugger runs in slices. It is one run as long as no slice ends on a
   breakpoint; `SplitLosesBreakpoint` says what happens when one does.
   */
  function Slices<D>(dev: Device<D>, vm: Vm<D>, bps: set<Address>, slice: nat, count: nat): RunOutcome<D>
    requires vm.Ok()
    decreases count
  {
    if count == 0 then RunOutcome(vm, StepLimit)
    else
      RunKeepsOk(dev, vm, bps, slice, 0);
      var outcome := Run(dev, vm, bps, slice, 0);
      if outcome.end.StepLimit? then Slices(dev, outcome.vm, bps, slice, count - 1) else outcome
  }

  /** No slice but the last uses up its budget with `PC` on a breakpoint. */
  predicate SlicesEndOffBreakpoints<D>(dev: Device<D>, vm: Vm<D>, bps: set<Address>, slice: nat, count: nat)
    requires vm.Ok()
    decreases count
  {
    RunKeepsOk(dev, vm, bps, slice, 0);
    var outcome := Run(dev, vm, bps, slice, 0);
    count <= 1 || !outcome.end.StepLimit? ||
    (outcome.vm.state.registers.pc !in bps && SlicesEndOffBreakpoints(dev, outcome.vm, bps, slice, count - 1))
  }

  /** A run of `a + b` is a run of `a` followed, if that used up its budget, by one of `b`. */
  lemma RunInTwo<D>(dev: Device<D>, vm: Vm<D>, bps: set<Address>, a: nat, b: nat)
    requires vm.Ok()
    ensures Run(dev, vm, bps, a, 0).vm.Ok()
    ensures var first := Run(dev, vm, bps, a, 0);
      first.end.StepLimit? && (b == 0 || first.vm.state.registers.pc !in bps) ==>
        Run(dev, vm, bps, a + b, 0) == Run(dev, first.vm, bps, b, 0)
    ensures var first := Run(dev, vm, bps, a, 0);
      !first.end.StepLimit? ==> Run(dev, vm, bps, a + b, 0) == first
  {
    RunKeepsOk(dev, vm, bps, a, 0);
    if Run(dev, vm, bps, a, 0).end.StepLimit? {
      SplitRun(dev, vm, bps, a, b);
    } else {
      StoppingIgnoresBudget(dev, vm, bps, a, b, 0);
    }
  }

  /** `count` times `slice`, slice by slice. */
  function Total(slice: nat, count: nat): nat {
    if count == 0 then 0 else slice + Total(slice, count - 1)
  }

  lemma {:induction false} TotalIsProduct(slice: nat, count: nat)
    ensures Total(slice, count) == count * slice
  {
    if count > 0 {
      TotalIsProduct(slice, count - 1);
    }
  }

  /** The slices come to one run. */
  ghost predicate AddUp<D>(dev: Device<D>, vm: Vm<D>, bps: set<Address>, slice: nat, count: nat) {
    vm.Ok() && Slices(dev, vm, bps, slice, count) == Run(dev, vm, bps, Total(slice, count), 0)
  }

  /** The first slice and the rest of them. */
  lemma NextSlice<D>(dev: Device<D>, vm: Vm<D>, bps: set<Address>, slice: nat, count: nat)
    requires vm.Ok() && count > 0
    ensures var first := Run(dev, vm, bps, slice, 0);
      && first.vm.Ok()
      && Slices(dev, vm, bps, slice, count)
         == (if first.end.StepLimit? then Slices(dev, first.vm, bps, slice, count - 1) else first)
      && (SlicesEndOffBreakpoints(dev, vm, bps, slice, count) && first.end.StepLimit? ==>
            && SlicesEndOffBreakpoints(dev, first.vm, bps, slice, count - 1)
            && (count == 1 || first.vm.state.registers.pc !in bps))
  {
    RunKeepsOk(dev, vm, bps, slice, 0);
  }

  lemma MoreTotal(slice: nat, count: nat)
    requires count > 0
    ensures Total(slice, count) == slice + Total(slice, count - 1)
    ensures count == 1 ==> Total(slice, count - 1) == 0
  {
  }

  lemma FirstSlice<D>(dev: Device<D>, vm: Vm<D>, bps: set<Address>, slice: nat, count: nat)
    requires count > 0 && vm.Ok() && SlicesEndOffBreakpoints(dev, vm, bps, slice, count)
    requires Run(dev, vm, bps, slice, 0).end.StepLimit? ==> AddUp(dev, Run(dev, vm, bps, slice, 0).vm, bps, slice, count - 1)
    ensures AddUp(dev, vm, bps, slice, count)
  {
    NextSlice(dev, vm, bps, slice, count);
    MoreTotal(slice, count);
    RunInTwo(dev, vm, bps, slice, Total(slice, count - 1));
  }

  lemma NoSlices<D>(dev: Device<D>, vm: Vm<D>, bps: set<Address>, slice: nat)
    requires vm.Ok()
    ensures AddUp(dev, vm, bps, slice, 0)
  {
  }

  lemma RestEndsOff<D>(dev: Device<D>, vm: Vm<D>, bps: set<Address>, slice: nat, count: nat)
    requires vm.Ok() && count > 0 && SlicesEndOffBreakpoints(dev, vm, bps, slice, count)
    requires Run(dev, vm, bps, slice, 0).end.StepLimit?
    ensures var rest := Run(dev, vm, bps, slice, 0).vm;
      rest.Ok() && SlicesEndOffBreakpoints(dev, rest, bps, slice, count - 1)
  {
    RunKeepsOk(dev, vm, bps, slice, 0);
  }

  lemma {:induction false} SlicesAddUp<D>(dev: Device<D>, vm: Vm<D>, bps: set<Address>, slice: nat, count: nat)
    requires vm.Ok() && SlicesEndOffBreakpoints(dev, vm, bps, slice, count)
    ensures AddUp(dev, vm, bps, slice, count)
    decreases count
  {
    if count == 0 {
      NoSlices(dev, vm, bps, slice);
    } else {
      if Run(dev, vm, bps, slice, 0).end.StepLimit? {
        RestEndsOff(dev, vm, bps, slice, count);
        SlicesAddUp(dev, Run(dev, vm, bps, slice, 0).vm, bps, slice, count - 1);
      }
      FirstSlice(dev, vm, bps, slice, count);
    }
  }

  lemma SlicesAreOneRun<D>(dev: Device<D>, vm: Vm<D>, bps: set<Address>, slice: nat, count: nat)
    requires vm.Ok() && SlicesEndOffBreakpoints(dev, vm, bps, slice, count)
    ensures Slices(dev, vm, bps, slice, count) == Run(dev, vm, bps, count * slice, 0)
  {
    SlicesAddUp(dev, vm, bps, slice, count);
    TotalIsProduct(slice, count);
  }

  lemma {:induction false} StoppingIgnoresBudget<D>(dev: Device<D>, vm: Vm<D>, bps: set<Address>, a: nat, b: nat, executed: nat)
    requires vm.Ok() && !Run(dev, vm, bps, a, executed).end.StepLimit?
    ensures Run(dev, vm, bps, a + b, executed) == Run(dev, vm, bps, a, executed)
    decreases a - executed
  {
    if executed < a {
      var (vm', stop) := Step(dev, vm);
      if stop.None? && !(executed > 0 && vm.state.control.microPc == 0 && vm.state.registers.pc in bps) {
        StoppingIgnoresBudget(dev, vm', bps, a, b, executed + 1);
      }
    }
  }
}
