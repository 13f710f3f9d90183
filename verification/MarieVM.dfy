/**
 The virtual machine itself, updated in place (crates/lib/mrs-vm/src/lib.rs). Each method
 is proved to take the machine where the functions of `Machine` and `Running` say, so the
 theorems about those are theorems about this class.
 */
module MarieVM {
  import opened Words
  import opened Instructions
  import opened Microcode
  import opened Devices
  import opened Machine
  import opened Sessions
  import opened Running
  import opened Refinement

  datatype Result<+T, +E> = Ok(value: T) | Err(error: E)

  /** The undo journal: bounded, most recent last. */
  class History {
    var entries: seq<Entry>
    var limit: nat

    constructor ()
      ensures entries == [] && limit == 0
    {
      entries, limit := [], 0;
    }

    method Record(e: Entry)
      requires |entries| <= limit
      modifies this
      ensures limit == old(limit) && entries == Recorded(old(entries), limit, e)
    {
      if limit == 0 {
        return;
      }
      if |entries| == limit {
        entries := entries[1..];
      }
      entries := entries + [e];
    }

    method Pop() returns (e: Option<Entry>)
      modifies this
      ensures limit == old(limit)
      ensures old(entries) == [] ==> e == None && entries == []
      ensures old(entries) != [] ==> e.Some? && old(entries) == entries + [e.value]
    {
      if entries == [] {
        return None;
      }
      e := Some(entries[|entries| - 1]);
      entries := entries[..|entries| - 1];
    }

    method SetLimit(n: nat)
      modifies this
      ensures limit == n && entries == Shrunk(old(entries), n)
    {
      limit := n;
      while |entries| > n
        invariant limit == n
        invariant |entries| <= |old(entries)| && entries == old(entries)[|old(entries)| - |entries|..]
        invariant |entries| >= n || entries == old(entries)
        decreases |entries|
      {
        entries := entries[1..];
      }
    }

    method Clear()
      modifies this
      ensures entries == [] && limit == old(limit)
    {
      entries := [];
    }
  }

  class MarieVMCore<D> {
    const dev: Device<D>
    const memory: array<Word>
    const history: History
    var registers: Registers
    var ioDevice: D
    var breakpoints: set<Address>
    var microPc: nat
    var decoded: Option<Instruction>
    var instructionAddress: Address
    var comparison: bool

    /** The machine as a value. */
    ghost function StateView(): State<D>
      reads this, memory
      requires memory.Length == WORDS_IN_MEMORY
    {
      State(registers, memory[..], Control(microPc, instructionAddress, decoded, comparison), ioDevice)
    }

    ghost function View(): Vm<D>
      reads this, memory, history
      requires memory.Length == WORDS_IN_MEMORY
    {
      Vm(StateView(), history.entries, history.limit)
    }

    ghost predicate Valid()
      reads this, memory, history
    {
      memory.Length == WORDS_IN_MEMORY && View().Ok()
    }

    /** A cleared machine with a silent journal. */
    constructor (dev: Device<D>, device: D)
      ensures Valid() && fresh(memory) && fresh(history)
      ensures this.dev == dev && breakpoints == {}
      ensures View() == Vm(State(Registers.Cleared, seq(WORDS_IN_MEMORY, _ => 0),
                                 Control(0, 0, None, false), device), [], 0)
    {
      this.dev := dev;
      memory := new Word[WORDS_IN_MEMORY](_ => 0);
      history := new History();
      registers := Registers.Cleared;
      ioDevice := device;
      breakpoints := {};
      microPc, decoded, instructionAddress, comparison := 0, None, 0, false;
      new;
      assert memory[..] == seq(WORDS_IN_MEMORY, _ => 0);
    }

    /** `PC` at `entry`, cleared latches and an empty journal; the other registers, memory and breakpoints stay. */
    method RewindTo(entry: Address)
      requires Valid()
      modifies this, history
      ensures Valid() && breakpoints == old(breakpoints) && View() == Restarted(old(View()), entry)
    {
      registers := registers.(pc := entry);
      microPc, decoded, instructionAddress, comparison := 0, None, entry, false;
      history.Clear();
    }

    /** Copies a program into memory and points the machine at it; a program that does not fit changes nothing. */
    method LoadProgram(origin: Address, program: seq<Word>) returns (fits: bool)
      requires Valid()
      modifies this, memory, history
      ensures Valid() && fits == (origin + |program| <= WORDS_IN_MEMORY)
      ensures !fits ==> View() == old(View())
      ensures fits ==> StateView() == old(StateView()).(
        memory := old(memory[..origin]) + program + old(memory[origin + |program|..]),
        registers := old(registers).(pc := origin), control := Control(0, origin, None, false))
      ensures fits ==> history.entries == [] && history.limit == old(history.limit)
      ensures breakpoints == old(breakpoints)
    {
      fits := origin + |program| <= WORDS_IN_MEMORY;
      if !fits {
        return;
      }
      for i := 0 to |program|
        invariant forall x :: 0 <= x < memory.Length ==>
          memory[x] == if origin <= x < origin + i then program[x - origin] else old(memory[x])
        invariant View().(state := StateView().(memory := old(memory[..]))) == old(View())
        invariant breakpoints == old(breakpoints)
      {
        memory[origin + i] := program[i];
      }
      assert memory[..] == old(memory[..origin]) + program + old(memory[origin + |program|..]);
      RewindTo(origin);
    }

    /** Registers and memory cleared and the machine at address zero; device, breakpoints and journal limit stay. */
    method Reset()
      requires Valid()
      modifies this, memory, history
      ensures Valid() && breakpoints == old(breakpoints)
      ensures View() == Restarted(
        old(View()).(state := old(StateView()).(registers := Registers.Cleared, memory := seq(WORDS_IN_MEMORY, _ => 0))), 0)
    {
      registers := Registers.Cleared;
      forall x | 0 <= x < memory.Length {
        memory[x] := 0;
      }
      assert memory[..] == seq(WORDS_IN_MEMORY, _ => 0);
      RewindTo(0);
    }

    method Snapshot() returns (c: Control)
      requires Valid()
      ensures c == StateView().control
    {
      c := Control(microPc, instructionAddress, decoded, comparison);
    }

    method Restore(c: Control)
      requires memory.Length == WORDS_IN_MEMORY
      modifies this`microPc, this`instructionAddress, this`decoded, this`comparison
      ensures StateView() == old(StateView()).(control := c)
    {
      microPc, instructionAddress := c.microPc, c.instructionAddress;
      decoded, comparison := c.decoded, c.comparison;
    }

    /** In place what `Machine.WriteRegister` does on values; the effect holds the old contents. */
    method WriteRegister(register: Register, bits: Word) returns (effect: Effect)
      requires memory.Length == WORDS_IN_MEMORY
      modifies this`registers
      ensures Done(StateView(), effect) == Machine.WriteRegister(old(StateView()), register, bits)
    {
      effect := RegisterWritten(register, registers.Read(register));
      registers := registers.Write(register, bits);
    }

    /** `Notify`, on the device in the machine. */
    method NotifyDisplay(address: Address, previous: Word, current: Word)
      modifies this`ioDevice
      ensures ioDevice == Notify(dev, old(ioDevice), address, previous, current)
    {
      if previous == current {
        return;
      }
      var index := PixelIndex(address);
      if index.Some? {
        ioDevice := dev.display(ioDevice, index.value, current);
      }
    }

    /** `Perform` in place: the new state with its effect, or the reason with only the device changed. */
    method ExecuteMicroOp(op: MicroOp) returns (r: Result<Effect, Reason>)
      requires memory.Length == WORDS_IN_MEMORY
      requires StateView().control.Ok() && StateView().control.CurrentOp() == Some(op)
      modifies this, memory
      ensures breakpoints == old(breakpoints)
      ensures match Perform(dev, old(StateView()), op)
        case Done(s, effect) => r == Ok(effect) && StateView() == s
        case Refused(device, reason) => r == Err(reason) && StateView() == old(StateView()).(device := device)
    {
      ghost var s := StateView();
      var effect := NoEffect;
      match op {
        case Transfer(target, source) => effect := WriteRegister(target, registers.Read(source));
        case ReadMemory => effect := WriteRegister(Mbr, memory[registers.mar]);
        case WriteMemory =>
          var address := registers.mar;
          var previous := memory[address];
          memory[address] := registers.mbr;
          NotifyDisplay(address, previous, registers.mbr);
          effect := MemoryWritten(address, previous);
          assert memory[..] == s.memory[address := registers.mbr];
        case IncrementPc => effect := WriteRegister(Pc, Next(registers.pc));
        case DecodeIr =>
          var i := Instruction.Decode(registers.ir);
          if i.None? {
            return Err(InvalidOpcode(instructionAddress, registers.ir));
          }
          decoded := i;
        case AddMbr => effect := WriteRegister(Ac, Plus(registers.ac, registers.mbr));
        case SubtractMbr => effect := WriteRegister(Ac, Minus(registers.ac, registers.mbr));
        case LoadImmediate => effect := WriteRegister(Ac, Masked(registers.ir));
        case Compare =>
          ControlInvariant(s.control);
          comparison := decoded.value.Condition().value.Holds(registers.ac);
        case SkipIfComparison =>
          if comparison {
            effect := WriteRegister(Pc, Next(registers.pc));
          }
        case ReadInput =>
          var (device, answer) := dev.poll(ioDevice);
          ioDevice := device;
          match answer {
            case Pending => return Err(AwaitingInput);
            case Failed(error) => return Err(IoFault(instructionAddress, Input, error));
            case Ready(value) =>
              effect := InputRead(registers.input, value);
              registers := registers.Write(In, value);
          }
        case WriteOutput =>
          var (device, error) := dev.output(ioDevice, registers.output);
          ioDevice := device;
          if error.Some? {
            return Err(IoFault(instructionAddress, Output, error.value));
          }
          effect := OutputWritten(registers.output);
        case Stop => return Err(Halted);
      }
      return Ok(effect);
    }

    /** The counter, and nothing else, goes where `Advanced` says. */
    method AdvanceMicroPc()
      requires memory.Length == WORDS_IN_MEMORY
      modifies this`microPc
      ensures StateView() == old(StateView()).(control := Advanced(old(StateView().control)))
    {
      var length := if decoded.Some? then CycleLength(decoded.value.opcode) else |FETCH_DECODE|;
      microPc := if microPc + 1 >= length then 0 else microPc + 1;
    }

    /** `Forward` in place: machine, journal and outcome. Its branch for a missing operation is proved dead. */
    method MicroStep() returns (outcome: Outcome)
      requires Valid()
      modifies this, memory, history
      ensures Valid() && breakpoints == old(breakpoints)
      ensures (View(), outcome) == Forward(dev, old(View()))
    {
      ghost var before := View();
      ForwardKeepsOk(dev, before);
      ControlInvariant(before.state.control);
      var control := Snapshot();
      if microPc == 0 {
        instructionAddress := registers.pc;
      }
      assert StateView() == Latched(before.state);
      var next := CurrentMicroOp();
      if next.None? {
        assert false;
      }
      var op := next.value;
      var r := ExecuteMicroOp(op);
      match r {
        case Ok(effect) =>
          history.Record(Entry(control, op, effect));
          AdvanceMicroPc();
          outcome := Ran(op);
        case Err(stop) =>
          Restore(control);
          outcome := Stuck(stop);
      }
    }

    /** `Control.CurrentOp` of the latches as they are. */
    method CurrentMicroOp() returns (op: Option<MicroOp>)
      requires memory.Length == WORDS_IN_MEMORY
      ensures op == StateView().control.CurrentOp()
    {
      if microPc < |FETCH_DECODE| {
        return Some(FETCH_DECODE[microPc]);
      }
      if decoded.None? {
        return None;
      }
      var ops := Execute(decoded.value.opcode);
      var index := microPc - |FETCH_DECODE|;
      op := if index < |ops| then Some(ops[index]) else None;
    }

    /** `Undo` in place: the state as it was before the entry, or the refusal with only the device changed. */
    method Reverse(entry: Entry) returns (refusal: Option<StepBackError>)
      requires memory.Length == WORDS_IN_MEMORY
      modifies this, memory
      ensures breakpoints == old(breakpoints)
      ensures match Undo(dev, old(StateView()), entry)
        case Undone(s) => refusal == None && StateView() == s
        case CannotUndo(device, error) => refusal == Some(error) && StateView() == old(StateView()).(device := device)
    {
      ghost var s := StateView();
      match entry.effect {
        case NoEffect =>
        case RegisterWritten(register, previous) =>
          registers := registers.Write(register, previous);
        case MemoryWritten(address, previous) =>
          var current := memory[address];
          memory[address] := previous;
          NotifyDisplay(address, current, previous);
          assert memory[..] == s.memory[address := previous];
        case InputRead(previous, value) =>
          var (device, accepted) := dev.unread(ioDevice, value);
          ioDevice := device;
          if !accepted {
            return Some(IrreversibleInput);
          }
          registers := registers.Write(In, previous);
        case OutputWritten(value) =>
          var (device, accepted) := dev.unwrite(ioDevice, value);
          ioDevice := device;
          if !accepted {
            return Some(IrreversibleOutput);
          }
      }
      Restore(entry.control);
      refusal := None;
    }

    /** `Backward` in place; after a refusal the entry is still the last of the journal. */
    method MicroStepBack() returns (result: Reversal)
      requires Valid()
      modifies this, memory, history
      ensures Valid() && breakpoints == old(breakpoints)
      ensures (View(), result) == Backward(dev, old(View()))
    {
      ghost var before := View();
      BackwardKeepsOk(dev, before);
      if history.entries == [] {
        return NotReversed(NoHistory);
      }
      var entry := history.entries[|history.entries| - 1];
      var refusal := Reverse(entry);
      if refusal.Some? {
        return NotReversed(refusal.value);
      }
      var popped := history.Pop();
      assert history.entries == before.journal[..|before.journal| - 1];
      result := Reversed(entry.op);
    }

    /** The machine and the answer of `Step`; the loop ends because the counter only goes up to ten. */
    method StepInstruction() returns (stop: Option<Reason>)
      requires Valid()
      modifies this, memory, history
      ensures Valid() && breakpoints == old(breakpoints)
      ensures (View(), stop) == Step(dev, old(View()))
    {
      ghost var before := View();
      ControlInvariant(StateView().control);
      while true
        invariant Valid() && microPc < 10 && breakpoints == old(breakpoints)
        invariant Step(dev, View()) == Step(dev, before)
        decreases 10 - microPc
      {
        ghost var vm := View();
        MicroStepKeepsControl(dev, vm.state);
        var outcome := MicroStep();
        ControlInvariant(StateView().control);
        match outcome {
          case Ran(_) =>
            if microPc == 0 {
              return None;
            }
          case Stuck(reason) => return Some(reason);
        }
      }
    }

    /** Runs at most `budget` instructions. */
    method RunBounded(budget: nat) returns (end: Ending)
      requires Valid()
      modifies this, memory, history
      ensures Valid() && breakpoints == old(breakpoints)
      ensures RunOutcome(View(), end) == Run(dev, old(View()), breakpoints, budget, 0)
    {
      ghost var before := View();
      var executed := 0;
      while true
        invariant Valid() && executed <= budget && breakpoints == old(breakpoints)
        invariant Run(dev, View(), breakpoints, budget, executed) == Run(dev, before, breakpoints, budget, 0)
        decreases budget - executed
      {
        if executed >= budget {
          return StepLimit;
        }
        if executed > 0 && microPc == 0 && registers.pc in breakpoints {
          return AtBreakpoint(registers.pc);
        }
        var stop := StepInstruction();
        match stop {
          case None => executed := executed + 1;
          case Some(reason) => return EndingFor(reason);
        }
      }
    }

    /** The machine and the answer of `StepBack`; the loop ends because the journal gets shorter. */
    method StepBackInstruction() returns (result: StepBackResult)
      requires Valid()
      modifies this, memory, history
      ensures Valid() && breakpoints == old(breakpoints)
      ensures (View(), result) == StepBack(dev, old(View()), 0)
    {
      ghost var before := View();
      var undone := 0;
      while true
        invariant Valid() && breakpoints == old(breakpoints)
        invariant StepBack(dev, View(), undone) == StepBack(dev, before, 0)
        decreases |history.entries|
      {
        var reversal := MicroStepBack();
        if reversal.NotReversed? {
          return Interrupted(reversal.error);
        }
        undone := undone + 1;
        if microPc == 0 {
          return Rewound(undone);
        }
      }
    }

    /** Only the limit changes, and the entries that no longer fit. */
    method SetHistoryLimit(limit: nat)
      requires Valid()
      modifies history
      ensures Valid()
      ensures View() == Act(dev, Session(old(View()), []), Action.SetLimit(limit)).vm
    {
      history.SetLimit(limit);
    }
  }

  const SLICE: nat := 1_000_000

  function Least(a: nat, b: nat): nat {
    if a <= b then a else b
  }

  /** How many instructions `polls` slices and the step budget allow. */
  function Allowance(maxSteps: Option<nat>, polls: nat): nat {
    if maxSteps.Some? then Least(maxSteps.value, polls * SLICE) else polls * SLICE
  }

  /** One more slice: the run so far, extended, or the outcome of the whole run. */
  lemma ExtendRun<D>(dev: Device<D>, vm: Vm<D>, m: Vm<D>, whole: nat, executed: nat, slice: nat)
    requires vm.Ok() && m.Ok() && executed + slice <= whole
    requires Run(dev, vm, {}, executed, 0) == RunOutcome(m, StepLimit)
    ensures var o := Run(dev, m, {}, slice, 0);
      Run(dev, vm, {}, if o.end.StepLimit? then executed + slice else whole, 0) == o
  {
    RunInTwo(dev, vm, {}, executed, slice);
    var n := executed + slice;
    if !Run(dev, m, {}, slice, 0).end.StepLimit? {
      StoppingIgnoresBudget(dev, vm, {}, n, whole - n, 0);
    }
  }

  /**
   `marie run`: a machine without breakpoints, run in slices so that Ctrl-C, seen at the
   poll after `polls` slices, is noticed. What comes out is one single run of as many
   instructions as both the step budget and those slices allow.
   */
  method Uninterrupted<D>(core: MarieVMCore<D>, maxSteps: Option<nat>, polls: nat)
    returns (end: Ending, executed: nat)
    requires core.Valid() && core.breakpoints == {}
    modifies core, core.memory, core.history
    ensures core.Valid()
    ensures var whole := Allowance(maxSteps, polls);
      && RunOutcome(core.View(), end) == Run(core.dev, old(core.View()), {}, whole, 0)
      && executed <= whole
      && (end.StepLimit? ==> executed == whole)
  {
    ghost var before, whole := core.View(), Allowance(maxSteps, polls);
    executed := 0;
    var left := polls;
    while true
      invariant core.Valid() && core.breakpoints == {} && 0 <= left <= polls
      invariant executed == Allowance(maxSteps, polls - left) <= whole
      invariant Run(core.dev, before, {}, executed, 0) == RunOutcome(core.View(), StepLimit)
      decreases left
    {
      if left == 0 {
        return StepLimit, executed;
      }
      var slice := if maxSteps.Some? then Least(SLICE, maxSteps.value - executed) else SLICE;
      if slice == 0 {
        return StepLimit, executed;
      }
      assert (polls - left + 1) * SLICE == (polls - left) * SLICE + SLICE <= polls * SLICE;
      ExtendRun(core.dev, before, core.View(), whole, executed, slice);
      var o := core.RunBounded(slice);
      if !o.StepLimit? {
        return o, executed;
      }
      executed := executed + slice;
      left := left - 1;
    }
  }

  /**
   `continue` in the debugger: slices until something other than the budget stops the
   machine, or Ctrl-C is seen at the poll after `polls` of them. The debugger's slice is
   200,000 instructions; this holds for any. The breakpoints are armed in every slice;
   `SlicesAreOneRun` says when this is the single run it is meant to be.
   */
  method ResumeInSlices<D>(core: MarieVMCore<D>, slice: nat, polls: nat) returns (end: Ending)
    requires core.Valid()
    modifies core, core.memory, core.history
    ensures core.Valid() && core.breakpoints == old(core.breakpoints)
    ensures RunOutcome(core.View(), end)
         == Slices(core.dev, old(core.View()), old(core.breakpoints), slice, polls)
  {
    ghost var before := core.View();
    var left := polls;
    while left > 0
      invariant core.Valid() && core.breakpoints == old(core.breakpoints) && 0 <= left <= polls
      invariant Slices(core.dev, core.View(), core.breakpoints, slice, left)
             == Slices(core.dev, before, core.breakpoints, slice, polls)
    {
      NextSlice(core.dev, core.View(), core.breakpoints, slice, left);
      end := core.RunBounded(slice);
      if !end.StepLimit? {
        return;
      }
      left := left - 1;
    }
    end := StepLimit;
  }
}
