/**
 What one micro-operation does, forwards and backwards, as functions of the machine
 (crates/lib/mrs-vm/src/lib.rs:635-832 and crates/lib/mrs-vm/src/history.rs).
 */
module Machine {
  import opened Words
  import opened Instructions
  import opened Microcode
  import opened Devices

  datatype State<D> = State(registers: Registers, memory: Memory, control: Control, device: D)

  datatype Effect =
    | NoEffect
    | RegisterWritten(register: Register, previous: Word)
    | MemoryWritten(address: Address, previous: Word)
    | InputRead(previous: Word, value: Word)
    | OutputWritten(value: Word)

  /** A journal entry: enough to undo one micro-operation, control latches included. */
  datatype Entry = Entry(control: Control, op: MicroOp, effect: Effect)

  datatype Reason =
    | Halted
    | AwaitingInput
    | InvalidOpcode(address: Address, word: Word)
    | IoFault(address: Address, opcode: Opcode, error: IoError)

  datatype Performed<D> = Done(state: State<D>, effect: Effect) | Refused(device: D, reason: Reason)

  datatype Micro<D> = Executed(state: State<D>, entry: Entry) | Stopped(state: State<D>, reason: Reason)

  // ----- forwards -----

  /** The device after a memory write: its hook is called for display addresses given a new value, and only for those. */
  function Notify<D>(dev: Device<D>, device: D, address: Address, previous: Word, current: Word): D {
    if previous == current || PixelIndex(address).None? then device
    else dev.display(device, PixelIndex(address).value, current)
  }

  function WriteRegister<D>(s: State<D>, register: Register, bits: Word): Performed<D> {
    Done(s.(registers := s.registers.Write(register, bits)), RegisterWritten(register, s.registers.Read(register)))
  }

  function Perform<D>(dev: Device<D>, s: State<D>, op: MicroOp): Performed<D>
    requires s.control.Ok() && s.control.CurrentOp() == Some(op)
  {
    var r := s.registers;
    match op
    case Transfer(target, source) => WriteRegister(s, target, r.Read(source))
    case ReadMemory => WriteRegister(s, Mbr, s.memory[r.mar])
    case WriteMemory =>
      var previous := s.memory[r.mar];
      Done(s.(memory := s.memory[r.mar := r.mbr], device := Notify(dev, s.device, r.mar, previous, r.mbr)),
           MemoryWritten(r.mar, previous))
    case IncrementPc => WriteRegister(s, Pc, Next(r.pc))
    case DecodeIr =>
      var i := Instruction.Decode(r.ir);
      if i.None? then Refused(s.device, InvalidOpcode(s.control.instructionAddress, r.ir))
      else Done(s.(control := s.control.(decoded := i)), NoEffect)
    case AddMbr => WriteRegister(s, Ac, Plus(r.ac, r.mbr))
    case SubtractMbr => WriteRegister(s, Ac, Minus(r.ac, r.mbr))
    case LoadImmediate => WriteRegister(s, Ac, Masked(r.ir))
    case Compare =>
      ControlInvariant(s.control);
      var condition := s.control.decoded.value.Condition().value;
      Done(s.(control := s.control.(comparison := condition.Holds(r.ac))), NoEffect)
    case SkipIfComparison =>
      if s.control.comparison then WriteRegister(s, Pc, Next(r.pc)) else Done(s, NoEffect)
    case ReadInput =>
      var (device, answer) := dev.poll(s.device);
      (match answer
       case Pending => Refused(device, AwaitingInput)
       case Failed(error) => Refused(device, IoFault(s.control.instructionAddress, Input, error))
       case Ready(value) =>
         Done(s.(registers := r.Write(In, value), device := device), InputRead(r.input, value)))
    case WriteOutput =>
      var (device, error) := dev.output(s.device, r.output);
      if error.Some? then Refused(device, IoFault(s.control.instructionAddress, Output, error.value))
      else Done(s.(device := device), OutputWritten(r.output))
    case Stop => Refused(s.device, Halted)
  }

  /** The counter after an operation, given the cycle that operation left in force. */
  function Advanced(c: Control): Control {
    c.(microPc := if c.microPc + 1 >= c.Length() then 0 else c.microPc + 1)
  }

  /** A new instruction's address is latched on its first micro-operation. */
  function Latched<D>(s: State<D>): State<D> {
    if s.control.microPc == 0 then s.(control := s.control.(instructionAddress := s.registers.pc)) else s
  }

  function MicroStep<D>(dev: Device<D>, s: State<D>): Micro<D>
    requires s.control.Ok()
  {
    ControlInvariant(s.control);
    var op := s.control.CurrentOp().value;
    match Perform(dev, Latched(s), op)
    case Done(s', effect) =>
      Executed(s'.(control := Advanced(s'.control)), Entry(s.control, op, effect))
    case Refused(device, reason) =>
      Stopped(s.(device := device), reason)
  }

  // ----- backwards -----

  datatype StepBackError = NoHistory | IrreversibleInput | IrreversibleOutput
  datatype Undone<D> = Undone(state: State<D>) | CannotUndo(device: D, error: StepBackError)

  function Undo<D>(dev: Device<D>, s: State<D>, e: Entry): Undone<D> {
    var restored := s.(control := e.control);
    match e.effect
    case NoEffect => Undone(restored)
    case RegisterWritten(register, previous) =>
      Undone(restored.(registers := s.registers.Write(register, previous)))
    case MemoryWritten(address, previous) =>
      Undone(restored.(memory := s.memory[address := previous],
                       device := Notify(dev, s.device, address, s.memory[address], previous)))
    case InputRead(previous, value) =>
      var (device, accepted) := dev.unread(s.device, value);
      if accepted then Undone(restored.(device := device, registers := s.registers.Write(In, previous)))
      else CannotUndo(device, IrreversibleInput)
    case OutputWritten(value) =>
      var (device, accepted) := dev.unwrite(s.device, value);
      if accepted then Undone(restored.(device := device)) else CannotUndo(device, IrreversibleOutput)
  }

  // ----- the machine with its journal -----

  datatype Vm<D> = Vm(state: State<D>, journal: seq<Entry>, limit: nat) {
    /** The control invariant, of the machine and of every state the journal can restore. */
    predicate Ok() {
      state.control.Ok() && |journal| <= limit && forall i :: 0 <= i < |journal| ==> journal[i].control.Ok()
    }
  }

  /** `History::record`: evicts the oldest entry when full, keeps nothing when disabled. */
  function Recorded(journal: seq<Entry>, limit: nat, e: Entry): seq<Entry> {
    if limit == 0 then journal
    else if |journal| == limit then journal[1..] + [e]
    else journal + [e]
  }

  /** `History::set_limit`: the oldest entries beyond the limit are dropped. */
  function Shrunk(journal: seq<Entry>, limit: nat): seq<Entry> {
    if |journal| > limit then journal[|journal| - limit..] else journal
  }

  datatype Outcome = Ran(op: MicroOp) | Stuck(reason: Reason)

  function Forward<D>(dev: Device<D>, vm: Vm<D>): (Vm<D>, Outcome)
    requires vm.Ok()
  {
    match MicroStep(dev, vm.state)
    case Executed(s, e) => (Vm(s, Recorded(vm.journal, vm.limit, e), vm.limit), Ran(e.op))
    case Stopped(s, reason) => (vm.(state := s), Stuck(reason))
  }

  datatype Reversal = Reversed(op: MicroOp) | NotReversed(error: StepBackError)

  function Backward<D>(dev: Device<D>, vm: Vm<D>): (Vm<D>, Reversal) {
    if vm.journal == [] then (vm, NotReversed(NoHistory))
    else
      var e := vm.journal[|vm.journal| - 1];
      match Undo(dev, vm.state, e)
      case Undone(s) => (vm.(state := s, journal := vm.journal[..|vm.journal| - 1]), Reversed(e.op))
      case CannotUndo(device, error) => (vm.(state := vm.state.(device := device)), NotReversed(error))
  }

  // ----- control safety -----

  /** One micro-operation keeps the control invariant and moves the counter on or back to zero. */
  lemma MicroStepKeepsControl<D>(dev: Device<D>, s: State<D>)
    requires s.control.Ok()
    ensures MicroStep(dev, s).state.control.Ok()
    ensures MicroStep(dev, s).Stopped? ==> MicroStep(dev, s).state == s.(device := MicroStep(dev, s).state.device)
    ensures MicroStep(dev, s).Executed? ==>
      var m := MicroStep(dev, s);
      && m.entry.control == s.control
      && (m.state.control.microPc == 0 || m.state.control.microPc == s.control.microPc + 1)
      && (s.control.microPc < |FETCH_DECODE| ==> m.state.control.microPc == s.control.microPc + 1)
  {
    ControlInvariant(s.control);
    var c := s.control;
    var op := c.CurrentOp().value;
    if c.microPc < |FETCH_DECODE| {
      assert op == FETCH_DECODE[c.microPc];
    } else {
      assert op == Execute(c.decoded.value.opcode)[c.microPc - |FETCH_DECODE|];
      assert op != DecodeIr;
    }
  }

  lemma ForwardKeepsOk<D>(dev: Device<D>, vm: Vm<D>)
    requires vm.Ok()
    ensures Forward(dev, vm).0.Ok() && Forward(dev, vm).0.limit == vm.limit
  {
    MicroStepKeepsControl(dev, vm.state);
  }

  lemma BackwardKeepsOk<D>(dev: Device<D>, vm: Vm<D>)
    requires vm.Ok()
    ensures Backward(dev, vm).0.Ok() && Backward(dev, vm).0.limit == vm.limit
  {
  }
}
