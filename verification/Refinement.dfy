/**
 The microcode implements the instruction set: one completed cycle has exactly the effect
 the instruction manual gives (crates/lib/mrs-vm/src/microcode.rs:84-183,
 crates/lib/mrs-core/src/instruction.rs:132-153).
 */
module Refinement {
  import opened Words
  import opened Instructions
  import opened Microcode
  import opened Devices
  import opened Machine

  // ----- the instruction set, with no registers but the programmer's -----

  datatype Arch<D> = Arch(ac: Word, pc: Address, input: Word, output: Word, memory: Memory, device: D)

  function ArchOf<D>(s: State<D>): Arch<D> {
    Arch(s.registers.ac, s.registers.pc, s.registers.input, s.registers.output, s.memory, s.device)
  }

  /** `M[x] <- v`, telling the device if that repaints a pixel. */
  function Poke<D>(dev: Device<D>, a: Arch<D>, x: Address, v: Word): Arch<D> {
    a.(memory := a.memory[x := v], device := Notify(dev, a.device, x, a.memory[x], v))
  }

  /** The execute phase of `Input`, which is also what a stalled `Input` retries. */
  function InputPhase<D>(dev: Device<D>, a: Arch<D>, at: Address): (Arch<D>, Option<Reason>) {
    var (device, answer) := dev.poll(a.device);
    match answer
    case Pending => (a.(device := device), Some(AwaitingInput))
    case Failed(error) => (a.(device := device), Some(IoFault(at, Input, error)))
    case Ready(value) => (a.(device := device, input := value, ac := value), None)
  }

  /** The execute phase of the instruction `i` fetched from `at`, with `PC` already past it. */
  function ExecuteInstruction<D>(dev: Device<D>, a: Arch<D>, i: Instruction, at: Address): (Arch<D>, Option<Reason>) {
    var x := i.operand;
    var m := a.memory;
    match i.opcode
    case JnS => (Poke(dev, a, x, a.pc).(pc := Next(x)), None)
    case Load => (a.(ac := m[x]), None)
    case Store => (Poke(dev, a, x, a.ac), None)
    case Add => (a.(ac := Plus(a.ac, m[x])), None)
    case Subt => (a.(ac := Minus(a.ac, m[x])), None)
    case Input => InputPhase(dev, a, at)
    case Output =>
      var (device, error) := dev.output(a.device, a.ac);
      (a.(output := a.ac, device := device), if error.Some? then Some(IoFault(at, Output, error.value)) else None)
    case Halt => (a, Some(Halted))
    case SkipCond => (if SkipCondition.FromOperand(x).Holds(a.ac) then a.(pc := Next(a.pc)) else a, None)
    case Jump => (a.(pc := x), None)
    case LoadImmi => (a.(ac := x), None)
    case AddI => (a.(ac := Plus(a.ac, m[Masked(m[x])])), None)
    case JumpI => (a.(pc := Masked(m[x])), None)
    case LoadI => (a.(ac := m[Masked(m[x])]), None)
    case StoreI => (Poke(dev, a, Masked(m[x]), a.ac), None)
  }

  function ExecuteNext<D>(dev: Device<D>, a: Arch<D>): (Arch<D>, Option<Reason>) {
    var word := a.memory[a.pc];
    var fetched := a.(pc := Next(a.pc));
    match Instruction.Decode(word)
    case None => (fetched, Some(InvalidOpcode(a.pc, word)))
    case Some(i) => ExecuteInstruction(dev, fetched, i, a.pc)
  }

  // ----- the cycle -----

  /** Micro-steps up to the next boundary or the first one that stops. */
  function Finish<D>(dev: Device<D>, s: State<D>): (State<D>, Option<Reason>)
    requires s.control.Ok()
    decreases 10 - s.control.microPc
  {
    ControlInvariant(s.control);
    MicroStepKeepsControl(dev, s);
    match MicroStep(dev, s)
    case Stopped(t, reason) => (t, Some(reason))
    case Executed(t, _) => ControlInvariant(t.control); if t.control.microPc == 0 then (t, None) else Finish(dev, t)
  }

  /** The machine on the point of decoding: everything but `decode IR` of the fetch is done. */
  function Fetched<D>(s: State<D>): State<D> {
    var r := s.registers;
    var word := s.memory[r.pc];
    s.(registers := r.(mar := r.pc, mbr := word, ir := word, pc := Next(r.pc)),
       control := s.control.(microPc := 4, instructionAddress := r.pc))
  }

  lemma OneMore<D>(dev: Device<D>, s: State<D>, t: State<D>)
    requires s.control.Ok() && t.control.Ok()
    requires MicroStep(dev, s).Executed? && MicroStep(dev, s).state == t && t.control.microPc != 0
    ensures Finish(dev, s) == Finish(dev, t)
  {
  }

  lemma FetchRuns<D>(dev: Device<D>, s: State<D>)
    requires s.control.Ok() && s.control.microPc == 0
    ensures Finish(dev, s) == Finish(dev, Fetched(s))
  {
    var r, c := s.registers, s.control;
    var word := s.memory[r.pc];
    var s1 := s.(registers := r.(mar := r.pc), control := c.(microPc := 1, instructionAddress := r.pc));
    OneMore(dev, s, s1);
    var s2 := s1.(registers := s1.registers.(mbr := word), control := s1.control.(microPc := 2));
    OneMore(dev, s1, s2);
    var s3 := s2.(registers := s2.registers.(ir := word), control := s2.control.(microPc := 3));
    OneMore(dev, s2, s3);
    OneMore(dev, s3, Fetched(s));
  }

  /** The machine at the first micro-operation of the execute phase. */
  ghost predicate Decoded<D>(s: State<D>, i: Instruction) {
    && s.control.microPc == |FETCH_DECODE|
    && s.control.decoded == Some(i)
    && Instruction.Decode(s.registers.ir) == Some(i)
  }

  lemma DecodeRuns<D>(dev: Device<D>, s: State<D>)
    requires s.control.microPc == 4
    ensures s.control.Ok()
    ensures match Instruction.Decode(s.registers.ir)
      case None => Finish(dev, s) == (s, Some(InvalidOpcode(s.control.instructionAddress, s.registers.ir)))
      case Some(i) =>
        var t := s.(control := s.control.(microPc := 5, decoded := Some(i)));
        Decoded(t, i) && t.control.Ok() && Finish(dev, s) == Finish(dev, t)
  {
  }

  /** What finishing from `s` must amount to. */
  ghost predicate Amounts<D>(dev: Device<D>, s: State<D>, result: (Arch<D>, Option<Reason>)) {
    && s.control.Ok()
    && var (t, stop) := Finish(dev, s);
       && (ArchOf(t), stop) == result
       && (stop.None? ==> t.control.microPc == 0)
  }

  /** The operation that ends a cycle. */
  lemma LastOne<D>(dev: Device<D>, s: State<D>, op: MicroOp, result: Arch<D>)
    requires s.control.Ok() && s.control.microPc > 0 && s.control.microPc + 1 == s.control.Length()
    requires s.control.CurrentOp() == Some(op) && op != DecodeIr
    requires Perform(dev, s, op).Done? && ArchOf(Perform(dev, s, op).state) == result
    ensures Amounts(dev, s, (result, None))
  {
  }

  lemma AmountsAlike<D>(dev: Device<D>, s: State<D>, t: State<D>, result: (Arch<D>, Option<Reason>))
    requires s.control.Ok() && t.control.Ok() && Finish(dev, s) == Finish(dev, t) && Amounts(dev, t, result)
    ensures Amounts(dev, s, result)
  {
  }

  lemma LoadsRun<D>(dev: Device<D>, s: State<D>, i: Instruction)
    requires Decoded(s, i) && i.opcode in {Load, Add, Subt, JumpI}
    ensures Amounts(dev, s, ExecuteInstruction(dev, ArchOf(s), i, s.control.instructionAddress))
  {
    var r := s.registers;
    var s1 := s.(registers := r.(mar := i.operand), control := s.control.(microPc := 6));
    OneMore(dev, s, s1);
    var s2 := s1.(registers := s1.registers.(mbr := s.memory[i.operand]), control := s.control.(microPc := 7));
    OneMore(dev, s1, s2);
  }

  /** The operations the three indirect instructions start with: the pointer is fetched and followed. */
  lemma PointerRuns<D>(dev: Device<D>, s: State<D>, i: Instruction) returns (t: State<D>)
    requires Decoded(s, i) && i.opcode in {AddI, LoadI, StoreI}
    ensures var pointer := s.memory[i.operand];
      t == s.(registers := s.registers.(mar := Masked(pointer), mbr := pointer), control := s.control.(microPc := 8))
    ensures s.control.Ok() && t.control.Ok() && Finish(dev, s) == Finish(dev, t)
  {
    var pointer := s.memory[i.operand];
    var s1 := s.(registers := s.registers.(mar := i.operand), control := s.control.(microPc := 6));
    OneMore(dev, s, s1);
    var s2 := s1.(registers := s1.registers.(mbr := pointer), control := s.control.(microPc := 7));
    OneMore(dev, s1, s2);
    t := s2.(registers := s2.registers.(mar := Masked(pointer)), control := s.control.(microPc := 8));
    OneMore(dev, s2, t);
  }

  /** What follows when the word the pointer leads to is read: the sum, or the load. */
  lemma PointedAtRuns<D>(dev: Device<D>, s: State<D>, opcode: Opcode)
    requires opcode in {AddI, LoadI} && s.control.microPc == 8
    requires s.control.decoded.Some? && s.control.decoded.value.opcode == opcode
    ensures var a, word := ArchOf(s), s.memory[s.registers.mar];
      Amounts(dev, s, (a.(ac := if opcode == AddI then Plus(a.ac, word) else word), None))
  {
    var t := s.(registers := s.registers.(mbr := s.memory[s.registers.mar]), control := s.control.(microPc := 9));
    OneMore(dev, s, t);
    var ac := if opcode == AddI then Plus(s.registers.ac, t.registers.mbr) else t.registers.mbr;
    LastOne(dev, t, if opcode == AddI then AddMbr else Transfer(Ac, Mbr), ArchOf(s).(ac := ac));
  }

  lemma IndirectLoadsRun<D>(dev: Device<D>, s: State<D>, i: Instruction)
    requires Decoded(s, i) && i.opcode in {AddI, LoadI}
    ensures Amounts(dev, s, ExecuteInstruction(dev, ArchOf(s), i, s.control.instructionAddress))
  {
    var t := PointerRuns(dev, s, i);
    PointedAtRuns(dev, t, i.opcode);
    AmountsAlike(dev, s, t, ExecuteInstruction(dev, ArchOf(s), i, s.control.instructionAddress));
  }

  lemma StoreRuns<D>(dev: Device<D>, s: State<D>, i: Instruction)
    requires Decoded(s, i) && i.opcode == Store
    ensures Amounts(dev, s, ExecuteInstruction(dev, ArchOf(s), i, s.control.instructionAddress))
  {
    var r := s.registers;
    var s1 := s.(registers := r.(mar := i.operand), control := s.control.(microPc := 6));
    OneMore(dev, s, s1);
    var s2 := s1.(registers := s1.registers.(mbr := r.ac), control := s.control.(microPc := 7));
    OneMore(dev, s1, s2);
  }

  lemma StoreIRuns<D>(dev: Device<D>, s: State<D>, i: Instruction)
    requires Decoded(s, i) && i.opcode == StoreI
    ensures Amounts(dev, s, ExecuteInstruction(dev, ArchOf(s), i, s.control.instructionAddress))
  {
    var s3 := PointerRuns(dev, s, i);
    var s4 := s3.(registers := s3.registers.(mbr := s.registers.ac), control := s.control.(microPc := 9));
    OneMore(dev, s3, s4);
  }

  /** The return address is stored. */
  lemma ReturnIsSaved<D>(dev: Device<D>, s: State<D>, i: Instruction) returns (t: State<D>)
    requires Decoded(s, i) && i.opcode == JnS
    ensures var r, x := s.registers, i.operand;
      t == s.(registers := r.(mar := x, mbr := r.pc), memory := s.memory[x := r.pc],
              device := Notify(dev, s.device, x, s.memory[x], r.pc), control := s.control.(microPc := 8))
    ensures s.control.Ok() && t.control.Ok() && Finish(dev, s) == Finish(dev, t)
  {
    var r, x := s.registers, i.operand;
    var s1 := s.(registers := r.(mar := x), control := s.control.(microPc := 6));
    OneMore(dev, s, s1);
    var s2 := s1.(registers := s1.registers.(mbr := r.pc), control := s.control.(microPc := 7));
    OneMore(dev, s1, s2);
    t := s2.(memory := s.memory[x := r.pc], device := Notify(dev, s.device, x, s.memory[x], r.pc),
             control := s.control.(microPc := 8));
    OneMore(dev, s2, t);
  }

  lemma JnSRuns<D>(dev: Device<D>, s: State<D>, i: Instruction)
    requires Decoded(s, i) && i.opcode == JnS
    ensures Amounts(dev, s, ExecuteInstruction(dev, ArchOf(s), i, s.control.instructionAddress))
  {
    var x := i.operand;
    var s3 := ReturnIsSaved(dev, s, i);
    var s4 := s3.(registers := s3.registers.(pc := x), control := s.control.(microPc := 9));
    OneMore(dev, s3, s4);
  }

  lemma OutputRuns<D>(dev: Device<D>, s: State<D>, i: Instruction)
    requires Decoded(s, i) && i.opcode == Output
    ensures Amounts(dev, s, ExecuteInstruction(dev, ArchOf(s), i, s.control.instructionAddress))
  {
    var s1 := s.(registers := s.registers.(output := s.registers.ac), control := s.control.(microPc := 6));
    OneMore(dev, s, s1);
  }

  lemma SkipCondRuns<D>(dev: Device<D>, s: State<D>, i: Instruction)
    requires Decoded(s, i) && i.opcode == SkipCond
    ensures Amounts(dev, s, ExecuteInstruction(dev, ArchOf(s), i, s.control.instructionAddress))
  {
    var holds := SkipCondition.FromOperand(i.operand).Holds(s.registers.ac);
    var s1 := s.(control := s.control.(microPc := 6, comparison := holds));
    OneMore(dev, s, s1);
  }

  lemma InputRuns<D>(dev: Device<D>, s: State<D>, i: Instruction)
    requires Decoded(s, i) && i.opcode == Input
    ensures Amounts(dev, s, ExecuteInstruction(dev, ArchOf(s), i, s.control.instructionAddress))
  {
    var (device, answer) := dev.poll(s.device);
    if answer.Ready? {
      var s1 := s.(registers := s.registers.(input := answer.value), device := device,
                   control := s.control.(microPc := 6));
      OneMore(dev, s, s1);
    }
  }

  lemma ShortRuns<D>(dev: Device<D>, s: State<D>, i: Instruction)
    requires Decoded(s, i) && i.opcode in {Halt, Jump, LoadImmi}
    ensures Amounts(dev, s, ExecuteInstruction(dev, ArchOf(s), i, s.control.instructionAddress))
  {
  }

  lemma ExecutePhaseRefines<D>(dev: Device<D>, s: State<D>, i: Instruction)
    requires Decoded(s, i)
    ensures Amounts(dev, s, ExecuteInstruction(dev, ArchOf(s), i, s.control.instructionAddress))
  {
    match i.opcode {
      case Load | Add | Subt | JumpI => LoadsRun(dev, s, i);
      case AddI | LoadI => IndirectLoadsRun(dev, s, i);
      case Store => StoreRuns(dev, s, i);
      case StoreI => StoreIRuns(dev, s, i);
      case JnS => JnSRuns(dev, s, i);
      case Output => OutputRuns(dev, s, i);
      case SkipCond => SkipCondRuns(dev, s, i);
      case Input => InputRuns(dev, s, i);
      case Halt | Jump | LoadImmi => ShortRuns(dev, s, i);
    }
  }

  /**
   The microcode refines the instruction set. From a boundary, running micro-operations to
   the end of the instruction, or to where it stops, changes `AC`, `PC`, `IN`, `OUT`,
   memory and device exactly as the instruction does, for every word `PC` can point at.
   */
  lemma MicrocodeRefinesInstructions<D>(dev: Device<D>, s: State<D>)
    requires s.control.Ok() && s.control.microPc == 0
    ensures var (t, stop) := Finish(dev, s);
      && (ArchOf(t), stop) == ExecuteNext(dev, ArchOf(s))
      && (stop.None? ==> t.control.microPc == 0)
  {
    FetchRuns(dev, s);
    var f := Fetched(s);
    DecodeRuns(dev, f);
    var i := Instruction.Decode(f.registers.ir);
    if i.Some? {
      ExecutePhaseRefines(dev, f.(control := f.control.(microPc := 5, decoded := i)), i.value);
    }
  }

  // ----- finishing from the middle -----

  /** `n` micro-operations from `s`, all executed and none of them completing the instruction. */
  ghost predicate PartWay<D>(dev: Device<D>, s: State<D>, n: nat, t: State<D>)
    requires s.control.Ok()
    decreases n
  {
    if n == 0 then s == t
    else
      MicroStepKeepsControl(dev, s);
      && MicroStep(dev, s).Executed?
      && MicroStep(dev, s).state.control.microPc != 0
      && PartWay(dev, MicroStep(dev, s).state, n - 1, t)
  }

  /** Wherever an instruction is picked up from, `step` finishes it the same way. */
  lemma {:induction false} FinishingPartWay<D>(dev: Device<D>, s: State<D>, n: nat, t: State<D>)
    requires s.control.Ok() && PartWay(dev, s, n, t)
    ensures t.control.Ok() && Finish(dev, t) == Finish(dev, s)
    decreases n
  {
    if n > 0 {
      MicroStepKeepsControl(dev, s);
      FinishingPartWay(dev, MicroStep(dev, s).state, n - 1, t);
    }
  }

  /** Of all instructions only `Input` waits, and waiting changes the device alone. */
  lemma OnlyInputWaits<D>(dev: Device<D>, s: State<D>, i: Instruction)
    requires Decoded(s, i) && s.control.Ok() && Finish(dev, s).1 == Some(AwaitingInput)
    ensures i.opcode == Input && Finish(dev, s).0 == s.(device := dev.poll(s.device).0)
  {
    ExecutePhaseRefines(dev, s, i);
    assert i.opcode == Input;
    assert MicroStep(dev, s).Stopped?;
  }

  /** An `Input` that has to wait is still at its execute phase, and picked up there it is the input phase again. */
  lemma StalledInputRetries<D>(dev: Device<D>, s: State<D>)
    requires s.control.Ok() && s.control.microPc == 0 && Finish(dev, s).1 == Some(AwaitingInput)
    ensures var t := Finish(dev, s).0;
      && t.control.Ok() && t.control.microPc == |FETCH_DECODE|
      && Amounts(dev, t, InputPhase(dev, ArchOf(t), s.registers.pc))
  {
    FetchRuns(dev, s);
    var f := Fetched(s);
    DecodeRuns(dev, f);
    var i := Instruction.Decode(f.registers.ir).value;
    var d := f.(control := f.control.(microPc := 5, decoded := Some(i)));
    OnlyInputWaits(dev, d, i);
    ExecutePhaseRefines(dev, d.(device := dev.poll(d.device).0), i);
  }
}
