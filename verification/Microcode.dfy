/**
 The micro-programs of the control unit (crates/lib/mrs-vm/src/microcode.rs) and the
 register file they are written against (crates/lib/mrs-vm/src/registers.rs).
 */
module Microcode {
  import opened Words
  import opened Instructions

  datatype Register = Ac | Pc | Ir | Mar | Mbr | In | Out

  datatype Registers = Registers(
    ac: Word, pc: Address, ir: Word, mar: Address, mbr: Word, input: Word, output: Word)
  {
    /** A register as a raw pattern; the twelve-bit ones are zero-extended. */
    function Read(r: Register): Word {
      match r
      case Ac => ac
      case Pc => pc
      case Ir => ir
      case Mar => mar
      case Mbr => mbr
      case In => input
      case Out => output
    }

    /** Writes to `PC` and `MAR` keep only twelve bits. */
    function Write(r: Register, bits: Word): Registers {
      match r
      case Ac => this.(ac := bits)
      case Pc => this.(pc := Masked(bits))
      case Ir => this.(ir := bits)
      case Mar => this.(mar := Masked(bits))
      case Mbr => this.(mbr := bits)
      case In => this.(input := bits)
      case Out => this.(output := bits)
    }

    static const Cleared := Registers(0, 0, 0, 0, 0, 0, 0)
  }

  datatype MicroOp =
    | Transfer(target: Register, source: Register)
    | ReadMemory
    | WriteMemory
    | IncrementPc
    | DecodeIr
    | AddMbr
    | SubtractMbr
    | LoadImmediate
    | Compare
    | SkipIfComparison
    | ReadInput
    | WriteOutput
    | Stop

  const FETCH_DECODE: seq<MicroOp> :=
    [Transfer(Mar, Pc), ReadMemory, Transfer(Ir, Mbr), IncrementPc, DecodeIr]

  function Execute(opcode: Opcode): (ops: seq<MicroOp>)
    ensures 1 <= |ops| <= 5
  {
    match opcode
    case JnS => [Transfer(Mar, Ir), Transfer(Mbr, Pc), WriteMemory, Transfer(Pc, Mar), IncrementPc]
    case Load => [Transfer(Mar, Ir), ReadMemory, Transfer(Ac, Mbr)]
    case Store => [Transfer(Mar, Ir), Transfer(Mbr, Ac), WriteMemory]
    case Add => [Transfer(Mar, Ir), ReadMemory, AddMbr]
    case Subt => [Transfer(Mar, Ir), ReadMemory, SubtractMbr]
    case Input => [ReadInput, Transfer(Ac, In)]
    case Output => [Transfer(Out, Ac), WriteOutput]
    case Halt => [Stop]
    case SkipCond => [Compare, SkipIfComparison]
    case Jump => [Transfer(Pc, Ir)]
    case LoadImmi => [LoadImmediate]
    case AddI => [Transfer(Mar, Ir), ReadMemory, Transfer(Mar, Mbr), ReadMemory, AddMbr]
    case JumpI => [Transfer(Mar, Ir), ReadMemory, Transfer(Pc, Mbr)]
    case LoadI => [Transfer(Mar, Ir), ReadMemory, Transfer(Mar, Mbr), ReadMemory, Transfer(Ac, Mbr)]
    case StoreI => [Transfer(Mar, Ir), ReadMemory, Transfer(Mar, Mbr), Transfer(Mbr, Ac), WriteMemory]
  }

  function CycleLength(opcode: Opcode): nat {
    |FETCH_DECODE| + |Execute(opcode)|
  }

  /** The control state: everything that decides which micro-operation comes next. */
  datatype Control = Control(
    microPc: nat, instructionAddress: Address, decoded: Option<Instruction>, comparison: bool)
  {
    /** The length of the cycle in progress; before anything was decoded, the fetch alone. */
    function Length(): nat {
      if decoded.Some? then CycleLength(decoded.value.opcode) else |FETCH_DECODE|
    }

    /** The next micro-operation, if there is one. */
    function CurrentOp(): Option<MicroOp> {
      if microPc < |FETCH_DECODE| then Some(FETCH_DECODE[microPc])
      else if decoded.None? then None
      else
        var ops := Execute(decoded.value.opcode);
        var index := microPc - |FETCH_DECODE|;
        if index < |ops| then Some(ops[index]) else None
    }

    /**
     The control invariant. While fetching, `decoded` is whatever ran last; past the
     fetch it is the instruction in progress, and the counter is inside its cycle.
     */
    predicate Ok() {
      microPc < |FETCH_DECODE| || (decoded.Some? && microPc < CycleLength(decoded.value.opcode))
    }
  }

  /**
   Under the control invariant, and only under it, there is a next micro-operation; a
   comparison is only ever due while a `Skipcond` is decoded, and every cycle is at most
   ten operations long.
   */
  lemma ControlInvariant(c: Control)
    ensures c.Ok() <==> c.CurrentOp().Some?
    ensures c.Ok() && c.CurrentOp() == Some(Compare) ==> c.decoded.Some? && c.decoded.value.Condition().Some?
    ensures c.Ok() ==> c.microPc < 10
  {
    if c.decoded.Some? && |FETCH_DECODE| <= c.microPc {
      var ops := Execute(c.decoded.value.opcode);
      if c.Ok() {
        assert c.CurrentOp() == Some(ops[c.microPc - |FETCH_DECODE|]);
      }
    }
  }
}
