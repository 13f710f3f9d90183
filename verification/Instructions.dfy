/** Opcodes, skip conditions and the sixteen bits of an instruction (crates/lib/mrs-core/src/instruction.rs). */
module Instructions {
  import opened Words

  datatype Opcode =
    | JnS | Load | Store | Add | Subt | Input | Output | Halt
    | SkipCond | Jump | LoadImmi | AddI | JumpI | LoadI | StoreI
  {
    function Nibble(): nat {
      match this
      case JnS => 0x0 case Load => 0x1 case Store => 0x2 case Add => 0x3 case Subt => 0x4
      case Input => 0x5 case Output => 0x6 case Halt => 0x7 case SkipCond => 0x8
      case Jump => 0x9 case LoadImmi => 0xA case AddI => 0xB case JumpI => 0xC
      case LoadI => 0xD case StoreI => 0xE
    }

    static function FromNibble(nibble: nat): Option<Opcode> {
      match nibble
      case 0x0 => Some(JnS) case 0x1 => Some(Load) case 0x2 => Some(Store) case 0x3 => Some(Add)
      case 0x4 => Some(Subt) case 0x5 => Some(Input) case 0x6 => Some(Output) case 0x7 => Some(Halt)
      case 0x8 => Some(SkipCond) case 0x9 => Some(Jump) case 0xA => Some(LoadImmi) case 0xB => Some(AddI)
      case 0xC => Some(JumpI) case 0xD => Some(LoadI) case 0xE => Some(StoreI)
      case _ => None
    }

    predicate TakesOperand() {
      this != Input && this != Output && this != Halt
    }
  }

  datatype SkipCondition = Negative | Zero | Positive | NonZero {
    predicate Holds(ac: Word) {
      match this
      case Negative => Signed(ac) < 0
      case Zero => ac == 0
      case Positive => Signed(ac) > 0
      case NonZero => ac != 0
    }

    /** The top two of the twelve operand bits choose; the rest are ignored. */
    static function FromOperand(operand: Address): SkipCondition {
      match (operand / 0x400) % 4
      case 0 => Negative
      case 1 => Zero
      case 2 => Positive
      case _ => NonZero
    }
  }

  datatype Instruction = Instruction(opcode: Opcode, operand: Address) {
    function Encode(): Word {
      opcode.Nibble() * WORDS_IN_MEMORY + operand
    }

    static function Decode(word: Word): Option<Instruction> {
      match Opcode.FromNibble(word / WORDS_IN_MEMORY)
      case Some(opcode) => Some(Instruction(opcode, Masked(word)))
      case None => None
    }

    function Condition(): Option<SkipCondition> {
      if opcode == SkipCond then Some(SkipCondition.FromOperand(operand)) else None
    }
  }

  /** Encoding and decoding are mutual inverses; only the opcode `F` fails to decode. */
  lemma EncodeDecode(i: Instruction, w: Word)
    ensures Instruction.Decode(i.Encode()) == Some(i)
    ensures Instruction.Decode(w).Some? ==> Instruction.Decode(w).value.Encode() == w
    ensures Instruction.Decode(w).None? <==> w >= 0xF000
  {
    assert i.Encode() / WORDS_IN_MEMORY == i.opcode.Nibble();
    assert Masked(i.Encode()) == i.operand;
  }
}
