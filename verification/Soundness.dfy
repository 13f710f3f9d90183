/**
 The analyser judged against the machine: when the lints report nothing, what the graph
 says is true of every run (crates/lib/mrs-lint/src/cfg.rs:62-134 against crates/lib/mrs-vm).
 */
module Soundness {
  import opened Words
  import opened Instructions
  import opened Microcode
  import opened Devices
  import opened Machine
  import opened Sessions
  import opened Running
  import opened Syntax
  import opened Parser
  import opened Assembler
  import opened Consistency
  import opened Cfg

  /** Every instruction word decodes to the opcode its line named. */
  ghost predicate Encodes(g: Graph)
    requires g.Ok()
  {
    forall i: nat :: g.IsCode(i) ==>
      && EffectiveOpcode(g.kinds[i]).Some?
      && Instruction.Decode(g.words[i])
           == Some(Instruction(EffectiveOpcode(g.kinds[i]).value, Masked(g.words[i])))
  }

  /** A program that assembles encodes what it says. */
  lemma AssembledProgramsEncode(d: Dialect, source: string)
    requires Assemble(d, source).Succeeded()
    ensures GraphOf(Assemble(d, source)).Ok() && Encodes(GraphOf(Assemble(d, source)))
  {
    TwoPassConsistency(d, source);
    var a := Assemble(d, source);
    var g := GraphOf(a);
    forall i: nat | g.IsCode(i)
      ensures EffectiveOpcode(g.kinds[i]).Some?
      ensures Instruction.Decode(g.words[i])
           == Some(Instruction(EffectiveOpcode(g.kinds[i]).value, Masked(g.words[i])))
    {
      var item := a.program.items[i];
      assert AssembleItem(d.ws, a.program.symbols, item).Emitted?;
      CodeEncodes(d.ws, a.program.symbols, item);
    }
  }

  lemma CodeEncodes(ws: char -> bool, symbols: SymbolTable, item: Item)
    requires AssembleItem(ws, symbols, item).Emitted? && Classify(item.kind) == Code
    ensures EffectiveOpcode(item.kind).Some?
    ensures var word := AssembleItem(ws, symbols, item).word;
      Instruction.Decode(word) == Some(Instruction(EffectiveOpcode(item.kind).value, Masked(word)))
  {
    var (opcode, operand) := Alias(item).value;
    assert AssembleItem(ws, symbols, item) == AssembleInstruction(symbols, item, opcode, operand);
    var address := if operand.None? then 0 else ResolveOperand(symbols, operand.value).value;
    EncodeDecode(Instruction(opcode, address), 0);
  }

  /** What has to be reported by no lint. */
  ghost predicate Clean(g: Graph)
    requires g.Ok()
  {
    && g.Exact()
    && forall i: nat ::
         && !FallsIntoData(g, i) && !FallsOffEnd(g, i) && !JumpsOutside(g, i)
         && !JnsOverwritesCode(g, i) && !SelfModifying(g, i)
  }

  /** No reachable word has been overwritten. */
  ghost predicate Intact(g: Graph, memory: Memory)
    requires g.Ok()
  {
    forall i: nat :: i < |g.kinds| && Reaches(g, i) ==> memory[g.origin + i] == g.words[i]
  }

  /** The address is that of a reachable code word. */
  ghost predicate OnReachable(g: Graph, address: Address)
    requires g.Ok()
  {
    g.IndexOf(address).Some? && Reaches(g, g.IndexOf(address).value) && g.IsCode(g.IndexOf(address).value)
  }

  /** The address is in no reachable word, so writing there is harmless. */
  ghost predicate Harmless(g: Graph, address: Address)
    requires g.Ok()
  {
    g.IndexOf(address).Some? ==> !Reaches(g, g.IndexOf(address).value)
  }

  /** The invariant with everything it says about the graph named, not spelt out. */
  ghost predicate SafeAt(s: State, at: Address, word: Word) {
    var c, r := s.control, s.registers;
    && c.Ok()
    && (c.microPc == 0 ==> r.pc == at)
    && (c.microPc > 0 ==> c.instructionAddress == at)
    && (c.microPc == 1 ==> r.mar == at)
    && (c.microPc == 2 ==> r.mbr == word)
    && (c.microPc >= 3 ==> r.ir == word)
    && (c.microPc <= 3 ==> r.pc == at)
    && (c.microPc == 4 ==> r.pc == Next(at))
    && (c.microPc >= 5 ==> c.decoded == Instruction.Decode(word) && c.decoded.Some? && PhaseAt(s, c.decoded.value, at))
  }

  /** Where the execute phase stands, as far as `PC` and `MAR` go. */
  ghost predicate PhaseAt(s: State, i: Instruction, at: Address) {
    var r, m := s.registers, s.control.microPc;
    && (i.opcode in {JnS, Store} && m >= 6 ==> r.mar == i.operand)
    && (if i.opcode == JnS && m == 9 then r.pc == i.operand else r.pc == Next(at))
  }

  /**
   The invariant of every micro-step: reachable code is intact, and the machine is at a
   boundary on a reachable code word or somewhere in the cycle of the one it fetched.
   */
  ghost predicate Safe(g: Graph, s: State)
    requires g.Ok()
  {
    && Intact(g, s.memory)
    && var at := if s.control.microPc == 0 then s.registers.pc else s.control.instructionAddress;
       OnReachable(g, at) && SafeAt(s, at, g.words[at - g.origin])
  }

  // ----- what the graph promises about the instruction at a reachable word -----

  lemma SuccessorReachable(g: Graph, i: nat, e: Edge)
    requires g.Ok() && Clean(g) && Reaches(g, i) && i < |g.kinds| && e in g.Edges(i)
    ensures e.ToWord? || e == Elsewhere
    ensures e.ToWord? ==> Reaches(g, e.index) && g.IsCode(e.index)
  {
    assert !JumpsOutside(g, i) && !FallsOffEnd(g, i) && !FallsIntoData(g, i);
    if e.ToWord? {
      assert Follows(g, i, e.index);
      ReachesNext(g, i, e.index);
      assert !FallsIntoData(g, e.index);
    }
  }

  /** A jump from a reachable word lands on reachable code. */
  lemma TargetStays(g: Graph, i: nat, address: Address)
    requires g.Ok() && Clean(g) && Reaches(g, i) && i < |g.kinds| && g.Target(address) in g.Edges(i)
    ensures OnReachable(g, address)
  {
    SuccessorReachable(g, i, g.Target(address));
  }

  /** So does falling through or skipping, and the address never wraps. */
  lemma AdvanceStays(g: Graph, i: nat, k: nat)
    requires g.Ok() && Clean(g) && Reaches(g, i) && i < |g.kinds| && g.Advance(i, k) in g.Edges(i)
    ensures i + k < |g.kinds| && OnReachable(g, g.origin + (i + k))
  {
    SuccessorReachable(g, i, g.Advance(i, k));
  }

  /** What a reachable `JnS` or `Store` writes to is not reachable code. */
  lemma OperandIsHarmless(g: Graph, i: nat)
    requires g.Ok() && Clean(g) && i < |g.kinds| && EffectiveOpcode(g.kinds[i]) in {Some(JnS), Some(Store)}
    ensures Harmless(g, Masked(g.words[i]))
  {
    assert !JnsOverwritesCode(g, i) && !SelfModifying(g, i);
    if Slot(g, i).Some? {
      assert !FallsIntoData(g, Slot(g, i).value);
    }
  }

  /** What the graph promises of an instruction at `at`. */
  ghost predicate StaysInside(g: Graph, i: Instruction, at: Address)
    requires g.Ok()
  {
    match i.opcode
    case JumpI => false
    case StoreI => false
    case Halt => true
    case Jump => OnReachable(g, i.operand)
    case JnS => OnReachable(g, Next(i.operand)) && Harmless(g, i.operand)
    case Store => OnReachable(g, Next(at)) && Harmless(g, i.operand)
    case SkipCond => OnReachable(g, Next(at)) && OnReachable(g, Next(Next(at)))
    case _ => OnReachable(g, Next(at))
  }

  /** Falling through, skipping and jumping from a reachable word stay on reachable words. */
  lemma ControlStaysInside(g: Graph, at: Address)
    requires g.Ok() && Clean(g) && Encodes(g) && OnReachable(g, at)
    ensures var word := g.words[at - g.origin];
      Instruction.Decode(word).Some? && StaysInside(g, Instruction.Decode(word).value, at)
  {
    var index := at - g.origin;
    assert g.IsCode(index);
    OpcodeStaysInside(g, index, EffectiveOpcode(g.kinds[index]).value);
  }

  lemma FallingStays(g: Graph, i: nat, opcode: Opcode)
    requires g.Ok() && Clean(g) && g.IsCode(i) && Reaches(g, i) && EffectiveOpcode(g.kinds[i]) == Some(opcode)
    requires opcode !in {Halt, Jump, JnS, JumpI}
    ensures OnReachable(g, Next(g.origin + i))
    ensures opcode == SkipCond ==> OnReachable(g, Next(Next(g.origin + i)))
  {
    assert g.Edges(i)[0] == g.Advance(i, 1);
    AdvanceStays(g, i, 1);
    if opcode == SkipCond {
      assert g.Edges(i)[1] == g.Advance(i, 2);
      AdvanceStays(g, i, 2);
    }
  }

  lemma JumpingStays(g: Graph, i: nat, opcode: Opcode)
    requires g.Ok() && Clean(g) && g.IsCode(i) && Reaches(g, i) && EffectiveOpcode(g.kinds[i]) == Some(opcode)
    requires opcode in {Jump, JnS}
    ensures OnReachable(g, if opcode == Jump then Masked(g.words[i]) else Next(Masked(g.words[i])))
  {
    TargetStays(g, i, if opcode == Jump then Masked(g.words[i]) else Next(Masked(g.words[i])));
  }

  lemma OpcodeStaysInside(g: Graph, i: nat, opcode: Opcode)
    requires g.Ok() && Clean(g) && g.IsCode(i) && Reaches(g, i) && EffectiveOpcode(g.kinds[i]) == Some(opcode)
    ensures StaysInside(g, Instruction(opcode, Masked(g.words[i])), g.origin + i)
  {
    assert g.kinds[i] != OpcodeKind(JumpI) && g.kinds[i] != OpcodeKind(StoreI);
    if opcode == Jump || opcode == JnS {
      JumpingStays(g, i, opcode);
    } else if opcode != Halt {
      FallingStays(g, i, opcode);
    }
    if opcode == JnS || opcode == Store {
      OperandIsHarmless(g, i);
    }
  }

  // ----- every micro-step keeps the invariant -----

  /** Where `PC` may be once the instruction is over. */
  ghost predicate Lands(i: Instruction, at: Address, pc: Address) {
    match i.opcode
    case Jump => pc == i.operand
    case JnS => pc == Next(i.operand)
    case SkipCond => pc == Next(at) || pc == Next(Next(at))
    case _ => pc == Next(at)
  }

  lemma FetchStep<D>(dev: Device<D>, s: State<D>, at: Address, word: Word)
    requires SafeAt(s, at, word) && s.control.microPc < |FETCH_DECODE|
    requires s.memory[at] == word && Instruction.Decode(word).Some?
    ensures var m := MicroStep(dev, s);
      m.Executed? && SafeAt(m.state, at, word) && m.state.memory == s.memory && m.state.control.microPc > 0
  {
    MicroStepKeepsControl(dev, s);
  }

  /** An execute step stays in the cycle or ends it where the instruction lands; only a store writes, and only to its operand. */
  ghost predicate StepsWithin<D>(dev: Device<D>, s: State<D>, i: Instruction, at: Address, word: Word)
    requires s.control.Ok()
  {
    match MicroStep(dev, s)
    case Stopped(t, reason) =>
      SafeAt(t, at, word) && t.memory == s.memory && t.control == s.control && !reason.InvalidOpcode?
    case Executed(t, _) =>
      && (t.memory == s.memory
          || ((i.opcode == JnS || i.opcode == Store) && t.memory == s.memory[i.operand := s.registers.mbr]))
      && (if t.control.microPc == 0 then i.opcode != Halt && Lands(i, at, t.registers.pc) else SafeAt(t, at, word))
  }

  lemma WritingStep<D>(dev: Device<D>, s: State<D>, i: Instruction, at: Address, word: Word)
    requires SafeAt(s, at, word) && s.control.microPc >= |FETCH_DECODE| && Instruction.Decode(word) == Some(i)
    requires i.opcode == JnS || i.opcode == Store
    ensures StepsWithin(dev, s, i, at, word)
  {
    var k := s.control.microPc - |FETCH_DECODE|;
    assert s.control.CurrentOp() == Some(Execute(i.opcode)[k]);
  }

  lemma JumpingStep<D>(dev: Device<D>, s: State<D>, i: Instruction, at: Address, word: Word)
    requires SafeAt(s, at, word) && s.control.microPc >= |FETCH_DECODE| && Instruction.Decode(word) == Some(i)
    requires i.opcode == Jump || i.opcode == SkipCond
    ensures StepsWithin(dev, s, i, at, word)
  {
    var k := s.control.microPc - |FETCH_DECODE|;
    assert s.control.CurrentOp() == Some(Execute(i.opcode)[k]);
  }

  /** The operations of the instructions that only compute: none writes memory or touches `PC`. */
  predicate Computes(op: MicroOp) {
    op != WriteMemory && op != SkipIfComparison && op != IncrementPc && op != DecodeIr && op != Compare
    && (op.Transfer? ==> op.target != Pc && op.target != Ir)
  }

  /** Nothing the invariant looks at has changed, the counter and `MAR` apart. */
  ghost predicate SameCycle<D>(s: State<D>, t: State<D>) {
    && t.memory == s.memory && t.registers.pc == s.registers.pc && t.registers.ir == s.registers.ir
    && t.control.instructionAddress == s.control.instructionAddress && t.control.decoded == s.control.decoded
  }

  lemma ComputingKeeps<D>(dev: Device<D>, s: State<D>, op: MicroOp)
    requires s.control.Ok() && s.control.microPc >= |FETCH_DECODE|
    requires s.control.CurrentOp() == Some(op) && Computes(op)
    ensures SameCycle(s, MicroStep(dev, s).state)
    ensures MicroStep(dev, s).Executed? ==> op != Stop && MicroStep(dev, s).state.control.microPc in {0, s.control.microPc + 1}
    ensures MicroStep(dev, s).Stopped? ==>
      MicroStep(dev, s).state.control == s.control && !MicroStep(dev, s).reason.InvalidOpcode?
  {
  }

  lemma ComputingStep<D>(dev: Device<D>, s: State<D>, op: MicroOp, i: Instruction, at: Address, word: Word)
    requires SafeAt(s, at, word) && s.control.microPc >= |FETCH_DECODE| && Instruction.Decode(word) == Some(i)
    requires i.opcode !in {JnS, Store, Jump, SkipCond}
    requires s.control.CurrentOp() == Some(op) && Computes(op) && (i.opcode == Halt ==> op == Stop)
    ensures StepsWithin(dev, s, i, at, word)
  {
    MicroStepKeepsControl(dev, s);
    ComputingKeeps(dev, s, op);
  }

  lemma ExecuteStep<D>(dev: Device<D>, s: State<D>, i: Instruction, at: Address, word: Word)
    requires SafeAt(s, at, word) && s.control.microPc >= |FETCH_DECODE| && Instruction.Decode(word) == Some(i)
    requires i.opcode != JumpI && i.opcode != StoreI
    ensures StepsWithin(dev, s, i, at, word)
  {
    if i.opcode == JnS || i.opcode == Store {
      WritingStep(dev, s, i, at, word);
    } else if i.opcode == Jump || i.opcode == SkipCond {
      JumpingStep(dev, s, i, at, word);
    } else {
      var op := Execute(i.opcode)[s.control.microPc - |FETCH_DECODE|];
      assert s.control.CurrentOp() == Some(op);
      assert Computes(op) && (i.opcode == Halt ==> op == Stop);
      ComputingStep(dev, s, op, i, at, word);
    }
  }

  lemma WriteIsHarmless(g: Graph, memory: Memory, address: Address, v: Word)
    requires g.Ok() && Intact(g, memory) && Harmless(g, address)
    ensures Intact(g, memory[address := v])
  {
    forall i: nat | i < |g.kinds| && Reaches(g, i)
      ensures memory[address := v][g.origin + i] == g.words[i]
    {
      assert g.IndexOf(g.origin + i) == Some(i);
    }
  }

  /** The machine is in the cycle of the instruction at `at`, or about to start it. */
  ghost predicate InCycle(g: Graph, s: State, at: Address)
    requires g.Ok()
  {
    Intact(g, s.memory) && OnReachable(g, at) && SafeAt(s, at, g.words[at - g.origin])
  }

  lemma CycleIsSafe(g: Graph, s: State, at: Address)
    requires g.Ok() && InCycle(g, s, at)
    ensures Safe(g, s)
  {
  }

  lemma LandingIsSafe(g: Graph, s: State, i: Instruction, at: Address)
    requires g.Ok() && Intact(g, s.memory) && s.control.Ok() && s.control.microPc == 0
    requires i.opcode != Halt && StaysInside(g, i, at) && Lands(i, at, s.registers.pc)
    ensures Safe(g, s)
  {
    assert InCycle(g, s, s.registers.pc);
  }

  lemma FetchIsSafe<D>(dev: Device<D>, g: Graph, s: State<D>, at: Address)
    requires g.Ok() && InCycle(g, s, at) && s.control.microPc < |FETCH_DECODE|
    requires Instruction.Decode(g.words[at - g.origin]).Some?
    ensures MicroStep(dev, s).Executed? && Safe(g, MicroStep(dev, s).state)
  {
    assert s.memory[g.origin + (at - g.origin)] == g.words[at - g.origin];
    FetchStep(dev, s, at, g.words[at - g.origin]);
    CycleIsSafe(g, MicroStep(dev, s).state, at);
  }

  lemma ExecuteIsSafe<D>(dev: Device<D>, g: Graph, s: State<D>, at: Address, i: Instruction)
    requires g.Ok() && InCycle(g, s, at) && s.control.microPc >= |FETCH_DECODE|
    requires Instruction.Decode(g.words[at - g.origin]) == Some(i) && StaysInside(g, i, at)
    ensures Safe(g, MicroStep(dev, s).state)
    ensures MicroStep(dev, s).Stopped? ==> !MicroStep(dev, s).reason.InvalidOpcode?
  {
    ExecuteStep(dev, s, i, at, g.words[at - g.origin]);
    MicroStepKeepsControl(dev, s);
    var t := MicroStep(dev, s).state;
    if t.memory != s.memory {
      WriteIsHarmless(g, s.memory, i.operand, s.registers.mbr);
    }
    if MicroStep(dev, s).Executed? && t.control.microPc == 0 {
      LandingIsSafe(g, t, i, at);
    } else {
      CycleIsSafe(g, t, at);
    }
  }

  lemma MicroStepIsSafe<D>(dev: Device<D>, g: Graph, s: State<D>)
    requires g.Ok() && Clean(g) && Encodes(g) && Safe(g, s)
    ensures Safe(g, MicroStep(dev, s).state)
    ensures MicroStep(dev, s).Stopped? ==> !MicroStep(dev, s).reason.InvalidOpcode?
  {
    var at := if s.control.microPc == 0 then s.registers.pc else s.control.instructionAddress;
    ControlStaysInside(g, at);
    if s.control.microPc < |FETCH_DECODE| {
      FetchIsSafe(dev, g, s, at);
    } else {
      ExecuteIsSafe(dev, g, s, at, Instruction.Decode(g.words[at - g.origin]).value);
    }
  }

  /** Every micro-step keeps it, and under it no opcode is invalid. */
  ghost predicate Preserved<D(!new)>(dev: Device<D>, kept: State<D> -> bool) {
    forall s: State<D> {:trigger MicroStep(dev, s)} :: s.control.Ok() && kept(s) ==>
      && kept(MicroStep(dev, s).state)
      && (MicroStep(dev, s).Stopped? ==> !MicroStep(dev, s).reason.InvalidOpcode?)
  }

  lemma SafetyIsPreserved<D(!new)>(dev: Device<D>, g: Graph)
    requires g.Ok() && Clean(g) && Encodes(g)
    ensures Preserved(dev, (s: State<D>) => Safe(g, s))
  {
    forall s: State<D> | s.control.Ok() && Safe(g, s)
      ensures Safe(g, MicroStep(dev, s).state)
      ensures MicroStep(dev, s).Stopped? ==> !MicroStep(dev, s).reason.InvalidOpcode?
    {
      MicroStepIsSafe(dev, g, s);
    }
  }

  lemma ForwardKeeps<D(!new)>(dev: Device<D>, kept: State<D> -> bool, vm: Vm<D>)
    requires vm.Ok() && kept(vm.state) && Preserved(dev, kept)
    ensures Forward(dev, vm).0.Ok() && kept(Forward(dev, vm).0.state)
  {
    ForwardKeepsOk(dev, vm);
  }

  /** What every micro-step keeps, any number of them keeps. */
  lemma {:induction false} ReplayKeeps<D(!new)>(dev: Device<D>, kept: State<D> -> bool, vm: Vm<D>, n: nat) returns (end: Vm<D>)
    requires vm.Ok() && kept(vm.state) && Preserved(dev, kept)
    ensures end == Replay(dev, vm, n) && end.Ok() && kept(end.state)
    decreases n
  {
    end := vm;
    if n > 0 {
      ForwardKeeps(dev, kept, vm);
      end := ReplayKeeps(dev, kept, Forward(dev, vm).0, n - 1);
    }
  }

  /** So does an instruction. */
  lemma {:induction false} StepKeeps<D(!new)>(dev: Device<D>, kept: State<D> -> bool, vm: Vm<D>)
    requires vm.Ok() && kept(vm.state) && Preserved(dev, kept)
    ensures kept(Step(dev, vm).0.state) && (Step(dev, vm).1.Some? ==> !Step(dev, vm).1.value.InvalidOpcode?)
    decreases 10 - vm.state.control.microPc
  {
    ControlInvariant(vm.state.control);
    MicroStepKeepsControl(dev, vm.state);
    ForwardKeepsOk(dev, vm);
    var (vm', outcome) := Forward(dev, vm);
    ControlInvariant(vm'.state.control);
    if outcome.Ran? && vm'.state.control.microPc != 0 {
      StepKeeps(dev, kept, vm');
    }
  }

  /** So does a run, whatever its budget and its breakpoints, and it does not end on an invalid opcode. */
  lemma {:induction false} RunKeeps<D(!new)>(
    dev: Device<D>, kept: State<D> -> bool, vm: Vm<D>, bps: set<Address>, budget: nat, executed: nat)
    requires vm.Ok() && kept(vm.state) && Preserved(dev, kept)
    ensures var o := Run(dev, vm, bps, budget, executed);
      kept(o.vm.state) && !(o.end.Faulted? && o.end.fault.InvalidOpcode?)
    decreases budget - executed
  {
    if executed < budget {
      StepKeeps(dev, kept, vm);
      var (vm', stop) := Step(dev, vm);
      if stop.None? {
        RunKeeps(dev, kept, vm', bps, budget, executed + 1);
      }
    }
  }

  /** And slices, one after the other. */
  lemma {:induction false} SlicesKeep<D(!new)>(
    dev: Device<D>, kept: State<D> -> bool, vm: Vm<D>, bps: set<Address>, slice: nat, count: nat)
    requires vm.Ok() && kept(vm.state) && Preserved(dev, kept)
    ensures var o := Slices(dev, vm, bps, slice, count);
      kept(o.vm.state) && !(o.end.Faulted? && o.end.fault.InvalidOpcode?)
    decreases count
  {
    if count > 0 {
      RunKeepsOk(dev, vm, bps, slice, 0);
      RunKeeps(dev, kept, vm, bps, slice, 0);
      SlicesKeep(dev, kept, Run(dev, vm, bps, slice, 0).vm, bps, slice, count - 1);
    }
  }

  /** The program is in memory at its origin and the machine is about to run it. */
  ghost predicate Loaded(g: Graph, s: State)
    requires g.Ok()
  {
    && s.control.microPc == 0 && s.registers.pc == g.origin
    && forall i :: 0 <= i < |g.words| ==> s.memory[g.origin + i] == g.words[i]
  }

  lemma LoadedIsSafe(g: Graph, s: State)
    requires g.Ok() && Clean(g) && |g.kinds| > 0 && Loaded(g, s)
    ensures Safe(g, s)
  {
    ReachesStart(g);
    assert !FallsIntoData(g, 0);
  }

  /** Copying the words to the origin and pointing the machine there loads the program. */
  lemma LoadingLoads(g: Graph, s: State, t: State)
    requires g.Ok()
    requires t.memory == s.memory[..g.origin] + g.words + s.memory[g.origin + |g.words|..]
    requires t.registers.pc == g.origin && t.control.microPc == 0
    ensures Loaded(g, t)
  {
  }

  /** The lints the theorem needs to be silent. */
  predicate Silent(f: Findings) {
    f.intoData == [] && f.offEnd == [] && f.outside == [] && f.jnsOverwrites == [] && f.selfModifying == []
  }

  lemma SilenceIsClean(g: Graph, f: Findings)
    requires g.Ok() && g.Exact() && Reports(g, f) && Silent(f)
    ensures Clean(g)
  {
    forall i: nat
      ensures !FallsIntoData(g, i) && !FallsOffEnd(g, i) && !JumpsOutside(g, i)
      ensures !JnsOverwritesCode(g, i) && !SelfModifying(g, i)
    {
      assert i !in f.intoData && i !in f.offEnd && i !in f.outside;
      assert i !in f.jnsOverwrites && i !in f.selfModifying;
    }
  }

  /** The hypotheses of the theorem: an assembled, non-empty, exact program the lints say nothing about. */
  ghost predicate Linted(a: Assembly, f: Findings) {
    && a.Succeeded() && a.program.items != []
    && GraphOf(a).Ok() && GraphOf(a).Exact() && Reports(GraphOf(a), f) && Silent(f)
  }

  lemma LintedIsSafe(d: Dialect, source: string, f: Findings, s: State)
    requires Linted(Assemble(d, source), f) && Loaded(GraphOf(Assemble(d, source)), s)
    ensures var g := GraphOf(Assemble(d, source));
      Clean(g) && Encodes(g) && Safe(g, s)
  {
    AssembledProgramsEncode(d, source);
    SilenceIsClean(GraphOf(Assemble(d, source)), f);
    LoadedIsSafe(GraphOf(Assemble(d, source)), s);
  }

  /** Any number of micro-steps later it is still safe. */
  lemma LintedStaysSafe<D(!new)>(d: Dialect, source: string, f: Findings, dev: Device<D>, vm: Vm<D>, n: nat)
    requires Linted(Assemble(d, source), f) && vm.Ok() && Loaded(GraphOf(Assemble(d, source)), vm.state)
    ensures Replay(dev, vm, n).Ok() && Safe(GraphOf(Assemble(d, source)), Replay(dev, vm, n).state)
    ensures Clean(GraphOf(Assemble(d, source))) && Encodes(GraphOf(Assemble(d, source)))
  {
    var g := GraphOf(Assemble(d, source));
    LintedIsSafe(d, source, f, vm.state);
    SafetyIsPreserved(dev, g);
    var end := ReplayKeeps(dev, (s: State<D>) => Safe(g, s), vm, n);
  }

  /** What the theorem says of a machine in the middle of its run. */
  ghost predicate AsLinted<D>(dev: Device<D>, g: Graph, f: Findings, t: State<D>)
    requires g.Ok()
  {
    var at := if t.control.microPc == 0 then t.registers.pc else t.control.instructionAddress;
    && t.control.Ok()
    && OnReachable(g, at) && (at - g.origin) !in f.unreachable
    && (forall i: nat :: i < |g.kinds| && Reaches(g, i) ==> t.memory[g.origin + i] == g.words[i])
    && (MicroStep(dev, t).Stopped? ==> !MicroStep(dev, t).reason.InvalidOpcode?)
  }

  lemma SafeMeans<D>(dev: Device<D>, g: Graph, f: Findings, t: State<D>)
    requires g.Ok() && g.Exact() && Reports(g, f) && Clean(g) && Encodes(g) && Safe(g, t)
    ensures AsLinted(dev, g, f, t)
  {
    MicroStepIsSafe(dev, g, t);
  }

  /**
   Analyser soundness. If a non-empty program assembles, the graph is exact, and
   falls-into-data, falls-off-end, jumps-outside, jns-overwrites-code and
   self-modifying-code report nothing, then in every run from the origin, of any number of
   micro-steps, over any device and whatever else is in memory: each instruction boundary is
   on a reachable code word, and what is being executed was fetched from one, so nothing
   reported unreachable ever runs; no reachable word is ever overwritten; and no micro-step
   ever faults on an invalid opcode.
   */
  lemma LintsAreSound<D(!new)>(d: Dialect, source: string, f: Findings, dev: Device<D>, vm: Vm<D>, n: nat)
    requires Linted(Assemble(d, source), f) && vm.Ok() && Loaded(GraphOf(Assemble(d, source)), vm.state)
    ensures Replay(dev, vm, n).Ok() && AsLinted(dev, GraphOf(Assemble(d, source)), f, Replay(dev, vm, n).state)
  {
    LintedStaysSafe(d, source, f, dev, vm, n);
    SafeMeans(dev, GraphOf(Assemble(d, source)), f, Replay(dev, vm, n).state);
  }

  /**
   The same for the machine as it is run: whatever the budget and the breakpoints, the run
   ends with reachable code intact, on a reachable word or in the cycle of one, and not
   because of an invalid opcode.
   */
  lemma LintedRunsAreSafe<D(!new)>(
    d: Dialect, source: string, f: Findings, dev: Device<D>, vm: Vm<D>, bps: set<Address>, budget: nat)
    requires Linted(Assemble(d, source), f) && vm.Ok() && Loaded(GraphOf(Assemble(d, source)), vm.state)
    ensures var o := Run(dev, vm, bps, budget, 0);
      && Safe(GraphOf(Assemble(d, source)), o.vm.state)
      && !(o.end.Faulted? && o.end.fault.InvalidOpcode?)
  {
    var g := GraphOf(Assemble(d, source));
    LintedIsSafe(d, source, f, vm.state);
    SafetyIsPreserved(dev, g);
    RunKeeps(dev, (s: State<D>) => Safe(g, s), vm, bps, budget, 0);
  }

  /** The same for `continue` in the debugger, slice after slice. */
  lemma LintedSlicesAreSafe<D(!new)>(
    d: Dialect, source: string, f: Findings, dev: Device<D>, vm: Vm<D>, bps: set<Address>, slice: nat, count: nat)
    requires Linted(Assemble(d, source), f) && vm.Ok() && Loaded(GraphOf(Assemble(d, source)), vm.state)
    ensures var o := Slices(dev, vm, bps, slice, count);
      && Safe(GraphOf(Assemble(d, source)), o.vm.state)
      && !(o.end.Faulted? && o.end.fault.InvalidOpcode?)
  {
    var g := GraphOf(Assemble(d, source));
    LintedIsSafe(d, source, f, vm.state);
    SafetyIsPreserved(dev, g);
    SlicesKeep(dev, (s: State<D>) => Safe(g, s), vm, bps, slice, count);
  }
}
