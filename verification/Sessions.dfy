/**
 Whole debugging sessions: any interleaving of micro-steps forwards and backwards, with
 the journal limit changed and the journal cleared along the way
 (crates/lib/mrs-vm/src/lib.rs:651-832, crates/lib/mrs-vm/src/history.rs:109-171).
 */
module Sessions {
  import opened Words
  import opened Microcode
  import opened Devices
  import opened Machine

  /** A micro-operation that was executed, and the whole machine it was executed from. */
  datatype Moment<D> = Moment(state: State<D>, entry: Entry)

  datatype Action = StepForward | StepBackward | SetLimit(limit: nat) | ClearJournal

  /** `past` is the ideal, unbounded undo stack: it never forgets, whatever the journal does. */
  datatype Session<D> = Session(vm: Vm<D>, past: seq<Moment<D>>)

  function Act<D>(dev: Device<D>, s: Session<D>, a: Action): Session<D>
    requires s.vm.Ok()
  {
    match a
    case StepForward =>
      var past := match MicroStep(dev, s.vm.state)
                  case Executed(_, entry) => s.past + [Moment(s.vm.state, entry)]
                  case Stopped(_, _) => s.past;
      Session(Forward(dev, s.vm).0, past)
    case StepBackward =>
      var (vm, result) := Backward(dev, s.vm);
      Session(vm, if result.Reversed? && s.past != [] then s.past[..|s.past| - 1] else s.past)
    case SetLimit(limit) => s.(vm := s.vm.(journal := Shrunk(s.vm.journal, limit), limit := limit))
    case ClearJournal => s.(vm := s.vm.(journal := []))
  }

  lemma ActKeepsOk<D>(dev: Device<D>, s: Session<D>, a: Action)
    requires s.vm.Ok()
    ensures Act(dev, s, a).vm.Ok()
  {
    ForwardKeepsOk(dev, s.vm);
    BackwardKeepsOk(dev, s.vm);
  }

  function Play<D>(dev: Device<D>, s: Session<D>, actions: seq<Action>): (r: Session<D>)
    requires s.vm.Ok()
    ensures r.vm.Ok()
    decreases |actions|
  {
    if actions == [] then s
    else
      ActKeepsOk(dev, s, actions[0]);
      Play(dev, Act(dev, s, actions[0]), actions[1..])
  }

  /** Polling and output keep the device fitting, and telling it of a write and of the write back leaves it as it was. */
  ghost predicate StaysFitting<D>(
    dev: Device<D>, fits: (D, Memory) -> bool, d: D, memory: Memory, address: Address, v: Word)
  {
    var after := Notify(dev, d, address, memory[address], v);
    && fits(dev.poll(d).0, memory) && fits(dev.output(d, v).0, memory)
    && fits(after, memory[address := v]) && Notify(dev, after, address, v, memory[address]) == d
  }

  /**
   What undoing a write asks of a device that draws: as long as what it shows `fits` memory,
   a write and its undoing cancel, and it goes on fitting. A device that has no display hook
   fits every memory; `DisplayShadow` has one that shows the top of it.
   */
  ghost predicate Redraws<D(!new)>(dev: Device<D>, fits: (D, Memory) -> bool) {
    forall d, memory, address, v :: fits(d, memory) ==> StaysFitting(dev, fits, d, memory, address, v)
  }

  function AnyMemory<D>(): (D, Memory) -> bool {
    (d: D, memory: Memory) => true
  }

  lemma IgnoringIsRedrawing<D(!new)>(dev: Device<D>)
    requires IgnoresDisplay(dev)
    ensures Redraws(dev, AnyMemory())
  {
  }

  /** Each moment of the past is one micro-operation before the next, and the last one before now. */
  ghost predicate Chain<D>(dev: Device<D>, fits: (D, Memory) -> bool, past: seq<Moment<D>>, now: State<D>) {
    && fits(now.device, now.memory)
    && (past == [] ||
        var last := past[|past| - 1];
        && last.state.control.Ok()
        && MicroStep(dev, last.state) == Executed(now, last.entry)
        && Chain(dev, fits, past[..|past| - 1], last.state))
  }

  /** The journal is a suffix of the ideal undo stack. */
  ghost predicate IsSuffix<D>(journal: seq<Entry>, past: seq<Moment<D>>) {
    && |journal| <= |past|
    && forall i :: 0 <= i < |journal| ==> journal[i] == past[|past| - |journal| + i].entry
  }

  ghost predicate Sound<D>(dev: Device<D>, fits: (D, Memory) -> bool, s: Session<D>) {
    s.vm.Ok() && IsSuffix(s.vm.journal, s.past) && Chain(dev, fits, s.past, s.vm.state)
  }

  /** The machine `k` executed micro-operations ago. */
  function Ago<D>(s: Session<D>, k: nat): State<D>
    requires k <= |s.past|
  {
    if k == 0 then s.vm.state else s.past[|s.past| - k].state
  }

  /** Every machine of the past fits its memory. */
  lemma {:induction false} ChainFits<D>(
    dev: Device<D>, fits: (D, Memory) -> bool, past: seq<Moment<D>>, now: State<D>, k: nat)
    requires Chain(dev, fits, past, now) && k <= |past|
    ensures var s := if k == 0 then now else past[|past| - k].state;
      fits(s.device, s.memory)
    decreases |past|
  {
    if k > 0 {
      ChainFits(dev, fits, past[..|past| - 1], past[|past| - 1].state, k - 1);
    }
  }

  // ----- one step -----

  /** An operation and its undoing, whatever the latches are by then and were before. */
  lemma PerformThenUndo<D(!new)>(
    dev: Device<D>, fits: (D, Memory) -> bool, s: State<D>, op: MicroOp, now: Control, before: Control)
    requires Honest(dev) && Redraws(dev, fits) && fits(s.device, s.memory)
    requires s.control.Ok() && s.control.CurrentOp() == Some(op) && Perform(dev, s, op).Done?
    ensures var Done(t, effect) := Perform(dev, s, op);
      var undone := Undo(dev, t.(control := now), Entry(before, op, effect));
      && fits(t.device, t.memory)
      && (undone == Undone(s.(control := before))
          || exists error :: error != NoHistory && undone == CannotUndo(t.device, error))
      && (Rewindable(dev) ==> undone == Undone(s.(control := before)))
  {
    var Done(t, effect) := Perform(dev, s, op);
    var undone := Undo(dev, t.(control := now), Entry(before, op, effect));
    match op {
      case WriteMemory =>
        var mar := s.registers.mar;
        assert StaysFitting(dev, fits, s.device, s.memory, mar, s.registers.mbr);
        assert t.memory[mar := s.memory[mar]] == s.memory;
      case ReadInput =>
        var (after, answer) := dev.poll(s.device);
        assert StaysFitting(dev, fits, s.device, s.memory, 0, 0);
        assert dev.unread(after, answer.value) in {(s.device, true), (after, false)};
        if !dev.unread(after, answer.value).1 {
          assert undone == CannotUndo(t.device, IrreversibleInput);
        }
      case WriteOutput =>
        var (after, error) := dev.output(s.device, s.registers.output);
        assert StaysFitting(dev, fits, s.device, s.memory, 0, s.registers.output);
        assert dev.unwrite(after, s.registers.output) in {(s.device, true), (after, false)};
        if !dev.unwrite(after, s.registers.output).1 {
          assert undone == CannotUndo(t.device, IrreversibleOutput);
        }
      case _ =>
    }
  }

  /**
   The heart of reverse execution: undoing what a micro-operation did restores registers,
   memory, control latches and device exactly, or is refused with nothing touched.
   */
  lemma MicroStepThenUndo<D(!new)>(dev: Device<D>, fits: (D, Memory) -> bool, s: State<D>)
    requires Honest(dev) && Redraws(dev, fits) && fits(s.device, s.memory)
    requires s.control.Ok() && MicroStep(dev, s).Executed?
    ensures fits(MicroStep(dev, s).state.device, MicroStep(dev, s).state.memory)
    ensures var Executed(t, e) := MicroStep(dev, s);
      && (Undo(dev, t, e) == Undone(s)
          || exists error :: error != NoHistory && Undo(dev, t, e) == CannotUndo(t.device, error))
      && (Rewindable(dev) ==> Undo(dev, t, e) == Undone(s))
  {
    ControlInvariant(s.control);
    var Executed(t, e) := MicroStep(dev, s);
    PerformThenUndo(dev, fits, Latched(s), e.op, t.control, s.control);
  }

  /** A micro-operation that stops, for whatever reason, leaves the machine as it was, and an honest device too. */
  lemma StoppedChangesNothing<D(!new)>(dev: Device<D>, s: State<D>)
    requires Honest(dev) && s.control.Ok() && MicroStep(dev, s).Stopped?
    ensures MicroStep(dev, s).state == s
  {
    ControlInvariant(s.control);
    var (after, answer) := dev.poll(s.device);
    var (after', error) := dev.output(s.device, s.registers.output);
  }

  /** One step back in a sound session: exactly the previous machine, or untouched. */
  lemma BackwardIsExact<D(!new)>(dev: Device<D>, fits: (D, Memory) -> bool, s: Session<D>)
    requires Honest(dev) && Redraws(dev, fits) && Sound(dev, fits, s)
    ensures var (vm, result) := Backward(dev, s.vm);
      && (result == NotReversed(NoHistory) <==> s.vm.journal == [])
      && (result.NotReversed? ==> vm == s.vm)
      && (result.Reversed? ==>
            vm == Vm(Ago(s, 1), s.vm.journal[..|s.vm.journal| - 1], s.vm.limit))
      && (Rewindable(dev) && s.vm.journal != [] ==> result.Reversed?)
  {
    if s.vm.journal != [] {
      assert Chain(dev, fits, s.past[..|s.past| - 1], s.past[|s.past| - 1].state);
      MicroStepThenUndo(dev, fits, s.past[|s.past| - 1].state);
    }
  }

  lemma DroppingKeepsSuffix<D>(journal: seq<Entry>, past: seq<Moment<D>>)
    requires IsSuffix(journal, past) && journal != []
    ensures IsSuffix(journal[1..], past)
  {
    var rest := journal[1..];
    forall i | 0 <= i < |rest|
      ensures rest[i] == past[|past| - |rest| + i].entry
    {
      assert rest[i] == journal[i + 1];
    }
  }

  lemma AppendingKeepsSuffix<D>(journal: seq<Entry>, past: seq<Moment<D>>, m: Moment<D>)
    requires IsSuffix(journal, past)
    ensures IsSuffix(journal + [m.entry], past + [m])
  {
    var longer, later, apart := journal + [m.entry], past + [m], |past| - |journal|;
    forall i | 0 <= i < |longer|
      ensures longer[i] == later[apart + i].entry
    {
      if i < |journal| {
        assert later[apart + i] == past[apart + i];
      }
    }
  }

  lemma RecordingKeepsSuffix<D>(journal: seq<Entry>, limit: nat, past: seq<Moment<D>>, m: Moment<D>)
    requires IsSuffix(journal, past) && |journal| <= limit
    ensures IsSuffix(Recorded(journal, limit, m.entry), past + [m])
  {
    if limit > 0 {
      if |journal| == limit {
        DroppingKeepsSuffix(journal, past);
        AppendingKeepsSuffix(journal[1..], past, m);
      } else {
        AppendingKeepsSuffix(journal, past, m);
      }
    }
  }

  lemma ChainGrows<D>(dev: Device<D>, fits: (D, Memory) -> bool, past: seq<Moment<D>>, m: Moment<D>, now: State<D>)
    requires Chain(dev, fits, past, m.state) && fits(now.device, now.memory)
    requires m.state.control.Ok() && MicroStep(dev, m.state) == Executed(now, m.entry)
    ensures Chain(dev, fits, past + [m], now)
  {
    assert (past + [m])[..|past + [m]| - 1] == past;
  }

  lemma PushKeepsSound<D(!new)>(dev: Device<D>, fits: (D, Memory) -> bool, s: Session<D>)
    requires Honest(dev) && Redraws(dev, fits) && Sound(dev, fits, s) && MicroStep(dev, s.vm.state).Executed?
    ensures Sound(dev, fits, Act(dev, s, StepForward))
  {
    ForwardKeepsOk(dev, s.vm);
    MicroStepThenUndo(dev, fits, s.vm.state);
    var Executed(now, entry) := MicroStep(dev, s.vm.state);
    var m := Moment(s.vm.state, entry);
    RecordingKeepsSuffix(s.vm.journal, s.vm.limit, s.past, m);
    ChainGrows(dev, fits, s.past, m, now);
  }

  lemma ForwardKeepsSound<D(!new)>(dev: Device<D>, fits: (D, Memory) -> bool, s: Session<D>)
    requires Honest(dev) && Redraws(dev, fits) && Sound(dev, fits, s)
    ensures Sound(dev, fits, Act(dev, s, StepForward))
  {
    if MicroStep(dev, s.vm.state).Executed? {
      PushKeepsSound(dev, fits, s);
    } else {
      ForwardKeepsOk(dev, s.vm);
      StoppedChangesNothing(dev, s.vm.state);
    }
  }

  lemma PopKeepsSound<D(!new)>(dev: Device<D>, fits: (D, Memory) -> bool, s: Session<D>)
    requires Sound(dev, fits, s) && s.vm.journal != []
    ensures IsSuffix(s.vm.journal[..|s.vm.journal| - 1], s.past[..|s.past| - 1])
    ensures Chain(dev, fits, s.past[..|s.past| - 1], Ago(s, 1))
  {
  }

  lemma BackwardKeepsSound<D(!new)>(dev: Device<D>, fits: (D, Memory) -> bool, s: Session<D>)
    requires Honest(dev) && Redraws(dev, fits) && Sound(dev, fits, s)
    ensures Sound(dev, fits, Act(dev, s, StepBackward))
  {
    BackwardKeepsOk(dev, s.vm);
    BackwardIsExact(dev, fits, s);
    if s.vm.journal != [] {
      PopKeepsSound(dev, fits, s);
    }
  }

  lemma ActKeepsSound<D(!new)>(dev: Device<D>, fits: (D, Memory) -> bool, s: Session<D>, a: Action)
    requires Honest(dev) && Redraws(dev, fits) && Sound(dev, fits, s)
    ensures Sound(dev, fits, Act(dev, s, a))
  {
    match a {
      case StepForward => ForwardKeepsSound(dev, fits, s);
      case StepBackward => BackwardKeepsSound(dev, fits, s);
      case _ =>
    }
  }

  // ----- whole histories -----

  lemma {:induction false} PlayKeepsSound<D(!new)>(dev: Device<D>, fits: (D, Memory) -> bool, s: Session<D>, actions: seq<Action>)
    requires Honest(dev) && Redraws(dev, fits) && Sound(dev, fits, s)
    ensures Sound(dev, fits, Play(dev, s, actions))
    decreases |actions|
  {
    if actions != [] {
      ActKeepsSound(dev, fits, s, actions[0]);
      PlayKeepsSound(dev, fits, Act(dev, s, actions[0]), actions[1..]);
    }
  }

  /** `k` steps back, stopping at the first that fails. */
  function Rewind<D>(dev: Device<D>, vm: Vm<D>, k: nat): Vm<D>
    decreases k
  {
    if k == 0 then vm else Rewind(dev, Backward(dev, vm).0, k - 1)
  }

  /** `k` steps forward. */
  function Replay<D>(dev: Device<D>, vm: Vm<D>, k: nat): Vm<D>
    requires vm.Ok()
    decreases k
  {
    if k == 0 then vm
    else
      ForwardKeepsOk(dev, vm);
      Replay(dev, Forward(dev, vm).0, k - 1)
  }

  /** `earlier` is `s` less its last moment and its last entry, at the machine of that moment. */
  ghost predicate OneBack<D>(s: Session<D>, earlier: Session<D>) {
    && s.past != [] && earlier.past == s.past[..|s.past| - 1]
    && s.vm.journal != [] && earlier.vm.journal == s.vm.journal[..|s.vm.journal| - 1]
    && earlier.vm.limit == s.vm.limit && earlier.vm.state == Ago(s, 1)
  }

  /** The session one accepted step back. */
  lemma Retreat<D(!new)>(dev: Device<D>, fits: (D, Memory) -> bool, s: Session<D>) returns (earlier: Session<D>)
    requires Honest(dev) && Redraws(dev, fits) && Sound(dev, fits, s) && Backward(dev, s.vm).1.Reversed?
    ensures earlier == Act(dev, s, StepBackward) && earlier.vm == Backward(dev, s.vm).0
    ensures Sound(dev, fits, earlier) && OneBack(s, earlier)
  {
    BackwardIsExact(dev, fits, s);
    ActKeepsSound(dev, fits, s, StepBackward);
    earlier := Act(dev, s, StepBackward);
  }

  /** What is left of the journal after `k` more undos, seen from one undo ago and from now. */
  lemma LessJournal<T>(journal: seq<T>, k: nat)
    requires 0 < k <= |journal|
    ensures var shorter := journal[..|journal| - 1];
      shorter[..|shorter| - (k - 1)] == journal[..|journal| - k]
  {
  }

  /** The machine of `k` micro-operations ago, with what is left of the journal. */
  ghost predicate Landed<D>(s: Session<D>, k: nat, vm: Vm<D>) {
    && k <= |s.vm.journal| <= |s.past|
    && vm == Vm(Ago(s, k), s.vm.journal[..|s.vm.journal| - k], s.vm.limit)
  }

  lemma LandedEarlier<D>(s: Session<D>, s': Session<D>, k: nat, vm: Vm<D>)
    requires OneBack(s, s') && Landed(s', k, vm)
    ensures Landed(s, k + 1, vm)
  {
    LessJournal(s.vm.journal, k + 1);
  }

  lemma CanRetreat<D(!new)>(dev: Device<D>, fits: (D, Memory) -> bool, s: Session<D>)
    requires Rewindable(dev) && Redraws(dev, fits) && Sound(dev, fits, s) && s.vm.journal != []
    ensures Backward(dev, s.vm).1.Reversed?
  {
    BackwardIsExact(dev, fits, s);
  }

  /** Each of the next `k` steps back is accepted and exact. */
  ghost predicate Unwinds<D>(dev: Device<D>, s: Session<D>, k: nat)
    decreases k
  {
    && s.vm.Ok() && |s.vm.journal| <= |s.past|
    && (k > 0 ==>
          var earlier := Act(dev, s, StepBackward);
          OneBack(s, earlier) && earlier.vm == Backward(dev, s.vm).0 && Unwinds(dev, earlier, k - 1))
  }

  lemma {:induction false} SoundUnwinds<D(!new)>(dev: Device<D>, fits: (D, Memory) -> bool, s: Session<D>, k: nat)
    requires Rewindable(dev) && Redraws(dev, fits) && Sound(dev, fits, s) && k <= |s.vm.journal|
    ensures Unwinds(dev, s, k)
    decreases k
  {
    if k > 0 {
      CanRetreat(dev, fits, s);
      var earlier := Retreat(dev, fits, s);
      SoundUnwinds(dev, fits, earlier, k - 1);
    }
  }

  lemma {:induction false} UnwindingLands<D>(dev: Device<D>, s: Session<D>, k: nat)
    requires Unwinds(dev, s, k)
    ensures Landed(s, k, Rewind(dev, s.vm, k))
    decreases k
  {
    if k == 0 {
      assert s.vm.journal[..|s.vm.journal| - 0] == s.vm.journal;
    } else {
      var earlier := Act(dev, s, StepBackward);
      UnwindingLands(dev, earlier, k - 1);
      LandedEarlier(s, earlier, k - 1, Rewind(dev, earlier.vm, k - 1));
    }
  }

  lemma RewindIsExact<D(!new)>(dev: Device<D>, fits: (D, Memory) -> bool, s: Session<D>, k: nat)
    requires Rewindable(dev) && Redraws(dev, fits) && Sound(dev, fits, s) && k <= |s.vm.journal|
    ensures Rewind(dev, s.vm, k) == Vm(Ago(s, k), s.vm.journal[..|s.vm.journal| - k], s.vm.limit)
  {
    SoundUnwinds(dev, fits, s, k);
    UnwindingLands(dev, s, k);
  }

  /**
   Reverse execution over whole histories. From any machine with an empty journal, after
   any interleaving of steps forwards and backwards and changes of the limit: the journal
   is a suffix of the ideal undo stack, no longer than the limit; each of its undos lands
   on the machine of that many micro-operations ago; and `NoHistory` is the answer exactly
   when nothing is left of it.
   */
  lemma ReverseExecution<D(!new)>(dev: Device<D>, fits: (D, Memory) -> bool, start: Vm<D>, actions: seq<Action>)
    requires Rewindable(dev) && Redraws(dev, fits)
    requires start.Ok() && start.journal == [] && fits(start.state.device, start.state.memory)
    ensures var s := Play(dev, Session(start, []), actions);
      && |s.vm.journal| <= s.vm.limit
      && IsSuffix(s.vm.journal, s.past)
      && (forall k :: 0 <= k <= |s.vm.journal| ==>
            Rewind(dev, s.vm, k) == Vm(Ago(s, k), s.vm.journal[..|s.vm.journal| - k], s.vm.limit))
      && (Backward(dev, s.vm).1 == NotReversed(NoHistory) <==> s.vm.journal == [])
      && (s.vm.journal != [] ==> Backward(dev, s.vm).1.Reversed?)
  {
    PlayKeepsSound(dev, fits, Session(start, []), actions);
    var s := Play(dev, Session(start, []), actions);
    forall k | 0 <= k <= |s.vm.journal|
      ensures Rewind(dev, s.vm, k) == Vm(Ago(s, k), s.vm.journal[..|s.vm.journal| - k], s.vm.limit)
    {
      RewindIsExact(dev, fits, s, k);
    }
    BackwardIsExact(dev, fits, s);
  }

  /** A step back undoes a step forward; the journal gets back all it had unless it was full. */
  lemma ForwardThenBackward<D(!new)>(dev: Device<D>, fits: (D, Memory) -> bool, vm: Vm<D>)
    requires Rewindable(dev) && Redraws(dev, fits)
    requires vm.Ok() && fits(vm.state.device, vm.state.memory) && vm.limit > 0 && Forward(dev, vm).1.Ran?
    ensures Backward(dev, Forward(dev, vm).0) ==
      (vm.(journal := if |vm.journal| == vm.limit then vm.journal[1..] else vm.journal),
       Reversed(Forward(dev, vm).1.op))
  {
    MicroStepThenUndo(dev, fits, vm.state);
  }

  lemma BackwardThenForward<D(!new)>(dev: Device<D>, fits: (D, Memory) -> bool, s: Session<D>)
    requires Rewindable(dev) && Redraws(dev, fits) && Sound(dev, fits, s) && s.vm.journal != []
    ensures Backward(dev, s.vm).0.Ok() && Forward(dev, Backward(dev, s.vm).0).0 == s.vm
  {
    BackwardIsExact(dev, fits, s);
    BackwardKeepsOk(dev, s.vm);
    var n := |s.vm.journal|;
    assert s.vm.journal[..n - 1] + [s.vm.journal[n - 1]] == s.vm.journal;
  }

  lemma {:induction false} ReplayKeepsOk<D>(dev: Device<D>, vm: Vm<D>, k: nat)
    requires vm.Ok()
    ensures Replay(dev, vm, k).Ok()
    decreases k
  {
    if k > 0 {
      ForwardKeepsOk(dev, vm);
      ReplayKeepsOk(dev, Forward(dev, vm).0, k - 1);
    }
  }

  lemma {:induction false} ReplayOneMore<D>(dev: Device<D>, vm: Vm<D>, k: nat)
    requires vm.Ok()
    ensures Replay(dev, vm, k).Ok() && Replay(dev, vm, k + 1) == Forward(dev, Replay(dev, vm, k)).0
    decreases k
  {
    ReplayKeepsOk(dev, vm, k);
    ForwardKeepsOk(dev, vm);
    if k > 0 {
      ReplayOneMore(dev, Forward(dev, vm).0, k - 1);
    }
  }

  /** `k` steps back and `k` steps forward again. */
  function Redone<D>(dev: Device<D>, vm: Vm<D>, k: nat): Option<Vm<D>> {
    var earliest := Rewind(dev, vm, k);
    if earliest.Ok() then Some(Replay(dev, earliest, k)) else None
  }

  /** If `k` undos from `t` can be redone, and one more step leads on to `u`, so can one more. */
  lemma RedoneOneEarlier<D>(dev: Device<D>, t: Vm<D>, u: Vm<D>, k: nat)
    requires Redone(dev, t, k) == Some(t)
    requires t == Backward(dev, u).0 && t.Ok() && Forward(dev, t).0 == u
    ensures Redone(dev, u, k + 1) == Some(u)
  {
    assert Rewind(dev, u, k + 1) == Rewind(dev, t, k);
    ReplayOneMore(dev, Rewind(dev, t, k), k);
  }

  lemma StepThereAndBack<D(!new)>(dev: Device<D>, fits: (D, Memory) -> bool, s: Session<D>) returns (s': Session<D>)
    requires Rewindable(dev) && Redraws(dev, fits) && Sound(dev, fits, s) && s.vm.journal != []
    ensures Sound(dev, fits, s') && |s'.vm.journal| == |s.vm.journal| - 1
    ensures s'.vm == Backward(dev, s.vm).0 && Forward(dev, s'.vm).0 == s.vm
  {
    CanRetreat(dev, fits, s);
    s' := Retreat(dev, fits, s);
    BackwardThenForward(dev, fits, s);
  }

  /** Each of the next `k` steps back can be taken again. */
  ghost predicate Retraceable<D>(dev: Device<D>, vm: Vm<D>, k: nat)
    decreases k
  {
    && vm.Ok()
    && (k > 0 ==>
          var earlier := Backward(dev, vm).0;
          earlier.Ok() && Forward(dev, earlier).0 == vm && Retraceable(dev, earlier, k - 1))
  }

  lemma {:induction false} SoundIsRetraceable<D(!new)>(dev: Device<D>, fits: (D, Memory) -> bool, s: Session<D>, k: nat)
    requires Rewindable(dev) && Redraws(dev, fits) && Sound(dev, fits, s) && k <= |s.vm.journal|
    ensures Retraceable(dev, s.vm, k)
    decreases k
  {
    if k > 0 {
      var s' := StepThereAndBack(dev, fits, s);
      SoundIsRetraceable(dev, fits, s', k - 1);
    }
  }

  lemma {:induction false} RetraceableIsRedone<D>(dev: Device<D>, vm: Vm<D>, k: nat)
    requires Retraceable(dev, vm, k)
    ensures Redone(dev, vm, k) == Some(vm)
    decreases k
  {
    if k > 0 {
      var earlier := Backward(dev, vm).0;
      RetraceableIsRedone(dev, earlier, k - 1);
      RedoneOneEarlier(dev, earlier, vm, k - 1);
    }
  }

  lemma SoundIsRedone<D(!new)>(dev: Device<D>, fits: (D, Memory) -> bool, s: Session<D>, k: nat)
    requires Rewindable(dev) && Redraws(dev, fits) && Sound(dev, fits, s) && k <= |s.vm.journal|
    ensures Rewind(dev, s.vm, k).Ok() && Replay(dev, Rewind(dev, s.vm, k), k) == s.vm
  {
    SoundIsRetraceable(dev, fits, s, k);
    RetraceableIsRedone(dev, s.vm, k);
    assert Redone(dev, s.vm, k) == Some(s.vm);
  }

  /**
   Rewinding loses nothing. After any session from a machine with an empty journal, undoing
   `k` recorded micro-operations and running `k` again gives the same machine and journal.
   */
  lemma RewindThenReplay<D(!new)>(
    dev: Device<D>, fits: (D, Memory) -> bool, start: Vm<D>, actions: seq<Action>, k: nat)
    requires Rewindable(dev) && Redraws(dev, fits)
    requires start.Ok() && start.journal == [] && fits(start.state.device, start.state.memory)
    ensures var vm := Play(dev, Session(start, []), actions).vm;
      k <= |vm.journal| ==> Rewind(dev, vm, k).Ok() && Replay(dev, Rewind(dev, vm, k), k) == vm
  {
    PlayKeepsSound(dev, fits, Session(start, []), actions);
    var s := Play(dev, Session(start, []), actions);
    if k <= |s.vm.journal| {
      SoundIsRedone(dev, fits, s, k);
    }
  }

  // ----- instruction cycles -----

  datatype StepBackResult = Rewound(undone: nat) | Interrupted(error: StepBackError)

  /** Undoes until the counter is zero or an undo fails, counting what it undid. */
  function StepBack<D>(dev: Device<D>, vm: Vm<D>, undone: nat): (Vm<D>, StepBackResult)
    decreases |vm.journal|
  {
    var (vm', result) := Backward(dev, vm);
    if result.NotReversed? then (vm', Interrupted(result.error))
    else if vm'.state.control.microPc == 0 then (vm', Rewound(undone + 1))
    else StepBack(dev, vm', undone + 1)
  }

  /** How many micro-operations a step back from here should undo. */
  function CycleSoFar(c: Control): nat {
    if c.microPc == 0 then c.Length() else c.microPc
  }

  /** No operation moves the counter, and the cycle it leaves in force is not over yet. */
  lemma CounterInCycle<D>(dev: Device<D>, s: State<D>, op: MicroOp)
    requires s.control.Ok() && s.control.CurrentOp() == Some(op) && Perform(dev, s, op).Done?
    ensures var c := Perform(dev, s, op).state.control;
      c.microPc == s.control.microPc && c.microPc < c.Length()
  {
    if s.control.microPc >= |FETCH_DECODE| {
      assert op == Execute(s.control.decoded.value.opcode)[s.control.microPc - |FETCH_DECODE|];
      assert op != DecodeIr;
    }
  }

  /** Along a run the counter counts up within a cycle, and a cycle ends at the decoded instruction's length. */
  lemma PreviousCounter<D>(dev: Device<D>, fits: (D, Memory) -> bool, s: Session<D>)
    requires Sound(dev, fits, s) && s.past != []
    ensures Ago(s, 1).control.microPc + 1 == CycleSoFar(s.vm.state.control)
  {
    var last := s.past[|s.past| - 1].state;
    ControlInvariant(last.control);
    CounterInCycle(dev, Latched(last), last.control.CurrentOp().value);
  }

  /** A step back stops at the boundary where the counter says it is, or at the first undo that fails. */
  ghost predicate StepsBackTo<D(!new)>(dev: Device<D>, s: Session<D>, undone: nat, vm: Vm<D>, result: StepBackResult) {
    var cycle := CycleSoFar(s.vm.state.control);
    && (result.Rewound? ==> Landed(s, cycle, vm) && result.undone == undone + cycle && vm.state.control.microPc == 0)
    && (result.Interrupted? ==>
          exists k: nat :: k < cycle && Landed(s, k, vm) && (result.error == NoHistory <==> k == |s.vm.journal|))
    && (Rewindable(dev) ==> (result.Rewound? <==> cycle <= |s.vm.journal|))
  }

  lemma FirstUndoFails<D(!new)>(dev: Device<D>, fits: (D, Memory) -> bool, s: Session<D>, undone: nat)
    requires Honest(dev) && Redraws(dev, fits) && Sound(dev, fits, s) && Backward(dev, s.vm).1.NotReversed?
    ensures var (vm, result) := StepBack(dev, s.vm, undone);
      StepsBackTo(dev, s, undone, vm, result)
  {
    BackwardIsExact(dev, fits, s);
    var n := |s.vm.journal|;
    assert s.vm.journal[..n - 0] == s.vm.journal;
    assert Landed(s, 0, s.vm);
    ControlInvariant(s.vm.state.control);
  }

  lemma {:induction false} StepBackWithin<D(!new)>(dev: Device<D>, fits: (D, Memory) -> bool, s: Session<D>, undone: nat)
    requires Honest(dev) && Redraws(dev, fits) && Sound(dev, fits, s)
    ensures var (vm, result) := StepBack(dev, s.vm, undone);
      StepsBackTo(dev, s, undone, vm, result)
    decreases |s.vm.journal|
  {
    if Backward(dev, s.vm).1.NotReversed? {
      FirstUndoFails(dev, fits, s, undone);
    } else {
      var s' := Retreat(dev, fits, s);
      PreviousCounter(dev, fits, s);
      if s'.vm.state.control.microPc == 0 {
        assert s'.vm.journal[..|s'.vm.journal| - 0] == s'.vm.journal;
        LandedEarlier(s, s', 0, s'.vm);
      } else {
        StepBackWithin(dev, fits, s', undone + 1);
        var (vm, result) := StepBack(dev, s'.vm, undone + 1);
        OneUndoMore(dev, s, s', undone, vm, result);
      }
    }
  }

  lemma OneUndoMore<D(!new)>(
    dev: Device<D>, s: Session<D>, s': Session<D>, undone: nat, vm: Vm<D>, result: StepBackResult)
    requires OneBack(s, s')
    requires CycleSoFar(s'.vm.state.control) + 1 == CycleSoFar(s.vm.state.control)
    requires StepsBackTo(dev, s', undone + 1, vm, result)
    ensures StepsBackTo(dev, s, undone, vm, result)
  {
    if result.Rewound? {
      LandedEarlier(s, s', CycleSoFar(s'.vm.state.control), vm);
    } else {
      var k: nat :| k < CycleSoFar(s'.vm.state.control) && Landed(s', k, vm)
        && (result.error == NoHistory <==> k == |s'.vm.journal|);
      LandedEarlier(s, s', k, vm);
    }
  }

  /**
   The journal segments into instruction cycles. From a boundary `step_back` undoes
   exactly the cycle of the instruction that ran last and lands on the machine that
   instruction started from; part-way through it undoes as many micro-operations as the
   counter says. It fails only when the journal is shorter than that or the device
   refuses, and then the machine is one it passed through on the way.
   */
  lemma StepBackUndoesOneCycle<D(!new)>(dev: Device<D>, fits: (D, Memory) -> bool, start: Vm<D>, actions: seq<Action>)
    requires Honest(dev) && Redraws(dev, fits)
    requires start.Ok() && start.journal == [] && fits(start.state.device, start.state.memory)
    ensures var s := Play(dev, Session(start, []), actions);
      var c := s.vm.state.control;
      var (vm, result) := StepBack(dev, s.vm, 0);
      && IsSuffix(s.vm.journal, s.past)
      && (result.Rewound? ==>
            && result.undone == (if c.microPc == 0 then c.Length() else c.microPc)
            && result.undone <= |s.vm.journal|
            && vm == Vm(Ago(s, result.undone), s.vm.journal[..|s.vm.journal| - result.undone], s.vm.limit)
            && vm.state.control.microPc == 0)
      && (result.Interrupted? ==> exists k :: 0 <= k <= |s.vm.journal| && vm.state == Ago(s, k))
      && (Rewindable(dev) ==>
            (result.Rewound? <==> (if c.microPc == 0 then c.Length() else c.microPc) <= |s.vm.journal|))
  {
    PlayKeepsSound(dev, fits, Session(start, []), actions);
    StepBackWithin(dev, fits, Play(dev, Session(start, []), actions), 0);
  }
}
