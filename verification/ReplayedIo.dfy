/**
 Input and output are conserved by whole sessions, on the scripted device and, through a
 simulation, on the debugger's two-queue device over a terminal
 (crates/lib/mrs-vm/src/io.rs:297-322, crates/bin/marie/src/debug.rs:85-116).
 */
module ReplayedIo {
  import opened Words
  import opened Microcode
  import opened Devices
  import opened Terminals
  import opened Machine
  import opened Sessions

  /** The values read by micro-operations that have not been undone, oldest first. */
  function Consumed<D>(past: seq<Moment<D>>): seq<Word> {
    if past == [] then []
    else
      Consumed(past[..|past| - 1]) + ReadBy(past[|past| - 1].entry)
  }

  /** The values written by micro-operations that have not been undone, oldest first. */
  function Written<D>(past: seq<Moment<D>>): seq<Word> {
    if past == [] then []
    else
      Written(past[..|past| - 1]) + WrittenBy(past[|past| - 1].entry)
  }

  /** Nothing read is lost and nothing written is forgotten, counted against the ideal undo stack. */
  ghost predicate Conserved(s: Session<VecIo>, inputs: seq<Word>, outputs: seq<Word>) {
    && Consumed(s.past) + s.vm.state.device.inputs == inputs
    && s.vm.state.device.outputs == outputs + Written(s.past)
  }

  /** What one micro-operation exchanges with the scripted device is what its entry says. */
  lemma PerformExchanges(ending: IoError, s: State<VecIo>, op: MicroOp)
    requires s.control.Ok() && s.control.CurrentOp() == Some(op) && Perform(ScriptedIo(ending), s, op).Done?
    ensures var Done(t, effect) := Perform(ScriptedIo(ending), s, op);
      && s.device.inputs == (if effect.InputRead? then [effect.value] else []) + t.device.inputs
      && t.device.outputs == s.device.outputs + (if effect.OutputWritten? then [effect.value] else [])
  {
    match op
    case ReadInput =>
      assert s.device.inputs == [s.device.inputs[0]] + Perform(ScriptedIo(ending), s, op).state.device.inputs;
    case _ =>
  }

  lemma StepExchanges(ending: IoError, s: State<VecIo>)
    requires s.control.Ok() && MicroStep(ScriptedIo(ending), s).Executed?
    ensures var Executed(t, e) := MicroStep(ScriptedIo(ending), s);
      && s.device.inputs == ReadBy(e) + t.device.inputs
      && t.device.outputs == s.device.outputs + WrittenBy(e)
  {
    ControlInvariant(s.control);
    PerformExchanges(ending, Latched(s), s.control.CurrentOp().value);
  }

  function ReadBy(e: Entry): seq<Word> {
    if e.effect.InputRead? then [e.effect.value] else []
  }

  function WrittenBy(e: Entry): seq<Word> {
    if e.effect.OutputWritten? then [e.effect.value] else []
  }

  lemma PushConserves(d: VecIo, past: seq<Moment<VecIo>>, d': VecIo, m: Moment<VecIo>, outputs: seq<Word>)
    requires d.inputs == ReadBy(m.entry) + d'.inputs && d'.outputs == d.outputs + WrittenBy(m.entry)
    ensures Consumed(past) + d.inputs == Consumed(past + [m]) + d'.inputs
    ensures d.outputs == outputs + Written(past) <==> d'.outputs == outputs + Written(past + [m])
  {
    assert (past + [m])[..|past|] == past;
    assert Consumed(past) + (ReadBy(m.entry) + d'.inputs) == Consumed(past) + ReadBy(m.entry) + d'.inputs;
    var wrote, before := WrittenBy(m.entry), outputs + Written(past);
    assert outputs + (Written(past) + wrote) == before + wrote;
    if d'.outputs == before + wrote {
      assert d.outputs == (d.outputs + wrote)[..|d.outputs|] == (before + wrote)[..|before|] == before;
    }
  }

  lemma ForwardConserves(ending: IoError, s: Session<VecIo>, inputs: seq<Word>, outputs: seq<Word>)
    requires Sound(ScriptedIo(ending), AnyMemory(), s) && Conserved(s, inputs, outputs)
    ensures Conserved(Act(ScriptedIo(ending), s, StepForward), inputs, outputs)
  {
    VecIoIsRewindable(ending);
    IgnoringIsRedrawing(ScriptedIo(ending));
    if MicroStep(ScriptedIo(ending), s.vm.state).Executed? {
      var Executed(t, e) := MicroStep(ScriptedIo(ending), s.vm.state);
      StepExchanges(ending, s.vm.state);
      PushConserves(s.vm.state.device, s.past, t.device, Moment(s.vm.state, e), outputs);
    } else {
      StoppedChangesNothing(ScriptedIo(ending), s.vm.state);
    }
  }

  /** The device as it was one micro-operation ago, against the past without that moment. */
  lemma PopConserves(ending: IoError, s: Session<VecIo>, inputs: seq<Word>, outputs: seq<Word>)
    requires Sound(ScriptedIo(ending), AnyMemory(), s) && Conserved(s, inputs, outputs) && s.past != []
    ensures var device, earlier := Ago(s, 1).device, s.past[..|s.past| - 1];
      Consumed(earlier) + device.inputs == inputs && device.outputs == outputs + Written(earlier)
  {
    var last, earlier := s.past[|s.past| - 1], s.past[..|s.past| - 1];
    assert earlier + [last] == s.past;
    StepExchanges(ending, last.state);
    PushConserves(last.state.device, earlier, s.vm.state.device, last, outputs);
  }

  lemma BackwardConserves(ending: IoError, s: Session<VecIo>, inputs: seq<Word>, outputs: seq<Word>)
    requires Sound(ScriptedIo(ending), AnyMemory(), s) && Conserved(s, inputs, outputs)
    ensures Conserved(Act(ScriptedIo(ending), s, StepBackward), inputs, outputs)
  {
    VecIoIsRewindable(ending);
    IgnoringIsRedrawing(ScriptedIo(ending));
    BackwardIsExact(ScriptedIo(ending), AnyMemory(), s);
    if s.vm.journal != [] {
      PopConserves(ending, s, inputs, outputs);
    }
  }

  lemma {:induction false} PlayConserves(
    ending: IoError, s: Session<VecIo>, actions: seq<Action>, inputs: seq<Word>, outputs: seq<Word>)
    requires Sound(ScriptedIo(ending), AnyMemory(), s) && Conserved(s, inputs, outputs)
    ensures Conserved(Play(ScriptedIo(ending), s, actions), inputs, outputs)
    decreases |actions|
  {
    if actions != [] {
      VecIoIsRewindable(ending);
      IgnoringIsRedrawing(ScriptedIo(ending));
      match actions[0] {
        case StepForward => ForwardConserves(ending, s, inputs, outputs);
        case StepBackward => BackwardConserves(ending, s, inputs, outputs);
        case _ =>
      }
      ActKeepsSound(ScriptedIo(ending), AnyMemory(), s, actions[0]);
      PlayConserves(ending, Act(ScriptedIo(ending), s, actions[0]), actions[1..], inputs, outputs);
    }
  }

  // ----- simulations lift from devices to machines -----

  function MapState<D, E>(view: D -> E, s: State<D>): State<E> {
    State(s.registers, s.memory, s.control, view(s.device))
  }

  function MapVm<D, E>(view: D -> E, vm: Vm<D>): Vm<E> {
    Vm(MapState(view, vm.state), vm.journal, vm.limit)
  }

  function MapPast<D, E>(view: D -> E, past: seq<Moment<D>>): (r: seq<Moment<E>>)
    ensures |r| == |past|
  {
    seq(|past|, i requires 0 <= i < |past| => Moment(MapState(view, past[i].state), past[i].entry))
  }

  function MapSession<D, E>(view: D -> E, s: Session<D>): Session<E> {
    Session(MapVm(view, s.vm), MapPast(view, s.past))
  }

  lemma PerformCommutes<D(!new), E(!new)>(dev: Device<D>, model: Device<E>, view: D -> E, s: State<D>, op: MicroOp)
    requires Simulates(dev, model, view) && s.control.Ok() && s.control.CurrentOp() == Some(op)
    ensures Perform(model, MapState(view, s), op) ==
      match Perform(dev, s, op)
      case Done(t, effect) => Done(MapState(view, t), effect)
      case Refused(device, reason) => Refused(view(device), reason)
  {
    match op
    case ReadInput =>
      assert (view(dev.poll(s.device).0), dev.poll(s.device).1) == model.poll(view(s.device));
    case WriteOutput =>
      var out := s.registers.output;
      assert (view(dev.output(s.device, out).0), dev.output(s.device, out).1) == model.output(view(s.device), out);
    case _ =>
  }

  lemma MicroStepCommutes<D(!new), E(!new)>(dev: Device<D>, model: Device<E>, view: D -> E, s: State<D>)
    requires Simulates(dev, model, view) && s.control.Ok()
    ensures MicroStep(model, MapState(view, s)) ==
      match MicroStep(dev, s)
      case Executed(t, e) => Executed(MapState(view, t), e)
      case Stopped(t, reason) => Stopped(MapState(view, t), reason)
  {
    ControlInvariant(s.control);
    PerformCommutes(dev, model, view, Latched(s), s.control.CurrentOp().value);
  }

  lemma BackwardCommutes<D(!new), E(!new)>(dev: Device<D>, model: Device<E>, view: D -> E, vm: Vm<D>)
    requires Simulates(dev, model, view)
    ensures Backward(model, MapVm(view, vm)) == (MapVm(view, Backward(dev, vm).0), Backward(dev, vm).1)
  {
    if vm.journal != [] {
      var e := vm.journal[|vm.journal| - 1];
      var d := vm.state.device;
      match e.effect {
        case InputRead(_, v) => assert (view(dev.unread(d, v).0), dev.unread(d, v).1) == model.unread(view(d), v);
        case OutputWritten(v) => assert (view(dev.unwrite(d, v).0), dev.unwrite(d, v).1) == model.unwrite(view(d), v);
        case _ =>
      }
    }
  }

  lemma ActCommutes<D(!new), E(!new)>(dev: Device<D>, model: Device<E>, view: D -> E, s: Session<D>, a: Action)
    requires Simulates(dev, model, view) && s.vm.Ok()
    ensures Act(model, MapSession(view, s), a) == MapSession(view, Act(dev, s, a))
  {
    match a {
      case StepForward =>
        MicroStepCommutes(dev, model, view, s.vm.state);
        if MicroStep(dev, s.vm.state).Executed? {
          var moment := Moment(s.vm.state, MicroStep(dev, s.vm.state).entry);
          assert MapPast(view, s.past + [moment])
            == MapPast(view, s.past) + [Moment(MapState(view, s.vm.state), moment.entry)];
        }
      case StepBackward =>
        BackwardCommutes(dev, model, view, s.vm);
        if s.past != [] {
          assert MapPast(view, s.past[..|s.past| - 1]) == MapPast(view, s.past)[..|s.past| - 1];
        }
      case _ =>
    }
  }

  /** Whole sessions over a device and over its model go step for step. */
  lemma {:induction false} PlayCommutes<D(!new), E(!new)>(
    dev: Device<D>, model: Device<E>, view: D -> E, s: Session<D>, actions: seq<Action>)
    requires Simulates(dev, model, view) && s.vm.Ok()
    ensures Play(model, MapSession(view, s), actions) == MapSession(view, Play(dev, s, actions))
    decreases |actions|
  {
    if actions != [] {
      ActCommutes(dev, model, view, s, actions[0]);
      ActKeepsOk(dev, s, actions[0]);
      PlayCommutes(dev, model, view, Act(dev, s, actions[0]), actions[1..]);
    }
  }

  lemma {:induction false} MapKeepsIo<D, E>(view: D -> E, past: seq<Moment<D>>)
    ensures Consumed(MapPast(view, past)) == Consumed(past)
    ensures Written(MapPast(view, past)) == Written(past)
  {
    if past != [] {
      MapKeepsIo(view, past[..|past| - 1]);
      assert MapPast(view, past)[..|past| - 1] == MapPast(view, past[..|past| - 1]);
    }
  }

  /**
   In the debugger: however the session goes forwards and backwards, the inputs it has
   consumed net of undos, then the pushed-back values, then the rest of the typed line,
   then the unread terminal, are always the terminal it started with; and the recorded
   outputs are exactly those not undone.
   */
  lemma DebuggerConservesIo(typing: Typing, start: Vm<ReplayIo>, actions: seq<Action>)
    requires start.Ok() && start.journal == []
    ensures var s := Play(TerminalIo(typing), Session(start, []), actions);
      && Consumed(s.past) + s.vm.state.device.Stream(typing) == start.state.device.Stream(typing)
      && s.vm.state.device.outputs == start.state.device.outputs + Written(s.past)
  {
    var s := Session(start, []);
    var t := Play(TerminalIo(typing), s, actions);
    ReplayIoSimulatesVecIo(typing);
    VecIoIsRewindable(typing.ending);
    IgnoringIsRedrawing(ScriptedIo(typing.ending));
    var view := ReplayView(typing);
    PlayCommutes(TerminalIo(typing), ScriptedIo(typing.ending), view, s, actions);
    var model := MapSession(view, s);
    assert model.past == [];
    PlayConserves(typing.ending, model, actions, start.state.device.Stream(typing), start.state.device.outputs);
    MapKeepsIo(view, t.past);
  }

  /** One rewind of the debugger's machine, seen through the queues. */
  lemma RewindSeen(typing: Typing, t: Session<ReplayIo>, k: nat)
    requires Simulates(TerminalIo(typing), ScriptedIo(typing.ending), ReplayView(typing))
    requires Rewindable(ScriptedIo(typing.ending)) && Redraws(ScriptedIo(typing.ending), AnyMemory())
    requires Sound(ScriptedIo(typing.ending), AnyMemory(), MapSession(ReplayView(typing), t)) && k <= |t.vm.journal|
    requires IsSuffix(t.vm.journal, t.past) && Ago(MapSession(ReplayView(typing), t), k) == MapState(ReplayView(typing), Ago(t, k))
    ensures MapVm(ReplayView(typing), Rewind(TerminalIo(typing), t.vm, k))
      == Vm(MapState(ReplayView(typing), Ago(t, k)), t.vm.journal[..|t.vm.journal| - k], t.vm.limit)
  {
    RewindCommutes(TerminalIo(typing), ScriptedIo(typing.ending), ReplayView(typing), t.vm, k);
    RewindIsExact(ScriptedIo(typing.ending), AnyMemory(), MapSession(ReplayView(typing), t), k);
  }

  lemma UndoSeen(typing: Typing, t: Session<ReplayIo>)
    requires Simulates(TerminalIo(typing), ScriptedIo(typing.ending), ReplayView(typing))
    requires Rewindable(ScriptedIo(typing.ending)) && Redraws(ScriptedIo(typing.ending), AnyMemory())
    requires Sound(ScriptedIo(typing.ending), AnyMemory(), MapSession(ReplayView(typing), t)) && t.vm.journal != []
    ensures Backward(TerminalIo(typing), t.vm).1.Reversed?
  {
    BackwardCommutes(TerminalIo(typing), ScriptedIo(typing.ending), ReplayView(typing), t.vm);
    BackwardIsExact(ScriptedIo(typing.ending), AnyMemory(), MapSession(ReplayView(typing), t));
  }

  /** Rewinding in the debugger is exact up to which queue a pushed-back value waits in. */
  lemma DebuggerRewindsExactly(typing: Typing, start: Vm<ReplayIo>, actions: seq<Action>)
    requires start.Ok() && start.journal == []
    ensures var s := Play(TerminalIo(typing), Session(start, []), actions);
      && IsSuffix(s.vm.journal, s.past)
      && (forall k :: 0 <= k <= |s.vm.journal| ==>
            MapVm(ReplayView(typing), Rewind(TerminalIo(typing), s.vm, k))
            == Vm(MapState(ReplayView(typing), Ago(s, k)), s.vm.journal[..|s.vm.journal| - k], s.vm.limit))
      && (s.vm.journal != [] ==> Backward(TerminalIo(typing), s.vm).1.Reversed?)
  {
    var s := Session(start, []);
    var t := Play(TerminalIo(typing), s, actions);
    ReplayIoSimulatesVecIo(typing);
    VecIoIsRewindable(typing.ending);
    IgnoringIsRedrawing(ScriptedIo(typing.ending));
    PlayCommutes(TerminalIo(typing), ScriptedIo(typing.ending), ReplayView(typing), s, actions);
    assert MapSession(ReplayView(typing), s) == Session(MapVm(ReplayView(typing), start), []);
    PlayKeepsSound(ScriptedIo(typing.ending), AnyMemory(), MapSession(ReplayView(typing), s), actions);
    MapReflectsSuffix(ReplayView(typing), t);
    forall k | 0 <= k <= |t.vm.journal|
      ensures MapVm(ReplayView(typing), Rewind(TerminalIo(typing), t.vm, k))
        == Vm(MapState(ReplayView(typing), Ago(t, k)), t.vm.journal[..|t.vm.journal| - k], t.vm.limit)
    {
      RewindSeen(typing, t, k);
    }
    if t.vm.journal != [] {
      UndoSeen(typing, t);
    }
  }

  lemma MapReflectsSuffix<D, E>(view: D -> E, s: Session<D>)
    requires IsSuffix(MapVm(view, s.vm).journal, MapPast(view, s.past))
    ensures IsSuffix(s.vm.journal, s.past)
    ensures forall k :: 0 <= k <= |s.past| ==> Ago(MapSession(view, s), k) == MapState(view, Ago(s, k))
  {
    var past := MapPast(view, s.past);
    forall i | 0 <= i < |s.vm.journal|
      ensures s.vm.journal[i] == s.past[|s.past| - |s.vm.journal| + i].entry
    {
      assert s.vm.journal[i] == past[|past| - |s.vm.journal| + i].entry;
    }
  }

  lemma {:induction false} RewindCommutes<D(!new), E(!new)>(dev: Device<D>, model: Device<E>, view: D -> E, vm: Vm<D>, k: nat)
    requires Simulates(dev, model, view)
    ensures Rewind(model, MapVm(view, vm), k) == MapVm(view, Rewind(dev, vm, k))
    decreases k
  {
    if k > 0 {
      BackwardCommutes(dev, model, view, vm);
      RewindCommutes(dev, model, view, Backward(dev, vm).0, k - 1);
    }
  }

  lemma {:induction false} ReplayCommutes<D(!new), E(!new)>(dev: Device<D>, model: Device<E>, view: D -> E, vm: Vm<D>, k: nat)
    requires Simulates(dev, model, view) && vm.Ok()
    ensures Replay(model, MapVm(view, vm), k) == MapVm(view, Replay(dev, vm, k))
    decreases k
  {
    if k > 0 {
      ForwardCommutes(dev, model, view, vm);
      ForwardKeepsOk(dev, vm);
      ReplayCommutes(dev, model, view, Forward(dev, vm).0, k - 1);
    }
  }

  lemma ForwardCommutes<D(!new), E(!new)>(dev: Device<D>, model: Device<E>, view: D -> E, vm: Vm<D>)
    requires Simulates(dev, model, view) && vm.Ok()
    ensures Forward(model, MapVm(view, vm)) == (MapVm(view, Forward(dev, vm).0), Forward(dev, vm).1)
  {
    MicroStepCommutes(dev, model, view, vm.state);
  }

  lemma {:induction false} RewindKeepsOk<D>(dev: Device<D>, vm: Vm<D>, k: nat)
    requires vm.Ok()
    ensures Rewind(dev, vm, k).Ok()
    decreases k
  {
    if k > 0 {
      BackwardKeepsOk(dev, vm);
      RewindKeepsOk(dev, Backward(dev, vm).0, k - 1);
    }
  }

  /** Rewinding and running on loses nothing in the debugger either, up to which queue a word waits in. */
  lemma DebuggerReplaysExactly(typing: Typing, start: Vm<ReplayIo>, actions: seq<Action>, k: nat)
    requires start.Ok() && start.journal == []
    ensures var vm := Play(TerminalIo(typing), Session(start, []), actions).vm;
      k <= |vm.journal| ==>
        && Rewind(TerminalIo(typing), vm, k).Ok()
        && MapVm(ReplayView(typing), Replay(TerminalIo(typing), Rewind(TerminalIo(typing), vm, k), k))
           == MapVm(ReplayView(typing), vm)
  {
    var dev, model, view := TerminalIo(typing), ScriptedIo(typing.ending), ReplayView(typing);
    var vm := Play(dev, Session(start, []), actions).vm;
    ReplayIoSimulatesVecIo(typing);
    VecIoIsRewindable(typing.ending);
    IgnoringIsRedrawing(model);
    PlayCommutes(dev, model, view, Session(start, []), actions);
    assert MapSession(view, Session(start, [])) == Session(MapVm(view, start), []);
    RewindKeepsOk(dev, vm, k);
    RewindCommutes(dev, model, view, vm, k);
    ReplayCommutes(dev, model, view, Rewind(dev, vm, k), k);
    RewindThenReplay(model, AnyMemory(), MapVm(view, start), actions, k);
  }
}
