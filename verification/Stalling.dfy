/**
 A stalled `Input` is a finite stutter: decorating a device with `Flaky` delays a program
 and changes nothing else (crates/lib/mrs-vm/src/io.rs:325-384, lib.rs:651-683).
 */
module Stalling {
  import opened Words
  import opened Microcode
  import opened Devices
  import opened Machine
  import opened Sessions
  import opened ReplayedIo

  /** The machine the decorated one stands for. */
  function Undecorated<D>(vm: Vm<Flaky<D>>): Vm<D> {
    MapVm((f: Flaky<D>) => f.inner, vm)
  }

  /** A micro-step, resumed after each suspension, at most `resumes` times. */
  function Drive<D>(dev: Device<D>, vm: Vm<D>, resumes: nat): (r: (Vm<D>, Outcome))
    requires vm.Ok()
    ensures r.0.Ok()
    decreases resumes
  {
    ForwardKeepsOk(dev, vm);
    var (vm', outcome) := Forward(dev, vm);
    if outcome == Stuck(AwaitingInput) && resumes > 0 then Drive(dev, vm', resumes - 1) else (vm', outcome)
  }

  function DriveMany<D>(dev: Device<D>, vm: Vm<D>, resumes: nat, n: nat): Vm<D>
    requires vm.Ok()
    decreases n
  {
    if n == 0 then vm else DriveMany(dev, Drive(dev, vm, resumes).0, resumes, n - 1)
  }

  predicate Polls<D>(vm: Vm<D>) {
    vm.state.control.CurrentOp() == Some(ReadInput)
  }

  /** While it stalls, nothing moves but the stall counter. */
  lemma StallsInPlace<D>(dev: Device<D>, vm: Vm<Flaky<D>>)
    requires vm.Ok() && Polls(vm) && vm.state.device.remaining > 0
    ensures Forward(FlakyOver(dev), vm) ==
      (vm.(state := vm.state.(device := vm.state.device.(remaining := vm.state.device.remaining - 1))),
       Stuck(AwaitingInput))
  {
  }

  /** A delegated operation: the inner device takes part in it as if it were not decorated. */
  lemma PerformDelegates<D(!new)>(dev: Device<D>, s: State<Flaky<D>>, op: MicroOp)
    requires s.control.Ok() && s.control.CurrentOp() == Some(op)
    requires IgnoresDisplay(dev) && !(op == ReadInput && s.device.remaining > 0)
    ensures var f := match Perform(FlakyOver(dev), s, op) case Done(t, _) => t.device case Refused(device, _) => device;
      f.stall == s.device.stall && f.remaining == if op == ReadInput then s.device.stall else s.device.remaining
    ensures Perform(dev, MapState((f: Flaky<D>) => f.inner, s), op) ==
      match Perform(FlakyOver(dev), s, op)
      case Done(t, effect) => Done(MapState((f: Flaky<D>) => f.inner, t), effect)
      case Refused(device, reason) => Refused(device.inner, reason)
  {
  }

  lemma OnlyPollsWait<D(!new)>(dev: Device<D>, s: State<D>)
    requires s.control.Ok() && MicroStep(dev, s).Stopped? && MicroStep(dev, s).reason == AwaitingInput
    ensures s.control.CurrentOp() == Some(ReadInput) && dev.poll(s.device).1 == Pending
  {
  }

  /** When it does not, the decorated machine and the plain one do the same. */
  lemma DelegatesOtherwise<D(!new)>(dev: Device<D>, vm: Vm<Flaky<D>>)
    requires vm.Ok() && IgnoresDisplay(dev) && !(Polls(vm) && vm.state.device.remaining > 0)
    ensures var (vm', outcome) := Forward(FlakyOver(dev), vm);
      && (Undecorated(vm'), outcome) == Forward(dev, Undecorated(vm))
      && vm'.state.device.stall == vm.state.device.stall
      && vm'.state.device.remaining ==
           (if Polls(vm) then vm.state.device.stall else vm.state.device.remaining)
      && (outcome == Stuck(AwaitingInput) ==> Polls(vm) && dev.poll(vm.state.device.inner).1 == Pending)
  {
    ControlInvariant(vm.state.control);
    PerformDelegates(dev, Latched(vm.state), vm.state.control.CurrentOp().value);
    if Forward(FlakyOver(dev), vm).1 == Stuck(AwaitingInput) {
      OnlyPollsWait(dev, Undecorated(vm).state);
    }
  }

  /**
   Resumed as often as the counter says, a decorated micro-step does exactly what the plain
   one does, to registers, memory, control state, journal and inner device; so a delegated
   poll costs at most `stall` suspensions.
   */
  lemma {:induction false} DrivenMicroStep<D(!new)>(dev: Device<D>, vm: Vm<Flaky<D>>)
    requires vm.Ok() && IgnoresDisplay(dev) && vm.state.device.remaining <= vm.state.device.stall
    ensures var resumes := if Polls(vm) then vm.state.device.remaining else 0;
      var (vm', outcome) := Drive(FlakyOver(dev), vm, resumes);
      && resumes <= vm.state.device.stall
      && (Undecorated(vm'), outcome) == Forward(dev, Undecorated(vm))
      && vm'.state.device.stall == vm.state.device.stall
      && vm'.state.device.remaining <= vm.state.device.stall
    decreases vm.state.device.remaining
  {
    if Polls(vm) && vm.state.device.remaining > 0 {
      StallsInPlace(dev, vm);
      ForwardKeepsOk(FlakyOver(dev), vm);
      var vm' := Forward(FlakyOver(dev), vm).0;
      DrivenMicroStep(dev, vm');
      assert Undecorated(vm') == Undecorated(vm);
    } else {
      DelegatesOtherwise(dev, vm);
    }
  }

  /** A device that answers every poll. */
  ghost predicate AlwaysAnswers<D(!new)>(dev: Device<D>) {
    forall d :: dev.poll(d).1 != Pending
  }

  /** Spare resumptions are never used once the poll has been answered. */
  lemma {:induction false} SpareResumes<D(!new)>(dev: Device<D>, vm: Vm<Flaky<D>>, resumes: nat)
    requires vm.Ok() && IgnoresDisplay(dev) && AlwaysAnswers(dev)
    requires vm.state.device.remaining <= resumes
    ensures Drive(FlakyOver(dev), vm, resumes)
         == Drive(FlakyOver(dev), vm, if Polls(vm) then vm.state.device.remaining else 0)
    decreases resumes
  {
    if Polls(vm) && vm.state.device.remaining > 0 {
      StallsInPlace(dev, vm);
      ForwardKeepsOk(FlakyOver(dev), vm);
      SpareResumes(dev, Forward(FlakyOver(dev), vm).0, resumes - 1);
    } else {
      DelegatesOtherwise(dev, vm);
    }
  }

  /** As many micro-steps, each resumed exactly as often as the stall counter makes it wait. */
  function DriveRun<D>(dev: Device<D>, vm: Vm<Flaky<D>>, n: nat): Vm<Flaky<D>>
    requires vm.Ok()
    decreases n
  {
    if n == 0 then vm
    else DriveRun(dev, Drive(FlakyOver(dev), vm, if Polls(vm) then vm.state.device.remaining else 0).0, n - 1)
  }

  /**
   Stalled input is a finite stutter. Over any device at all that has no display hook, also
   one that keeps the program waiting on its own account: a run over the decorated device,
   each micro-step resumed as often as the counter says and never more than `stall` times,
   has the same registers, memory, latches, journal and inner device as the run over the
   device itself.
   */
  lemma {:induction false} StallingIsAStutter<D(!new)>(dev: Device<D>, vm: Vm<Flaky<D>>, n: nat)
    requires vm.Ok() && IgnoresDisplay(dev) && vm.state.device.remaining <= vm.state.device.stall
    ensures Undecorated(DriveRun(dev, vm, n)) == Replay(dev, Undecorated(vm), n)
    decreases n
  {
    if n > 0 {
      DrivenMicroStep(dev, vm);
      ForwardKeepsOk(dev, Undecorated(vm));
      StallingIsAStutter(
        dev, Drive(FlakyOver(dev), vm, if Polls(vm) then vm.state.device.remaining else 0).0, n - 1);
    }
  }

  /**
   A host that cannot see the counter and resumes up to `stall` times regardless does the
   same, if the inner device answers every poll: the spare resumptions go unused.
   */
  lemma {:induction false} ResumingBlindlyIsEnough<D(!new)>(dev: Device<D>, vm: Vm<Flaky<D>>, n: nat)
    requires vm.Ok() && IgnoresDisplay(dev) && AlwaysAnswers(dev)
    requires vm.state.device.remaining <= vm.state.device.stall
    ensures DriveMany(FlakyOver(dev), vm, vm.state.device.stall, n) == DriveRun(dev, vm, n)
    decreases n
  {
    if n > 0 {
      SpareResumes(dev, vm, vm.state.device.stall);
      DrivenMicroStep(dev, vm);
      ResumingBlindlyIsEnough(dev, Drive(FlakyOver(dev), vm, vm.state.device.stall).0, n - 1);
    }
  }

  /** So scripted input delayed by a decorator is scripted input: a host need only resume often enough. */
  lemma ScriptedInputIsOnlyDelayed(ending: IoError, vm: Vm<Flaky<VecIo>>, n: nat)
    requires vm.Ok() && vm.state.device.remaining <= vm.state.device.stall
    ensures var dev := ScriptedIo(ending);
      Undecorated(DriveMany(FlakyOver(dev), vm, vm.state.device.stall, n)) == Replay(dev, Undecorated(vm), n)
  {
    var dev := ScriptedIo(ending);
    assert AlwaysAnswers(dev);
    ResumingBlindlyIsEnough(dev, vm, n);
    StallingIsAStutter(dev, vm, n);
  }

  // ----- sessions over the decorator -----

  /** What a host does to a decorated machine: a step is driven past its stalls. */
  function DriveAct<D>(dev: Device<D>, vm: Vm<Flaky<D>>, a: Action): (r: Vm<Flaky<D>>)
    requires vm.Ok()
    ensures r.Ok()
  {
    match a
    case StepForward => Drive(FlakyOver(dev), vm, if Polls(vm) then vm.state.device.remaining else 0).0
    case _ =>
      ActKeepsOk(FlakyOver(dev), Session(vm, []), a);
      Act(FlakyOver(dev), Session(vm, []), a).vm
  }

  function DrivePlay<D>(dev: Device<D>, vm: Vm<Flaky<D>>, actions: seq<Action>): Vm<Flaky<D>>
    requires vm.Ok()
    decreases |actions|
  {
    if actions == [] then vm else DrivePlay(dev, DriveAct(dev, vm, actions[0]), actions[1..])
  }

  /** An undo goes through to the inner device; handing a value back reloads the counter. */
  lemma UndoDelegates<D(!new)>(dev: Device<D>, vm: Vm<Flaky<D>>)
    requires vm.Ok() && IgnoresDisplay(dev) && vm.state.device.remaining <= vm.state.device.stall
    ensures var (vm', result) := Backward(FlakyOver(dev), vm);
      && (Undecorated(vm'), result) == Backward(dev, Undecorated(vm))
      && vm'.state.device.stall == vm.state.device.stall
      && vm'.state.device.remaining <= vm.state.device.stall
  {
  }

  lemma DrivenAct<D(!new)>(dev: Device<D>, vm: Vm<Flaky<D>>, past: seq<Moment<D>>, a: Action)
    requires vm.Ok() && IgnoresDisplay(dev) && vm.state.device.remaining <= vm.state.device.stall
    ensures var vm' := DriveAct(dev, vm, a);
      && Undecorated(vm') == Act(dev, Session(Undecorated(vm), past), a).vm
      && vm'.state.device.remaining <= vm'.state.device.stall
  {
    match a {
      case StepForward => DrivenMicroStep(dev, vm);
      case StepBackward => UndoDelegates(dev, vm);
      case _ =>
    }
  }

  /**
   Sessions stutter too. Any interleaving of driven steps, steps back, changes of the limit
   and clearings over the decorated device leaves the registers, memory, latches, journal
   and inner device that the same interleaving leaves over the device itself.
   */
  lemma {:induction false} SessionsStutter<D(!new)>(
    dev: Device<D>, vm: Vm<Flaky<D>>, past: seq<Moment<D>>, actions: seq<Action>)
    requires vm.Ok() && IgnoresDisplay(dev) && vm.state.device.remaining <= vm.state.device.stall
    ensures Undecorated(DrivePlay(dev, vm, actions)) == Play(dev, Session(Undecorated(vm), past), actions).vm
    decreases |actions|
  {
    if actions != [] {
      var s := Session(Undecorated(vm), past);
      DrivenAct(dev, vm, past, actions[0]);
      ActKeepsOk(dev, s, actions[0]);
      SessionsStutter(dev, DriveAct(dev, vm, actions[0]), Act(dev, s, actions[0]).past, actions[1..]);
    }
  }
}
