/**
 A frontend that paints what the display hook tells it never shows a stale pixel
 (crates/lib/mrs-vm/src/lib.rs:700-707, 784-792, 806-817; crates/lib/mrs-core/src/display.rs).
 */
module DisplayShadow {
  import opened Words
  import opened Microcode
  import opened Devices
  import opened Machine
  import opened Sessions

  /** Any device, with a picture that is changed by the display hook and by nothing else. */
  datatype Frontend<D> = Frontend(inner: D, picture: seq<Word>)

  function Paint(picture: seq<Word>, index: nat, pixel: Word): seq<Word> {
    if index < |picture| then picture[index := pixel] else picture
  }

  function FrontendOver<D>(dev: Device<D>): Device<Frontend<D>> {
    Device(
      (f: Frontend<D>) => var r := dev.poll(f.inner); (f.(inner := r.0), r.1),
      (f: Frontend<D>, v: Word) => var r := dev.output(f.inner, v); (f.(inner := r.0), r.1),
      (f: Frontend<D>, v: Word) => var r := dev.unread(f.inner, v); (f.(inner := r.0), r.1),
      (f: Frontend<D>, v: Word) => var r := dev.unwrite(f.inner, v); (f.(inner := r.0), r.1),
      (f: Frontend<D>, i: nat, p: Word) =>
        FrontendDisplay(dev, f, i, p))
  }

  function FrontendDisplay<D>(dev: Device<D>, f: Frontend<D>, i: nat, p: Word): Frontend<D> {
    f.(inner := dev.display(f.inner, i, p), picture := Paint(f.picture, i, p))
  }

  /** The picture is the top of memory. */
  ghost predicate Shows<D>(s: State<Frontend<D>>) {
    s.device.picture == s.memory[DISPLAY_ORIGIN..]
  }

  /** Notified of a write, the picture shows it; a write that changes nothing needs no notice. */
  lemma NotifiedShows<D>(dev: Device<D>, s: State<Frontend<D>>, address: Address, v: Word)
    requires Shows(s)
    ensures Notify(FrontendOver(dev), s.device, address, s.memory[address], v).picture
         == s.memory[address := v][DISPLAY_ORIGIN..]
  {
    if s.memory[address] == v {
      assert s.memory[address := v] == s.memory;
    } else if address >= DISPLAY_ORIGIN {
      var index := address - DISPLAY_ORIGIN;
      assert |s.device.picture| == DISPLAY_WORDS;
      assert FrontendOver(dev).display(s.device, index, v) == FrontendDisplay(dev, s.device, index, v);
      assert s.memory[address := v][DISPLAY_ORIGIN..] == s.memory[DISPLAY_ORIGIN..][index := v];
    } else {
      assert s.memory[address := v][DISPLAY_ORIGIN..] == s.memory[DISPLAY_ORIGIN..];
    }
  }

  lemma ActKeepsShowing<D>(dev: Device<D>, s: Session<Frontend<D>>, a: Action)
    requires s.vm.Ok() && Shows(s.vm.state)
    ensures Shows(Act(FrontendOver(dev), s, a).vm.state)
  {
    var st := s.vm.state;
    match a {
      case StepForward =>
        ControlInvariant(st.control);
        if st.control.CurrentOp() == Some(WriteMemory) {
          NotifiedShows(dev, st, st.registers.mar, st.registers.mbr);
        }
      case StepBackward =>
        if s.vm.journal != [] {
          var effect := s.vm.journal[|s.vm.journal| - 1].effect;
          if effect.MemoryWritten? {
            NotifiedShows(dev, st, effect.address, effect.previous);
          }
        }
      case _ =>
    }
  }

  /**
   However a session goes forwards and backwards, over any device underneath: a picture
   that matched memory at the start matches it at the end, although writes that leave a
   pixel as it was are never reported.
   */
  lemma {:induction false} PictureFollowsMemory<D>(dev: Device<D>, s: Session<Frontend<D>>, actions: seq<Action>)
    requires s.vm.Ok() && Shows(s.vm.state)
    ensures Shows(Play(FrontendOver(dev), s, actions).vm.state)
    decreases |actions|
  {
    if actions != [] {
      ActKeepsShowing(dev, s, actions[0]);
      ActKeepsOk(FrontendOver(dev), s, actions[0]);
      PictureFollowsMemory(dev, Act(FrontendOver(dev), s, actions[0]), actions[1..]);
    }
  }

  // ----- rewinding with a picture -----

  /** What such a frontend shows fits memory, and so does the device underneath. */
  function Showing<D>(fits: (D, Memory) -> bool): (Frontend<D>, Memory) -> bool {
    (f: Frontend<D>, memory: Memory) => f.picture == memory[DISPLAY_ORIGIN..] && fits(f.inner, memory)
  }

  lemma FrontendIsRewindable<D(!new)>(dev: Device<D>)
    ensures Honest(dev) ==> Honest(FrontendOver(dev))
    ensures Rewindable(dev) ==> Rewindable(FrontendOver(dev))
  {
    var over := FrontendOver(dev);
    if Honest(dev) {
      forall f: Frontend<D>
        ensures var (after, answer) := over.poll(f);
          if answer.Ready? then over.unread(after, answer.value) in {(f, true), (after, false)} else after == f
      {
        var (after, answer) := dev.poll(f.inner);
      }
      forall f: Frontend<D>, v: Word
        ensures var (after, error) := over.output(f, v);
          if error.None? then over.unwrite(after, v) in {(f, true), (after, false)} else after == f
      {
        var (after, error) := dev.output(f.inner, v);
      }
    }
    if Rewindable(dev) {
      forall f: Frontend<D> | over.poll(f).1.Ready?
        ensures over.unread(over.poll(f).0, over.poll(f).1.value).1
      {
        assert dev.poll(f.inner).1.Ready?;
      }
      forall f: Frontend<D>, v: Word | over.output(f, v).1.None?
        ensures over.unwrite(over.output(f, v).0, v).1
      {
        assert dev.output(f.inner, v).1.None?;
      }
    }
  }

  /** A pixel painted over and painted back. */
  lemma PaintedBack(picture: seq<Word>, index: nat, pixel: Word)
    requires index < |picture|
    ensures Paint(Paint(picture, index, pixel), index, picture[index]) == picture
  {
  }

  lemma FrontendStaysFitting<D(!new)>(
    dev: Device<D>, fits: (D, Memory) -> bool, f: Frontend<D>, memory: Memory, address: Address, v: Word)
    requires f.picture == memory[DISPLAY_ORIGIN..] && StaysFitting(dev, fits, f.inner, memory, address, v)
    ensures StaysFitting(FrontendOver(dev), Showing(fits), f, memory, address, v)
  {
    var over := FrontendOver(dev);
    var after := Notify(over, f, address, memory[address], v);
    NotifiedShows(dev, State(Registers.Cleared, memory, Control(0, 0, None, false), f), address, v);
    assert after.inner == Notify(dev, f.inner, address, memory[address], v);
    if address >= DISPLAY_ORIGIN && v != memory[address] {
      PaintedBack(f.picture, address - DISPLAY_ORIGIN, v);
    }
  }

  lemma FrontendRedraws<D(!new)>(dev: Device<D>, fits: (D, Memory) -> bool)
    requires Redraws(dev, fits)
    ensures Redraws(FrontendOver(dev), Showing(fits))
  {
    var over, showing := FrontendOver(dev), Showing(fits);
    forall f: Frontend<D>, memory, address, v | showing(f, memory)
      ensures StaysFitting(over, showing, f, memory, address, v)
    {
      assert StaysFitting(dev, fits, f.inner, memory, address, v);
      FrontendStaysFitting(dev, fits, f, memory, address, v);
    }
  }

  /** What is shown in a sound session fitted memory all along. */
  lemma PastShows<D>(dev: Device<D>, fits: (D, Memory) -> bool, s: Session<Frontend<D>>, k: nat)
    requires Sound(FrontendOver(dev), Showing(fits), s) && k <= |s.past|
    ensures Shows(Ago(s, k))
  {
    ChainFits(FrontendOver(dev), Showing(fits), s.past, s.vm.state, k);
  }

  /**
   A machine that draws rewinds exactly, picture and all. Over any device that can be
   rewound, from a machine whose picture matches memory: after any session, each undo lands
   on the machine of that many micro-operations ago, on the picture it showed then, and
   that picture matches the memory it had then.
   */
  lemma DrawingRewindsExactly<D(!new)>(
    dev: Device<D>, fits: (D, Memory) -> bool, start: Vm<Frontend<D>>, actions: seq<Action>, k: nat)
    requires Rewindable(dev) && Redraws(dev, fits)
    requires start.Ok() && start.journal == []
    requires Shows(start.state) && fits(start.state.device.inner, start.state.memory)
    ensures var s := Play(FrontendOver(dev), Session(start, []), actions);
      && |s.vm.journal| <= |s.past|
      && (k <= |s.vm.journal| ==>
            && Rewind(FrontendOver(dev), s.vm, k) == Vm(Ago(s, k), s.vm.journal[..|s.vm.journal| - k], s.vm.limit)
            && Shows(Ago(s, k)))
  {
    var over := FrontendOver(dev);
    FrontendIsRewindable(dev);
    FrontendRedraws(dev, fits);
    PlayKeepsSound(over, Showing(fits), Session(start, []), actions);
    var s := Play(over, Session(start, []), actions);
    if k <= |s.vm.journal| {
      RewindIsExact(over, Showing(fits), s, k);
      PastShows(dev, fits, s, k);
    }
  }
}
