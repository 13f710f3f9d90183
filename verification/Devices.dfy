/**
 I/O devices (crates/lib/mrs-vm/src/io.rs:10-82, 268-385).

 A device is a state of some type `D` together with the five operations of the device
 contract, each taking the state to the next one. A generic theorem quantifies over `D`
 and the operations, so it speaks about every device.
 */
module Devices {
  import opened Words

  datatype IoError = Eof | Stream | Unparseable
  datatype Poll = Pending | Ready(value: Word) | Failed(error: IoError)

  datatype Device<!D> = Device(
    poll: D -> (D, Poll),
    output: (D, Word) -> (D, Option<IoError>),
    unread: (D, Word) -> (D, bool),
    unwrite: (D, Word) -> (D, bool),
    display: (D, nat, Word) -> D)

  /**
   A poll that delivers nothing and an output that fails have no side effect; what was
   delivered or written is either handed back exactly, or refused without a side effect.
   */
  ghost predicate Honest<D(!new)>(dev: Device<D>) {
    && (forall d ::
          var (after, answer) := dev.poll(d);
          if answer.Ready? then dev.unread(after, answer.value) in {(d, true), (after, false)} else after == d)
    && (forall d, v ::
          var (after, error) := dev.output(d, v);
          if error.None? then dev.unwrite(after, v) in {(d, true), (after, false)} else after == d)
  }

  /** Honest, and never refusing. */
  ghost predicate Rewindable<D(!new)>(dev: Device<D>) {
    && Honest(dev)
    && (forall d :: dev.poll(d).1.Ready? ==> dev.unread(dev.poll(d).0, dev.poll(d).1.value).1)
    && (forall d, v :: dev.output(d, v).1.None? ==> dev.unwrite(dev.output(d, v).0, v).1)
  }

  /** The device has no display hook of its own. */
  ghost predicate IgnoresDisplay<D(!new)>(dev: Device<D>) {
    forall d, i, p :: dev.display(d, i, p) == d
  }

  /** `view` turns every operation of `dev` into the same operation of `model`. */
  ghost predicate Simulates<D(!new), E(!new)>(dev: Device<D>, model: Device<E>, view: D -> E) {
    && (forall d :: (view(dev.poll(d).0), dev.poll(d).1) == model.poll(view(d)))
    && (forall d, v :: (view(dev.output(d, v).0), dev.output(d, v).1) == model.output(view(d), v))
    && (forall d, v :: (view(dev.unread(d, v).0), dev.unread(d, v).1) == model.unread(view(d), v))
    && (forall d, v :: (view(dev.unwrite(d, v).0), dev.unwrite(d, v).1) == model.unwrite(view(d), v))
    && (forall d, i, p :: view(dev.display(d, i, p)) == model.display(view(d), i, p))
  }

  // ----- VecIo: scripted inputs, recorded outputs -----

  datatype VecIo = VecIo(inputs: seq<Word>, outputs: seq<Word>) {
    /** Once the inputs are spent every poll fails, with the same error. */
    function Poll(ending: IoError): (VecIo, Poll) {
      if inputs == [] then (this, Failed(ending)) else (this.(inputs := inputs[1..]), Ready(inputs[0]))
    }

    function Output(v: Word): (VecIo, Option<IoError>) {
      (this.(outputs := outputs + [v]), None)
    }

    function Unread(v: Word): (VecIo, bool) {
      (this.(inputs := [v] + inputs), true)
    }

    /** Only a last output equal to `v` is retracted; otherwise nothing happens. */
    function Unwrite(v: Word): (VecIo, bool) {
      if outputs != [] && outputs[|outputs| - 1] == v then (this.(outputs := outputs[..|outputs| - 1]), true)
      else (this, false)
    }
  }

  /** A script that ends in some error; `VecIo` is the one that ends in `Eof`. */
  function ScriptedIo(ending: IoError): Device<VecIo> {
    Device(
      (d: VecIo) => d.Poll(ending),
      (d: VecIo, v: Word) => d.Output(v),
      (d: VecIo, v: Word) => d.Unread(v),
      (d: VecIo, v: Word) => d.Unwrite(v),
      (d: VecIo, i: nat, p: Word) => d)
  }

  lemma VecIoIsRewindable(ending: IoError)
    ensures Rewindable(ScriptedIo(ending)) && IgnoresDisplay(ScriptedIo(ending))
  {
    forall d: VecIo | d.Poll(ending).1.Ready?
      ensures d.Poll(ending).0.Unread(d.Poll(ending).1.value) == (d, true)
    {
      assert [d.inputs[0]] + d.inputs[1..] == d.inputs;
    }
    forall d: VecIo, v: Word
      ensures d.Output(v).0.Unwrite(v) == (d, true)
    {
      assert (d.outputs + [v])[..|d.outputs|] == d.outputs;
    }
  }

  // ----- StdinIo: a terminal that cannot be rewound -----

  /** `inputs` is what is still to be read; nothing can be given back or retracted. */
  function StdinIo(ending: IoError): Device<VecIo> {
    ScriptedIo(ending).(unread := (d: VecIo, v: Word) => (d, false), unwrite := (d: VecIo, v: Word) => (d, false))
  }

  /** A terminal refuses every rewind, and refusing leaves it as it was: one word read cannot be unread. */
  lemma StdinIoIsHonest(ending: IoError)
    ensures Honest(StdinIo(ending)) && IgnoresDisplay(StdinIo(ending))
    ensures forall d, v :: StdinIo(ending).unread(d, v) == (d, false) && StdinIo(ending).unwrite(d, v) == (d, false)
    ensures !Rewindable(StdinIo(ending))
  {
    var d := VecIo([0], []);
    var dev := StdinIo(ending);
    assert dev.poll(d).1.Ready? && !dev.unread(dev.poll(d).0, 0).1;
  }

  // ----- Flaky: stalls every input poll a fixed number of times -----

  datatype Flaky<D> = Flaky(inner: D, stall: nat, remaining: nat)

  function FlakyPoll<D>(dev: Device<D>, f: Flaky<D>): (Flaky<D>, Poll) {
    if f.remaining > 0 then (f.(remaining := f.remaining - 1), Pending)
    else
      var (inner, answer) := dev.poll(f.inner);
      (f.(inner := inner, remaining := f.stall), answer)
  }

  function FlakyOutput<D>(dev: Device<D>, f: Flaky<D>, v: Word): (Flaky<D>, Option<IoError>) {
    var (inner, error) := dev.output(f.inner, v);
    (f.(inner := inner), error)
  }

  function FlakyUnread<D>(dev: Device<D>, f: Flaky<D>, v: Word): (Flaky<D>, bool) {
    var (inner, accepted) := dev.unread(f.inner, v);
    (if accepted then f.(inner := inner, remaining := f.stall) else f.(inner := inner), accepted)
  }

  function FlakyUnwrite<D>(dev: Device<D>, f: Flaky<D>, v: Word): (Flaky<D>, bool) {
    var (inner, accepted) := dev.unwrite(f.inner, v);
    (f.(inner := inner), accepted)
  }

  /** The decorator does not forward the display hook. */
  function FlakyOver<D>(dev: Device<D>): Device<Flaky<D>> {
    Device(
      (f: Flaky<D>) => FlakyPoll(dev, f),
      (f: Flaky<D>, v: Word) => FlakyOutput(dev, f, v),
      (f: Flaky<D>, v: Word) => FlakyUnread(dev, f, v),
      (f: Flaky<D>, v: Word) => FlakyUnwrite(dev, f, v),
      (f: Flaky<D>, i: nat, p: Word) => f)
  }
}
