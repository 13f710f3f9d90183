/**
 The machine word and the address space (crates/lib/mrs-core/src/value.rs, address.rs).

 A word is its 16-bit pattern, 0..65535. `Signed` is the `i16` the program sees; the
 two views name the same sixteen bits.
 */
module Words {
  datatype Option<+T> = None | Some(value: T)

  const WORDS_IN_MEMORY := 0x1000
  const DISPLAY_ORIGIN := 0xF00
  const DISPLAY_WORDS := 0x100

  type Word = w: int | 0 <= w < 0x1_0000
  type Address = a: int | 0 <= a < WORDS_IN_MEMORY
  type Memory = m: seq<Word> | |m| == WORDS_IN_MEMORY witness seq(WORDS_IN_MEMORY, _ => 0)

  lemma Regroup<T>(a: seq<T>, b: seq<T>, c: seq<T>)
    ensures a + b + c == a + (b + c)
  {
  }

  /** The low twelve bits: what `PC` and `MAR` keep of a word. */
  function Masked(bits: nat): Address {
    bits % WORDS_IN_MEMORY
  }

  /** `PC + 1` on twelve address lines. */
  function Next(a: Address): Address {
    Masked(a + 1)
  }

  /** The word read as an `i16`. */
  function Signed(w: Word): int {
    if w < 0x8000 then w else w - 0x1_0000
  }

  /** The bit pattern an integer wraps to in sixteen bits. */
  function Wrapped(v: int): Word {
    v % 0x1_0000
  }

  /** `i16::wrapping_add`, on bit patterns. */
  function Plus(x: Word, y: Word): Word {
    Wrapped(Signed(x) + Signed(y))
  }

  /** `i16::wrapping_sub`, on bit patterns. */
  function Minus(x: Word, y: Word): Word {
    Wrapped(Signed(x) - Signed(y))
  }

  /** The pixel of an address in the last 256 words, counted from the first of them. */
  function PixelIndex(a: Address): Option<nat> {
    if a >= DISPLAY_ORIGIN then Some(a - DISPLAY_ORIGIN) else None
  }

  lemma WrappingIsExact(w: Word, v: int)
    ensures Wrapped(Signed(w)) == w
    ensures -0x8000 <= v < 0x8000 ==> Signed(Wrapped(v)) == v
  {
  }

  /** Wrapping in between makes no difference. */
  lemma WrappedAgain(v: int, d: int)
    ensures Wrapped(Signed(Wrapped(v)) + d) == Wrapped(v + d)
  {
  }

  /** Addition and subtraction are exact whenever the signed result fits, and undo each other always. */
  lemma ArithmeticIsExactUntilItWraps(x: Word, y: Word)
    ensures -0x8000 <= Signed(x) + Signed(y) < 0x8000 ==> Signed(Plus(x, y)) == Signed(x) + Signed(y)
    ensures -0x8000 <= Signed(x) - Signed(y) < 0x8000 ==> Signed(Minus(x, y)) == Signed(x) - Signed(y)
    ensures Minus(Plus(x, y), y) == x && Plus(Minus(x, y), y) == x
  {
    WrappingIsExact(x, Signed(x) + Signed(y));
    WrappingIsExact(x, Signed(x) - Signed(y));
    WrappedAgain(Signed(x) + Signed(y), -Signed(y));
    WrappedAgain(Signed(x) - Signed(y), Signed(y));
  }
}
