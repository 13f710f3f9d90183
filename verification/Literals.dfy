/**
 Numeric literals and what they mean (crates/lib/mrs-core/src/literal.rs:92-176,
 crates/lib/mrs-asm/src/assembler.rs:195-251, crates/lib/mrs-asm/src/ast.rs:94-106).
 */
module Literals {
  import opened Words
  import opened Patterns

  datatype Radix = Binary | Octal | Decimal | Hexadecimal {
    function Base(): nat {
      match this
      case Binary => 2
      case Octal => 8
      case Decimal => 10
      case Hexadecimal => 16
    }
  }

  /** `char::to_digit`: the value of a digit or letter, if it is one in this base. */
  function Digit(c: char, base: nat): (d: Option<nat>)
    ensures d.Some? ==> d.value < base
  {
    var value := if '0' <= c <= '9' then c as int - '0' as int
                 else if 'a' <= c <= 'z' then c as int - 'a' as int + 10
                 else if 'A' <= c <= 'Z' then c as int - 'A' as int + 10
                 else 36;
    if value < base then Some(value) else None
  }

  predicate AllDigits(s: string, base: nat) {
    forall i :: 0 <= i < |s| ==> Digit(s[i], base).Some?
  }

  lemma Times(a: nat, b: nat, c: nat)
    requires a <= b
    ensures a * c <= b * c && (c > 0 ==> a <= a * c)
  {
  }

  /** What a digit string means, with no width: most significant digit first. */
  function Meaning(s: string, base: nat): nat
    requires AllDigits(s, base)
  {
    if s == [] then 0 else Meaning(s[..|s| - 1], base) * base + Digit(s[|s| - 1], base).value
  }

  // ----- address operands -----

  predicate IsDecimalDigit(c: char) {
    '0' <= c <= '9'
  }

  /** `/^\d[0-9a-fA-F]*$/`: hexadecimal throughout, with a decimal digit first. */
  predicate LooksLikeAddress(s: string) {
    s != [] && IsDecimalDigit(s[0]) && forall i :: 0 <= i < |s| ==> IsHex(s[i])
  }

  function TrimZeros(s: string): (t: string)
    ensures t == [] || t[0] != '0'
    ensures |t| <= |s|
  {
    if s != [] && s[0] == '0' then TrimZeros(s[1..]) else s
  }

  lemma {:induction false} OnlyZerosTrimmed(s: string)
    ensures TrimZeros(s) == s[|s| - |TrimZeros(s)|..]
    ensures forall i :: 0 <= i < |s| - |TrimZeros(s)| ==> s[i] == '0'
  {
    if s != [] && s[0] == '0' {
      OnlyZerosTrimmed(s[1..]);
    }
  }

  /** `uN::from_str_radix`: accumulates digits, failing as soon as the value leaves `0..limit`. */
  function Accumulate(s: string, base: nat, limit: nat): Option<nat>
    requires AllDigits(s, base)
  {
    if s == [] then Some(0)
    else
      match Accumulate(s[..|s| - 1], base, limit)
      case None => None
      case Some(high) =>
        var value := high * base + Digit(s[|s| - 1], base).value;
        if value < limit then Some(value) else None
  }

  /** The address an operand literal names, or nothing if it does not fit the field. */
  function AddressLiteral(s: string): (r: Option<Address>)
    requires forall i :: 0 <= i < |s| ==> IsHex(s[i])
  {
    var digits := TrimZeros(s);
    OnlyZerosTrimmed(s);
    HexDigits(digits);
    var value := if digits == [] then Some(0)
                 else if |digits| <= 3 then Accumulate(digits, 16, 0x1_0000)
                 else None;
    if value.Some? && value.value < WORDS_IN_MEMORY then Some(value.value) else None
  }

  lemma HexDigits(s: string)
    requires forall i :: 0 <= i < |s| ==> IsHex(s[i])
    ensures AllDigits(s, 16)
  {
  }

  lemma {:induction false} AccumulateIsMeaning(s: string, base: nat, limit: nat)
    requires AllDigits(s, base) && base > 0 && limit > 0
    ensures Accumulate(s, base, limit) == if Meaning(s, base) < limit then Some(Meaning(s, base)) else None
  {
    if s != [] {
      var high := s[..|s| - 1];
      AccumulateIsMeaning(high, base, limit);
      Times(Meaning(high, base), Meaning(high, base), base);
    }
  }

  function Pow(base: nat, n: nat): nat {
    if n == 0 then 1 else base * Pow(base, n - 1)
  }

  lemma OneMoreDigit(high: nat, digit: nat, bound: nat, base: nat)
    requires high < bound && digit < base
    ensures high * base + digit < bound * base
  {
    Times(high + 1, bound, base);
    assert (high + 1) * base == high * base + base;
  }

  lemma {:induction false} MeaningBound(s: string, base: nat)
    requires AllDigits(s, base) && base > 0
    ensures Meaning(s, base) < Pow(base, |s|)
  {
    if s != [] {
      var high := s[..|s| - 1];
      MeaningBound(high, base);
      OneMoreDigit(Meaning(high, base), Digit(s[|s| - 1], base).value, Pow(base, |s| - 1), base);
    }
  }

  /** A non-zero leading digit is worth its place. */
  lemma {:induction false} MeaningAtLeast(s: string, base: nat)
    requires AllDigits(s, base) && base > 0 && s != [] && Digit(s[0], base).value > 0
    ensures Meaning(s, base) >= Pow(base, |s| - 1)
  {
    if |s| == 1 {
      assert s[..0] == [];
    } else {
      var high := s[..|s| - 1];
      MeaningAtLeast(high, base);
      Times(Pow(base, |s| - 2), Meaning(high, base), base);
      assert Pow(base, |s| - 1) == Pow(base, |s| - 2) * base;
    }
  }

  lemma {:induction false} LeadingZeros(s: string, k: nat, base: nat)
    requires AllDigits(s, base) && base > 0 && k <= |s|
    requires forall i :: 0 <= i < k ==> s[i] == '0'
    ensures Meaning(s[k..], base) == Meaning(s, base)
    decreases |s|
  {
    if k == |s| {
      if s != [] {
        LeadingZeros(s[..|s| - 1], k - 1, base);
        assert s[k..] == s[..|s| - 1][k - 1..] == [];
      }
    } else {
      LeadingZeros(s[..|s| - 1], k, base);
      assert s[k..][..|s[k..]| - 1] == s[..|s| - 1][k..];
    }
  }

  /** Without leading zeros, fitting twelve bits is having at most three digits. */
  lemma ThreeDigits(digits: string)
    requires AllDigits(digits, 16) && (digits == [] || digits[0] != '0')
    ensures |digits| <= 3 <==> Meaning(digits, 16) <= 0xFFF
  {
    if |digits| <= 3 {
      MeaningBound(digits, 16);
      PowSixteen(|digits|);
    } else {
      MeaningAtLeast(digits, 16);
      PowSixteen(|digits| - 1);
    }
  }

  /**
   Whatever its length, an address operand is accepted exactly when the number it spells is
   at most FFF, and then it is that number.
   */
  lemma AddressLiteralsMeanWhatTheySpell(s: string)
    requires forall i :: 0 <= i < |s| ==> IsHex(s[i])
    ensures AllDigits(s, 16)
    ensures AddressLiteral(s) == if Meaning(s, 16) <= 0xFFF then Some(Meaning(s, 16)) else None
  {
    HexDigits(s);
    var digits := TrimZeros(s);
    OnlyZerosTrimmed(s);
    HexDigits(digits);
    LeadingZeros(s, |s| - |digits|, 16);
    ThreeDigits(digits);
    AccumulateIsMeaning(digits, 16, 0x1_0000);
  }

  lemma {:induction false} PowSixteen(n: nat)
    ensures n <= 3 ==> Pow(16, n) <= 0x1000
    ensures n >= 3 ==> Pow(16, n) >= 0x1000
  {
    if n <= 3 {
      assert Pow(16, 1) == 16 && Pow(16, 2) == 256 && Pow(16, 3) == 4096;
    } else {
      PowSixteen(n - 1);
    }
  }

  /** `unknown_label_help`: when writing a leading zero is suggested. */
  predicate SuggestsLeadingZero(s: string) {
    s != [] && (forall i :: 0 <= i < |s| ==> IsHex(s[i])) && |TrimZeros(s)| <= 3
  }

  lemma SuggestedFits(s: string)
    requires SuggestsLeadingZero(s)
    ensures AllDigits(s, 16) && Meaning(s, 16) <= 0xFFF
  {
    HexDigits(s);
    var digits := TrimZeros(s);
    OnlyZerosTrimmed(s);
    HexDigits(digits);
    LeadingZeros(s, |s| - |digits|, 16);
    ThreeDigits(digits);
  }

  /** A zero in front changes neither the digits nor the number. */
  lemma ZeroInFront(t: string)
    requires t != [] && t[0] == '0' && forall i :: 0 <= i < |t| ==> IsHex(t[i])
    ensures AllDigits(t, 16) && AllDigits(t[1..], 16) && Meaning(t, 16) == Meaning(t[1..], 16)
  {
    HexDigits(t);
    LeadingZeros(t, 1, 16);
  }

  /** The suggested repair is always a literal, always in range, and always the intended number. */
  lemma SuggestedRepairParses(s: string)
    requires SuggestsLeadingZero(s)
    ensures AllDigits(s, 16)
    ensures LooksLikeAddress("0" + s) && AddressLiteral("0" + s) == Some(Meaning(s, 16))
  {
    var t := "0" + s;
    assert t[1..] == s;
    SuggestedFits(s);
    ZeroInFront(t);
    AddressLiteralsMeanWhatTheySpell(t);
  }

  // ----- DEC, OCT and HEX -----

  datatype ParseError = Empty | InvalidDigit | UnexpectedSign | OutOfRange

  datatype ParsedWord = Fits(value: Word) | Bad(error: ParseError)

  function TrimStart(ws: char -> bool, s: string): (t: string)
    ensures |t| <= |s|
    ensures t != [] ==> !ws(t[0])
  {
    if s != [] && ws(s[0]) then TrimStart(ws, s[1..]) else s
  }

  lemma {:induction false} TrimStartKeepsEnd(ws: char -> bool, s: string)
    ensures TrimStart(ws, s) == s[|s| - |TrimStart(ws, s)|..]
  {
    if s != [] && ws(s[0]) {
      TrimStartKeepsEnd(ws, s[1..]);
    }
  }

  function TrimEnd(ws: char -> bool, s: string): (t: string)
    ensures |t| <= |s|
    ensures t != [] ==> !ws(t[|t| - 1])
  {
    if s != [] && ws(s[|s| - 1]) then TrimEnd(ws, s[..|s| - 1]) else s
  }

  /** `split_sign`: an optional leading `-`, blanks around it ignored. */
  function SplitSign(ws: char -> bool, literal: string): (bool, string) {
    var trimmed := TrimStart(ws, TrimEnd(ws, literal));
    if trimmed != [] && trimmed[0] == '-' then (true, TrimStart(ws, trimmed[1..])) else (false, trimmed)
  }

  /** Sign and digits to a word, by way of a `u32` and a `u16`. */
  function FinishWord(negative: bool, digits: string, base: nat): ParsedWord {
    if digits == [] then Bad(Empty)
    else if !AllDigits(digits, base) then Bad(InvalidDigit)
    else
      match Accumulate(digits, base, 0x1_0000_0000)
      case None => Bad(OutOfRange)
      case Some(magnitude) =>
        if magnitude > (if negative then 0x8000 else 0xFFFF) then Bad(OutOfRange)
        else Fits(if negative then Wrapped(-Signed(Wrapped(magnitude))) else magnitude)
  }

  function ParseWord(ws: char -> bool, literal: string, radix: Radix): ParsedWord {
    var (negative, digits) := SplitSign(ws, literal);
    if negative && radix != Decimal then Bad(UnexpectedSign) else FinishWord(negative, digits, radix.Base())
  }

  /** Negation in sixteen bits is negation of the number it stands for. */
  lemma NegatedWord(magnitude: nat)
    requires magnitude <= 0x8000
    ensures Wrapped(-Signed(Wrapped(magnitude))) == (0 - magnitude) % 0x1_0000
  {
  }

  /** The integer a sign and digits spell, with no width. */
  function SignedMeaning(negative: bool, digits: string, base: nat): int
    requires AllDigits(digits, base)
  {
    if negative then -(Meaning(digits, base) as int) else Meaning(digits, base)
  }

  /** That integer in sixteen bits, if it is a signed or an unsigned word. */
  function Fitted(value: int): ParsedWord {
    if -0x8000 <= value <= 0xFFFF then Fits(value % 0x1_0000) else Bad(OutOfRange)
  }

  lemma DigitsMeanTheirInteger(negative: bool, digits: string, base: nat)
    requires digits != [] && AllDigits(digits, base) && base > 0
    ensures FinishWord(negative, digits, base) == Fitted(SignedMeaning(negative, digits, base))
  {
    AccumulateIsMeaning(digits, base, 0x1_0000_0000);
    var magnitude := Meaning(digits, base);
    if negative && magnitude <= 0x8000 {
      NegatedWord(magnitude);
    }
  }

  /** What sign and digits mean: the integer they spell, if they spell one and it fits. */
  function Meant(negative: bool, digits: string, base: nat): ParsedWord {
    if digits == [] then Bad(Empty)
    else if !AllDigits(digits, base) then Bad(InvalidDigit)
    else Fitted(SignedMeaning(negative, digits, base))
  }

  /** They are read as what they mean, whatever literal they were split from. */
  lemma FinishedWord(negative: bool, digits: string, base: nat)
    requires base > 0
    ensures FinishWord(negative, digits, base) == Meant(negative, digits, base)
  {
    if digits != [] && AllDigits(digits, base) {
      DigitsMeanTheirInteger(negative, digits, base);
    }
  }

  /**
   A literal is a word exactly when it is a non-empty digit string, signed only in decimal,
   whose value lies in -32768..65535; and the word is that value modulo 2^16, although it
   was read through a `u32` that long literals overflow.
   */
  lemma LiteralsMeanTheirInteger(ws: char -> bool, literal: string, radix: Radix)
    ensures var (negative, digits) := SplitSign(ws, literal);
      ParseWord(ws, literal, radix) ==
        if negative && radix != Decimal then Bad(UnexpectedSign) else Meant(negative, digits, radix.Base())
  {
    var (negative, digits) := SplitSign(ws, literal);
    FinishedWord(negative, digits, radix.Base());
  }

  /** `split_prefixed_sign`: interactive input may also carry a `+`. */
  function SplitPrefixedSign(ws: char -> bool, literal: string): (bool, string) {
    var trimmed := TrimStart(ws, TrimEnd(ws, literal));
    if trimmed != [] && trimmed[0] == '-' then (true, TrimStart(ws, trimmed[1..]))
    else if trimmed != [] && trimmed[0] == '+' then (false, TrimStart(ws, trimmed[1..]))
    else (false, trimmed)
  }

  /** The base a prefix chooses, and the digits after it. */
  function Prefixed(body: string): (Radix, string) {
    if |body| < 2 || body[0] != '0' then (Decimal, body)
    else if LowerAscii(body[1]) == 'x' then (Hexadecimal, body[2..])
    else if LowerAscii(body[1]) == 'o' then (Octal, body[2..])
    else if LowerAscii(body[1]) == 'b' then (Binary, body[2..])
    else (Decimal, body)
  }

  /** Sign, base and digits. */
  function PrefixedParts(ws: char -> bool, literal: string): (bool, Radix, string) {
    var (negative, body) := SplitPrefixedSign(ws, literal);
    var (radix, digits) := Prefixed(body);
    (negative, radix, digits)
  }

  function ParsePrefixedWord(ws: char -> bool, literal: string): ParsedWord {
    var (negative, radix, digits) := PrefixedParts(ws, literal);
    FinishWord(negative, digits, radix.Base())
  }

  /** Interactive input means the integer it spells in the base its prefix chooses, with a sign in any base. */
  lemma PrefixedLiteralsMeanTheirInteger(ws: char -> bool, literal: string)
    ensures var (negative, radix, digits) := PrefixedParts(ws, literal);
      ParsePrefixedWord(ws, literal) == Meant(negative, digits, radix.Base())
  {
    var (negative, radix, digits) := PrefixedParts(ws, literal);
    FinishedWord(negative, digits, radix.Base());
  }

  /** A string of digits, perhaps with a sign. */
  predicate IsLiteral(ws: char -> bool, literal: string, radix: Radix) {
    var digits := SplitSign(ws, literal).1;
    digits != [] && AllDigits(digits, radix.Base())
  }

  function Integer(ws: char -> bool, literal: string, radix: Radix): int
    requires IsLiteral(ws, literal, radix)
  {
    var (negative, digits) := SplitSign(ws, literal);
    SignedMeaning(negative, digits, radix.Base())
  }

  lemma FittingLiteral(ws: char -> bool, literal: string, radix: Radix)
    requires ParseWord(ws, literal, radix).Fits?
    ensures IsLiteral(ws, literal, radix)
    ensures ParseWord(ws, literal, radix).value == Integer(ws, literal, radix) % 0x1_0000
  {
    LiteralsMeanTheirInteger(ws, literal, radix);
    assert ParseWord(ws, literal, radix) == Fitted(Integer(ws, literal, radix));
  }
}
