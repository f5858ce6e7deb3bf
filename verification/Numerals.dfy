/** Number printing: itoa() with the reversal in place, and the number cases of printf(). */
module Numerals {
  import opened Types

  /** The digits of a number, most significant first, without leading zeros. */
  function Digits(v: nat, radix: nat): (r: seq<nat>)
    requires radix >= 2
    ensures |r| >= 1
    decreases v
  {
    if v < radix then [v]
    else
      DivSmaller(v, radix);
      Digits(v / radix, radix) + [v % radix]
  }

  /** The number that a sequence of digits denotes. */
  function Denotes(digits: seq<nat>, radix: nat): nat {
    if digits == [] then 0
    else Denotes(digits[..|digits| - 1], radix) * radix + digits[|digits| - 1]
  }

  lemma DivSmaller(v: nat, radix: nat)
    requires radix >= 2
    ensures 0 <= v / radix <= v / 2
    ensures v > 0 ==> v / radix < v
  {
  }

  lemma {:induction false} DigitsBelowRadix(v: nat, radix: nat)
    requires radix >= 2
    ensures forall i | 0 <= i < |Digits(v, radix)| :: Digits(v, radix)[i] < radix
    decreases v
  {
    if v >= radix {
      DivSmaller(v, radix);
      DigitsBelowRadix(v / radix, radix);
    }
  }

  /** Only zero has a numeral that starts with a zero. */
  lemma {:induction false} NoLeadingZero(v: nat, radix: nat)
    requires radix >= 2
    ensures Digits(v, radix)[0] == 0 ==> v == 0
    decreases v
  {
    if v >= radix {
      DivSmaller(v, radix);
      NoLeadingZero(v / radix, radix);
      QuotientPositive(v, radix);
    }
  }

  lemma QuotientPositive(v: nat, radix: nat)
    requires v >= radix >= 2
    ensures v / radix >= 1
  {
  }

  lemma DenotesLonger(digits: seq<nat>, d: nat, radix: nat, x: nat)
    requires Denotes(digits, radix) == x
    ensures Denotes(digits + [d], radix) == x * radix + d
  {
  }

  lemma Recompose(v: nat, radix: nat)
    requires radix >= 2
    ensures v / radix * radix + v % radix == v
  {
  }

  /** Reading the digits back gives the number. */
  lemma {:induction false} DigitsDenote(v: nat, radix: nat)
    requires radix >= 2
    ensures Denotes(Digits(v, radix), radix) == v
    decreases v
  {
    if v < radix {
      assert Digits(v, radix) == [] + [v];
      DenotesLonger([], v, radix, 0);
    } else {
      DivSmaller(v, radix);
      var q, r := v / radix, v % radix;
      DigitsDenote(q, radix);
      DenotesLonger(Digits(q, radix), r, radix, q);
      Recompose(v, radix);
    }
  }

  function Pow2(k: nat): nat {
    if k == 0 then 1 else 2 * Pow2(k - 1)
  }

  lemma {:induction false} DigitsFit(v: nat, radix: nat, k: nat)
    requires radix >= 2 && k >= 1 && v < Pow2(k)
    ensures |Digits(v, radix)| <= k
    decreases k
  {
    if v >= radix {
      DivSmaller(v, radix);
      assert k > 1;
      DigitsFit(v / radix, radix, k - 1);
    }
  }

  /** Sixteen values fit a digit of four bits. */
  lemma {:induction false} HexDigitsFit(v: nat, k: nat)
    requires k >= 1 && v < Pow2(4 * k)
    ensures |Digits(v, 16)| <= k
    decreases k
  {
    if v >= 16 {
      assert k > 1;
      assert Pow2(4 * k) == 16 * Pow2(4 * (k - 1)) by {
        assert Pow2(4 * k) == 2 * Pow2(4 * k - 1) && Pow2(4 * k - 1) == 2 * Pow2(4 * k - 2);
        assert Pow2(4 * k - 2) == 2 * Pow2(4 * k - 3) && Pow2(4 * k - 3) == 2 * Pow2(4 * k - 4);
      }
      HexDigitsFit(v / 16, k - 1);
    }
  }

  lemma WordIsPow2()
    ensures Pow2(32) == 0x1_0000_0000
  {
    assert Pow2(8) == 0x100;
    assert Pow2(16) == 0x1_0000;
    assert Pow2(24) == 0x100_0000;
  }

  /** The character that itoa() looks up for a digit, and back. */
  function Lookup(d: nat): byte
    requires d < 36
  {
    if d < 10 then 48 + d else 65 + d - 10
  }

  lemma LookupIs(d: nat)
    requires d < 36
    ensures Lookup(d) as char == "0123456789ABCDEFGHIJKLMNOPQRSTUVWXYZ"[d]
  {
  }

  function DigitOf(c: byte): nat {
    if 48 <= c < 58 then c - 48 else if 65 <= c < 91 then c - 65 + 10 else 0
  }

  function Characters(digits: seq<nat>): (r: seq<byte>)
    requires forall i | 0 <= i < |digits| :: digits[i] < 36
    ensures |r| == |digits|
  {
    seq(|digits|, i requires 0 <= i < |digits| => Lookup(digits[i]))
  }

  function DigitsOf(text: seq<byte>): seq<nat> {
    seq(|text|, i requires 0 <= i < |text| => DigitOf(text[i]))
  }

  ghost function Numeral(v: nat, radix: nat): (r: seq<byte>)
    requires 2 <= radix <= 36
    ensures |r| == |Digits(v, radix)|
  {
    DigitsBelowRadix(v, radix);
    Characters(Digits(v, radix))
  }

  lemma NumeralCharacters(v: nat, radix: nat)
    requires 2 <= radix <= 36
    ensures forall i | 0 <= i < |Numeral(v, radix)| ::
              && Digits(v, radix)[i] < radix
              && Numeral(v, radix)[i] == Lookup(Digits(v, radix)[i]) != NUL
              && DigitOf(Numeral(v, radix)[i]) == Digits(v, radix)[i]
  {
    DigitsBelowRadix(v, radix);
  }

  /** A numeral reads back as its number, and starts with '0' only for zero. */
  lemma {:induction false} NumeralReadsBack(v: nat, radix: nat)
    requires 2 <= radix <= 36
    ensures Denotes(DigitsOf(Numeral(v, radix)), radix) == v
    ensures Numeral(v, radix)[0] == 48 ==> v == 0
  {
    NumeralCharacters(v, radix);
    DigitsDenote(v, radix);
    NoLeadingZero(v, radix);
    assert DigitsOf(Numeral(v, radix)) == Digits(v, radix);
  }

  /** A 32-bit number has at most 32 digits in any radix. */
  lemma NumeralFits(v: u32, radix: nat)
    requires 2 <= radix <= 36
    ensures |Numeral(v, radix)| <= 32
  {
    WordIsPow2();
    DigitsFit(v, radix, 32);
  }

  /** The digits as itoa()'s loop produces them, least significant first. */
  function LowFirst(v: nat, radix: nat): (r: seq<nat>)
    requires radix >= 2
    decreases v
  {
    if v == 0 then []
    else
      DivSmaller(v, radix);
      [v % radix] + LowFirst(v / radix, radix)
  }

  function Reversed<T>(s: seq<T>): (r: seq<T>)
    ensures |r| == |s|
  {
    seq(|s|, i requires 0 <= i < |s| => s[|s| - 1 - i])
  }

  lemma {:induction false} LowFirstIsReversed(v: nat, radix: nat)
    requires radix >= 2 && v > 0
    ensures LowFirst(v, radix) == Reversed(Digits(v, radix))
    decreases v
  {
    DivSmaller(v, radix);
    if v < radix {
      DivModIs(v, radix, 0, v);
      assert LowFirst(0, radix) == [];
    } else {
      QuotientPositive(v, radix);
      LowFirstIsReversed(v / radix, radix);
    }
  }

  /** A string of length n and its terminating NUL at an offset. */
  predicate StringAt(buf: seq<byte>, at: nat, n: nat) {
    at + n < |buf| && buf[at + n] == NUL && forall i | at <= i < at + n :: buf[i] != NUL
  }

  /** strlen() of the string at an offset. */
  method Strlen(buf: array<byte>, at: nat, ghost n: nat) returns (len: nat)
    requires StringAt(buf[..], at, n)
    ensures len == n
  {
    len := 0;
    while buf[at + len] != NUL
      invariant len <= n
      decreases n - len
    {
      len := len + 1;
    }
  }

  /** The buffer with a text placed at an offset. */
  function Placed(buf: seq<byte>, at: nat, text: seq<byte>): (r: seq<byte>)
    requires at + |text| <= |buf|
    ensures |r| == |buf|
  {
    seq(|buf|, i requires 0 <= i < |buf| => if at <= i < at + |text| then text[i - at] else buf[i])
  }

  /** strrev() reverses the string at an offset in place. */
  method Strrev(buf: array<byte>, at: nat, ghost n: nat)
    requires StringAt(buf[..], at, n)
    modifies buf
    ensures buf[..] == Placed(old(buf[..]), at, Reversed(old(buf[at..at + n])))
  {
    var len: int := Strlen(buf, at, n);
    var beg, end := 0, len - 1;
    while beg < end
      invariant 0 <= beg && beg + end == n - 1 && end >= beg - 2
      invariant forall i | 0 <= i < buf.Length ::
                  buf[i] == if at <= i < at + beg || at + end < i < at + n then old(buf[at + n - 1 - (i - at)]) else old(buf[i])
    {
      var tmp := buf[at + end];
      buf[at + end] := buf[at + beg];
      buf[at + beg] := tmp;
      beg := beg + 1;
      end := end - 1;
    }
    ghost var was := old(buf[..]);
    assert forall i | at <= i < at + n :: buf[i] == was[at + n - 1 - (i - at)];
    ReversedInPlace(was, buf[..], at, n);
  }

  lemma ReversedInPlace(was: seq<byte>, now: seq<byte>, at: nat, n: nat)
    requires |now| == |was| && at + n <= |was|
    requires forall i | at <= i < at + n :: now[i] == was[at + n - 1 - (i - at)]
    requires forall i | 0 <= i < |was| && !(at <= i < at + n) :: now[i] == was[i]
    ensures now == Placed(was, at, Reversed(was[at..at + n]))
  {
    var text := was[at..at + n];
    var placed := Placed(was, at, Reversed(text));
    forall i | 0 <= i < |was| ensures now[i] == placed[i] {
      if at <= i < at + n {
        var j := n - 1 - (i - at);
        assert placed[i] == Reversed(text)[i - at] == text[j] == was[at + j];
        assert now[i] == was[at + j];
      } else {
        assert now[i] == was[i] == placed[i];
      }
    }
  }

  lemma NumeralFromLoop(v: nat, radix: nat, text: seq<byte>)
    requires 2 <= radix <= 36 && v > 0 && |text| == |LowFirst(v, radix)|
    requires forall i | 0 <= i < |text| :: LowFirst(v, radix)[i] < 36 && text[i] == Lookup(LowFirst(v, radix)[i])
    ensures Reversed(text) == Numeral(v, radix)
    ensures NUL !in text
  {
    LowFirstIsReversed(v, radix);
    NumeralCharacters(v, radix);
  }

  lemma LoopLeavesString(buf: seq<byte>, at: nat, n: nat, v: nat, radix: nat)
    requires 2 <= radix <= 36 && v > 0 && n == |LowFirst(v, radix)| && at + n < |buf| && buf[at + n] == NUL
    requires forall i | 0 <= i < n :: LowFirst(v, radix)[i] < 36 && buf[at + i] == Lookup(LowFirst(v, radix)[i])
    ensures StringAt(buf, at, n) && Reversed(buf[at..at + n]) == Numeral(v, radix)
  {
    var text := buf[at..at + n];
    NumeralFromLoop(v, radix, text);
    assert forall i | at <= i < at + n :: buf[i] == text[i - at];
  }

  lemma PlacedWithNul(was: seq<byte>, mid: seq<byte>, at: nat, text: seq<byte>)
    requires at + |text| < |was| && |mid| == |was| && mid[at + |text|] == NUL
    requires forall j | 0 <= j < |was| && !(at <= j <= at + |text|) :: mid[j] == was[j]
    ensures Placed(mid, at, text) == Placed(was, at, text + [NUL])
  {
  }

  /** The loop of itoa(), which stores the digits least significant first. */
  method StoreDigits(value: u32, buf: array<byte>, at: nat, radix: nat) returns (n: nat)
    requires 2 <= radix <= 36 && value > 0
    requires at + |LowFirst(value, radix)| < buf.Length
    modifies buf
    ensures n == |LowFirst(value, radix)|
    ensures forall j | 0 <= j < buf.Length && !(at <= j < at + n) :: buf[j] == old(buf[j])
    ensures forall i | 0 <= i < n :: LowFirst(value, radix)[i] < 36 && buf[at + i] == Lookup(LowFirst(value, radix)[i])
  {
    ghost var low := LowFirst(value, radix);
    n := 0;
    var newval := value;
    while newval > 0
      invariant 0 <= newval < 0x1_0000_0000 && n <= |low| && low[n..] == LowFirst(newval, radix)
      invariant forall i | 0 <= i < n :: low[i] < 36 && buf[at + i] == Lookup(low[i])
      invariant forall j | 0 <= j < buf.Length && !(at <= j < at + n) :: buf[j] == old(buf[j])
      decreases newval
    {
      DivSmaller(newval, radix);
      var i := newval % radix;
      assert low[n] == i;
      assert low[n..][1..] == low[n + 1..];
      buf[at + n] := Lookup(i);
      n := n + 1;
      newval := newval / radix;
    }
    assert low[n..] == [];
  }

  /** itoa() writes the numeral and a NUL at an offset, and nothing else. */
  method Itoa(value: u32, buf: array<byte>, at: nat, radix: nat) returns (ghost n: nat)
    requires 2 <= radix <= 36
    requires at + |Numeral(value, radix)| < buf.Length
    modifies buf
    ensures n == |Numeral(value, radix)|
    ensures buf[..] == Placed(old(buf[..]), at, Numeral(value, radix) + [NUL])
  {
    n := |Numeral(value, radix)|;
    if value == 0 {
      assert Digits(0, radix) == [0];
      buf[at] := 48;
      buf[at + 1] := NUL;
    } else {
      ItoaNonzero(value, buf, at, radix, n);
    }
  }

  method ItoaNonzero(value: u32, buf: array<byte>, at: nat, radix: nat, ghost n: nat)
    requires 2 <= radix <= 36 && value > 0
    requires n == |Numeral(value, radix)| && at + n < buf.Length
    modifies buf
    ensures buf[..] == Placed(old(buf[..]), at, Numeral(value, radix) + [NUL])
  {
    LowFirstIsReversed(value, radix);
    var len := StoreDigits(value, buf, at, radix);
    buf[at + len] := NUL;
    ghost var mid := buf[..];
    LoopLeavesString(mid, at, n, value, radix);
    Strrev(buf, at, n);
    PlacedWithNul(old(buf[..]), mid, at, Numeral(value, radix));
  }

  /** puts(): the bytes printed are those of the string. */
  method Puts(buf: array<byte>, at: nat, ghost n: nat) returns (printed: seq<byte>)
    requires StringAt(buf[..], at, n)
    ensures printed == buf[at..at + n]
  {
    printed := [];
    var index := 0;
    while buf[at + index] != NUL
      invariant index <= n && printed == buf[at..at + index]
      decreases n - index
    {
      printed := printed + [buf[at + index]];
      index := index + 1;
    }
  }

  /** A numeral placed with its NUL is a string there. */
  lemma PlacedIsString(buf: seq<byte>, at: nat, v: nat, radix: nat)
    requires 2 <= radix <= 36 && at + |Numeral(v, radix)| < |buf|
    ensures var r := Placed(buf, at, Numeral(v, radix) + [NUL]);
      StringAt(r, at, |Numeral(v, radix)|) && r[at..at + |Numeral(v, radix)|] == Numeral(v, radix) && r[..at] == buf[..at]
  {
  }

  /** %x and %u in printf(). */
  method PrintUnsigned(value: u32, radix: nat) returns (printed: seq<byte>)
    requires 2 <= radix <= 36
    ensures printed == Numeral(value, radix)
  {
    NumeralFits(value, radix);
    var convBuf := new byte[36](_ => NUL);
    PlacedIsString(convBuf[..], 0, value, radix);
    ghost var n := Itoa(value, convBuf, 0, radix);
    printed := Puts(convBuf, 0, n);
  }

  /** %d in printf(): a minus sign and the numeral of the magnitude, for the most negative number too. */
  method PrintSigned(value: int) returns (printed: seq<byte>)
    requires -0x8000_0000 <= value < 0x8000_0000
    ensures printed == if value < 0 then [45] + Numeral(-value, 10) else Numeral(value, 10)
  {
    if value < 0 {
      printed := PrintNegative(-value);
    } else {
      printed := PrintUnsigned(value, 10);
    }
  }

  method PrintNegative(magnitude: u32) returns (printed: seq<byte>)
    ensures printed == [45] + Numeral(magnitude, 10)
  {
    NumeralFits(magnitude, 10);
    var convBuf := new byte[36](_ => NUL);
    convBuf[0] := 45;
    PlacedIsString(convBuf[..], 1, magnitude, 10);
    ghost var n := Itoa(magnitude, convBuf, 1, 10);
    assert convBuf[0] == convBuf[..1][0] == 45;
    assert convBuf[0..n + 1] == [45] + convBuf[1..1 + n];
    printed := Puts(convBuf, 0, n + 1);
  }

  ghost function Zeros(n: nat): (r: seq<byte>)
    ensures |r| == n
  {
    seq(n, _ => 48)
  }

  lemma {:induction false} LeadingZeros(zeros: nat, digits: seq<nat>, radix: nat)
    ensures Denotes(seq(zeros, _ => 0) + digits, radix) == Denotes(digits, radix)
    decreases zeros + |digits|
  {
    var all := seq(zeros, _ => 0) + digits;
    if digits != [] {
      assert all[..|all| - 1] == seq(zeros, _ => 0) + digits[..|digits| - 1];
      LeadingZeros(zeros, digits[..|digits| - 1], radix);
    } else if zeros > 0 {
      assert all[..|all| - 1] == seq(zeros - 1, _ => 0) + digits;
      LeadingZeros(zeros - 1, digits, radix);
    }
  }

  lemma HexNumeralFits(value: u32)
    ensures |Numeral(value, 16)| <= 8
  {
    WordIsPow2();
    HexDigitsFit(value, 8);
  }

  /** The numeral in radix 16 with zeros in front, eight characters in all. */
  ghost function PaddedHex(value: u32): (r: seq<byte>)
    ensures |r| == 8
  {
    HexNumeralFits(value);
    Zeros(8 - |Numeral(value, 16)|) + Numeral(value, 16)
  }

  lemma PaddedDigit(value: u32, i: nat)
    requires i < 8
    ensures var zeros, c := 8 - |Numeral(value, 16)|, PaddedHex(value)[i];
      && DigitOf(c) == (if i < zeros then 0 else Digits(value, 16)[i - zeros]) < 16
      && c == Lookup(DigitOf(c))
  {
    NumeralCharacters(value, 16);
  }

  /** The eight characters are hexadecimal digits and still denote the number. */
  lemma {:induction false} PaddedReadsBack(value: u32)
    ensures Denotes(DigitsOf(PaddedHex(value)), 16) == value
    ensures forall i | 0 <= i < 8 ::
              DigitOf(PaddedHex(value)[i]) < 16 && PaddedHex(value)[i] == Lookup(DigitOf(PaddedHex(value)[i]))
  {
    var text, zeros, digits := PaddedHex(value), 8 - |Numeral(value, 16)|, Digits(value, 16);
    forall i | 0 <= i < 8
      ensures text[i] == Lookup(DigitOf(text[i]))
      ensures DigitOf(text[i]) == (if i < zeros then 0 else digits[i - zeros]) < 16
    {
      PaddedDigit(value, i);
    }
    assert DigitsOf(text) == seq(zeros, _ => 0) + digits;
    LeadingZeros(zeros, digits, 16);
    DigitsDenote(value, 16);
  }

  /** %#x in printf() prints exactly eight characters, the zero-padded numeral. */
  method PrintAlternateHex(value: u32) returns (printed: seq<byte>)
    ensures printed == PaddedHex(value)
  {
    HexNumeralFits(value);
    var convBuf := new byte[64](_ => NUL);
    PlacedIsString(convBuf[..], 8, value, 16);
    ghost var n := Itoa(value, convBuf, 8, 16);
    ghost var text := convBuf[8..8 + n];
    var startingIndex := Strlen(convBuf, 8, n);
    var i := startingIndex;
    while i < 8
      invariant n <= i <= 8
      invariant forall j | n <= j < i :: convBuf[j] == 48
      invariant convBuf[8..8 + n] == text && convBuf[8 + n] == NUL
    {
      convBuf[i] := 48;
      i := i + 1;
    }
    PaddedIsString(convBuf[..], value, n);
    printed := Puts(convBuf, startingIndex, 8);
  }

  lemma PaddedIsString(buf: seq<byte>, value: u32, n: nat)
    requires n == |Numeral(value, 16)| <= 8 && 8 + n < |buf|
    requires forall j | n <= j < 8 :: buf[j] == 48
    requires buf[8..8 + n] == Numeral(value, 16) && buf[8 + n] == NUL
    ensures StringAt(buf, n, 8) && buf[n..n + 8] == PaddedHex(value)
  {
    NumeralCharacters(value, 16);
    var text := Numeral(value, 16);
    forall j | n <= j < n + 8 ensures buf[j] == PaddedHex(value)[j - n] != NUL {
      if j >= 8 {
        assert buf[j] == buf[8..8 + n][j - 8] == text[j - 8];
      }
    }
  }
}
