// Writing a Java long as its decimal text into a byte buffer, through a
// reusable scratch array that holds the digits least significant first.
module ByteBufUtils {
  import opened JavaInt

  /** The longest decimal text of a long: "-9223372036854775808". */
  const MAX_LONG_STRING: nat := 20

  /** A growable byte buffer that is only ever appended to. Bytes below 128
      are modelled as the ASCII character with that code. */
  class ByteBuf {
    var bytes: seq<char>

    constructor ()
      ensures bytes == []
    {
      bytes := [];
    }

    method WriteByte(b: char)
      modifies this
      ensures bytes == old(bytes) + [b]
    {
      bytes := bytes + [b];
    }

    /** `writeBytes(src)` */
    method WriteBytes(src: seq<char>)
      modifies this
      ensures bytes == old(bytes) + src
    {
      bytes := bytes + src;
    }
  }

  /** The buffer's US-ASCII encoding of one character: a UTF-16 unit of at
      most 255 is written as that byte, any other unit as '?'; a character
      outside the basic plane is two such units. */
  function AsciiOf(c: char): (r: string)
    ensures c as int <= 255 <==> r == [c]
    ensures c as int > 255 ==> r == ['?'] || r == ['?', '?']
  {
    if c as int <= 255 then [c] else if c as int <= 0xFFFF then ['?'] else ['?', '?']
  }

  function Ascii(s: string): (r: string)
    ensures |s| <= |r| <= 2 * |s|
    decreases |s|
  {
    if s == [] then [] else Ascii(s[..|s| - 1]) + AsciiOf(s[|s| - 1])
  }

  /** Text whose units are all at most 255 is written unchanged. */
  lemma {:induction false} AsciiIdentity(s: string)
    requires forall i :: 0 <= i < |s| ==> s[i] as int <= 255
    ensures Ascii(s) == s
    decreases |s|
  {
    if s != [] {
      var init, last := s[..|s| - 1], s[|s| - 1];
      assert s == init + [last];
      AsciiIdentity(init);
      assert AsciiOf(last) == [last];
    }
  }

  /** `writeCharSequence(s, US_ASCII)`: one byte per UTF-16 unit. */
  method WriteAscii(buf: ByteBuf, s: string)
    modifies buf
    ensures buf.bytes == old(buf.bytes) + Ascii(s)
  {
    var i := 0;
    while i < |s|
      invariant 0 <= i <= |s|
      invariant buf.bytes == old(buf.bytes) + Ascii(s[..i])
    {
      assert s[..i + 1][..i] == s[..i];
      assert Ascii(s[..i + 1]) == Ascii(s[..i]) + AsciiOf(s[i]);
      WriteChar(buf, s[i]);
      i := i + 1;
    }
    assert s[..|s|] == s;
  }

  /** One character of `writeCharSequence`. */
  method WriteChar(buf: ByteBuf, c: char)
    modifies buf
    ensures buf.bytes == old(buf.bytes) + AsciiOf(c)
  {
    if c as int <= 255 {
      buf.WriteByte(c);
    } else if c as int <= 0xFFFF {
      buf.WriteByte('?');
    } else {
      buf.WriteByte('?');
      buf.WriteByte('?');
    }
  }

  function DigitChar(d: nat): (c: char)
    requires d < 10
    ensures '0' <= c <= '9'
  {
    (48 + d) as char
  }

  predicate IsDigit(c: char) { '0' <= c <= '9' }

  function DigitValue(c: char): (d: nat)
    requires IsDigit(c)
    ensures d < 10 && DigitChar(d) == c
  {
    c as int - 48
  }

  /** The decimal digits of `n`, most significant first, without leading zeros. */
  function Digits(n: nat): (s: string)
    decreases n
  {
    if n < 10 then [DigitChar(n)] else Digits(n / 10) + [DigitChar(n % 10)]
  }

  /** The digits of `n` least significant first: the order in which the
      digit loop fills the scratch array. */
  function DigitsRev(n: nat): (s: string)
    decreases n
  {
    if n < 10 then [DigitChar(n)] else [DigitChar(n % 10)] + DigitsRev(n / 10)
  }

  /** What `Long.toString` gives for `v`. */
  function DecimalString(v: int): (s: string)
  {
    if v < 0 then ['-'] + Digits(-v) else Digits(v)
  }

  function Reverse(s: string): (r: string)
    ensures |r| == |s|
    ensures forall i :: 0 <= i < |s| ==> r[i] == s[|s| - 1 - i]
  {
    if s == [] then [] else Reverse(s[1..]) + [s[0]]
  }

  // ---- An independent reader of decimal text, the partner of the writer ----

  predicate AllDigits(s: string) { forall i :: 0 <= i < |s| ==> IsDigit(s[i]) }

  /** Non-empty digits with no leading zero, except "0" itself. */
  predicate Canonical(s: string)
  {
    |s| > 0 && AllDigits(s) && (s[0] == '0' ==> |s| == 1)
  }

  function DigitsValue(s: string): (n: nat)
    requires AllDigits(s)
  {
    if s == [] then 0 else DigitsValue(s[..|s| - 1]) * 10 + DigitValue(s[|s| - 1])
  }

  /** Reads the text `Long.toString` produces; anything else is rejected. */
  function ParseDecimal(s: string): (r: Option)
  {
    if |s| > 0 && s[0] == '-' then
      if Canonical(s[1..]) && s[1..] != "0" then Some(-(DigitsValue(s[1..]) as int)) else None
    else if Canonical(s) then Some(DigitsValue(s) as int)
    else None
  }

  datatype Option = None | Some(value: int)

  lemma {:induction false} DigitsCanonical(n: nat)
    ensures Canonical(Digits(n)) && DigitsValue(Digits(n)) == n
    ensures Digits(n) == "0" <==> n == 0
    decreases n
  {
    if n >= 10 {
      DigitsCanonical(n / 10);
      var s := Digits(n);
      assert s[..|s| - 1] == Digits(n / 10);
    }
  }

  lemma {:induction false} CanonicalIsDigits(s: string)
    requires Canonical(s)
    ensures Digits(DigitsValue(s)) == s
    decreases |s|
  {
    if |s| > 1 {
      var init := s[..|s| - 1];
      assert Canonical(init) by {
        assert forall i :: 0 <= i < |init| ==> init[i] == s[i];
      }
      CanonicalIsDigits(init);
      DigitsCanonical(DigitsValue(init));
      assert DigitsValue(init) != 0 by {
        assert init[0] == s[0];
      }
      assert s == init + [s[|s| - 1]];
    }
  }

  /** Reading back what is written gives the value again. */
  lemma DecimalRoundTrip(v: int)
    ensures ParseDecimal(DecimalString(v)) == Some(v)
  {
    if v < 0 {
      DigitsCanonical(-v);
      assert DecimalString(v)[1..] == Digits(-v);
    } else {
      DigitsCanonical(v);
    }
  }

  /** ... and the written text is the only text that reads as `v`. */
  lemma DecimalUnique(s: string, v: int)
    requires ParseDecimal(s) == Some(v)
    ensures s == DecimalString(v)
  {
    if |s| > 0 && s[0] == '-' {
      CanonicalIsDigits(s[1..]);
      assert s == ['-'] + s[1..];
    } else {
      CanonicalIsDigits(s);
    }
  }

  /** The decimal text of a long is plain ASCII, so writing it as US-ASCII keeps it. */
  lemma DecimalAscii(v: int)
    ensures Ascii(DecimalString(v)) == DecimalString(v)
  {
    var s := DecimalString(v);
    if v < 0 {
      DigitsCanonical(-v);
      assert forall i :: 1 <= i < |s| ==> s[i] == s[1..][i - 1];
    } else {
      DigitsCanonical(v);
    }
    AsciiIdentity(s);
  }

  lemma {:induction false} DigitsRevIsReverse(n: nat)
    ensures DigitsRev(n) == Reverse(Digits(n))
    decreases n
  {
    if n >= 10 {
      DigitsRevIsReverse(n / 10);
      var d := Digits(n / 10) + [DigitChar(n % 10)];
      assert Reverse(d) == [DigitChar(n % 10)] + Reverse(Digits(n / 10));
    }
  }

  function Pow10(k: nat): (p: nat)
    ensures p >= 1
  {
    if k == 0 then 1 else 10 * Pow10(k - 1)
  }

  lemma Pow10Of19()
    ensures Pow10(19) == 10_000_000_000_000_000_000
  {
    assert Pow10(1) == 10;
    assert Pow10(2) == 100;
    assert Pow10(3) == 1000;
    assert Pow10(4) == 10000;
    assert Pow10(5) == 100000;
    assert Pow10(6) == 1000000;
    assert Pow10(7) == 10000000;
    assert Pow10(8) == 100000000;
    assert Pow10(9) == 1000000000;
    assert Pow10(10) == 10000000000;
    assert Pow10(11) == 100000000000;
    assert Pow10(12) == 1000000000000;
    assert Pow10(13) == 10000000000000;
    assert Pow10(14) == 100000000000000;
    assert Pow10(15) == 1000000000000000;
    assert Pow10(16) == 10000000000000000;
    assert Pow10(17) == 100000000000000000;
    assert Pow10(18) == 1000000000000000000;
  }

  lemma {:induction false} DigitsLength(n: nat, k: nat)
    requires 1 <= k && n < Pow10(k)
    ensures |Digits(n)| <= k && |DigitsRev(n)| == |Digits(n)|
    decreases k
  {
    if n >= 10 {
      DigitsLength(n / 10, k - 1);
    }
  }

  /** Every long, Long.MIN_VALUE included, takes at most MAX_LONG_STRING
      characters, and the two extremes take 19 and 20. */
  lemma LongTextBound(v: int)
    requires IsLong(v)
    ensures |DigitsRev(Abs(v))| <= 19
    ensures |DecimalString(v)| <= MAX_LONG_STRING
  {
    Pow10Of19();
    DigitsLength(Abs(v), 19);
  }

  lemma {:induction false} DigitsLengthExact(n: nat, k: nat)
    requires 1 <= k && Pow10(k - 1) <= n < Pow10(k)
    ensures |Digits(n)| == k
    decreases k
  {
    if k > 1 {
      DigitsLengthExact(n / 10, k - 1);
    }
  }

  /** MAX_LONG_STRING is the length of the longer of the texts of
      Long.MAX_VALUE (19 characters) and Long.MIN_VALUE (20). */
  lemma MaxLongStringIsLongest()
    ensures |DecimalString(LONG_MAX)| == 19
    ensures MAX_LONG_STRING == |DecimalString(LONG_MIN)| == 20
  {
    Pow10Of19();
    DigitsLengthExact(LONG_MAX, 19);
    DigitsLengthExact(-LONG_MIN, 19);
  }

  /** One turn of the digit loop: the digit it writes and the value it
      continues with. */
  lemma DigitStep(r: int)
    requires r != 0
    ensures Abs(JRem(r, 10)) < 10 && Abs(JDiv(r, 10)) < Abs(r)
    ensures DigitsRev(Abs(r)) == [DigitChar(Abs(JRem(r, 10)))] +
      (if JDiv(r, 10) == 0 then [] else DigitsRev(Abs(JDiv(r, 10))))
  {
  }

  /** The scratch array `scratch` if it has room for `length` characters
      with one to spare, otherwise a new array of `maxSize` starting with the
      old contents. */
  method EnsureSpace(scratch: array<char>, length: nat, maxSize: nat) returns (r: array<char>)
    requires length >= scratch.Length ==> scratch.Length <= maxSize
    ensures length < scratch.Length ==> r == scratch
    ensures length >= scratch.Length ==> fresh(r) && r.Length == maxSize
    ensures r.Length >= scratch.Length && r[..scratch.Length] == scratch[..]
  {
    if length < scratch.Length {
      return scratch;
    }
    r := new char[maxSize](_ => ' ');
    var i := 0;
    while i < scratch.Length
      invariant 0 <= i <= scratch.Length
      invariant r[..i] == scratch[..i]
    {
      r[i] := scratch[i];
      i := i + 1;
    }
  }

  /** The digit loop: fills `scratch` (grown when needed) with the digits of
      `value` least significant first and says how many there are. */
  method CollectDigits(value: int, scratch: array<char>) returns (out: array<char>, index: nat)
    requires IsLong(value) && value != 0
    modifies scratch
    ensures index <= out.Length && out[..index] == DigitsRev(Abs(value))
    ensures out == scratch || (fresh(out) && out.Length == MAX_LONG_STRING)
  {
    LongTextBound(value);
    ghost var all := DigitsRev(Abs(value));
    var runValue := value;
    index := 0;
    out := scratch;
    while true
      invariant runValue != 0
      invariant 0 <= index < |all| && index <= out.Length
      invariant out[..index] + DigitsRev(Abs(runValue)) == all
      invariant out == scratch || (fresh(out) && out.Length == MAX_LONG_STRING)
      decreases Abs(runValue)
    {
      DigitStep(runValue);
      var tens := Abs(JRem(runValue, 10));
      var next := JDiv(runValue, 10);
      ghost var done := out[..index];
      ghost var later := if next == 0 then [] else DigitsRev(Abs(next));
      assert done + ([DigitChar(tens)] + later) == all;
      out := EnsureSpace(out, index + 1, MAX_LONG_STRING);
      assert out[..index] == done;
      out[index] := DigitChar(tens);
      index := index + 1;
      assert out[..index] == done + [DigitChar(tens)];
      Associative(done, [DigitChar(tens)], later);
      if next == 0 {
        return;
      }
      runValue := next;
    }
  }

  lemma Associative(a: string, b: string, c: string)
    ensures (a + b) + c == a + (b + c)
  {
  }

  /** The output loop: writes `out[index-1]` down to `out[0]`. */
  method WriteReversed(dest: ByteBuf, out: array<char>, index: nat)
    requires index <= out.Length
    modifies dest
    ensures dest.bytes == old(dest.bytes) + Reverse(out[..index])
  {
    ghost var digits := out[..index];
    var i := index - 1;
    while i >= 0
      invariant -1 <= i < index
      invariant dest.bytes == old(dest.bytes) + Reverse(digits)[..index - 1 - i]
    {
      assert Reverse(digits)[..index - i] == Reverse(digits)[..index - 1 - i] + [out[i]];
      dest.WriteByte(out[i]);
      i := i - 1;
    }
  }

  /** Appends the decimal text of `value` to `dest` and returns the scratch
      array to use next time. */
  method WriteString(dest: ByteBuf, value: int, scratch: array<char>) returns (out: array<char>)
    requires IsLong(value)
    modifies dest, scratch
    ensures dest.bytes == old(dest.bytes) + DecimalString(value)
    ensures -10 < value < 10 ==> out == scratch && scratch[..] == old(scratch[..])
    ensures out == scratch || (fresh(out) && out.Length == MAX_LONG_STRING)
  {
    if -10 < value < 10 {
      WriteOneDigit(dest, value);
      return scratch;
    }
    out := WriteManyDigits(dest, value, scratch);
  }

  /** The short cut for a value of one digit, with its sign. */
  method WriteOneDigit(dest: ByteBuf, value: int)
    requires -10 < value < 10
    modifies dest
    ensures dest.bytes == old(dest.bytes) + DecimalString(value)
  {
    if 0 <= value {
      assert DecimalString(value) == [DigitChar(value)];
      dest.WriteByte(DigitChar(value));
    } else {
      assert DecimalString(value) == ['-', DigitChar(-value)];
      dest.WriteByte('-');
      dest.WriteByte(DigitChar(-value));
    }
  }

  /** The digit loop into the scratch array, then the sign and the digits in
      reading order. */
  method WriteManyDigits(dest: ByteBuf, value: int, scratch: array<char>) returns (out: array<char>)
    requires IsLong(value) && !(-10 < value < 10)
    modifies dest, scratch
    ensures dest.bytes == old(dest.bytes) + DecimalString(value)
    ensures out == scratch || (fresh(out) && out.Length == MAX_LONG_STRING)
  {
    var index;
    out, index := CollectDigits(value, scratch);
    ghost var digits := out[..index];
    if value < 0 {
      dest.WriteByte('-');
    }
    ghost var mid := dest.bytes;
    WriteReversed(dest, out, index);
    assert dest.bytes == mid + Reverse(digits);
    SignThenDigits(old(dest.bytes), mid, value);
  }

  /** The sign, then the digits in reading order, make the decimal text. */
  lemma SignThenDigits(before: string, mid: string, value: int)
    requires mid == before + (if value < 0 then "-" else "")
    ensures mid + Reverse(DigitsRev(Abs(value))) == before + DecimalString(value)
  {
    TextOfDigits(value);
  }

  lemma TextOfDigits(value: int)
    ensures DecimalString(value) == (if value < 0 then "-" else "") + Reverse(DigitsRev(Abs(value)))
  {
    DigitsRevIsReverse(Abs(value));
    ReverseReverse(Digits(Abs(value)));
  }

  lemma {:induction false} ReverseReverse(s: string)
    ensures Reverse(Reverse(s)) == s
  {
    var r := Reverse(Reverse(s));
    assert forall i :: 0 <= i < |s| ==> r[i] == s[i];
  }
}
