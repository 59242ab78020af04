// Java's readers of decimal text: `Integer.parseInt` and `Long.parseLong`.
module JavaParse {
  import opened Wrappers
  import opened JavaInt
  import ByteBufUtils

  /**
   * `Integer.parseInt` / `Long.parseLong` with the range `lo..hi`: an optional
   * sign, then at least one decimal digit, and a value in range; anything else
   * throws, which is `None` here.
   */
  function ParseJava(s: string, lo: int, hi: int): (r: Option<int>)
    ensures r.Some? ==> lo <= r.value <= hi
    ensures r.Some? ==> |s| > 0
  {
    if |s| == 0 then None
    else if s[0] == '-' || s[0] == '+' then
      if |s| == 1 || !ByteBufUtils.AllDigits(s[1..]) then None
      else
        var m: int := ByteBufUtils.DigitsValue(s[1..]);
        var v := if s[0] == '-' then -m else m;
        if lo <= v <= hi then Some(v) else None
    else if !ByteBufUtils.AllDigits(s) then None
    else
      var v := ByteBufUtils.DigitsValue(s);
      if lo <= v <= hi then Some(v) else None
  }

  function ParseInt(s: string): (r: Option<int>)
    ensures r.Some? ==> IsInt(r.value)
  {
    ParseJava(s, INT_MIN, INT_MAX)
  }

  function ParseLong(s: string): (r: Option<int>)
    ensures r.Some? ==> IsLong(r.value)
  {
    ParseJava(s, LONG_MIN, LONG_MAX)
  }

  /**
   * The text `Long.toString` (and `Integer.toString`) writes reads back as the
   * same value, and is rejected exactly when the value is out of range.
   */
  lemma ParseJavaRoundTrip(v: int, lo: int, hi: int)
    ensures ParseJava(ByteBufUtils.DecimalString(v), lo, hi) == if lo <= v <= hi then Some(v) else None
  {
    var s := ByteBufUtils.DecimalString(v);
    if v < 0 {
      ByteBufUtils.DigitsCanonical(-v);
      assert s[1..] == ByteBufUtils.Digits(-v);
    } else {
      ByteBufUtils.DigitsCanonical(v);
    }
  }

  /** A leading '+' reads as no sign at all. */
  lemma ParseJavaPlus(digits: string, lo: int, hi: int)
    requires |digits| > 0 && ByteBufUtils.AllDigits(digits)
    ensures ParseJava(['+'] + digits, lo, hi) == ParseJava(digits, lo, hi)
  {
    assert (['+'] + digits)[1..] == digits;
  }

  // ---- `Integer.parseInt(s, 16)` and `Integer.toHexString` ----

  predicate IsHexDigit(c: char)
  {
    '0' <= c <= '9' || 'a' <= c <= 'f' || 'A' <= c <= 'F'
  }

  /** `Character.digit(c, 16)` for an ASCII hex digit, either case. */
  function HexDigitValue(c: char): (d: nat)
    requires IsHexDigit(c)
    ensures d < 16
  {
    if '0' <= c <= '9' then c as int - 48
    else if 'a' <= c <= 'f' then c as int - 87
    else c as int - 55
  }

  predicate AllHex(s: string) { forall i :: 0 <= i < |s| ==> IsHexDigit(s[i]) }

  function HexValue(s: string): (n: nat)
    requires AllHex(s)
  {
    if s == [] then 0 else HexValue(s[..|s| - 1]) * 16 + HexDigitValue(s[|s| - 1])
  }

  /**
   * `Integer.parseInt(s, 16)`: an optional sign, at least one hex digit, and a
   * value in the int range; anything else throws, which is `None` here.
   */
  function ParseHexInt(s: string): (r: Option<int>)
    ensures r.Some? ==> IsInt(r.value) && |s| > 0
  {
    if |s| == 0 then None
    else if s[0] == '-' || s[0] == '+' then
      if |s| == 1 || !AllHex(s[1..]) then None
      else
        var m: int := HexValue(s[1..]);
        var v := if s[0] == '-' then -m else m;
        if IsInt(v) then Some(v) else None
    else if !AllHex(s) then None
    else
      var v := HexValue(s);
      if IsInt(v) then Some(v) else None
  }

  /** The lower-case digit `Integer.toHexString` writes for `d`. */
  function HexChar(d: nat): (c: char)
    requires d < 16
    ensures IsHexDigit(c) && HexDigitValue(c) == d
  {
    if d < 10 then (48 + d) as char else (87 + d) as char
  }

  /** `Integer.toHexString(n)` for a non-negative `n`: lower-case, no leading zeros. */
  function HexString(n: nat): (s: string)
    decreases n
  {
    if n < 16 then [HexChar(n)] else HexString(n / 16) + [HexChar(n % 16)]
  }

  lemma {:induction false} HexStringValue(n: nat)
    ensures |HexString(n)| > 0 && AllHex(HexString(n)) && HexValue(HexString(n)) == n
    decreases n
  {
    if n >= 16 {
      HexStringValue(n / 16);
      var s := HexString(n);
      assert s[..|s| - 1] == HexString(n / 16);
    }
  }

  /** The hex text of a size reads back as that size, and is refused exactly when it is past the int range. */
  lemma HexRoundTrip(n: nat)
    ensures ParseHexInt(HexString(n)) == if n <= INT_MAX then Some(n) else None
  {
    HexStringValue(n);
    var s := HexString(n);
    assert IsHexDigit(s[0]);
  }
}
