// Three of the java.util.logging record formatters: each appends one field
// of a log record to the line being built.
module LogFormatters {
  import opened Wrappers
  import opened TextBuilders

  function Max(a: int, b: int): int
  {
    if a < b then b else a
  }

  /** `n` spaces. */
  function Spaces(n: nat): (r: string)
    ensures |r| == n && forall i :: 0 <= i < n ==> r[i] == ' '
  {
    seq(n, _ => ' ')
  }

  /** `name`, padded on the right with spaces to `width` characters when it
    * is shorter, and whole when it is not. */
  function Padded(name: string, width: nat): (r: string)
    ensures |r| == Max(|name|, width)
    ensures r[..|name|] == name
    ensures forall i :: |name| <= i < |r| ==> r[i] == ' '
  {
    if |name| < width then name + Spaces(width - |name|) else name
  }

  /** Padding a padded name again changes nothing. */
  lemma PaddedIdempotent(name: string, width: nat)
    ensures Padded(Padded(name, width), width) == Padded(name, width)
  {
  }

  /** `LevelFormatter`: the level name in a column of `fixedWidth`
    * characters, filled from a buffer of spaces. */
  class LevelFormatter {
    const fixedWidth: nat
    const fixedBuffer: array<char>

    predicate Valid()
      reads this, fixedBuffer
    {
      fixedBuffer.Length == fixedWidth && forall i :: 0 <= i < fixedWidth ==> fixedBuffer[i] == ' '
    }

    /** `new LevelFormatter(fixedWidth)`: a buffer of `fixedWidth` spaces. */
    constructor (fixedWidth: nat)
      ensures Valid() && this.fixedWidth == fixedWidth && fresh(fixedBuffer)
    {
      var buffer := new char[fixedWidth];
      var i := 0;
      while i < fixedWidth
        invariant 0 <= i <= fixedWidth
        invariant forall j :: 0 <= j < i ==> buffer[j] == ' '
      {
        buffer[i] := ' ';
        i := i + 1;
      }
      this.fixedWidth := fixedWidth;
      fixedBuffer := buffer;
    }

    /** `write(out, record)`, for a record whose level's localized name is
      * `levelName`: appends the name, then as many spaces from the buffer as
      * keep the column `fixedWidth` wide. */
    method Write(out: TextBuilder, levelName: string)
      requires Valid()
      modifies out
      ensures out.text == old(out.text) + Padded(levelName, fixedWidth)
    {
      var startLen := |out.text|;
      out.Append(levelName);
      var size := |out.text| - startLen;
      if size < fixedWidth {
        assert fixedBuffer[0..fixedWidth - size] == Spaces(fixedWidth - size);
        out.Append(fixedBuffer[0..fixedWidth - size]);
      }
    }
  }

  // ---------------------------------------------------------------------
  // SimpleLoggerNameFormatter

  /** `lastIndexOf('.')`. */
  function LastDot(s: string): (k: int)
    ensures -1 <= k < |s|
    ensures k >= 0 ==> s[k] == '.'
    ensures forall j :: k < j < |s| ==> s[j] != '.'
  {
    if |s| == 0 then -1
    else if s[|s| - 1] == '.' then |s| - 1
    else LastDot(s[..|s| - 1])
  }

  /** `SimpleLoggerNameFormatter.write`: the last dot-separated part of the
    * logger name, which is the whole name when it has no dot. */
  function SimpleName(loggerName: string): (r: string)
    ensures '.' !in r
    ensures '.' !in loggerName ==> r == loggerName
    ensures '.' in loggerName ==> |r| < |loggerName|
                                  && loggerName[|loggerName| - |r| - 1] == '.'
                                  && loggerName[|loggerName| - |r|..] == r
  {
    var lastDot := LastDot(loggerName);
    if lastDot == -1 then loggerName else loggerName[lastDot + 1..]
  }

  /** A logger name that ends in a dot gives no text. */
  lemma TrailingDot(loggerName: string)
    requires 0 < |loggerName| && loggerName[|loggerName| - 1] == '.'
    ensures SimpleName(loggerName) == []
  {
    var r := SimpleName(loggerName);
    assert forall k :: |loggerName| - |r| <= k < |loggerName| ==> loggerName[k] == r[k - (|loggerName| - |r|)];
  }

  /** The simple name of `package + "." + simple` is `simple`. */
  lemma SimpleNameOfQualified(package: string, simple: string)
    requires '.' !in simple
    ensures SimpleName(package + "." + simple) == simple
  {
    var s := package + "." + simple;
    assert s[|package|] == '.';
    assert forall j :: |package| < j < |s| ==> s[j] == simple[j - |package| - 1] && s[j] != '.';
    var k := LastDot(s);
    assert k == |package|;
    assert s[k + 1..] == simple;
  }

  // ---------------------------------------------------------------------
  // SourceFormatter

  /** `SourceFormatter.write`: the source class, followed by a space and the
    * source method when that is known too; the logger name when the class
    * is not known. */
  function SourceText(sourceClass: Option<string>, sourceMethod: Option<string>, loggerName: Option<string>): (r: string)
    ensures sourceClass.None? ==> r == NullText(loggerName)
    ensures sourceClass.Some? && sourceMethod.None? ==> r == sourceClass.value
    ensures sourceClass.Some? && sourceMethod.Some? ==> r == sourceClass.value + [' '] + sourceMethod.value
  {
    if sourceClass.Some? then
      sourceClass.value + (if sourceMethod.Some? then [' '] + sourceMethod.value else [])
    else NullText(loggerName)
  }

  /** The index of the first space of `s`, if any. */
  function FirstSpace(s: string): (r: Option<nat>)
    ensures r.Some? ==> r.value < |s| && s[r.value] == ' ' && ' ' !in s[..r.value]
    ensures r.None? ==> ' ' !in s
  {
    if |s| == 0 then None
    else if s[0] == ' ' then Some(0)
    else match FirstSpace(s[1..])
      case Some(i) => assert s[..i + 1] == [s[0]] + s[1..][..i]; Some(i + 1)
      case None => assert s == [s[0]] + s[1..]; None
  }

  /** Reading a source text back: the class up to the first space, and the
    * method after it. */
  function SplitSource(text: string): (r: (string, Option<string>))
  {
    match FirstSpace(text)
    case Some(i) => (text[..i], Some(text[i + 1..]))
    case None => (text, None)
  }

  /** A source class without spaces is read back with its method, and on its
    * own when there is no method: the method is never written without its
    * class. */
  lemma SourceRoundTrip(sourceClass: string, sourceMethod: Option<string>, loggerName: Option<string>)
    requires ' ' !in sourceClass
    ensures SplitSource(SourceText(Some(sourceClass), sourceMethod, loggerName)) == (sourceClass, sourceMethod)
  {
    var text := SourceText(Some(sourceClass), sourceMethod, loggerName);
    if sourceMethod.Some? {
      assert text[|sourceClass|] == ' ';
      assert text[..|sourceClass|] == sourceClass;
      var i := FirstSpace(text);
      assert i.Some?;
      assert forall k :: 0 <= k < i.value ==> text[..i.value][k] == text[k];
      assert i.value <= |sourceClass|;
      assert forall k :: 0 <= k < |sourceClass| ==> text[k] == sourceClass[k];
      assert i.value >= |sourceClass|;
      assert text[|sourceClass| + 1..] == sourceMethod.value;
    }
  }
}
