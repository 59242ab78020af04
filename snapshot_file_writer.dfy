// The snapshot consumer that writes one text line per reported pair,
// `key TAB value CR LF`, into an output buffer, and remembers when the
// snapshot it is writing started.
module SnapshotFile {
  import opened JavaInt
  import opened Wrappers
  import opened Metrics
  import BB = ByteBufUtils

  /** The key under which the engine reports the start of a snapshot. */
  const START_KEY: string := "snapshot-start-ms"

  /** A key the buffer stores unchanged and a reader can find the end of. */
  predicate PlainKey(key: string)
  {
    forall i :: 0 <= i < |key| ==> key[i] as int <= 255 && key[i] != '\t' && key[i] != '\r' && key[i] != '\n'
  }

  lemma AsciiOfPlain(key: string)
    requires PlainKey(key)
    ensures BB.Ascii(key) == key
  {
    BB.AsciiIdentity(key);
  }

  /** A key, a tab, a text, then CR LF. */
  function LineOf(key: string, text: string): string
  {
    key + ['\t'] + text + ['\r', '\n']
  }

  /** The line `apply(key, value)` appends. */
  function Line(key: string, value: int): string
  {
    LineOf(BB.Ascii(key), BB.DecimalString(value))
  }

  /** The text of a sequence of `apply` calls, in call order. */
  function Lines(pairs: seq<Pair>): string
    decreases |pairs|
  {
    if pairs == [] then [] else Lines(pairs[..|pairs| - 1]) + Line(pairs[|pairs| - 1].key, pairs[|pairs| - 1].value)
  }

  // ---- A reader of the written text, the writer's partner ----

  /** The first position of `c` in `s`. */
  function IndexOf(s: string, c: char): (r: Option<nat>)
    ensures r.Some? ==> r.value < |s| && s[r.value] == c && forall i :: 0 <= i < r.value ==> s[i] != c
    ensures r.None? ==> forall i :: 0 <= i < |s| ==> s[i] != c
    decreases |s|
  {
    if s == [] then None
    else if s[0] == c then Some(0)
    else match IndexOf(s[1..], c)
      case None => None
      case Some(k) => Some(k + 1)
  }

  /** One line without its line feed: the key up to the first tab, then
      the decimal value, then a carriage return. */
  function ParseLine(line: string): Option<Pair>
  {
    match IndexOf(line, '\t')
    case None => None
    case Some(t) =>
      var rest := line[t + 1..];
      if |rest| == 0 || rest[|rest| - 1] != '\r' then None
      else match BB.ParseDecimal(rest[..|rest| - 1])
        case None => None
        case Some(v) => Some(Pair(line[..t], v))
  }

  /** Reads a whole text of lines ended by CR LF. */
  function ParseLines(s: string): (r: Option<seq<Pair>>)
    decreases |s|
  {
    if s == [] then Some([])
    else match IndexOf(s, '\n')
      case None => None
      case Some(n) =>
        match ParseLine(s[..n])
        case None => None
        case Some(p) =>
          match ParseLines(s[n + 1..])
          case None => None
          case Some(ps) => Some([p] + ps)
  }

  /** `line` ends at its only line feed and what comes before reads as `p`. */
  predicate ReadsAs(line: string, p: Pair)
  {
    |line| > 0 && IndexOf(line, '\n') == Some(|line| - 1) && ParseLine(line[..|line| - 1]) == Some(p)
  }

  /** The decimal text of a long holds no tab, CR or LF. */
  lemma DecimalIsPlain(v: int)
    ensures forall i :: 0 <= i < |BB.DecimalString(v)| ==>
              BB.DecimalString(v)[i] != '\t' && BB.DecimalString(v)[i] != '\r' && BB.DecimalString(v)[i] != '\n'
  {
    var s := BB.DecimalString(v);
    if v < 0 {
      BB.DigitsCanonical(-v);
      assert forall i :: 1 <= i < |s| ==> s[i] == s[1..][i - 1];
    } else {
      BB.DigitsCanonical(v);
    }
  }

  /** A line whose key holds no tab or line feed, and whose text holds no
      line feed, ends at its own line feed and reads back as the key and
      the text's value. */
  lemma FieldsRoundTrip(key: string, text: string, v: int)
    requires forall i :: 0 <= i < |key| ==> key[i] != '\t' && key[i] != '\n'
    requires (forall i :: 0 <= i < |text| ==> text[i] != '\n') && BB.ParseDecimal(text) == BB.Some(v)
    ensures ReadsAs(LineOf(key, text), Pair(key, v))
  {
    var line := LineOf(key, text);
    forall i | 0 <= i < |line| - 1
      ensures line[i] != '\n'
    {
      if i < |key| {
        assert line[i] == key[i];
      } else if |key| < i < |key| + 1 + |text| {
        assert line[i] == text[i - |key| - 1];
      }
    }
    IndexOfFirst(line, '\n', |line| - 1);
    var body := line[..|line| - 1];
    assert body == key + ['\t'] + (text + ['\r']);
    assert forall i :: 0 <= i < |key| ==> body[i] == key[i];
    IndexOfFirst(body, '\t', |key|);
    assert body[|key| + 1..] == text + ['\r'];
    assert body[..|key|] == key;
  }

  /** A line with a plain key reads back as its pair. */
  lemma LineRoundTrip(key: string, value: int)
    requires PlainKey(key)
    ensures ReadsAs(Line(key, value), Pair(key, value))
  {
    AsciiOfPlain(key);
    DecimalIsPlain(value);
    BB.DecimalRoundTrip(value);
    FieldsRoundTrip(key, BB.DecimalString(value), value);
  }

  lemma ParseOneLine(line: string, p: Pair)
    requires ReadsAs(line, p)
    ensures ParseLines(line) == Some([p])
  {
    assert line[|line| - 1 + 1..] == [];
    assert [p] + [] == [p];
  }

  /** Appending a line that reads as `p` to readable text reads as one
      more pair. */
  lemma {:induction false} ParseLinesAppend(s: string, line: string, p: Pair)
    requires ReadsAs(line, p)
    ensures ParseLines(s) != None ==> ParseLines(s + line) == Some(ParseLines(s).value + [p])
    decreases |s|
  {
    if s == [] {
      assert s + line == line && ParseLines(s) == Some([]);
      ParseOneLine(line, p);
      assert ParseLines(s).value + [p] == [p];
    } else if ParseLines(s) != None {
      var n := IndexOf(s, '\n').value;
      var first, rest := ParseLine(s[..n]).value, ParseLines(s[n + 1..]).value;
      assert ParseLines(s).value == [first] + rest;
      FirstLineOfJoin(s, line, n);
      ParseLinesAppend(s[n + 1..], line, p);
      assert ParseLines(s + line) == Some([first] + (rest + [p]));
      assert [first] + (rest + [p]) == ([first] + rest) + [p];
    }
  }

  /** Text whose first line ends at `n` keeps that first line when more
      text is appended. */
  lemma FirstLineOfJoin(s: string, t: string, n: nat)
    requires IndexOf(s, '\n') == Some(n)
    ensures ParseLines(s + t) == match ParseLine(s[..n])
                                 case None => None
                                 case Some(q) =>
                                   match ParseLines(s[n + 1..] + t)
                                   case None => None
                                   case Some(qs) => Some([q] + qs)
  {
    IndexOfPrefix(s, t, '\n');
    assert (s + t)[..n] == s[..n];
    assert (s + t)[n + 1..] == s[n + 1..] + t;
  }

  lemma IndexOfPrefix(s: string, t: string, c: char)
    requires IndexOf(s, c).Some?
    ensures IndexOf(s + t, c) == IndexOf(s, c)
  {
    var k := IndexOf(s, c).value;
    assert (s + t)[k] == c;
    assert forall i :: 0 <= i < k ==> (s + t)[i] == s[i];
    IndexOfFirst(s + t, c, k);
  }

  lemma {:induction false} IndexOfFirst(s: string, c: char, k: nat)
    requires k < |s| && s[k] == c && forall i :: 0 <= i < k ==> s[i] != c
    ensures IndexOf(s, c) == Some(k)
    decreases k
  {
    if k > 0 {
      assert forall i :: 0 <= i < k - 1 ==> s[1..][i] == s[i + 1];
      IndexOfFirst(s[1..], c, k - 1);
    }
  }

  /** Every pair with a plain key is read back, in order, from the text the
      writer produced for it. */
  lemma {:induction false} LinesRoundTrip(pairs: seq<Pair>)
    requires forall i :: 0 <= i < |pairs| ==> PlainKey(pairs[i].key)
    ensures ParseLines(Lines(pairs)) == Some(pairs)
    decreases |pairs|
  {
    if pairs != [] {
      var init := pairs[..|pairs| - 1];
      var last := pairs[|pairs| - 1];
      assert pairs == init + [last];
      assert forall i :: 0 <= i < |init| ==> init[i] == pairs[i];
      LinesRoundTrip(init);
      LineRoundTrip(last.key, last.value);
      assert last == Pair(last.key, last.value);
      ParseLinesAppend(Lines(init), Line(last.key, last.value), last);
    }
  }

  /** `SnapshotFileWriter`: the consumer of timed snapshots. */
  class SnapshotFileWriter {
    /** `m_snapshotStartMS`. */
    var snapshotStartMS: int
    /** `m_scratch`, the digit array handed to `writeString`. */
    var scratch: array<char>
    /** `m_outputBuf`. */
    const outputBuf: BB.ByteBuf

    constructor ()
      ensures snapshotStartMS == 0 && outputBuf.bytes == [] && scratch.Length == BB.MAX_LONG_STRING
      ensures fresh(outputBuf) && fresh(scratch)
    {
      snapshotStartMS := 0;
      scratch := new char[BB.MAX_LONG_STRING](_ => '0');
      outputBuf := new BB.ByteBuf();
    }

    /** `apply(metricKey, value)`: the start of a snapshot is remembered, and
        the pair is appended as one line. */
    method Apply(key: string, value: int)
      requires IsLong(value)
      modifies this, outputBuf, scratch
      ensures outputBuf.bytes == old(outputBuf.bytes) + Line(key, value)
      ensures snapshotStartMS == if key == START_KEY then value else old(snapshotStartMS)
      ensures scratch == old(scratch) || fresh(scratch)
    {
      if key == START_KEY {
        snapshotStartMS := value;
      }
      scratch := WriteLine(outputBuf, key, value, scratch);
    }
  }

  /** The body of `apply`: key, tab, decimal value, CR, LF. */
  method WriteLine(buf: BB.ByteBuf, key: string, value: int, scratch: array<char>) returns (out: array<char>)
    requires IsLong(value)
    modifies buf, scratch
    ensures buf.bytes == old(buf.bytes) + Line(key, value)
    ensures out == scratch || fresh(out)
  {
    ghost var start, a, d := buf.bytes, BB.Ascii(key), BB.DecimalString(value);
    BB.WriteAscii(buf, key);
    buf.WriteByte('\t');
    out := BB.WriteString(buf, value, scratch);
    buf.WriteByte('\r');
    buf.WriteByte('\n');
    assert buf.bytes == start + a + ['\t'] + d + ['\r'] + ['\n'];
    assert Line(key, value) == a + ['\t'] + d + ['\r', '\n'];
  }
}
