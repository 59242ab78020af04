// The minimal HTTP client's response: the header map filled from header
// lines, the plain body gathered in a builder, and the chunked-body decoder.
module HttpResponses {
  import opened Wrappers
  import opened JavaInt
  import JavaParse

  // ---- Header lines ----

  /** `Character.toLowerCase` over ASCII letters. */
  function LowerChar(c: char): char
  {
    if 'A' <= c <= 'Z' then (c as int + 32) as char else c
  }

  /** `String.toLowerCase` over ASCII letters. */
  function Lower(s: string): (r: string)
    ensures |r| == |s|
  {
    if s == [] then [] else [LowerChar(s[0])] + Lower(s[1..])
  }

  /** The separator `processHeader` looks for starts at `i`. */
  predicate SeparatorAt(s: string, i: int)
  {
    0 <= i && i + 1 < |s| && s[i] == ':' && s[i + 1] == ' '
  }

  /** No separator starts before `k`. */
  predicate NoSeparatorBefore(s: string, k: int)
  {
    forall i :: 0 <= i < k ==> !SeparatorAt(s, i)
  }

  /** `s.indexOf(": ", from)`. */
  function SeparatorFrom(s: string, from: nat): (r: Option<nat>)
    requires from <= |s|
    ensures r.Some? ==> from <= r.value && SeparatorAt(s, r.value) && forall i :: from <= i < r.value ==> !SeparatorAt(s, i)
    ensures r.None? ==> forall i :: from <= i < |s| ==> !SeparatorAt(s, i)
    decreases |s| - from
  {
    if from + 1 >= |s| then None
    else if SeparatorAt(s, from) then Some(from)
    else SeparatorFrom(s, from + 1)
  }

  /** `s.indexOf(": ")`: the first place the separator starts. */
  function Separator(s: string): (r: Option<nat>)
    ensures r.Some? ==> SeparatorAt(s, r.value) && NoSeparatorBefore(s, r.value)
    ensures r.None? ==> NoSeparatorBefore(s, |s|)
  {
    SeparatorFrom(s, 0)
  }

  /**
   * What `processHeader` does to the header map: an empty line, or one without
   * ": ", changes nothing; otherwise the lower-cased text before the first ": "
   * maps to the text after it.
   */
  function HeaderUpdate(h: map<string, string>, line: string): map<string, string>
  {
    if |line| == 0 then h
    else match Separator(line)
      case None => h
      case Some(p) => h[Lower(line[..p]) := line[p + 2..]]
  }

  /** The header line `name: value`, as a request or response writes it. */
  function HeaderLine(name: string, value: string): string
  {
    name + ": " + value
  }

  /** `indexOf` finds the first separator. */
  lemma FirstSeparator(line: string, p: nat)
    requires SeparatorAt(line, p) && NoSeparatorBefore(line, p)
    ensures Separator(line) == Some(p)
  {
  }

  lemma HeaderLineShape(name: string, value: string)
    requires NoSeparatorBefore(name, |name|)
    ensures var line := HeaderLine(name, value);
      SeparatorAt(line, |name|) && NoSeparatorBefore(line, |name|) &&
      line[..|name|] == name && line[|name| + 2..] == value
  {
    var line := HeaderLine(name, value);
    assert line == name + ([':', ' '] + value);
    forall i | 0 <= i < |name|
      ensures !SeparatorAt(line, i)
    {
      if i + 1 < |name| {
        assert !SeparatorAt(name, i);
      }
    }
  }

  /** A header line written from a name without ": " in it is read back as that name, lower-cased, and the whole value. */
  lemma HeaderLineRoundTrip(h: map<string, string>, name: string, value: string)
    requires NoSeparatorBefore(name, |name|)
    ensures HeaderUpdate(h, HeaderLine(name, value)) == h[Lower(name) := value]
  {
    HeaderLineShape(name, value);
    FirstSeparator(HeaderLine(name, value), |name|);
  }

  /** A line without ": " anywhere, the empty line included, leaves the headers as they were. */
  lemma LineWithoutSeparatorIgnored(h: map<string, string>, line: string)
    requires NoSeparatorBefore(line, |line|)
    ensures HeaderUpdate(h, line) == h
  {
    if |line| > 0 {
      assert Separator(line).None? by {
        var p := Separator(line);
        assert p.Some? ==> !SeparatorAt(line, p.value);
      }
    }
  }

  /** Of two lines for the same name in any case, the later one wins. */
  lemma LaterDuplicateWins(h: map<string, string>, n1: string, v1: string, n2: string, v2: string)
    requires NoSeparatorBefore(n1, |n1|) && NoSeparatorBefore(n2, |n2|)
    requires Lower(n1) == Lower(n2)
    ensures HeaderUpdate(HeaderUpdate(h, HeaderLine(n1, v1)), HeaderLine(n2, v2)) == h[Lower(n2) := v2]
  {
    HeaderLineRoundTrip(h, n1, v1);
    HeaderLineRoundTrip(h[Lower(n1) := v1], n2, v2);
  }

  // ---- The chunked-body decoder ----

  /** Which decoder: the one in the source, or the one section 4.1 of RFC 7230 calls for. */
  datatype ChunkRule = AsWritten | Corrected

  /** How `processChunks` ends: a zero size closed the body, `parseInt` threw, or the stream ran out. */
  datatype ChunkEnd = Closed | BadSize | EndOfStream

  /** `(char) is.read()`: the next character, or '\U{FFFF}' once the stream is exhausted. */
  function Head(input: seq<char>): char
  {
    if input == [] then '\U{FFFF}' else input[0]
  }

  /** What is left after one `is.read()`. */
  function Tail(input: seq<char>): (r: seq<char>)
    ensures |r| == if input == [] then 0 else |input| - 1
  {
    if input == [] then [] else input[1..]
  }

  /** `k` calls of `(char) is.read()`: the characters read and the stream left. */
  function ReadN(input: seq<char>, k: nat): (r: (seq<char>, seq<char>))
    ensures |r.0| == k && |r.1| <= |input|
  {
    if k == 0 then ([], input)
    else
      var p := ReadN(input, k - 1);
      (p.0 + [Head(p.1)], Tail(p.1))
  }

  /** Reading `k` characters from a stream that holds at least that many gives its first `k`. */
  lemma {:induction false} ReadPrefix(input: seq<char>, k: nat)
    requires k <= |input|
    ensures ReadN(input, k) == (input[..k], input[k..])
  {
    if k > 0 {
      ReadPrefix(input, k - 1);
      assert input[..k] == input[..k - 1] + [input[k - 1]];
    }
  }

  /**
   * The loop of `processChunks` from the point where `input` is yet to be read,
   * `sb` holds the characters gathered since the last '\r' (since the start,
   * as written) and `built` is the body so far. It gives how the loop ends and
   * the body text then held.
   */
  function ChunksFrom(rule: ChunkRule, input: seq<char>, sb: string, built: string): (r: (ChunkEnd, string))
    ensures built <= r.1
    decreases |input|, 1
  {
    if input == [] then (EndOfStream, built)
    else if input[0] != '\r' then ChunksFrom(rule, input[1..], sb + [input[0]], built)
    else SizeEnd(rule, input[1..], sb, built)
  }

  /** The loop of `processChunks` just after the '\r' that ends the size text `sb`. */
  function SizeEnd(rule: ChunkRule, input: seq<char>, sb: string, built: string): (r: (ChunkEnd, string))
    ensures built <= r.1
    decreases |input| + 1, 0
  {
    var afterSize := if rule == Corrected then Tail(input) else input;
    var size := JavaParse.ParseHexInt(sb);
    if size.None? then (BadSize, built)
    else if size.value == 0 then (Closed, built)
    else
      var n: nat := if size.value < 0 then 0 else size.value;
      var p := ReadN(afterSize, n);
      ChunksFrom(rule, Tail(Tail(p.1)), if rule == Corrected then "" else sb, built + p.0)
  }

  /** One character other than '\r' goes into the size text. */
  lemma SizeChar(rule: ChunkRule, ch: char, x: seq<char>, sb: string, built: string)
    requires ch != '\r'
    ensures ChunksFrom(rule, [ch] + x, sb, built) == ChunksFrom(rule, x, sb + [ch], built)
  {
    assert ([ch] + x)[1..] == x;
  }

  /** A '\r' after a size text `parseInt` accepts, and is not zero: the chunk's data is copied and two characters skipped. */
  lemma SizeLine(rule: ChunkRule, x: seq<char>, sb: string, built: string, n: nat)
    requires JavaParse.ParseHexInt(sb) == Some(n) && n > 0
    ensures ChunksFrom(rule, ['\r'] + x, sb, built) ==
      var p := ReadN(if rule == Corrected then Tail(x) else x, n);
      ChunksFrom(rule, Tail(Tail(p.1)), if rule == Corrected then "" else sb, built + p.0)
  {
    assert (['\r'] + x)[1..] == x;
  }

  /** A '\r' after size text `parseInt` refuses ends the decoding. */
  lemma BadSizeLine(rule: ChunkRule, x: seq<char>, sb: string, built: string)
    requires JavaParse.ParseHexInt(sb).None?
    ensures ChunksFrom(rule, ['\r'] + x, sb, built) == (BadSize, built)
  {
  }

  /** Characters other than '\r' only go into the size text. */
  lemma {:induction false} SizeDigits(rule: ChunkRule, w: string, input: seq<char>, sb: string, built: string)
    requires forall i :: 0 <= i < |w| ==> w[i] != '\r'
    ensures ChunksFrom(rule, w + input, sb, built) == ChunksFrom(rule, input, sb + w, built)
    decreases |w|
  {
    if w != [] {
      assert w + input == [w[0]] + (w[1..] + input);
      SizeChar(rule, w[0], w[1..] + input, sb, built);
      assert forall i :: 0 <= i < |w[1..]| ==> w[1..][i] == w[i + 1];
      SizeDigits(rule, w[1..], input, sb + [w[0]], built);
      assert sb + [w[0]] + w[1..] == sb + w;
    } else {
      assert w + input == input && sb + w == sb;
    }
  }

  const CRLF: string := "\r\n"

  lemma CrLfThen(x: seq<char>)
    ensures CRLF + x == ['\r'] + (['\n'] + x)
  {
  }

  /** Section 4.1 of RFC 7230 for a body of non-empty chunks: each one as its hex size, CRLF, the data and CRLF; then "0" CRLF CRLF. */
  function Chunked(chunks: seq<string>): string
  {
    if chunks == [] then "0" + (CRLF + CRLF)
    else JavaParse.HexString(|chunks[0]|) + (CRLF + (chunks[0] + (CRLF + Chunked(chunks[1..]))))
  }

  function Concat(chunks: seq<string>): string
  {
    if chunks == [] then "" else chunks[0] + Concat(chunks[1..])
  }

  predicate Sendable(chunks: seq<string>)
  {
    forall i :: 0 <= i < |chunks| ==> 0 < |chunks[i]| <= INT_MAX
  }

  /** The hex text of a size holds no '\r'. */
  lemma HexHasNoReturn(n: nat)
    ensures forall i :: 0 <= i < |JavaParse.HexString(n)| ==> JavaParse.HexString(n)[i] != '\r'
  {
    JavaParse.HexStringValue(n);
  }

  lemma Regroup(a: string, b: string, c: string, d: string, e: string, f: string)
    ensures (a + (b + (c + (d + e)))) + f == a + (b + (c + (d + (e + f))))
  {
  }

  /** The data of a chunk, then CRLF: reading the data leaves what follows the CRLF. */
  lemma ChunkData(c: string, more: seq<char>)
    ensures var p := ReadN(c + (CRLF + more), |c|); p.0 == c && Tail(Tail(p.1)) == more
  {
    ReadPrefix(c + (CRLF + more), |c|);
    assert (c + (CRLF + more))[..|c|] == c;
    assert (c + (CRLF + more))[|c|..] == CRLF + more;
    CrLfThen(more);
    assert (['\r'] + (['\n'] + more))[1..] == ['\n'] + more;
    assert (['\n'] + more)[1..] == more;
  }

  /** One chunk, to the corrected decoder: the size line, the data and CRLF. */
  lemma OneChunk(c: string, more: seq<char>, built: string)
    requires 0 < |c| <= INT_MAX
    ensures ChunksFrom(Corrected, JavaParse.HexString(|c|) + (CRLF + (c + (CRLF + more))), "", built)
         == ChunksFrom(Corrected, more, "", built + c)
  {
    var hex := JavaParse.HexString(|c|);
    var data := c + (CRLF + more);
    HexHasNoReturn(|c|);
    SizeDigits(Corrected, hex, CRLF + data, "", built);
    assert "" + hex == hex;
    JavaParse.HexRoundTrip(|c|);
    CrLfThen(data);
    SizeLine(Corrected, ['\n'] + data, hex, built, |c|);
    assert Tail(['\n'] + data) == data;
    ChunkData(c, more);
  }

  /** The last chunk: "0", CRLF, and the empty trailer's CRLF. */
  lemma LastChunk(rest: seq<char>, built: string)
    ensures ChunksFrom(Corrected, "0" + (CRLF + CRLF) + rest, "", built) == (Closed, built)
  {
    assert "0" + (CRLF + CRLF) + rest == ['0'] + (CRLF + (CRLF + rest));
    SizeChar(Corrected, '0', CRLF + (CRLF + rest), "", built);
    assert "" + ['0'] == "0";
    JavaParse.HexRoundTrip(0);
    assert JavaParse.HexString(0) == "0";
    CrLfThen(CRLF + rest);
  }

  /** The first chunk of a chunked body, to the corrected decoder: its data is added and the rest of the body follows. */
  lemma FirstChunk(chunks: seq<string>, rest: seq<char>, built: string)
    requires chunks != [] && 0 < |chunks[0]| <= INT_MAX
    ensures ChunksFrom(Corrected, Chunked(chunks) + rest, "", built)
         == ChunksFrom(Corrected, Chunked(chunks[1..]) + rest, "", built + chunks[0])
  {
    var c := chunks[0];
    Regroup(JavaParse.HexString(|c|), CRLF, c, CRLF, Chunked(chunks[1..]), rest);
    OneChunk(c, Chunked(chunks[1..]) + rest, built);
  }

  lemma SendableTail(chunks: seq<string>)
    requires chunks != [] && Sendable(chunks)
    ensures 0 < |chunks[0]| <= INT_MAX && Sendable(chunks[1..])
  {
    assert forall i :: 0 <= i < |chunks[1..]| ==> chunks[1..][i] == chunks[i + 1];
  }

  /** The corrected decoder reads a chunked body back as the chunks, joined, and stops at the last chunk. */
  lemma {:induction false} ChunkedRoundTrip(chunks: seq<string>, rest: seq<char>, built: string)
    requires Sendable(chunks)
    ensures ChunksFrom(Corrected, Chunked(chunks) + rest, "", built) == (Closed, built + Concat(chunks))
    decreases |chunks|
  {
    if chunks == [] {
      LastChunk(rest, built);
      assert built + Concat(chunks) == built;
    } else {
      SendableTail(chunks);
      FirstChunk(chunks, rest, built);
      ChunkedRoundTrip(chunks[1..], rest, built + chunks[0]);
      assert built + chunks[0] + Concat(chunks[1..]) == built + Concat(chunks);
    }
  }


  /** The input `1` CRLF `d` CRLF `0` CRLF CRLF: one chunk holding the one character `d`. */
  function OneCharChunk(d: char): string
  {
    ['1', '\r', '\n', d, '\r', '\n', '0', '\r', '\n', '\r', '\n']
  }

  /** What follows the one chunk's data character in `OneCharChunk`. */
  const AFTER_DATA: string := ['\n', '0', '\r', '\n', '\r', '\n']

  /** As written, the size "1" is read, then the '\n' after it is copied as the chunk's data and `d` and '\r' are skipped. */
  lemma OneCharChunkFirstSize(d: char)
    ensures ChunksFrom(AsWritten, OneCharChunk(d), "", "") == ChunksFrom(AsWritten, AFTER_DATA, "1", "\n")
  {
    var x2 := ['\n', d, '\r'] + AFTER_DATA;
    assert OneCharChunk(d) == ['1'] + (['\r'] + x2);
    SizeChar(AsWritten, '1', ['\r'] + x2, "", "");
    assert "" + ['1'] == "1";
    JavaParse.HexRoundTrip(1);
    assert JavaParse.HexString(1) == "1";
    SizeLine(AsWritten, x2, "1", "", 1);
    ReadPrefix(x2, 1);
    assert "" + x2[..1] == "\n";
    assert Tail(Tail(x2[1..])) == AFTER_DATA;
  }

  /** ... and the next size text is "1\n0", which `parseInt` refuses. */
  lemma OneCharChunkSecondSize()
    ensures ChunksFrom(AsWritten, AFTER_DATA, "1", "\n") == (BadSize, "\n")
  {
    var x7 := AFTER_DATA[2..];
    assert AFTER_DATA == ['\n'] + (['0'] + x7);
    SizeChar(AsWritten, '\n', ['0'] + x7, "1", "\n");
    assert "1" + ['\n'] == "1\n";
    SizeChar(AsWritten, '0', x7, "1\n", "\n");
    assert "1\n" + ['0'] == "1\n0";
    assert !JavaParse.IsHexDigit("1\n0"[1]);
    assert x7 == ['\r'] + x7[1..];
    BadSizeLine(AsWritten, x7[1..], "1\n0", "\n");
  }

  /**
   * As written, the '\n' after the size is taken as chunk data, and the next
   * size text still holds the first one: "1\n0", which `parseInt` refuses.
   */
  lemma OneCharChunkFailsAsWritten(d: char)
    ensures ChunksFrom(AsWritten, OneCharChunk(d), "", "") == (BadSize, "\n")
  {
    OneCharChunkFirstSize(d);
    OneCharChunkSecondSize();
  }

  /** The corrected decoder reads the same input as the body holding `d`. */
  lemma OneCharChunkReadsCorrected(d: char)
    ensures ChunksFrom(Corrected, OneCharChunk(d), "", "") == (Closed, [d])
  {
    ChunkedRoundTrip([[d]], "", "");
    assert JavaParse.HexString(1) == "1";
    assert Chunked([[d]]) + "" == OneCharChunk(d);
    assert "" + Concat([[d]]) == [d];
  }

  // ---- The stream and the response ----

  /** The socket's input stream, one byte per character. */
  class InputStream {
    const data: seq<char>
    var pos: nat

    ghost predicate Valid()
      reads this
    {
      pos <= |data|
    }

    /** What is yet to be read. */
    function Rest(): seq<char>
      reads this
      requires Valid()
    {
      data[pos..]
    }

    constructor (data: seq<char>)
      ensures Valid() && this.data == data && pos == 0 && Rest() == data
    {
      this.data := data;
      pos := 0;
    }

    /** `read()`: the next byte, or -1 at the end of the stream. */
    method Read() returns (b: int)
      requires Valid()
      modifies this
      ensures Valid()
      ensures old(Rest()) == [] ==> b == -1 && Rest() == []
      ensures old(Rest()) != [] ==> b == old(Rest())[0] as int && Rest() == old(Rest())[1..]
    {
      if pos == |data| {
        b := -1;
      } else {
        b := data[pos] as int;
        pos := pos + 1;
      }
    }

    /** `(char) read()`: -1 becomes '\U{FFFF}'. */
    method ReadChar() returns (c: char)
      requires Valid()
      modifies this
      ensures Valid()
      ensures c == Head(old(Rest())) && Rest() == Tail(old(Rest()))
    {
      var b := Read();
      c := if b == -1 then '\U{FFFF}' else b as char;
    }
  }

  class Response {
    /** `m_responseBuilder` */
    var builder: string
    /** `m_headers` */
    var headers: map<string, string>
    /** `body`: null until `close` */
    var body: Option<string>
    /** `error`, which `MinimalHTTPRequest` sets when a request fails */
    var error: Option<string>

    constructor ()
      ensures builder == "" && headers == map[] && body == None && error == None
    {
      builder := "";
      headers := map[];
      body := None;
      error := None;
    }

    /** `appendToBuilder`: the first `numRead` characters of the buffer go on the end of the body text. */
    method AppendToBuilder(buffer: seq<char>, numRead: int)
      requires 0 <= numRead <= |buffer|
      modifies this
      ensures builder == old(builder) + buffer[..numRead]
      ensures headers == old(headers) && body == old(body) && error == old(error)
    {
      builder := builder + buffer[..numRead];
    }

    /** `close`: the body becomes the text gathered so far, and the builder is emptied. */
    method Close()
      modifies this
      ensures body == Some(old(builder)) && builder == ""
      ensures headers == old(headers) && error == old(error)
    {
      body := Some(builder);
      builder := "";
    }

    /** `getHeader`: an exact-key lookup, so only a lower-case name can find a header. */
    function GetHeader(name: string): (r: Option<string>)
      reads this
      ensures r.Some? <==> name in headers
      ensures r.Some? ==> r.value == headers[name]
    {
      if name in headers then Some(headers[name]) else None
    }

    /** `processHeader` */
    method ProcessHeader(line: string)
      modifies this
      ensures headers == HeaderUpdate(old(headers), line)
      ensures builder == old(builder) && body == old(body) && error == old(error)
    {
      if |line| == 0 {
        return;
      }
      var colonPos := Separator(line);
      if colonPos.None? {
        return;
      }
      var name := line[..colonPos.value];
      var value := line[colonPos.value + 2..];
      headers := headers[Lower(name) := value];
    }

    /** The `size` characters of one chunk go on the end of the body text. */
    method CopyChunk(stream: InputStream, size: nat)
      requires stream.Valid()
      modifies this, stream
      ensures stream.Valid()
      ensures builder == old(builder) + ReadN(old(stream.Rest()), size).0
      ensures stream.Rest() == ReadN(old(stream.Rest()), size).1
      ensures headers == old(headers) && body == old(body) && error == old(error)
    {
      var i := 0;
      while i < size
        invariant 0 <= i <= size && stream.Valid()
        invariant builder == old(builder) + ReadN(old(stream.Rest()), i).0
        invariant stream.Rest() == ReadN(old(stream.Rest()), i).1
        invariant headers == old(headers) && body == old(body) && error == old(error)
      {
        var c2 := stream.ReadChar();
        builder := builder + [c2];
        i := i + 1;
      }
    }

    /**
     * `processChunks`: decodes a chunked body from the stream. A zero size
     * closes the body; a size `parseInt` refuses, or a stream that ends inside
     * a size line, ends the decoding with the text gathered so far left in the
     * builder.
     */
    method ProcessChunks(rule: ChunkRule, stream: InputStream) returns (e: ChunkEnd)
      requires stream.Valid()
      modifies this, stream
      ensures stream.Valid()
      ensures var r := ChunksFrom(rule, old(stream.Rest()), "", old(builder));
        e == r.0 &&
        (e == Closed ==> body == Some(r.1) && builder == "") &&
        (e != Closed ==> builder == r.1 && body == old(body))
      ensures headers == old(headers) && error == old(error)
    {
      var sb := "";
      while true
        invariant stream.Valid()
        invariant ChunksFrom(rule, stream.Rest(), sb, builder) == ChunksFrom(rule, old(stream.Rest()), "", old(builder))
        invariant headers == old(headers) && body == old(body) && error == old(error)
        decreases |stream.Rest()|
      {
        if stream.Rest() == [] {
          return EndOfStream;
        }
        var c := stream.ReadChar();
        if c == '\r' {
          if rule == Corrected {
            var lf := stream.ReadChar();
          }
          var size := JavaParse.ParseHexInt(sb);
          if size.None? {
            return BadSize;
          }
          if size.value == 0 {
            Close();
            return Closed;
          }
          CopyChunk(stream, if size.value < 0 then 0 else size.value);
          var cr := stream.ReadChar();
          var lf := stream.ReadChar();
          if rule == Corrected {
            sb := "";
          }
          continue;
        }
        sb := sb + [c];
      }
    }
  }
}
