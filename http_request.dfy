// The minimal HTTP client's request: the request head it writes, and the
// byte loop that splits the reply's head into its first line and header lines.
module HttpRequests {
  import opened Wrappers
  import ByteBufUtils
  import opened HttpResponses

  const CR: char := '\r'
  const LF: char := '\n'

  /** The error set when the reply ends before its blank line. */
  const STREAM_ENDED: string := "Stream ended before headers"

  /** The error `parseInt` throws for a chunk size it refuses. */
  const BAD_SIZE: string := "NumberFormatException"

  /**
   * The error a stream that ends inside a chunk-size line leads to: every later
   * `(char) is.read()` gives '\U{FFFF}', which goes into the size text, so the
   * loop only ends when the size text has used up the memory.
   */
  const OUT_OF_MEMORY: string := "OutOfMemoryError"

  /** `url.getPort()`, where -1 means the URL names no port: then 80. */
  function PortOf(urlPort: int): (port: int)
    ensures urlPort == -1 ==> port == 80
    ensures urlPort != -1 ==> port == urlPort
  {
    if urlPort == -1 then 80 else urlPort
  }

  // ---- The request head ----

  /** Text posted with a request, and its content type. */
  datatype Posted = Posted(contentType: string, data: string)

  /** The number of bytes `getBytes(UTF_8)` gives for one character. */
  function Utf8Width(c: char): (n: nat)
    ensures 1 <= n <= 4
  {
    if c as int < 0x80 then 1
    else if c as int < 0x800 then 2
    else if c as int < 0x10000 then 3
    else 4
  }

  /** The length of `s.getBytes(UTF_8)`. */
  function Utf8Length(s: string): (n: nat)
    ensures |s| <= n <= 4 * |s|
  {
    if s == [] then 0 else Utf8Length(s[..|s| - 1]) + Utf8Width(s[|s| - 1])
  }

  /** `method file HTTP/1.1` */
  function RequestLine(verb: string, file: string): string
  {
    verb + " " + file + " HTTP/1.1"
  }

  /** The Host header's value: the port is added unless it is 80. */
  function HostValue(host: string, port: int): string
  {
    if port != 80 then host + ":" + ByteBufUtils.DecimalString(port) else host
  }

  /** The content headers, sent only when data is posted. */
  function ContentHeaders(posted: Option<Posted>): seq<(string, string)>
  {
    if posted.Some? then [("Content-Type", posted.value.contentType),
                          ("Content-Length", ByteBufUtils.DecimalString(Utf8Length(posted.value.data)))]
    else []
  }

  /** The header lines of the request, in order: Host, the caller's, the content headers when data is posted, and Connection. */
  function RequestHeaders(host: string, port: int, headers: seq<(string, string)>, posted: Option<Posted>): seq<(string, string)>
  {
    [("Host", HostValue(host, port))] + headers + ContentHeaders(posted) + [("Connection", "close")]
  }

  /** Header lines, each ended by CR LF. */
  function HeaderLines(pairs: seq<(string, string)>): string
  {
    if pairs == [] then ""
    else HeaderLines(pairs[..|pairs| - 1]) + HeaderLine(pairs[|pairs| - 1].0, pairs[|pairs| - 1].1) + CRLF
  }

  /** A message head in the form of section 3 of RFC 7230: the first line, the header lines, and a blank line. */
  function HeadText(first: string, pairs: seq<(string, string)>): string
  {
    first + CRLF + HeaderLines(pairs) + CRLF
  }

  /** The head `execute` sends. */
  function RequestHead(verb: string, host: string, port: int, file: string,
                       headers: seq<(string, string)>, posted: Option<Posted>): string
  {
    HeadText(RequestLine(verb, file), RequestHeaders(host, port, headers, posted))
  }

  /** The head text `execute` builds by successive appends. */
  method BuildRequest(verb: string, host: string, port: int, file: string,
                      headers: seq<(string, string)>, posted: Option<Posted>) returns (request: string)
    ensures request == RequestHead(verb, host, port, file, headers, posted)
  {
    ghost var start := RequestLine(verb, file) + CRLF;
    ghost var hostLine := [("Host", HostValue(host, port))];
    request := StartRequest(verb, host, port, file);
    request := AppendHeaders(request, start, hostLine, headers);
    if posted.Some? {
      request := AppendContent(request, start, hostLine + headers, posted.value);
    } else {
      assert hostLine + headers + ContentHeaders(posted) == hostLine + headers;
    }
    request := AppendHeader(request, start, hostLine + headers + ContentHeaders(posted), ("Connection", "close"));
    request := request + "\r\n";
  }

  /** The request line and the Host header. */
  method StartRequest(verb: string, host: string, port: int, file: string) returns (request: string)
    ensures request == RequestLine(verb, file) + CRLF + HeaderLines([("Host", HostValue(host, port))])
  {
    ghost var line := verb + " " + file + " HTTP/1.1\r\n";
    request := verb + " " + file + " HTTP/1.1\r\n";
    request := request + "Host: " + host;
    if port != 80 {
      request := request + ":" + ByteBufUtils.DecimalString(port);
      assert request == line + "Host: " + HostValue(host, port);
    }
    request := request + "\r\n";
    StartText(verb, file, HostValue(host, port), request);
    ghost var hostLine := [("Host", HostValue(host, port))];
    assert HeaderLines(hostLine) == HeaderLine("Host", HostValue(host, port)) + CRLF by {
      assert hostLine[..0] == [];
    }
  }

  lemma StartText(verb: string, file: string, hostValue: string, request: string)
    requires request == verb + " " + file + " HTTP/1.1\r\n" + "Host: " + hostValue + "\r\n"
    ensures request == RequestLine(verb, file) + CRLF + (HeaderLine("Host", hostValue) + CRLF)
  {
    assert " HTTP/1.1\r\n" == " HTTP/1.1" + CRLF;
    assert "Host: " == "Host" + ": ";
  }

  /** One `name: value` CR LF appended to the request. */
  method AppendHeader(request: string, ghost start: string, ghost pairs: seq<(string, string)>, p: (string, string))
    returns (r: string)
    requires request == start + HeaderLines(pairs)
    ensures r == start + HeaderLines(pairs + [p])
  {
    r := request + p.0 + ": " + p.1 + "\r\n";
    LineAppended(request, start, pairs, p, r);
  }

  /** The loop over the caller's headers, in the order given. */
  method AppendHeaders(request: string, ghost start: string, ghost pairs: seq<(string, string)>, headers: seq<(string, string)>)
    returns (r: string)
    requires request == start + HeaderLines(pairs)
    ensures r == start + HeaderLines(pairs + headers)
  {
    r := request;
    var i := 0;
    assert pairs + headers[..0] == pairs;
    while i < |headers|
      invariant 0 <= i <= |headers|
      invariant r == start + HeaderLines(pairs + headers[..i])
    {
      r := AppendHeader(r, start, pairs + headers[..i], headers[i]);
      assert pairs + headers[..i] + [headers[i]] == pairs + headers[..i + 1];
      i := i + 1;
    }
    assert headers[..i] == headers;
  }

  /** Content-Type, then Content-Length as the UTF-8 byte count of the posted data. */
  method AppendContent(request: string, ghost start: string, ghost pairs: seq<(string, string)>, posted: Posted)
    returns (r: string)
    requires request == start + HeaderLines(pairs)
    ensures r == start + HeaderLines(pairs + ContentHeaders(Some(posted)))
  {
    var contentType := ("Content-Type", posted.contentType);
    r := AppendHeader(request, start, pairs, contentType);
    var contentLength := ("Content-Length", ByteBufUtils.DecimalString(Utf8Length(posted.data)));
    r := AppendHeader(r, start, pairs + [contentType], contentLength);
    assert pairs + [contentType] + [contentLength] == pairs + ContentHeaders(Some(posted));
  }

  /** Appending one header line, as the request builder does, extends the header text by that line. */
  lemma LineAppended(before: string, start: string, pairs: seq<(string, string)>, p: (string, string), after: string)
    requires before == start + HeaderLines(pairs)
    requires after == before + p.0 + ": " + p.1 + "\r\n"
    ensures after == start + HeaderLines(pairs + [p])
  {
    assert (pairs + [p])[..|pairs|] == pairs;
    assert HeaderLines(pairs + [p]) == HeaderLines(pairs) + HeaderLine(p.0, p.1) + CRLF;
  }

  lemma Framed(a: string, m: string, z: string)
    ensures |a| + |z| <= |a + m + z| && (a + m + z)[..|a|] == a && (a + m + z)[|a + m + z| - |z|..] == z
  {
  }

  lemma EndRegroup(a: string, m: string, c: string)
    ensures a + (m + c + CRLF) + CRLF == a + m + (c + CRLF + CRLF)
  {
  }

  /** The request line comes first, and the head ends with the Connection line and the blank line. */
  lemma RequestHeadFrame(verb: string, host: string, port: int, file: string,
                         headers: seq<(string, string)>, posted: Option<Posted>)
    ensures var head := RequestHead(verb, host, port, file, headers, posted);
      var start := RequestLine(verb, file) + CRLF;
      var end := HeaderLine("Connection", "close") + CRLF + CRLF;
      |start| + |end| <= |head| && head[..|start|] == start && head[|head| - |end|..] == end
  {
    var pairs := RequestHeaders(host, port, headers, posted);
    var init := pairs[..|pairs| - 1];
    var start := RequestLine(verb, file) + CRLF;
    var m := HeaderLines(init);
    var c := HeaderLine("Connection", "close");
    assert HeaderLines(pairs) == m + c + CRLF;
    EndRegroup(start, m, c);
    Framed(start, m, c + CRLF + CRLF);
  }

  /** The Connection line and blank line that end every request, written out. */
  lemma RequestEnd()
    ensures HeaderLine("Connection", "close") + CRLF + CRLF == "Connection: close\r\n\r\n"
  {
  }

  // ---- Reading the reply's head ----

  /** Neither CR nor LF occurs in `s`. */
  predicate OneLine(s: string)
  {
    forall i :: 0 <= i < |s| ==> s[i] != CR && s[i] != LF
  }

  /** How the header loop ends: whether it met the blank line, the first line, the header map, and what is left to read. */
  datatype HeadRead = HeadRead(complete: bool, firstLine: Option<string>, headers: map<string, string>, rest: seq<char>)

  /**
   * The header loop of `execute` from the point where `input` is yet to be
   * read, `sb` holds the current line, `firstLine` the first line once seen,
   * and `h` the headers so far. A CR is dropped; at LF an empty line ends the
   * head, the first line is kept aside, and any other goes to `processHeader`.
   */
  function HeadFrom(input: seq<char>, sb: string, firstLine: Option<string>, h: map<string, string>): (r: HeadRead)
    ensures r.complete ==> |r.rest| < |input|
    ensures !r.complete ==> r.rest == []
    decreases |input|
  {
    if input == [] then HeadRead(false, firstLine, h, [])
    else if input[0] == CR then HeadFrom(input[1..], sb, firstLine, h)
    else if input[0] == LF then
      if sb == [] then HeadRead(true, firstLine, h, input[1..])
      else if firstLine.None? then HeadFrom(input[1..], [], Some(sb), h)
      else HeadFrom(input[1..], [], firstLine, HeaderUpdate(h, sb))
    else HeadFrom(input[1..], sb + [input[0]], firstLine, h)
  }

  /** The headers a reader of head lines ends with: each line's name, lower-cased, maps to its value, a later line winning. */
  function Stored(h: map<string, string>, pairs: seq<(string, string)>): map<string, string>
  {
    if pairs == [] then h
    else Stored(h, pairs[..|pairs| - 1])[Lower(pairs[|pairs| - 1].0) := pairs[|pairs| - 1].1]
  }

  /** The characters of one line only go into the line buffer. */
  lemma {:induction false} LineChars(w: string, x: seq<char>, sb: string, first: Option<string>, h: map<string, string>)
    requires OneLine(w)
    ensures HeadFrom(w + x, sb, first, h) == HeadFrom(x, sb + w, first, h)
    decreases |w|
  {
    if w == [] {
      assert w + x == x && sb + w == sb;
    } else {
      assert w + x == [w[0]] + (w[1..] + x);
      assert ([w[0]] + (w[1..] + x))[1..] == w[1..] + x;
      assert OneLine(w[1..]) by {
        assert forall i :: 0 <= i < |w[1..]| ==> w[1..][i] == w[i + 1];
      }
      LineChars(w[1..], x, sb + [w[0]], first, h);
      assert sb + [w[0]] + w[1..] == sb + w;
    }
  }

  /** CR LF after a non-empty line: the first line is kept aside, any later one is a header line. */
  lemma LineEnd(x: seq<char>, sb: string, first: Option<string>, h: map<string, string>)
    requires sb != []
    ensures HeadFrom(CRLF + x, sb, first, h) ==
      if first.None? then HeadFrom(x, [], Some(sb), h) else HeadFrom(x, [], first, HeaderUpdate(h, sb))
  {
    CrLfThen(x);
    assert (['\r'] + (['\n'] + x))[1..] == ['\n'] + x;
    assert (['\n'] + x)[1..] == x;
  }

  /** CR LF on an empty line ends the head. */
  lemma BlankLine(x: seq<char>, first: Option<string>, h: map<string, string>)
    ensures HeadFrom(CRLF + x, [], first, h) == HeadRead(true, first, h, x)
  {
    CrLfThen(x);
    assert (['\r'] + (['\n'] + x))[1..] == ['\n'] + x;
    assert (['\n'] + x)[1..] == x;
  }

  /** A header line that can be read back: its name has no ": " in it, and neither part breaks the line. */
  predicate Readable(p: (string, string))
  {
    NoSeparatorBefore(p.0, |p.0|) && OneLine(p.0) && OneLine(p.1)
  }

  lemma HeaderLineIsOneLine(p: (string, string))
    requires Readable(p)
    ensures OneLine(HeaderLine(p.0, p.1)) && HeaderLine(p.0, p.1) != []
  {
    var line := HeaderLine(p.0, p.1);
    assert line == p.0 + ([':', ' '] + p.1);
    assert forall i :: |p.0| + 2 <= i < |line| ==> line[i] == p.1[i - |p.0| - 2];
  }

  lemma Regroup(a: string, b: string, c: string, x: seq<char>)
    ensures a + b + c + x == a + (b + (c + x))
  {
  }

  lemma HeadRegroup(first: string, lines: string, body: seq<char>)
    ensures (first + CRLF + lines + CRLF) + body == first + (CRLF + (lines + (CRLF + body)))
  {
  }

  /** Header lines, each ended by CR LF, are read into the header map line by line. */
  lemma {:induction false} HeaderLinesRead(pairs: seq<(string, string)>, x: seq<char>, first: string, h: map<string, string>)
    requires forall i :: 0 <= i < |pairs| ==> Readable(pairs[i])
    ensures HeadFrom(HeaderLines(pairs) + x, [], Some(first), h) == HeadFrom(x, [], Some(first), Stored(h, pairs))
    decreases |pairs|
  {
    if pairs == [] {
      assert HeaderLines(pairs) + x == x;
    } else {
      var init := pairs[..|pairs| - 1];
      var p := pairs[|pairs| - 1];
      var line := HeaderLine(p.0, p.1);
      assert forall i :: 0 <= i < |init| ==> init[i] == pairs[i];
      Regroup(HeaderLines(init), line, CRLF, x);
      HeaderLinesRead(init, line + (CRLF + x), first, h);
      HeaderLineIsOneLine(p);
      LineChars(line, CRLF + x, [], Some(first), Stored(h, init));
      assert [] + line == line;
      LineEnd(x, line, Some(first), Stored(h, init));
      HeaderLineRoundTrip(Stored(h, init), p.0, p.1);
    }
  }

  /** A head in the form of section 3 of RFC 7230 is read back: its first line, its header lines stored by name, and the body after it untouched. */
  lemma HeadRoundTrip(first: string, pairs: seq<(string, string)>, body: seq<char>, h: map<string, string>)
    requires first != [] && OneLine(first)
    requires forall i :: 0 <= i < |pairs| ==> Readable(pairs[i])
    ensures HeadFrom(HeadText(first, pairs) + body, [], None, h) == HeadRead(true, Some(first), Stored(h, pairs), body)
  {
    var lines := HeaderLines(pairs);
    HeadRegroup(first, lines, body);
    LineChars(first, CRLF + (lines + (CRLF + body)), [], None, h);
    assert [] + first == first;
    LineEnd(lines + (CRLF + body), first, None, h);
    HeaderLinesRead(pairs, CRLF + body, first, h);
    BlankLine(body, Some(first), Stored(h, pairs));
  }

  lemma JoinOneLine(a: string, b: string)
    requires OneLine(a) && OneLine(b)
    ensures OneLine(a + b)
  {
    assert forall i :: |a| <= i < |a + b| ==> (a + b)[i] == b[i - |a|];
  }

  lemma DigitsOneLine(s: string)
    requires ByteBufUtils.AllDigits(s)
    ensures OneLine(s)
  {
    assert forall i :: 0 <= i < |s| ==> ByteBufUtils.IsDigit(s[i]);
  }

  /** Decimal text never breaks a line. */
  lemma DecimalIsOneLine(v: int)
    ensures OneLine(ByteBufUtils.DecimalString(v))
  {
    var d := if v < 0 then -v else v;
    ByteBufUtils.DigitsCanonical(d);
    DigitsOneLine(ByteBufUtils.Digits(d));
    if v < 0 {
      JoinOneLine(['-'], ByteBufUtils.Digits(d));
    }
  }

  /** Whether a request can be read back as it was meant: no part of it breaks its line, and no header name holds ": ". */
  predicate Plain(verb: string, host: string, file: string, headers: seq<(string, string)>, posted: Option<Posted>)
  {
    OneLine(verb) && OneLine(host) && OneLine(file) &&
    (forall i :: 0 <= i < |headers| ==> Readable(headers[i])) &&
    (posted.Some? ==> OneLine(posted.value.contentType))
  }

  lemma HostIsReadable(host: string, port: int)
    requires OneLine(host)
    ensures Readable(("Host", HostValue(host, port)))
  {
    if port != 80 {
      DecimalIsOneLine(port);
      JoinOneLine(host, ":");
      JoinOneLine(host + ":", ByteBufUtils.DecimalString(port));
    }
    assert !SeparatorAt("Host", 0) && !SeparatorAt("Host", 1) && !SeparatorAt("Host", 2) && !SeparatorAt("Host", 3);
  }

  lemma RequestLineIsOneLine(verb: string, file: string)
    requires OneLine(verb) && OneLine(file)
    ensures OneLine(RequestLine(verb, file)) && RequestLine(verb, file) != []
  {
    JoinOneLine(verb, " ");
    JoinOneLine(verb + " ", file);
    JoinOneLine(verb + " " + file, " HTTP/1.1");
  }

  /** Every header line the request writes can be read back. */
  lemma RequestHeadersReadable(host: string, port: int, headers: seq<(string, string)>, posted: Option<Posted>)
    requires OneLine(host)
    requires forall i :: 0 <= i < |headers| ==> Readable(headers[i])
    requires posted.Some? ==> OneLine(posted.value.contentType)
    ensures var pairs := RequestHeaders(host, port, headers, posted);
      forall i :: 0 <= i < |pairs| ==> Readable(pairs[i])
  {
    HostIsReadable(host, port);
    ReadableNames();
    var content := ContentHeaders(posted);
    if posted.Some? {
      DecimalIsOneLine(Utf8Length(posted.value.data));
    }
    assert forall i :: 0 <= i < |content| ==> Readable(content[i]);
    var pairs := RequestHeaders(host, port, headers, posted);
    var n := |headers|;
    assert forall i :: 1 <= i < 1 + n ==> pairs[i] == headers[i - 1];
    assert forall i :: 1 + n <= i < 1 + n + |content| ==> pairs[i] == content[i - 1 - n];
  }

  /**
   * A server reading the request head with the same header loop finds the
   * request line first, then every header in the order written, stored under its
   * lower-cased name, and the request body right after the blank line.
   */
  lemma RequestHeadRoundTrip(verb: string, host: string, port: int, file: string,
                             headers: seq<(string, string)>, posted: Option<Posted>, body: seq<char>)
    requires Plain(verb, host, file, headers, posted)
    ensures HeadFrom(RequestHead(verb, host, port, file, headers, posted) + body, [], None, map[])
         == HeadRead(true, Some(RequestLine(verb, file)), Stored(map[], RequestHeaders(host, port, headers, posted)), body)
  {
    RequestLineIsOneLine(verb, file);
    RequestHeadersReadable(host, port, headers, posted);
    HeadRoundTrip(RequestLine(verb, file), RequestHeaders(host, port, headers, posted), body, map[]);
  }

  /** The names the request writes itself have no ": " in them. */
  lemma ReadableNames()
    ensures Readable(("Content-Type", "")) && Readable(("Content-Length", "")) && Readable(("Connection", "close"))
  {
    assert forall i :: 0 <= i < |"Content-Type"| ==> !SeparatorAt("Content-Type", i);
    assert forall i :: 0 <= i < |"Content-Length"| ==> !SeparatorAt("Content-Length", i);
    assert forall i :: 0 <= i < |"Connection"| ==> !SeparatorAt("Connection", i);
  }

  /**
   * The header loop of `execute`: reads the reply's head from the stream,
   * passing every header line to `processHeader`. It gives whether the blank
   * line was met and the first line; a stream that ends first sets the error.
   */
  method ReadHead(stream: InputStream, response: Response) returns (complete: bool, firstLine: Option<string>)
    requires stream.Valid()
    modifies stream, response
    ensures stream.Valid()
    ensures var r := HeadFrom(old(stream.Rest()), [], None, old(response.headers));
      complete == r.complete && firstLine == r.firstLine &&
      response.headers == r.headers && stream.Rest() == r.rest
    ensures response.error == if complete then old(response.error) else Some(STREAM_ENDED)
    ensures response.builder == old(response.builder) && response.body == old(response.body)
  {
    var sb: string := [];
    firstLine := None;
    while true
      invariant stream.Valid()
      invariant HeadFrom(stream.Rest(), sb, firstLine, response.headers) == HeadFrom(old(stream.Rest()), [], None, old(response.headers))
      invariant response.error == old(response.error)
      invariant response.builder == old(response.builder) && response.body == old(response.body)
      decreases |stream.Rest()|
    {
      ghost var input := stream.Rest();
      var b := stream.Read();
      if b == -1 {
        response.error := Some(STREAM_ENDED);
        return false, firstLine;
      }
      assert b == input[0] as int && stream.Rest() == input[1..];
      if b == CR as int {
        continue;
      }
      if b == LF as int {
        if sb == [] {
          return true, firstLine;
        }
        if firstLine.None? {
          firstLine := Some(sb);
        } else {
          response.ProcessHeader(sb);
        }
        sb := [];
      } else {
        sb := sb + [b as char];
      }
    }
  }

  /**
   * What follows the head in `execute`: a chunked body goes through
   * `processChunks`, and a size it refuses or a stream that ends inside a size
   * line sets the error; any other body is read to the end of the stream and
   * closed.
   */
  method ReadBody(rule: ChunkRule, stream: InputStream, response: Response)
    requires stream.Valid()
    modifies stream, response
    ensures stream.Valid()
    ensures response.headers == old(response.headers)
    ensures old(response.GetHeader("transfer-encoding")) == Some("chunked") ==>
      var r := ChunksFrom(rule, old(stream.Rest()), "", old(response.builder));
      (r.0 == Closed ==> response.body == Some(r.1) && response.builder == "" && response.error == old(response.error)) &&
      (r.0 == BadSize ==> response.builder == r.1 && response.body == old(response.body) && response.error == Some(BAD_SIZE)) &&
      (r.0 == EndOfStream ==> response.builder == r.1 && response.body == old(response.body) && response.error == Some(OUT_OF_MEMORY))
    ensures old(response.GetHeader("transfer-encoding")) != Some("chunked") ==>
      response.body == Some(old(response.builder) + old(stream.Rest())) && response.builder == "" &&
      stream.Rest() == [] && response.error == old(response.error)
  {
    if response.GetHeader("transfer-encoding") == Some("chunked") {
      ReadChunked(rule, stream, response);
    } else {
      ReadPlain(stream, response);
    }
  }

  /** A chunked body. What `processChunks` throws becomes the response's error:
      a size `parseInt` refuses, or the memory a stream ending inside a size
      line uses up. */
  method ReadChunked(rule: ChunkRule, stream: InputStream, response: Response)
    requires stream.Valid()
    modifies stream, response
    ensures stream.Valid()
    ensures response.headers == old(response.headers)
    ensures var r := ChunksFrom(rule, old(stream.Rest()), "", old(response.builder));
      (r.0 == Closed ==> response.body == Some(r.1) && response.builder == "" && response.error == old(response.error)) &&
      (r.0 == BadSize ==> response.builder == r.1 && response.body == old(response.body) && response.error == Some(BAD_SIZE)) &&
      (r.0 == EndOfStream ==> response.builder == r.1 && response.body == old(response.body) && response.error == Some(OUT_OF_MEMORY))
  {
    var e := response.ProcessChunks(rule, stream);
    if e == BadSize {
      response.error := Some(BAD_SIZE);
    } else if e == EndOfStream {
      response.error := Some(OUT_OF_MEMORY);
    }
  }

  /** Any other body: everything up to the end of the stream, then `close`. */
  method ReadPlain(stream: InputStream, response: Response)
    requires stream.Valid()
    modifies stream, response
    ensures stream.Valid()
    ensures response.body == Some(old(response.builder) + old(stream.Rest())) && response.builder == ""
    ensures stream.Rest() == [] && response.headers == old(response.headers) && response.error == old(response.error)
  {
    while true
      invariant stream.Valid()
      invariant response.builder + stream.Rest() == old(response.builder) + old(stream.Rest())
      invariant response.headers == old(response.headers) && response.error == old(response.error)
      decreases |stream.Rest()|
    {
      ghost var input := stream.Rest();
      var b := stream.Read();
      if b == -1 {
        break;
      }
      response.AppendToBuilder([b as char], 1);
      assert input == [input[0]] + stream.Rest();
    }
    assert response.builder == old(response.builder) + old(stream.Rest());
    response.Close();
  }

  /** The reply's head announces `Transfer-Encoding: chunked`. */
  predicate Chunked(h: map<string, string>)
  {
    "transfer-encoding" in h && h["transfer-encoding"] == "chunked"
  }

  /**
   * `execute`, with the socket replaced by the text sent and the reply stream:
   * the head is built and sent with any posted data, then the reply's head and
   * body are read into a fresh response.
   */
  method Execute(rule: ChunkRule, verb: string, host: string, port: int, file: string,
                 headers: seq<(string, string)>, posted: Option<Posted>, reply: InputStream)
    returns (sent: string, response: Response)
    requires reply.Valid()
    modifies reply
    ensures sent == RequestHead(verb, host, port, file, headers, posted) + (if posted.Some? then posted.value.data else "")
    ensures fresh(response) && reply.Valid()
    ensures var r := HeadFrom(old(reply.Rest()), [], None, map[]);
      (!r.complete ==> response.error == Some(STREAM_ENDED) && response.headers == r.headers && response.body == None) &&
      (r.complete ==> response.headers == r.headers)
    ensures var r := HeadFrom(old(reply.Rest()), [], None, map[]);
      r.complete && Chunked(r.headers) ==>
        var c := ChunksFrom(rule, r.rest, "", "");
        (c.0 == Closed ==> response.body == Some(c.1) && response.builder == "" && response.error == None) &&
        (c.0 == BadSize ==> response.builder == c.1 && response.body == None && response.error == Some(BAD_SIZE)) &&
        (c.0 == EndOfStream ==> response.builder == c.1 && response.body == None && response.error == Some(OUT_OF_MEMORY))
    ensures var r := HeadFrom(old(reply.Rest()), [], None, map[]);
      r.complete && !Chunked(r.headers) ==>
        response.body == Some(r.rest) && response.builder == "" && response.error == None && reply.Rest() == []
  {
    sent := BuildRequest(verb, host, port, file, headers, posted);
    if posted.Some? {
      sent := sent + posted.value.data;
    }
    response := new Response();
    var complete, firstLine := ReadHead(reply, response);
    if complete {
      assert response.builder + reply.Rest() == reply.Rest();
      ReadBody(rule, reply, response);
    }
  }
}
