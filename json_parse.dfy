// Building the node tree from a JSON tokenizer's token stream: `parse` wants
// an object first, `parseAny` takes any value, and `parseObject`/`parseArray`
// loop over the tokens of one container, adding what they read to a new node.
//
// The tokenizer is a sequence of tokens and a read position; a thrown
// exception is an `Err`.
module JsonParsing {
  import opened Wrappers
  import opened JavaInt
  import JavaParse
  import BB = ByteBufUtils
  import opened Json

  /**
   * The tokenizer's tokens. An integer keeps its text; a floating number keeps
   * the text and whole part of the double the tokenizer reads from it.
   */
  datatype Token =
    | StartObject
    | EndObject
    | StartArray
    | EndArray
    | FieldName(name: string)
    | ValueString(text: string)
    | ValueInt(text: string)
    | ValueFloat(shown: string, whole: int)
    | ValueTrue
    | ValueFalse
    | ValueNull
    | ValueEmbedded(text: string)

  /** Why parsing threw. */
  datatype ParseError =
    | NotAnObject   // "Expected data to start with an Object"
    | EndOfInput    // the tokenizer ran out: the null token is dereferenced
    | Malformed     // an object member that does not start with a field name
    | LongOverflow  // `getLongValue` on an integer that does not fit in a long

  /**
   * How an array treats an integer token too large for a long: as written,
   * `parseArray` lets the tokenizer's exception through; objects and
   * `parseAny` read such an integer as a string node, as arrays evidently
   * should.
   */
  datatype ArrayInts = AsWritten | Corrected

  /** `getText` */
  function TokenText(t: Token): string
  {
    match t
    case StartObject => "{"
    case EndObject => "}"
    case StartArray => "["
    case EndArray => "]"
    case FieldName(n) => n
    case ValueString(s) => s
    case ValueInt(s) => s
    case ValueFloat(s, _) => s
    case ValueTrue => "true"
    case ValueFalse => "false"
    case ValueNull => "null"
    case ValueEmbedded(s) => s
  }

  predicate IsStructStart(t: Token)
  {
    t == StartObject || t == StartArray
  }

  /**
   * The node a value token that is not a container start reads as: the shared
   * nodes for booleans and null, an integer node when the integer fits in a
   * long and a string node of its text when it does not, a floating node, and
   * a string node of the token's text for everything else.
   */
  function ScalarOf(t: Token): (n: Node)
    requires !IsStructStart(t)
    ensures t.ValueInt? ==> (n.IntegerNode? <==> JavaParse.ParseLong(t.text).Some?)
    ensures t.ValueInt? && n.IntegerNode? ==> JavaParse.ParseLong(t.text) == Some(n.value)
    ensures t.ValueInt? && !n.IntegerNode? ==> n == StringNode(t.text)
    ensures n.IntegerNode? ==> IsLong(n.value)
    ensures !t.ValueInt? && !t.ValueTrue? && !t.ValueFalse? && !t.ValueNull? && !t.ValueFloat? ==> n == StringNode(TokenText(t))
  {
    match t
    case ValueTrue => JSON_TRUE
    case ValueFalse => JSON_FALSE
    case ValueInt(s) =>
      var v := JavaParse.ParseLong(s);
      if v.Some? then IntegerNode(v.value) else StringNode(s)
    case ValueFloat(s, w) => FloatingNode(s, w)
    case ValueNull => JSON_NULL
    case _ => StringNode(TokenText(t))
  }

  /** An array's reading of a scalar token: as written, an integer beyond a long throws. */
  function ElementOf(rule: ArrayInts, t: Token): (r: Result<Node, ParseError>)
    requires !IsStructStart(t)
    ensures r.Err? <==> rule == AsWritten && t.ValueInt? && JavaParse.ParseLong(t.text).None?
    ensures r.Err? ==> r.error == LongOverflow
    ensures r.Ok? ==> r.value == ScalarOf(t)
  {
    if rule == AsWritten && t.ValueInt? && JavaParse.ParseLong(t.text).None? then Err(LongOverflow)
    else Ok(ScalarOf(t))
  }

  /**
   * `parseAny(parser)` on the tokens `ts` still to come: the node read and the
   * tokens after it. `parse` alone raises `NotAnObject`, and `LongOverflow`
   * is raised only as written.
   */
  function ParseValue(rule: ArrayInts, ts: seq<Token>): (r: Result<(Node, seq<Token>), ParseError>)
    ensures r.Ok? ==> |r.value.1| < |ts|
    ensures r.Err? ==> r.error != NotAnObject
    ensures r.Err? && r.error == LongOverflow ==> rule == AsWritten
    decreases |ts|, 0
  {
    if ts == [] then Err(EndOfInput)
    else if ts[0] == StartArray then ParseElements(rule, ts[1..], [])
    else if ts[0] == StartObject then ParseMembers(rule, ts[1..], [])
    else Ok((ScalarOf(ts[0]), ts[1..]))
  }

  /**
   * `parseObject` on the tokens still to come, with the members `acc` read so
   * far: it ends at the end-object token; each member is a field name and a
   * value, added with `add`, so a repeated name keeps its first place and its
   * last value.
   */
  function ParseMembers(rule: ArrayInts, ts: seq<Token>, acc: Entries): (r: Result<(Node, seq<Token>), ParseError>)
    ensures r.Ok? ==> |r.value.1| < |ts| && r.value.0.ObjectNode?
    ensures r.Err? ==> r.error != NotAnObject
    ensures r.Err? && r.error == LongOverflow ==> rule == AsWritten
    decreases |ts|, 1
  {
    if ts == [] then Err(EndOfInput)
    else match ts[0]
      case EndObject => Ok((ObjectNode(acc), ts[1..]))
      case FieldName(k) =>
        var v := ParseValue(rule, ts[1..]);
        if v.Err? then Err(v.error) else ParseMembers(rule, v.value.1, Put(acc, k, v.value.0))
      case _ => Err(Malformed)
  }

  /** `parseArray` on the tokens still to come, with the elements `acc` read so far, in order. */
  function ParseElements(rule: ArrayInts, ts: seq<Token>, acc: seq<Node>): (r: Result<(Node, seq<Token>), ParseError>)
    ensures r.Ok? ==> |r.value.1| < |ts| && r.value.0.ArrayNode? && acc <= r.value.0.list
    ensures r.Err? ==> r.error != NotAnObject
    ensures r.Err? && r.error == LongOverflow ==> rule == AsWritten
    decreases |ts|, 1
  {
    if ts == [] then Err(EndOfInput)
    else if ts[0] == EndArray then Ok((ArrayNode(acc), ts[1..]))
    else if IsStructStart(ts[0]) then
      var v := ParseValue(rule, ts);
      if v.Err? then Err(v.error) else ParseElements(rule, v.value.1, acc + [v.value.0])
    else
      var e := ElementOf(rule, ts[0]);
      if e.Err? then Err(e.error) else ParseElements(rule, ts[1..], acc + [e.value])
  }

  /** `parse`: the tokens must open with an object, which is then read; what follows it is ignored. */
  function Parse(rule: ArrayInts, ts: seq<Token>): (r: Result<Node, ParseError>)
    ensures r == Err(NotAnObject) <==> |ts| == 0 || ts[0] != StartObject
    ensures r.Ok? ==> r.value.ObjectNode?
    ensures r.Err? && r.error == LongOverflow ==> rule == AsWritten
  {
    if |ts| == 0 || ts[0] != StartObject then Err(NotAnObject)
    else
      var m := ParseMembers(rule, ts[1..], []);
      if m.Ok? then Ok(m.value.0) else Err(m.error)
  }

  /** `parseAny`: one value, of any kind. */
  function ParseAny(rule: ArrayInts, ts: seq<Token>): (r: Result<Node, ParseError>)
    ensures r.Err? ==> r.error != NotAnObject
    ensures r.Err? && r.error == LongOverflow ==> rule == AsWritten
  {
    var v := ParseValue(rule, ts);
    if v.Ok? then Ok(v.value.0) else Err(v.error)
  }

  /** An object read from tokens never repeats a name, however often the tokens repeat it. */
  lemma {:induction false} MembersDistinct(rule: ArrayInts, ts: seq<Token>, acc: Entries)
    requires DistinctKeys(acc)
    ensures ParseMembers(rule, ts, acc).Ok? ==> DistinctKeys(ParseMembers(rule, ts, acc).value.0.children)
    decreases |ts|
  {
    if ts != [] && ts[0].FieldName? {
      var v := ParseValue(rule, ts[1..]);
      if v.Ok? {
        MembersDistinct(rule, v.value.1, Put(acc, ts[0].name, v.value.0));
      }
    }
  }

  /** What `parse` gives has distinct names. */
  lemma ParseDistinct(rule: ArrayInts, ts: seq<Token>)
    ensures Parse(rule, ts).Ok? ==> DistinctKeys(Parse(rule, ts).value.children)
  {
    if |ts| > 0 && ts[0] == StartObject {
      MembersDistinct(rule, ts[1..], []);
    }
  }

  // ---- The parser as it runs: a tokenizer and the recursive loops over it ----

  /** A parse outcome together with the tokens the tokenizer still holds, as the functions above give it. */
  function Outcome(r: Result<Node, ParseError>, rest: seq<Token>): Result<(Node, seq<Token>), ParseError>
  {
    if r.Ok? then Ok((r.value, rest)) else Err(r.error)
  }

  /** The tokenizer over a fixed token sequence. */
  class Tokenizer {
    const tokens: seq<Token>
    var pos: nat

    ghost predicate Valid()
      reads this
    {
      pos <= |tokens|
    }

    /** The tokens not read yet. */
    function Rest(): seq<Token>
      requires Valid()
      reads this
    {
      tokens[pos..]
    }

    constructor (ts: seq<Token>)
      ensures Valid() && tokens == ts && pos == 0 && Rest() == ts
    {
      tokens := ts;
      pos := 0;
    }

    /** `nextToken`: the next token, or null at the end. */
    method NextToken() returns (t: Option<Token>)
      requires Valid()
      modifies this
      ensures Valid()
      ensures t.Some? <==> old(Rest()) != []
      ensures t.Some? ==> t.value == old(Rest())[0] && Rest() == old(Rest())[1..] && pos == old(pos) + 1
      ensures t.None? ==> pos == old(pos) && Rest() == []
    {
      if pos < |tokens| {
        t := Some(tokens[pos]);
        assert tokens[pos..][1..] == tokens[pos + 1..];
        pos := pos + 1;
      } else {
        t := None;
      }
    }
  }

  /** `parseAny(parser)`: reads one token and the value it starts. */
  method ParseAnyFrom(rule: ArrayInts, p: Tokenizer) returns (r: Result<Node, ParseError>)
    requires p.Valid()
    modifies p
    ensures p.Valid()
    ensures Outcome(r, p.Rest()) == ParseValue(rule, old(p.Rest()))
    decreases |p.tokens| - p.pos, 2
  {
    ghost var ts := p.Rest();
    var t := p.NextToken();
    r := ValueFrom(rule, p, t, ts);
  }

  /**
   * The dispatch on a token just read, shared by `parseAny` and the member loop
   * of `parseObject`; `ts` is what the tokenizer held before reading it.
   */
  method ValueFrom(rule: ArrayInts, p: Tokenizer, t: Option<Token>, ghost ts: seq<Token>) returns (r: Result<Node, ParseError>)
    requires p.Valid()
    requires t.Some? ==> ts != [] && t.value == ts[0] && p.Rest() == ts[1..]
    requires t.None? ==> ts == [] && p.Rest() == []
    modifies p
    ensures p.Valid()
    ensures Outcome(r, p.Rest()) == ParseValue(rule, ts)
    decreases |p.tokens| - p.pos, 1
  {
    if t.None? {
      r := Err(EndOfInput);
    } else if t.value == StartArray {
      r := ParseArrayFrom(rule, p);
    } else if t.value == StartObject {
      r := ParseObjectFrom(rule, p);
    } else {
      r := Ok(ScalarOf(t.value));
    }
  }

  /** `parseObject(parser)`, just after the start-object token. */
  method ParseObjectFrom(rule: ArrayInts, p: Tokenizer) returns (r: Result<Node, ParseError>)
    requires p.Valid()
    modifies p
    ensures p.Valid()
    ensures Outcome(r, p.Rest()) == ParseMembers(rule, old(p.Rest()), [])
    decreases |p.tokens| - p.pos, 0
  {
    var node: Entries := [];
    while true
      invariant p.Valid() && old(p.pos) <= p.pos
      invariant ParseMembers(rule, p.Rest(), node) == ParseMembers(rule, old(p.Rest()), [])
      decreases |p.tokens| - p.pos
    {
      ghost var ts := p.Rest();
      var t := p.NextToken();
      if t == Some(EndObject) {
        return Ok(ObjectNode(node));
      }
      if t.None? {
        return Err(EndOfInput);
      }
      if !t.value.FieldName? {
        return Err(Malformed);
      }
      var fieldName := t.value.name;
      ghost var vs := p.Rest();
      var t2 := p.NextToken();
      var v := ValueFrom(rule, p, t2, vs);
      if v.Err? {
        return Err(v.error);
      }
      node := Put(node, fieldName, v.value);
    }
  }

  /** `parseArray(parser)`, just after the start-array token. */
  method ParseArrayFrom(rule: ArrayInts, p: Tokenizer) returns (r: Result<Node, ParseError>)
    requires p.Valid()
    modifies p
    ensures p.Valid()
    ensures Outcome(r, p.Rest()) == ParseElements(rule, old(p.Rest()), [])
    decreases |p.tokens| - p.pos, 0
  {
    var list: seq<Node> := [];
    while true
      invariant p.Valid() && old(p.pos) <= p.pos
      invariant ParseElements(rule, p.Rest(), list) == ParseElements(rule, old(p.Rest()), [])
      decreases |p.tokens| - p.pos
    {
      ghost var ts := p.Rest();
      var t := p.NextToken();
      if t == Some(EndArray) {
        return Ok(ArrayNode(list));
      }
      if t.None? {
        return Err(EndOfInput);
      }
      var v;
      if IsStructStart(t.value) {
        v := ValueFrom(rule, p, t, ts);
      } else {
        v := ElementOf(rule, t.value);
      }
      if v.Err? {
        return Err(v.error);
      }
      list := list + [v.value];
    }
  }

  /** `parse(json)`: a fresh tokenizer that must open with an object. */
  method ParseTokens(rule: ArrayInts, ts: seq<Token>) returns (r: Result<Node, ParseError>)
    ensures r == Parse(rule, ts)
  {
    var p := new Tokenizer(ts);
    var t := p.NextToken();
    if t != Some(StartObject) {
      return Err(NotAnObject);
    }
    r := ParseObjectFrom(rule, p);
  }

  /** `parseAny(json)` */
  method ParseAnyTokens(rule: ArrayInts, ts: seq<Token>) returns (r: Result<Node, ParseError>)
    ensures r == ParseAny(rule, ts)
  {
    var p := new Tokenizer(ts);
    r := ParseAnyFrom(rule, p);
  }

  // ---- Reading back a node's own tokens ----

  /** The tokens of a node, as a tokenizer reads them from its JSON text. */
  function Tokens(n: Node): seq<Token>
    decreases n, Width(n) + 1
  {
    match n
    case NullNode => [ValueNull]
    case BooleanNode(b) => [if b then ValueTrue else ValueFalse]
    case IntegerNode(v) => [ValueInt(BB.DecimalString(v))]
    case FloatingNode(s, w) => [ValueFloat(s, w)]
    case StringNode(s) => [ValueString(s)]
    case ObjectNode(cs) => [StartObject] + MemberTokens(n, 0) + [EndObject]
    case ArrayNode(l) => [StartArray] + ElementTokens(n, 0) + [EndArray]
  }

  /** The tokens of the members of object `n` from the `i`th on: each one's field name, then its value. */
  function MemberTokens(n: Node, i: nat): seq<Token>
    requires n.ObjectNode? && i <= |n.children|
    decreases n, |n.children| - i
  {
    if i == |n.children| then [] else [FieldName(n.children[i].0)] + Tokens(n.children[i].1) + MemberTokens(n, i + 1)
  }

  /** The tokens of the elements of array `n` from the `i`th on. */
  function ElementTokens(n: Node, i: nat): seq<Token>
    requires n.ArrayNode? && i <= |n.list|
    decreases n, |n.list| - i
  {
    if i == |n.list| then [] else Tokens(n.list[i]) + ElementTokens(n, i + 1)
  }

  /** A tree a parse can give: integers fit in a long, and no object repeats a name. */
  predicate WellFormed(n: Node)
    decreases n, Width(n) + 1
  {
    match n
    case IntegerNode(v) => IsLong(v)
    case ObjectNode(cs) => DistinctKeys(cs) && MembersWellFormed(n, 0)
    case ArrayNode(l) => ElementsWellFormed(n, 0)
    case _ => true
  }

  predicate MembersWellFormed(n: Node, i: nat)
    requires n.ObjectNode? && i <= |n.children|
    decreases n, |n.children| - i
  {
    i == |n.children| || (WellFormed(n.children[i].1) && MembersWellFormed(n, i + 1))
  }

  predicate ElementsWellFormed(n: Node, i: nat)
    requires n.ArrayNode? && i <= |n.list|
    decreases n, |n.list| - i
  {
    i == |n.list| || (WellFormed(n.list[i]) && ElementsWellFormed(n, i + 1))
  }

  /** Adding a name the object does not have yet appends the member. */
  lemma PutFresh(cs: Entries, i: nat)
    requires DistinctKeys(cs) && i < |cs|
    ensures Put(cs[..i], cs[i].0, cs[i].1) == cs[..i + 1]
  {
    assert Find(cs[..i], cs[i].0).None?;
    assert cs[..i] + [cs[i]] == cs[..i + 1];
  }

  /** A well-formed node's tokens read back as the node, whichever way arrays treat big integers. */
  lemma {:induction false} ValueRoundTrip(rule: ArrayInts, n: Node, rest: seq<Token>)
    requires WellFormed(n)
    ensures ParseValue(rule, Tokens(n) + rest) == Ok((n, rest))
    decreases n, Width(n) + 2
  {
    if n.ObjectNode? {
      ObjectRoundTrip(rule, n, rest);
    } else if n.ArrayNode? {
      ArrayRoundTrip(rule, n, rest);
    } else {
      ScalarRoundTrip(rule, n, rest);
    }
  }

  lemma ScalarRoundTrip(rule: ArrayInts, n: Node, rest: seq<Token>)
    requires WellFormed(n) && !n.ObjectNode? && !n.ArrayNode?
    ensures |Tokens(n)| == 1 && !IsStructStart(Tokens(n)[0]) && ScalarOf(Tokens(n)[0]) == n
    ensures ElementOf(rule, Tokens(n)[0]) == Ok(n)
    ensures ParseValue(rule, Tokens(n) + rest) == Ok((n, rest))
  {
    if n.IntegerNode? {
      JavaParse.ParseJavaRoundTrip(n.value, LONG_MIN, LONG_MAX);
    }
    assert (Tokens(n) + rest)[1..] == rest;
  }

  lemma {:induction false} ObjectRoundTrip(rule: ArrayInts, n: Node, rest: seq<Token>)
    requires WellFormed(n) && n.ObjectNode?
    ensures ParseValue(rule, Tokens(n) + rest) == Ok((n, rest))
    decreases n, Width(n) + 1
  {
    var mt := MemberTokens(n, 0);
    assert (Tokens(n) + rest)[1..] == mt + [EndObject] + rest;
    MembersRoundTrip(rule, n, 0, rest);
    assert n.children[..0] == [];
  }

  lemma {:induction false} ArrayRoundTrip(rule: ArrayInts, n: Node, rest: seq<Token>)
    requires WellFormed(n) && n.ArrayNode?
    ensures ParseValue(rule, Tokens(n) + rest) == Ok((n, rest))
    decreases n, Width(n) + 1
  {
    var et := ElementTokens(n, 0);
    assert (Tokens(n) + rest)[1..] == et + [EndArray] + rest;
    ElementsRoundTrip(rule, n, 0, rest);
    assert n.list[..0] == [];
  }

  lemma {:induction false} MembersRoundTrip(rule: ArrayInts, n: Node, i: nat, rest: seq<Token>)
    requires n.ObjectNode? && DistinctKeys(n.children) && i <= |n.children| && MembersWellFormed(n, i)
    ensures ParseMembers(rule, MemberTokens(n, i) + [EndObject] + rest, n.children[..i]) == Ok((n, rest))
    decreases n, |n.children| - i
  {
    var cs := n.children;
    if i == |cs| {
      assert MemberTokens(n, i) + [EndObject] + rest == [EndObject] + rest;
      assert cs[..i] == cs;
    } else {
      var c := cs[i];
      var after := MemberTokens(n, i + 1) + [EndObject] + rest;
      assert MemberTokens(n, i) + [EndObject] + rest == [FieldName(c.0)] + (Tokens(c.1) + after);
      ValueRoundTrip(rule, c.1, after);
      PutFresh(cs, i);
      MembersRoundTrip(rule, n, i + 1, rest);
    }
  }

  lemma {:induction false} ElementsRoundTrip(rule: ArrayInts, n: Node, i: nat, rest: seq<Token>)
    requires n.ArrayNode? && i <= |n.list| && ElementsWellFormed(n, i)
    ensures ParseElements(rule, ElementTokens(n, i) + [EndArray] + rest, n.list[..i]) == Ok((n, rest))
    decreases n, |n.list| - i
  {
    var l := n.list;
    if i == |l| {
      assert ElementTokens(n, i) + [EndArray] + rest == [EndArray] + rest;
      assert l[..i] == l;
    } else {
      var e := l[i];
      var after := ElementTokens(n, i + 1) + [EndArray] + rest;
      assert ElementTokens(n, i) + [EndArray] + rest == Tokens(e) + after;
      ValueRoundTrip(rule, e, after);
      if !e.ObjectNode? && !e.ArrayNode? {
        ScalarRoundTrip(rule, e, after);
      }
      assert l[..i] + [e] == l[..i + 1];
      ElementsRoundTrip(rule, n, i + 1, rest);
    }
  }

  /** `parseAny` gives back any well-formed node from its tokens. */
  lemma ParseAnyRoundTrip(rule: ArrayInts, n: Node)
    requires WellFormed(n)
    ensures ParseAny(rule, Tokens(n)) == Ok(n)
  {
    ValueRoundTrip(rule, n, []);
    assert Tokens(n) + [] == Tokens(n);
  }

  /** `parse` gives back any well-formed object from its tokens, and ignores whatever follows it. */
  lemma ParseRoundTrip(rule: ArrayInts, n: Node, rest: seq<Token>)
    requires WellFormed(n) && n.ObjectNode?
    ensures Parse(rule, Tokens(n) + rest) == Ok(n)
  {
    assert (Tokens(n) + rest)[1..] == MemberTokens(n, 0) + [EndObject] + rest;
    MembersRoundTrip(rule, n, 0, rest);
    assert n.children[..0] == [];
  }

  // ---- Integers beyond a long ----

  /** The text of the integer one past the largest long: "9223372036854775808". */
  const BEYOND_LONG: string := BB.DecimalString(LONG_MAX + 1)

  /** One past the largest long does not read as a long. */
  lemma BeyondLongIsNoLong()
    ensures JavaParse.ParseLong(BEYOND_LONG).None?
  {
    JavaParse.ParseJavaRoundTrip(LONG_MAX + 1, LONG_MIN, LONG_MAX);
  }

  /** As written, an array holding such an integer fails with the overflow. */
  lemma BigIntArrayFails(text: string)
    requires JavaParse.ParseLong(text).None?
    ensures ParseValue(AsWritten, [StartArray, ValueInt(text), EndArray, EndObject]) == Err(LongOverflow)
  {
    assert ParseElements(AsWritten, [ValueInt(text), EndArray, EndObject], []) == Err(LongOverflow);
  }

  /**
   * As written, an integer token beyond a long (such as `BEYOND_LONG`) makes
   * `parse` throw when it is an array element, though the same integer as an
   * object member reads as a string node.
   */
  lemma BigIntInArrayFailsAsWritten(text: string)
    requires JavaParse.ParseLong(text).None?
    ensures Parse(AsWritten, [StartObject, FieldName("a"), StartArray, ValueInt(text), EndArray, EndObject]) == Err(LongOverflow)
    ensures Parse(AsWritten, [StartObject, FieldName("a"), ValueInt(text), EndObject]) == Ok(ObjectNode([("a", StringNode(text))]))
  {
    var big := ValueInt(text);
    BigIntArrayFails(text);
    assert ParseMembers(AsWritten, [FieldName("a"), StartArray, big, EndArray, EndObject], []) == Err(LongOverflow);
    var member := [("a", StringNode(text))];
    assert ParseValue(AsWritten, [big, EndObject]) == Ok((StringNode(text), [EndObject]));
    assert Put([], "a", StringNode(text)) == member;
    assert ParseMembers(AsWritten, [EndObject], member) == Ok((ObjectNode(member), []));
    assert ParseMembers(AsWritten, [FieldName("a"), big, EndObject], []) == Ok((ObjectNode(member), []));
  }

  /** Corrected, an array holding such an integer reads as an array of one string node. */
  lemma BigIntArray(text: string)
    requires JavaParse.ParseLong(text).None?
    ensures ParseValue(Corrected, [StartArray, ValueInt(text), EndArray, EndObject]) == Ok((ArrayNode([StringNode(text)]), [EndObject]))
  {
    var big := ValueInt(text);
    var arr := ArrayNode([StringNode(text)]);
    assert ScalarOf(big) == StringNode(text);
    assert [] + [StringNode(text)] == arr.list;
    assert ParseElements(Corrected, [EndArray, EndObject], arr.list) == Ok((arr, [EndObject]));
    assert ParseElements(Corrected, [big, EndArray, EndObject], []) == Ok((arr, [EndObject]));
  }

  /** Corrected, such an integer reads as a string node in arrays too. */
  lemma BigIntInArrayReadsAsString(text: string)
    requires JavaParse.ParseLong(text).None?
    ensures Parse(Corrected, [StartObject, FieldName("a"), StartArray, ValueInt(text), EndArray, EndObject]) == Ok(ObjectNode([("a", ArrayNode([StringNode(text)]))]))
  {
    var big := ValueInt(text);
    var arr := ArrayNode([StringNode(text)]);
    var member := [("a", arr)];
    BigIntArray(text);
    assert Put([], "a", arr) == member;
    assert ParseMembers(Corrected, [EndObject], member) == Ok((ObjectNode(member), []));
    assert ParseMembers(Corrected, [FieldName("a"), StartArray, big, EndArray, EndObject], []) == Ok((ObjectNode(member), []));
  }
}
