// The JSON node tree: parsed from a tokenizer's token stream, queried through
// typed accessors, and written back out as JSON text (RFC 8259, sections 4
// and 5) into a byte buffer.
//
// Nodes are values: an `ObjectNode` holds its members as a key/node list in
// the map's iteration order, and `add` on it is `Put`, which gives back the
// updated list.
module Json {
  import opened Wrappers
  import opened JavaInt
  import JavaParse
  import BB = ByteBufUtils

  /**
   * A node. A floating node keeps the text `Double.toString` gives for its value
   * and the value rounded toward zero (0 for NaN); nothing else of the double
   * is modelled.
   */
  datatype Node =
    | NullNode
    | BooleanNode(b: bool)
    | IntegerNode(value: int)
    | FloatingNode(text: string, whole: int)
    | StringNode(s: string)
    | ObjectNode(children: seq<(string, Node)>)
    | ArrayNode(list: seq<Node>)

  const JSON_TRUE: Node := BooleanNode(true)
  const JSON_FALSE: Node := BooleanNode(false)
  const JSON_NULL: Node := NullNode

  // ---- Kinds and the typed accessors ----

  /** The kinds the `asX` accessors ask for. */
  datatype Kind = ObjectKind | StringKind | NumericKind | IntegerKind | FloatingKind | ArrayKind | BooleanKind

  predicate IsNumeric(n: Node)
  {
    n.IntegerNode? || n.FloatingNode?
  }

  predicate HasKind(n: Node, k: Kind)
  {
    match k
    case ObjectKind => n.ObjectNode?
    case StringKind => n.StringNode?
    case NumericKind => IsNumeric(n)
    case IntegerKind => n.IntegerNode?
    case FloatingKind => n.FloatingNode?
    case ArrayKind => n.ArrayNode?
    case BooleanKind => n.BooleanNode?
  }

  function Describe(k: Kind): string
  {
    match k
    case ObjectKind => "a JSON object"
    case StringKind => "a JSON string"
    case NumericKind => "a JSON number"
    case IntegerKind => "a JSON integer"
    case FloatingKind => "a JSON floating point number"
    case ArrayKind => "a JSON array"
    case BooleanKind => "a JSON boolean"
  }

  /**
   * `asObject`, `asString`, `asNumeric`, `asInteger`, `asFloating`, `asArray`
   * and `asBoolean`: the node itself when it is of the kind, and otherwise a use
   * error, which on the null node says that the node is null.
   */
  function As(n: Node, k: Kind): (r: Result<Node, string>)
    ensures r.Ok? <==> HasKind(n, k)
    ensures r.Ok? ==> r.value == n
    ensures r.Err? && n.NullNode? ==> r.error == "Node is null and not " + Describe(k)
    ensures r.Err? && !n.NullNode? ==> r.error == "Node is not " + Describe(k)
  {
    if HasKind(n, k) then Ok(n)
    else if n.NullNode? then Err("Node is null and not " + Describe(k))
    else Err("Node is not " + Describe(k))
  }

  /** The null node is of no kind, so every accessor fails on it. */
  lemma NullIsNothing(k: Kind)
    ensures As(JSON_NULL, k).Err?
  {
  }

  /** Java's saturating narrowing of a double's whole part to the range `lo..hi`. */
  function Saturate(x: int, lo: int, hi: int): (r: int)
    requires lo <= hi
    ensures lo <= r <= hi
    ensures lo <= x <= hi ==> r == x
  {
    if x < lo then lo else if x > hi then hi else x
  }

  /**
   * `toInt` on a numeric node: an integer node's value when it fits in an int,
   * and a use error otherwise; a floating node's `(int)` cast.
   */
  function ToInt(n: Node): (r: Result<int, string>)
    requires IsNumeric(n)
    ensures r.Ok? ==> IsInt(r.value)
    ensures n.IntegerNode? ==> (r.Ok? <==> IsInt(n.value)) && (r.Ok? ==> r.value == n.value)
    ensures n.FloatingNode? ==> r.Ok?
  {
    match n
    case IntegerNode(v) =>
      if v > INT_MAX || v < INT_MIN then Err("Value is too big and overflows an integer") else Ok(v)
    case FloatingNode(_, w) => Ok(Saturate(w, INT_MIN, INT_MAX))
  }

  /** `toLong` on a numeric node: exact on integer nodes, the `(long)` cast on floating ones. */
  function ToLong(n: Node): (r: int)
    requires IsNumeric(n) && (n.IntegerNode? ==> IsLong(n.value))
    ensures IsLong(r)
    ensures n.IntegerNode? ==> r == n.value
  {
    match n
    case IntegerNode(v) => v
    case FloatingNode(_, w) => Saturate(w, LONG_MIN, LONG_MAX)
  }

  /** `getClass().getSimpleName()` */
  function SimpleName(n: Node): string
  {
    match n
    case NullNode => "NullNode"
    case BooleanNode(_) => "BooleanNode"
    case IntegerNode(_) => "IntegerNode"
    case FloatingNode(_, _) => "FloatingNode"
    case StringNode(_) => "StringNode"
    case ObjectNode(_) => "ObjectNode"
    case ArrayNode(_) => "ArrayNode"
  }

  /**
   * `toLongValue`: a numeric node through `toLong`, a string node through
   * `Long.parseLong`, and a use error for a string that does not read and for
   * every other kind.
   */
  function ToLongValue(n: Node): (r: Result<int, string>)
    requires n.IntegerNode? ==> IsLong(n.value)
    ensures IsNumeric(n) ==> r == Ok(ToLong(n))
    ensures n.StringNode? ==> (r.Ok? <==> JavaParse.ParseLong(n.s).Some?)
    ensures n.StringNode? && r.Ok? ==> Some(r.value) == JavaParse.ParseLong(n.s)
    ensures r.Ok? ==> IsLong(r.value)
    ensures !IsNumeric(n) && !n.StringNode? ==> r == Err("Node of type " + SimpleName(n) + " cannot be converted to a long")
  {
    if IsNumeric(n) then Ok(ToLong(n))
    else if !n.StringNode? then Err("Node of type " + SimpleName(n) + " cannot be converted to a long")
    else
      var p := JavaParse.ParseLong(n.s);
      if p.Some? then Ok(p.value) else Err("StringNode value cannot be converted to a long")
  }

  // ---- ObjectNode and ArrayNode operations ----

  type Entries = seq<(string, Node)>

  predicate DistinctKeys(es: Entries)
  {
    forall i, j | 0 <= i < j < |es| :: es[i].0 != es[j].0
  }

  /** The position of the member named `k`: the first one with that key. */
  function Find(es: Entries, k: string): (r: Option<nat>)
    ensures r.Some? ==> r.value < |es| && es[r.value].0 == k && forall j | 0 <= j < r.value :: es[j].0 != k
    ensures r.None? ==> forall j | 0 <= j < |es| :: es[j].0 != k
  {
    if es == [] then None
    else if es[0].0 == k then Some(0)
    else
      var r := Find(es[1..], k);
      if r.Some? then Some(r.value + 1) else None
  }

  /** `get(name)`: the member's node, or null. */
  function Get(es: Entries, k: string): Option<Node>
  {
    var i := Find(es, k);
    if i.Some? then Some(es[i.value].1) else None
  }

  lemma FindIs(es: Entries, k: string, i: nat)
    requires i < |es| && es[i].0 == k && forall j | 0 <= j < i :: es[j].0 != k
    ensures Find(es, k) == Some(i)
  {
  }

  /** `add(name, value)`: the map's `put`, which replaces the node of an existing key in place and appends a new key. */
  function Put(es: Entries, k: string, v: Node): (r: Entries)
    ensures |r| == |es| + (if Find(es, k).None? then 1 else 0)
    ensures Get(r, k) == Some(v)
    ensures DistinctKeys(es) ==> DistinctKeys(r)
    ensures forall j | 0 <= j < |es| && es[j].0 != k :: r[j] == es[j]
  {
    var i := Find(es, k);
    if i.Some? then
      var r := es[i.value := (k, v)];
      FindIs(r, k, i.value);
      r
    else
      var r := es + [(k, v)];
      FindIs(r, k, |es|);
      r
  }

  /** Putting one key leaves what every other key reads as it was. */
  lemma PutKeepsOthers(es: Entries, k: string, v: Node, k2: string)
    requires k2 != k
    ensures Get(Put(es, k, v), k2) == Get(es, k2)
  {
    var r := Put(es, k, v);
    var f := Find(es, k2);
    if f.Some? {
      FindIs(r, k2, f.value);
    } else {
      assert forall j | 0 <= j < |r| :: r[j].0 != k2;
    }
  }

  /** `remove(name)`: drops the member with that key. */
  function Remove(es: Entries, k: string): (r: Entries)
    ensures |r| <= |es|
    ensures forall j | 0 <= j < |r| :: r[j].0 != k
  {
    if es == [] then []
    else if es[|es| - 1].0 == k then Remove(es[..|es| - 1], k)
    else Remove(es[..|es| - 1], k) + [es[|es| - 1]]
  }

  /** After `remove`, the key reads as missing and every other key as before. */
  lemma {:induction false} RemoveKeepsOthers(es: Entries, k: string, k2: string)
    ensures Get(Remove(es, k), k) == None
    ensures k2 != k ==> Get(Remove(es, k), k2) == Get(es, k2)
    decreases |es|
  {
    if es != [] {
      var init := es[..|es| - 1];
      var last := es[|es| - 1];
      RemoveKeepsOthers(init, k, k2);
      if k2 != k {
        var ri := Remove(init, k);
        var fi := Find(init, k2);
        assert es == init + [last];
        if fi.Some? {
          FindIs(es, k2, fi.value);
          if last.0 != k {
            FindIs(ri + [last], k2, Find(ri, k2).value);
          }
        } else if last.0 == k2 {
          FindIs(es, k2, |init|);
          assert Find(ri, k2).None?;
          FindIs(ri + [last], k2, |ri|);
        } else {
          assert Find(es, k2).None?;
          if last.0 != k {
            assert Find(ri + [last], k2).None?;
          }
        }
      }
    }
  }

  /** With distinct keys, `remove` shrinks the object by one exactly when the key was there. */
  lemma {:induction false} RemoveSize(es: Entries, k: string)
    requires DistinctKeys(es)
    ensures |Remove(es, k)| == |es| - (if Find(es, k).Some? then 1 else 0)
    decreases |es|
  {
    if es != [] {
      var init := es[..|es| - 1];
      assert DistinctKeys(init);
      RemoveSize(init, k);
      if Find(init, k).Some? {
        FindIs(es, k, Find(init, k).value);
      } else if es[|es| - 1].0 == k {
        FindIs(es, k, |init|);
      } else {
        assert Find(es, k).None?;
      }
    }
  }

  /** `nullableGet(name)`: the member's node, or the null node when there is none. */
  function NullableGet(es: Entries, k: string): (r: Node)
    ensures Get(es, k).Some? ==> r == Get(es, k).value
    ensures Get(es, k).None? ==> r == JSON_NULL
  {
    var n := Get(es, k);
    if n.Some? then n.value else JSON_NULL
  }

  /** `ArrayNode.get(index)`: the element at the index; out of range the list throws. */
  function ArrayGet(list: seq<Node>, index: int): (r: Option<Node>)
    ensures r.Some? <==> 0 <= index < |list|
    ensures r.Some? ==> r.value == list[index]
  {
    if 0 <= index < |list| then Some(list[index]) else None
  }

  /** `ArrayNode.add` appends: the new element is last and the earlier ones keep their positions. */
  lemma ArrayAddKeepsOrder(list: seq<Node>, v: Node)
    ensures ArrayGet(list + [v], |list|) == Some(v) && |list + [v]| == |list| + 1
    ensures forall i | 0 <= i < |list| :: ArrayGet(list + [v], i) == ArrayGet(list, i)
  {
  }

  // ---- JSON text ----

  /** How far an object's or array's member list is still to be walked; the second part of the measures below. */
  function Width(n: Node): nat
  {
    if n.ObjectNode? then |n.children| + 1 else if n.ArrayNode? then |n.list| + 1 else 0
  }

  /**
   * What `writeJson` writes. `quote` is the string encoder's quoting of a
   * string's content into UTF-8 bytes; member names are written as US-ASCII,
   * unquoted.
   */
  function Text(n: Node, quote: string -> seq<char>): string
    decreases n, Width(n)
  {
    match n
    case NullNode => "null"
    case BooleanNode(b) => if b then "true" else "false"
    case IntegerNode(v) => BB.DecimalString(v)
    case FloatingNode(t, _) => BB.Ascii(t)
    case StringNode(s) => "\"" + quote(s) + "\""
    case ObjectNode(cs) => "{" + MembersText(n, |cs|, quote) + "}"
    case ArrayNode(l) => "[" + ElementsText(n, |l|, quote) + "]"
  }

  /** The first `k` members of object `n`, comma-separated, each as `"name":value`. */
  function MembersText(n: Node, k: nat, quote: string -> seq<char>): string
    requires n.ObjectNode? && k <= |n.children|
    decreases n, k
  {
    if k == 0 then "" else MembersText(n, k - 1, quote) + MemberText(n.children[k - 1], k > 1, quote)
  }

  /** One member, `"name":value`, after a comma when it is not the first. */
  function MemberText(c: (string, Node), comma: bool, quote: string -> seq<char>): string
    decreases c.1, Width(c.1) + 1
  {
    NameText(c.0, comma) + Text(c.1, quote)
  }

  function NameText(name: string, comma: bool): string
  {
    (if comma then "," else "") + "\"" + BB.Ascii(name) + "\":"
  }

  /** The first `k` elements of array `n`, comma-separated. */
  function ElementsText(n: Node, k: nat, quote: string -> seq<char>): string
    requires n.ArrayNode? && k <= |n.list|
    decreases n, k
  {
    if k == 0 then "" else ElementsText(n, k - 1, quote) + ElementText(n.list[k - 1], k > 1, quote)
  }

  /** One element, after a comma when it is not the first. */
  function ElementText(e: Node, comma: bool, quote: string -> seq<char>): string
    decreases e, Width(e) + 1
  {
    (if comma then "," else "") + Text(e, quote)
  }

  /** The scalars' texts: `null`, `true`, `false` and an integer's decimal digits, which read back as its value. */
  lemma ScalarTexts(v: int, quote: string -> seq<char>)
    ensures Text(JSON_NULL, quote) == "null" && Text(JSON_TRUE, quote) == "true" && Text(JSON_FALSE, quote) == "false"
    ensures BB.ParseDecimal(Text(IntegerNode(v), quote)) == BB.Some(v)
  {
    BB.DecimalRoundTrip(v);
  }

  /** Empty containers are written as bare braces and brackets. */
  lemma EmptyContainerTexts(quote: string -> seq<char>)
    ensures Text(ObjectNode([]), quote) == "{}" && Text(ArrayNode([]), quote) == "[]"
  {
  }

  /** Two array elements are separated by one comma. */
  lemma PairTexts(a: Node, b: Node, quote: string -> seq<char>)
    ensures Text(ArrayNode([a, b]), quote) == "[" + Text(a, quote) + "," + Text(b, quote) + "]"
  {
    var arr := ArrayNode([a, b]);
    assert ElementsText(arr, 1, quote) == Text(a, quote);
    assert ElementsText(arr, 2, quote) == Text(a, quote) + "," + Text(b, quote);
  }

  /** A member is its quoted name, a colon, and its value. */
  lemma MemberTexts(k: string, a: Node, quote: string -> seq<char>)
    ensures Text(ObjectNode([(k, a)]), quote) == "{\"" + BB.Ascii(k) + "\":" + Text(a, quote) + "}"
  {
    var obj := ObjectNode([(k, a)]);
    assert MembersText(obj, 0, quote) == "";
    assert MembersText(obj, 1, quote) == "" + MemberText((k, a), false, quote);
    BracedMember(BB.Ascii(k), Text(a, quote));
  }

  lemma BracedMember(name: string, value: string)
    ensures "{" + ("" + (("" + "\"" + name + "\":") + value)) + "}" == "{\"" + name + "\":" + value + "}"
  {
  }

  /** `writeJson(dest)`: appends the node's text to the buffer. */
  method WriteJson(n: Node, quote: string -> seq<char>, dest: BB.ByteBuf)
    modifies dest
    ensures dest.bytes == old(dest.bytes) + Text(n, quote)
    decreases n, Width(n) + 1
  {
    if n.ObjectNode? {
      WriteObject(n, quote, dest);
    } else if n.ArrayNode? {
      WriteArray(n, quote, dest);
    } else {
      WriteScalar(n, quote, dest);
    }
  }

  /** `writeJson` of the leaves: the literal, the decimal digits, the number's text, or the quoted string. */
  method WriteScalar(n: Node, quote: string -> seq<char>, dest: BB.ByteBuf)
    requires !n.ObjectNode? && !n.ArrayNode?
    modifies dest
    ensures dest.bytes == old(dest.bytes) + Text(n, quote)
  {
    match n
    case NullNode =>
      BB.AsciiIdentity("null");
      BB.WriteAscii(dest, "null");
    case BooleanNode(b) =>
      var t := if b then "true" else "false";
      BB.AsciiIdentity(t);
      BB.WriteAscii(dest, t);
    case IntegerNode(v) =>
      BB.DecimalAscii(v);
      BB.WriteAscii(dest, BB.DecimalString(v));
    case FloatingNode(t, _) =>
      BB.WriteAscii(dest, t);
    case StringNode(s) =>
      dest.WriteByte('"');
      dest.WriteBytes(quote(s));
      dest.WriteByte('"');
  }

  /** `ObjectNode.writeJson`: the members between braces. */
  method WriteObject(n: Node, quote: string -> seq<char>, dest: BB.ByteBuf)
    requires n.ObjectNode?
    modifies dest
    ensures dest.bytes == old(dest.bytes) + Text(n, quote)
    decreases n, Width(n)
  {
    dest.WriteByte('{');
    WriteMembers(n, quote, dest);
    dest.WriteByte('}');
  }

  /** `ArrayNode.writeJson`: the elements between brackets. */
  method WriteArray(n: Node, quote: string -> seq<char>, dest: BB.ByteBuf)
    requires n.ArrayNode?
    modifies dest
    ensures dest.bytes == old(dest.bytes) + Text(n, quote)
    decreases n, Width(n)
  {
    dest.WriteByte('[');
    WriteElements(n, quote, dest);
    dest.WriteByte(']');
  }

  /** The member loop of `ObjectNode.writeJson`: a comma before every member but the first. */
  method WriteMembers(n: Node, quote: string -> seq<char>, dest: BB.ByteBuf)
    requires n.ObjectNode?
    modifies dest
    ensures dest.bytes == old(dest.bytes) + MembersText(n, |n.children|, quote)
    decreases n, |n.children|
  {
    var first := true;
    var i := 0;
    while i < |n.children|
      invariant i <= |n.children| && first == (i == 0)
      invariant dest.bytes == old(dest.bytes) + MembersText(n, i, quote)
    {
      WriteMember(n.children[i], !first, quote, dest);
      Appended(old(dest.bytes), MembersText(n, i, quote), MemberText(n.children[i], !first, quote));
      first := false;
      i := i + 1;
    }
  }

  /** One pass of the member loop. */
  method WriteMember(c: (string, Node), comma: bool, quote: string -> seq<char>, dest: BB.ByteBuf)
    modifies dest
    ensures dest.bytes == old(dest.bytes) + MemberText(c, comma, quote)
    decreases c.1, Width(c.1) + 2
  {
    WriteName(c.0, comma, dest);
    WriteJson(c.1, quote, dest);
  }

  /** The part of a member before its value: the comma, then the quoted name and the colon. */
  method WriteName(name: string, comma: bool, dest: BB.ByteBuf)
    modifies dest
    ensures dest.bytes == old(dest.bytes) + NameText(name, comma)
  {
    ghost var b0 := dest.bytes;
    if comma {
      dest.WriteByte(',');
    }
    ghost var b1 := dest.bytes;
    dest.WriteByte('"');
    BB.WriteAscii(dest, name);
    ghost var b2 := dest.bytes;
    dest.WriteByte('"');
    dest.WriteByte(':');
    NameParts(b0, b1 + "\"", b2, dest.bytes, if comma then "," else "", BB.Ascii(name));
  }

  /** Appending to a buffer one piece after another appends their concatenation. */
  lemma Appended(a: string, b: string, c: string)
    ensures a + b + c == a + (b + c)
  {
  }

  /** The buffer steps of `WriteName` add up to the name's text. */
  lemma NameParts(b0: string, b1: string, b2: string, b3: string, cm: string, a: string)
    requires b1 == b0 + cm + "\"" && b2 == b1 + a && b3 == b2 + "\"" + ":"
    ensures b3 == b0 + (cm + "\"" + a + "\":")
  {
  }

  /** The element loop of `ArrayNode.writeJson`. */
  method WriteElements(n: Node, quote: string -> seq<char>, dest: BB.ByteBuf)
    requires n.ArrayNode?
    modifies dest
    ensures dest.bytes == old(dest.bytes) + ElementsText(n, |n.list|, quote)
    decreases n, |n.list|
  {
    var first := true;
    var i := 0;
    while i < |n.list|
      invariant i <= |n.list| && first == (i == 0)
      invariant dest.bytes == old(dest.bytes) + ElementsText(n, i, quote)
    {
      WriteElement(n.list[i], !first, quote, dest);
      Appended(old(dest.bytes), ElementsText(n, i, quote), ElementText(n.list[i], !first, quote));
      first := false;
      i := i + 1;
    }
  }

  /** One pass of the element loop. */
  method WriteElement(e: Node, comma: bool, quote: string -> seq<char>, dest: BB.ByteBuf)
    modifies dest
    ensures dest.bytes == old(dest.bytes) + ElementText(e, comma, quote)
    decreases e, Width(e) + 2
  {
    if comma {
      dest.WriteByte(',');
    }
    WriteJson(e, quote, dest);
  }
}
