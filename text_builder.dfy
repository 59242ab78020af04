// Java's `StringBuilder`, as the utilities that take one from their caller
// use it: they only ever append to it.
module TextBuilders {
  import opened Wrappers

  class TextBuilder {
    var text: string

    constructor ()
      ensures text == []
    {
      text := [];
    }

    method Append(s: string)
      modifies this
      ensures text == old(text) + s
    {
      text := text + s;
    }
  }

  /** Appending a null `String` to a `StringBuilder` appends "null". */
  function NullText(m: Option<string>): (r: string)
    ensures m.Some? ==> r == m.value
    ensures m.None? ==> r == "null"
  {
    if m.Some? then m.value else "null"
  }
}
