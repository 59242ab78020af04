// StackTraceUtil: rendering stack traces into text. A stack trace element
// is its class name together with the text of its `toString()`; a
// throwable is its class name, its (possibly null) message, its frames and
// its (possibly null) cause. A `StringBuilder` the caller owns is a
// `TextBuilder`, whose text the methods only ever extend.
module StackTraces {
  import opened Wrappers
  import opened TextBuilders

  datatype Element = Element(className: string, text: string)

  datatype Throwable = Throwable(className: string, message: Option<string>,
                                 stack: seq<Element>, cause: Option<Throwable>)

  predicate StartsWith(s: string, prefix: string)
  {
    |prefix| <= |s| && s[..|prefix|] == prefix
  }

  /** One rendered frame. */
  function Line(prefix: string, el: Element): string
  {
    prefix + el.text + "\n"
  }

  /** The frames `els`, one line each, in order. */
  function Lines(prefix: string, els: seq<Element>): string
  {
    if |els| == 0 then [] else Lines(prefix, els[..|els| - 1]) + Line(prefix, els[|els| - 1])
  }

  /** One more frame of a run is one more line. */
  lemma LinesStep(prefix: string, stack: seq<Element>, from: nat, i: nat)
    requires from <= i < |stack|
    ensures Lines(prefix, stack[from..i + 1]) == Lines(prefix, stack[from..i]) + Line(prefix, stack[i])
  {
    assert stack[from..i + 1][..i - from] == stack[from..i];
  }

  /** The frames from index `k` on, none when `k` is past the end. */
  function From(els: seq<Element>, k: nat): (r: seq<Element>)
    ensures |r| == if k <= |els| then |els| - k else 0
    ensures forall i :: 0 <= i < |r| ==> r[i] == els[k + i]
  {
    if k <= |els| then els[k..] else []
  }

  /** The first line of a rendered throwable. */
  function Header(t: Throwable): string
  {
    t.className + ": " + NullText(t.message) + "\n"
  }

  /** The text of `_stackTraceToString`: a header line, one "\tat " line per
    * frame and then, after "Caused by ", the cause's own text. */
  function Rendered(t: Throwable): string
    decreases t
  {
    Header(t) + Lines("\tat ", t.stack)
      + (if t.cause.Some? then "Caused by " + Rendered(t.cause.value) else [])
  }

  // ---------------------------------------------------------------------
  // Properties of the rendered text

  function Newlines(s: string): (n: nat)
    ensures n <= |s|
  {
    if |s| == 0 then 0 else Newlines(s[..|s| - 1]) + (if s[|s| - 1] == '\n' then 1 else 0)
  }

  lemma {:induction false} NewlinesConcat(a: string, b: string)
    ensures Newlines(a + b) == Newlines(a) + Newlines(b)
    decreases |b|
  {
    if |b| == 0 {
      assert a + b == a;
    } else {
      assert (a + b)[..|a + b| - 1] == a + b[..|b| - 1];
      NewlinesConcat(a, b[..|b| - 1]);
    }
  }

  lemma {:induction false} NoNewlines(s: string)
    requires '\n' !in s
    ensures Newlines(s) == 0
    decreases |s|
  {
    if |s| > 0 {
      assert '\n' !in s[..|s| - 1] by {
        assert forall i :: 0 <= i < |s| - 1 ==> s[..|s| - 1][i] == s[i];
      }
      NoNewlines(s[..|s| - 1]);
    }
  }

  predicate OneLineFrames(prefix: string, els: seq<Element>)
  {
    '\n' !in prefix && forall i :: 0 <= i < |els| ==> '\n' !in els[i].text
  }

  /** Each frame is exactly one line: `n` frames make `n` newlines. */
  lemma {:induction false} LineCount(prefix: string, els: seq<Element>)
    requires OneLineFrames(prefix, els)
    ensures Newlines(Lines(prefix, els)) == |els|
    decreases |els|
  {
    if |els| > 0 {
      var el := els[|els| - 1];
      assert OneLineFrames(prefix, els[..|els| - 1]);
      LineCount(prefix, els[..|els| - 1]);
      NewlinesConcat(Lines(prefix, els[..|els| - 1]), Line(prefix, el));
      NewlinesConcat(prefix + el.text, "\n");
      NewlinesConcat(prefix, el.text);
      NoNewlines(prefix);
      NoNewlines(el.text);
      assert Newlines("\n") == 1 by {
        assert "\n"[..0] == [];
      }
    }
  }

  /** Rendering a run of frames splits where the run does. */
  lemma {:induction false} LinesSplit(prefix: string, a: seq<Element>, b: seq<Element>)
    ensures Lines(prefix, a + b) == Lines(prefix, a) + Lines(prefix, b)
    decreases |b|
  {
    if |b| == 0 {
      assert a + b == a;
    } else {
      var init := b[..|b| - 1];
      var last := Line(prefix, b[|b| - 1]);
      assert (a + b)[..|a + b| - 1] == a + init;
      assert Lines(prefix, a + b) == Lines(prefix, a + init) + last;
      LinesSplit(prefix, a, init);
      assert Lines(prefix, b) == Lines(prefix, init) + last;
    }
  }

  /** The number of lines a throwable renders to: a header per throwable of
    * the cause chain plus one line per frame. */
  function ChainLines(t: Throwable): nat
    decreases t
  {
    1 + |t.stack| + (if t.cause.Some? then ChainLines(t.cause.value) else 0)
  }

  predicate OneLineChain(t: Throwable)
    decreases t
  {
    '\n' !in t.className && '\n' !in NullText(t.message) && OneLineFrames("\tat ", t.stack)
      && (t.cause.Some? ==> OneLineChain(t.cause.value))
  }

  /** A one-line class name and message make a header of one line. */
  lemma HeaderLineCount(t: Throwable)
    requires '\n' !in t.className && '\n' !in NullText(t.message)
    ensures Newlines(Header(t)) == 1
  {
    NewlinesConcat(t.className + ": " + NullText(t.message), "\n");
    NewlinesConcat(t.className + ": ", NullText(t.message));
    NewlinesConcat(t.className, ": ");
    NoNewlines(t.className);
    NoNewlines(": ");
    NoNewlines(NullText(t.message));
    assert Newlines("\n") == 1 by {
      assert "\n"[..0] == [];
    }
  }

  lemma {:induction false} RenderedLineCount(t: Throwable)
    requires OneLineChain(t)
    ensures Newlines(Rendered(t)) == ChainLines(t)
    decreases t
  {
    var frames := Lines("\tat ", t.stack);
    var tail := if t.cause.Some? then "Caused by " + Rendered(t.cause.value) else [];
    NewlinesConcat(Header(t) + frames, tail);
    NewlinesConcat(Header(t), frames);
    HeaderLineCount(t);
    LineCount("\tat ", t.stack);
    if t.cause.Some? {
      NewlinesConcat("Caused by ", Rendered(t.cause.value));
      NoNewlines("Caused by ");
      RenderedLineCount(t.cause.value);
    } else {
      assert Newlines(tail) == 0;
    }
  }

  // ---------------------------------------------------------------------
  // stackTraceToString and its overloads

  /** `_stackTraceToString(writer, t)`. */
  method WriteThrowable(writer: TextBuilder, t: Throwable)
    modifies writer
    ensures writer.text == old(writer.text) + Rendered(t)
    decreases t
  {
    ghost var start := writer.text;
    writer.Append(t.className);
    writer.Append(": ");
    writer.Append(NullText(t.message));
    writer.Append("\n");
    assert writer.text == start + Header(t);
    ghost var head := writer.text;
    var i := 0;
    while i < |t.stack|
      invariant 0 <= i <= |t.stack|
      invariant writer.text == head + Lines("\tat ", t.stack[..i])
    {
      assert t.stack[..i + 1][..i] == t.stack[..i];
      writer.Append("\tat ");
      writer.Append(t.stack[i].text);
      writer.Append("\n");
      i := i + 1;
    }
    assert t.stack[..i] == t.stack;
    ghost var framed := writer.text;
    if t.cause.Some? {
      writer.Append("Caused by ");
      WriteThrowable(writer, t.cause.value);
    }
    Rendering(start, t, framed, writer.text);
  }

  lemma Rendering(start: string, t: Throwable, framed: string, after: string)
    requires framed == start + Header(t) + Lines("\tat ", t.stack)
    requires t.cause.Some? ==> after == framed + "Caused by " + Rendered(t.cause.value)
    requires t.cause.None? ==> after == framed
    ensures after == start + Rendered(t)
  {
  }

  /** `stackTraceToString(Throwable)`. */
  method ThrowableToString(t: Throwable) returns (r: string)
    ensures r == Rendered(t)
  {
    var writer := new TextBuilder();
    WriteThrowable(writer, t);
    r := writer.text;
  }

  /** `stackTraceToString(StackTraceElement[], int)`: the frames from `skip`
    * on, each indented by a tab. */
  method StackToStringSkipping(stack: array<Element>, skip: nat) returns (r: string)
    ensures r == Lines("\t", From(stack[..], skip))
  {
    r := [];
    if skip <= stack.Length {
      var i := skip;
      while i < stack.Length
        invariant skip <= i <= stack.Length
        invariant r == Lines("\t", stack[skip..i])
      {
        LinesStep("\t", stack[..], skip, i);
        r := r + "\t" + stack[i].text + "\n";
        i := i + 1;
      }
      assert stack[skip..stack.Length] == stack[..][skip..];
    }
  }

  /** `stackTraceToString(StackTraceElement[])`: every frame. */
  method StackToString(stack: array<Element>) returns (r: string)
    ensures r == Lines("\t", stack[..])
  {
    r := [];
    var i := 0;
    while i < stack.Length
      invariant 0 <= i <= stack.Length
      invariant r == Lines("\t", stack[..i])
    {
      assert stack[..i + 1][..i] == stack[..i];
      r := r + "\t" + stack[i].text + "\n";
      i := i + 1;
    }
    assert stack[..i] == stack[..];
  }

  /** Skipping nothing is the one-argument form; skipping `k` frames leaves
    * the text of the remaining frames, one line each. */
  lemma SkipLines(stack: seq<Element>, k: nat)
    requires k <= |stack|
    ensures Lines("\t", From(stack, 0)) == Lines("\t", stack)
    ensures Lines("\t", stack) == Lines("\t", stack[..k]) + Lines("\t", From(stack, k))
  {
    assert From(stack, 0) == stack;
    assert stack == stack[..k] + From(stack, k);
    LinesSplit("\t", stack[..k], From(stack, k));
  }

  // ---------------------------------------------------------------------
  // stackTraceForDebugging and writeSkipStackTrace: a scan for a start

  /** What a scan looks for in a frame. */
  datatype Probe = OutsidePackage(package: string) | TextStarts(name: string)

  predicate Matches(el: Element, probe: Probe)
  {
    match probe
    case OutsidePackage(package) => !StartsWith(el.className, package)
    case TextStarts(name) => StartsWith(el.text, name)
  }

  /** The first index at or after `from` whose frame matches `probe`. */
  function FirstMatch(stack: seq<Element>, probe: Probe, from: nat): (r: Option<nat>)
    ensures r.Some? ==> from <= r.value < |stack| && Matches(stack[r.value], probe)
                        && forall j :: from <= j < r.value ==> !Matches(stack[j], probe)
    ensures r.None? ==> forall j :: from <= j < |stack| ==> !Matches(stack[j], probe)
    decreases |stack| - from
  {
    if from >= |stack| then None
    else if Matches(stack[from], probe) then Some(from)
    else FirstMatch(stack, probe, from + 1)
  }

  /** The company packages `stackTraceForDebugging` walks through. */
  const COMPANY := ["com.applelg", "com.appleleisuregroup"]

  predicate Outsider(el: Element)
  {
    !StartsWith(el.className, COMPANY[0]) && !StartsWith(el.className, COMPANY[1])
  }

  /** The index one past the last frame `stackTraceForDebugging` prints when
    * it starts at `from`: it stops after the first frame outside the company
    * packages, or at the end of the stack. */
  function DebugEnd(stack: seq<Element>, from: nat): (e: nat)
    requires from <= |stack|
    ensures from <= e <= |stack|
    ensures forall j :: from <= j < e - 1 ==> !Outsider(stack[j])
    ensures e < |stack| ==> from < e && Outsider(stack[e - 1])
    decreases |stack| - from
  {
    if from == |stack| then from
    else if Outsider(stack[from]) then from + 1
    else DebugEnd(stack, from + 1)
  }

  /** `stackTraceForDebugging(skip)`, on the current thread's stack
    * `stack`: the frames from `skip + 2` through the first frame outside
    * the company packages. */
  method StackForDebugging(stack: array<Element>, skip: nat) returns (r: string)
    ensures skip + 2 <= stack.Length ==> r == Lines("\t", stack[skip + 2..DebugEnd(stack[..], skip + 2)])
    ensures skip + 2 > stack.Length ==> r == []
  {
    r := [];
    if skip + 2 > stack.Length {
      return;
    }
    ghost var from := skip + 2;
    var i := skip + 2;
    while i < stack.Length
      invariant from <= i <= stack.Length
      invariant DebugEnd(stack[..], from) == DebugEnd(stack[..], i)
      invariant r == Lines("\t", stack[..][from..i])
    {
      var el := stack[i];
      LinesStep("\t", stack[..], from, i);
      r := r + "\t" + el.text + "\n";
      assert r == Lines("\t", stack[..][from..i + 1]);
      if Outsider(el) {
        return;
      }
      i := i + 1;
    }
  }

  /** Where `writeSkipStackTrace` starts printing: at the first frame from
    * index 1 on outside the skipped package when one is named, otherwise
    * at the first frame from index 1 on whose text starts with
    * `lookForStartAfterName` when that is named, and at 1 when there is no
    * such frame (frame 0 is `Thread.getStackTrace` itself). */
  function StartIndex(stack: seq<Element>, skipPackage: Option<string>, lookFor: Option<string>): (k: nat)
    ensures 1 <= k
    ensures skipPackage.Some? ==>
      ((k < |stack| && !StartsWith(stack[k].className, skipPackage.value)
        && forall j :: 1 <= j < k ==> StartsWith(stack[j].className, skipPackage.value))
       || (k == 1 && forall j :: 1 <= j < |stack| ==> StartsWith(stack[j].className, skipPackage.value)))
    ensures skipPackage.None? && lookFor.Some? ==>
      ((k < |stack| && StartsWith(stack[k].text, lookFor.value)
        && forall j :: 1 <= j < k ==> !StartsWith(stack[j].text, lookFor.value))
       || (k == 1 && forall j :: 1 <= j < |stack| ==> !StartsWith(stack[j].text, lookFor.value)))
    ensures skipPackage.None? && lookFor.None? ==> k == 1
  {
    var probe := if skipPackage.Some? then Some(OutsidePackage(skipPackage.value))
                 else if lookFor.Some? then Some(TextStarts(lookFor.value)) else None;
    if probe.None? then 1
    else
      match FirstMatch(stack, probe.value, 1)
      case Some(i) => i
      case None => 1
  }

  /** The scan loop of `writeSkipStackTrace`. */
  method FindStart(stack: array<Element>, skipPackage: Option<string>, lookFor: Option<string>)
    returns (startIndex: nat)
    ensures startIndex == StartIndex(stack[..], skipPackage, lookFor)
  {
    startIndex := 1;
    if skipPackage.None? && lookFor.None? {
      return;
    }
    var probe := if skipPackage.Some? then OutsidePackage(skipPackage.value) else TextStarts(lookFor.value);
    var i := 1;
    while i < stack.Length
      invariant 1 <= i
      invariant FirstMatch(stack[..], probe, 1) == FirstMatch(stack[..], probe, i)
    {
      var found := if skipPackage.Some? then !StartsWith(stack[i].className, skipPackage.value)
                   else StartsWith(stack[i].text, lookFor.value);
      if found {
        assert Matches(stack[..][i], probe);
        startIndex := i;
        return;
      }
      i := i + 1;
    }
  }

  /** `writeSkipStackTrace`: appends the frames from the start index on. */
  method WriteSkipStackTrace(stack: array<Element>, b: TextBuilder,
                             skipPackage: Option<string>, lookFor: Option<string>)
    modifies b
    ensures b.text == old(b.text) + Lines("\t", From(stack[..], StartIndex(stack[..], skipPackage, lookFor)))
  {
    var startIndex := FindStart(stack, skipPackage, lookFor);
    AppendLines(b, stack, startIndex);
  }

  /** The printing loop of `writeSkipStackTrace`. */
  method AppendLines(b: TextBuilder, stack: array<Element>, from: nat)
    modifies b
    ensures b.text == old(b.text) + Lines("\t", From(stack[..], from))
  {
    if from > stack.Length {
      return;
    }
    ghost var start := b.text;
    var i := from;
    while i < stack.Length
      invariant from <= i <= stack.Length
      invariant b.text == start + Lines("\t", stack[from..i])
    {
      LinesStep("\t", stack[..], from, i);
      b.Append("\t");
      b.Append(stack[i].text);
      b.Append("\n");
      i := i + 1;
    }
    assert stack[from..stack.Length] == stack[..][from..];
  }

  // ---------------------------------------------------------------------
  // trimStackTrace

  /** The guard on `lastElement` in `trimStackTrace`'s scan: as written it
    * only moves once it has already left -1; corrected it records the first
    * frame of the trailing run outside the application package. */
  datatype TrimRule = AsWritten | Corrected

  predicate InApp(el: Element, appPackage: string)
  {
    StartsWith(el.className, appPackage)
  }

  /** `lastElement` after scanning `stack`. */
  function LastElement(rule: TrimRule, stack: seq<Element>, appPackage: string): int
  {
    if |stack| == 0 then -1
    else
      var last := LastElement(rule, stack[..|stack| - 1], appPackage);
      if InApp(stack[|stack| - 1], appPackage) then -1
      else if (if rule == AsWritten then last != -1 else last == -1) then |stack| - 1
      else last
  }

  /** As written, the scan never leaves -1. */
  lemma {:induction false} LastElementStuck(stack: seq<Element>, appPackage: string)
    ensures LastElement(AsWritten, stack, appPackage) == -1
    decreases |stack|
  {
    if |stack| > 0 {
      LastElementStuck(stack[..|stack| - 1], appPackage);
    }
  }

  /** Corrected, the scan finds where the trailing run of frames outside the
    * application package begins, and -1 when the last frame is inside it. */
  lemma {:induction false} LastElementTail(stack: seq<Element>, appPackage: string)
    ensures var k := LastElement(Corrected, stack, appPackage);
      (k == -1 <==> |stack| == 0 || InApp(stack[|stack| - 1], appPackage))
      && (k != -1 ==> 0 <= k < |stack| && (k == 0 || InApp(stack[k - 1], appPackage))
                      && forall j :: k <= j < |stack| ==> !InApp(stack[j], appPackage))
    decreases |stack|
  {
    if |stack| > 0 {
      var init := stack[..|stack| - 1];
      LastElementTail(init, appPackage);
      assert forall j :: 0 <= j < |init| ==> init[j] == stack[j];
    }
  }

  /** The marker frame `new StackTraceElement("trimmed.", ".", null, 0)`,
    * whose `toString()` is its class, a dot, its method and
    * "(Unknown Source)". */
  const TRIMMED := Element("trimmed.", "trimmed...(Unknown Source)")

  /** The stack `trimStackTrace` installs, if any. */
  function TrimmedStack(stack: seq<Element>, last: int): (r: Option<seq<Element>>)
    ensures r.Some? <==> 0 < last < |stack| - 1
    ensures r.Some? ==> |r.value| == last + 1 && r.value[..last] == stack[..last] && r.value[last] == TRIMMED
  {
    if 0 < last < |stack| - 1 then Some(stack[..last] + [TRIMMED]) else None
  }

  /** The scan loop of `trimStackTrace`. */
  method ScanLast(rule: TrimRule, stack: array<Element>, appPackage: string) returns (last: int)
    ensures last == LastElement(rule, stack[..], appPackage)
  {
    last := -1;
    var i := 0;
    while i < stack.Length
      invariant 0 <= i <= stack.Length
      invariant last == LastElement(rule, stack[..i], appPackage)
    {
      assert stack[..i + 1][..i] == stack[..i];
      if StartsWith(stack[i].className, appPackage) {
        last := -1;
      } else if (if rule == AsWritten then last != -1 else last == -1) {
        last := i;
      }
      i := i + 1;
    }
    assert stack[..i] == stack[..];
  }

  /** `trimStackTrace(t, appPackageName)`: `t` with the stack it is left
    * holding. */
  method TrimStackTrace(rule: TrimRule, t: Throwable, appPackage: string) returns (r: Throwable)
    ensures r == (match TrimmedStack(t.stack, LastElement(rule, t.stack, appPackage))
                  case Some(s) => t.(stack := s)
                  case None => t)
  {
    var stack := new Element[|t.stack|](i requires 0 <= i < |t.stack| => t.stack[i]);
    assert stack[..] == t.stack;
    var last := ScanLast(rule, stack, appPackage);
    r := t;
    if last > 0 && last < stack.Length - 1 {
      var newStack := stack[..last + 1];
      newStack := newStack[last := TRIMMED];
      assert newStack == t.stack[..last] + [TRIMMED];
      r := t.(stack := newStack);
    }
  }

  /** As written, `trimStackTrace` never changes a stack. */
  lemma TrimNeverTrims(t: Throwable, appPackage: string)
    ensures TrimmedStack(t.stack, LastElement(AsWritten, t.stack, appPackage)).None?
  {
    LastElementStuck(t.stack, appPackage);
  }

  /** Corrected, a stack whose last two frames lie outside the application
    * package, below an application frame, loses that tail to one marker. */
  lemma TrimCutsTail(stack: seq<Element>, appPackage: string, k: nat)
    requires 0 < k < |stack| - 1 && InApp(stack[k - 1], appPackage)
    requires forall j :: k <= j < |stack| ==> !InApp(stack[j], appPackage)
    ensures TrimmedStack(stack, LastElement(Corrected, stack, appPackage)) == Some(stack[..k] + [TRIMMED])
  {
    LastElementTail(stack, appPackage);
    var m := LastElement(Corrected, stack, appPackage);
    assert !InApp(stack[|stack| - 1], appPackage);
    assert m == 0 || InApp(stack[m - 1], appPackage);
    assert m <= k;
    assert m >= k;
  }
}
