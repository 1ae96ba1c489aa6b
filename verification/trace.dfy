/**
 * The code that `#[stack_trace_debug]` emits for an error enum: the
 * `virtual_stack` walk of the error's `source()` chain, and the `Debug`
 * rendering of the resulting frames.
 */
module Trace {
  import opened Wrappers
  import Decimal
  import opened Frame

  /**
   * An error as the emitted code sees it: the text its `Display` produces
   * (`to_string()`), and the error its `source()` returns, if any.
   */
  datatype ErrorValue = ErrorValue(display: string, source: Option<ErrorValue>)

  /** The number of `source()` links reachable from `e`. */
  function SourceCount(e: ErrorValue): nat {
    match e.source
    case None => 0
    case Some(s) => 1 + SourceCount(s)
  }

  /** The error reached from `e` by following `k` `source()` links, if the chain is that long. */
  function Cause(e: ErrorValue, k: nat): Option<ErrorValue> {
    if k == 0 then Some(e)
    else
      match e.source
      case None => None
      case Some(s) => Cause(s, k - 1)
  }

  /** The root cause: the end of the chain, whose `source()` is None. */
  function Root(e: ErrorValue): (r: ErrorValue)
    ensures r.source.None?
    ensures Cause(e, SourceCount(e)) == Some(r)
  {
    match e.source
    case None => e
    case Some(s) => Root(s)
  }

  /**
   * What `virtual_stack` returns: one frame for the error, then one per cause,
   * every frame at the one caller location `loc`.
   */
  function VirtualStack(e: ErrorValue, loc: Location): (stack: seq<StackFrame>)
    ensures |stack| == 1 + SourceCount(e)
    ensures stack[0] == New(loc, e.display)
  {
    [New(loc, e.display)] +
      match e.source
      case None => []
      case Some(s) => VirtualStack(s, loc)
  }

  /** Following one more link from the k-th error of the chain reaches the (k+1)-th. */
  lemma {:induction false} CauseStep(e: ErrorValue, k: nat, c: ErrorValue, s: ErrorValue)
    requires Cause(e, k) == Some(c) && c.source == Some(s)
    ensures Cause(e, k + 1) == Some(s)
    decreases k
  {
    if k > 0 {
      CauseStep(e.source.value, k - 1, c, s);
    }
  }

  /**
   * Frame k carries the display text of the k-th error of the chain (frame 0
   * the error itself, frame 1 its source, ...), and the chain ends exactly
   * where the stack does.
   */
  lemma {:induction false} VirtualStackFrames(e: ErrorValue, loc: Location, k: nat)
    requires k < |VirtualStack(e, loc)|
    ensures Cause(e, k).Some?
    ensures VirtualStack(e, loc)[k] == New(loc, Cause(e, k).value.display)
    decreases k
  {
    if k > 0 {
      VirtualStackFrames(e.source.value, loc, k - 1);
    }
  }

  /** No error lies beyond the last frame: the walk stops only when `source()` is None. */
  lemma {:induction false} ChainEnds(e: ErrorValue)
    ensures Cause(e, SourceCount(e) + 1) == None
    decreases e
  {
    match e.source
    case None =>
    case Some(s) => ChainEnds(s);
  }

  /** Every frame carries the one caller location. */
  lemma SameLocation(e: ErrorValue, loc: Location)
    ensures forall i :: 0 <= i < |VirtualStack(e, loc)| ==> VirtualStack(e, loc)[i].location == loc
  {
  }

  /** Frames run from the outermost error at index 0 to the root cause at the last index. */
  lemma VirtualStackOrder(e: ErrorValue, loc: Location)
    ensures VirtualStack(e, loc)[0].message == e.display
    ensures VirtualStack(e, loc)[|VirtualStack(e, loc)| - 1].message == Root(e).display
  {
  }

  /**
   * Collecting twice gives the same messages: only the captured location can
   * differ between two calls.
   */
  lemma {:induction false} MessagesIndependentOfLocation(e: ErrorValue, loc1: Location, loc2: Location)
    ensures forall i :: 0 <= i < |VirtualStack(e, loc1)| ==>
              VirtualStack(e, loc1)[i].message == VirtualStack(e, loc2)[i].message
    decreases e
  {
    match e.source
    case None =>
    case Some(s) => MessagesIndependentOfLocation(s, loc1, loc2);
  }

  /** Pushing the cursor's source and advancing to it keeps the walk on the specification. */
  lemma PushSource(e: ErrorValue, loc: Location, stack: seq<StackFrame>, current: ErrorValue, source: ErrorValue)
    requires current.source == Some(source)
    requires stack + VirtualStack(current, loc)[1..] == VirtualStack(e, loc)
    ensures (stack + [New(loc, source.display)]) + VirtualStack(source, loc)[1..] == VirtualStack(e, loc)
  {
  }

  /**
   * The emitted `virtual_stack`: push a frame for the error, then walk the
   * `source()` chain with a cursor, pushing one frame per cause.
   */
  method CollectVirtualStack(e: ErrorValue, loc: Location) returns (stack: seq<StackFrame>)
    ensures stack == VirtualStack(e, loc)
  {
    stack := [New(loc, e.display)];
    var current := e;
    while current.source.Some?
      invariant 1 <= |stack|
      invariant Cause(e, |stack| - 1) == Some(current)
      invariant stack[|stack| - 1].message == current.display
      invariant stack + VirtualStack(current, loc)[1..] == VirtualStack(e, loc)
      decreases current
    {
      var source := current.source.value;
      CauseStep(e, |stack| - 1, current, source);
      PushSource(e, loc, stack, current, source);
      stack := stack + [New(loc, source.display)];
      current := source;
    }
  }

  /** One line of the trace: `  {i}: {frame}`. */
  function FrameLine(i: nat, f: StackFrame): string {
    "  " + Decimal.FromNat(i) + ": " + Render(f)
  }

  /** The lines the `Debug` impl writes, each without its line break. */
  function DebugLines(header: string, stack: seq<StackFrame>): seq<string> {
    ["Error: " + header, "Virtual Stack Trace:"]
      + seq(|stack|, i requires 0 <= i < |stack| => FrameLine(i, stack[i]))
  }

  /** The text of a sequence of lines written with `writeln!`: each followed by a line break. */
  function Unlines(lines: seq<string>): string {
    if lines == [] then "" else lines[0] + "\n" + Unlines(lines[1..])
  }

  lemma {:induction false} UnlinesAppend(a: seq<string>, b: seq<string>)
    ensures Unlines(a + b) == Unlines(a) + Unlines(b)
    decreases |a|
  {
    if a != [] {
      assert (a + b)[1..] == a[1..] + b;
      UnlinesAppend(a[1..], b);
    } else {
      assert a + b == b;
    }
  }

  /** Lines free of line breaks give exactly one line break each. */
  lemma {:induction false} UnlinesCount(lines: seq<string>)
    requires forall i :: 0 <= i < |lines| ==> '\n' !in lines[i]
    ensures multiset(Unlines(lines))['\n'] == |lines|
    decreases |lines|
  {
    if lines != [] {
      UnlinesCount(lines[1..]);
      assert multiset(lines[0])['\n'] == 0;
    }
  }

  /** Writing the line of frame i extends the text by that line and its break. */
  lemma WriteFrameLine(header: string, stack: seq<StackFrame>, i: nat)
    requires i < |stack|
    ensures Unlines(DebugLines(header, stack[..i + 1]))
            == Unlines(DebugLines(header, stack[..i])) + FrameLine(i, stack[i]) + "\n"
  {
    var line := FrameLine(i, stack[i]);
    assert DebugLines(header, stack[..i + 1]) == DebugLines(header, stack[..i]) + [line];
    UnlinesAppend(DebugLines(header, stack[..i]), [line]);
  }

  /**
   * The emitted `Debug::fmt`: the header line, the title line, then one line
   * per frame of a freshly collected virtual stack, written in index order.
   * `loc` is the location `virtual_stack` captures when `fmt` calls it.
   */
  method DebugFmt(e: ErrorValue, loc: Location) returns (out: string)
    ensures out == Unlines(DebugLines(e.display, VirtualStack(e, loc)))
  {
    out := "Error: " + e.display + "\n";
    out := out + "Virtual Stack Trace:\n";
    var stack := CollectVirtualStack(e, loc);
    assert DebugLines(e.display, stack[..0]) == ["Error: " + e.display, "Virtual Stack Trace:"];
    assert Unlines(["Virtual Stack Trace:"]) == "Virtual Stack Trace:\n";
    for i := 0 to |stack|
      invariant out == Unlines(DebugLines(e.display, stack[..i]))
    {
      WriteFrameLine(e.display, stack, i);
      out := out + FrameLine(i, stack[i]) + "\n";
    }
    assert stack[..|stack|] == stack;
  }

  /** The text holds no line break. */
  predicate SingleLine(s: string) {
    '\n' !in s
  }

  /**
   * The `Debug` block opens with `Error: `, the error's own text and a line
   * break, then the title line; the header text is frame 0's message.
   */
  lemma DebugHeader(e: ErrorValue, loc: Location)
    ensures var out := Unlines(DebugLines(e.display, VirtualStack(e, loc)));
            var head := "Error: " + VirtualStack(e, loc)[0].message + "\n" + "Virtual Stack Trace:\n";
            |head| <= |out| && out[..|head|] == head
  {
  }

  /** A frame whose message and file are single lines renders as a single line. */
  lemma FrameLineSingle(i: nat, f: StackFrame)
    requires SingleLine(f.message) && SingleLine(f.location.file)
    ensures SingleLine(FrameLine(i, f))
  {
  }

  /**
   * When the error texts and the file name are single lines, the `Debug`
   * block holds exactly 2 + |stack| line breaks, one ending each line.
   */
  lemma DebugLineCount(e: ErrorValue, loc: Location)
    requires SingleLine(loc.file)
    requires forall k :: 0 <= k <= SourceCount(e) ==> Cause(e, k).Some? && SingleLine(Cause(e, k).value.display)
    ensures multiset(Unlines(DebugLines(e.display, VirtualStack(e, loc))))['\n'] == 3 + SourceCount(e)
  {
    var stack := VirtualStack(e, loc);
    var lines := DebugLines(e.display, stack);
    assert Cause(e, 0) == Some(e);
    forall i | 0 <= i < |lines| ensures '\n' !in lines[i] {
      if i >= 2 {
        VirtualStackFrames(e, loc, i - 2);
        FrameLineSingle(i - 2, stack[i - 2]);
      }
    }
    UnlinesCount(lines);
  }

  /** A frame line is its fixed prefix, up to and including " at ", followed by the location text. */
  lemma FrameLineLayout(i: nat, msg: string, loc: Location)
    ensures FrameLine(i, New(loc, msg)) == ("  " + Decimal.FromNat(i) + ": " + msg + At) + LocationText(loc)
  {
  }

  /** The literal prefixes of the scenario's two frame lines, assembled from their parts. */
  lemma ExampleLinePrefixes()
    ensures "  " + "0" + ": " + "outer failed" + At == "  0: outer failed at "
    ensures "  " + "1" + ": " + "inner cause" + At == "  1: inner cause at "
  {
  }

  /** The Debug lines of a two-frame stack. */
  lemma DebugLinesOfTwo(header: string, f0: StackFrame, f1: StackFrame)
    ensures DebugLines(header, [f0, f1])
            == ["Error: " + header, "Virtual Stack Trace:", FrameLine(0, f0), FrameLine(1, f1)]
  {
  }

  /** The two-error scenario: an outer error whose source is an inner root cause. */
  lemma DebugExample(loc: Location)
    ensures var inner := ErrorValue("inner cause", None);
            var outer := ErrorValue("outer failed", Some(inner));
            var stack := VirtualStack(outer, loc);
            |stack| == 2 && stack[0].message == "outer failed" && stack[1].message == "inner cause"
            && DebugLines(outer.display, stack)
               == ["Error: outer failed",
                   "Virtual Stack Trace:",
                   "  0: outer failed at " + LocationText(loc),
                   "  1: inner cause at " + LocationText(loc)]
  {
    var inner := ErrorValue("inner cause", None);
    var outer := ErrorValue("outer failed", Some(inner));
    assert VirtualStack(outer, loc) == [New(loc, "outer failed"), New(loc, "inner cause")];
    DebugLinesOfTwo("outer failed", New(loc, "outer failed"), New(loc, "inner cause"));
    FrameLineLayout(0, "outer failed", loc);
    FrameLineLayout(1, "inner cause", loc);
    Decimal.SmallFromNat(0);
    Decimal.SmallFromNat(1);
    ExampleLinePrefixes();
    assert "Error: " + "outer failed" == "Error: outer failed";
  }
}
