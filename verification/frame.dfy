/**
 * The runtime data model of the virtual stack trace: a stack frame is a
 * source location paired with a message, and it displays as
 * `{message} at {file}:{line}:{column}`.
 */
module Frame {
  import opened Wrappers
  import Decimal

  /** A source position as `std::panic::Location` reports it. */
  datatype Location = Location(file: string, line: nat, column: nat)

  /** One step of an error's propagation path; a snapshot that never changes. */
  datatype StackFrame = StackFrame(location: Location, message: string)

  /** `StackFrame::new`: stores the location and the message as given. */
  function New(location: Location, message: string): (f: StackFrame)
    ensures f.location == location && f.message == message
  {
    StackFrame(location, message)
  }

  /** The separator between a frame's message and its location. */
  const At: string := " at "

  /** The `file:line:column` text of a location. */
  function LocationText(loc: Location): string {
    loc.file + ":" + Decimal.FromNat(loc.line) + ":" + Decimal.FromNat(loc.column)
  }

  /** `Display for StackFrame`: `{message} at {file}:{line}:{column}`. */
  function Render(f: StackFrame): string {
    f.message + At + LocationText(f.location)
  }

  /**
   * Rendering is total, and its layout is fixed: the text starts with the
   * message followed at once by " at ", ends with ':' and the digits of the
   * column, and its length is that of its parts.
   */
  lemma RenderLayout(f: StackFrame)
    ensures var r := Render(f);
            var line := Decimal.FromNat(f.location.line);
            var col := Decimal.FromNat(f.location.column);
            && |r| == |f.message| + 4 + |f.location.file| + |line| + |col| + 2
            && r[..|f.message| + 4] == f.message + At
            && r[|r| - |col|..] == col && r[|r| - |col| - 1] == ':'
  {
  }

  /**
   * Splits `s` at its last `sep`: the text before it and the text after it.
   * None when `s` holds no `sep`.
   */
  function SplitLast(s: string, sep: char): (r: Option<(string, string)>)
    ensures r.None? <==> sep !in s
    ensures r.Some? ==> r.value.0 + [sep] + r.value.1 == s && sep !in r.value.1
    decreases |s|
  {
    if s == [] then None
    else if s[|s| - 1] == sep then Some((s[..|s| - 1], []))
    else
      match SplitLast(s[..|s| - 1], sep)
      case None => None
      case Some((before, after)) => Some((before, after + [s[|s| - 1]]))
  }

  /** The last separator is the one after which no separator follows. */
  lemma {:induction false} SplitLastAt(before: string, sep: char, after: string)
    requires sep !in after
    ensures SplitLast(before + [sep] + after, sep) == Some((before, after))
    decreases |after|
  {
    var s := before + [sep] + after;
    if after == [] {
      assert s[..|s| - 1] == before;
    } else {
      var shorter := after[..|after| - 1];
      assert s[..|s| - 1] == before + [sep] + shorter;
      assert sep !in shorter by {
        forall i | 0 <= i < |shorter| ensures shorter[i] != sep {
          assert shorter[i] == after[i];
        }
      }
      SplitLastAt(before, sep, shorter);
      assert shorter + [s[|s| - 1]] == after;
    }
  }

  /** Reads a location back from its `file:line:column` text. */
  function ParseLocation(text: string): Option<Location> {
    match SplitLast(text, ':')
    case None => None
    case Some((rest, column)) =>
      match SplitLast(rest, ':')
      case None => None
      case Some((file, line)) =>
        match (Decimal.Parse(line), Decimal.Parse(column))
        case (Some(l), Some(c)) => Some(Location(file, l, c))
        case _ => None
  }

  /**
   * Reads the location back out of a rendered frame whose message is known,
   * as a tool that parses trace output would.
   */
  function ParseRendered(message: string, r: string): Option<Location> {
    var prefix := message + At;
    if |prefix| <= |r| && r[..|prefix|] == prefix then ParseLocation(r[|prefix|..]) else None
  }

  lemma DigitsHaveNoColon(n: nat)
    ensures ':' !in Decimal.FromNat(n)
  {
  }

  /** Every location survives its own text: file, line and column are recovered. */
  lemma ParseLocationText(loc: Location)
    ensures ParseLocation(LocationText(loc)) == Some(loc)
  {
    var line := Decimal.FromNat(loc.line);
    var column := Decimal.FromNat(loc.column);
    DigitsHaveNoColon(loc.line);
    DigitsHaveNoColon(loc.column);
    assert LocationText(loc) == (loc.file + [':'] + line) + [':'] + column;
    SplitLastAt(loc.file + [':'] + line, ':', column);
    SplitLastAt(loc.file, ':', line);
    Decimal.ParseFromNat(loc.line);
    Decimal.ParseFromNat(loc.column);
  }

  /**
   * Round trip of the display format: from a rendered frame and its message
   * the frame's location is recovered exactly, whatever the message and the
   * file contain.
   */
  lemma ParseRenderedFrame(f: StackFrame)
    ensures ParseRendered(f.message, Render(f)) == Some(f.location)
  {
    var r := Render(f);
    var prefix := f.message + At;
    assert r[|prefix|..] == LocationText(f.location);
    ParseLocationText(f.location);
  }

  /** Two frames with the same message render alike only if they agree in location. */
  lemma RenderInjective(f: StackFrame, g: StackFrame)
    requires f.message == g.message
    ensures Render(f) == Render(g) <==> f == g
  {
    if Render(f) == Render(g) {
      ParseRenderedFrame(f);
      ParseRenderedFrame(g);
    }
  }

  /**
   * Without the message the layout is ambiguous: " at " may belong to the
   * message or to the file, so the message is needed to read a location back.
   */
  lemma RenderAmbiguousWithoutMessage()
    ensures var f := StackFrame(Location("z", 1, 2), "x at y");
            var g := StackFrame(Location("y at z", 1, 2), "x");
            f != g && Render(f) == Render(g)
  {
    assert Decimal.FromNat(1) == "1" && Decimal.FromNat(2) == "2";
    assert "x at y" + At + "z" == "x" + At + "y at z";
  }

  /** The literal text of the documentation example, assembled from its parts. */
  lemma ExampleText()
    ensures "Failed to read configuration file" + (At + ("src/config.rs" + (":" + ("42" + (":" + "15")))))
            == "Failed to read configuration file at src/config.rs:42:15"
  {
  }

  /** The example of the `Display` documentation. */
  lemma RenderExample()
    ensures Render(New(Location("src/config.rs", 42, 15), "Failed to read configuration file"))
            == "Failed to read configuration file at src/config.rs:42:15"
  {
    Decimal.SmallFromNat(42);
    Decimal.SmallFromNat(15);
    assert LocationText(Location("src/config.rs", 42, 15)) == "src/config.rs" + (":" + ("42" + (":" + "15")));
    ExampleText();
  }
}
