/** What a repaint sends to the terminal, as abstract events, and the
    background and border drawings of a node as functions of its global
    rectangle. Escape codes and Pastel styling are not modelled: a move is a
    `MoveTo`, a styled string is a `Write` carrying a style tag. */
module Draw {
  import opened RubyText

  /** A colour name handed to Pastel (`:red`, `:on_blue`, ...). */
  type Color = string

  /** A Pastel painter: an optional foreground and background colour, or the
      inverse style used for the text field's caret. */
  datatype Style = Styled(fg: Option<Color>, bg: Option<Color>) | Inverse

  datatype Event =
    | MoveTo(col: int, row: int)      // TTY::Cursor.move_to
    | Forward(cells: int)             // TTY::Cursor.forward
    | Write(text: string, style: Style)

  /** The output of a paint: the events printed, and the exception raised
      after them, if any (a raised exception stops everything after it). */
  datatype Trace = Trace(events: seq<Event>, fault: Option<Fault>)

  /** A paint that prints nothing and raises nothing. */
  const Quiet := Trace([], None)

  /** Runs `b` after `a`, unless `a` raised. */
  function Then(a: Trace, b: Trace): Trace
  {
    if a.fault.Some? then a else Trace(a.events + b.events, b.fault)
  }

  lemma ThenAssociative(a: Trace, b: Trace, c: Trace)
    ensures Then(Then(a, b), c) == Then(a, Then(b, c))
  {
  }

  lemma ThenQuiet(a: Trace)
    ensures Then(Quiet, a) == a && Then(a, Quiet) == a
  {
  }

  // ---------------------------------------------------------------------
  // Where the text ends up: a terminal that follows the events.

  /** A cursor position, column then row. */
  type Cell = (int, int)

  /** A piece of text and the cell its first character lands on. */
  datatype Placed = Placed(col: int, row: int, text: string, style: Style)

  function Step(e: Event, at: Cell): Cell
  {
    match e
    case MoveTo(c, r) => (c, r)
    case Forward(n) => (at.0 + n, at.1)
    case Write(t, _) => (at.0 + |t|, at.1)
  }

  /** The cursor position after `evs`, starting at `at`. */
  function After(evs: seq<Event>, at: Cell): Cell
    decreases |evs|
  {
    if evs == [] then at else After(evs[1..], Step(evs[0], at))
  }

  /** Every write of `evs`, in order, with the cell it starts on. */
  function Placements(evs: seq<Event>, at: Cell): (ps: seq<Placed>)
    ensures |ps| <= |evs|
    decreases |evs|
  {
    if evs == [] then []
    else
      var here := match evs[0]
        case Write(t, s) => [Placed(at.0, at.1, t, s)]
        case _ => [];
      here + Placements(evs[1..], Step(evs[0], at))
  }

  /** Following two event lists one after the other is following the first,
      then the second from where the first left the cursor. */
  lemma {:induction false} PlacementsConcat(a: seq<Event>, b: seq<Event>, at: Cell)
    ensures After(a + b, at) == After(b, After(a, at))
    ensures Placements(a + b, at) == Placements(a, at) + Placements(b, After(a, at))
    decreases |a|
  {
    if a == [] {
      assert a + b == b;
    } else {
      assert (a + b)[0] == a[0] && (a + b)[1..] == a[1..] + b;
      PlacementsConcat(a[1..], b, Step(a[0], at));
    }
  }

  /** A move and a write put the text at the move's target, leaving the
      cursor just after it. */
  lemma MoveThenWrite(c: int, r: int, text: string, style: Style, at: Cell)
    ensures Placements([MoveTo(c, r), Write(text, style)], at) == [Placed(c, r, text, style)]
    ensures After([MoveTo(c, r), Write(text, style)], at) == (c + |text|, r)
  {
    var evs := [MoveTo(c, r), Write(text, style)];
    assert evs[1..] == [Write(text, style)] && evs[1..][1..] == [];
    assert After(evs[1..], (c, r)) == After([], (c + |text|, r));
  }

  /** A move, a one-character write, a jump over `gap` cells and another
      one-character write put the two characters `gap` cells apart on the
      move's row. */
  lemma SideCells(c: int, r: int, ch: char, gap: int, style: Style, at: Cell)
    ensures Placements([MoveTo(c, r), Write([ch], style), Forward(gap), Write([ch], style)], at) ==
      [Placed(c, r, [ch], style), Placed(c + 1 + gap, r, [ch], style)]
  {
    var s0 := [MoveTo(c, r), Write([ch], style), Forward(gap), Write([ch], style)];
    var s1 := s0[1..];
    var s2 := s1[1..];
    var s3 := s2[1..];
    assert s1 == [Write([ch], style), Forward(gap), Write([ch], style)];
    assert s2 == [Forward(gap), Write([ch], style)];
    assert s3 == [Write([ch], style)] && s3[1..] == [];
    assert Placements(s3, (c + 1 + gap, r)) == [Placed(c + 1 + gap, r, [ch], style)];
    assert Placements(s2, (c + 1, r)) == [Placed(c + 1 + gap, r, [ch], style)];
  }

  // ---------------------------------------------------------------------
  // Background: Node#repaint_background.

  /** The painter of `create_painter`: text colour, then background colour. */
  function Painter(textColor: Option<Color>, background: Option<Color>): Style
  {
    Styled(textColor, background)
  }

  /** The rows loop as the source writes it: print the row of spaces, then
      move to `global_y(h)`. */
  function BackgroundRowsAsWritten(gx: int, gy: int, spaces: string, style: Style, n: int): seq<Event>
    decreases n
  {
    if n <= 0 then []
    else
      BackgroundRowsAsWritten(gx, gy, spaces, style, n - 1)
        + [Write(spaces, style), MoveTo(gx, gy + (n - 1))]
  }

  /** `repaint_background` as written, at global origin (`gx`, `gy`). */
  function BackgroundAsWritten(gx: int, gy: int, width: int, height: int,
                               textColor: Option<Color>, background: Option<Color>): Trace
  {
    if background.None? then Quiet
    else
      match Repeat(' ', width)
      case Err(f) => Trace([MoveTo(gx, gy)], Some(f))
      case Ok(spaces) =>
        Trace([MoveTo(gx, gy)]
          + BackgroundRowsAsWritten(gx, gy, spaces, Painter(textColor, background), height), None)
  }

  lemma {:induction false} BackgroundRowsAsWrittenPlaced(gx: int, gy: int, spaces: string, style: Style, n: nat)
    ensures var evs := [MoveTo(gx, gy)] + BackgroundRowsAsWritten(gx, gy, spaces, style, n);
      After(evs, (0, 0)) == (gx, if n == 0 then gy else gy + n - 1) &&
      Placements(evs, (0, 0)) == seq(n, k => Placed(gx, if k == 0 then gy else gy + k - 1, spaces, style))
  {
    var evs := [MoveTo(gx, gy)] + BackgroundRowsAsWritten(gx, gy, spaces, style, n);
    if n == 0 {
      assert evs == [MoveTo(gx, gy)];
      assert evs[1..] == [];
    } else {
      var prev := [MoveTo(gx, gy)] + BackgroundRowsAsWritten(gx, gy, spaces, style, n - 1);
      var step := [Write(spaces, style), MoveTo(gx, gy + (n - 1))];
      assert evs == prev + step;
      BackgroundRowsAsWrittenPlaced(gx, gy, spaces, style, n - 1);
      PlacementsConcat(prev, step, (0, 0));
      var at := After(prev, (0, 0));
      assert step[1..] == [MoveTo(gx, gy + (n - 1))];
      assert Placements(step, at) == [Placed(at.0, at.1, spaces, style)];
      var rest := step[1..];
      assert rest[1..] == [];
      assert After(rest, Step(step[0], at)) == After(rest[1..], (gx, gy + n - 1));
      assert After(step, at) == (gx, gy + n - 1);
    }
  }

  /** As written, the fill paints the top row twice and never reaches the
      bottom row: its writes land on rows `gy, gy, gy+1, ..., gy+height-2`. */
  lemma BackgroundAsWrittenPlacements(gx: int, gy: int, width: int, height: int,
                                      textColor: Option<Color>, background: Option<Color>)
    requires background.Some? && width >= 0 && height >= 0
    ensures var t := BackgroundAsWritten(gx, gy, width, height, textColor, background);
      t.fault.None? &&
      Placements(t.events, (0, 0)) ==
        seq(height, k => Placed(gx, if k == 0 then gy else gy + k - 1,
                                seq(width, _ => ' '), Painter(textColor, background)))
  {
    BackgroundRowsAsWrittenPlaced(gx, gy, seq(width, _ => ' '), Painter(textColor, background), height);
  }

  /** The discrepancy: with two or more rows, the bottom row of the
      rectangle receives no write at all. */
  lemma BackgroundAsWrittenSkipsBottomRow(gx: int, gy: int, width: int, height: int,
                                          textColor: Option<Color>, background: Option<Color>)
    requires background.Some? && width >= 0 && height >= 2
    ensures var t := BackgroundAsWritten(gx, gy, width, height, textColor, background);
      forall p :: p in Placements(t.events, (0, 0)) ==> p.row != gy + height - 1
  {
    BackgroundAsWrittenPlacements(gx, gy, width, height, textColor, background);
  }

  /** The rows loop as intended: move to row `h`, then print its spaces. */
  function BackgroundRows(gx: int, gy: int, spaces: string, style: Style, n: int): seq<Event>
    decreases n
  {
    if n <= 0 then []
    else
      BackgroundRows(gx, gy, spaces, style, n - 1)
        + [MoveTo(gx, gy + (n - 1)), Write(spaces, style)]
  }

  /** `repaint_background` with the rows loop corrected. Nothing without a
      background colour; Ruby's `' ' * width` raises for a negative width,
      after the first move. */
  function Background(gx: int, gy: int, width: int, height: int,
                      textColor: Option<Color>, background: Option<Color>): Trace
  {
    if background.None? then Quiet
    else
      match Repeat(' ', width)
      case Err(f) => Trace([MoveTo(gx, gy)], Some(f))
      case Ok(spaces) =>
        Trace([MoveTo(gx, gy)]
          + BackgroundRows(gx, gy, spaces, Painter(textColor, background), height), None)
  }

  lemma {:induction false} BackgroundRowsPlaced(gx: int, gy: int, spaces: string, style: Style, n: nat, at: Cell)
    ensures var ps := Placements(BackgroundRows(gx, gy, spaces, style, n), at);
      |ps| == n && forall k :: 0 <= k < n ==> ps[k] == Placed(gx, gy + k, spaces, style)
  {
    if n > 0 {
      var prev := BackgroundRows(gx, gy, spaces, style, n - 1);
      BackgroundRowsPlaced(gx, gy, spaces, style, n - 1, at);
      PlacementsConcat(prev, [MoveTo(gx, gy + (n - 1)), Write(spaces, style)], at);
      MoveThenWrite(gx, gy + (n - 1), spaces, style, After(prev, at));
    }
  }

  /** The corrected fill covers the node's rectangle: one row of `width`
      spaces on each of the rows `gy .. gy+height-1`, top to bottom. */
  lemma BackgroundFillsRectangle(gx: int, gy: int, width: int, height: int,
                                 textColor: Option<Color>, background: Option<Color>, at: Cell)
    requires background.Some? && width >= 0 && height >= 0
    ensures var t := Background(gx, gy, width, height, textColor, background);
      t.fault.None? &&
      Placements(t.events, at) ==
        seq(height, k => Placed(gx, gy + k, seq(width, _ => ' '), Painter(textColor, background)))
  {
    var spaces := seq(width, _ => ' ');
    var rows := BackgroundRows(gx, gy, spaces, Painter(textColor, background), height);
    PlacementsConcat([MoveTo(gx, gy)], rows, at);
    BackgroundRowsPlaced(gx, gy, spaces, Painter(textColor, background), height, (gx, gy));
  }

  // ---------------------------------------------------------------------
  // Border: Node#repaint_border.

  /** The interior rows: for row `h`, the left cell, a jump over the inner
      width, and the right cell. */
  function BorderRows(gx: int, gy: int, ch: char, innerWidth: int, style: Style, n: int): seq<Event>
    decreases n
  {
    if n <= 0 then []
    else
      BorderRows(gx, gy, ch, innerWidth, style, n - 1)
        + [MoveTo(gx, gy + n), Write([ch], style), Forward(innerWidth), Write([ch], style)]
  }

  /** `repaint_border` of a bordered node with global origin (`gx`, `gy`):
      raises unless `borderChar` is one character; otherwise the top row,
      both sides of each of the `height - 2` inner rows, then the bottom
      row, styled with the border colour alone. */
  function Border(gx: int, gy: int, width: int, height: int,
                  borderChar: string, borderColor: Option<Color>): Trace
  {
    if |borderChar| != 1 then Trace([], Some(BorderCharSize))
    else
      var style := Styled(borderColor, None);
      match Repeat(borderChar[0], width)
      case Err(f) => Trace([MoveTo(gx, gy)], Some(f))
      case Ok(line) =>
        Trace([MoveTo(gx, gy), Write(line, style)]
          + BorderRows(gx, gy, borderChar[0], width - 2, style, height - 2)
          + [MoveTo(gx, gy + height - 1), Write(line, style)], None)
  }

  lemma {:induction false} BorderRowsPlaced(gx: int, gy: int, ch: char, innerWidth: int, style: Style, n: nat, at: Cell)
    ensures var ps := Placements(BorderRows(gx, gy, ch, innerWidth, style, n), at);
      |ps| == 2 * n &&
      forall h :: 0 <= h < n ==>
        ps[2 * h] == Placed(gx, gy + h + 1, [ch], style) &&
        ps[2 * h + 1] == Placed(gx + 1 + innerWidth, gy + h + 1, [ch], style)
  {
    if n > 0 {
      var prev := BorderRows(gx, gy, ch, innerWidth, style, n - 1);
      var step := [MoveTo(gx, gy + n), Write([ch], style), Forward(innerWidth), Write([ch], style)];
      BorderRowsPlaced(gx, gy, ch, innerWidth, style, n - 1, at);
      PlacementsConcat(prev, step, at);
      SideCells(gx, gy + n, ch, innerWidth, style, After(prev, at));
    }
  }

  /** A one-character border is the top line, the interior rows drawn from
      the cell just after the top line, and the bottom line. */
  lemma BorderParts(gx: int, gy: int, width: int, height: int,
                    borderChar: string, borderColor: Option<Color>, at: Cell)
    requires |borderChar| == 1 && width >= 1 && height >= 2
    ensures var t := Border(gx, gy, width, height, borderChar, borderColor);
      var line := seq(width, _ => borderChar[0]);
      var style := Styled(borderColor, None);
      t.fault.None? &&
      Placements(t.events, at) ==
        [Placed(gx, gy, line, style)]
        + Placements(BorderRows(gx, gy, borderChar[0], width - 2, style, height - 2), (gx + width, gy))
        + [Placed(gx, gy + height - 1, line, style)]
  {
    var style := Styled(borderColor, None);
    var ch := borderChar[0];
    var line := seq(width, _ => ch);
    var top := [MoveTo(gx, gy), Write(line, style)];
    var rows := BorderRows(gx, gy, ch, width - 2, style, height - 2);
    var bottom := [MoveTo(gx, gy + height - 1), Write(line, style)];
    PlacementsConcat(top, rows, at);
    PlacementsConcat(top + rows, bottom, at);
    assert top[1..] == [Write(line, style)];
    assert Placements(top, at) == [Placed(gx, gy, line, style)];
    assert top[1..][1..] == [] && |line| == width;
    assert After(top[1..], (gx, gy)) == After([], (gx + width, gy));
    assert After(top, at) == (gx + width, gy);
    assert bottom[1..] == [Write(line, style)];
    assert Placements(bottom, After(top + rows, at)) == [Placed(gx, gy + height - 1, line, style)];
  }

  /** A one-character border on a node at least two rows high and one column
      wide draws exactly the frame of its rectangle: `width` characters on
      the top and bottom rows, and on each row between them one character in
      the leftmost and one in the rightmost column. */
  lemma BorderDrawsFrame(gx: int, gy: int, width: int, height: int,
                         borderChar: string, borderColor: Option<Color>, at: Cell)
    requires |borderChar| == 1 && width >= 1 && height >= 2
    ensures var t := Border(gx, gy, width, height, borderChar, borderColor);
      var ps := Placements(t.events, at);
      var line := seq(width, _ => borderChar[0]);
      var style := Styled(borderColor, None);
      t.fault.None? &&
      |ps| == 2 * height - 2 &&
      ps[0] == Placed(gx, gy, line, style) &&
      ps[|ps| - 1] == Placed(gx, gy + height - 1, line, style) &&
      forall h :: 0 < h < height - 1 ==>
        ps[2 * h - 1] == Placed(gx, gy + h, borderChar, style) &&
        ps[2 * h] == Placed(gx + width - 1, gy + h, borderChar, style)
  {
    var style := Styled(borderColor, None);
    var ch := borderChar[0];
    var line := seq(width, _ => ch);
    var ps := Placements(Border(gx, gy, width, height, borderChar, borderColor).events, at);
    var mid := Placements(BorderRows(gx, gy, ch, width - 2, style, height - 2), (gx + width, gy));
    BorderParts(gx, gy, width, height, borderChar, borderColor, at);
    BorderRowsPlaced(gx, gy, ch, width - 2, style, height - 2, (gx + width, gy));
    assert [ch] == borderChar;
    FrameIndices([Placed(gx, gy, line, style)], mid, [Placed(gx, gy + height - 1, line, style)]);
    forall h | 0 < h < height - 1
      ensures ps[2 * h - 1] == Placed(gx, gy + h, borderChar, style)
      ensures ps[2 * h] == Placed(gx + width - 1, gy + h, borderChar, style)
    {
      assert ps[2 * (h - 1) + 1] == mid[2 * (h - 1)];
      assert ps[2 * (h - 1) + 1 + 1] == mid[2 * (h - 1) + 1];
    }
  }

  /** Indexing into a single element, a middle run and a single element. */
  lemma FrameIndices<T>(top: seq<T>, mid: seq<T>, bottom: seq<T>)
    requires |top| == 1 && |bottom| == 1
    ensures var ps := top + mid + bottom;
      |ps| == |mid| + 2 && ps[0] == top[0] && ps[|ps| - 1] == bottom[0] &&
      forall j :: 0 <= j < |mid| ==> ps[j + 1] == mid[j]
  {
  }

  /** The border check comes first: a border character that is not exactly
      one character raises before anything is printed. */
  lemma BorderCharChecked(gx: int, gy: int, width: int, height: int,
                          borderChar: string, borderColor: Option<Color>)
    ensures var t := Border(gx, gy, width, height, borderChar, borderColor);
      (t.fault == Some(BorderCharSize) <==> |borderChar| != 1) &&
      (|borderChar| != 1 ==> t.events == [])
  {
  }
}
