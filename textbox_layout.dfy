/** The text logic of TextBox: wrapping the text into display lines
    (`text_lines`) and painting the lines that the vertical scroll and the
    inner height leave visible (`repaint_self`). */
module TextBoxLayout {
  import opened RubyText
  import opened Draw

  /** `line.scan(/.{1,w}/)`: consecutive pieces of at most `w` characters. */
  function Scan(line: string, w: int): seq<string>
    requires w >= 1
    decreases |line|
  {
    if line == [] then []
    else if |line| <= w then [line]
    else [line[..w]] + Scan(line[w..], w)
  }

  /** The characters of `ls`, in order. */
  function Concat(ls: seq<string>): string
  {
    if ls == [] then [] else ls[0] + Concat(ls[1..])
  }

  lemma {:induction false} ConcatAppend(a: seq<string>, b: seq<string>)
    ensures Concat(a + b) == Concat(a) + Concat(b)
  {
    if a == [] {
      assert a + b == b;
    } else {
      assert (a + b)[0] == a[0] && (a + b)[1..] == a[1..] + b;
      ConcatAppend(a[1..], b);
    }
  }

  /** A wrapped line is cut into pieces of exactly `w` characters except the
      last, which has between 1 and `w`; the pieces put back together are
      the line. */
  lemma {:induction false} ScanPieces(line: string, w: int)
    requires w >= 1
    ensures var ps := Scan(line, w);
      Concat(ps) == line &&
      (line == [] <==> ps == []) &&
      (forall i :: 0 <= i < |ps| - 1 ==> |ps[i]| == w) &&
      (ps != [] ==> 1 <= |ps[|ps| - 1]| <= w)
    decreases |line|
  {
    if |line| > w {
      var ps := Scan(line, w);
      ScanPieces(line[w..], w);
      assert ps[1..] == Scan(line[w..], w);
      assert line == line[..w] + line[w..];
    } else if line != [] {
      assert Scan(line, w) == [line];
    }
  }

  /** The display lines of one source line: kept whole when shorter than
      `w`, otherwise cut by the regex, which cannot be built for `w < 1`. */
  function LinePieces(line: string, w: int): Result<seq<string>>
  {
    if |line| < w then Ok([line])
    else if w < 1 then Err(WrapWidth)
    else Ok(Scan(line, w))
  }

  /** The display lines of the source lines `lines`, in order (the loop of
      `text_lines`, which stops at the first line that raises). */
  function WrapLines(lines: seq<string>, w: int): Result<seq<string>>
    decreases |lines|
  {
    if lines == [] then Ok([])
    else
      match WrapLines(lines[..|lines| - 1], w)
      case Err(f) => Err(f)
      case Ok(done) =>
        match LinePieces(lines[|lines| - 1], w)
        case Err(f) => Err(f)
        case Ok(ps) => Ok(done + ps)
  }

  /** `text_lines`: tabs expanded to two spaces, split at newlines, each
      line wrapped at the inner width `w`. */
  function TextLines(text: string, w: int): Result<seq<string>>
  {
    WrapLines(SplitLines(ExpandTabs(text)), w)
  }

  /** With a positive width, wrapping never fails, no display line is longer
      than `w` or holds a tab or a newline, and the display lines hold the
      characters of the source lines in their order. */
  lemma {:induction false} WrapLinesFit(lines: seq<string>, w: int)
    requires w >= 1
    ensures var r := WrapLines(lines, w);
      r.Ok? &&
      Concat(r.value) == Concat(lines) &&
      forall i :: 0 <= i < |r.value| ==>
        |r.value[i]| <= w &&
        (forall c :: c in r.value[i] ==> exists j :: 0 <= j < |lines| && c in lines[j])
    decreases |lines|
  {
    if lines != [] {
      var init := lines[..|lines| - 1];
      var last := lines[|lines| - 1];
      WrapLinesFit(init, w);
      var done := WrapLines(init, w).value;
      var ps := LinePieces(last, w).value;
      ScanPieces(last, w);
      ConcatAppend(done, ps);
      assert lines == init + [last];
      ConcatAppend(init, [last]);
      assert Concat([last]) == last + Concat([]);
      var r := done + ps;
      forall i | 0 <= i < |r|
        ensures |r[i]| <= w
        ensures forall c :: c in r[i] ==> exists j :: 0 <= j < |lines| && c in lines[j]
      {
        if i >= |done| {
          var k := i - |done|;
          assert r[i] == ps[k];
          if |last| >= w {
            ScanPieceIn(last, w, k);
          }
          forall c | c in r[i] ensures exists j :: 0 <= j < |lines| && c in lines[j] {
            assert c in lines[|lines| - 1];
          }
        } else {
          forall c | c in r[i] ensures exists j :: 0 <= j < |lines| && c in lines[j] {
            var j :| 0 <= j < |init| && c in init[j];
            assert lines[j] == init[j];
          }
        }
      }
    }
  }

  /** Every piece of a wrapped line is a run of that line's characters. */
  lemma {:induction false} ScanPieceIn(line: string, w: int, k: nat)
    requires w >= 1 && k < |Scan(line, w)|
    ensures forall c :: c in Scan(line, w)[k] ==> c in line
    decreases |line|
  {
    if |line| > w && k > 0 {
      ScanPieceIn(line[w..], w, k - 1);
    }
  }

  /** Wrapping fails exactly when the width is below 1 and there is at least
      one source line to wrap. */
  lemma {:induction false} WrapLinesFault(lines: seq<string>, w: int)
    ensures WrapLines(lines, w).Err? <==> w < 1 && lines != []
    ensures WrapLines(lines, w).Err? ==> WrapLines(lines, w).fault == WrapWidth
    decreases |lines|
  {
    if lines != [] {
      WrapLinesFault(lines[..|lines| - 1], w);
    }
  }

  /** One more source line puts its pieces after the display lines so far,
      or raises. */
  lemma WrapLinesStep(lines: seq<string>, i: nat, w: int, done: seq<string>)
    requires i < |lines| && WrapLines(lines[..i], w) == Ok(done)
    ensures WrapLines(lines[..i + 1], w) ==
      match LinePieces(lines[i], w)
      case Err(f) => Err(f)
      case Ok(ps) => Ok(done + ps)
  {
    assert lines[..i + 1][..i] == lines[..i];
  }

  /** Wrapping two runs of source lines is wrapping each, one after the other. */
  lemma {:induction false} WrapLinesAppend(a: seq<string>, b: seq<string>, w: int)
    requires w >= 1
    ensures WrapLines(a + b, w).Ok? && WrapLines(a, w).Ok? && WrapLines(b, w).Ok?
    ensures WrapLines(a + b, w).value == WrapLines(a, w).value + WrapLines(b, w).value
    decreases |b|
  {
    WrapLinesFault(a + b, w);
    WrapLinesFault(a, w);
    WrapLinesFault(b, w);
    if b == [] {
      assert a + b == a;
    } else {
      var b' := b[..|b| - 1];
      assert (a + b)[..|a + b| - 1] == a + b';
      assert (a + b)[|a + b| - 1] == b[|b| - 1];
      WrapLinesAppend(a, b', w);
    }
  }

  /** Source lines all shorter than the width are the display lines as they
      are, one each, in order. */
  lemma {:induction false} WrapShortLines(lines: seq<string>, w: int)
    requires forall i :: 0 <= i < |lines| ==> |lines[i]| < w
    ensures WrapLines(lines, w) == Ok(lines)
    decreases |lines|
  {
    if lines != [] {
      var init := lines[..|lines| - 1];
      WrapShortLines(init, w);
      assert init + [lines[|lines| - 1]] == lines;
    }
  }

  /** A line one to `w` characters longer than `w` wraps into two display
      lines: the first `w` characters, then the rest (inner width 5 wraps
      "abcdefgh" into "abcde" and "fgh"). */
  lemma WrapTwoPieces(a: string, b: string, w: int)
    requires w >= 1 && |a| == w && 1 <= |b| <= w
    requires '\n' !in a + b && '\t' !in a + b
    ensures TextLines(a + b, w) == Ok([a, b])
  {
    var s := a + b;
    FieldsWithoutNewline(s);
    ExpandTabsWithoutTab(s);
    assert SplitLines(ExpandTabs(s)) == [s];
    assert s[..w] == a && s[w..] == b;
    assert Scan(b, w) == [b];
    assert Scan(s, w) == [a] + Scan(b, w);
    assert [a] + [b] == [a, b];
    assert Scan(s, w) == [a, b];
    assert |s| >= w;
    assert LinePieces(s, w) == Ok([a, b]);
    var none: seq<string> := [];
    assert [s][..0] == none;
    assert WrapLines([s][..0], w) == Ok(none);
    assert none + [a, b] == [a, b];
    assert WrapLines([s], w) == Ok([a, b]);
    assert TextLines(s, w) == WrapLines([s], w);
  }

  // ---------------------------------------------------------------------
  // TextBox#repaint_self

  /** `text_lines[scroll_y..]`: `None` where Ruby gives `nil`. */
  function LinesFrom(lines: seq<string>, scrollY: int): Option<seq<string>>
  {
    SliceFrom(lines, scrollY)
  }

  /** How many of `rest` fit in `innerHeight` rows (the loop's `break`). */
  function ShownCount(rest: seq<string>, innerHeight: int): (n: nat)
    ensures n <= |rest| && n <= if innerHeight < 0 then 0 else innerHeight
    ensures innerHeight >= 0 ==> n == |rest| || n == innerHeight
  {
    if innerHeight <= 0 then 0 else if innerHeight < |rest| then innerHeight else |rest|
  }

  /** The first `n` lines of `rest`, line `i` placed at inner row `i`, whose
      global cell is (`ox`, `oy + i`). */
  function LinesAt(rest: seq<string>, ox: int, oy: int, style: Style, n: nat): seq<Event>
    requires n <= |rest|
  {
    if n == 0 then []
    else LinesAt(rest, ox, oy, style, n - 1) + [MoveTo(ox, oy + (n - 1)), Write(rest[n - 1], style)]
  }

  /** `TextBox#repaint_self`: nothing when `scroll_y` is past the line count;
      otherwise the lines from `scroll_y` on, at most `innerHeight` of them,
      from the inner origin (`ox`, `oy`) down. A `scroll_y` that Ruby's
      slice turns into `nil` raises at the iteration. */
  function TextBoxSelf(textLines: Result<seq<string>>, scrollY: int, innerHeight: int,
                       ox: int, oy: int, style: Style): Trace
  {
    match textLines
    case Err(f) => Trace([], Some(f))
    case Ok(lines) =>
      if scrollY > |lines| then Quiet
      else
        match LinesFrom(lines, scrollY)
        case None => Trace([], Some(NilReceiver))
        case Some(rest) => Trace(LinesAt(rest, ox, oy, style, ShownCount(rest, innerHeight)), None)
  }

  lemma {:induction false} LinesAtPlaced(rest: seq<string>, ox: int, oy: int, style: Style, n: nat, at: Cell)
    requires n <= |rest|
    ensures Placements(LinesAt(rest, ox, oy, style, n), at) ==
      seq(n, i requires 0 <= i < n => Placed(ox, oy + i, rest[i], style))
  {
    if n > 0 {
      var prev := LinesAt(rest, ox, oy, style, n - 1);
      LinesAtPlaced(rest, ox, oy, style, n - 1, at);
      PlacementsConcat(prev, [MoveTo(ox, oy + (n - 1)), Write(rest[n - 1], style)], at);
      MoveThenWrite(ox, oy + (n - 1), rest[n - 1], style, After(prev, at));
      assert seq(n, i requires 0 <= i < n => Placed(ox, oy + i, rest[i], style)) ==
        seq(n - 1, i requires 0 <= i < n - 1 => Placed(ox, oy + i, rest[i], style))
          + [Placed(ox, oy + (n - 1), rest[n - 1], style)];
    }
  }

  /** The scrolled window: for `0 <= scroll_y <= |lines|`, line
      `lines[scroll_y + i]` lands on inner row `i`, for every `i` below both
      the inner height and the number of lines left; past the end nothing is
      painted. */
  lemma TextBoxSelfWindow(lines: seq<string>, scrollY: int, innerHeight: int,
                          ox: int, oy: int, style: Style, at: Cell)
    ensures var t := TextBoxSelf(Ok(lines), scrollY, innerHeight, ox, oy, style);
      var n := if innerHeight < 0 then 0 else if innerHeight < |lines| - scrollY then innerHeight else |lines| - scrollY;
      (scrollY > |lines| ==> t == Quiet) &&
      (0 <= scrollY <= |lines| ==>
        t.fault.None? &&
        Placements(t.events, at) ==
          seq(n, i requires 0 <= i < n => Placed(ox, oy + i, lines[scrollY + i], style)))
  {
    if 0 <= scrollY <= |lines| {
      var rest := lines[scrollY..];
      var n := ShownCount(rest, innerHeight);
      LinesAtPlaced(rest, ox, oy, style, n, at);
    }
  }

  /** A negative `scroll_y` counts from the end, as Ruby's slice does: the
      last `-scroll_y` lines, or an exception when there are fewer lines. */
  lemma TextBoxSelfNegativeScroll(lines: seq<string>, scrollY: int, innerHeight: int,
                                  ox: int, oy: int, style: Style)
    requires scrollY < 0
    ensures var t := TextBoxSelf(Ok(lines), scrollY, innerHeight, ox, oy, style);
      (scrollY < -|lines| ==> t == Trace([], Some(NilReceiver))) &&
      (-|lines| <= scrollY ==>
        t == Trace(LinesAt(lines[|lines| + scrollY..], ox, oy, style,
                           ShownCount(lines[|lines| + scrollY..], innerHeight)), None))
  {
  }
}
