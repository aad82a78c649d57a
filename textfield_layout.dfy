/** The text logic of TextField: the single-line form of the text, the
    horizontal scroll window, the caret's place in it, and the painting of
    the window with the caret in inverse video. */
module TextFieldLayout {
  import opened RubyText
  import opened Draw

  /** `text_line`: tabs expanded to two spaces, each newline replaced by a
      space, and one space appended so that the caret can stand after the
      last character. */
  function TextLine(text: string): (r: string)
    ensures |r| == |text| + Count(text, '\t') + 1
    ensures '\n' !in r && '\t' !in r
    ensures r[|r| - 1] == ' '
  {
    ReplaceChar(ExpandTabs(text), '\n', ' ') + " "
  }

  /** Text without tabs or newlines is shown as it is, plus the padding cell. */
  lemma TextLinePlain(text: string)
    requires '\t' !in text && '\n' !in text
    ensures TextLine(text) == text + " "
  {
    ExpandTabsWithoutTab(text);
    assert ReplaceChar(text, '\n', ' ') == text;
  }

  /** `tail_scroll_x`: the least non-negative scroll whose window, `width`
      cells wide and ending at index `scroll + width - 1`, reaches the
      padding cell at the end of the line. */
  function TailScrollX(textLine: string, width: int): (r: nat)
    ensures r + width - 1 >= |textLine|
    ensures r == 0 || r + width - 1 == |textLine|
  {
    if |textLine| - width + 1 > 0 then |textLine| - width + 1 else 0
  }

  /** `displayed_text`: `text_line[scroll_x..scroll_x + width - 1]`, with
      Ruby's slice rules (`None` is `nil`). */
  function DisplayedText(textLine: string, scrollX: int, width: int): (r: Option<string>)
    ensures 0 <= scrollX <= |textLine| && width >= 1 ==>
      r == Some(textLine[scrollX..if scrollX + width <= |textLine| then scrollX + width else |textLine|])
    ensures scrollX > |textLine| ==> r.None?
  {
    Slice(textLine, scrollX, scrollX + width - 1, false)
  }

  /** For a scroll inside the line and a positive width, the window is the
      part of the line from `scroll_x` on, cut to at most `width` cells. */
  lemma DisplayedWindow(textLine: string, scrollX: int, width: int)
    requires 0 <= scrollX <= |textLine| && width >= 1
    ensures var r := DisplayedText(textLine, scrollX, width);
      r.Some? && |r.value| <= width &&
      (forall i :: 0 <= i < |r.value| ==> r.value[i] == textLine[scrollX + i]) &&
      (|r.value| == width || scrollX + |r.value| == |textLine|)
  {
  }

  /** Ruby counts a negative end index from the end, so a field of width 0
      scrolled to 0 shows its whole line rather than nothing. */
  lemma DisplayedZeroWidth(textLine: string)
    requires textLine != []
    ensures DisplayedText(textLine, 0, 0) == Some(textLine)
  {
    assert textLine[0..|textLine|] == textLine;
  }

  /** `cursor_in_display?`: the caret lies in `scroll_x .. scroll_x + width`,
      both ends included. */
  predicate CursorInDisplay(scrollX: int, width: int, cursorPos: int)
  {
    scrollX <= cursorPos <= scrollX + width
  }

  /** `cursor_pos_in_display`: the caret's cell in the window, `nil` when it
      is outside. */
  function CursorPosInDisplay(scrollX: int, width: int, cursorPos: int): (r: Option<int>)
    ensures r.Some? <==> CursorInDisplay(scrollX, width, cursorPos)
    ensures r.Some? ==> 0 <= r.value <= width && scrollX + r.value == cursorPos
  {
    if CursorInDisplay(scrollX, width, cursorPos) then Some(cursorPos - scrollX) else None
  }

  /** The guard of `cursor_pos=`: a position within the text line. */
  predicate CursorAccepted(textLine: string, pos: int)
  {
    !(pos < 0 || pos > |textLine| - 1)
  }

  /** The three pieces written around the caret at window cell `k`: the text
      before it, the caret cell, and the text after it (`nil` pieces print
      as nothing). */
  function CaretPieces(out: string, k: int): (string, string, string)
    requires k >= 0
  {
    (OrEmpty(Slice(out, 0, k, true)), OrEmpty(CharAt(out, k)), OrEmpty(SliceFrom(out, k + 1)))
  }

  /** Wherever the caret stands in the window, the three pieces put together
      are the window's text, and the caret piece is the character under the
      caret or nothing when the caret is past the text. */
  lemma CaretPiecesSplit(out: string, k: int)
    requires k >= 0
    ensures var (before, caret, after) := CaretPieces(out, k);
      before + caret + after == out &&
      |before| == (if k < |out| then k else |out|) &&
      (k < |out| ==> caret == [out[k]]) &&
      (k >= |out| ==> caret == [] && after == [])
  {
    var (before, caret, after) := CaretPieces(out, k);
    if k < |out| {
      assert before == out[..k];
      assert after == out[k + 1..];
      assert out == out[..k] + [out[k]] + out[k + 1..];
    } else {
      assert before == out;
    }
  }

  /** `TextField#repaint_self`, the field drawn from its inner origin
      (`ox`, `oy`): nothing when the scroll is past the line; otherwise the
      window, split around the caret when the caret is in it (the field is
      always focused). A window that Ruby's slice makes `nil` raises when
      the caret code indexes it. */
  function FieldSelf(textLine: string, scrollX: int, width: int, cursorPos: int,
                     ox: int, oy: int, style: Style): Trace
  {
    if scrollX > |textLine| then Quiet
    else
      var out := DisplayedText(textLine, scrollX, width);
      match CursorPosInDisplay(scrollX, width, cursorPos)
      case None => Trace([MoveTo(ox, oy), Write(OrEmpty(out), style)], None)
      case Some(k) =>
        match out
        case None => Trace([MoveTo(ox, oy)], Some(NilReceiver))
        case Some(o) =>
          var (before, caret, after) := CaretPieces(o, k);
          Trace([MoveTo(ox, oy), Write(before, style), Write(caret, Inverse), Write(after, style)], None)
  }

  /** With the scroll inside the line and the caret in the window, the field
      shows the window on one row: the text before the caret, the caret cell
      in inverse video at column `ox + cursor_pos - scroll_x`, then the rest,
      together exactly the displayed text. A caret past the text draws no
      caret cell. */
  lemma FieldSelfCaret(textLine: string, scrollX: int, width: int, cursorPos: int,
                       ox: int, oy: int, style: Style, at: Cell)
    requires 0 <= scrollX <= |textLine| && width >= 1
    requires CursorInDisplay(scrollX, width, cursorPos)
    ensures var t := FieldSelf(textLine, scrollX, width, cursorPos, ox, oy, style);
      var ps := Placements(t.events, at);
      var out := DisplayedText(textLine, scrollX, width).value;
      t.fault.None? && |ps| == 3 &&
      ps[0].text + ps[1].text + ps[2].text == out &&
      ps[0] == Placed(ox, oy, ps[0].text, style) &&
      ps[1] == Placed(ox + |ps[0].text|, oy, ps[1].text, Inverse) &&
      ps[2] == Placed(ox + |ps[0].text| + |ps[1].text|, oy, ps[2].text, style) &&
      |ps[0].text| == (if cursorPos - scrollX < |out| then cursorPos - scrollX else |out|) &&
      (cursorPos - scrollX < |out| ==> ps[1].text == [textLine[cursorPos]]) &&
      (cursorPos - scrollX >= |out| ==> ps[1].text == [] && ps[2].text == [])
  {
    var out := DisplayedText(textLine, scrollX, width).value;
    var k := cursorPos - scrollX;
    var (before, caret, after) := CaretPieces(out, k);
    FieldSelfCaretEvents(textLine, scrollX, width, cursorPos, ox, oy, style);
    var evs := [MoveTo(ox, oy), Write(before, style), Write(caret, Inverse), Write(after, style)];
    assert FieldSelf(textLine, scrollX, width, cursorPos, ox, oy, style) == Trace(evs, None);
    WritesOnOneRow(ox, oy, before, style, caret, Inverse, after, style, at);
    var ps := Placements(evs, at);
    assert ps[0].text == before && ps[1].text == caret && ps[2].text == after;
    CaretPiecesSplit(out, k);
    if k < |out| {
      DisplayedWindow(textLine, scrollX, width);
      assert caret == [out[k]];
      assert out[k] == textLine[scrollX + k];
    }
  }

  /** With the caret in the window the field is one move and three writes. */
  lemma FieldSelfCaretEvents(textLine: string, scrollX: int, width: int, cursorPos: int,
                             ox: int, oy: int, style: Style)
    requires 0 <= scrollX <= |textLine| && width >= 1
    requires CursorInDisplay(scrollX, width, cursorPos)
    ensures DisplayedText(textLine, scrollX, width).Some?
    ensures var (before, caret, after) := CaretPieces(DisplayedText(textLine, scrollX, width).value, cursorPos - scrollX);
      FieldSelf(textLine, scrollX, width, cursorPos, ox, oy, style) ==
        Trace([MoveTo(ox, oy), Write(before, style), Write(caret, Inverse), Write(after, style)], None)
  {
  }

  /** Three writes after a move land side by side on the move's row. */
  lemma WritesOnOneRow(ox: int, oy: int, a: string, sa: Style, b: string, sb: Style,
                       c: string, sc: Style, at: Cell)
    ensures Placements([MoveTo(ox, oy), Write(a, sa), Write(b, sb), Write(c, sc)], at) ==
      [Placed(ox, oy, a, sa), Placed(ox + |a|, oy, b, sb), Placed(ox + |a| + |b|, oy, c, sc)]
  {
    var evs := [MoveTo(ox, oy), Write(a, sa), Write(b, sb), Write(c, sc)];
    var e1 := [Write(a, sa), Write(b, sb), Write(c, sc)];
    var e2 := [Write(b, sb), Write(c, sc)];
    var e3 := [Write(c, sc)];
    assert evs[1..] == e1 && e1[1..] == e2 && e2[1..] == e3 && e3[1..] == [];
    assert Placements(e3, (ox + |a| + |b|, oy)) == [Placed(ox + |a| + |b|, oy, c, sc)];
    assert Placements(e2, (ox + |a|, oy)) == [Placed(ox + |a|, oy, b, sb), Placed(ox + |a| + |b|, oy, c, sc)];
  }

  /** With the caret outside the window the displayed text is written whole,
      in the field's style. */
  lemma FieldSelfPlain(textLine: string, scrollX: int, width: int, cursorPos: int,
                       ox: int, oy: int, style: Style, at: Cell)
    requires 0 <= scrollX <= |textLine| && width >= 1
    requires !CursorInDisplay(scrollX, width, cursorPos)
    ensures var t := FieldSelf(textLine, scrollX, width, cursorPos, ox, oy, style);
      t.fault.None? &&
      Placements(t.events, at) == [Placed(ox, oy, DisplayedText(textLine, scrollX, width).value, style)]
  {
    var t := FieldSelf(textLine, scrollX, width, cursorPos, ox, oy, style);
    assert t.events[1..][1..] == [];
  }

  /** A scroll past the end of the line paints nothing. */
  lemma FieldSelfPastEnd(textLine: string, scrollX: int, width: int, cursorPos: int,
                         ox: int, oy: int, style: Style)
    requires scrollX > |textLine|
    ensures FieldSelf(textLine, scrollX, width, cursorPos, ox, oy, style) == Quiet
  {
  }

  /** After `text=` the scroll is the tail scroll. For a field at least two
      cells wide the window then ends with the line's last cell (the
      padding space), so the end of the text is in view; once the line is
      too long for the field, the window holds `width - 1` characters, the
      last window cell lying past the line's end. */
  lemma TailScrollShowsEnd(textLine: string, width: int)
    requires width >= 2 && textLine != []
    ensures var sx := TailScrollX(textLine, width);
      var out := DisplayedText(textLine, sx, width);
      sx < |textLine| && out.Some? && out.value != [] &&
      sx + |out.value| == |textLine| &&
      out.value[|out.value| - 1] == textLine[|textLine| - 1] &&
      (sx > 0 ==> |out.value| == width - 1)
  {
    var sx := TailScrollX(textLine, width);
    DisplayedWindow(textLine, sx, width);
  }

  /** A field one cell wide shows nothing after `text=`: its tail scroll puts
      the window just past the line's end. */
  lemma TailScrollOneCell(textLine: string)
    ensures DisplayedText(textLine, TailScrollX(textLine, 1), 1) == Some([])
  {
  }
}
