# TermPaint widget tree in Dafny

TermPaint draws a tree of rectangular widgets on a terminal. A `Node` has a
position, a size and an optional one-cell border. It has colours and an
ordered list of children. A relative child is placed from its parent's
position. `repaint` draws a node's background, its border and its own
content, then repaints each child in insertion order. Invisible nodes and
their subtrees are skipped. A `TextBox` shows multi-line text. Tabs are
expanded, lines are hard-wrapped at the inner width, and the box is
scrolled vertically. A `TextField` shows one line of text in a
horizontally scrolled window, with a caret drawn in inverse video.
`termpaint.rb` holds an earlier, single-file version of `Node` and
`TextBox`.

The model has six modules:

- `RubyText` (ruby_text.dfy) gives the Ruby primitives the widgets rely on,
  with Ruby's edge cases:
  - `gsub` of tabs;
  - `split("\n")`, which drops trailing empty fields;
  - range slicing, where negative indices count from the end and a start
    past the end is `nil`;
  - `str * n`, which raises for negative `n`.
- `Draw` (draw.dfy) is the terminal output. Cursor moves and styled writes
  become a list of events, and `Trace` adds the exception, if any, that
  ended the output. It also has the background fill and the border, with
  `Placements`, the cells where each write lands.
- `TextBoxLayout` (textbox_layout.dfy) covers `text_lines` and the TextBox
  `repaint_self`.
- `TextFieldLayout` (textfield_layout.dfy) covers `text_line`,
  `tail_scroll_x`, `displayed_text`, the caret window and the TextField
  `repaint_self`.
- `TermPaint` (node.dfy) has the `Node` class, with fields updated in place.
  - The TextBox and TextField state lives on the same object, and a `kind`
    field selects the subclass's behaviour.
  - The ghost footprint `Repr` and `Valid()` state that the children form a
    finite tree whose parent links point back.
  - Painting is specified by `Painting()`. The methods (`Repaint`,
    `RepaintChildren`, `PaintBackground`, `PaintBorder`, `TextLines`,
    `PaintTextBox`, `PaintLines`) are proved equal to it, or to the part of
    it they draw.
  - `Preorder()` and `VisiblePreorder()` are reference definitions of the
    traversal orders.
- `Snapshot` (snapshot.dfy) is the earlier version. Lemmas compare it with
  the later one, up to whole trees: `Snapshot.PaintingVersions` states when
  both versions' `repaint` print the same output.

Exceptions become a `Fault` value, and all Ruby exceptions are treated
alike. For example, `throw` without a `catch` raises, so `Node#focused?`
gives `NotImplemented` and an oversized border character gives
`BorderCharSize`.

The code and its design differ in some places. The model follows the code:

- `find_focused` never searches the children. `focused?` is either true
  (TextField) or raises.
- TextField `text=` moves the scroll to the tail of the new line but leaves
  `cursor_pos` alone. The caret can end up past the new line, where
  `cursor_pos=` would have refused it (`TermPaint.Node.SetFieldText`).
- A TextField of width 0 at scroll 0 shows its whole line, because Ruby reads the end
  index `-1` from the end. A field of width 1 shows nothing after `text=`.

There is one exception. The background fill prints each row and only then
moves to the next, so the top row is painted twice and the bottom row never
(see "## Findings"). `Draw.BackgroundAsWritten` and
`TermPaint.Node.PaintBackgroundAsWritten` model the fill as written. The
tree-level `repaint` (`Painting()`, in both versions) uses the corrected
fill `Draw.Background`.

## Model

| member | source | states |
|---|---|---|
| RubyText.ExpandTabs | termpaint/textbox.rb:23 | Each tab becomes two spaces. The length grows by exactly one per tab. No tab remains. Only spaces are added. |
| RubyText.ExpandTabsConcat | termpaint/textbox.rb:23 | Tab expansion works character by character: expanding a concatenation is concatenating the expansions. |
| RubyText.ReplaceChar | termpaint/textfield.rb:42 | Each newline is replaced by a space, position by position. The length is kept and every other character is unchanged. |
| RubyText.Repeat | termpaint/node.rb:103 | `c * n` raises exactly when `n` is negative. Otherwise it is `n` copies of `c`. |
| RubyText.Fields | termpaint/textbox.rb:23 | Cutting at newlines gives one more field than there are newlines, and no field contains a newline. |
| RubyText.JoinFields | termpaint/textbox.rb:23 | The fields, joined with newlines, give back the original text. |
| RubyText.SplitLines | termpaint/textbox.rb:23 | `split("\n")` yields lines without newlines whose last line is never empty (Ruby drops trailing empty fields). |
| RubyText.DropTrailingEmpty | termpaint/textbox.rb:23 | The trimmed lines are a prefix of the fields whose last line is not empty, and every field dropped is empty. |
| RubyText.SplitLinesPrefix | termpaint/textbox.rb:23 | Splitting loses only the trailing newlines: the lines joined back, followed by the dropped newlines, are the text. |
| RubyText.RangeSpan | termpaint/textfield.rb:45-47 | A range is read as Ruby reads it against a receiver: `nil` exactly when the start is before `-len` or past `len`. A non-negative start is kept, and the end is cut back to the receiver. |
| RubyText.Slice | termpaint/textfield.rb:45-47 | `s[b..e]` is `nil` exactly for a start outside `-len..len`. For in-range bounds it is the subsequence from `b` to `e`, clipped at the end. |
| RubyText.SliceFrom | termpaint/textbox.rb:42 | `s[b..]` is the suffix from `b`, counted from the end when negative, and `nil` outside `-len..len`. |
| RubyText.CharAt | termpaint/textfield.rb:70 | `s[i]` is the one-character string at `i`, and `nil` at or past the end. |
| Draw.ThenAssociative | termpaint/node.rb:130-140 | Sequencing output with an abort at the first exception is associative, so nested repaints compose. |
| Draw.PlacementsConcat | termpaint/node.rb:130-140 | Printing two event lists one after the other puts the second one's text where the first one left the cursor. |
| Draw.BackgroundAsWrittenPlacements | termpaint/node.rb:98-108 | As written, the background's writes land on rows `gy, gy, gy+1, …, gy+height-2`. |
| Draw.BackgroundAsWrittenSkipsBottomRow | termpaint/node.rb:104-107 | As written, with two or more rows, no write reaches the bottom row of the rectangle. |
| Draw.BackgroundAsWritten | termpaint/node.rb:98-108 | Definition of `repaint_background` as written: nothing without a background colour, the raise of `' ' * width` after the first move, then for each row a write followed by a move. Its placements are the contract of Draw.BackgroundAsWrittenPlacements. |
| Draw.BackgroundFillsRectangle | termpaint/node.rb:98-108 | The corrected fill writes `width` spaces at column `gx` of each row `gy … gy+height-1` in turn, in the text and background colours. |
| Draw.Background | termpaint/node.rb:98-108 | Definition of the corrected fill, each row a move followed by a write. What it draws is the contract of Draw.BackgroundFillsRectangle. |
| Draw.BorderParts | termpaint/node.rb:110-128 | A one-character border is the top line, the interior rows drawn after it, and the bottom line. |
| Draw.Border | termpaint/node.rb:110-128 | Definition of `repaint_border` for a bordered node: the size check on the border character, the top line, the two sides of each inner row, the bottom line. What it draws is the contract of Draw.BorderParts and Draw.BorderDrawsFrame. |
| Draw.BorderDrawsFrame | termpaint/node.rb:110-128 | A one-character border draws exactly the frame: `width` characters on the top and bottom rows, and one character in the leftmost and one in the rightmost column of each row between them. |
| Draw.BorderCharChecked | termpaint/node.rb:113 | The border raises, before any output, exactly when the border character is not one character long. |
| TextBoxLayout.ScanPieces | termpaint/textbox.rb:30-32 | Scanning `/.{1,w}/` cuts a line into pieces that concatenate back to it. Every piece but the last has exactly `w` characters, and the last has 1 to `w`. |
| TextBoxLayout.Scan | termpaint/textbox.rb:30-32 | Definition of `scan(/.{1,w}/)` for `w >= 1`: consecutive pieces of `w` characters and a shorter last one. Its properties are the contract of TextBoxLayout.ScanPieces. |
| TextBoxLayout.LinePieces | termpaint/textbox.rb:26-32 | Definition of one iteration of `text_lines`: a line shorter than the width is kept whole, otherwise it is scanned, and the regex raises for a width below 1. Its properties are in TextBoxLayout.WrapLinesFit and TextBoxLayout.WrapShortLines. |
| TextBoxLayout.WrapLines | termpaint/textbox.rb:24-34 | Definition of the loop of `text_lines`, stopping at the first line that raises. Its properties are the contracts of TextBoxLayout.WrapLinesFit, TextBoxLayout.WrapLinesFault and TextBoxLayout.WrapLinesAppend. |
| TextBoxLayout.TextLines | termpaint/textbox.rb:22-35 | Definition of `text_lines`: tabs expanded, split at newlines, each line wrapped at the inner width. The loop method TermPaint.Node.TextLines is proved equal to it. |
| TextBoxLayout.WrapLinesFit | termpaint/textbox.rb:22-35 | With a positive inner width, wrapping succeeds. Every display line is at most `w` long, and the display lines concatenate to the source lines, in order. |
| TextBoxLayout.WrapLinesFault | termpaint/textbox.rb:30 | Wrapping raises exactly when the inner width is below 1 and there is at least one line. |
| TextBoxLayout.WrapLinesAppend | termpaint/textbox.rb:24-34 | The display lines of two runs of source lines are those of the first run, then those of the second. Source order is kept. |
| TextBoxLayout.WrapShortLines | termpaint/textbox.rb:26-29 | Source lines shorter than the inner width are kept whole, one display line each. |
| TextBoxLayout.WrapTwoPieces | termpaint/textbox.rb:22-35 | A line of `w+1` to `2w` characters without tabs or newlines wraps into its first `w` characters and the rest (width 5 turns "abcdefgh" into "abcde", "fgh"). |
| TextBoxLayout.ShownCount | termpaint/textbox.rb:42-43 | The number of lines painted is the number available, capped at the inner height (never negative). |
| TextBoxLayout.TextBoxSelfWindow | termpaint/textbox.rb:37-48 | Nothing is painted when `scroll_y` is past the line count. Otherwise display line `scroll_y + i` is written at inner row `i` for each `i < min(inner_height, len - scroll_y)`. |
| TextBoxLayout.TextBoxSelfNegativeScroll | termpaint/textbox.rb:39-42 | A negative `scroll_y` counts from the end of the lines. It raises on `nil` when it reaches before the first line. |
| TextBoxLayout.LinesAtPlaced | termpaint/textbox.rb:42-47 | The `n` lines painted land one per row: line `i` is written at the inner column 0 of inner row `i`, in the text style. |
| TextBoxLayout.TextBoxSelf | termpaint/textbox.rb:37-48 | Definition of the TextBox `repaint_self` from the inner origin. What it draws is the contract of TextBoxLayout.TextBoxSelfWindow and TextBoxLayout.TextBoxSelfNegativeScroll. |
| TextFieldLayout.TextLine | termpaint/textfield.rb:41-43 | `text_line` has no newline or tab and ends in a space. Its length is the text's length plus the number of tabs plus one. |
| TextFieldLayout.TextLinePlain | termpaint/textfield.rb:41-43 | Text without tabs or newlines is shown as it is, plus the padding space. |
| TextFieldLayout.TailScrollX | termpaint/textfield.rb:37-39 | The tail scroll is non-negative. Its window reaches the end of the line, and it is the least such scroll (0, or exactly where the window ends at the line's end). |
| TextFieldLayout.DisplayedText | termpaint/textfield.rb:45-47 | The window is the part of the line from `scroll_x`, at most `width` long. It is `nil` when the scroll is past the line. |
| TextFieldLayout.DisplayedWindow | termpaint/textfield.rb:45-47 | Each window cell is the line's character at `scroll_x` plus its index. The window is `width` long, or ends at the line's end. |
| TextFieldLayout.DisplayedZeroWidth | termpaint/textfield.rb:45-47 | With width 0 the end index is -1, which Ruby counts from the end, so the whole line is shown. |
| TextFieldLayout.CursorPosInDisplay | termpaint/textfield.rb:49-57 | The caret's window cell exists exactly when `scroll_x <= cursor_pos <= scroll_x + width`. It then lies in `0..width` and adds up with `scroll_x` to `cursor_pos`. |
| TextFieldLayout.CursorInDisplay | termpaint/textfield.rb:49-51 | Definition of `cursor_in_display?`: `scroll_x <= cursor_pos <= scroll_x + width`. TextFieldLayout.CursorPosInDisplay is Some exactly when it holds. |
| TextFieldLayout.CursorAccepted | termpaint/textfield.rb:31 | Definition of the guard of `cursor_pos=`: a position from 0 to the last index of `text_line`. TermPaint.Node.SetCursorPos stores exactly the positions it accepts. |
| TextFieldLayout.CaretPiecesSplit | termpaint/textfield.rb:69-71 | The text before the caret, the caret cell and the text after it concatenate to the window. The caret cell is the character under the caret, or nothing past the text. |
| TextFieldLayout.CaretPieces | termpaint/textfield.rb:69-71 | Definition of the three pieces printed around the caret, with `nil` slices printing as nothing. Their properties are the contract of TextFieldLayout.CaretPiecesSplit. |
| TextFieldLayout.FieldSelfCaret | termpaint/textfield.rb:59-75 | With the caret in the window, the field writes three pieces side by side on its inner row, together exactly the displayed text. The text before the caret has `cursor_pos - scroll_x` characters (or the whole window when the caret is past it), so the caret piece, in inverse video, lands at column `ox + cursor_pos - scroll_x`. It is the character under the caret, or nothing past the text, where the third piece is empty too. |
| TextFieldLayout.FieldSelf | termpaint/textfield.rb:59-75 | Definition of the TextField `repaint_self` from the inner origin. What it draws is the contract of TextFieldLayout.FieldSelfCaret, TextFieldLayout.FieldSelfPlain and TextFieldLayout.FieldSelfPastEnd. |
| TextFieldLayout.FieldSelfPlain | termpaint/textfield.rb:72-74 | With the caret outside the window, the displayed text is written whole at the inner origin in the field's style. |
| TextFieldLayout.FieldSelfPastEnd | termpaint/textfield.rb:61 | A scroll past the end of the line paints nothing. |
| TextFieldLayout.TailScrollShowsEnd | termpaint/textfield.rb:19-23 | After `text=` on a field at least two wide, the window ends with the line's last cell. Once the line overflows, the window shows `width - 1` characters. |
| TextFieldLayout.TailScrollOneCell | termpaint/textfield.rb:37-39 | A field one cell wide shows an empty window after `text=`. |
| TermPaint.Node.constructor | termpaint/node.rb:9-24 | A new node holds the given geometry and colours. It is visible, bordered unless told otherwise, relative by default, has no parent or children, and is a valid one-node tree. |
| TermPaint.Node.TextBox | termpaint/textbox.rb:6-10 | A new TextBox is such a node with empty text and `scroll_y == 0`. |
| TermPaint.Node.TextField | termpaint/textfield.rb:6-13 | A new TextField is one row high and unbordered whatever is passed, with empty text and caret and scroll at 0. |
| TermPaint.Node.BorderQ | termpaint/node.rb:71-73 | Definition of `border?`. TermPaint.Node.InnerRectangleInset states that the border is 1 exactly when it holds. |
| TermPaint.Node.GlobalX | termpaint/node.rb:26-34 | Definition of `global_x`. Its properties are the contracts of TermPaint.Node.GlobalOffset, TermPaint.Node.RelativeChildOfRoot and TermPaint.Node.RelativeChildOneLevel. |
| TermPaint.Node.GlobalY | termpaint/node.rb:36-44 | Definition of `global_y`, the same rule on the other axis. Its properties are the contracts of the same three lemmas. |
| TermPaint.Node.InnerWidth | termpaint/node.rb:46-48 | Definition of `inner_width`. TermPaint.Node.InnerRectangleInset states it is `width - 2*border`. |
| TermPaint.Node.InnerHeight | termpaint/node.rb:50-52 | Definition of `inner_height`. TermPaint.Node.InnerRectangleInset states it is `height - 2*border`. |
| TermPaint.Node.InnerToGlobalX | termpaint/node.rb:54-56 | Definition of `inner_to_global_x`. TermPaint.Node.InnerRectangleInset states that inner column 0 lies `border` cells in from the node's origin. |
| TermPaint.Node.InnerToGlobalY | termpaint/node.rb:58-60 | Definition of `inner_to_global_y`, the same rule on the other axis. |
| TermPaint.Node.CursorToInner | termpaint/node.rb:62-64 | Definition of `cursor_to_inner`: a move to the global cell of an inner cell. TermPaint.Node.PaintLines writes each display line after it. |
| TermPaint.Node.GlobalOffset | termpaint/node.rb:26-44 | The offset argument of `global_x`/`global_y` only shifts the result. |
| TermPaint.Node.InnerRectangleInset | termpaint/node.rb:46-60 | The border is 0 or 1, and 1 exactly when `border?` holds. The inner rectangle is the node's rectangle inset by the border on every side: inner sizes are `width - 2*border` and `height - 2*border`. |
| TermPaint.Node.RelativeChildOfRoot | termpaint/node.rb:26-44 | A relative child of a root node has its origin at the inner cell (`x`, `y`) of its parent. |
| TermPaint.Node.RelativeChildOneLevel | termpaint/node.rb:26-44 | Offsets compose one level only: a relative child lands short of its parent's inner cell by whatever the parent's own placement added. |
| TermPaint.Node.SetBorder | termpaint/node.rb:75-77 | `border=` stores 1 for a truthy value and 0 otherwise, so `border?` then equals the value. |
| TermPaint.Node.SetPositionAsWritten | termpaint/node.rb:66-69 | As written, `position=` raises for every value, since `includes?` is undefined. |
| TermPaint.Node.SetPosition | termpaint/node.rb:66-69 | As intended, `position=` stores relative or absolute. It raises for any other value and leaves the position unchanged. |
| TermPaint.Node.AppendChild | termpaint/node.rb:165-168 | The child's parent becomes this node. The children are the earlier children plus the child at the end, and the tree stays valid. |
| TermPaint.Node.MoveTo | termpaint/node.rb:171-174 | Only `x` and `y` change, to the given values. |
| TermPaint.Node.ResizeTo | termpaint/node.rb:176-179 | Only `width` and `height` change, to the given values. |
| TermPaint.Node.SetChanged | termpaint/node.rb:155-157 | `changed(s)` sets only this node's flag. Setting it makes `changed?` hold. |
| TermPaint.Node.FindById | termpaint/node.rb:181-189 | A non-nil result is a node of the subtree with the id asked for. |
| TermPaint.Node.FindByIdFirstInPreorder | termpaint/node.rb:181-189 | `find_by_id` returns the first node of the subtree in pre-order (self, then children in insertion order) with the id, and `nil` when none has it. |
| TermPaint.Node.FindInChildren | termpaint/node.rb:184-188 | A non-nil answer from the loop over the children is a node of the subtree with the id asked for. TermPaint.Node.FindInChildrenPreorder places it in pre-order. |
| TermPaint.Node.ChangedQAnyInSubtree | termpaint/node.rb:144-153 | `changed?` holds exactly when some node of the subtree has its own flag set. |
| TermPaint.Node.ChangedQ | termpaint/node.rb:144-153 | Definition of `changed?`. Its meaning is the contract of TermPaint.Node.ChangedQAnyInSubtree. |
| TermPaint.Node.Focused | termpaint/node.rb:87-89 | `focused?` answers true exactly for a TextField (termpaint/textfield.rb:15-17). For any other node it raises. |
| TermPaint.Node.FindFocused | termpaint/node.rb:191-199 | `find_focused` returns the receiver when it is a TextField and raises for any other node. The children are never reached. |
| TermPaint.Node.PaintingIsPreorder | termpaint/node.rb:130-140 | `repaint` paints background, border and own content of every node reached through visible nodes, in pre-order, stopping at the first exception. An invisible node paints nothing, children included. |
| TermPaint.Node.TextStyle | termpaint/node.rb:91-96 | Definition of `create_painter`: the text colour over the background colour. |
| TermPaint.Node.BackgroundPaint | termpaint/node.rb:98-108 | Definition of the node's background paint, the corrected fill at its global origin. The code's own fill is TermPaint.Node.PaintBackgroundAsWritten. |
| TermPaint.Node.BorderPaint | termpaint/node.rb:110-128 | Definition of the node's border paint: nothing unless `border?`, otherwise Draw.Border at its global origin. |
| TermPaint.Node.SelfPaint | termpaint/node.rb:142 | Definition of `repaint_self` by kind, which TermPaint.Node.PaintSelf is proved equal to. |
| TermPaint.Node.OwnPaint | termpaint/node.rb:133-137 | Definition of the locked part of `repaint`, which TermPaint.Node.PaintOwn is proved equal to. |
| TermPaint.Node.Painting | termpaint/node.rb:130-140 | Definition of `repaint`. Its meaning is the contract of TermPaint.Node.PaintingIsPreorder. |
| TermPaint.Node.PaintBackground | termpaint/node.rb:98-108 | The row loop emits the corrected background fill at the node's global origin. |
| TermPaint.Node.PaintBackgroundAsWritten | termpaint/node.rb:98-108 | The rows loop as the code writes it, a write and then a move for each row, emits exactly Draw.BackgroundAsWritten at the node's global origin. |
| TermPaint.Node.PaintBorder | termpaint/node.rb:110-128 | The row loop emits the border frame, or nothing when unbordered. |
| TermPaint.Node.TextLines | termpaint/textbox.rb:22-35 | The accumulating loop gives the wrapped display lines of the text at the inner width, or the wrapping error. |
| TermPaint.Node.PaintTextBox | termpaint/textbox.rb:37-48 | The loop that breaks at `inner_height` writes the scrolled window of display lines from the inner origin. |
| TermPaint.Node.PaintLines | termpaint/textbox.rb:42-47 | The `each_with_index` loop that breaks at `inner_height` writes line `idx` from inner row `idx`, for the first `min(count, inner_height)` lines, and raises nothing. |
| TermPaint.Node.PaintSelf | termpaint/node.rb:142 | Each kind paints its own content: nothing for a plain node, the text window for a TextBox, the field for a TextField. |
| TermPaint.Node.PaintOwn | termpaint/node.rb:133-137 | Background, then border, then own content, stopping at the first exception. |
| TermPaint.Node.Repaint | termpaint/node.rb:130-140 | The recursive walk emits exactly `Painting()`, which is the pre-order paint of the visible subtree. |
| TermPaint.Node.RepaintChildren | termpaint/node.rb:159-163 | The children are repainted in insertion order. The first exception stops the loop, and later children are not painted. |
| TermPaint.Node.SetBoxText | termpaint/textbox.rb:12-15 | `text=` stores the text exactly and returns the repaint of the box. |
| TermPaint.Node.SetScrollY | termpaint/textbox.rb:17-20 | `scroll_y=` stores the value unchecked and repaints. |
| TermPaint.Node.SetFieldText | termpaint/textfield.rb:19-23 | `text=` stores the text, sets the scroll to the tail scroll of the new line, keeps the caret, and repaints. |
| TermPaint.Node.SetScrollX | termpaint/textfield.rb:25-28 | `scroll_x=` stores the value unchecked and repaints. |
| TermPaint.Node.TextLine | termpaint/textfield.rb:41-43 | Definition of the field's `text_line`, whose properties are the contract of TextFieldLayout.TextLine. |
| TermPaint.Node.SetCursorPos | termpaint/textfield.rb:30-35 | A position below 0 or past the last index of `text_line` leaves the caret and does not repaint. Any other position is stored and the field repainted. |
| TermPaint.FirstWithIdAppend | termpaint/node.rb:184-187 | Searching a concatenation finds the first part's match if there is one, otherwise the second part's. |
| TermPaint.PaintAllAppend | termpaint/node.rb:159-163 | Painting two runs of nodes in order is painting the first run, then the second. |
| Snapshot.Node.constructor | termpaint.rb:12-27 | A new node holds the given geometry and colours and is a valid one-node tree. |
| Snapshot.Node.TextBox | termpaint.rb:197-201 | A new TextBox has empty text and `scroll_y == 0`. |
| Snapshot.Node.CursorToInnerIsLocal | termpaint.rb:65-67 | `cursor_to_inner` agrees with `inner_to_global_*` exactly when the node's global origin is its local one (no parent, not relative, or a parent at the origin). |
| Snapshot.Node.GlobalX | termpaint.rb:29-37 | Definition of the earlier `global_x`, without the parent's border. Snapshot.GlobalOriginVersions compares it with the later one. |
| Snapshot.Node.GlobalY | termpaint.rb:39-47 | Definition of the earlier `global_y`, the same rule on the other axis. |
| Snapshot.Node.CursorToInner | termpaint.rb:65-67 | Definition of the earlier `cursor_to_inner`, from the node's local `x` and `y`. Snapshot.Node.CursorToInnerIsLocal states when it agrees with the global inner cell. |
| Snapshot.Node.BorderQ | termpaint.rb:74-76 | Definition of the earlier `border?`, as in the later version. Snapshot.OwnPaintVersions relies on it agreeing with TermPaint.Node.BorderQ. |
| Snapshot.Node.InnerWidth | termpaint.rb:49-51 | Definition of the earlier `inner_width`, width minus two when bordered. Snapshot.SelfPaintVersions relies on it agreeing with the later one. |
| Snapshot.Node.InnerHeight | termpaint.rb:53-55 | Definition of the earlier `inner_height`, height minus two when bordered. Snapshot.SelfPaintVersions relies on it agreeing with the later one. |
| Snapshot.Node.InnerToGlobalX | termpaint.rb:57-59 | Definition of the earlier `inner_to_global_x` over the earlier `global_x`. Snapshot.Node.CursorToInnerIsLocal states when `cursor_to_inner` agrees with it. |
| Snapshot.Node.InnerToGlobalY | termpaint.rb:61-63 | Definition of the earlier `inner_to_global_y`, the same rule on the other axis. |
| Snapshot.Node.AppendChild | termpaint.rb:158-161 | The child's parent becomes this node and the child is added last, keeping the tree valid. |
| Snapshot.Node.ChangedIgnoresChildren | termpaint.rb:144-146 | A changed child does not make its unchanged parent changed. |
| Snapshot.Node.ChangedQ | termpaint.rb:144-146 | Definition of the earlier `changed?`, the node's own flag. Snapshot.Node.ChangedIgnoresChildren states the consequence. |
| Snapshot.Node.FindById | termpaint.rb:174-181 | A found node has the id asked for. A fall-through answers the empty children array, never `nil`. |
| Snapshot.Node.FindByIdLeftPath | termpaint.rb:174-181 | The search follows first children only. It answers the first node with the id on that path, else the empty array. |
| Snapshot.Node.FindByIdMissesLaterChild | termpaint.rb:174-181 | When the first child is a leaf without the id and the second child has it, the answer is the empty array. |
| Snapshot.Node.SelfPaint | termpaint.rb:142 | Definition of the earlier `repaint_self` by kind. A TextBox draws from its local inner origin with Snapshot.TextBoxSelfAsWritten. |
| Snapshot.Node.TextStyle | termpaint.rb:94-99 | Definition of the earlier `create_painter`, the text colour over the background colour. |
| Snapshot.Node.OwnPaint | termpaint.rb:133-138 | Definition of the earlier background, border and own content. Snapshot.OwnPaintVersions states when it equals the later TermPaint.Node.OwnPaint. |
| Snapshot.Node.Painting | termpaint.rb:133-140 | Definition of the earlier `repaint`. Snapshot.PaintingVersions states when it equals the later one. |
| Snapshot.Node.Repaint | termpaint.rb:133-140 | The recursive walk emits exactly `Painting()`. By Snapshot.PaintingVersions this is what the later `repaint` prints on a corresponding tree, and hence the pre-order paint of the visible nodes. |
| Snapshot.Node.RepaintChildren | termpaint.rb:152-156 | The children are repainted in insertion order, each with the earlier `repaint`. The first exception stops the loop. |
| Snapshot.TextBoxSelfVersions | termpaint.rb:218-227 | The earlier TextBox paint equals the later one for every scroll up to the line count. Past it the earlier one raises on `nil`, where the later one paints nothing. |
| Snapshot.TextBoxSelfAsWritten | termpaint.rb:218-227 | Definition of the earlier TextBox `repaint_self`, with no guard on `scroll_y`. Snapshot.TextBoxSelfVersions compares it with the later one. |
| Snapshot.GlobalOriginVersions | termpaint.rb:29-47 | The earlier `global_x`/`global_y` place a relative child one parent border less far in than the later ones; otherwise they agree. |
| Snapshot.OwnPaintVersions | termpaint.rb:133-138 | Two nodes with the same state, the same global origin and, for a TextBox, a local origin and a scroll within its lines, paint the same background, border and own content in either version. |
| Snapshot.SelfPaintVersions | termpaint.rb:218-227 | Under the same conditions the two versions' `repaint_self` are the same output. |
| Snapshot.PaintingVersions | termpaint.rb:133-156 | On two trees whose nodes correspond child by child under those conditions, the earlier `repaint` prints exactly what the later one prints. |

## Left out

- Escape sequences and colours. TTY::Cursor and Pastel are not part of this model. Moves, forward jumps and styled writes are abstract events. A style is the colour names, or inverse video. Pastel's reaction to an unknown colour name is not modelled.
- The paint lock. `@@paint_lock` (a Mutex) only matters with threads, and `repaint` is modelled as sequential.
- The block form of the constructors (`yield self`), the plain `attr_accessor` setters (`visible=`, `x=`, …) and `focusable?`. They only assign or return a constant.
- Root (termpaint/root.rb and the `Root` class of termpaint.rb) queries the terminal and installs signal handlers. It is not part of this model, and neither is the demo script.
- In the earlier snapshot, `position=`, `border=`, `move_to`, `resize_to` and `changed` are the same code as in the later version, and are not modelled twice. `find_focussed` (termpaint.rb:183-190) differs from the later `find_focused` in its name and in having no trailing `nil`. Since no class of the snapshot overrides `focused?`, which always throws there (termpaint.rb:90-92), it raises for every node before reaching the children, and it is not modelled. `text_lines` is the same code too, and the snapshot's TextBox uses `TextBoxLayout.TextLines`.
- In the earlier snapshot, the TextBox `text=` and `scroll_y=` are plain setters that do not repaint. They are not modelled.
- TermPaint.Node.AppendChild: requires the child's subtree to share no node with the receiver's. Ruby would also attach a node that is already in the tree, giving a shared or cyclic structure that the tree invariant excludes. Only the receiver's `Valid()` is re-established, not its ancestors'.
- TermPaint.Node.Repaint: the setters and the repaint require `Valid()`, the tree invariant above.
- TextBoxLayout.LinePieces, TextBoxLayout.WrapLinesFault: an inner width below 1 is modelled as the error `WrapWidth`. For width 0 this is Ruby's behaviour, since `/.{1,0}/` raises RegexpError. For a negative width Ruby reads `{1,-n}` as literal text, so `scan` usually finds nothing and the line gives no display line. The model raises instead, and TextBoxLayout.WrapLinesFault states that stand-in.
- Values are typed. Ids are optional strings, `border=` takes a boolean for Ruby's truthiness, and positions other than relative and absolute are one `Other` case. Integers are unbounded, like Ruby's.
- Characters are Dafny chars: display width of wide characters is not considered. `line.length` and the regex `.` count characters.
- TermPaint.Node.PaintBackground, TermPaint.Node.Repaint, Snapshot.Node.Repaint: the tree-level repaint (`Painting()` and `OwnPaint()` in both versions, and so every setter's returned repaint) uses the corrected background fill, a move followed by a write for each row. The code writes first and then moves (termpaint/node.rb:104-107, termpaint.rb:107-110). That fill is modelled on its own by Draw.BackgroundAsWritten and TermPaint.Node.PaintBackgroundAsWritten, but not plugged into the repaint.
- Draw.BorderDrawsFrame: `Forward(n)` is read literally as a move of `n` cells. TTY::Cursor prints `forward(n)` as an escape sequence that terminals read as a move of at least one cell, so for a width of 2 (`forward(0)`) or 1 (a negative count) the terminal's output differs. The frame claim matches a terminal for widths of 3 and more.

## Findings

| source | as written | input that shows it | evidently intended | confidence | as-written member | corrected member |
|---|---|---|---|---|---|---|
| termpaint/node.rb:104-107 (also termpaint.rb:107-110) | each row prints its spaces and then moves to row `h`, so the top row is painted twice and the bottom row never | a node with a background colour and height 2 at (0, 0): both rows of spaces land on row 0 and row 1 stays unpainted | move to row `h`, then print its spaces, filling every row once | high, not executed | Draw.BackgroundAsWrittenSkipsBottomRow | Draw.BackgroundFillsRectangle |
| termpaint/node.rb:67 | `%i[relative absolute].includes?(p)` calls a method Array does not have, so `position=` raises for every value | `node.position = :absolute` raises NoMethodError | `include?`: store relative or absolute, reject anything else | high, not executed | TermPaint.Node.SetPositionAsWritten | TermPaint.Node.SetPosition |
| termpaint.rb:174-181 | the loop returns the first child's answer, which is never `nil`, and falls through to the children array | a root without id whose first child is a leaf with id "a" and whose second child has id "b": `find_by_id("b")` returns `[]` | search every child in pre-order and answer `nil` when nothing matches (as termpaint/node.rb:181-189 does) | high, not executed | Snapshot.Node.FindByIdMissesLaterChild | TermPaint.Node.FindByIdFirstInPreorder |
