/** The widget tree of TermPaint: `Node` with its geometry, tree operations
    and repaint, and the TextBox and TextField kinds, whose state lives on
    the same object and whose behaviour is chosen by `kind`. */
module TermPaint {
  import opened RubyText
  import opened Draw
  import TextBoxLayout
  import TextFieldLayout

  /** The `position` symbol: `:relative`, `:absolute`, or any other symbol the
      constructor was given (which the geometry treats like `:absolute`). */
  datatype Position = Relative | Absolute | Other(name: string)

  /** Which class the object is an instance of. */
  datatype Kind = PlainNode | TextBox | TextField

  /** The border thickness, stored as 0 or 1 (`@border`). */
  type Bit = b: int | 0 <= b <= 1

  /** The default `border_char`, a full block. */
  const FullBlock: string := "\U{2588}"

  class Node {
    var x: int
    var y: int
    var width: int
    var height: int
    var position: Position
    var border: Bit
    var visible: bool
    var id: Option<string>
    var backgroundColor: Option<Color>
    var textColor: Option<Color>
    var borderColor: Option<Color>
    var borderChar: string
    var changedFlag: bool
    var parent: Node?
    var children: seq<Node>
    var kind: Kind
    // TextBox and TextField state
    var text: string
    var scrollY: int
    var scrollX: int
    var cursorPos: int

    /** The objects of this node's subtree. */
    ghost var Repr: set<object>

    /** The subtree is a finite tree: every child lies inside this node's
        footprint (and not this node itself), points back to this node as
        its parent, and is itself valid. */
    ghost predicate Valid()
      reads this, Repr
      decreases Repr
    {
      this in Repr &&
      forall i :: 0 <= i < |children| ==>
        children[i] in Repr && children[i].Repr <= Repr && this !in children[i].Repr &&
        children[i].parent == this && children[i].Valid()
    }

    /** `Node.new(x:, y:, width:, height:, ...)` with its keyword defaults;
        the block form of the constructor is not modelled. */
    constructor (x: int, y: int, width: int, height: int, position: Position := Relative,
                 border: bool := true, backgroundColor: Option<Color> := None,
                 textColor: Option<Color> := None, borderColor: Option<Color> := None,
                 borderChar: string := FullBlock, id: Option<string> := None)
      ensures Valid() && fresh(Repr) && Repr == {this}
      ensures this.x == x && this.y == y && this.width == width && this.height == height
      ensures this.position == position && BorderQ() == border && this.visible
      ensures this.backgroundColor == backgroundColor && this.textColor == textColor
      ensures this.borderColor == borderColor && this.borderChar == borderChar && this.id == id
      ensures this.parent == null && this.children == [] && !this.changedFlag
      ensures this.kind == PlainNode
    {
      this.x, this.y, this.width, this.height := x, y, width, height;
      this.border := if border then 1 else 0;
      this.visible := true;
      this.children := [];
      this.position := position;
      this.backgroundColor, this.borderColor, this.textColor := backgroundColor, borderColor, textColor;
      this.borderChar, this.id := borderChar, id;
      this.changedFlag := false;
      this.parent := null;
      this.kind := PlainNode;
      this.text, this.scrollY, this.scrollX, this.cursorPos := "", 0, 0, 0;
      Repr := {this};
    }

    /** `TextBox.new(...)`: a node built from the same arguments, with empty
        text scrolled to the top. */
    constructor TextBox(x: int, y: int, width: int, height: int, position: Position := Relative,
                        border: bool := true, backgroundColor: Option<Color> := None,
                        textColor: Option<Color> := None, borderColor: Option<Color> := None,
                        borderChar: string := FullBlock, id: Option<string> := None)
      ensures Valid() && fresh(Repr) && Repr == {this}
      ensures this.x == x && this.y == y && this.width == width && this.height == height
      ensures this.position == position && BorderQ() == border && this.visible
      ensures this.backgroundColor == backgroundColor && this.textColor == textColor
      ensures this.borderColor == borderColor && this.borderChar == borderChar && this.id == id
      ensures this.parent == null && this.children == [] && !this.changedFlag
      ensures this.kind == Kind.TextBox && this.text == "" && this.scrollY == 0
    {
      this.x, this.y, this.width, this.height := x, y, width, height;
      this.border := if border then 1 else 0;
      this.visible := true;
      this.children := [];
      this.position := position;
      this.backgroundColor, this.borderColor, this.textColor := backgroundColor, borderColor, textColor;
      this.borderChar, this.id := borderChar, id;
      this.changedFlag := false;
      this.parent := null;
      this.kind := Kind.TextBox;
      this.text, this.scrollY, this.scrollX, this.cursorPos := "", 0, 0, 0;
      Repr := {this};
    }

    /** `TextField.new(...)`: whatever height and border are passed, the
        field is one row high and has no border; its text is empty and both
        the caret and the scroll are at 0. */
    constructor TextField(x: int, y: int, width: int, height: int := 1, position: Position := Relative,
                          border: bool := true, backgroundColor: Option<Color> := None,
                          textColor: Option<Color> := None, borderColor: Option<Color> := None,
                          borderChar: string := FullBlock, id: Option<string> := None)
      ensures Valid() && fresh(Repr) && Repr == {this}
      ensures this.x == x && this.y == y && this.width == width && this.height == 1
      ensures this.position == position && !BorderQ() && this.visible
      ensures this.backgroundColor == backgroundColor && this.textColor == textColor
      ensures this.borderColor == borderColor && this.borderChar == borderChar && this.id == id
      ensures this.parent == null && this.children == [] && !this.changedFlag
      ensures this.kind == Kind.TextField && this.text == "" && this.cursorPos == 0 && this.scrollX == 0
    {
      this.x, this.y, this.width, this.height := x, y, width, 1;
      this.border := 0;
      this.visible := true;
      this.children := [];
      this.position := position;
      this.backgroundColor, this.borderColor, this.textColor := backgroundColor, borderColor, textColor;
      this.borderChar, this.id := borderChar, id;
      this.changedFlag := false;
      this.parent := null;
      this.kind := Kind.TextField;
      this.text, this.scrollY, this.scrollX, this.cursorPos := "", 0, 0, 0;
      Repr := {this};
    }

    // -------------------------------------------------------------------
    // Geometry

    /** `border?` */
    predicate BorderQ()
      reads this
    {
      border != 0
    }

    /** `global_x(offset)`: a relative node is placed from its parent's
        local `x` plus the parent's border (not from the parent's global
        origin); a parentless or non-relative node from its own `x`. */
    function GlobalX(offset: int): int
      reads this, parent
    {
      if parent == null then x + offset
      else if position == Relative then x + parent.x + parent.border + offset
      else x + offset
    }

    /** `global_y(offset)`, the same rule on the other axis. */
    function GlobalY(offset: int): int
      reads this, parent
    {
      if parent == null then y + offset
      else if position == Relative then y + parent.y + parent.border + offset
      else y + offset
    }

    /** The offset only shifts the result. */
    lemma GlobalOffset(offset: int)
      ensures GlobalX(offset) == GlobalX(0) + offset && GlobalY(offset) == GlobalY(0) + offset
    {
    }

    /** `inner_width` */
    function InnerWidth(): int
      reads this
    {
      if BorderQ() then width - 2 else width
    }

    /** `inner_height` */
    function InnerHeight(): int
      reads this
    {
      if BorderQ() then height - 2 else height
    }

    /** `inner_to_global_x(inner_x)` */
    function InnerToGlobalX(innerX: int): int
      reads this, parent
    {
      GlobalX(0) + innerX + border
    }

    /** `inner_to_global_y(inner_y)` */
    function InnerToGlobalY(innerY: int): int
      reads this, parent
    {
      GlobalY(0) + innerY + border
    }

    /** The inner rectangle is the node's rectangle inset by the border
        thickness (0 or 1, and 1 exactly when `border?`) on every side: its
        first cell is `border` cells in from the node's origin and its last
        cell `border` cells in from the node's last cell. */
    lemma InnerRectangleInset()
      ensures border == (if BorderQ() then 1 else 0)
      ensures InnerToGlobalX(0) == GlobalX(0) + border && InnerToGlobalY(0) == GlobalY(0) + border
      ensures InnerToGlobalX(InnerWidth() - 1) + border == GlobalX(width - 1)
      ensures InnerToGlobalY(InnerHeight() - 1) + border == GlobalY(height - 1)
      ensures InnerWidth() == width - 2 * border && InnerHeight() == height - 2 * border
    {
    }

    /** A relative child of a root node has its origin at inner cell
        (`x`, `y`) of its parent. */
    lemma RelativeChildOfRoot()
      requires parent != null && parent.parent == null && position == Relative
      ensures GlobalX(0) == parent.InnerToGlobalX(x) && GlobalY(0) == parent.InnerToGlobalY(y)
    {
    }

    /** Offsets compose one level only: when the parent is itself placed
        inside another node, the child lands short of the parent's inner
        cell by exactly what the parent's own placement added. */
    lemma RelativeChildOneLevel()
      requires parent != null && position == Relative
      ensures GlobalX(0) == parent.InnerToGlobalX(x) - (parent.GlobalX(0) - parent.x)
      ensures GlobalY(0) == parent.InnerToGlobalY(y) - (parent.GlobalY(0) - parent.y)
    {
    }

    /** `cursor_to_inner(inner_x, inner_y)`: the move to an inner cell. */
    function CursorToInner(innerX: int, innerY: int): Event
      reads this, parent
    {
      Event.MoveTo(InnerToGlobalX(innerX), InnerToGlobalY(innerY))
    }

    /** `border=`: any truthy value gives a border of 1, anything else 0. */
    method SetBorder(val: bool)
      modifies this`border
      ensures BorderQ() == val && border == (if val then 1 else 0)
      ensures old(Valid()) ==> Valid()
    {
      border := if val then 1 else 0;
    }

    /** `position=` as written: it calls `includes?`, which Ruby's Array does
        not define, so every call raises and the position stays as it was. */
    method SetPositionAsWritten(p: Position) returns (fault: Fault)
      ensures fault == UndefinedMethod
    {
      fault := UndefinedMethod;
    }

    /** `position=` as intended: `:relative` and `:absolute` are stored, any
        other symbol raises and leaves the position unchanged. */
    method SetPosition(p: Position) returns (fault: Option<Fault>)
      modifies this`position
      ensures fault.None? <==> p == Relative || p == Absolute
      ensures fault.None? ==> position == p
      ensures fault.Some? ==> fault.value == IllegalPosition && position == old(position)
      ensures old(Valid()) ==> Valid()
    {
      if p == Relative || p == Absolute {
        position := p;
        fault := None;
      } else {
        fault := Some(IllegalPosition);
      }
    }

    // -------------------------------------------------------------------
    // Tree operations

    /** `append_child(child)` (alias `<<`): the child's parent becomes this
        node and the child is added after the existing children. The
        child's subtree must not share a node with this subtree. */
    method AppendChild(child: Node)
      requires Valid() && child.Valid() && Repr !! child.Repr
      modifies this`children, this`Repr, child`parent
      ensures Valid()
      ensures children == old(children) + [child] && child.parent == this
      ensures |children| == |old(children)| + 1
      ensures Repr == old(Repr) + child.Repr
    {
      child.parent := this;
      children := children + [child];
      Repr := Repr + child.Repr;
      assert child.Valid();
      forall i | 0 <= i < |children|
        ensures children[i] in Repr && children[i].Repr <= Repr && this !in children[i].Repr
        ensures children[i].parent == this && children[i].Valid()
      {
        if i < |children| - 1 {
          assert children[i] == old(children)[i];
          assert old(children[i].Valid());
          assert child !in children[i].Repr;
        }
      }
    }

    /** `move_to(x, y)`: only the position changes. */
    method MoveTo(newX: int, newY: int)
      modifies this`x, this`y
      ensures x == newX && y == newY
      ensures old(Valid()) ==> Valid()
    {
      x := newX;
      y := newY;
    }

    /** `resize_to(width, height)`: only the size changes. */
    method ResizeTo(newWidth: int, newHeight: int)
      modifies this`width, this`height
      ensures width == newWidth && height == newHeight
      ensures old(Valid()) ==> Valid()
    {
      width := newWidth;
      height := newHeight;
    }

    /** `changed(state = true)`: sets this node's own flag, nothing else. */
    method SetChanged(state: bool := true)
      modifies this`changedFlag
      ensures changedFlag == state
      ensures old(Valid()) ==> Valid() && (state ==> ChangedQ())
    {
      changedFlag := state;
    }

    /** The nodes of the subtree in pre-order: this node, then each child's
        subtree in insertion order. */
    ghost function Preorder(): (p: seq<Node>)
      requires Valid()
      reads Repr
      ensures p != [] && p[0] == this
      ensures forall n :: n in p ==> n in Repr
      decreases Repr, 1
    {
      [this] + ChildrenPreorder(0)
    }

    ghost function ChildrenPreorder(i: nat): (p: seq<Node>)
      requires Valid() && i <= |children|
      reads Repr
      ensures forall n :: n in p ==> n in Repr
      decreases Repr, 0, |children| - i
    {
      if i == |children| then [] else children[i].Preorder() + ChildrenPreorder(i + 1)
    }

    /** `find_by_id(find_id)`: this node when its id matches, otherwise the
        first child subtree that answers, in insertion order, otherwise
        `nil` (`null`). A found node carries the id asked for. */
    function FindById(key: Option<string>): (r: Node?)
      requires Valid()
      reads Repr
      ensures r != null ==> r in Repr && r.id == key
      decreases Repr, 1
    {
      if key == id then this else FindInChildren(key, 0)
    }

    /** The `children.each` loop of `find_by_id`, from child `i` on. */
    function FindInChildren(key: Option<string>, i: nat): (r: Node?)
      requires Valid() && i <= |children|
      reads Repr
      ensures r != null ==> r in Repr && r.id == key
      decreases Repr, 0, |children| - i
    {
      if i == |children| then null
      else
        var found := children[i].FindById(key);
        if found != null then found else FindInChildren(key, i + 1)
    }

    /** `find_by_id` finds the first node of the subtree, in pre-order,
        whose id is the one asked for, and `nil` when there is none. */
    lemma {:induction false} FindByIdFirstInPreorder(key: Option<string>)
      requires Valid()
      ensures FindById(key) == FirstWithId(Preorder(), key)
      decreases Repr, 1
    {
      var p := Preorder();
      assert p[1..] == ChildrenPreorder(0);
      if id != key {
        FindInChildrenPreorder(key, 0);
      }
    }

    lemma {:induction false} FindInChildrenPreorder(key: Option<string>, i: nat)
      requires Valid() && i <= |children|
      ensures FindInChildren(key, i) == FirstWithId(ChildrenPreorder(i), key)
      decreases Repr, 0, |children| - i
    {
      if i < |children| {
        children[i].FindByIdFirstInPreorder(key);
        FindInChildrenPreorder(key, i + 1);
        FirstWithIdAppend(children[i].Preorder(), ChildrenPreorder(i + 1), key);
      }
    }

    /** `changed?`: this node's flag, or else the first child subtree whose
        `changed?` holds. */
    function ChangedQ(): bool
      requires Valid()
      reads Repr
      decreases Repr, 1
    {
      changedFlag || ChildrenChanged(0)
    }

    function ChildrenChanged(i: nat): bool
      requires Valid() && i <= |children|
      reads Repr
      decreases Repr, 0, |children| - i
    {
      i < |children| && (children[i].ChangedQ() || ChildrenChanged(i + 1))
    }

    /** `changed?` holds exactly when some node of the subtree has its own
        flag set. */
    lemma {:induction false} ChangedQAnyInSubtree()
      requires Valid()
      ensures ChangedQ() <==> exists n :: n in Preorder() && n.changedFlag
      decreases Repr, 1
    {
      var p := Preorder();
      var q := ChildrenPreorder(0);
      ChildrenChangedAny(0);
      assert p == [this] + q;
      if ChangedQ() && !changedFlag {
        var n :| n in q && n.changedFlag;
        assert n in p;
      }
      if n :| n in p && n.changedFlag {
        if n != this {
          assert n in q;
        }
      }
    }

    lemma {:induction false} ChildrenChangedAny(i: nat)
      requires Valid() && i <= |children|
      ensures ChildrenChanged(i) <==> exists n :: n in ChildrenPreorder(i) && n.changedFlag
      decreases Repr, 0, |children| - i
    {
      if i < |children| {
        var a := children[i].Preorder();
        var b := ChildrenPreorder(i + 1);
        children[i].ChangedQAnyInSubtree();
        ChildrenChangedAny(i + 1);
        assert ChildrenPreorder(i) == a + b;
      }
    }

    /** `focused?`: a TextField is always focused; the base class raises. */
    function Focused(): (r: Result<bool>)
      reads this
      ensures r.Ok? <==> kind == Kind.TextField
      ensures r.Ok? ==> r.value
      ensures r.Err? ==> r.fault == NotImplemented
    {
      if kind == Kind.TextField then Ok(true) else Err(NotImplemented)
    }

    /** `find_focused`: this node if `focused?` holds, and otherwise the first
        child subtree that answers. Since `focused?` either holds or raises,
        the search of the children is never reached: the result is this
        node for a TextField and an exception for any other kind. */
    function FindFocused(): (r: Result<Node>)
      reads this
      ensures r.Ok? <==> kind == Kind.TextField
      ensures r.Ok? ==> r.value == this
      ensures r.Err? ==> r.fault == NotImplemented
    {
      match Focused()
      case Err(f) => Err(f)
      case Ok(_) => Ok(this)
    }

    // -------------------------------------------------------------------
    // Repaint

    /** The painter of `create_painter`. */
    function TextStyle(): Style
      reads this
    {
      Painter(textColor, backgroundColor)
    }

    /** `repaint_background`, as the corrected `Draw.Background` at this
        node's global origin. */
    function BackgroundPaint(): Trace
      reads this, parent
    {
      Background(GlobalX(0), GlobalY(0), width, height, textColor, backgroundColor)
    }

    /** `repaint_border`: nothing unless `border?`. */
    function BorderPaint(): Trace
      reads this, parent
    {
      if BorderQ() then Border(GlobalX(0), GlobalY(0), width, height, borderChar, borderColor) else Quiet
    }

    /** `repaint_self` of each kind: nothing for a plain node; the wrapped,
        scrolled lines for a TextBox; the window and caret for a TextField. */
    function SelfPaint(): Trace
      reads this, parent
    {
      match kind
      case PlainNode => Quiet
      case TextBox =>
        TextBoxLayout.TextBoxSelf(TextBoxLayout.TextLines(text, InnerWidth()), scrollY, InnerHeight(),
                                  InnerToGlobalX(0), InnerToGlobalY(0), TextStyle())
      case TextField =>
        TextFieldLayout.FieldSelf(TextFieldLayout.TextLine(text), scrollX, width, cursorPos,
                                  InnerToGlobalX(0), InnerToGlobalY(0), TextStyle())
    }

    /** The locked part of `repaint`: background, border, then own content. */
    function OwnPaint(): Trace
      reads this, parent
    {
      Then(BackgroundPaint(), Then(BorderPaint(), SelfPaint()))
    }

    /** `repaint`: nothing for an invisible node (its children included);
        otherwise its own paint, then each child's repaint in insertion
        order; an exception stops everything after it. */
    function Painting(): Trace
      requires Valid()
      reads Repr, parent
      decreases Repr, 1
    {
      if !visible then Quiet else Then(OwnPaint(), ChildrenPainting(0))
    }

    /** `repaint_children`, from child `i` on. */
    function ChildrenPainting(i: nat): Trace
      requires Valid() && i <= |children|
      reads Repr
      decreases Repr, 0, |children| - i
    {
      if i == |children| then Quiet else Then(children[i].Painting(), ChildrenPainting(i + 1))
    }

    /** The nodes `repaint` reaches, in pre-order: those whose path from this
        node runs through visible nodes only. */
    ghost function VisiblePreorder(): (p: seq<Node>)
      requires Valid()
      reads Repr
      ensures forall n :: n in p ==> n in Repr
      decreases Repr, 1
    {
      if !visible then [] else [this] + ChildrenVisiblePreorder(0)
    }

    ghost function ChildrenVisiblePreorder(i: nat): (p: seq<Node>)
      requires Valid() && i <= |children|
      reads Repr
      ensures forall n :: n in p ==> n in Repr
      decreases Repr, 0, |children| - i
    {
      if i == |children| then [] else children[i].VisiblePreorder() + ChildrenVisiblePreorder(i + 1)
    }

    /** `repaint` is a pre-order walk: it paints the own part of every node
        it reaches, one after the other in pre-order, and stops at the
        first exception. */
    lemma {:induction false} PaintingIsPreorder()
      requires Valid()
      ensures Painting() == PaintAll(VisiblePreorder())
      ensures !visible ==> VisiblePreorder() == [] && Painting() == Quiet
      ensures visible ==> VisiblePreorder()[0] == this
      decreases Repr, 1
    {
      if visible {
        var rest := ChildrenVisiblePreorder(0);
        ChildrenPaintingIsPreorder(0);
        assert ([this] + rest)[0] == this && ([this] + rest)[1..] == rest;
      }
    }

    lemma {:induction false} ChildrenPaintingIsPreorder(i: nat)
      requires Valid() && i <= |children|
      ensures ChildrenPainting(i) == PaintAll(ChildrenVisiblePreorder(i))
      decreases Repr, 0, |children| - i
    {
      if i < |children| {
        children[i].PaintingIsPreorder();
        ChildrenPaintingIsPreorder(i + 1);
        PaintAllAppend(children[i].VisiblePreorder(), ChildrenVisiblePreorder(i + 1));
      }
    }

    /** `repaint_background`: a move to the origin, then for each row a move
        and a line of spaces. */
    method PaintBackground() returns (t: Trace)
      ensures t == BackgroundPaint()
    {
      if backgroundColor.None? {
        return Quiet;
      }
      var gx, gy := GlobalX(0), GlobalY(0);
      var events := [Event.MoveTo(gx, gy)];
      var painter := TextStyle();
      var spaces := Repeat(' ', width);
      if spaces.Err? {
        return Trace(events, Some(spaces.fault));
      }
      var h := 0;
      while h < height
        invariant 0 <= h && (h <= height || h == 0)
        invariant events == [Event.MoveTo(gx, gy)] + BackgroundRows(gx, gy, spaces.value, painter, h)
      {
        events := events + [Event.MoveTo(GlobalX(0), GlobalY(h)), Write(spaces.value, painter)];
        h := h + 1;
      }
      assert BackgroundRows(gx, gy, spaces.value, painter, h) == BackgroundRows(gx, gy, spaces.value, painter, height);
      t := Trace(events, None);
    }

    /** `repaint_background` with its rows loop as the source writes it:
        each row prints its spaces and then moves to `global_y(h)`, so the
        writes land one row late (see `Draw.BackgroundAsWrittenPlacements`). */
    method PaintBackgroundAsWritten() returns (t: Trace)
      ensures t == BackgroundAsWritten(GlobalX(0), GlobalY(0), width, height, textColor, backgroundColor)
    {
      if backgroundColor.None? {
        return Quiet;
      }
      var gx, gy := GlobalX(0), GlobalY(0);
      var events := [Event.MoveTo(gx, gy)];
      var painter := TextStyle();
      var spaces := Repeat(' ', width);
      if spaces.Err? {
        return Trace(events, Some(spaces.fault));
      }
      var h := 0;
      while h < height
        invariant 0 <= h && (h <= height || h == 0)
        invariant events == [Event.MoveTo(gx, gy)] + BackgroundRowsAsWritten(gx, gy, spaces.value, painter, h)
      {
        events := events + [Write(spaces.value, painter), Event.MoveTo(GlobalX(0), GlobalY(h))];
        h := h + 1;
      }
      assert BackgroundRowsAsWritten(gx, gy, spaces.value, painter, h)
        == BackgroundRowsAsWritten(gx, gy, spaces.value, painter, height);
      t := Trace(events, None);
    }

    /** `repaint_border`: top row, the two sides of each inner row, bottom
        row. */
    method PaintBorder() returns (t: Trace)
      ensures t == BorderPaint()
    {
      if !BorderQ() {
        return Quiet;
      }
      if |borderChar| != 1 {
        return Trace([], Some(BorderCharSize));
      }
      var gx, gy := GlobalX(0), GlobalY(0);
      var events := [Event.MoveTo(gx, gy)];
      var style := Styled(borderColor, None);
      var line := Repeat(borderChar[0], width);
      if line.Err? {
        return Trace(events, Some(line.fault));
      }
      events := events + [Write(line.value, style)];
      var h := 0;
      var n := InnerHeight();
      while h < n
        invariant 0 <= h && (h <= n || h == 0)
        invariant events == [Event.MoveTo(gx, gy), Write(line.value, style)]
          + BorderRows(gx, gy, borderChar[0], width - 2, style, h)
      {
        events := events + [Event.MoveTo(GlobalX(0), GlobalY(h + 1)), Write(borderChar, style),
                            Forward(InnerWidth()), Write(borderChar, style)];
        assert borderChar == [borderChar[0]];
        h := h + 1;
      }
      assert BorderRows(gx, gy, borderChar[0], width - 2, style, h)
        == BorderRows(gx, gy, borderChar[0], width - 2, style, height - 2);
      events := events + [Event.MoveTo(GlobalX(0), GlobalY(height - 1)), Write(line.value, style)];
      t := Trace(events, None);
    }

    /** `text_lines` of a TextBox: the source lines collected one by one
        into the display lines. */
    method TextLines() returns (r: Result<seq<string>>)
      requires kind == Kind.TextBox
      ensures r == TextBoxLayout.TextLines(text, InnerWidth())
    {
      var lines := SplitLines(ExpandTabs(text));
      var w := InnerWidth();
      var split: seq<string> := [];
      var i := 0;
      while i < |lines|
        invariant 0 <= i <= |lines|
        invariant TextBoxLayout.WrapLines(lines[..i], w) == Ok(split)
      {
        var line := lines[i];
        TextBoxLayout.WrapLinesStep(lines, i, w, split);
        if |line| < w {
          split := split + [line];
        } else if w < 1 {
          TextBoxLayout.WrapLinesFault(lines, w);
          return Err(WrapWidth);
        } else {
          split := split + TextBoxLayout.Scan(line, w);
        }
        i := i + 1;
      }
      assert lines[..i] == lines;
      r := Ok(split);
    }

    /** `repaint_self` of a TextBox: at most `inner_height` lines from
        `scroll_y` on, one per inner row, leaving the loop with `break`. */
    method PaintTextBox() returns (t: Trace)
      requires kind == Kind.TextBox
      ensures t == SelfPaint()
    {
      var textLines := TextLines();
      if textLines.Err? {
        return Trace([], Some(textLines.fault));
      }
      var lines := textLines.value;
      if scrollY > |lines| {
        return Quiet;
      }
      var from := TextBoxLayout.LinesFrom(lines, scrollY);
      if from.None? {
        return Trace([], Some(NilReceiver));
      }
      t := PaintLines(from.value);
    }

    /** The `each_with_index` loop of `repaint_self`: one display line per
        inner row, leaving the loop with `break` at `inner_height`. */
    method PaintLines(rest: seq<string>) returns (t: Trace)
      ensures t == Trace(TextBoxLayout.LinesAt(rest, InnerToGlobalX(0), InnerToGlobalY(0), TextStyle(),
                                               TextBoxLayout.ShownCount(rest, InnerHeight())), None)
    {
      var ox, oy := InnerToGlobalX(0), InnerToGlobalY(0);
      var painter := TextStyle();
      var events := [];
      var idx := 0;
      while idx < |rest|
        invariant 0 <= idx <= |rest| && (idx <= InnerHeight() || idx == 0)
        invariant events == TextBoxLayout.LinesAt(rest, ox, oy, painter, idx)
      {
        if idx >= InnerHeight() {
          break;
        }
        events := events + [CursorToInner(0, idx), Write(rest[idx], painter)];
        idx := idx + 1;
      }
      assert idx == TextBoxLayout.ShownCount(rest, InnerHeight());
      t := Trace(events, None);
    }

    /** `repaint_self` of each kind. */
    method PaintSelf() returns (t: Trace)
      ensures t == SelfPaint()
    {
      match kind {
        case PlainNode =>
          t := Quiet;
        case TextBox =>
          t := PaintTextBox();
        case TextField =>
          t := SelfPaint();
      }
    }

    /** The locked part of `repaint`: background, border, own content. */
    method PaintOwn() returns (t: Trace)
      ensures t == OwnPaint()
    {
      var ground := PaintBackground();
      if ground.fault.Some? {
        return ground;
      }
      var frame := PaintBorder();
      if frame.fault.Some? {
        return Then(ground, frame);
      }
      var content := PaintSelf();
      t := Then(ground, Then(frame, content));
    }

    /** `repaint`: nothing when invisible; otherwise the own paint, then
        `repaint_children`, each child in insertion order. */
    method Repaint() returns (t: Trace)
      requires Valid()
      ensures t == Painting()
      decreases Repr, 1
    {
      if !visible {
        return Quiet;
      }
      t := PaintOwn();
      if t.fault.Some? {
        return;
      }
      var rest := RepaintChildren();
      t := Then(t, rest);
    }

    /** `repaint_children`: each child's repaint in insertion order; an
        exception from one child leaves the later ones unpainted. */
    method RepaintChildren() returns (t: Trace)
      requires Valid()
      ensures t == ChildrenPainting(0)
      decreases Repr, 0
    {
      t := Quiet;
      ThenQuiet(ChildrenPainting(0));
      var i := 0;
      while i < |children|
        invariant 0 <= i <= |children|
        invariant t.fault.None? && Then(t, ChildrenPainting(i)) == ChildrenPainting(0)
      {
        var c := children[i].Repaint();
        var rest := ChildrenPainting(i + 1);
        assert ChildrenPainting(i) == Then(c, rest);
        ThenAssociative(t, c, rest);
        t := Then(t, c);
        if t.fault.Some? {
          assert Then(t, rest) == t;
          return;
        }
        i := i + 1;
      }
    }

    // -------------------------------------------------------------------
    // TextBox setters

    /** TextBox `text=`: stores the text and repaints the box. */
    method SetBoxText(newText: string) returns (painted: Trace)
      requires Valid() && kind == Kind.TextBox
      modifies this`text
      ensures Valid() && text == newText
      ensures painted == Painting()
    {
      text := newText;
      painted := Repaint();
    }

    /** TextBox `scroll_y=`: stores the scroll unchecked and repaints. */
    method SetScrollY(scroll: int) returns (painted: Trace)
      requires Valid() && kind == Kind.TextBox
      modifies this`scrollY
      ensures Valid() && scrollY == scroll
      ensures painted == Painting()
    {
      scrollY := scroll;
      painted := Repaint();
    }

    // -------------------------------------------------------------------
    // TextField setters

    /** `text_line` of this field. */
    function TextLine(): string
      reads this
    {
      TextFieldLayout.TextLine(text)
    }

    /** TextField `text=`: stores the text, scrolls to the tail of the new
        line, and repaints. The caret is left where it was. */
    method SetFieldText(newText: string) returns (painted: Trace)
      requires Valid() && kind == Kind.TextField
      modifies this`text, this`scrollX
      ensures Valid() && text == newText && cursorPos == old(cursorPos)
      ensures scrollX == TextFieldLayout.TailScrollX(TextFieldLayout.TextLine(newText), width)
      ensures painted == Painting()
    {
      text := newText;
      scrollX := TextFieldLayout.TailScrollX(TextLine(), width);
      painted := Repaint();
    }

    /** TextField `scroll_x=`: stores the scroll unchecked and repaints. */
    method SetScrollX(scroll: int) returns (painted: Trace)
      requires Valid() && kind == Kind.TextField
      modifies this`scrollX
      ensures Valid() && scrollX == scroll
      ensures painted == Painting()
    {
      scrollX := scroll;
      painted := Repaint();
    }

    /** TextField `cursor_pos=`: a position outside `0 .. |text_line| - 1`
        is ignored without a repaint (`None`); any other is stored and the
        field repainted. */
    method SetCursorPos(pos: int) returns (painted: Option<Trace>)
      requires Valid() && kind == Kind.TextField
      modifies this`cursorPos
      ensures Valid()
      ensures TextFieldLayout.CursorAccepted(TextLine(), pos) ==> cursorPos == pos && painted == Some(Painting())
      ensures !TextFieldLayout.CursorAccepted(TextLine(), pos) ==> cursorPos == old(cursorPos) && painted.None?
    {
      if pos < 0 || pos > |TextLine()| - 1 {
        return None;
      }
      cursorPos := pos;
      var t := Repaint();
      painted := Some(t);
    }
  }

  /** The first node of `p` with id `key`, or `null`. */
  ghost function FirstWithId(p: seq<Node>, key: Option<string>): (r: Node?)
    reads p
    ensures r != null ==> r in p && r.id == key
    ensures r == null <==> forall k :: 0 <= k < |p| ==> p[k].id != key
  {
    if p == [] then null else if p[0].id == key then p[0] else FirstWithId(p[1..], key)
  }

  lemma {:induction false} FirstWithIdAppend(a: seq<Node>, b: seq<Node>, key: Option<string>)
    ensures FirstWithId(a + b, key) ==
      if FirstWithId(a, key) != null then FirstWithId(a, key) else FirstWithId(b, key)
  {
    if a == [] {
      assert a + b == b;
    } else {
      assert (a + b)[0] == a[0] && (a + b)[1..] == a[1..] + b;
      FirstWithIdAppend(a[1..], b, key);
    }
  }

  /** The own paints of the nodes `p`, one after the other, stopping at the
      first exception. */
  ghost function PaintAll(p: seq<Node>): Trace
    reads *
  {
    if p == [] then Quiet else Then(p[0].OwnPaint(), PaintAll(p[1..]))
  }

  lemma {:induction false} PaintAllAppend(a: seq<Node>, b: seq<Node>)
    ensures PaintAll(a + b) == Then(PaintAll(a), PaintAll(b))
  {
    if a == [] {
      assert a + b == b;
    } else {
      assert (a + b)[0] == a[0] && (a + b)[1..] == a[1..] + b;
      PaintAllAppend(a[1..], b);
      ThenAssociative(a[0].OwnPaint(), PaintAll(a[1..]), PaintAll(b));
    }
  }
}
