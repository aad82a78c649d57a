/** The earlier, single-file version of TermPaint's `Node` and `TextBox`.
    It differs from the later version in four places: the global origin of
    a relative node ignores the parent's border, `cursor_to_inner` works in
    the node's local coordinates, `changed?` looks at the node's own flag
    only, and `find_by_id` returns its children array when the loop falls
    through. Its TextBox `repaint_self` has no guard on `scroll_y`. */
module Snapshot {
  import opened RubyText
  import opened Draw
  import TextBoxLayout
  import TermPaint

  /** Which class the object is an instance of. */
  datatype Kind = PlainNode | TextBox

  /** What `find_by_id` answers: a node, or, when the loop over the children
      runs to its end, the children array that `each` returns. */
  datatype Found = FoundNode(node: Node) | ChildArray(nodes: seq<Node>)

  class Node {
    var x: int
    var y: int
    var width: int
    var height: int
    var position: TermPaint.Position
    var border: TermPaint.Bit
    var visible: bool
    var id: Option<string>
    var backgroundColor: Option<Color>
    var textColor: Option<Color>
    var borderColor: Option<Color>
    var borderChar: string
    var changedFlag: bool
    var parent: Node?
    var children: seq<Node>
    var kind: Kind
    // TextBox state
    var text: string
    var scrollY: int

    /** The objects of this node's subtree. */
    ghost var Repr: set<object>

    /** The subtree is a finite tree whose children point back to it. */
    ghost predicate Valid()
      reads this, Repr
      decreases Repr
    {
      this in Repr &&
      forall i :: 0 <= i < |children| ==>
        children[i] in Repr && children[i].Repr <= Repr && this !in children[i].Repr &&
        children[i].parent == this && children[i].Valid()
    }

    /** `Node.new(x, y, width, height, ...)`, the position and size given
        positionally. */
    constructor (x: int, y: int, width: int, height: int, position: TermPaint.Position := TermPaint.Relative,
                 border: bool := true, backgroundColor: Option<Color> := None,
                 textColor: Option<Color> := None, borderColor: Option<Color> := None,
                 borderChar: string := TermPaint.FullBlock, id: Option<string> := None)
      ensures Valid() && fresh(Repr) && Repr == {this}
      ensures this.x == x && this.y == y && this.width == width && this.height == height
      ensures this.position == position && BorderQ() == border && this.visible
      ensures this.backgroundColor == backgroundColor && this.textColor == textColor
      ensures this.borderColor == borderColor && this.borderChar == borderChar && this.id == id
      ensures this.parent == null && this.children == [] && !this.changedFlag
      ensures this.kind == PlainNode
    {
      this.x, this.y, this.width, this.height := x, y, width, height;
      this.border := if border then 1 else 0;
      this.visible := true;
      this.children := [];
      this.position := position;
      this.backgroundColor, this.borderColor, this.textColor := backgroundColor, borderColor, textColor;
      this.borderChar, this.id := borderChar, id;
      this.changedFlag := false;
      this.parent := null;
      this.kind := PlainNode;
      this.text, this.scrollY := "", 0;
      Repr := {this};
    }

    /** `TextBox.new(...)`: empty text, scrolled to the top. */
    constructor TextBox(x: int, y: int, width: int, height: int, position: TermPaint.Position := TermPaint.Relative,
                        border: bool := true, backgroundColor: Option<Color> := None,
                        textColor: Option<Color> := None, borderColor: Option<Color> := None,
                        borderChar: string := TermPaint.FullBlock, id: Option<string> := None)
      ensures Valid() && fresh(Repr) && Repr == {this}
      ensures this.x == x && this.y == y && this.width == width && this.height == height
      ensures this.position == position && BorderQ() == border && this.visible
      ensures this.backgroundColor == backgroundColor && this.textColor == textColor
      ensures this.borderColor == borderColor && this.borderChar == borderChar && this.id == id
      ensures this.parent == null && this.children == [] && !this.changedFlag
      ensures this.kind == Kind.TextBox && this.text == "" && this.scrollY == 0
    {
      this.x, this.y, this.width, this.height := x, y, width, height;
      this.border := if border then 1 else 0;
      this.visible := true;
      this.children := [];
      this.position := position;
      this.backgroundColor, this.borderColor, this.textColor := backgroundColor, borderColor, textColor;
      this.borderChar, this.id := borderChar, id;
      this.changedFlag := false;
      this.parent := null;
      this.kind := Kind.TextBox;
      this.text, this.scrollY := "", 0;
      Repr := {this};
    }

    // -------------------------------------------------------------------
    // Geometry

    /** `border?` */
    predicate BorderQ()
      reads this
    {
      border != 0
    }

    /** `global_x(offset)`: a relative node is placed from its parent's
        local `x`; the parent's border is not added. */
    function GlobalX(offset: int): int
      reads this, parent
    {
      if parent == null then x + offset
      else if position == TermPaint.Relative then x + parent.x + offset
      else x + offset
    }

    /** `global_y(offset)`, the same rule on the other axis. */
    function GlobalY(offset: int): int
      reads this, parent
    {
      if parent == null then y + offset
      else if position == TermPaint.Relative then y + parent.y + offset
      else y + offset
    }

    /** `inner_width` */
    function InnerWidth(): int
      reads this
    {
      if BorderQ() then width - 2 else width
    }

    /** `inner_height` */
    function InnerHeight(): int
      reads this
    {
      if BorderQ() then height - 2 else height
    }

    /** `inner_to_global_x(inner_x)` */
    function InnerToGlobalX(innerX: int): int
      reads this, parent
    {
      GlobalX(0) + innerX + border
    }

    /** `inner_to_global_y(inner_y)` */
    function InnerToGlobalY(innerY: int): int
      reads this, parent
    {
      GlobalY(0) + innerY + border
    }

    /** `cursor_to_inner(inner_x, inner_y)`: the move to an inner cell,
        computed from the node's local `x` and `y`. */
    function CursorToInner(innerX: int, innerY: int): Event
      reads this
    {
      MoveTo(x + innerX + border, y + innerY + border)
    }

    /** `cursor_to_inner` reaches the inner cell that `inner_to_global_x` and
        `inner_to_global_y` name exactly when the node's global origin is its
        local one; for a relative child of a parent away from the origin, a
        TextBox's lines land away from its own background and border. */
    lemma CursorToInnerIsLocal(innerX: int, innerY: int)
      ensures CursorToInner(innerX, innerY) == MoveTo(InnerToGlobalX(innerX), InnerToGlobalY(innerY))
        <==> GlobalX(0) == x && GlobalY(0) == y
      ensures GlobalX(0) == x <==> parent == null || position != TermPaint.Relative || parent.x == 0
    {
    }

    // -------------------------------------------------------------------
    // Tree operations

    /** `append_child(child)`, as in the later version. */
    method AppendChild(child: Node)
      requires Valid() && child.Valid() && Repr !! child.Repr
      modifies this`children, this`Repr, child`parent
      ensures Valid()
      ensures children == old(children) + [child] && child.parent == this
      ensures Repr == old(Repr) + child.Repr
    {
      child.parent := this;
      children := children + [child];
      Repr := Repr + child.Repr;
      assert child.Valid();
      forall i | 0 <= i < |children|
        ensures children[i] in Repr && children[i].Repr <= Repr && this !in children[i].Repr
        ensures children[i].parent == this && children[i].Valid()
      {
        if i < |children| - 1 {
          assert children[i] == old(children)[i];
          assert old(children[i].Valid());
          assert child !in children[i].Repr;
        }
      }
    }

    /** `changed?`: the node's own flag, children not consulted. */
    predicate ChangedQ()
      reads this
    {
      changedFlag
    }

    /** A changed child does not make its parent changed. */
    lemma ChangedIgnoresChildren(i: nat)
      requires Valid() && i < |children| && children[i].changedFlag && !changedFlag
      ensures !ChangedQ() && children[i].ChangedQ()
    {
    }

    /** `find_by_id(find_id)`: this node when its id matches. Otherwise the
        `children.each` loop returns the first child's answer at once, since
        that answer (a node or an array) is never `nil`; with no children,
        the loop ends and `each` returns the (empty) children array. */
    function FindById(key: Option<string>): (r: Found)
      requires Valid()
      reads Repr
      ensures r.FoundNode? ==> r.node in Repr && r.node.id == key
      ensures r.ChildArray? ==> r.nodes == []
      decreases Repr
    {
      if key == id then FoundNode(this)
      else if children == [] then ChildArray(children)
      else children[0].FindById(key)
    }

    /** The path from this node through first children down to a leaf. */
    ghost function LeftPath(): (p: seq<Node>)
      requires Valid()
      reads Repr
      ensures p != [] && p[0] == this
      decreases Repr
    {
      if children == [] then [this] else [this] + children[0].LeftPath()
    }

    /** `find_by_id` searches the first-child path only: it answers the
        first node on that path with the id asked for, and the empty array
        when there is none, whatever the other children hold. */
    lemma {:induction false} FindByIdLeftPath(key: Option<string>)
      requires Valid()
      ensures var n := FirstOnPath(LeftPath(), key);
        FindById(key) == if n != null then FoundNode(n) else ChildArray([])
      decreases Repr
    {
      var p := LeftPath();
      if children != [] {
        children[0].FindByIdLeftPath(key);
        assert p[1..] == children[0].LeftPath();
      }
    }

    /** A node whose first child is a leaf without the id, and whose second
        child has it, answers the empty array: the match is never found. */
    lemma FindByIdMissesLaterChild(key: Option<string>)
      requires Valid() && id != key && |children| == 2
      requires children[0].id != key && children[0].children == [] && children[1].id == key
      ensures FindById(key) == ChildArray([])
      ensures children[1] in Repr && children[1].id == key
    {
      assert children[0].Valid();
    }

    // -------------------------------------------------------------------
    // Repaint

    /** The painter of `create_painter`. */
    function TextStyle(): Style
      reads this
    {
      Painter(textColor, backgroundColor)
    }

    /** `repaint_self` of each kind; a TextBox draws from its local inner
        origin (`cursor_to_inner`) and has no guard on `scroll_y`. */
    function SelfPaint(): Trace
      reads this
    {
      match kind
      case PlainNode => Quiet
      case TextBox =>
        TextBoxSelfAsWritten(TextBoxLayout.TextLines(text, InnerWidth()), scrollY, InnerHeight(),
                             x + border, y + border, TextStyle())
    }

    /** Background, border, then own content. */
    function OwnPaint(): Trace
      reads this, parent
    {
      Then(Background(GlobalX(0), GlobalY(0), width, height, textColor, backgroundColor),
        Then(if BorderQ() then Border(GlobalX(0), GlobalY(0), width, height, borderChar, borderColor) else Quiet,
          SelfPaint()))
    }

    /** `repaint`: nothing for an invisible node; otherwise its own paint,
        then each child's repaint in insertion order, stopping at the first
        exception. */
    function Painting(): Trace
      requires Valid()
      reads Repr, parent
      decreases Repr, 1
    {
      if !visible then Quiet else Then(OwnPaint(), ChildrenPainting(0))
    }

    function ChildrenPainting(i: nat): Trace
      requires Valid() && i <= |children|
      reads Repr
      decreases Repr, 0, |children| - i
    {
      if i == |children| then Quiet else Then(children[i].Painting(), ChildrenPainting(i + 1))
    }

    /** `repaint`, walking the children one by one. */
    method Repaint() returns (t: Trace)
      requires Valid()
      ensures t == Painting()
      decreases Repr, 1
    {
      if !visible {
        return Quiet;
      }
      t := OwnPaint();
      if t.fault.Some? {
        return;
      }
      var rest := RepaintChildren();
      t := Then(t, rest);
    }

    /** `repaint_children`: each child's repaint in insertion order; an
        exception from one child leaves the later ones unpainted. */
    method RepaintChildren() returns (t: Trace)
      requires Valid()
      ensures t == ChildrenPainting(0)
      decreases Repr, 0
    {
      t := Quiet;
      ThenQuiet(ChildrenPainting(0));
      var i := 0;
      while i < |children|
        invariant 0 <= i <= |children|
        invariant t.fault.None? && Then(t, ChildrenPainting(i)) == ChildrenPainting(0)
      {
        var c := children[i].Repaint();
        var rest := ChildrenPainting(i + 1);
        assert ChildrenPainting(i) == Then(c, rest);
        ThenAssociative(t, c, rest);
        t := Then(t, c);
        if t.fault.Some? {
          assert Then(t, rest) == t;
          return;
        }
        i := i + 1;
      }
    }
  }

  /** The first node of `p` with id `key`, or `null`. */
  ghost function FirstOnPath(p: seq<Node>, key: Option<string>): (r: Node?)
    reads p
    ensures r != null ==> r in p && r.id == key
    ensures r == null <==> forall k :: 0 <= k < |p| ==> p[k].id != key
  {
    if p == [] then null else if p[0].id == key then p[0] else FirstOnPath(p[1..], key)
  }

  /** The earlier TextBox `repaint_self`: the lines from `scroll_y` on, with
      no check that `scroll_y` lies within them. */
  function TextBoxSelfAsWritten(textLines: Result<seq<string>>, scrollY: int, innerHeight: int,
                                ox: int, oy: int, style: Style): Trace
  {
    match textLines
    case Err(f) => Trace([], Some(f))
    case Ok(lines) =>
      match TextBoxLayout.LinesFrom(lines, scrollY)
      case None => Trace([], Some(NilReceiver))
      case Some(rest) => Trace(TextBoxLayout.LinesAt(rest, ox, oy, style, TextBoxLayout.ShownCount(rest, innerHeight)), None)
  }

  /** The two versions of a TextBox's own paint agree for every scroll up to
      the number of lines; past it the earlier one raises on `nil` where the
      later one paints nothing. */
  lemma TextBoxSelfVersions(textLines: Result<seq<string>>, scrollY: int, innerHeight: int,
                            ox: int, oy: int, style: Style)
    ensures textLines.Err? || scrollY <= |textLines.value| ==>
      TextBoxSelfAsWritten(textLines, scrollY, innerHeight, ox, oy, style)
        == TextBoxLayout.TextBoxSelf(textLines, scrollY, innerHeight, ox, oy, style)
    ensures textLines.Ok? && scrollY > |textLines.value| ==>
      TextBoxSelfAsWritten(textLines, scrollY, innerHeight, ox, oy, style) == Trace([], Some(NilReceiver)) &&
      TextBoxLayout.TextBoxSelf(textLines, scrollY, innerHeight, ox, oy, style) == Quiet
  {
  }

  /** The later `global_x` and `global_y` place a relative child one border
      further in than the earlier ones; otherwise the two agree. */
  lemma GlobalOriginVersions(later: TermPaint.Node, early: Node, offset: int)
    requires later.x == early.x && later.y == early.y && later.position == early.position
    requires (later.parent == null) == (early.parent == null)
    requires later.parent != null ==> later.parent.x == early.parent.x && later.parent.y == early.parent.y
    ensures var shift := if later.parent != null && later.position == TermPaint.Relative then later.parent.border else 0;
      later.GlobalX(offset) == early.GlobalX(offset) + shift &&
      later.GlobalY(offset) == early.GlobalY(offset) + shift
  {
  }

  /** A node of the later version and one of the earlier version that paint
      their own part alike: the same geometry, colours, border and
      visibility, the same global origin (`GlobalOriginVersions` says when),
      the same kind, and for a TextBox the same text, a scroll within its
      lines and a global origin that is its local one (the earlier
      `cursor_to_inner` works in local coordinates). */
  ghost predicate SameOwnState(later: TermPaint.Node, early: Node)
    reads later, later.parent, early, early.parent
  {
    later.x == early.x && later.y == early.y &&
    later.width == early.width && later.height == early.height &&
    later.border == early.border && later.visible == early.visible &&
    later.backgroundColor == early.backgroundColor && later.textColor == early.textColor &&
    later.borderColor == early.borderColor && later.borderChar == early.borderChar &&
    later.GlobalX(0) == early.GlobalX(0) && later.GlobalY(0) == early.GlobalY(0) &&
    match early.kind
    case PlainNode => later.kind == TermPaint.Kind.PlainNode
    case TextBox =>
      later.kind == TermPaint.Kind.TextBox && later.text == early.text && later.scrollY == early.scrollY &&
      early.GlobalX(0) == early.x && early.GlobalY(0) == early.y &&
      var lines := TextBoxLayout.TextLines(early.text, early.InnerWidth());
      (lines.Ok? ==> early.scrollY <= |lines.value|)
  }

  /** Two trees whose nodes correspond one to one, child by child. */
  ghost predicate SameTree(later: TermPaint.Node, early: Node)
    requires later.Valid() && early.Valid()
    reads later.Repr, later.parent, early.Repr, early.parent
    decreases later.Repr
  {
    SameOwnState(later, early) && |later.children| == |early.children| &&
    forall i :: 0 <= i < |later.children| ==> SameTree(later.children[i], early.children[i])
  }

  /** Corresponding nodes paint their own part identically. */
  lemma OwnPaintVersions(later: TermPaint.Node, early: Node)
    requires SameOwnState(later, early)
    ensures later.OwnPaint() == early.OwnPaint()
  {
    var gx, gy := early.GlobalX(0), early.GlobalY(0);
    assert later.BackgroundPaint() == Background(gx, gy, early.width, early.height, early.textColor, early.backgroundColor);
    assert later.BorderPaint() ==
      if early.BorderQ() then Border(gx, gy, early.width, early.height, early.borderChar, early.borderColor) else Quiet;
    SelfPaintVersions(later, early);
  }

  lemma SelfPaintVersions(later: TermPaint.Node, early: Node)
    requires SameOwnState(later, early)
    ensures later.SelfPaint() == early.SelfPaint()
  {
    if early.kind == TextBox {
      var lines := TextBoxLayout.TextLines(early.text, early.InnerWidth());
      assert later.InnerToGlobalX(0) == early.x + early.border && later.InnerToGlobalY(0) == early.y + early.border;
      assert later.TextStyle() == early.TextStyle() && later.InnerWidth() == early.InnerWidth()
        && later.InnerHeight() == early.InnerHeight();
      TextBoxSelfVersions(lines, early.scrollY, early.InnerHeight(), early.x + early.border, early.y + early.border,
                          early.TextStyle());
    }
  }

  /** On corresponding trees the earlier `repaint` prints exactly what the
      later one prints: the changes between the versions (the parent border
      in the global origin, the local `cursor_to_inner`, the missing
      `scroll_y` guard) are the only ones that reach the screen. With
      `TermPaint.Node.PaintingIsPreorder`, the earlier walk is then the same
      pre-order paint of the visible nodes. */
  lemma {:induction false} PaintingVersions(later: TermPaint.Node, early: Node)
    requires later.Valid() && early.Valid() && SameTree(later, early)
    ensures later.Painting() == early.Painting()
    decreases later.Repr, 1
  {
    if later.visible {
      OwnPaintVersions(later, early);
      ChildrenPaintingVersions(later, early, 0);
    }
  }

  lemma {:induction false} ChildrenPaintingVersions(later: TermPaint.Node, early: Node, i: nat)
    requires later.Valid() && early.Valid() && SameTree(later, early) && i <= |later.children|
    ensures later.ChildrenPainting(i) == early.ChildrenPainting(i)
    decreases later.Repr, 0, |later.children| - i
  {
    if i < |later.children| {
      PaintingVersions(later.children[i], early.children[i]);
      ChildrenPaintingVersions(later, early, i + 1);
    }
  }
}
