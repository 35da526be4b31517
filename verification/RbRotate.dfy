/** Rotations: the memory effect of `__rb_rotate_left` and `__rb_rotate_right`, and the shape
    they leave. */
module RbRotate {
  import opened RbTree

  function Get(m: Mem, i: int): Cell {
    if 0 <= i < |m.cells| then m.cells[i] else Cell(NIL, NIL, NIL, Red)
  }

  function Put(m: Mem, i: int, c: Cell): (r: Mem)
    ensures |r.cells| == |m.cells|
  {
    if 0 <= i < |m.cells| then m.(cells := m.cells[i := c]) else m
  }

  function SetLeft(m: Mem, i: int, v: int): Mem { Put(m, i, Get(m, i).(left := v)) }
  function SetRight(m: Mem, i: int, v: int): Mem { Put(m, i, Get(m, i).(right := v)) }
  function SetParent(m: Mem, i: int, v: int): Mem { Put(m, i, Get(m, i).(parent := v)) }
  function SetColor(m: Mem, i: int, c: Color): Mem { Put(m, i, Get(m, i).(color := c)) }

  /** Replace `x` by `y` below `p`. */
  function ReplaceChild(m: Mem, p: int, x: int, y: int): Mem {
    if p == NIL then m.(root := y)
    else if Get(m, p).left == x then SetLeft(m, p, y)
    else SetRight(m, p, y)
  }

  /** The same, testing the right child first. */
  function ReplaceChildRight(m: Mem, p: int, x: int, y: int): Mem {
    if p == NIL then m.(root := y)
    else if Get(m, p).right == x then SetRight(m, p, y)
    else SetLeft(m, p, y)
  }

  function RotateLeft(m: Mem, x: int): Mem {
    var y, p := Get(m, x).right, Get(m, x).parent;
    var b := Get(m, y).left;
    var m1 := SetParent(SetRight(m, x, b), b, x);
    var m2 := SetParent(SetLeft(m1, y, x), y, p);
    SetParent(ReplaceChild(m2, p, x, y), x, y)
  }

  function RotateRight(m: Mem, y: int): Mem {
    var x, p := Get(m, y).left, Get(m, y).parent;
    var b := Get(m, x).right;
    var m1 := SetParent(SetLeft(m, y, b), b, y);
    var m2 := SetParent(SetRight(m1, x, y), x, p);
    SetParent(ReplaceChildRight(m2, p, y, x), y, x)
  }

  lemma SetParentNil(m: Mem, v: int)
    ensures SetParent(m, NIL, v) == m
  {
  }

  // ----- frames around a hole and around a moved subtree

  /** The link above the hole now holds `hole`; nothing else outside lo..hi has changed. */
  ghost predicate Relinked(m: Mem, m': Mem, ctx: Ctx, hole: int) {
    && |m'.cells| == |m.cells|
    && (match ctx
        case Top => m'.root == hole
        case InLeft(i, _, _, _) => m'.root == m.root && 0 <= i < |m.cells| && m'.cells[i] == m.cells[i].(left := hole)
        case InRight(_, i, _, _) => m'.root == m.root && 0 <= i < |m.cells| && m'.cells[i] == m.cells[i].(right := hole))
    && forall i :: 0 <= i < |m.cells| && (i < Lo(ctx) || Hi(ctx, |m.cells|) <= i) && i != Above(ctx) ==> m'.cells[i] == m.cells[i]
  }

  lemma RefillFrame(m: Mem, m': Mem, ctx: Ctx, hole: int, hole': int, g: int)
    requires TiedCtx(m, ctx, hole) && OrderedCtx(ctx, |m.cells|, g) && Lo(ctx) <= Hi(ctx, |m.cells|)
    requires Relinked(m, m', ctx, hole')
    ensures TiedCtx(m', ctx, hole')
  {
    match ctx
    case Top =>
    case InLeft(i, _, r, up) =>
      CtxRange(up, |m.cells|, g);
      TiedFrame(m, m', r, i, i + 1, Hi(up, |m.cells|), g);
      TiedCtxFrame(m, m', up, i, g);
    case InRight(l, i, _, up) =>
      CtxRange(up, |m.cells|, g);
      TiedFrame(m, m', l, i, Lo(up), i, g);
      TiedCtxFrame(m, m', up, i, g);
  }

  /** The root of `t` has the parent `q`; nothing else in lo..hi has changed. */
  ghost predicate Reparented(m: Mem, m': Mem, t: Tree, q: int, lo: int, hi: int) {
    && |m'.cells| == |m.cells|
    && (t.Node? ==> 0 <= t.i < |m.cells| && m'.cells[t.i] == m.cells[t.i].(parent := q))
    && forall i :: lo <= i < hi && 0 <= i < |m.cells| && i != Root(t) ==> m'.cells[i] == m.cells[i]
  }

  lemma ReparentFrame(m: Mem, m': Mem, t: Tree, p: int, q: int, lo: int, hi: int, g: int)
    requires Tied(m, t, p) && Ordered(t, lo, hi, g) && Reparented(m, m', t, q, lo, hi)
    ensures Tied(m', t, q)
  {
    if t.Node? {
      TiedFrame(m, m', t.l, t.i, lo, t.i, g);
      TiedFrame(m, m', t.r, t.i, t.i + 1, hi, g);
    }
  }

  // ----- rotations

  /** The parts that a rotation moves, in memory `m`: subtrees `a`, `b`, `e` around `x` and `y`. */
  ghost predicate Parts(m: Mem, a: Tree, pa: int, x: int, b: Tree, pb: int, y: int, e: Tree, pe: int, ctx: Ctx, top: int, g: int) {
    && 0 <= Lo(ctx) <= x < y < Hi(ctx, |m.cells|) <= |m.cells| && x != g && y != g
    && Ordered(a, Lo(ctx), x, g) && Ordered(b, x + 1, y, g) && Ordered(e, y + 1, Hi(ctx, |m.cells|), g)
    && OrderedCtx(ctx, |m.cells|, g)
    && Tied(m, a, pa) && Tied(m, b, pb) && Tied(m, e, pe) && TiedCtx(m, ctx, top)
  }

  lemma PartsRight(m: Mem, a: Tree, x: int, c: Color, b: Tree, y: int, d: Color, e: Tree, ctx: Ctx, g: int)
    ensures View(m, Node(a, x, c, Node(b, y, d, e)), ctx, g) <==>
      && Parts(m, a, x, x, b, y, y, e, y, ctx, x, g)
      && m.Has(x, Root(a), y, Above(ctx), c) && m.Has(y, Root(b), Root(e), x, d)
  {
    var t := Node(b, y, d, e);
    if OrderedCtx(ctx, |m.cells|, g) { CtxRange(ctx, |m.cells|, g); }
    assert Tied(m, t, x) <==> m.Has(y, Root(b), Root(e), x, d) && Tied(m, b, y) && Tied(m, e, y);
    assert Ordered(t, x + 1, Hi(ctx, |m.cells|), g) <==>
      x + 1 <= y < Hi(ctx, |m.cells|) && y != g && Ordered(b, x + 1, y, g) && Ordered(e, y + 1, Hi(ctx, |m.cells|), g);
  }

  lemma PartsLeft(m: Mem, a: Tree, x: int, c: Color, b: Tree, y: int, d: Color, e: Tree, ctx: Ctx, g: int)
    ensures View(m, Node(Node(a, x, c, b), y, d, e), ctx, g) <==>
      && Parts(m, a, x, x, b, x, y, e, y, ctx, y, g)
      && m.Has(y, x, Root(e), Above(ctx), d) && m.Has(x, Root(a), Root(b), y, c)
  {
    var t := Node(a, x, c, b);
    if OrderedCtx(ctx, |m.cells|, g) { CtxRange(ctx, |m.cells|, g); }
    assert Tied(m, t, y) <==> m.Has(x, Root(a), Root(b), y, c) && Tied(m, a, x) && Tied(m, b, x);
    assert Ordered(t, Lo(ctx), y, g) <==>
      Lo(ctx) <= x < y && x != g && Ordered(a, Lo(ctx), x, g) && Ordered(b, x + 1, y, g);
  }

  /** The four nodes a left rotation at `x` writes to are different: `y` is its right child,
      `b` the inner grandchild and `p` the parent. */
  predicate LeftTurn(m: Mem, x: int, y: int, b: int, p: int) {
    && 0 <= x < |m.cells| && 0 <= y < |m.cells| && x != y
    && m.cells[x].right == y && m.cells[x].parent == p && m.cells[y].left == b
    && (b == NIL || (0 <= b < |m.cells| && b != x && b != y))
    && (p == NIL || (0 <= p < |m.cells| && p != x && p != y && p != b))
  }

  predicate RightTurn(m: Mem, y: int, x: int, b: int, p: int) {
    && 0 <= x < |m.cells| && 0 <= y < |m.cells| && x != y
    && m.cells[y].left == x && m.cells[y].parent == p && m.cells[x].right == b
    && (b == NIL || (0 <= b < |m.cells| && b != x && b != y))
    && (p == NIL || (0 <= p < |m.cells| && p != x && p != y && p != b))
  }

  lemma RotateLeftEffect(m: Mem, x: int, y: int, b: int, p: int)
    requires LeftTurn(m, x, y, b, p)
    ensures var m' := RotateLeft(m, x);
      && |m'.cells| == |m.cells|
      && (forall n :: 0 <= n < |m.cells| && n != x && n != y && n != b && n != p ==> m'.cells[n] == m.cells[n])
      && m'.cells[x] == m.cells[x].(right := b, parent := y)
      && m'.cells[y] == m.cells[y].(left := x, parent := p)
      && (b != NIL ==> m'.cells[b] == m.cells[b].(parent := x))
      && (p == NIL ==> m'.root == y)
      && (p != NIL ==> m'.root == m.root)
      && (p != NIL && m.cells[p].left == x ==> m'.cells[p] == m.cells[p].(left := y))
      && (p != NIL && m.cells[p].left != x ==> m'.cells[p] == m.cells[p].(right := y))
  {
  }

  lemma RotateLeftCells(m: Mem, a: Tree, x: int, c: Color, b: Tree, y: int, d: Color, e: Tree, ctx: Ctx, g: int)
    requires View(m, Node(a, x, c, Node(b, y, d, e)), ctx, g)
    ensures LeftTurn(m, x, y, Root(b), Above(ctx))
    ensures var m' := RotateLeft(m, x);
      && m'.Has(x, Root(a), Root(b), y, c) && m'.Has(y, x, Root(e), Above(ctx), d)
      && Same(m, m', Lo(ctx), x) && Same(m, m', y + 1, Hi(ctx, |m.cells|))
      && Reparented(m, m', b, x, x + 1, y)
      && Relinked(m, m', ctx, y)
  {
    PartsRight(m, a, x, c, b, y, d, e, ctx, g);
    hide View, RotateLeft;
    RotateLeftEffect(m, x, y, Root(b), Above(ctx));
  }

  lemma RotateLeftView(m: Mem, a: Tree, x: int, c: Color, b: Tree, y: int, d: Color, e: Tree, ctx: Ctx, g: int)
    requires View(m, Node(a, x, c, Node(b, y, d, e)), ctx, g)
    ensures LeftTurn(m, x, y, Root(b), Above(ctx))
    ensures View(RotateLeft(m, x), Node(Node(a, x, c, b), y, d, e), ctx, g)
  {
    var m' := RotateLeft(m, x);
    PartsRight(m, a, x, c, b, y, d, e, ctx, g);
    PartsLeft(m', a, x, c, b, y, d, e, ctx, g);
    RotateLeftCells(m, a, x, c, b, y, d, e, ctx, g);
    hide LeftTurn, RotateLeft, Same, Reparented, Relinked, View, Tied, TiedCtx, Ordered, OrderedCtx, Lo, Hi;
    TiedFrame(m, m', a, x, Lo(ctx), x, g);
    TiedFrame(m, m', e, y, y + 1, Hi(ctx, |m.cells|), g);
    ReparentFrame(m, m', b, y, x, x + 1, y, g);
    RefillFrame(m, m', ctx, x, y, g);
  }

  lemma RotateRightEffect(m: Mem, y: int, x: int, b: int, p: int)
    requires RightTurn(m, y, x, b, p)
    ensures var m' := RotateRight(m, y);
      && |m'.cells| == |m.cells|
      && (forall n :: 0 <= n < |m.cells| && n != x && n != y && n != b && n != p ==> m'.cells[n] == m.cells[n])
      && m'.cells[y] == m.cells[y].(left := b, parent := x)
      && m'.cells[x] == m.cells[x].(right := y, parent := p)
      && (b != NIL ==> m'.cells[b] == m.cells[b].(parent := y))
      && (p == NIL ==> m'.root == x)
      && (p != NIL ==> m'.root == m.root)
      && (p != NIL && m.cells[p].right == y ==> m'.cells[p] == m.cells[p].(right := x))
      && (p != NIL && m.cells[p].right != y ==> m'.cells[p] == m.cells[p].(left := x))
  {
  }

  lemma RotateRightCells(m: Mem, a: Tree, x: int, c: Color, b: Tree, y: int, d: Color, e: Tree, ctx: Ctx, g: int)
    requires View(m, Node(Node(a, x, c, b), y, d, e), ctx, g)
    ensures RightTurn(m, y, x, Root(b), Above(ctx))
    ensures var m' := RotateRight(m, y);
      && m'.Has(x, Root(a), y, Above(ctx), c) && m'.Has(y, Root(b), Root(e), x, d)
      && Same(m, m', Lo(ctx), x) && Same(m, m', y + 1, Hi(ctx, |m.cells|))
      && Reparented(m, m', b, y, x + 1, y)
      && Relinked(m, m', ctx, x)
  {
    PartsLeft(m, a, x, c, b, y, d, e, ctx, g);
    hide View, RotateRight;
    RotateRightEffect(m, y, x, Root(b), Above(ctx));
  }

  lemma RotateRightView(m: Mem, a: Tree, x: int, c: Color, b: Tree, y: int, d: Color, e: Tree, ctx: Ctx, g: int)
    requires View(m, Node(Node(a, x, c, b), y, d, e), ctx, g)
    ensures RightTurn(m, y, x, Root(b), Above(ctx))
    ensures View(RotateRight(m, y), Node(a, x, c, Node(b, y, d, e)), ctx, g)
  {
    var m' := RotateRight(m, y);
    PartsLeft(m, a, x, c, b, y, d, e, ctx, g);
    PartsRight(m', a, x, c, b, y, d, e, ctx, g);
    RotateRightCells(m, a, x, c, b, y, d, e, ctx, g);
    hide RightTurn, RotateRight, Same, Reparented, Relinked, View, Tied, TiedCtx, Ordered, OrderedCtx, Lo, Hi;
    TiedFrame(m, m', a, x, Lo(ctx), x, g);
    TiedFrame(m, m', e, y, y + 1, Hi(ctx, |m.cells|), g);
    ReparentFrame(m, m', b, x, y, x + 1, y, g);
    RefillFrame(m, m', ctx, y, x, g);
  }

  // ----- moving the focus, painting

  function Fill(ctx: Ctx, t: Tree): Tree
    requires !ctx.Top?
  {
    match ctx
    case InLeft(i, c, r, _) => Node(t, i, c, r)
    case InRight(l, i, c, _) => Node(l, i, c, t)
  }

  function Sibling(ctx: Ctx): Tree
    requires !ctx.Top?
  {
    match ctx
    case InLeft(_, _, r, _) => r
    case InRight(l, _, _, _) => l
  }

  function SetSibling(ctx: Ctx, t: Tree): Ctx
    requires !ctx.Top?
  {
    match ctx
    case InLeft(i, c, _, up) => InLeft(i, c, t, up)
    case InRight(_, i, c, up) => InRight(t, i, c, up)
  }

  lemma FocusUp(m: Mem, t: Tree, ctx: Ctx, g: int)
    requires !ctx.Top?
    ensures View(m, t, ctx, g) <==> View(m, Fill(ctx, t), ctx.up, g)
  {
    if OrderedCtx(ctx.up, |m.cells|, g) { CtxRange(ctx.up, |m.cells|, g); }
  }

  lemma PaintHere(m: Mem, t: Tree, ctx: Ctx, g: int, d: Color)
    requires View(m, t, ctx, g) && t.Node?
    ensures View(SetColor(m, t.i, d), t.(c := d), ctx, g)
  {
    var m' := SetColor(m, t.i, d);
    var n := |m.cells|;
    CtxRange(ctx, n, g);
    TiedFrame(m, m', t.l, t.i, Lo(ctx), t.i, g);
    TiedFrame(m, m', t.r, t.i, t.i + 1, Hi(ctx, n), g);
    TiedCtxFrame(m, m', ctx, t.i, g);
  }

  lemma PaintUp(m: Mem, t: Tree, ctx: Ctx, g: int, d: Color)
    requires View(m, t, ctx, g) && !ctx.Top?
    ensures View(SetColor(m, ctx.i, d), t, ctx.(c := d), g)
  {
    FocusUp(m, t, ctx, g);
    PaintHere(m, Fill(ctx, t), ctx.up, g, d);
    FocusUp(SetColor(m, ctx.i, d), t, ctx.(c := d), g);
  }

  lemma PaintSibling(m: Mem, t: Tree, ctx: Ctx, g: int, d: Color)
    requires View(m, t, ctx, g) && !ctx.Top? && Sibling(ctx).Node?
    ensures View(SetColor(m, Sibling(ctx).i, d), t, SetSibling(ctx, Sibling(ctx).(c := d)), g)
  {
    var u := Sibling(ctx);
    var m' := SetColor(m, u.i, d);
    hide View, SetColor;
    FocusUp(m, t, ctx, g);
    match ctx {
      case InLeft(i, c, r, up) =>
        FocusUp(m, r, InRight(t, i, c, up), g);
        PaintHere(m, r, InRight(t, i, c, up), g, d);
        FocusUp(m', r.(c := d), InRight(t, i, c, up), g);
      case InRight(l, i, c, up) =>
        FocusUp(m, l, InLeft(i, c, t, up), g);
        PaintHere(m, l, InLeft(i, c, t, up), g, d);
        FocusUp(m', l.(c := d), InLeft(i, c, t, up), g);
    }
    FocusUp(m', t, SetSibling(ctx, u.(c := d)), g);
  }

  lemma {:induction false} PlugView(m: Mem, t: Tree, ctx: Ctx, g: int)
    requires View(m, t, ctx, g)
    ensures View(m, Plug(ctx, t), Top, g)
    decreases ctx
  {
    hide View;
    if !ctx.Top? {
      FocusUp(m, t, ctx, g);
      PlugView(m, Fill(ctx, t), ctx.up, g);
    }
  }

  // ----- what the pointers around the focus say

  lemma HereLinks(m: Mem, t: Tree, ctx: Ctx, g: int)
    requires View(m, t, ctx, g) && t.Node?
    ensures m.Has(t.i, Root(t.l), Root(t.r), Above(ctx), t.c) && Lo(ctx) <= t.i < Hi(ctx, |m.cells|)
  {
  }

  lemma UpLinks(m: Mem, t: Tree, ctx: Ctx, g: int)
    requires View(m, t, ctx, g) && !ctx.Top?
    ensures 0 <= ctx.i < |m.cells| && m.cells[ctx.i].parent == Above(ctx.up) && m.cells[ctx.i].color == ctx.c
    ensures ctx.InLeft? ==> m.cells[ctx.i].left == Root(t) && m.cells[ctx.i].right == Root(ctx.r)
    ensures ctx.InRight? ==> m.cells[ctx.i].left == Root(ctx.l) && m.cells[ctx.i].right == Root(t)
    ensures t.Leaf? || t.i < ctx.i || ctx.i < t.i
  {
    FocusUp(m, t, ctx, g);
    HereLinks(m, Fill(ctx, t), ctx.up, g);
  }

  lemma SiblingLinks(m: Mem, t: Tree, ctx: Ctx, g: int)
    requires View(m, t, ctx, g) && !ctx.Top?
    ensures var u := Sibling(ctx);
      && (u.Node? ==> m.Has(u.i, Root(u.l), Root(u.r), ctx.i, u.c))
      && (ctx.InLeft? && u.Node? ==> ctx.i < u.i)
      && (ctx.InRight? && u.Node? ==> u.i < ctx.i)
  {
  }

  lemma LeftIsFocus(m: Mem, t: Tree, ctx: Ctx, g: int)
    requires View(m, t, ctx, g) && !ctx.Top? && t.Node?
    ensures m.cells[ctx.i].left == t.i <==> ctx.InLeft?
    ensures m.cells[ctx.i].right == t.i <==> ctx.InRight?
  {
    UpLinks(m, t, ctx, g);
    SiblingLinks(m, t, ctx, g);
    FocusUp(m, t, ctx, g);
    HereLinks(m, t, ctx, g);
  }

  lemma Nephews(m: Mem, t: Tree, ctx: Ctx, g: int)
    requires View(m, t, ctx, g) && !ctx.Top? && Sibling(ctx).Node?
    ensures var Node(l, o, _, r) := Sibling(ctx);
      && (l.Node? ==> m.Has(l.i, Root(l.l), Root(l.r), o, l.c))
      && (r.Node? ==> m.Has(r.i, Root(r.l), Root(r.r), o, r.c))
  {
    var o := Sibling(ctx);
    assert Tied(m, o, ctx.i);
    assert Tied(m, o.l, o.i) && Tied(m, o.r, o.i);
  }
}
