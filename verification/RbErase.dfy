/** `__rb_erase_color`: what each case of the delete fix-up does to memory and to the shape. */
module RbErase {
  import opened RbTree
  import opened RbRotate
  import opened RbBalance

  /** The loop invariant: the hole of `ctx` wants black height `k + 1`, but `t` only has `k`. */
  ghost predicate Erasing(m: Mem, t: Tree, ctx: Ctx, k: int, g: int) {
    View(m, t, ctx, g) && AlmostRB(t, k) && RBCtx(ctx, k + 1)
  }

  ghost predicate Erased(m: Mem, t: Tree, g: int) {
    View(m, t, Top, g) && RedBlack(t)
  }

  lemma AlmostHeight(t: Tree, k: int)
    requires AlmostRB(t, k) && !IsRed(t)
    ensures RB(t, k) && k >= 0
  {
    RBHeight(t, k);
  }

  // ----- the short side is the left one

  /** Red sibling: rotate it above the parent; the short side goes one level down below a red parent. */
  lemma SinkLeft(m: Mem, t: Tree, p: int, c: Color, a: Tree, o: int, b: Tree, up: Ctx, k: int, g: int)
    requires Erasing(m, t, InLeft(p, c, Node(a, o, Red, b), up), k, g) && !IsRed(t)
    ensures c == Black && LeftTurn(SetColor(SetColor(m, o, Black), p, Red), p, o, Root(a), Above(up))
    ensures !IsRed(a) && a.Node?
    ensures Erasing(RotateLeft(SetColor(SetColor(m, o, Black), p, Red), p), t, InLeft(p, Red, a, InLeft(o, Black, b, up)), k, g)
  {
    var m1 := SetColor(m, o, Black);
    var m2 := SetColor(m1, p, Red);
    var m3 := RotateLeft(m2, p);
    var ctx := InLeft(p, c, Node(a, o, Red, b), up);
    assert RB(Node(a, o, Red, b), k + 1) && RBCtx(up, k + 2);
    AlmostHeight(t, k);
    RBHeight(a, k + 1);
    assert View(m, t, ctx, g);
    assert RBCtx(InLeft(o, Black, b, up), k + 1);
    hide View, LeftTurn, RotateLeft, SetColor;
    PaintSibling(m, t, ctx, g, Black);
    PaintUp(m1, t, InLeft(p, c, Node(a, o, Black, b), up), g, Red);
    FocusUp(m2, t, InLeft(p, Red, Node(a, o, Black, b), up), g);
    RotateLeftView(m2, t, p, Red, a, o, Black, b, up, g);
    FocusUp(m3, t, InLeft(p, Red, a, InLeft(o, Black, b, up)), g);
    FocusUp(m3, Node(t, p, Red, a), InLeft(o, Black, b, up), g);
  }

  /** Black sibling with black children: the shortage moves up to the parent. */
  lemma PassLeft(m: Mem, t: Tree, p: int, c: Color, a: Tree, o: int, b: Tree, up: Ctx, k: int, g: int)
    requires Erasing(m, t, InLeft(p, c, Node(a, o, Black, b), up), k, g) && !IsRed(t) && !IsRed(a) && !IsRed(b)
    ensures Erasing(SetColor(m, o, Red), Node(t, p, c, Node(a, o, Red, b)), up, Up(c, k), g)
  {
    var m1 := SetColor(m, o, Red);
    var ctx := InLeft(p, c, Node(a, o, Black, b), up);
    assert RB(Node(a, o, Black, b), k + 1);
    assert RB(Node(a, o, Red, b), k);
    assert View(m, t, ctx, g);
    hide View, SetColor;
    PaintSibling(m, t, ctx, g, Red);
    FocusUp(m1, t, InLeft(p, c, Node(a, o, Red, b), up), g);
  }

  lemma TurnLeftView(m: Mem, t: Tree, p: int, c: Color, a1: Tree, x: int, a2: Tree, o: int, b: Tree, up: Ctx, g: int)
    requires View(m, t, InLeft(p, c, Node(Node(a1, x, Red, a2), o, Black, b), up), g)
    ensures RightTurn(SetColor(SetColor(m, x, Black), o, Red), o, x, Root(a2), p)
    ensures View(RotateRight(SetColor(SetColor(m, x, Black), o, Red), o), t, InLeft(p, c, Node(a1, x, Black, Node(a2, o, Red, b)), up), g)
  {
    hide View, RightTurn, RotateRight, SetColor;
    var m1 := SetColor(m, x, Black);
    var m2 := SetColor(m1, o, Red);
    var m3 := RotateRight(m2, o);
    var sib := Node(Node(a1, x, Red, a2), o, Black, b);
    var ctx := InLeft(p, c, sib, up);
    var there := InRight(t, p, c, up);
    FocusUp(m, t, ctx, g);
    FocusUp(m, sib, there, g);
    FocusUp(m, Node(a1, x, Red, a2), InLeft(o, Black, b, there), g);
    PaintHere(m, Node(a1, x, Red, a2), InLeft(o, Black, b, there), g, Black);
    PaintUp(m1, Node(a1, x, Black, a2), InLeft(o, Black, b, there), g, Red);
    FocusUp(m2, Node(a1, x, Black, a2), InLeft(o, Red, b, there), g);
    RotateRightView(m2, a1, x, Black, a2, o, Red, b, there, g);
    FocusUp(m3, Node(a1, x, Black, Node(a2, o, Red, b)), there, g);
    FocusUp(m3, t, InLeft(p, c, Node(a1, x, Black, Node(a2, o, Red, b)), up), g);
  }

  lemma TurnLeftBalance(p: int, c: Color, a1: Tree, x: int, a2: Tree, o: int, b: Tree, up: Ctx, k: int)
    requires RBCtx(InLeft(p, c, Node(Node(a1, x, Red, a2), o, Black, b), up), k) && !IsRed(b)
    ensures RBCtx(InLeft(p, c, Node(a1, x, Black, Node(a2, o, Red, b)), up), k)
  {
    assert RB(Node(Node(a1, x, Red, a2), o, Black, b), k);
    assert RB(Node(a1, x, Red, a2), k - 1);
    assert RB(Node(a2, o, Red, b), k - 1);
  }

  /** Black sibling whose outer child is black: turn its red inner child outwards. */
  lemma TurnLeft(m: Mem, t: Tree, p: int, c: Color, a1: Tree, x: int, a2: Tree, o: int, b: Tree, up: Ctx, k: int, g: int)
    requires Erasing(m, t, InLeft(p, c, Node(Node(a1, x, Red, a2), o, Black, b), up), k, g) && !IsRed(t) && !IsRed(b)
    ensures RightTurn(SetColor(SetColor(m, x, Black), o, Red), o, x, Root(a2), p)
    ensures Erasing(RotateRight(SetColor(SetColor(m, x, Black), o, Red), o), t, InLeft(p, c, Node(a1, x, Black, Node(a2, o, Red, b)), up), k, g)
  {
    hide View, RightTurn, RotateRight, SetColor, RB, RBCtx, AlmostRB;
    TurnLeftView(m, t, p, c, a1, x, a2, o, b, up, g);
    TurnLeftBalance(p, c, a1, x, a2, o, b, up, k + 1);
  }

  /** Black sibling whose outer child is red: one rotation repairs the tree. */
  lemma RepairLeftBalance(t: Tree, p: int, c: Color, a: Tree, o: int, b: Tree, up: Ctx, k: int)
    requires AlmostRB(t, k) && RBCtx(InLeft(p, c, Node(a, o, Black, b), up), k + 1) && !IsRed(t) && IsRed(b)
    ensures RedBlack(Plug(up, Node(Node(t, p, Black, a), o, c, Paint(b, Black))))
  {
    assert RB(Node(a, o, Black, b), k + 1) && RB(b, k) && RB(a, k);
    assert RB(Paint(b, Black), k + 1);
    assert RB(Node(t, p, Black, a), k + 1);
    PlugRB(up, Node(Node(t, p, Black, a), o, c, Paint(b, Black)), Up(c, k + 1));
  }

  lemma RepairLeft(m: Mem, t: Tree, p: int, c: Color, a: Tree, o: int, b: Tree, up: Ctx, k: int, g: int)
    requires Erasing(m, t, InLeft(p, c, Node(a, o, Black, b), up), k, g) && !IsRed(t) && IsRed(b)
    ensures var m3 := SetColor(SetColor(SetColor(m, o, c), p, Black), b.i, Black);
      && LeftTurn(m3, p, o, Root(a), Above(up))
      && Erased(RotateLeft(m3, p), Plug(up, Node(Node(t, p, Black, a), o, c, Paint(b, Black))), g)
  {
    var m1 := SetColor(m, o, c);
    var m2 := SetColor(m1, p, Black);
    var m3 := SetColor(m2, b.i, Black);
    var m4 := RotateLeft(m3, p);
    var ctx := InLeft(p, c, Node(a, o, Black, b), up);
    var b' := Paint(b, Black);
    var done := Node(Node(t, p, Black, a), o, c, b');
    RepairLeftBalance(t, p, c, a, o, b, up, k);
    assert View(m, t, ctx, g);
    hide View, LeftTurn, RotateLeft, SetColor, RedBlack, RBCtx, AlmostRB;
    PaintSibling(m, t, ctx, g, c);
    PaintUp(m1, t, InLeft(p, c, Node(a, o, c, b), up), g, Black);
    FocusUp(m2, t, InLeft(p, Black, Node(a, o, c, b), up), g);
    PaintFarLeft(m2, t, p, a, o, c, b, up, g);
    RotateLeftView(m3, t, p, Black, a, o, c, b', up, g);
    PlugView(m4, done, up, g);
  }

  lemma PaintFarLeft(m: Mem, t: Tree, p: int, a: Tree, o: int, c: Color, b: Tree, up: Ctx, g: int)
    requires View(m, Node(t, p, Black, Node(a, o, c, b)), up, g) && b.Node?
    ensures View(SetColor(m, b.i, Black), Node(t, p, Black, Node(a, o, c, Paint(b, Black))), up, g)
  {
    var m' := SetColor(m, b.i, Black);
    var there := InRight(t, p, Black, up);
    hide View, SetColor;
    FocusUp(m, Node(a, o, c, b), there, g);
    FocusUp(m, b, InRight(a, o, c, there), g);
    PaintHere(m, b, InRight(a, o, c, there), g, Black);
    FocusUp(m', Paint(b, Black), InRight(a, o, c, there), g);
    FocusUp(m', Node(a, o, c, Paint(b, Black)), there, g);
  }

  // ----- the short side is the right one

  /** Red sibling: rotate it above the parent; the short side goes one level down below a red parent. */
  lemma SinkRight(m: Mem, t: Tree, p: int, c: Color, a: Tree, o: int, b: Tree, up: Ctx, k: int, g: int)
    requires Erasing(m, t, InRight(Node(b, o, Red, a), p, c, up), k, g) && !IsRed(t)
    ensures c == Black && RightTurn(SetColor(SetColor(m, o, Black), p, Red), p, o, Root(a), Above(up))
    ensures !IsRed(a) && a.Node?
    ensures Erasing(RotateRight(SetColor(SetColor(m, o, Black), p, Red), p), t, InRight(a, p, Red, InRight(b, o, Black, up)), k, g)
  {
    var m1 := SetColor(m, o, Black);
    var m2 := SetColor(m1, p, Red);
    var m3 := RotateRight(m2, p);
    var ctx := InRight(Node(b, o, Red, a), p, c, up);
    assert RB(Node(b, o, Red, a), k + 1) && RBCtx(up, k + 2);
    AlmostHeight(t, k);
    RBHeight(a, k + 1);
    assert View(m, t, ctx, g);
    assert RBCtx(InRight(b, o, Black, up), k + 1);
    hide View, RightTurn, RotateRight, SetColor;
    PaintSibling(m, t, ctx, g, Black);
    PaintUp(m1, t, InRight(Node(b, o, Black, a), p, c, up), g, Red);
    FocusUp(m2, t, InRight(Node(b, o, Black, a), p, Red, up), g);
    RotateRightView(m2, b, o, Black, a, p, Red, t, up, g);
    FocusUp(m3, t, InRight(a, p, Red, InRight(b, o, Black, up)), g);
    FocusUp(m3, Node(a, p, Red, t), InRight(b, o, Black, up), g);
  }

  /** Black sibling with black children: the shortage moves up to the parent. */
  lemma PassRight(m: Mem, t: Tree, p: int, c: Color, a: Tree, o: int, b: Tree, up: Ctx, k: int, g: int)
    requires Erasing(m, t, InRight(Node(b, o, Black, a), p, c, up), k, g) && !IsRed(t) && !IsRed(a) && !IsRed(b)
    ensures Erasing(SetColor(m, o, Red), Node(Node(b, o, Red, a), p, c, t), up, Up(c, k), g)
  {
    var m1 := SetColor(m, o, Red);
    var ctx := InRight(Node(b, o, Black, a), p, c, up);
    assert RB(Node(b, o, Black, a), k + 1);
    assert RB(Node(b, o, Red, a), k);
    assert View(m, t, ctx, g);
    hide View, SetColor;
    PaintSibling(m, t, ctx, g, Red);
    FocusUp(m1, t, InRight(Node(b, o, Red, a), p, c, up), g);
  }

  lemma TurnRightView(m: Mem, t: Tree, p: int, c: Color, a1: Tree, x: int, a2: Tree, o: int, b: Tree, up: Ctx, g: int)
    requires View(m, t, InRight(Node(b, o, Black, Node(a2, x, Red, a1)), p, c, up), g)
    ensures LeftTurn(SetColor(SetColor(m, x, Black), o, Red), o, x, Root(a2), p)
    ensures View(RotateLeft(SetColor(SetColor(m, x, Black), o, Red), o), t, InRight(Node(Node(b, o, Red, a2), x, Black, a1), p, c, up), g)
  {
    hide View, LeftTurn, RotateLeft, SetColor;
    var m1 := SetColor(m, x, Black);
    var m2 := SetColor(m1, o, Red);
    var m3 := RotateLeft(m2, o);
    var sib := Node(b, o, Black, Node(a2, x, Red, a1));
    var ctx := InRight(sib, p, c, up);
    var there := InLeft(p, c, t, up);
    FocusUp(m, t, ctx, g);
    FocusUp(m, sib, there, g);
    FocusUp(m, Node(a2, x, Red, a1), InRight(b, o, Black, there), g);
    PaintHere(m, Node(a2, x, Red, a1), InRight(b, o, Black, there), g, Black);
    PaintUp(m1, Node(a2, x, Black, a1), InRight(b, o, Black, there), g, Red);
    FocusUp(m2, Node(a2, x, Black, a1), InRight(b, o, Red, there), g);
    RotateLeftView(m2, b, o, Red, a2, x, Black, a1, there, g);
    FocusUp(m3, Node(Node(b, o, Red, a2), x, Black, a1), there, g);
    FocusUp(m3, t, InRight(Node(Node(b, o, Red, a2), x, Black, a1), p, c, up), g);
  }

  lemma TurnRightBalance(p: int, c: Color, a1: Tree, x: int, a2: Tree, o: int, b: Tree, up: Ctx, k: int)
    requires RBCtx(InRight(Node(b, o, Black, Node(a2, x, Red, a1)), p, c, up), k) && !IsRed(b)
    ensures RBCtx(InRight(Node(Node(b, o, Red, a2), x, Black, a1), p, c, up), k)
  {
    assert RB(Node(b, o, Black, Node(a2, x, Red, a1)), k);
    assert RB(Node(a2, x, Red, a1), k - 1);
    assert RB(Node(b, o, Red, a2), k - 1);
  }

  /** Black sibling whose outer child is black: turn its red inner child outwards. */
  lemma TurnRight(m: Mem, t: Tree, p: int, c: Color, a1: Tree, x: int, a2: Tree, o: int, b: Tree, up: Ctx, k: int, g: int)
    requires Erasing(m, t, InRight(Node(b, o, Black, Node(a2, x, Red, a1)), p, c, up), k, g) && !IsRed(t) && !IsRed(b)
    ensures LeftTurn(SetColor(SetColor(m, x, Black), o, Red), o, x, Root(a2), p)
    ensures Erasing(RotateLeft(SetColor(SetColor(m, x, Black), o, Red), o), t, InRight(Node(Node(b, o, Red, a2), x, Black, a1), p, c, up), k, g)
  {
    hide View, LeftTurn, RotateLeft, SetColor, RB, RBCtx, AlmostRB;
    TurnRightView(m, t, p, c, a1, x, a2, o, b, up, g);
    TurnRightBalance(p, c, a1, x, a2, o, b, up, k + 1);
  }

  /** Black sibling whose outer child is red: one rotation repairs the tree. */
  lemma RepairRightBalance(t: Tree, p: int, c: Color, a: Tree, o: int, b: Tree, up: Ctx, k: int)
    requires AlmostRB(t, k) && RBCtx(InRight(Node(b, o, Black, a), p, c, up), k + 1) && !IsRed(t) && IsRed(b)
    ensures RedBlack(Plug(up, Node(Paint(b, Black), o, c, Node(a, p, Black, t))))
  {
    assert RB(Node(b, o, Black, a), k + 1) && RB(b, k) && RB(a, k);
    assert RB(Paint(b, Black), k + 1);
    assert RB(Node(a, p, Black, t), k + 1);
    PlugRB(up, Node(Paint(b, Black), o, c, Node(a, p, Black, t)), Up(c, k + 1));
  }

  lemma RepairRight(m: Mem, t: Tree, p: int, c: Color, a: Tree, o: int, b: Tree, up: Ctx, k: int, g: int)
    requires Erasing(m, t, InRight(Node(b, o, Black, a), p, c, up), k, g) && !IsRed(t) && IsRed(b)
    ensures var m3 := SetColor(SetColor(SetColor(m, o, c), p, Black), b.i, Black);
      && RightTurn(m3, p, o, Root(a), Above(up))
      && Erased(RotateRight(m3, p), Plug(up, Node(Paint(b, Black), o, c, Node(a, p, Black, t))), g)
  {
    var m1 := SetColor(m, o, c);
    var m2 := SetColor(m1, p, Black);
    var m3 := SetColor(m2, b.i, Black);
    var m4 := RotateRight(m3, p);
    var ctx := InRight(Node(b, o, Black, a), p, c, up);
    var b' := Paint(b, Black);
    var done := Node(b', o, c, Node(a, p, Black, t));
    RepairRightBalance(t, p, c, a, o, b, up, k);
    assert View(m, t, ctx, g);
    hide View, RightTurn, RotateRight, SetColor, RedBlack, RBCtx, AlmostRB;
    PaintSibling(m, t, ctx, g, c);
    PaintUp(m1, t, InRight(Node(b, o, c, a), p, c, up), g, Black);
    FocusUp(m2, t, InRight(Node(b, o, c, a), p, Black, up), g);
    PaintFarRight(m2, t, p, a, o, c, b, up, g);
    RotateRightView(m3, b', o, c, a, p, Black, t, up, g);
    PlugView(m4, done, up, g);
  }

  lemma PaintFarRight(m: Mem, t: Tree, p: int, a: Tree, o: int, c: Color, b: Tree, up: Ctx, g: int)
    requires View(m, Node(Node(b, o, c, a), p, Black, t), up, g) && b.Node?
    ensures View(SetColor(m, b.i, Black), Node(Node(Paint(b, Black), o, c, a), p, Black, t), up, g)
  {
    var m' := SetColor(m, b.i, Black);
    var there := InLeft(p, Black, t, up);
    hide View, SetColor;
    FocusUp(m, Node(b, o, c, a), there, g);
    FocusUp(m, b, InLeft(o, c, a, there), g);
    PaintHere(m, b, InLeft(o, c, a, there), g, Black);
    FocusUp(m', Paint(b, Black), InLeft(o, c, a, there), g);
    FocusUp(m', Node(Paint(b, Black), o, c, a), there, g);
  }

  // ----- what the fix-up reads

  lemma SiblingNode(m: Mem, t: Tree, ctx: Ctx, k: int, g: int)
    requires Erasing(m, t, ctx, k, g) && !ctx.Top? && !IsRed(t)
    ensures Sibling(ctx).Node?
    ensures IsRed(Sibling(ctx)) ==> ctx.c == Black
  {
    AlmostHeight(t, k);
    RBHeight(Sibling(ctx), k + 1);
  }

  /** The root lies outside the focus unless the focus is the whole tree. */
  lemma {:induction false} RootOutside(m: Mem, ctx: Ctx, hole: int, g: int)
    requires TiedCtx(m, ctx, hole) && OrderedCtx(ctx, |m.cells|, g)
    ensures ctx.Top? ==> m.root == hole
    ensures !ctx.Top? ==> 0 <= m.root < |m.cells| && (m.root < Lo(ctx) || Hi(ctx, |m.cells|) <= m.root)
    decreases ctx
  {
    if !ctx.Top? {
      CtxRange(ctx, |m.cells|, g);
      CtxRange(ctx.up, |m.cells|, g);
      RootOutside(m, ctx.up, ctx.i, g);
    }
  }

  lemma AtRoot(m: Mem, t: Tree, ctx: Ctx, g: int)
    requires View(m, t, ctx, g)
    ensures m.root == Root(t) <==> ctx.Top?
    ensures NIL <= Root(t) < |m.cells|
  {
    RootOutside(m, ctx, Root(t), g);
    if t.Node? { HereLinks(m, t, ctx, g); }
  }

  /** The loop has ended below the root, at a red node, or at the root. */
  lemma Finish(m: Mem, t: Tree, ctx: Ctx, k: int, g: int)
    requires Erasing(m, t, ctx, k, g) && (IsRed(t) || ctx.Top?)
    ensures t.Node? ==> Erased(SetColor(m, t.i, Black), Plug(ctx, Paint(t, Black)), g)
    ensures t.Leaf? ==> Erased(m, Plug(ctx, t), g)
  {
    PlugView(m, t, ctx, g);
    if t.Node? {
      var m' := SetColor(m, t.i, Black);
      var k' := if t.c == Red then k + 1 else k;
      assert RB(Paint(t, Black), k');
      PaintHere(m, t, ctx, g, Black);
      PlugView(m', Paint(t, Black), ctx, g);
      PlugRB(ctx, Paint(t, Black), k');
    } else {
      assert RB(Leaf, 0);
    }
  }

  lemma Repaint(m: Mem, t: Tree, g: int)
    requires Erased(m, t, g) && t.Node?
    ensures m.root == t.i && 0 <= m.root < |m.cells| && Erased(SetColor(m, t.i, Black), t, g)
  {
    PaintHere(m, t, Top, g, Black);
  }
}
