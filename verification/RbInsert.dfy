/** `rb_insert_color`: what each case of the insert fix-up does to memory and to the shape. */
module RbInsert {
  import opened RbTree
  import opened RbRotate
  import opened RbBalance

  /** The loop invariant: a red node `t`, everything else red-black except that its parent may be red. */
  ghost predicate Inserting(m: Mem, t: Tree, ctx: Ctx, k: int) {
    View(m, t, ctx, -1) && IsRed(t) && RB(t, k) && RBCtx(ctx, k)
  }

  /** Parent and uncle black, grandparent red. */
  ghost function Recoloured(t: Tree, ctx: Ctx): (r: Tree)
    requires !ctx.Top? && !ctx.up.Top?
    ensures r.Node? && r.i == ctx.up.i
  {
    Fill(SetSibling(ctx.up.(c := Red), Paint(Sibling(ctx.up), Black)), Fill(ctx.(c := Black), t))
  }

  /** Red uncle: move the red node two levels up. */
  lemma Recolour(m: Mem, t: Tree, ctx: Ctx, k: int)
    requires Inserting(m, t, ctx, k) && UpRed(ctx) && !ctx.up.Top? && IsRed(Sibling(ctx.up))
    ensures
      var m' := SetColor(SetColor(SetColor(m, Sibling(ctx.up).i, Black), ctx.i, Black), ctx.up.i, Red);
      Inserting(m', Recoloured(t, ctx), ctx.up.up, k + 1)
  {
    var up, u := ctx.up, Sibling(ctx.up);
    var m1 := SetColor(m, u.i, Black);
    var m2 := SetColor(m1, ctx.i, Black);
    var m3 := SetColor(m2, up.i, Red);
    var up' := SetSibling(up, u.(c := Black));
    var p := Fill(ctx, t);
    assert RBCtx(up, k) && up.c == Black && RBCtx(up.up, k + 1) && RB(u, k);
    assert RB(p.(c := Black), k + 1) && RB(u.(c := Black), k + 1);
    assert View(m, t, ctx, -1);
    hide View, SetColor;
    FocusUp(m, t, ctx, -1);
    PaintSibling(m, p, up, -1, Black);
    PaintHere(m1, p, up', -1, Black);
    assert p.(c := Black) == Fill(ctx.(c := Black), t);
    PaintUp(m2, p.(c := Black), up', -1, Red);
    FocusUp(m3, p.(c := Black), up'.(c := Red), -1);
  }

  /** The node is an inner grandchild: rotate it above its parent, which becomes the node. */
  lemma TurnOutLeft(m: Mem, l: Tree, p: int, b: Tree, n: int, e: Tree, up: Ctx, k: int)
    requires Inserting(m, Node(b, n, Red, e), InRight(l, p, Red, up), k)
    ensures LeftTurn(m, p, n, Root(b), Above(up))
    ensures Inserting(RotateLeft(m, p), Node(l, p, Red, b), InLeft(n, Red, e, up), k)
  {
    var m' := RotateLeft(m, p);
    assert View(m, Node(b, n, Red, e), InRight(l, p, Red, up), -1);
    hide View, LeftTurn, RotateLeft;
    FocusUp(m, Node(b, n, Red, e), InRight(l, p, Red, up), -1);
    RotateLeftView(m, l, p, Red, b, n, Red, e, up, -1);
    FocusUp(m', Node(l, p, Red, b), InLeft(n, Red, e, up), -1);
  }

  lemma TurnOutRight(m: Mem, b: Tree, n: int, e: Tree, p: int, r: Tree, up: Ctx, k: int)
    requires Inserting(m, Node(b, n, Red, e), InLeft(p, Red, r, up), k)
    ensures RightTurn(m, p, n, Root(e), Above(up))
    ensures Inserting(RotateRight(m, p), Node(e, p, Red, r), InRight(b, n, Red, up), k)
  {
    var m' := RotateRight(m, p);
    assert View(m, Node(b, n, Red, e), InLeft(p, Red, r, up), -1);
    hide View, RightTurn, RotateRight;
    FocusUp(m, Node(b, n, Red, e), InLeft(p, Red, r, up), -1);
    RotateRightView(m, b, n, Red, e, p, Red, r, up, -1);
    FocusUp(m', Node(e, p, Red, r), InRight(b, n, Red, up), -1);
  }

  /** Black uncle, outer grandchild: the parent takes the place of the grandparent. */
  lemma LiftLeft(m: Mem, t: Tree, p: int, b: Tree, gp: int, u: Tree, up: Ctx, k: int)
    requires Inserting(m, t, InLeft(p, Red, b, InLeft(gp, Black, u, up)), k) && !IsRed(u)
    ensures RightTurn(SetColor(SetColor(m, p, Black), gp, Red), gp, p, Root(b), Above(up))
    ensures Inserting(RotateRight(SetColor(SetColor(m, p, Black), gp, Red), gp), t, InLeft(p, Black, Node(b, gp, Red, u), up), k)
  {
    var m1 := SetColor(m, p, Black);
    var m2 := SetColor(m1, gp, Red);
    var m3 := RotateRight(m2, gp);
    assert RBCtx(InLeft(gp, Black, u, up), k) && RB(Node(b, gp, Red, u), k);
    assert View(m, t, InLeft(p, Red, b, InLeft(gp, Black, u, up)), -1);
    hide View, RightTurn, RotateRight, SetColor;
    PaintUp(m, t, InLeft(p, Red, b, InLeft(gp, Black, u, up)), -1, Black);
    FocusUp(m1, t, InLeft(p, Black, b, InLeft(gp, Black, u, up)), -1);
    PaintUp(m1, Node(t, p, Black, b), InLeft(gp, Black, u, up), -1, Red);
    FocusUp(m2, Node(t, p, Black, b), InLeft(gp, Red, u, up), -1);
    RotateRightView(m2, t, p, Black, b, gp, Red, u, up, -1);
    FocusUp(m3, t, InLeft(p, Black, Node(b, gp, Red, u), up), -1);
  }

  lemma LiftRight(m: Mem, t: Tree, b: Tree, p: int, u: Tree, gp: int, up: Ctx, k: int)
    requires Inserting(m, t, InRight(b, p, Red, InRight(u, gp, Black, up)), k) && !IsRed(u)
    ensures LeftTurn(SetColor(SetColor(m, p, Black), gp, Red), gp, p, Root(b), Above(up))
    ensures Inserting(RotateLeft(SetColor(SetColor(m, p, Black), gp, Red), gp), t, InRight(Node(u, gp, Red, b), p, Black, up), k)
  {
    var m1 := SetColor(m, p, Black);
    var m2 := SetColor(m1, gp, Red);
    var m3 := RotateLeft(m2, gp);
    assert RBCtx(InRight(u, gp, Black, up), k) && RB(Node(u, gp, Red, b), k);
    assert View(m, t, InRight(b, p, Red, InRight(u, gp, Black, up)), -1);
    hide View, LeftTurn, RotateLeft, SetColor;
    PaintUp(m, t, InRight(b, p, Red, InRight(u, gp, Black, up)), -1, Black);
    FocusUp(m1, t, InRight(b, p, Black, InRight(u, gp, Black, up)), -1);
    PaintUp(m1, Node(b, p, Black, t), InRight(u, gp, Black, up), -1, Red);
    FocusUp(m2, Node(b, p, Black, t), InRight(u, gp, Red, up), -1);
    RotateLeftView(m2, u, gp, Red, b, p, Black, t, up, -1);
    FocusUp(m3, t, InRight(Node(u, gp, Red, b), p, Black, up), -1);
  }

  /** What the fix-up can read around the focus. */
  lemma Links(m: Mem, t: Tree, ctx: Ctx, k: int)
    requires Inserting(m, t, ctx, k)
    ensures 0 <= t.i < |m.cells| && m.cells[t.i].parent == Above(ctx)
    ensures !ctx.Top? ==>
      && 0 <= ctx.i < |m.cells| && m.cells[ctx.i].color == ctx.c && m.cells[ctx.i].parent == Above(ctx.up)
      && (m.cells[ctx.i].left == t.i <==> ctx.InLeft?) && (m.cells[ctx.i].right == t.i <==> ctx.InRight?)
  {
    HereLinks(m, t, ctx, -1);
    if !ctx.Top? {
      UpLinks(m, t, ctx, -1);
      LeftIsFocus(m, t, ctx, -1);
    }
  }

  lemma GrandLinks(m: Mem, t: Tree, ctx: Ctx, k: int)
    requires Inserting(m, t, ctx, k) && UpRed(ctx)
    ensures !ctx.up.Top? && !UpRed(ctx.up)
    ensures 0 <= ctx.up.i < |m.cells|
    ensures m.cells[ctx.up.i].left == ctx.i <==> ctx.up.InLeft?
    ensures m.cells[ctx.up.i].right == ctx.i <==> ctx.up.InRight?
    ensures ctx.up.InLeft? ==> m.cells[ctx.up.i].right == Root(ctx.up.r)
    ensures ctx.up.InRight? ==> m.cells[ctx.up.i].left == Root(ctx.up.l)
    ensures var u := Sibling(ctx.up); u.Node? ==> 0 <= u.i < |m.cells| && m.cells[u.i].color == u.c
  {
    FocusUp(m, t, ctx, -1);
    UpLinks(m, Fill(ctx, t), ctx.up, -1);
    LeftIsFocus(m, Fill(ctx, t), ctx.up, -1);
    SiblingLinks(m, Fill(ctx, t), ctx.up, -1);
  }

  /** The loop has ended: painting the root black completes the tree. */
  lemma Finish(m: Mem, t: Tree, ctx: Ctx, k: int)
    requires Inserting(m, t, ctx, k) && !UpRed(ctx)
    ensures var whole := Paint(Plug(ctx, t), Black);
      && whole.Node? && m.root == whole.i && 0 <= m.root < |m.cells|
      && View(SetColor(m, m.root, Black), whole, Top, -1) && RedBlack(whole)
  {
    var whole := Plug(ctx, t);
    PlugView(m, t, ctx, -1);
    PlugNode(ctx, t);
    HereLinks(m, whole, Top, -1);
    PaintHere(m, whole, Top, -1, Black);
    if ctx.Top? {
      assert RB(Paint(t, Black), k + 1);
    } else {
      PlugRB(ctx, t, k);
    }
  }

  lemma {:induction false} PlugNode(ctx: Ctx, t: Tree)
    requires t.Node?
    ensures Plug(ctx, t).Node?
    decreases ctx
  {
    if !ctx.Top? { PlugNode(ctx.up, Fill(ctx, t)); }
  }
}
