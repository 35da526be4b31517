/** Who points at a node: its parent and its children, and nobody else. */
module RbReplace {
  import opened RbTree

  ghost predicate Outside(i: int, lo: int, hi: int) { i < lo || hi <= i }

  /** Inside a tree with the root `root`, links stay inside, but for the parent link of the root. */
  ghost predicate InnerOk(m: Mem, lo: int, hi: int, root: int, p: int)
    requires 0 <= lo && hi <= |m.cells|
  {
    forall i :: lo <= i < hi ==> var c := m.cells[i];
      && (c.left == NIL || lo <= c.left < hi) && (c.right == NIL || lo <= c.right < hi)
      && (lo <= c.parent < hi || (i == root && c.parent == p))
  }

  lemma {:induction false} InnerLinks(m: Mem, t: Tree, p: int, lo: int, hi: int)
    requires Tied(m, t, p) && Ordered(t, lo, hi, -1) && 0 <= lo && hi <= |m.cells|
    ensures InnerOk(m, lo, hi, Root(t), p) && (t.Node? ==> lo <= t.i < hi)
  {
    match t
    case Leaf =>
    case Node(l, i, _, r) =>
      InnerLinks(m, l, i, lo, i);
      InnerLinks(m, r, i, i + 1, hi);
  }

  /** Around a hole below `above`, which links to `hole`, all other links stay outside. */
  ghost predicate OuterOk(m: Mem, lo: int, hi: int, above: int, hole: int) {
    && Outside(above, lo, hi)
    && forall i :: 0 <= i < |m.cells| && Outside(i, lo, hi) ==> var c := m.cells[i];
      && (Outside(c.left, lo, hi) || (i == above && c.left == hole))
      && (Outside(c.right, lo, hi) || (i == above && c.right == hole))
      && Outside(c.parent, lo, hi)
  }

  lemma OuterInLeft(m: Mem, lo: int, hi: int, above: int, i: int, hole: int, root: int)
    requires 0 <= lo <= i < hi <= |m.cells| && OuterOk(m, lo, hi, above, i) && InnerOk(m, i + 1, hi, root, i)
    requires var c := m.cells[i]; c.left == hole && (c.right == NIL || i < c.right < hi) && c.parent == above
    ensures OuterOk(m, lo, i, i, hole)
  {
  }

  lemma OuterInRight(m: Mem, lo: int, hi: int, above: int, i: int, hole: int, root: int)
    requires 0 <= lo <= i < hi <= |m.cells| && OuterOk(m, lo, hi, above, i) && InnerOk(m, lo, i, root, i)
    requires var c := m.cells[i]; c.right == hole && (c.left == NIL || lo <= c.left < i) && c.parent == above
    ensures OuterOk(m, i + 1, hi, i, hole)
  {
  }

  lemma {:induction false} OuterLinks(m: Mem, ctx: Ctx, hole: int)
    requires TiedCtx(m, ctx, hole) && OrderedCtx(ctx, |m.cells|, -1)
    ensures 0 <= Lo(ctx) && Hi(ctx, |m.cells|) <= |m.cells|
    ensures OuterOk(m, Lo(ctx), Hi(ctx, |m.cells|), Above(ctx), hole)
    decreases ctx
  {
    hide InnerOk;
    var n := |m.cells|;
    match ctx
    case Top =>
    case InLeft(i, _, r, up) =>
      OuterLinks(m, up, i);
      InnerLinks(m, r, i, i + 1, Hi(up, n));
      hide OuterOk;
      OuterInLeft(m, Lo(up), Hi(up, n), Above(up), i, hole, Root(r));
    case InRight(l, i, _, up) =>
      OuterLinks(m, up, i);
      InnerLinks(m, l, i, Lo(up), i);
      hide OuterOk;
      OuterInRight(m, Lo(up), Hi(up, n), Above(up), i, hole, Root(l));
  }

  lemma OnlyNeighbours(m: Mem, t: Tree, ctx: Ctx)
    requires View(m, t, ctx, -1) && t.Node? && 0 <= t.i < |m.cells|
    ensures forall i :: 0 <= i < |m.cells| ==> var c := m.cells[i];
      && (c.left == t.i || c.right == t.i ==> i == m.cells[t.i].parent)
      && (c.parent == t.i ==> i == m.cells[t.i].left || i == m.cells[t.i].right)
    ensures m.cells[t.i].left != t.i && m.cells[t.i].right != t.i && m.cells[t.i].parent != t.i
  {
    OuterLinks(m, ctx, t.i);
    InnerLinks(m, t.l, t.i, Lo(ctx), t.i);
    InnerLinks(m, t.r, t.i, t.i + 1, Hi(ctx, |m.cells|));
  }

  /** The parent has the node on one side only. */
  lemma OneSide(m: Mem, t: Tree, ctx: Ctx)
    requires View(m, t, ctx, -1) && t.Node? && 0 <= t.i < |m.cells|
    ensures !ctx.Top? ==> 0 <= ctx.i < |m.cells| && m.cells[t.i].parent == ctx.i
    ensures !ctx.Top? ==> !(m.cells[ctx.i].left == t.i && m.cells[ctx.i].right == t.i)
    ensures ctx.Top? ==> m.cells[t.i].parent == NIL
  {
    match ctx
    case Top =>
    case InLeft(i, _, r, up) =>
      OuterLinks(m, up, i);
      InnerLinks(m, r, i, i + 1, Hi(up, |m.cells|));
    case InRight(l, i, _, up) =>
      OuterLinks(m, up, i);
      InnerLinks(m, l, i, Lo(up), i);
  }

  /** The neighbours of a node point back at it. */
  lemma NeighboursPointBack(m: Mem, t: Tree, ctx: Ctx)
    requires View(m, t, ctx, -1) && t.Node? && 0 <= t.i < |m.cells|
    ensures var c := m.cells[t.i];
      && (c.parent != NIL ==> 0 <= c.parent < |m.cells| && (m.cells[c.parent].left == t.i || m.cells[c.parent].right == t.i))
      && (c.left != NIL ==> 0 <= c.left < |m.cells| && m.cells[c.left].parent == t.i)
      && (c.right != NIL ==> 0 <= c.right < |m.cells| && m.cells[c.right].parent == t.i)
  {
    assert Tied(m, t, Above(ctx)) && TiedCtx(m, ctx, t.i);
    if t.l.Node? { assert Tied(m, t.l, t.i); }
    if t.r.Node? { assert Tied(m, t.r, t.i); }
  }

  /** The root pointer points at the node without a parent. */
  lemma {:induction false} RootOutside(m: Mem, t: Tree, ctx: Ctx)
    requires View(m, t, ctx, -1) && t.Node? && 0 <= t.i < |m.cells|
    ensures m.cells[t.i].parent == NIL <==> m.root == t.i
  {
    OuterLinks(m, ctx, t.i);
    if !ctx.Top? { RootAbove(m, ctx, t.i, Lo(ctx), Hi(ctx, |m.cells|)); }
  }

  lemma {:induction false} RootAbove(m: Mem, ctx: Ctx, hole: int, lo: int, hi: int)
    requires TiedCtx(m, ctx, hole) && OrderedCtx(ctx, |m.cells|, -1) && !ctx.Top?
    requires Lo(ctx) <= lo <= hi <= Hi(ctx, |m.cells|)
    ensures Above(ctx) != NIL && (m.root < Lo(ctx) || Hi(ctx, |m.cells|) <= m.root)
    decreases ctx
  {
    OuterLinks(m, ctx, hole);
    if !ctx.up.Top? { RootAbove(m, ctx.up, ctx.i, Lo(ctx.up), Hi(ctx.up, |m.cells|)); }
  }
}
