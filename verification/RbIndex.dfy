/** What the ordered indexes share: walking down from the root to a key. */
module RbIndex {
  import opened RbTree
  import opened RbBalance
  import opened RbHeap
  import R = RbRotate
  import H = RbShift

  /** A descent that has reached the subtree `t` in the surroundings `ctx`. */
  ghost predicate Walk(m: Mem, t: Tree, ctx: Ctx, k: int, whole: Tree) {
    && View(m, t, ctx, -1) && RB(t, k) && RBCtx(ctx, k)
    && (IsRed(t) ==> !ctx.Top? && !UpRed(ctx))
    && Plug(ctx, t) == whole
  }

  lemma WalkStart(root: RbRoot) returns (k: int)
    requires root.Valid()
    ensures Walk(root.mem, root.tree, Top, k, root.tree)
  {
    k :| RB(root.tree, k);
  }

  lemma WalkLeft(m: Mem, t: Tree, ctx: Ctx, k: int, whole: Tree)
    requires Walk(m, t, ctx, k, whole) && t.Node?
    ensures Walk(m, t.l, InLeft(t.i, t.c, t.r, ctx), Down(t.c, k), whole)
  {
    R.FocusUp(m, t.l, InLeft(t.i, t.c, t.r, ctx), -1);
    hide View;
  }

  lemma WalkRight(m: Mem, t: Tree, ctx: Ctx, k: int, whole: Tree)
    requires Walk(m, t, ctx, k, whole) && t.Node?
    ensures Walk(m, t.r, InRight(t.l, t.i, t.c, ctx), Down(t.c, k), whole)
  {
    R.FocusUp(m, t.r, InRight(t.l, t.i, t.c, ctx), -1);
    hide View;
  }

  /** What the descent reads: the node at the focus, or nothing at a hole. */
  lemma WalkReads(root: RbRoot, t: Tree, ctx: Ctx, k: int)
    requires root.Sync() && Walk(root.mem, t, ctx, k, root.tree)
    ensures |root.mem.cells| == |root.s| && 0 <= Lo(ctx) && Hi(ctx, |root.s|) <= |root.s|
    ensures t.Leaf? ==> Lo(ctx) == Hi(ctx, |root.s|) && At(root.s, Root(t)) == null
    ensures t.Node? ==>
      && Lo(ctx) <= t.i < Hi(ctx, |root.s|) && At(root.s, Root(t)) == root.s[t.i]
      && root.s[t.i].left == At(root.s, Root(t.l)) && root.s[t.i].right == At(root.s, Root(t.r))
  {
    root.ReadRoot();
    CtxRange(ctx, |root.mem.cells|, -1);
    if t.Node? { root.AtNode(t, ctx); }
  }

  lemma TopRange(n: int)
    ensures Lo(Top) == 0 && Hi(Top, n) == n
  {
  }

  /** One step of the descent, and what it reads there. */
  lemma StepLeft(root: RbRoot, t: Tree, ctx: Ctx, k: int)
    requires root.Sync() && Walk(root.mem, t, ctx, k, root.tree) && t.Node?
    ensures var cx := InLeft(t.i, t.c, t.r, ctx);
      && Walk(root.mem, t.l, cx, Down(t.c, k), root.tree) && Above(cx) == t.i
      && Lo(cx) == Lo(ctx) && Hi(cx, |root.s|) == t.i
      && (t.l.Leaf? ==> Lo(cx) == t.i && At(root.s, Root(t.l)) == null)
      && (t.l.Node? ==> At(root.s, Root(t.l)) != null)
  {
    WalkReads(root, t, ctx, k);
    WalkLeft(root.mem, t, ctx, k, root.tree);
    WalkReads(root, t.l, InLeft(t.i, t.c, t.r, ctx), Down(t.c, k));
  }

  lemma StepRight(root: RbRoot, t: Tree, ctx: Ctx, k: int)
    requires root.Sync() && Walk(root.mem, t, ctx, k, root.tree) && t.Node?
    ensures var cx := InRight(t.l, t.i, t.c, ctx);
      && Walk(root.mem, t.r, cx, Down(t.c, k), root.tree) && Above(cx) == t.i
      && Lo(cx) == t.i + 1 && Hi(cx, |root.s|) == Hi(ctx, |root.s|)
      && (t.r.Leaf? ==> Hi(cx, |root.s|) == t.i + 1 && At(root.s, Root(t.r)) == null)
      && (t.r.Node? ==> At(root.s, Root(t.r)) != null)
  {
    WalkReads(root, t, ctx, k);
    WalkRight(root.mem, t, ctx, k, root.tree);
    WalkReads(root, t.r, InRight(t.l, t.i, t.c, ctx), Down(t.c, k));
  }

  /** The descent takes at most 2*log2(n+1) steps. */
  lemma WalkLength(root: RbRoot, t: Tree, ctx: Ctx, k: int)
    requires root.Valid() && Walk(root.mem, t, ctx, k, root.tree)
    ensures Pow2(Depth(ctx)) <= (|root.s| + 1) * (|root.s| + 1)
  {
    SizeIsRange(root.tree, 0, |root.mem.cells|);
    root.ReadRoot();
    DepthBound(ctx, t);
    HeightBound(root.tree);
    hide *;
    Pow2Grows(Depth(ctx), Height(root.tree));
    assert Size(root.tree) == |root.s|;
  }

  lemma HoleBalance(m: Mem, ctx: Ctx, k: int, whole: Tree, j: int)
    requires Walk(m, Leaf, ctx, k, whole)
    ensures View(m, Leaf, ctx, -1) && RBCtx(H.OpenCtx(ctx, j), 0) && RB(Node(Leaf, j, Red, Leaf), 0)
  {
    H.OpenRBCtx(ctx, k, j);
  }

  /** Link `x` at the hole the descent has found, and rebalance. */
  method LinkAndRebalance(root: RbRoot, x: RbNode, parent: RbNode?, left: bool, ghost ctx: Ctx, ghost k: int)
    requires root.Valid() && Walk(root.mem, Leaf, ctx, k, root.tree) && x !in root.s
    requires parent == At(root.s, Above(ctx)) && (parent != null ==> left == ctx.InLeft?)
    modifies root, root.s, x
    ensures 0 <= Lo(ctx) <= |old(root.s)| && root.s == InsertAt(old(root.s), Lo(ctx), x)
    ensures root.Valid()
  {
    ghost var j := Lo(ctx);
    hide View, RB, RBCtx, H.OpenCtx, Lo;
    WalkReads(root, Leaf, ctx, k);
    HoleBalance(root.mem, ctx, k, root.tree, j);
    root.Link(x, parent, left, ctx);
    root.InsertColor(x, Node(Leaf, j, Red, Leaf), H.OpenCtx(ctx, j));
  }
}
