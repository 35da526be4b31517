/** `rb_erase` before its fix-up: taking a node with at most one child out of the tree, and
    putting the in-order successor in the place of a node with two. */
module RbSplice {
  import opened RbTree
  import opened RbRotate
  import opened RbBalance

  // ----- making room for the gap that the erased position `g` leaves

  lemma {:induction false} OrderedGap(t: Tree, lo: int, hi: int, g: int)
    requires Ordered(t, lo, hi, -1) && 0 <= lo && !(lo <= g < hi)
    ensures Ordered(t, lo, hi, g)
  {
    match t
    case Leaf =>
    case Node(l, i, _, r) => OrderedGap(l, lo, i, g); OrderedGap(r, i + 1, hi, g);
  }

  lemma {:induction false} WidenLeft(t: Tree, g: int, hi: int)
    requires Ordered(t, g + 1, hi, -1) && g >= 0
    ensures Ordered(t, g, hi, g)
  {
    match t
    case Leaf =>
    case Node(l, i, _, r) => WidenLeft(l, g, i); OrderedGap(r, i + 1, hi, g);
  }

  lemma {:induction false} WidenRight(t: Tree, lo: int, g: int)
    requires Ordered(t, lo, g, -1) && lo >= 0
    ensures Ordered(t, lo, g + 1, g)
  {
    match t
    case Leaf =>
    case Node(l, i, _, r) => OrderedGap(l, lo, i, g); WidenRight(r, i + 1, g);
  }

  lemma {:induction false} OrderedCtxGap(ctx: Ctx, n: int, g: int)
    requires OrderedCtx(ctx, n, -1) && Lo(ctx) <= g < Hi(ctx, n)
    ensures OrderedCtx(ctx, n, g)
    decreases ctx
  {
    match ctx
    case Top =>
    case InLeft(i, _, r, up) =>
      CtxRange(ctx, n, -1);
      OrderedGap(r, i + 1, Hi(up, n), g);
      OrderedCtxGap(up, n, g);
    case InRight(l, i, _, up) =>
      CtxRange(up, n, -1);
      OrderedGap(l, Lo(up), i, g);
      OrderedCtxGap(up, n, g);
  }

  // ----- a node with at most one child

  /** What unlinking `g` writes: its only child `x` takes its place below `p`. */
  function Unlink(m: Mem, g: int, x: int): Mem {
    ReplaceChild(SetParent(m, x, Get(m, g).parent), Get(m, g).parent, g, x)
  }

  lemma UnlinkEffect(m: Mem, g: int, x: int, p: int)
    requires 0 <= g < |m.cells| && m.cells[g].parent == p
    requires x == NIL || (0 <= x < |m.cells| && x != g)
    requires p == NIL || (0 <= p < |m.cells| && p != g && p != x)
    ensures var m' := Unlink(m, g, x);
      && |m'.cells| == |m.cells|
      && (forall n :: 0 <= n < |m.cells| && n != x && n != p ==> m'.cells[n] == m.cells[n])
      && (x != NIL ==> m'.cells[x] == m.cells[x].(parent := p))
      && (p == NIL ==> m'.root == x)
      && (p != NIL ==> m'.root == m.root)
      && (p != NIL && m.cells[p].left == g ==> m'.cells[p] == m.cells[p].(left := x))
      && (p != NIL && m.cells[p].left != g ==> m'.cells[p] == m.cells[p].(right := x))
  {
  }

  lemma UnlinkView(m: Mem, l: Tree, g: int, c: Color, r: Tree, ctx: Ctx)
    requires View(m, Node(l, g, c, r), ctx, -1) && (l.Leaf? || r.Leaf?)
    ensures var x := if l.Leaf? then r else l;
      View(Unlink(m, g, Root(x)), x, ctx, g)
  {
    var x := if l.Leaf? then r else l;
    var m' := Unlink(m, g, Root(x));
    var n := |m.cells|;
    var lo, hi := if l.Leaf? then g + 1 else Lo(ctx), if l.Leaf? then Hi(ctx, n) else g;
    CtxRange(ctx, n, -1);
    if l.Leaf? { WidenLeft(r, g, Hi(ctx, n)); } else { WidenRight(l, Lo(ctx), g); }
    OrderedCtxGap(ctx, n, g);
    assert l.Leaf? ==> Ordered(l, Lo(ctx), g, -1) && Lo(ctx) == g;
    assert r.Leaf? ==> Ordered(r, g + 1, Hi(ctx, n), -1) && Hi(ctx, n) == g + 1;
    assert Ordered(x, Lo(ctx), Hi(ctx, n), g);
    if x.Node? { assert Tied(m, x, g); }
    UnlinkEffect(m, g, Root(x), Above(ctx));
    hide Unlink, Ordered, OrderedCtx;
    ReparentFrame(m, m', x, g, Above(ctx), lo, hi, -1);
    RefillFrame(m, m', ctx, g, Root(x), -1);
  }

  // ----- the in-order successor takes the place of a node with two children

  /** The leftmost node of `r` with its subtree, the way down to it, and `r` without it. */
  function MinTree(r: Tree): (t: Tree)
    requires r.Node?
    ensures t.Node? && t.l.Leaf?
  {
    if r.l.Leaf? then r else MinTree(r.l)
  }

  function MinCtx(r: Tree, base: Ctx): Ctx
    requires r.Node?
  {
    if r.l.Leaf? then base else MinCtx(r.l, InLeft(r.i, r.c, r.r, base))
  }

  function DelMin(r: Tree): Tree
    requires r.Node?
  {
    if r.l.Leaf? then r.r else Node(DelMin(r.l), r.i, r.c, r.r)
  }

  /** The node that links to the leftmost node. */
  function MinParent(r: Tree): int
    requires r.Node? && r.l.Node?
  {
    if r.l.l.Leaf? then r.i else MinParent(r.l)
  }

  lemma {:induction false} MinView(m: Mem, r: Tree, base: Ctx, g: int)
    requires r.Node? && View(m, r, base, g)
    ensures View(m, MinTree(r), MinCtx(r, base), g)
    decreases r
  {
    hide View;
    if r.l.Node? {
      FocusUp(m, r.l, InLeft(r.i, r.c, r.r, base), g);
      MinView(m, r.l, InLeft(r.i, r.c, r.r, base), g);
    }
  }

  lemma {:induction false} DelMinView(m: Mem, r: Tree, base: Ctx, g: int)
    requires r.Node? && View(m, DelMin(r), base, g)
    ensures View(m, MinTree(r).r, MinCtx(r, base), g)
    decreases r
  {
    hide View;
    if r.l.Node? {
      FocusUp(m, DelMin(r.l), InLeft(r.i, r.c, r.r, base), g);
      DelMinView(m, r.l, InLeft(r.i, r.c, r.r, base), g);
    }
  }

  lemma {:induction false} MinBalance(r: Tree, base: Ctx, k: int) returns (j: int)
    requires r.Node? && RB(r, k) && RBCtx(base, k)
    requires IsRed(r) ==> !base.Top? && !UpRed(base)
    ensures RB(MinTree(r), j) && RBCtx(MinCtx(r, base), j)
    ensures IsRed(MinTree(r)) ==> !MinCtx(r, base).Top? && !UpRed(MinCtx(r, base))
    decreases r
  {
    if r.l.Leaf? {
      j := k;
    } else {
      j := MinBalance(r.l, InLeft(r.i, r.c, r.r, base), Down(r.c, k));
    }
  }

  /** The leftmost position comes first. */
  lemma {:induction false} MinFirst(r: Tree, lo: int, hi: int)
    requires r.Node? && Ordered(r, lo, hi, -1) && lo >= 0
    ensures MinTree(r).i == lo && Ordered(MinTree(r).r, lo + 1, if r.l.Leaf? then hi else MinParent(r), -1)
    ensures Ordered(DelMin(r), lo + 1, hi, -1)
    ensures r.l.Node? ==> lo < MinParent(r) <= r.i
    decreases r
  {
    if r.l.Node? { MinFirst(r.l, lo, r.i); }
  }

  /** The cell at `i` once `x` is linked below `par` and `top` below `q`. */
  function Moved(c: Cell, i: int, par: int, x: int, top: int, q: int): Cell {
    c.(left := if i == par then x else c.left,
       parent := if i == x then par else if i == top then q else c.parent)
  }

  /** `m'` differs from `m` by taking the leftmost node out from below `par`, where its child `x`
      is linked instead, and by giving the root `top` the parent `q`. */
  ghost predicate CutMin(m: Mem, m': Mem, lo: int, hi: int, par: int, x: int, top: int, q: int) {
    && |m'.cells| == |m.cells|
    && forall i :: lo < i < hi && 0 <= i < |m.cells| ==>
         m'.cells[i] == Moved(m.cells[i], i, par, x, top, q)
  }

  lemma {:induction false} DelMinTied(m: Mem, m': Mem, r: Tree, p: int, q: int, lo: int, hi: int)
    requires r.Node? && r.l.Node? && Tied(m, r, p) && Ordered(r, lo, hi, -1) && lo >= 0
    requires CutMin(m, m', lo, hi, MinParent(r), Root(MinTree(r).r), r.i, q)
    ensures Tied(m', DelMin(r), q)
    decreases r
  {
    var par, x := MinParent(r), MinTree(r).r;
    MinFirst(r, lo, hi);
    assert Tied(m, r.l, r.i) && Tied(m, r.r, r.i);
    assert x.Node? ==> lo < x.i < par;
    TiedFrame(m, m', r.r, r.i, r.i + 1, hi, -1);
    if r.l.l.Leaf? {
      assert Tied(m, x, r.l.i);
      ReparentFrame(m, m', x, r.l.i, r.i, lo + 1, r.i, -1);
    } else {
      MinFirst(r.l, lo, r.i);
      assert Ordered(r.l.r, r.l.i + 1, r.i, -1);
      DelMinTied(m, m', r.l, r.i, r.i, lo, r.i);
    }
  }

  /** `u` takes over the colour, the parent and the left child of `g`. */
  function Adopt(m: Mem, g: int, u: int): Mem {
    var victim := Get(m, g);
    var m1 := Put(m, u, Get(m, u).(parent := victim.parent, color := victim.color));
    SetParent(SetLeft(m1, u, victim.left), victim.left, u)
  }

  /** `u`, which lies deeper, leaves its right child to its parent and takes the right child of `g`. */
  function Detach(m: Mem, g: int, u: int): Mem {
    var x, par := Get(m, u).right, Get(m, u).parent;
    var m1 := SetLeft(SetParent(m, x, par), par, x);
    var m2 := SetRight(m1, u, Get(m1, g).right);
    SetParent(m2, Get(m2, g).right, u)
  }

  /** The successor `u` is the right child of `g`: it keeps its right child. */
  function SpliceNear(m: Mem, g: int, u: int): Mem {
    Adopt(ReplaceChild(m, Get(m, g).parent, g, u), g, u)
  }

  function SpliceFar(m: Mem, g: int, u: int): Mem {
    Adopt(Detach(ReplaceChild(m, Get(m, g).parent, g, u), g, u), g, u)
  }

  lemma AdoptEffect(m: Mem, g: int, u: int, li: int)
    requires 0 <= g < |m.cells| && m.cells[g].left == li && 0 <= u < |m.cells| && u != g
    requires 0 <= li < |m.cells| && li != g && li != u
    ensures var m' := Adopt(m, g, u);
      && |m'.cells| == |m.cells| && m'.root == m.root
      && m'.cells[u] == Cell(li, m.cells[u].right, m.cells[g].parent, m.cells[g].color)
      && m'.cells[li] == m.cells[li].(parent := u)
      && forall i :: 0 <= i < |m.cells| && i != u && i != li ==> m'.cells[i] == m.cells[i]
  {
  }

  lemma DetachEffect(m: Mem, g: int, u: int, ri: int, par: int, x: int)
    requires 0 <= g < |m.cells| && m.cells[g].right == ri
    requires 0 <= u < |m.cells| && m.cells[u].right == x && m.cells[u].parent == par && u != g
    requires 0 <= ri < |m.cells| && 0 <= par < |m.cells| && ri != g && ri != u && par != g && par != u
    requires x == NIL || (0 <= x < |m.cells| && x != g && x != u && x != ri && x != par)
    ensures var m' := Detach(m, g, u);
      && |m'.cells| == |m.cells| && m'.root == m.root
      && m'.cells[u] == m.cells[u].(right := ri)
      && forall i :: 0 <= i < |m.cells| && i != u ==> m'.cells[i] == Moved(m.cells[i], i, par, x, ri, u)
  {
  }

  /** The facts that `View` collects at a node, one by one. */
  lemma Split(m: Mem, l: Tree, g: int, c: Color, r: Tree, ctx: Ctx)
    requires View(m, Node(l, g, c, r), ctx, -1)
    ensures 0 <= Lo(ctx) <= g < Hi(ctx, |m.cells|) <= |m.cells|
    ensures m.Has(g, Root(l), Root(r), Above(ctx), c)
    ensures Ordered(l, Lo(ctx), g, -1) && Ordered(r, g + 1, Hi(ctx, |m.cells|), -1) && OrderedCtx(ctx, |m.cells|, -1)
    ensures Tied(m, l, g) && Tied(m, r, g) && TiedCtx(m, ctx, g)
  {
    hide View, Ordered, OrderedCtx, Tied, TiedCtx;
    ViewParts(m, Node(l, g, c, r), ctx, -1);
    OrderedNode(l, g, c, r, Lo(ctx), Hi(ctx, |m.cells|), -1);
    TiedNode(m, l, g, c, r, Above(ctx));
    CtxRange(ctx, |m.cells|, -1);
  }

  lemma RootRange(m: Mem, t: Tree, p: int, lo: int, hi: int)
    requires Tied(m, t, p) && Ordered(t, lo, hi, -1) && t.Node?
    ensures lo <= t.i < hi && m.Has(t.i, Root(t.l), Root(t.r), p, t.c)
    ensures Ordered(t.l, lo, t.i, -1) && Ordered(t.r, t.i + 1, hi, -1) && Tied(m, t.l, t.i) && Tied(m, t.r, t.i)
  {
  }

  lemma ReplaceEffect(m: Mem, ctx: Ctx, g: int, u: int)
    requires TiedCtx(m, ctx, g) && OrderedCtx(ctx, |m.cells|, -1) && Lo(ctx) <= g < Hi(ctx, |m.cells|)
    ensures var m' := ReplaceChild(m, Above(ctx), g, u);
      && |m'.cells| == |m.cells|
      && Relinked(m, m', ctx, u)
      && (forall i :: Lo(ctx) <= i < Hi(ctx, |m.cells|) && 0 <= i < |m.cells| ==> m'.cells[i] == m.cells[i])
  {
    if !ctx.Top? {
      CtxRange(ctx.up, |m.cells|, -1);
      match ctx {
        case InLeft(_, _, r, _) =>
        case InRight(l, i, _, up) => if l.Node? { RootRange(m, l, i, Lo(up), i); }
      }
    }
  }

  /** Changes within lo..hi do not touch what lies around the hole. */
  lemma RelinkedThen(m: Mem, m1: Mem, m2: Mem, ctx: Ctx, u: int)
    requires Relinked(m, m1, ctx, u) && |m2.cells| == |m1.cells| && m2.root == m1.root
    requires forall i :: 0 <= i < |m1.cells| && !(Lo(ctx) <= i < Hi(ctx, |m.cells|)) ==> m2.cells[i] == m1.cells[i]
    requires !ctx.Top? ==> !(Lo(ctx) <= ctx.i < Hi(ctx, |m.cells|))
    ensures Relinked(m, m2, ctx, u)
  {
  }

  lemma SpliceNearCells(m: Mem, l: Tree, g: int, c: Color, u: int, sc: Color, x: Tree, ctx: Ctx)
    requires View(m, Node(l, g, c, Node(Leaf, u, sc, x)), ctx, -1) && l.Node?
    ensures u == g + 1
    ensures var m' := SpliceNear(m, g, u);
      && |m'.cells| == |m.cells| && m'.Has(u, l.i, Root(x), Above(ctx), c)
      && Reparented(m, m', l, u, Lo(ctx), g) && Same(m, m', u + 1, Hi(ctx, |m.cells|))
      && Relinked(m, m', ctx, u)
  {
    hide View, ReplaceChild, Adopt, Relinked, Tied, TiedCtx, OrderedCtx;
    var r := Node(Leaf, u, sc, x);
    Split(m, l, g, c, r, ctx);
    RootRange(m, r, g, g + 1, Hi(ctx, |m.cells|));
    RootRange(m, l, g, Lo(ctx), g);
    var m1 := ReplaceChild(m, Above(ctx), g, u);
    ReplaceEffect(m, ctx, g, u);
    AdoptEffect(m1, g, u, l.i);
    RelinkedThen(m, m1, Adopt(m1, g, u), ctx, u);
  }

  lemma SpliceFarCells(m: Mem, l: Tree, g: int, c: Color, r: Tree, ctx: Ctx)
    requires View(m, Node(l, g, c, r), ctx, -1) && l.Node? && r.Node? && r.l.Node?
    ensures var u, x, par := MinTree(r).i, MinTree(r).r, MinParent(r);
      var m' := SpliceFar(m, g, u);
      && u == g + 1 && |m'.cells| == |m.cells| && m'.Has(u, l.i, r.i, Above(ctx), c)
      && Reparented(m, m', l, u, Lo(ctx), g) && CutMin(m, m', u, Hi(ctx, |m.cells|), par, Root(x), r.i, u)
      && Relinked(m, m', ctx, u)
  {
    hide View, ReplaceChild, Adopt, Detach, Relinked, Tied, TiedCtx, Ordered, OrderedCtx, MinTree, MinParent, DelMin;
    var u, x, par := MinTree(r).i, MinTree(r).r, MinParent(r);
    Split(m, l, g, c, r, ctx);
    RootRange(m, r, g, g + 1, Hi(ctx, |m.cells|));
    RootRange(m, l, g, Lo(ctx), g);
    MinFirst(r, g + 1, Hi(ctx, |m.cells|));
    MinLinks(m, r, g, g + 1, Hi(ctx, |m.cells|));
    var m1 := ReplaceChild(m, Above(ctx), g, u);
    ReplaceEffect(m, ctx, g, u);
    DetachEffect(m1, g, u, r.i, par, Root(x));
    var m2 := Detach(m1, g, u);
    AdoptEffect(m2, g, u, l.i);
    RelinkedThen(m, m1, Adopt(m2, g, u), ctx, u);
  }

  lemma SpliceNearView(m: Mem, l: Tree, g: int, c: Color, u: int, sc: Color, x: Tree, ctx: Ctx)
    requires View(m, Node(l, g, c, Node(Leaf, u, sc, x)), ctx, -1) && l.Node?
    ensures View(SpliceNear(m, g, u), Node(l, u, c, x), ctx, g)
  {
    hide View, SpliceNear, Reparented, Same, Relinked, TiedCtx, OrderedCtx;
    var m' := SpliceNear(m, g, u);
    var n := |m.cells|;
    Split(m, l, g, c, Node(Leaf, u, sc, x), ctx);
    RootRange(m, Node(Leaf, u, sc, x), g, g + 1, Hi(ctx, n));
    SpliceNearCells(m, l, g, c, u, sc, x, ctx);
    WidenRight(l, Lo(ctx), g);
    OrderedGap(x, u + 1, Hi(ctx, n), g);
    OrderedCtxGap(ctx, n, g);
    ReparentFrame(m, m', l, g, u, Lo(ctx), g, -1);
    TiedFrame(m, m', x, u, u + 1, Hi(ctx, n), -1);
    RefillFrame(m, m', ctx, g, u, -1);
    Reassemble(m', l, u, c, x, ctx, g);
  }

  lemma FarOrder(l: Tree, g: int, r: Tree, ctx: Ctx, n: int)
    requires 0 <= Lo(ctx) <= g < Hi(ctx, n) && r.Node? && r.l.Node?
    requires Ordered(l, Lo(ctx), g, -1) && Ordered(r, g + 1, Hi(ctx, n), -1) && OrderedCtx(ctx, n, -1)
    ensures Ordered(l, Lo(ctx), g + 1, g) && Ordered(DelMin(r), g + 2, Hi(ctx, n), g) && OrderedCtx(ctx, n, g)
    ensures DelMin(r).Node? && DelMin(r).i == r.i
  {
    hide Ordered, OrderedCtx;
    MinFirst(r, g + 1, Hi(ctx, n));
    WidenRight(l, Lo(ctx), g);
    OrderedGap(DelMin(r), g + 2, Hi(ctx, n), g);
    OrderedCtxGap(ctx, n, g);
  }

  lemma SpliceFarTied(m: Mem, l: Tree, g: int, c: Color, r: Tree, ctx: Ctx)
    requires View(m, Node(l, g, c, r), ctx, -1) && l.Node? && r.Node? && r.l.Node?
    ensures var u, m' := MinTree(r).i, SpliceFar(m, g, MinTree(r).i);
      && u == g + 1 && |m'.cells| == |m.cells| && m'.Has(u, l.i, r.i, Above(ctx), c)
      && Tied(m', l, u) && Tied(m', DelMin(r), u) && TiedCtx(m', ctx, u)
  {
    hide View, SpliceFar, Reparented, CutMin, Relinked, Tied, TiedCtx, Ordered, OrderedCtx, MinTree, MinParent, DelMin, Lo, Hi;
    var u := MinTree(r).i;
    var m' := SpliceFar(m, g, u);
    Split(m, l, g, c, r, ctx);
    SpliceFarCells(m, l, g, c, r, ctx);
    ReparentFrame(m, m', l, g, u, Lo(ctx), g, -1);
    DelMinTied(m, m', r, g, u, u, Hi(ctx, |m.cells|));
    RefillFrame(m, m', ctx, g, u, -1);
  }

  lemma SpliceFarView(m: Mem, l: Tree, g: int, c: Color, r: Tree, ctx: Ctx)
    requires View(m, Node(l, g, c, r), ctx, -1) && l.Node? && r.Node? && r.l.Node?
    ensures View(SpliceFar(m, g, MinTree(r).i), Node(l, MinTree(r).i, c, DelMin(r)), ctx, g)
  {
    hide View, SpliceFar, Tied, TiedCtx, Ordered, OrderedCtx, MinTree, MinParent, DelMin, Lo, Hi;
    var u := MinTree(r).i;
    Split(m, l, g, c, r, ctx);
    SpliceFarTied(m, l, g, c, r, ctx);
    FarOrder(l, g, r, ctx, |m.cells|);
    RootRange(m, r, g, g + 1, Hi(ctx, |m.cells|));
    Reassemble(SpliceFar(m, g, u), l, u, c, DelMin(r), ctx, g);
  }

  lemma Reassemble(m: Mem, l: Tree, u: int, c: Color, r: Tree, ctx: Ctx, g: int)
    requires Lo(ctx) <= u < Hi(ctx, |m.cells|) && u != g && m.Has(u, Root(l), Root(r), Above(ctx), c)
    requires Ordered(l, Lo(ctx), u, g) && Ordered(r, u + 1, Hi(ctx, |m.cells|), g) && OrderedCtx(ctx, |m.cells|, g)
    requires Tied(m, l, u) && Tied(m, r, u) && TiedCtx(m, ctx, u)
    ensures View(m, Node(l, u, c, r), ctx, g)
  {
    hide View, Ordered, OrderedCtx, Tied, TiedCtx;
    ViewParts(m, Node(l, u, c, r), ctx, g);
    OrderedNode(l, u, c, r, Lo(ctx), Hi(ctx, |m.cells|), g);
    TiedNode(m, l, u, c, r, Above(ctx));
  }

  lemma {:induction false} MinLinks(m: Mem, r: Tree, p: int, lo: int, hi: int)
    requires r.Node? && r.l.Node? && Tied(m, r, p) && Ordered(r, lo, hi, -1) && lo >= 0
    ensures var Node(_, u, sc, x) := MinTree(r);
      && m.Has(u, NIL, Root(x), MinParent(r), sc) && 0 <= r.i < |m.cells| && 0 <= MinParent(r) < |m.cells|
      && (x.Node? ==> 0 <= x.i < |m.cells| && lo < x.i < MinParent(r))
    decreases r
  {
    assert Tied(m, r.l, r.i) && Ordered(r.l, lo, r.i, -1);
    if r.l.l.Node? {
      MinFirst(r.l, lo, r.i);
      MinLinks(m, r.l, r.i, lo, r.i);
    } else {
      assert Tied(m, r.l.r, r.l.i) && Ordered(r.l.r, r.l.i + 1, r.i, -1);
    }
  }

  /** The writes of `Detach` and `Adopt` with the values they read named. */
  lemma DetachWrites(m: Mem, g: int, u: int, ri: int, par: int, x: int)
    requires 0 <= g < |m.cells| && m.cells[g].right == ri
    requires 0 <= u < |m.cells| && m.cells[u].right == x && m.cells[u].parent == par && u != g
    requires x != g && par != g
    ensures Detach(m, g, u) == SetParent(SetRight(SetLeft(SetParent(m, x, par), par, x), u, ri), ri, u)
  {
  }

  lemma AdoptWrites(m: Mem, g: int, u: int, li: int, p: int, c: Color)
    requires 0 <= g < |m.cells| && m.cells[g].left == li && m.cells[g].parent == p && m.cells[g].color == c
    ensures Adopt(m, g, u) == SetParent(SetLeft(SetColor(SetParent(m, u, p), u, c), u, li), li, u)
  {
  }

  /** Everything `rb_erase` reads about the successor, as positions. */
  lemma SuccessorInside(m: Mem, r: Tree, g: int, hi: int)
    requires Tied(m, r, g) && Ordered(r, g + 1, hi, -1) && r.Node? && g >= 0
    ensures var Node(_, u, sc, x) := MinTree(r);
      var par := if r.l.Leaf? then g else MinParent(r);
      && g < u <= r.i < hi && m.Has(u, NIL, Root(x), par, sc) && (x.Node? ==> u < x.i < hi)
      && (r.l.Leaf? ==> u == r.i) && (r.l.Node? ==> u < par <= r.i && (x.Node? ==> x.i < par))
  {
    hide Tied, Ordered, MinParent, MinTree;
    RootRange(m, r, g, g + 1, hi);
    MinFirst(r, g + 1, hi);
    if r.l.Node? {
      MinLinks(m, r, g, g + 1, hi);
    } else {
      NearTree(r);
      if r.r.Node? { RootRange(m, r.r, r.i, r.i + 1, hi); }
    }
  }

  lemma SuccessorLinks(m: Mem, l: Tree, g: int, c: Color, r: Tree, ctx: Ctx)
    requires View(m, Node(l, g, c, r), ctx, -1) && l.Node? && r.Node?
    ensures var Node(_, u, sc, x) := MinTree(r);
      var par := if r.l.Leaf? then g else MinParent(r);
      && 0 <= Lo(ctx) <= l.i < g < u <= r.i < Hi(ctx, |m.cells|) <= |m.cells|
      && m.Has(u, NIL, Root(x), par, sc) && (x.Node? ==> u < x.i < Hi(ctx, |m.cells|))
      && (r.l.Leaf? ==> u == r.i)
      && (r.l.Node? ==> u < par <= r.i && (x.Node? ==> x.i < par))
  {
    hide View, Tied, TiedCtx, Ordered, OrderedCtx, MinParent, MinTree, Lo, Hi;
    Split(m, l, g, c, r, ctx);
    RootRange(m, l, g, Lo(ctx), g);
    SuccessorInside(m, r, g, Hi(ctx, |m.cells|));
  }

  lemma NearTree(r: Tree)
    requires r.Node? && r.l.Leaf?
    ensures MinTree(r) == r && DelMin(r) == r.r && r == Node(Leaf, r.i, r.c, r.r)
  {
  }

  /** Linking the successor below the parent of the erased node leaves the cells below as they are. */
  lemma LinkEffect(m: Mem, l: Tree, g: int, c: Color, r: Tree, ctx: Ctx, u: int)
    requires View(m, Node(l, g, c, r), ctx, -1)
    ensures var m' := ReplaceChild(m, Above(ctx), g, u);
      && |m'.cells| == |m.cells|
      && forall i :: Lo(ctx) <= i < Hi(ctx, |m.cells|) && 0 <= i < |m.cells| ==> m'.cells[i] == m.cells[i]
  {
    hide View, ReplaceChild;
    Split(m, l, g, c, r, ctx);
    ReplaceEffect(m, ctx, g, u);
  }

  // ----- what is short after the removal

  /** Taking out a node whose only child is `x` leaves nothing short, or one black node. */
  lemma RemoveBalance(x: Tree, c: Color, ctx: Ctx, k: int)
    requires RBCtx(ctx, k) && RB(x, Down(c, k)) && Down(c, k) == 0
    requires c == Red ==> !IsRed(x) && !ctx.Top? && !UpRed(ctx)
    ensures c == Black ==> AlmostRB(x, 0) && RBCtx(ctx, 1)
    ensures c == Red ==> RedBlack(Plug(ctx, x))
  {
    if c == Red {
      RBHeight(x, 0);
      PlugRB(ctx, x, 0);
    }
  }

  lemma UnlinkBalance(l: Tree, g: int, c: Color, r: Tree, ctx: Ctx, k: int)
    requires RB(Node(l, g, c, r), k) && RBCtx(ctx, k) && (l.Leaf? || r.Leaf?)
    requires c == Red ==> !ctx.Top? && !UpRed(ctx)
    ensures var x := if l.Leaf? then r else l;
      && (c == Black ==> AlmostRB(x, 0) && RBCtx(ctx, 1))
      && (c == Red ==> RedBlack(Plug(ctx, x)))
  {
    RemoveBalance(if l.Leaf? then r else l, c, ctx, k);
  }

  lemma SpliceBalance(l: Tree, g: int, c: Color, r: Tree, ctx: Ctx, k: int, u: int)
    requires RB(Node(l, g, c, r), k) && RBCtx(ctx, k) && r.Node?
    requires c == Red ==> !ctx.Top? && !UpRed(ctx)
    ensures var t, cx := MinTree(r), MinCtx(r, InRight(l, u, c, ctx));
      && (t.c == Black ==> AlmostRB(t.r, 0) && RBCtx(cx, 1))
      && (t.c == Red ==> RedBlack(Plug(cx, t.r)))
  {
    var base := InRight(l, u, c, ctx);
    assert RBCtx(base, Down(c, k));
    var j := MinBalance(r, base, Down(c, k));
    hide RedBlack;
    assert RB(MinTree(r).l, Down(MinTree(r).c, j));
    RemoveBalance(MinTree(r).r, MinTree(r).c, MinCtx(r, base), j);
  }

  lemma {:induction false} MinAbove(r: Tree, base: Ctx)
    requires r.Node?
    ensures Above(MinCtx(r, base)) == if r.l.Leaf? then Above(base) else MinParent(r)
    decreases r
  {
    if r.l.Node? { MinAbove(r.l, InLeft(r.i, r.c, r.r, base)); }
  }

  // ----- finding the node at a position

  lemma {:induction false} Locate(m: Mem, t: Tree, ctx: Ctx, k: int, i: int) returns (l: Tree, c: Color, r: Tree, cx: Ctx, j: int)
    requires View(m, t, ctx, -1) && RB(t, k) && RBCtx(ctx, k) && (IsRed(t) ==> !ctx.Top? && !UpRed(ctx))
    requires 0 <= Lo(ctx) <= i < Hi(ctx, |m.cells|)
    ensures View(m, Node(l, i, c, r), cx, -1) && RB(Node(l, i, c, r), j) && RBCtx(cx, j)
    ensures c == Red ==> !cx.Top? && !UpRed(cx)
    ensures Plug(cx, Node(l, i, c, r)) == Plug(ctx, t)
    decreases t
  {
    assert t.Node?;
    hide View;
    if i == t.i {
      l, c, r, cx, j := t.l, t.c, t.r, ctx, k;
    } else if i < t.i {
      FocusUp(m, t.l, InLeft(t.i, t.c, t.r, ctx), -1);
      l, c, r, cx, j := Locate(m, t.l, InLeft(t.i, t.c, t.r, ctx), Down(t.c, k), i);
    } else {
      FocusUp(m, t.r, InRight(t.l, t.i, t.c, ctx), -1);
      l, c, r, cx, j := Locate(m, t.r, InRight(t.l, t.i, t.c, ctx), Down(t.c, k), i);
    }
  }

  lemma TopKnown(ctx: Ctx, n: int)
    requires ctx.Top?
    ensures Lo(ctx) == 0 && Hi(ctx, n) == n
  {
  }

  /** Where the walk up stands: the focus is the child of the node on the side given by `ctx`. */
  lemma ClimbRight(m: Mem, t: Tree, ctx: Ctx)
    requires View(m, t, ctx, -1) && ctx.InRight?
    ensures View(m, Fill(ctx, t), ctx.up, -1) && Hi(ctx.up, |m.cells|) == Hi(ctx, |m.cells|)
  {
    FocusUp(m, t, ctx, -1);
  }

  lemma ClimbLeft(m: Mem, t: Tree, ctx: Ctx)
    requires View(m, t, ctx, -1) && ctx.InLeft?
    ensures View(m, Fill(ctx, t), ctx.up, -1) && Lo(ctx.up) == Lo(ctx)
  {
    FocusUp(m, t, ctx, -1);
  }

  function MaxTree(r: Tree): (t: Tree)
    requires r.Node?
    ensures t.Node? && t.r.Leaf?
  {
    if r.r.Leaf? then r else MaxTree(r.r)
  }

  lemma {:induction false} MaxLast(r: Tree, lo: int, hi: int)
    requires r.Node? && Ordered(r, lo, hi, -1) && lo >= 0
    ensures MaxTree(r).i == hi - 1 && lo <= MaxTree(r).i
    decreases r
  {
    if r.r.Node? { MaxLast(r.r, r.i + 1, hi); }
  }
}
