/** Renumbering: positions move down when the gap of an erased node closes, and up when a
    hole opens for a new node. */
module RbShift {
  import opened RbTree
  import opened RbRotate
  import opened RbBalance

  // ----- closing the gap at g

  function Down1(i: int, g: int): int { if i > g then i - 1 else i }

  function CloseCell(c: Cell, g: int): Cell {
    Cell(Down1(c.left, g), Down1(c.right, g), Down1(c.parent, g), c.color)
  }

  function CloseMem(m: Mem, g: int): Mem {
    Mem(Down1(m.root, g),
        seq(if |m.cells| > 0 then |m.cells| - 1 else 0,
            i requires 0 <= i < |m.cells| - 1 => CloseCell(m.cells[if i < g then i else i + 1], g)))
  }

  lemma CloseSize(m: Mem, g: int)
    requires 0 <= g < |m.cells|
    ensures |CloseMem(m, g).cells| == |m.cells| - 1 && CloseMem(m, g).root == Down1(m.root, g)
  {
  }

  lemma CloseAt(m: Mem, g: int, i: int)
    requires 0 <= i < |m.cells| && i != g && 0 <= g < |m.cells|
    ensures 0 <= Down1(i, g) < |CloseMem(m, g).cells| && CloseMem(m, g).cells[Down1(i, g)] == CloseCell(m.cells[i], g)
  {
    var j := Down1(i, g);
    assert CloseMem(m, g).cells[j] == CloseCell(m.cells[if j < g then j else j + 1], g);
  }

  function Close(t: Tree, g: int): Tree {
    match t
    case Leaf => Leaf
    case Node(l, i, c, r) => Node(Close(l, g), Down1(i, g), c, Close(r, g))
  }

  lemma CloseRoot(t: Tree, g: int)
    requires g >= 0
    ensures Root(Close(t, g)) == Down1(Root(t), g)
  {
  }

  lemma {:induction false} CloseOrdered(t: Tree, lo: int, hi: int, g: int)
    requires Ordered(t, lo, hi, g) && g >= 0 && lo >= 0
    ensures Ordered(Close(t, g), Down1(lo, g), Down1(hi, g), -1)
  {
    match t
    case Leaf =>
    case Node(l, i, _, r) => CloseOrdered(l, lo, i, g); CloseOrdered(r, i + 1, hi, g);
  }

  lemma {:induction false} CloseTied(m: Mem, t: Tree, p: int, lo: int, hi: int, g: int)
    requires Tied(m, t, p) && Ordered(t, lo, hi, g) && 0 <= g < |m.cells| && 0 <= lo && hi <= |m.cells|
    ensures Tied(CloseMem(m, g), Close(t, g), Down1(p, g))
  {
    match t
    case Leaf =>
    case Node(l, i, c, r) =>
      OrderedRange(l, lo, i, g);
      CloseTied(m, l, i, lo, i, g);
      CloseTied(m, r, i, i + 1, hi, g);
      CloseAt(m, g, i);
      CloseRoot(l, g);
      CloseRoot(r, g);
      assert CloseMem(m, g).Has(Down1(i, g), Root(Close(l, g)), Root(Close(r, g)), Down1(p, g), c);
  }

  lemma {:induction false} CloseRB(t: Tree, k: int, g: int)
    requires RB(t, k)
    ensures RB(Close(t, g), k) && IsRed(Close(t, g)) == IsRed(t)
  {
    match t
    case Leaf =>
    case Node(l, _, c, r) => CloseRB(l, Down(c, k), g); CloseRB(r, Down(c, k), g);
  }

  lemma CloseView(m: Mem, t: Tree, g: int)
    requires View(m, t, Top, g) && RedBlack(t) && 0 <= g < |m.cells|
    ensures View(CloseMem(m, g), Close(t, g), Top, -1) && RedBlack(Close(t, g))
  {
    CloseOrdered(t, 0, |m.cells|, g);
    CloseTied(m, t, NIL, 0, |m.cells|, g);
    var k :| RB(t, k);
    CloseRB(t, k, g);
  }

  /** No linked node points to the gap. */
  lemma {:induction false} NoLink(m: Mem, t: Tree, p: int, lo: int, hi: int, g: int)
    requires Tied(m, t, p) && Ordered(t, lo, hi, g) && p != g && 0 <= lo && hi <= |m.cells| && g >= 0
    ensures forall i :: lo <= i < hi && i != g ==> m.cells[i].left != g && m.cells[i].right != g && m.cells[i].parent != g
    ensures Root(t) != g
  {
    match t
    case Leaf =>
    case Node(l, i, _, r) =>
      OrderedRange(l, lo, i, g);
      OrderedRange(r, i + 1, hi, g);
      NoLink(m, l, i, lo, i, g);
      NoLink(m, r, i, i + 1, hi, g);
  }

  // ----- opening a hole at k

  function Up1(i: int, k: int): int { if i >= k then i + 1 else i }

  function OpenCell(c: Cell, k: int): Cell {
    Cell(Up1(c.left, k), Up1(c.right, k), Up1(c.parent, k), c.color)
  }

  /** Position `k` becomes a new red node below `p`. */
  function OpenMem(m: Mem, k: int, p: int): Mem
    requires 0 <= k <= |m.cells|
  {
    Mem(Up1(m.root, k),
        seq(|m.cells| + 1, i requires 0 <= i < |m.cells| + 1 =>
          if i < k then OpenCell(m.cells[i], k)
          else if i == k then Cell(NIL, NIL, p, Red)
          else OpenCell(m.cells[i - 1], k)))
  }

  lemma OpenAt(m: Mem, k: int, p: int, i: int)
    requires 0 <= i < |m.cells| && 0 <= k <= |m.cells|
    ensures 0 <= Up1(i, k) < |OpenMem(m, k, p).cells| && OpenMem(m, k, p).cells[Up1(i, k)] == OpenCell(m.cells[i], k)
  {
    var j := Up1(i, k);
    assert j >= k ==> OpenMem(m, k, p).cells[j] == OpenCell(m.cells[j - 1], k);
  }

  function Open(t: Tree, k: int): Tree {
    match t
    case Leaf => Leaf
    case Node(l, i, c, r) => Node(Open(l, k), Up1(i, k), c, Open(r, k))
  }

  function OpenCtx(ctx: Ctx, k: int): Ctx {
    match ctx
    case Top => Top
    case InLeft(i, c, r, up) => InLeft(Up1(i, k), c, Open(r, k), OpenCtx(up, k))
    case InRight(l, i, c, up) => InRight(Open(l, k), Up1(i, k), c, OpenCtx(up, k))
  }

  lemma OpenRoot(t: Tree, k: int)
    requires k >= 0
    ensures Root(Open(t, k)) == Up1(Root(t), k)
  {
  }

  lemma OpenAbove(ctx: Ctx, k: int)
    requires k >= 0
    ensures Above(OpenCtx(ctx, k)) == Up1(Above(ctx), k)
  {
  }

  lemma {:induction false} OpenOrdered(t: Tree, lo: int, hi: int, k: int)
    requires Ordered(t, lo, hi, -1) && 0 <= lo && 0 <= k && (k <= lo || hi <= k)
    ensures if k <= lo then Ordered(Open(t, k), lo + 1, hi + 1, -1) else Ordered(Open(t, k), lo, hi, -1)
  {
    match t
    case Leaf =>
    case Node(l, i, _, r) =>
      OrderedRange(r, i + 1, hi, -1);
      OpenOrdered(l, lo, i, k);
      OpenOrdered(r, i + 1, hi, k);
  }

  lemma {:induction false} OpenTied(m: Mem, t: Tree, p: int, lo: int, hi: int, k: int, q: int)
    requires Tied(m, t, p) && Ordered(t, lo, hi, -1) && 0 <= k <= |m.cells| && 0 <= lo && hi <= |m.cells|
    ensures Tied(OpenMem(m, k, q), Open(t, k), Up1(p, k))
  {
    match t
    case Leaf =>
    case Node(l, i, c, r) =>
      OrderedRange(l, lo, i, -1);
      OrderedRange(r, i + 1, hi, -1);
      OpenTied(m, l, i, lo, i, k, q);
      OpenTied(m, r, i, i + 1, hi, k, q);
      OpenAt(m, k, q, i);
      OpenRoot(l, k);
      OpenRoot(r, k);
      assert OpenMem(m, k, q).Has(Up1(i, k), Root(Open(l, k)), Root(Open(r, k)), Up1(p, k), c);
  }

  lemma {:induction false} OpenCtxOrdered(ctx: Ctx, n: int, k: int)
    requires OrderedCtx(ctx, n, -1) && Lo(ctx) <= k <= Hi(ctx, n)
    ensures OrderedCtx(OpenCtx(ctx, k), n + 1, -1)
    ensures Lo(OpenCtx(ctx, k)) == Lo(ctx) && Hi(OpenCtx(ctx, k), n + 1) == Hi(ctx, n) + 1
    decreases ctx
  {
    CtxRange(ctx, n, -1);
    match ctx
    case Top =>
    case InLeft(i, _, r, up) => OpenOrdered(r, i + 1, Hi(up, n), k); OpenCtxOrdered(up, n, k);
    case InRight(l, i, _, up) => CtxRange(up, n, -1); OpenOrdered(l, Lo(up), i, k); OpenCtxOrdered(up, n, k);
  }

  lemma {:induction false} OpenCtxTied(m: Mem, ctx: Ctx, hole: int, k: int, q: int)
    requires TiedCtx(m, ctx, hole) && OrderedCtx(ctx, |m.cells|, -1) && 0 <= k <= |m.cells|
    requires Lo(ctx) <= k <= Hi(ctx, |m.cells|)
    ensures TiedCtx(OpenMem(m, k, q), OpenCtx(ctx, k), Up1(hole, k))
    decreases ctx
  {
    var n := |m.cells|;
    var m' := OpenMem(m, k, q);
    CtxRange(ctx, n, -1);
    match ctx
    case Top =>
    case InLeft(i, c, r, up) =>
      CtxRange(up, n, -1);
      OpenTied(m, r, i, i + 1, Hi(up, n), k, q);
      OpenCtxTied(m, up, i, k, q);
      OpenAt(m, k, q, i);
      OpenRoot(r, k);
      OpenAbove(up, k);
      assert m'.Has(Up1(i, k), Up1(hole, k), Root(Open(r, k)), Above(OpenCtx(up, k)), c);
    case InRight(l, i, c, up) =>
      CtxRange(up, n, -1);
      OpenTied(m, l, i, Lo(up), i, k, q);
      OpenCtxTied(m, up, i, k, q);
      OpenAt(m, k, q, i);
      OpenRoot(l, k);
      OpenAbove(up, k);
      assert m'.Has(Up1(i, k), Root(Open(l, k)), Up1(hole, k), Above(OpenCtx(up, k)), c);
  }

  lemma {:induction false} OpenRB(t: Tree, j: int, k: int)
    requires RB(t, j)
    ensures RB(Open(t, k), j) && IsRed(Open(t, k)) == IsRed(t)
  {
    match t
    case Leaf =>
    case Node(l, _, c, r) => OpenRB(l, Down(c, j), k); OpenRB(r, Down(c, j), k);
  }

  lemma {:induction false} OpenRBCtx(ctx: Ctx, j: int, k: int)
    requires RBCtx(ctx, j)
    ensures RBCtx(OpenCtx(ctx, k), j) && UpRed(OpenCtx(ctx, k)) == UpRed(ctx)
    decreases ctx
  {
    match ctx
    case Top =>
    case InLeft(_, c, r, up) => OpenRB(r, j, k); OpenRBCtx(up, Up(c, j), k);
    case InRight(l, _, c, up) => OpenRB(l, j, k); OpenRBCtx(up, Up(c, j), k);
  }

  /** `rb_link_node`: the new node at position `k` is linked below `p`, on the given side. */
  function LinkMem(m: Mem, k: int, p: int, left: bool): Mem
    requires 0 <= k <= |m.cells|
  {
    var m' := OpenMem(m, k, p);
    if p == NIL then m'.(root := k) else if left then SetLeft(m', p, k) else SetRight(m', p, k)
  }

  lemma LinkView(m: Mem, ctx: Ctx, k: int)
    requires View(m, Leaf, ctx, -1) && 0 <= k == Lo(ctx) <= |m.cells|
    ensures View(LinkMem(m, k, Above(OpenCtx(ctx, k)), ctx.InLeft?), Node(Leaf, k, Red, Leaf), OpenCtx(ctx, k), -1)
  {
    var n := |m.cells|;
    var cx := OpenCtx(ctx, k);
    var m1 := OpenMem(m, k, Above(cx));
    var m2 := LinkMem(m, k, Above(cx), ctx.InLeft?);
    OpenCtxOrdered(ctx, n, k);
    OpenCtxTied(m, ctx, NIL, k, Above(cx));
    CtxRange(cx, n + 1, -1);
    assert Relinked(m1, m2, cx, k);
    RefillFrame(m1, m2, cx, NIL, k, -1);
    assert m2.Has(k, NIL, NIL, Above(cx), Red);
  }
}
