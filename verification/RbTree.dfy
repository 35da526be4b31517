/** The intrusive red-black tree of src/rbtree.c: shapes, zippers, the red-black property,
    and what it means for memory to hold a shape.

    A shape names its nodes by their position in the in-order sequence `s` of the tree, so
    "no node occurs twice" and "the order is kept" are facts about integers. */
module RbTree {

  datatype Color = Red | Black

  /** The record that embeds a node: the fields the ordered indexes compare. */
  class Record {
    /** `elapse_timestamp`, `timeout_timestamp`, `connection_count` or `wd` */
    var key: int
    /** `pathfilename` */
    var name: string
    /** `timestamp_to_valid` */
    var validAfter: int

    constructor (key: int, name: string)
      ensures this.key == key && this.name == name && validAfter == 0
    {
      this.key, this.name, validAfter := key, name, 0;
    }
  }

  /** `struct rb_node`.  The packed word `rb_parent_color` is the two fields `parent` and
      `color`; `container_of` is the field `record`. */
  class RbNode {
    var left: RbNode?
    var right: RbNode?
    var parent: RbNode?
    var color: Color
    const record: Record
    /** The position of the node in the tree that links it. */
    ghost var pos: int

    constructor (record: Record)
      ensures this.record == record
    {
      left, right, parent, color := null, null, null, Red;
      this.record := record;
    }
  }

  /** The shape of a (sub)tree: the node at position `i` of the in-order sequence, its colour,
      and the shapes on both sides. */
  datatype Tree = Leaf | Node(l: Tree, i: int, c: Color, r: Tree)

  /** The way from a hole up to the root: `InLeft` says the hole is the left child of node `i`. */
  datatype Ctx =
    | Top
    | InLeft(i: int, c: Color, r: Tree, up: Ctx)
    | InRight(l: Tree, i: int, c: Color, up: Ctx)

  ghost function Plug(ctx: Ctx, t: Tree): Tree
    decreases ctx
  {
    match ctx
    case Top => t
    case InLeft(i, c, r, up) => Plug(up, Node(t, i, c, r))
    case InRight(l, i, c, up) => Plug(up, Node(l, i, c, t))
  }

  ghost function Depth(ctx: Ctx): nat {
    match ctx
    case Top => 0
    case InLeft(_, _, _, up) => 1 + Depth(up)
    case InRight(_, _, _, up) => 1 + Depth(up)
  }

  // ----- order

  /** `t` holds exactly the positions lo..hi, except the position `g` of an erased node. */
  ghost predicate Ordered(t: Tree, lo: int, hi: int, g: int) {
    match t
    case Leaf => lo == hi || (lo == g && hi == g + 1)
    case Node(l, i, _, r) => lo <= i < hi && i != g && Ordered(l, lo, i, g) && Ordered(r, i + 1, hi, g)
  }

  /** The positions that a hole stands for. */
  function Lo(ctx: Ctx): int {
    match ctx
    case Top => 0
    case InLeft(_, _, _, up) => Lo(up)
    case InRight(_, i, _, _) => i + 1
  }

  function Hi(ctx: Ctx, n: int): int {
    match ctx
    case Top => n
    case InLeft(i, _, _, _) => i
    case InRight(_, _, _, up) => Hi(up, n)
  }

  ghost predicate OrderedCtx(ctx: Ctx, n: int, g: int) {
    match ctx
    case Top => n >= 0
    case InLeft(i, _, r, up) =>
      Lo(up) <= i < Hi(up, n) && i != g && Ordered(r, i + 1, Hi(up, n), g) && OrderedCtx(up, n, g)
    case InRight(l, i, _, up) =>
      Lo(up) <= i < Hi(up, n) && i != g && Ordered(l, Lo(up), i, g) && OrderedCtx(up, n, g)
  }

  // ----- memory

  /** The contents of one node; positions stand for pointers and NIL for the null pointer. */
  datatype Cell = Cell(left: int, right: int, parent: int, color: Color)

  const NIL := -1

  /** The root pointer of `struct rb_root` and the contents of the nodes. */
  datatype Mem = Mem(root: int, cells: seq<Cell>) {

    ghost predicate Has(i: int, left: int, right: int, parent: int, c: Color) {
      0 <= i < |cells| && cells[i] == Cell(left, right, parent, c)
    }
  }

  function Root(t: Tree): int { if t.Leaf? then NIL else t.i }

  function Above(ctx: Ctx): int { if ctx.Top? then NIL else ctx.i }

  /** Memory holds exactly the shape `t` below the parent `p`. */
  ghost predicate Tied(m: Mem, t: Tree, p: int) {
    match t
    case Leaf => true
    case Node(l, i, c, r) => m.Has(i, Root(l), Root(r), p, c) && Tied(m, l, i) && Tied(m, r, i)
  }

  /** Memory holds everything around a hole, which links to `hole`. */
  ghost predicate TiedCtx(m: Mem, ctx: Ctx, hole: int)
    decreases ctx
  {
    match ctx
    case Top => m.root == hole
    case InLeft(i, c, r, up) => m.Has(i, hole, Root(r), Above(up), c) && Tied(m, r, i) && TiedCtx(m, up, i)
    case InRight(l, i, c, up) => m.Has(i, Root(l), hole, Above(up), c) && Tied(m, l, i) && TiedCtx(m, up, i)
  }

  /** Memory holds the tree `Plug(ctx, t)`, seen from `t`; position `g` is not in it. */
  ghost predicate View(m: Mem, t: Tree, ctx: Ctx, g: int) {
    && Ordered(t, Lo(ctx), Hi(ctx, |m.cells|), g) && OrderedCtx(ctx, |m.cells|, g)
    && Tied(m, t, Above(ctx)) && TiedCtx(m, ctx, Root(t))
  }

  // ----- one step of each definition, as equations

  lemma OrderedNode(l: Tree, i: int, c: Color, r: Tree, lo: int, hi: int, g: int)
    ensures Ordered(Node(l, i, c, r), lo, hi, g) ==
            (lo <= i < hi && i != g && Ordered(l, lo, i, g) && Ordered(r, i + 1, hi, g))
  {
  }

  lemma TiedNode(m: Mem, l: Tree, i: int, c: Color, r: Tree, p: int)
    ensures Tied(m, Node(l, i, c, r), p) == (m.Has(i, Root(l), Root(r), p, c) && Tied(m, l, i) && Tied(m, r, i))
  {
  }

  lemma ViewParts(m: Mem, t: Tree, ctx: Ctx, g: int)
    ensures View(m, t, ctx, g) ==
            (&& Ordered(t, Lo(ctx), Hi(ctx, |m.cells|), g) && OrderedCtx(ctx, |m.cells|, g)
             && Tied(m, t, Above(ctx)) && TiedCtx(m, ctx, Root(t)))
  {
  }

  // ----- frames

  ghost predicate Same(m: Mem, m': Mem, lo: int, hi: int) {
    |m.cells| == |m'.cells| && forall i :: lo <= i < hi && 0 <= i < |m.cells| ==> m'.cells[i] == m.cells[i]
  }

  lemma {:induction false} TiedFrame(m: Mem, m': Mem, t: Tree, p: int, lo: int, hi: int, g: int)
    requires Tied(m, t, p) && Ordered(t, lo, hi, g) && Same(m, m', lo, hi)
    ensures Tied(m', t, p)
  {
    match t
    case Leaf =>
    case Node(l, i, _, r) =>
      TiedFrame(m, m', l, i, lo, i, g);
      TiedFrame(m, m', r, i, i + 1, hi, g);
  }

  lemma {:induction false} TiedCtxFrame(m: Mem, m': Mem, ctx: Ctx, hole: int, g: int)
    requires TiedCtx(m, ctx, hole) && OrderedCtx(ctx, |m.cells|, g) && m.root == m'.root
    requires Lo(ctx) <= Hi(ctx, |m.cells|)
    requires Same(m, m', 0, Lo(ctx)) && Same(m, m', Hi(ctx, |m.cells|), |m.cells|)
    ensures TiedCtx(m', ctx, hole)
    decreases ctx
  {
    match ctx
    case Top =>
    case InLeft(i, _, r, up) =>
      CtxRange(up, |m.cells|, g);
      TiedFrame(m, m', r, i, i + 1, Hi(up, |m.cells|), g);
      TiedCtxFrame(m, m', up, i, g);
    case InRight(l, i, _, up) =>
      CtxRange(up, |m.cells|, g);
      TiedFrame(m, m', l, i, Lo(up), i, g);
      TiedCtxFrame(m, m', up, i, g);
  }

  lemma {:induction false} OrderedRange(t: Tree, lo: int, hi: int, g: int)
    requires Ordered(t, lo, hi, g)
    ensures lo <= hi
  {
  }

  lemma {:induction false} CtxRange(ctx: Ctx, n: int, g: int)
    requires OrderedCtx(ctx, n, g)
    ensures 0 <= Lo(ctx) && Hi(ctx, n) <= n
    decreases ctx
  {
    if !ctx.Top? { CtxRange(ctx.up, n, g); }
  }
}
