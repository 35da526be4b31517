/** The red-black property, what each fix-up step does to it, and the height bound. */
module RbBalance {
  import opened RbTree

  predicate IsRed(t: Tree) { t.Node? && t.c == Red }

  predicate UpRed(ctx: Ctx) { !ctx.Top? && ctx.c == Red }

  function Paint(t: Tree, c: Color): Tree { if t.Leaf? then t else t.(c := c) }

  /** The black height below a node of colour `c` and black height `k`. */
  function Down(c: Color, k: int): int { if c == Red then k else k - 1 }

  function Up(c: Color, k: int): int { if c == Red then k else k + 1 }

  /** `t` is a red-black subtree of black height `k`: no red node has a red child, and every
      way down crosses `k` black nodes. */
  ghost predicate RB(t: Tree, k: int) {
    match t
    case Leaf => k == 0
    case Node(l, _, c, r) =>
      (c == Red ==> !IsRed(l) && !IsRed(r)) && RB(l, Down(c, k)) && RB(r, Down(c, k))
  }

  /** Like RB, but the root may be red above red children. */
  ghost predicate AlmostRB(t: Tree, k: int) {
    match t
    case Leaf => k == 0
    case Node(l, _, c, r) => RB(l, Down(c, k)) && RB(r, Down(c, k))
  }

  /** The surroundings of a hole of black height `k` in a tree with a black root. */
  ghost predicate RBCtx(ctx: Ctx, k: int)
    decreases ctx
  {
    match ctx
    case Top => true
    case InLeft(_, c, r, up) => (c == Red ==> !IsRed(r) && !up.Top? && !UpRed(up)) && RB(r, k) && RBCtx(up, Up(c, k))
    case InRight(l, _, c, up) => (c == Red ==> !IsRed(l) && !up.Top? && !UpRed(up)) && RB(l, k) && RBCtx(up, Up(c, k))
  }

  /** `t` is a red-black tree: black root, no red node with a red child, equal black heights. */
  ghost predicate RedBlack(t: Tree) {
    !IsRed(t) && exists k :: RB(t, k)
  }

  lemma {:induction false} PlugRB(ctx: Ctx, t: Tree, k: int)
    requires RB(t, k) && RBCtx(ctx, k)
    requires IsRed(t) ==> !ctx.Top? && !UpRed(ctx)
    ensures RedBlack(Plug(ctx, t))
    decreases ctx
  {
    match ctx
    case Top =>
    case InLeft(i, c, r, up) => PlugRB(up, Node(t, i, c, r), Up(c, k));
    case InRight(l, i, c, up) => PlugRB(up, Node(l, i, c, t), Up(c, k));
  }

  lemma {:induction false} RBHeight(t: Tree, k: int)
    requires RB(t, k)
    ensures k >= 0 && (t.Leaf? ==> k == 0) && (k == 0 && !IsRed(t) ==> t.Leaf?)
  {
    match t
    case Leaf =>
    case Node(l, _, c, r) => RBHeight(l, Down(c, k));
  }

  // ----- height

  function Size(t: Tree): nat {
    match t
    case Leaf => 0
    case Node(l, _, _, r) => Size(l) + 1 + Size(r)
  }

  function Height(t: Tree): nat {
    match t
    case Leaf => 0
    case Node(l, _, _, r) => 1 + if Height(l) > Height(r) then Height(l) else Height(r)
  }

  function Pow2(k: nat): (p: nat)
    ensures p >= 1
  {
    if k == 0 then 1 else 2 * Pow2(k - 1)
  }

  lemma {:induction false} HeightBySteps(t: Tree, k: int)
    requires RB(t, k)
    ensures k >= 0 && Height(t) <= 2 * k + (if IsRed(t) then 1 else 0) && Size(t) + 1 >= Pow2(k)
  {
    match t
    case Leaf =>
    case Node(l, _, c, r) => HeightBySteps(l, Down(c, k)); HeightBySteps(r, Down(c, k));
  }

  lemma {:induction false} Pow2Double(k: nat)
    ensures Pow2(2 * k) == Pow2(k) * Pow2(k)
  {
    if k > 0 {
      Pow2Double(k - 1);
      assert Pow2(2 * k) == 2 * (2 * Pow2(2 * (k - 1)));
    }
  }

  lemma {:induction false} Pow2Grows(i: nat, j: nat)
    requires i <= j
    ensures Pow2(i) <= Pow2(j)
    decreases j - i
  {
    if i < j { Pow2Grows(i, j - 1); }
  }

  lemma SquareGrows(a: nat, b: nat)
    requires a <= b
    ensures a * a <= b * b
  {
    assert a * a <= a * b <= b * b;
  }

  /** A red-black tree of n nodes is at most 2*log2(n+1) high. */
  lemma HeightBound(t: Tree)
    requires RedBlack(t)
    ensures Pow2(Height(t)) <= (Size(t) + 1) * (Size(t) + 1)
  {
    var k: int :| RB(t, k);
    HeightBySteps(t, k);
    Pow2Grows(Height(t), 2 * k);
    Pow2Double(k);
    SquareGrows(Pow2(k), Size(t) + 1);
  }

  lemma {:induction false} SizeIsRange(t: Tree, lo: int, hi: int)
    requires Ordered(t, lo, hi, -1) && lo >= 0
    ensures Size(t) == hi - lo
  {
    match t
    case Leaf =>
    case Node(l, i, _, r) => SizeIsRange(l, lo, i); SizeIsRange(r, i + 1, hi);
  }

  /** A descent never goes deeper than the tree is high. */
  lemma {:induction false} DepthBound(ctx: Ctx, t: Tree)
    ensures Depth(ctx) + Height(t) <= Height(Plug(ctx, t))
    decreases ctx
  {
    match ctx
    case Top =>
    case InLeft(i, c, r, up) => DepthBound(up, Node(t, i, c, r));
    case InRight(l, i, c, up) => DepthBound(up, Node(l, i, c, t));
  }
}
