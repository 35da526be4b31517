/** The insertion that the indexes on an integer key share: equal keys go to the left, so a
    new node comes before every node with the same key. */
module KeyIndex {
  import opened RbTree
  import opened RbBalance
  import opened RbHeap
  import opened RbIndex

  ghost function Keys(s: seq<RbNode>): seq<int>
    reads set n | n in s :: n.record
  {
    seq(|s|, i requires 0 <= i < |s| reads set n | n in s :: n.record => s[i].record.key)
  }

  ghost predicate Sorted(ks: seq<int>) {
    forall i, j :: 0 <= i <= j < |ks| ==> ks[i] <= ks[j]
  }

  /** How many keys at the front are smaller than `key`. */
  function LowerBound(ks: seq<int>, key: int): (i: nat)
    ensures i <= |ks|
    ensures forall j :: 0 <= j < i ==> ks[j] < key
    ensures i < |ks| ==> ks[i] >= key
  {
    if ks == [] || ks[0] >= key then 0 else 1 + LowerBound(ks[1..], key)
  }

  /** In a sorted sequence the boundary between smaller keys and the others is unique. */
  lemma {:induction false} LowerBoundUnique(ks: seq<int>, key: int, i: nat)
    requires i <= |ks|
    requires forall j :: 0 <= j < i ==> ks[j] < key
    requires forall j :: i <= j < |ks| ==> ks[j] >= key
    ensures LowerBound(ks, key) == i
  {
    if i > 0 {
      assert ks[0] < key;
      LowerBoundUnique(ks[1..], key, i - 1);
    }
  }

  function Inserted(ks: seq<int>, key: int): seq<int> {
    var i := LowerBound(ks, key);
    ks[..i] + [key] + ks[i..]
  }

  lemma InsertSorted(ks: seq<int>, key: int)
    requires Sorted(ks)
    ensures Sorted(Inserted(ks, key))
  {
  }

  function Removed(ks: seq<int>, i: nat): seq<int>
    requires i < |ks|
  {
    ks[..i] + ks[i + 1..]
  }

  lemma RemoveSorted(ks: seq<int>, i: nat)
    requires Sorted(ks) && i < |ks|
    ensures Sorted(Removed(ks, i))
  {
  }

  lemma KeysInsert(s: seq<RbNode>, ks: seq<int>, x: RbNode)
    requires ks == Keys(s)
    ensures |ks| == |s| && Keys(InsertAt(s, LowerBound(ks, x.record.key), x)) == Inserted(ks, x.record.key)
  {
  }

  lemma KeysRemove(s: seq<RbNode>, i: nat)
    requires i < |s|
    ensures |Keys(s)| == |s| && Keys(RemoveAt(s, i)) == Removed(Keys(s), i)
  {
  }

  /** The descent of the `Add...` functions ends at a hole; when the keys are sorted it is the one
      where a node with this key belongs. */
  method FindHole(root: RbRoot, key: int) returns (parent: RbNode?, left: bool, ghost ctx: Ctx, ghost k: int)
    requires root.Valid()
    ensures Walk(root.mem, Leaf, ctx, k, root.tree)
    ensures parent == At(root.s, Above(ctx)) && (parent != null ==> left == ctx.InLeft?)
    ensures 0 <= Lo(ctx) <= |root.s| && (Sorted(Keys(root.s)) ==> Lo(ctx) == LowerBound(Keys(root.s), key))
    ensures Pow2(Depth(ctx)) <= (|root.s| + 1) * (|root.s| + 1)
  {
    hide View, RB, RBCtx, RedBlack, Walk, Plug, Lo, Hi, RbRoot.Sync;
    parent := null;
    var curr := root.node;
    left := true;
    k := WalkStart(root);
    ghost var t, s, ks := root.tree, root.s, Keys(root.s);
    ctx := Top;
    TopRange(|s|);
    WalkReads(root, t, ctx, k);
    root.WholeTree();
    while curr != null
      invariant Walk(root.mem, t, ctx, k, root.tree) && curr == At(s, Root(t)) && parent == At(s, Above(ctx))
      invariant parent != null ==> left == ctx.InLeft?
      invariant 0 <= Lo(ctx) <= Hi(ctx, |s|) <= |s|
      invariant t.Leaf? ==> Lo(ctx) == Hi(ctx, |s|) && curr == null
      invariant t.Node? ==> curr != null
      invariant Sorted(ks) ==> forall j :: 0 <= j < Lo(ctx) ==> ks[j] < key
      invariant Sorted(ks) ==> forall j :: Hi(ctx, |s|) <= j < |s| ==> ks[j] >= key
      decreases t
    {
      WalkReads(root, t, ctx, k);
      parent := curr;
      assert ks[t.i] == curr.record.key;
      if key < curr.record.key {
        StepLeft(root, t, ctx, k);
        curr, left := curr.left, true;
        t, ctx, k := t.l, InLeft(t.i, t.c, t.r, ctx), Down(t.c, k);
      } else if key > curr.record.key {
        StepRight(root, t, ctx, k);
        curr, left := curr.right, false;
        t, ctx, k := t.r, InRight(t.l, t.i, t.c, ctx), Down(t.c, k);
      } else {
        StepLeft(root, t, ctx, k);
        curr, left := curr.left, true;
        t, ctx, k := t.l, InLeft(t.i, t.c, t.r, ctx), Down(t.c, k);
      }
    }
    WalkLength(root, t, ctx, k);
    if Sorted(ks) { LowerBoundUnique(ks, key, Lo(ctx)); }
  }

  /** `AddLeastConnectionCountTreeNode`, `AddHttpSessionElapseTreeNode`,
      `AddHttpSessionTimeoutTreeNode`, `AddHtmlCacheWdTreeNode` */
  method Add(root: RbRoot, x: RbNode) returns (ghost steps: nat, ghost at: nat)
    requires root.Valid() && x !in root.s
    modifies root, root.s, x
    ensures root.Valid()
    ensures at <= |old(root.s)| && root.s == InsertAt(old(root.s), at, x)
    ensures Sorted(old(Keys(root.s))) ==> at == LowerBound(old(Keys(root.s)), x.record.key)
    ensures Sorted(old(Keys(root.s))) ==> Keys(root.s) == Inserted(old(Keys(root.s)), x.record.key) && Sorted(Keys(root.s))
    ensures Pow2(steps) <= (|old(root.s)| + 1) * (|old(root.s)| + 1)
  {
    hide Walk, Lo, RbRoot.Valid, InsertAt, LowerBound, Sorted, Inserted;
    ghost var s, ks := root.s, Keys(root.s);
    var parent, left;
    ghost var ctx, k;
    parent, left, ctx, k := FindHole(root, x.record.key);
    steps, at := Depth(ctx), Lo(ctx);
    ghost var ks' := Keys(InsertAt(s, at, x));
    if Sorted(ks) {
      KeysInsert(s, ks, x);
      InsertSorted(ks, x.record.key);
    }
    LinkAndRebalance(root, x, parent, left, ctx, k);
    assert Keys(root.s) == ks';
  }

  /** `RemoveLeastConnectionCountTreeNode` and its namesakes: no key is looked at. */
  method Remove(root: RbRoot, x: RbNode)
    requires root.Valid() && x in root.s
    modifies root, root.s
    ensures root.Valid()
    ensures 0 <= old(x.pos) < |old(root.s)| && old(root.s)[old(x.pos)] == x
    ensures root.s == RemoveAt(old(root.s), old(x.pos)) && x !in root.s
    ensures Keys(root.s) == Removed(old(Keys(root.s)), old(x.pos))
  {
    KeysRemove(root.s, x.pos);
    ghost var ks := Keys(RemoveAt(root.s, x.pos));
    hide RbRoot.Valid, RemoveAt, Removed;
    root.Erase(x);
    assert Keys(root.s) == ks;
  }
}
