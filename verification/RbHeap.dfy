/** `struct rb_root` on the heap, and the writes the algorithms are made of. */
module RbHeap {
  import opened RbTree
  import R = RbRotate
  import opened RbBalance
  import I = RbInsert
  import E = RbErase
  import P = RbSplice
  import H = RbShift
  import N = RbReplace

  /** The pointer for a position. */
  function At(s: seq<RbNode>, i: int): RbNode? {
    if 0 <= i < |s| then s[i] else null
  }

  ghost function RemoveAt(s: seq<RbNode>, i: int): seq<RbNode>
    requires 0 <= i < |s|
  {
    s[..i] + s[i + 1..]
  }

  lemma RemovedAt(s: seq<RbNode>, g: int, j: int)
    requires 0 <= g < |s| && 0 <= j < |s| - 1
    ensures |RemoveAt(s, g)| == |s| - 1 && RemoveAt(s, g)[j] == s[if j < g then j else j + 1]
  {
  }

  lemma AtRemoved(s: seq<RbNode>, g: int, i: int)
    requires 0 <= g < |s| && i != g && NIL <= i < |s|
    ensures |RemoveAt(s, g)| == |s| - 1 && At(RemoveAt(s, g), H.Down1(i, g)) == At(s, i) && NIL <= H.Down1(i, g) < |s| - 1
  {
  }

  ghost function InsertAt(s: seq<RbNode>, i: int, x: RbNode): seq<RbNode>
    requires 0 <= i <= |s|
  {
    s[..i] + [x] + s[i..]
  }

  lemma AtInserted(s: seq<RbNode>, k: int, x: RbNode, i: int)
    requires 0 <= k <= |s| && NIL <= i < |s|
    ensures At(InsertAt(s, k, x), H.Up1(i, k)) == At(s, i) && NIL <= H.Up1(i, k) < |s| + 1
  {
  }

  ghost predicate PtrOk(n: int, i: int) { NIL <= i < n }

  ghost predicate CellOk(n: int, c: Cell) {
    PtrOk(n, c.left) && PtrOk(n, c.right) && PtrOk(n, c.parent)
  }

  ghost predicate Matches(s: seq<RbNode>, i: int, n: RbNode, c: Cell)
    reads n
  {
    n.pos == i && n.left == At(s, c.left) && n.right == At(s, c.right) && n.parent == At(s, c.parent) && n.color == c.color
  }

  /** The fields of a node, which moves from position `i` when a hole is opened at `k`. */
  ghost predicate Shifted(s: seq<RbNode>, i: int, n: RbNode, c: Cell, k: int)
    reads n
  {
    && n.pos == H.Up1(i, k) && n.left == At(s, c.left) && n.right == At(s, c.right)
    && n.parent == At(s, c.parent) && n.color == c.color
  }

  lemma HoleOpened(s: seq<RbNode>, m: Mem, k: int, p: int, x: RbNode)
    requires 0 <= k <= |s| == |m.cells|
    ensures |InsertAt(s, k, x)| == |s| + 1 == |H.OpenMem(m, k, p).cells| && H.OpenMem(m, k, p).root == H.Up1(m.root, k)
  {
  }

  lemma NewCell(s: seq<RbNode>, m: Mem, k: int, q: int, x: RbNode)
    requires 0 <= k <= |s| == |m.cells| && PtrOk(|s|, q) && x.pos == k
    requires x.left == null && x.right == null && x.parent == At(s, q) && x.color == Red
    ensures var t, c := InsertAt(s, k, x), H.OpenMem(m, k, H.Up1(q, k)).cells[k];
      t[k] == x && CellOk(|t|, c) && Matches(t, k, x, c)
  {
    AtInserted(s, k, x, q);
  }

  lemma MatchesOpened(s: seq<RbNode>, m: Mem, k: int, p: int, x: RbNode, i: int)
    requires 0 <= k <= |s| == |m.cells| && 0 <= i < |s|
    requires CellOk(|s|, m.cells[i]) && Shifted(s, i, s[i], m.cells[i], k)
    ensures var t, j := InsertAt(s, k, x), H.Up1(i, k); var c := H.OpenMem(m, k, p).cells[j];
      t[j] == s[i] && CellOk(|t|, c) && Matches(t, j, t[j], c)
  {
    var c := m.cells[i];
    H.OpenAt(m, k, p, i);
    AtInserted(s, k, x, c.left);
    AtInserted(s, k, x, c.right);
    AtInserted(s, k, x, c.parent);
  }

  lemma AllOpened(s: seq<RbNode>, m: Mem, k: int, q: int, x: RbNode)
    requires 0 <= k <= |s| == |m.cells| && PtrOk(|s|, q) && x.pos == k
    requires x.left == null && x.right == null && x.parent == At(s, q) && x.color == Red
    requires forall i :: 0 <= i < |s| ==> CellOk(|s|, m.cells[i]) && Shifted(s, i, s[i], m.cells[i], k)
    ensures var t, n := InsertAt(s, k, x), H.OpenMem(m, k, H.Up1(q, k));
      && |t| == |s| + 1 == |n.cells| && n.root == H.Up1(m.root, k)
      && forall j :: 0 <= j < |t| ==> CellOk(|t|, n.cells[j]) && Matches(t, j, t[j], n.cells[j])
  {
    hide Shifted, CellOk, Matches, InsertAt, H.OpenMem, At;
    HoleOpened(s, m, k, H.Up1(q, k), x);
    var t, n := InsertAt(s, k, x), H.OpenMem(m, k, H.Up1(q, k));
    forall j | 0 <= j < |t| ensures CellOk(|t|, n.cells[j]) && Matches(t, j, t[j], n.cells[j]) {
      if j == k {
        NewCell(s, m, k, q, x);
      } else {
        MatchesOpened(s, m, k, H.Up1(q, k), x, if j < k then j else j - 1);
      }
    }
  }

  class RbRoot {
    var node: RbNode?
    /** The linked nodes in order, and the shape they form. */
    ghost var s: seq<RbNode>
    ghost var mem: Mem
    ghost var tree: Tree

    ghost predicate Sync()
      reads `node, `s, `mem, s
    {
      && |mem.cells| == |s| && PtrOk(|s|, mem.root) && node == At(s, mem.root)
      && forall i :: 0 <= i < |s| ==> CellOk(|s|, mem.cells[i]) && Matches(s, i, s[i], mem.cells[i])
    }

    /** What position `i` says about its node. */
    lemma Read(i: int)
      requires Sync() && 0 <= i < |s|
      ensures |mem.cells| == |s| && node == At(s, mem.root) && CellOk(|s|, mem.cells[i]) && Matches(s, i, s[i], mem.cells[i])
    {
    }

    lemma ReadRoot()
      requires Sync()
      ensures |mem.cells| == |s| && PtrOk(|s|, mem.root) && node == At(s, mem.root)
    {
    }

    lemma Same(i: int, j: int)
      requires Sync() && PtrOk(|s|, i) && PtrOk(|s|, j)
      ensures At(s, i) == At(s, j) <==> i == j
    {
    }

    method SetLeft(n: RbNode, v: RbNode?, ghost i: int, ghost j: int)
      requires Sync() && 0 <= i < |s| && s[i] == n && PtrOk(|s|, j) && v == At(s, j)
      modifies `mem, n
      ensures Sync() && mem == R.SetLeft(old(mem), i, j)
    {
      n.left := v;
      mem := R.SetLeft(mem, i, j);
    }

    method SetRight(n: RbNode, v: RbNode?, ghost i: int, ghost j: int)
      requires Sync() && 0 <= i < |s| && s[i] == n && PtrOk(|s|, j) && v == At(s, j)
      modifies `mem, n
      ensures Sync() && mem == R.SetRight(old(mem), i, j)
    {
      n.right := v;
      mem := R.SetRight(mem, i, j);
    }

    method SetParent(n: RbNode, v: RbNode?, ghost i: int, ghost j: int)
      requires Sync() && 0 <= i < |s| && s[i] == n && PtrOk(|s|, j) && v == At(s, j)
      modifies `mem, n
      ensures Sync() && mem == R.SetParent(old(mem), i, j)
    {
      n.parent := v;
      mem := R.SetParent(mem, i, j);
    }

    method SetColor(n: RbNode, c: Color, ghost i: int)
      requires Sync() && 0 <= i < |s| && s[i] == n
      modifies `mem, n
      ensures Sync() && mem == R.SetColor(old(mem), i, c)
      ensures n.left == old(n.left) && n.right == old(n.right) && n.parent == old(n.parent) && n.color == c
    {
      n.color := c;
      mem := R.SetColor(mem, i, c);
    }

    method SetRoot(v: RbNode?, ghost j: int)
      requires Sync() && PtrOk(|s|, j) && v == At(s, j)
      modifies `mem, `node
      ensures Sync() && mem == old(mem).(root := j)
    {
      node := v;
      mem := mem.(root := j);
    }

    /** `__rb_rotate_left` */
    method RotateLeft(x: RbNode, ghost i: int, ghost y: int, ghost b: int, ghost p: int)
      requires Sync() && R.LeftTurn(mem, i, y, b, p) && s[i] == x
      modifies `mem, `node, s
      ensures Sync() && mem == R.RotateLeft(old(mem), i)
    {
      hide Sync;
      ReadRoot();
      Read(i); Read(y);
      var right := x.right;
      var parent := x.parent;
      hide R.Put;
      SetRight(x, right.left, i, b);
      Read(i); Read(y);
      if x.right != null {
        SetParent(right.left, x, b, i);
      }
      SetLeft(right, x, y, i);
      SetParent(right, parent, y, p);
      if parent != null {
        Read(p); Same(mem.cells[p].left, i);
        if x == parent.left {
          SetLeft(parent, right, p, y);
        } else {
          SetRight(parent, right, p, y);
        }
      } else {
        SetRoot(right, y);
      }
      SetParent(x, right, i, y);
    }

    /** `__rb_rotate_right` */
    method RotateRight(x: RbNode, ghost i: int, ghost y: int, ghost b: int, ghost p: int)
      requires Sync() && R.RightTurn(mem, i, y, b, p) && s[i] == x
      modifies `mem, `node, s
      ensures Sync() && mem == R.RotateRight(old(mem), i)
    {
      hide Sync;
      ReadRoot();
      Read(i); Read(y);
      var left := x.left;
      var parent := x.parent;
      hide R.Put;
      SetLeft(x, left.right, i, b);
      Read(i); Read(y);
      if x.left != null {
        SetParent(left.right, x, b, i);
      }
      SetRight(left, x, y, i);
      SetParent(left, parent, y, p);
      if parent != null {
        Read(p); Same(mem.cells[p].right, i);
        if x == parent.right {
          SetRight(parent, left, p, y);
        } else {
          SetLeft(parent, left, p, y);
        }
      } else {
        SetRoot(left, y);
      }
      SetParent(x, left, i, y);
    }

    /** What the insert fix-up reads around the focus. */
    lemma Around(t: Tree, ctx: Ctx, k: int)
      requires Sync() && I.Inserting(mem, t, ctx, k)
      ensures t.Node? && t.c == Red && 0 <= t.i < |s| && s[t.i].parent == At(s, Above(ctx)) && At(s, t.i) == s[t.i] && |mem.cells| == |s|
      ensures !ctx.Top? ==> 0 <= ctx.i < |s| && s[ctx.i].color == ctx.c && At(s, ctx.i) == s[ctx.i]
      ensures !ctx.Top? ==> (s[ctx.i].left == s[t.i] <==> ctx.InLeft?) && (s[ctx.i].right == s[t.i] <==> ctx.InRight?)
      ensures UpRed(ctx) ==>
        && !ctx.up.Top? && ctx.up.c == Black && 0 <= ctx.up.i < |s| && s[ctx.i].parent == s[ctx.up.i]
        && (s[ctx.up.i].left == s[ctx.i] <==> ctx.up.InLeft?)
        && (ctx.up.InLeft? ==> s[ctx.up.i].right == At(s, Root(ctx.up.r)))
        && (ctx.up.InRight? ==> s[ctx.up.i].left == At(s, Root(ctx.up.l)))
        && Depth(ctx) == Depth(ctx.up.up) + 2
      ensures UpRed(ctx) ==> var u := R.Sibling(ctx.up);
        && (u.Node? ==> 0 <= u.i < |s| && s[u.i].color == u.c && At(s, Root(u)) == s[u.i])
        && (u.Leaf? ==> At(s, Root(u)) == null)
    {
      I.Links(mem, t, ctx, k);
      Read(t.i);
      if !ctx.Top? { Read(ctx.i); }
      if UpRed(ctx) {
        I.GrandLinks(mem, t, ctx, k);
        Read(ctx.up.i);
        var u := R.Sibling(ctx.up);
        if u.Node? { Read(u.i); }
      }
    }

    /** One round of `rb_insert_color` when the parent is a left child. */
    method InsertLeft(node0: RbNode, parent0: RbNode, gparent: RbNode, ghost t0: Tree, ghost ctx0: Ctx, ghost k0: int)
      returns (node': RbNode, ghost t: Tree, ghost ctx: Ctx, ghost k: int)
      requires Sync() && I.Inserting(mem, t0, ctx0, k0) && UpRed(ctx0) && ctx0.up.InLeft?
      requires node0 == At(s, t0.i) && parent0 == At(s, ctx0.i) && gparent == At(s, ctx0.up.i)
      modifies `mem, `node, s
      ensures Sync() && I.Inserting(mem, t, ctx, k) && t.Node? && node' == At(s, t.i)
      ensures Depth(ctx) < Depth(ctx0)
    {
      node' := node0;
      var parent := parent0;
      t, ctx, k := t0, ctx0, k0;
      hide Sync, I.Inserting, View, RB, RBCtx, RedBlack, R.SetColor, R.RotateLeft, R.RotateRight, R.LeftTurn, R.RightTurn, I.Recoloured, Matches;
      Around(t, ctx, k);
      var uncle := gparent.right;
      if uncle != null && uncle.color == Red {
        I.Recolour(mem, t, ctx, k);
        SetColor(uncle, Black, ctx.up.r.i);
        SetColor(parent, Black, ctx.i);
        SetColor(gparent, Red, ctx.up.i);
        t, ctx, k := I.Recoloured(t, ctx), ctx.up.up, k + 1;
        node' := gparent;
        return;
      }
      if parent.right == node' {
        I.TurnOutLeft(mem, ctx.l, ctx.i, t.l, t.i, t.r, ctx.up, k);
        RotateLeft(parent, ctx.i, t.i, Root(t.l), Above(ctx.up));
        t, ctx := Node(ctx.l, ctx.i, Red, t.l), InLeft(t.i, Red, t.r, ctx.up);
        parent, node' := node', parent;
      }
      I.LiftLeft(mem, t, ctx.i, ctx.r, ctx.up.i, ctx.up.r, ctx.up.up, k);
      SetColor(parent, Black, ctx.i);
      SetColor(gparent, Red, ctx.up.i);
      RotateRight(gparent, ctx.up.i, ctx.i, Root(ctx.r), Above(ctx.up.up));
      ctx := InLeft(ctx.i, Black, Node(ctx.r, ctx.up.i, Red, ctx.up.r), ctx.up.up);
    }

    /** One round of `rb_insert_color` when the parent is a right child. */
    method InsertRight(node0: RbNode, parent0: RbNode, gparent: RbNode, ghost t0: Tree, ghost ctx0: Ctx, ghost k0: int)
      returns (node': RbNode, ghost t: Tree, ghost ctx: Ctx, ghost k: int)
      requires Sync() && I.Inserting(mem, t0, ctx0, k0) && UpRed(ctx0) && ctx0.up.InRight?
      requires node0 == At(s, t0.i) && parent0 == At(s, ctx0.i) && gparent == At(s, ctx0.up.i)
      modifies `mem, `node, s
      ensures Sync() && I.Inserting(mem, t, ctx, k) && t.Node? && node' == At(s, t.i)
      ensures Depth(ctx) < Depth(ctx0)
    {
      node' := node0;
      var parent := parent0;
      t, ctx, k := t0, ctx0, k0;
      hide Sync, I.Inserting, View, RB, RBCtx, RedBlack, R.SetColor, R.RotateLeft, R.RotateRight, R.LeftTurn, R.RightTurn, I.Recoloured, Matches;
      Around(t, ctx, k);
      var uncle := gparent.left;
      if uncle != null && uncle.color == Red {
        I.Recolour(mem, t, ctx, k);
        SetColor(uncle, Black, ctx.up.l.i);
        SetColor(parent, Black, ctx.i);
        SetColor(gparent, Red, ctx.up.i);
        t, ctx, k := I.Recoloured(t, ctx), ctx.up.up, k + 1;
        node' := gparent;
        return;
      }
      if parent.left == node' {
        I.TurnOutRight(mem, t.l, t.i, t.r, ctx.i, ctx.r, ctx.up, k);
        RotateRight(parent, ctx.i, t.i, Root(t.r), Above(ctx.up));
        t, ctx := Node(t.r, ctx.i, Red, ctx.r), InRight(t.l, t.i, Red, ctx.up);
        parent, node' := node', parent;
      }
      I.LiftRight(mem, t, ctx.l, ctx.i, ctx.up.l, ctx.up.i, ctx.up.up, k);
      SetColor(parent, Black, ctx.i);
      SetColor(gparent, Red, ctx.up.i);
      RotateLeft(gparent, ctx.up.i, ctx.i, Root(ctx.l), Above(ctx.up.up));
      ctx := InRight(Node(ctx.up.l, ctx.up.i, Red, ctx.l), ctx.i, Black, ctx.up.up);
    }

    /** `rb_insert_color` */
    method InsertColor(start: RbNode, ghost t0: Tree, ghost ctx0: Ctx)
      requires Sync() && I.Inserting(mem, t0, ctx0, 0) && start == At(s, t0.i)
      modifies `mem, `node, `tree, s
      ensures Sync() && View(mem, tree, Top, -1) && RedBlack(tree)
    {
      var node' := start;
      ghost var t, ctx, k := t0, ctx0, 0;
      hide Sync, I.Inserting, View, RB, RBCtx, RedBlack, R.SetColor, R.RotateLeft, R.RotateRight, R.LeftTurn, R.RightTurn, I.Recoloured, Matches;
      Around(t, ctx, k);
      while node'.parent != null && node'.parent.color == Red
        invariant Sync() && I.Inserting(mem, t, ctx, k) && t.Node? && node' == At(s, t.i)
        decreases Depth(ctx)
      {
        var parent := node'.parent;
        var gparent := parent.parent;
        Around(t, ctx, k);
        if parent == gparent.left {
          node', t, ctx, k := InsertLeft(node', parent, gparent, t, ctx, k);
        } else {
          node', t, ctx, k := InsertRight(node', parent, gparent, t, ctx, k);
        }
        Around(t, ctx, k);
      }
      Around(t, ctx, k);
      I.Finish(mem, t, ctx, k);
      Read(mem.root);
      tree := Paint(Plug(ctx, t), Black);
      SetColor(node, Black, mem.root);
    }

    // ----- __rb_erase_color

    /** What the delete fix-up reads around the short side. */
    lemma Beside(t: Tree, ctx: Ctx, k: int, g: int)
      requires Sync() && E.Erasing(mem, t, ctx, k, g) && !ctx.Top? && !IsRed(t)
      ensures 0 <= ctx.i < |s| && At(s, ctx.i) == s[ctx.i] && s[ctx.i].color == ctx.c && s[ctx.i].parent == At(s, Above(ctx.up))
      ensures R.Sibling(ctx).Node? && (R.Sibling(ctx).c == Red ==> ctx.c == Black)
      ensures ctx.InLeft? ==> s[ctx.i].left == At(s, Root(t)) && s[ctx.i].right == At(s, Root(R.Sibling(ctx)))
      ensures ctx.InRight? ==> s[ctx.i].right == At(s, Root(t)) && s[ctx.i].left == At(s, Root(R.Sibling(ctx)))
      ensures At(s, Root(t)) != At(s, Root(R.Sibling(ctx)))
      ensures NodeReads(R.Sibling(ctx))
    {
      E.SiblingNode(mem, t, ctx, k, g);
      R.UpLinks(mem, t, ctx, g);
      R.SiblingLinks(mem, t, ctx, g);
      R.Nephews(mem, t, ctx, g);
      var o := R.Sibling(ctx);
      Read(ctx.i); Read(o.i);
      if t.Node? { R.HereLinks(mem, t, ctx, g); Read(t.i); }
      if o.l.Node? { Read(o.l.i); }
      if o.r.Node? { Read(o.r.i); }
    }

    /** The node of `o` and the colours of its children are as in the shape. */
    ghost predicate NodeReads(o: Tree)
      reads `s, s
    {
      && o.Node? && 0 <= o.i < |s| && s[o.i].color == o.c
      && s[o.i].left == At(s, Root(o.l)) && s[o.i].right == At(s, Root(o.r))
      && (o.l.Node? ==> 0 <= o.l.i < |s| && s[o.l.i].color == o.l.c)
      && (o.r.Node? ==> 0 <= o.r.i < |s| && s[o.r.i].color == o.r.c)
    }

    /** One round of `__rb_erase_color` when the short side is the left one and its sibling is black. */
    method EraseLeftBlack(parent: RbNode, other0: RbNode, ghost t0: Tree, ghost ctx0: Ctx, ghost k0: int, ghost g: int)
      returns (done: bool, ghost t: Tree, ghost ctx: Ctx, ghost k: int)
      requires Sync() && E.Erasing(mem, t0, ctx0, k0, g) && ctx0.InLeft? && !IsRed(t0) && ctx0.r.Node? && !IsRed(ctx0.r)
      requires parent == At(s, ctx0.i) && other0 == At(s, ctx0.r.i)
      modifies `mem, `node, `tree, s
      ensures Sync()
      ensures done ==> E.Erased(mem, tree, g) && tree.Node?
      ensures !done ==> E.Erasing(mem, t, ctx, k, g) && ctx == ctx0.up && t.Node? && t.i == ctx0.i && t.c == ctx0.c
    {
      hide Sync, E.Erasing, E.Erased, View, RB, RBCtx, AlmostRB, RedBlack, R.SetColor, R.RotateLeft, R.RotateRight, R.LeftTurn, R.RightTurn, Matches;
      var other := other0;
      t, ctx, k, done := t0, ctx0, k0, false;
      Beside(t, ctx, k, g);
      if (other.left == null || other.left.color == Black) && (other.right == null || other.right.color == Black) {
        E.PassLeft(mem, t, ctx.i, ctx.c, ctx.r.l, ctx.r.i, ctx.r.r, ctx.up, k, g);
        SetColor(other, Red, ctx.r.i);
        t, ctx, k := Node(t, ctx.i, ctx.c, Node(ctx.r.l, ctx.r.i, Red, ctx.r.r)), ctx.up, Up(ctx.c, k);
        return;
      }
      if other.right == null || other.right.color == Black {
        ghost var x, o, b := ctx.r.l, ctx.r.i, ctx.r.r;
        E.TurnLeft(mem, t, ctx.i, ctx.c, x.l, x.i, x.r, o, b, ctx.up, k, g);
        SetColor(other.left, Black, x.i);
        SetColor(other, Red, o);
        RotateRight(other, o, x.i, Root(x.r), ctx.i);
        ctx := InLeft(ctx.i, ctx.c, Node(x.l, x.i, Black, Node(x.r, o, Red, b)), ctx.up);
        Beside(t, ctx, k, g);
        other := parent.right;
      }
      ghost var a, o, b := ctx.r.l, ctx.r.i, ctx.r.r;
      E.RepairLeft(mem, t, ctx.i, ctx.c, a, o, b, ctx.up, k, g);
      I.PlugNode(ctx.up, Node(Node(t, ctx.i, Black, a), o, ctx.c, Paint(b, Black)));
      SetColor(other, parent.color, o);
      SetColor(parent, Black, ctx.i);
      SetColor(other.right, Black, b.i);
      RotateLeft(parent, ctx.i, o, Root(a), Above(ctx.up));
      tree := Plug(ctx.up, Node(Node(t, ctx.i, Black, a), o, ctx.c, Paint(b, Black)));
      done := true;
    }

    /** One round of `__rb_erase_color` when the short side is the left one. */
    method EraseLeft(node0: RbNode?, parent: RbNode, ghost t0: Tree, ghost ctx0: Ctx, ghost k0: int, ghost g: int)
      returns (done: bool, ghost t: Tree, ghost ctx: Ctx, ghost k: int)
      requires Sync() && E.Erasing(mem, t0, ctx0, k0, g) && ctx0.InLeft? && !IsRed(t0)
      requires parent == At(s, ctx0.i)
      modifies `mem, `node, `tree, s
      ensures Sync()
      ensures done ==> E.Erased(mem, tree, g) && tree.Node?
      ensures !done ==> E.Erasing(mem, t, ctx, k, g) && t.Node? && t.i == ctx0.i
      ensures !done ==> Depth(ctx) < Depth(ctx0) || (Depth(ctx) == Depth(ctx0) && IsRed(t))
    {
      hide Sync, E.Erasing, E.Erased, View, RB, RBCtx, AlmostRB, RedBlack, R.SetColor, R.RotateLeft, R.RotateRight, R.LeftTurn, R.RightTurn, Matches;
      t, ctx, k := t0, ctx0, k0;
      Beside(t, ctx, k, g);
      var other := parent.right;
      if other.color == Red {
        ghost var a, o, b := ctx.r.l, ctx.r.i, ctx.r.r;
        E.SinkLeft(mem, t, ctx.i, ctx.c, a, o, b, ctx.up, k, g);
        SetColor(other, Black, o);
        SetColor(parent, Red, ctx.i);
        RotateLeft(parent, ctx.i, o, Root(a), Above(ctx.up));
        ctx := InLeft(ctx.i, Red, a, InLeft(o, Black, b, ctx.up));
        Beside(t, ctx, k, g);
        other := parent.right;
      }
      done, t, ctx, k := EraseLeftBlack(parent, other, t, ctx, k, g);
    }

    /** One round of `__rb_erase_color` when the short side is the right one and its sibling is black. */
    method EraseRightBlack(parent: RbNode, other0: RbNode, ghost t0: Tree, ghost ctx0: Ctx, ghost k0: int, ghost g: int)
      returns (done: bool, ghost t: Tree, ghost ctx: Ctx, ghost k: int)
      requires Sync() && E.Erasing(mem, t0, ctx0, k0, g) && ctx0.InRight? && !IsRed(t0) && ctx0.l.Node? && !IsRed(ctx0.l)
      requires parent == At(s, ctx0.i) && other0 == At(s, ctx0.l.i)
      modifies `mem, `node, `tree, s
      ensures Sync()
      ensures done ==> E.Erased(mem, tree, g) && tree.Node?
      ensures !done ==> E.Erasing(mem, t, ctx, k, g) && ctx == ctx0.up && t.Node? && t.i == ctx0.i && t.c == ctx0.c
    {
      hide Sync, E.Erasing, E.Erased, View, RB, RBCtx, AlmostRB, RedBlack, R.SetColor, R.RotateLeft, R.RotateRight, R.LeftTurn, R.RightTurn, Matches;
      var other := other0;
      t, ctx, k, done := t0, ctx0, k0, false;
      Beside(t, ctx, k, g);
      if (other.left == null || other.left.color == Black) && (other.right == null || other.right.color == Black) {
        E.PassRight(mem, t, ctx.i, ctx.c, ctx.l.r, ctx.l.i, ctx.l.l, ctx.up, k, g);
        SetColor(other, Red, ctx.l.i);
        t, ctx, k := Node(Node(ctx.l.l, ctx.l.i, Red, ctx.l.r), ctx.i, ctx.c, t), ctx.up, Up(ctx.c, k);
        return;
      }
      if other.left == null || other.left.color == Black {
        ghost var x, o, b := ctx.l.r, ctx.l.i, ctx.l.l;
        E.TurnRight(mem, t, ctx.i, ctx.c, x.r, x.i, x.l, o, b, ctx.up, k, g);
        SetColor(other.right, Black, x.i);
        SetColor(other, Red, o);
        RotateLeft(other, o, x.i, Root(x.l), ctx.i);
        ctx := InRight(Node(Node(b, o, Red, x.l), x.i, Black, x.r), ctx.i, ctx.c, ctx.up);
        Beside(t, ctx, k, g);
        other := parent.left;
      }
      ghost var a, o, b := ctx.l.r, ctx.l.i, ctx.l.l;
      E.RepairRight(mem, t, ctx.i, ctx.c, a, o, b, ctx.up, k, g);
      I.PlugNode(ctx.up, Node(Paint(b, Black), o, ctx.c, Node(a, ctx.i, Black, t)));
      SetColor(other, parent.color, o);
      SetColor(parent, Black, ctx.i);
      SetColor(other.left, Black, b.i);
      RotateRight(parent, ctx.i, o, Root(a), Above(ctx.up));
      tree := Plug(ctx.up, Node(Paint(b, Black), o, ctx.c, Node(a, ctx.i, Black, t)));
      done := true;
    }

    /** One round of `__rb_erase_color` when the short side is the right one. */
    method EraseRight(node0: RbNode?, parent: RbNode, ghost t0: Tree, ghost ctx0: Ctx, ghost k0: int, ghost g: int)
      returns (done: bool, ghost t: Tree, ghost ctx: Ctx, ghost k: int)
      requires Sync() && E.Erasing(mem, t0, ctx0, k0, g) && ctx0.InRight? && !IsRed(t0)
      requires parent == At(s, ctx0.i)
      modifies `mem, `node, `tree, s
      ensures Sync()
      ensures done ==> E.Erased(mem, tree, g) && tree.Node?
      ensures !done ==> E.Erasing(mem, t, ctx, k, g) && t.Node? && t.i == ctx0.i
      ensures !done ==> Depth(ctx) < Depth(ctx0) || (Depth(ctx) == Depth(ctx0) && IsRed(t))
    {
      hide Sync, E.Erasing, E.Erased, View, RB, RBCtx, AlmostRB, RedBlack, R.SetColor, R.RotateLeft, R.RotateRight, R.LeftTurn, R.RightTurn, Matches;
      t, ctx, k := t0, ctx0, k0;
      Beside(t, ctx, k, g);
      var other := parent.left;
      if other.color == Red {
        ghost var a, o, b := ctx.l.r, ctx.l.i, ctx.l.l;
        E.SinkRight(mem, t, ctx.i, ctx.c, a, o, b, ctx.up, k, g);
        SetColor(other, Black, o);
        SetColor(parent, Red, ctx.i);
        RotateRight(parent, ctx.i, o, Root(a), Above(ctx.up));
        ctx := InRight(a, ctx.i, Red, InRight(b, o, Black, ctx.up));
        Beside(t, ctx, k, g);
        other := parent.left;
      }
      done, t, ctx, k := EraseRightBlack(parent, other, t, ctx, k, g);
    }

    /** What the delete fix-up reads at the focus. */
    lemma AtFocus(t: Tree, ctx: Ctx, k: int, g: int)
      requires Sync() && E.Erasing(mem, t, ctx, k, g)
      ensures |mem.cells| == |s| && PtrOk(|s|, Root(t)) && (At(s, Root(t)) == node <==> ctx.Top?)
      ensures t.Node? ==> 0 <= t.i < |s| && At(s, Root(t)) == s[t.i] && s[t.i].color == t.c && s[t.i].parent == At(s, Above(ctx))
      ensures t.Leaf? ==> At(s, Root(t)) == null
    {
      E.AtRoot(mem, t, ctx, g);
      Same(Root(t), mem.root);
      if t.Node? { R.HereLinks(mem, t, ctx, g); Read(t.i); }
    }

    /** `__rb_erase_color` */
    method EraseColor(node0: RbNode?, parent0: RbNode?, ghost t0: Tree, ghost ctx0: Ctx, ghost k0: int, ghost g: int)
      requires Sync() && E.Erasing(mem, t0, ctx0, k0, g)
      requires node0 == At(s, Root(t0)) && parent0 == At(s, Above(ctx0))
      modifies `mem, `node, `tree, s
      ensures Sync() && E.Erased(mem, tree, g)
    {
      hide Sync, E.Erasing, E.Erased, View, RB, RBCtx, AlmostRB, RedBlack, R.SetColor, Matches;
      var node', parent := node0, parent0;
      ghost var t, ctx, k := t0, ctx0, k0;
      AtFocus(t, ctx, k, g);
      ghost var repaired := false;
      while (node' == null || node'.color == Black) && node' != node
        invariant Sync() && E.Erasing(mem, t, ctx, k, g) && !repaired
        invariant node' == At(s, Root(t)) && parent == At(s, Above(ctx))
        decreases Depth(ctx), if IsRed(t) then 0 else 1
      {
        var done;
        AtFocus(t, ctx, k, g);
        Beside(t, ctx, k, g);
        if parent.left == node' {
          done, t, ctx, k := EraseLeft(node', parent, t, ctx, k, g);
        } else {
          done, t, ctx, k := EraseRight(node', parent, t, ctx, k, g);
        }
        if done {
          node' := node;
          repaired := true;
          break;
        }
        AtFocus(t, ctx, k, g);
        node' := parent;
        parent := node'.parent;
      }
      if repaired {
        E.Repaint(mem, tree, g);
        ReadRoot();
      } else {
        AtFocus(t, ctx, k, g);
        E.Finish(mem, t, ctx, k, g);
        tree := Plug(ctx, Paint(t, Black));
      }
      if node' != null {
        SetColor(node', Black, if repaired then mem.root else t.i);
      }
    }

    // ----- rb_erase

    /** What `rb_erase` reads at a node. */
    lemma AtNode(t: Tree, ctx: Ctx)
      requires Sync() && View(mem, t, ctx, -1) && t.Node?
      ensures |mem.cells| == |s| && 0 <= t.i < |s| && At(s, Root(t)) == s[t.i]
      ensures mem.Has(t.i, Root(t.l), Root(t.r), Above(ctx), t.c) && PtrOk(|s|, Above(ctx))
      ensures s[t.i].left == At(s, Root(t.l)) && s[t.i].right == At(s, Root(t.r))
      ensures s[t.i].parent == At(s, Above(ctx)) && s[t.i].color == t.c
      ensures t.l.Node? ==> 0 <= t.l.i < |s|
      ensures t.r.Node? ==> 0 <= t.r.i < |s|
    {
      hide View;
      R.HereLinks(mem, t, ctx, -1);
      Read(t.i);
      if t.l.Node? {
        R.FocusUp(mem, t.l, InLeft(t.i, t.c, t.r, ctx), -1);
        R.HereLinks(mem, t.l, InLeft(t.i, t.c, t.r, ctx), -1);
      }
      if t.r.Node? {
        R.FocusUp(mem, t.r, InRight(t.l, t.i, t.c, ctx), -1);
        R.HereLinks(mem, t.r, InRight(t.l, t.i, t.c, ctx), -1);
      }
    }

    /** `if (parent) ... else root->rb_node = y`, where `x` is linked below `parent`. */
    method ReplaceChild(parent: RbNode?, x: RbNode, y: RbNode?, ghost p: int, ghost i: int, ghost j: int)
      requires Sync() && PtrOk(|s|, p) && parent == At(s, p) && 0 <= i < |s| && s[i] == x && PtrOk(|s|, j) && y == At(s, j)
      modifies `mem, `node, s
      ensures Sync() && mem == R.ReplaceChild(old(mem), p, i, j)
    {
      if parent != null {
        Read(p);
        Same(mem.cells[p].left, i);
        hide Sync;
        if parent.left == x {
          SetLeft(parent, y, p, j);
        } else {
          SetRight(parent, y, p, j);
        }
      } else {
        SetRoot(y, j);
      }
    }

    /** `rb_erase` of a node with at most one child. */
    method EraseSingle(node': RbNode, ghost l: Tree, ghost g: int, ghost c: Color, ghost r: Tree, ghost ctx: Ctx, ghost k: int)
      requires Sync() && node' == At(s, g)
      requires View(mem, Node(l, g, c, r), ctx, -1) && RB(Node(l, g, c, r), k) && RBCtx(ctx, k)
      requires c == Red ==> !ctx.Top? && !UpRed(ctx)
      requires l.Leaf? || r.Leaf?
      modifies `mem, `node, `tree, s
      ensures Sync() && E.Erased(mem, tree, g)
    {
      hide Sync, View, RB, RBCtx, AlmostRB, RedBlack, R.SetParent, R.ReplaceChild;
      ghost var x := if l.Leaf? then r else l;
      AtNode(Node(l, g, c, r), ctx);
      P.UnlinkView(mem, l, g, c, r, ctx);
      P.UnlinkBalance(l, g, c, r, ctx, k);
      var child := if node'.left == null then node'.right else node'.left;
      var parent := node'.parent;
      var color := node'.color;
      if child != null {
        SetParent(child, parent, Root(x), Above(ctx));
      } else {
        R.SetParentNil(mem, Above(ctx));
      }
      ReplaceChild(parent, node', child, Above(ctx), g, Root(x));
      if color == Black {
        EraseColor(child, parent, x, ctx, 0, g);
      } else {
        tree := Plug(ctx, x);
        R.PlugView(mem, x, ctx, g);
      }
    }

    /** The leftmost node below `start`. */
    method Leftmost(start: RbNode, ghost t0: Tree, ghost ctx0: Ctx) returns (node': RbNode)
      requires Sync() && View(mem, t0, ctx0, -1) && t0.Node? && start == At(s, t0.i)
      ensures P.MinTree(t0).i < |s| && node' == At(s, P.MinTree(t0).i)
    {
      hide Sync, View;
      node' := start;
      ghost var t, ctx := t0, ctx0;
      AtNode(t, ctx);
      while node'.left != null
        invariant Sync() && View(mem, t, ctx, -1) && t.Node? && 0 <= t.i < |s| && node' == At(s, t.i)
        invariant node'.left == At(s, Root(t.l)) && (t.l.Node? ==> 0 <= t.l.i < |s|)
        invariant P.MinTree(t) == P.MinTree(t0)
        decreases t
      {
        node' := node'.left;
        R.FocusUp(mem, t.l, InLeft(t.i, t.c, t.r, ctx), -1);
        t, ctx := t.l, InLeft(t.i, t.c, t.r, ctx);
        AtNode(t, ctx);
      }
    }

    /** `rb_erase` of a node with two children: its successor takes its place. */
    method EraseDouble(victim: RbNode, ghost l: Tree, ghost g: int, ghost c: Color, ghost r: Tree, ghost ctx: Ctx, ghost k: int)
      requires Sync() && victim == At(s, g)
      requires View(mem, Node(l, g, c, r), ctx, -1) && RB(Node(l, g, c, r), k) && RBCtx(ctx, k)
      requires c == Red ==> !ctx.Top? && !UpRed(ctx)
      requires l.Node? && r.Node?
      modifies `mem, `node, `tree, s
      ensures Sync() && E.Erased(mem, tree, g)
    {
      hide Sync, View, RB, RBCtx, AlmostRB, RedBlack;
      ghost var u, x, sc := P.MinTree(r).i, P.MinTree(r).r, P.MinTree(r).c;
      AtNode(Node(l, g, c, r), ctx);
      R.FocusUp(mem, r, InRight(l, g, c, ctx), -1);
      var node' := Leftmost(victim.right, r, InRight(l, g, c, ctx));
      P.SpliceBalance(l, g, c, r, ctx, k, u);
      var child, parent, color := Splice(victim, node', l, g, c, r, ctx);
      ghost var cx := P.MinCtx(r, InRight(l, u, c, ctx));
      R.FocusUp(mem, P.DelMin(r), InRight(l, u, c, ctx), g);
      P.DelMinView(mem, r, InRight(l, u, c, ctx), g);
      P.MinAbove(r, InRight(l, u, c, ctx));
      if color == Black {
        EraseColor(child, parent, x, cx, 0, g);
      } else {
        tree := Plug(cx, x);
        R.PlugView(mem, x, cx, g);
      }
    }

    /** The successor `node'` is deeper than the right child: it leaves its own right child behind. */
    method Detach(victim: RbNode, node': RbNode, ghost g: int, ghost u: int, ghost ri: int, ghost par: int, ghost x: int)
      requires Sync() && 0 <= g < |s| && victim == s[g] && 0 <= u < |s| && node' == s[u]
      requires mem.cells[g].right == ri && mem.cells[u].right == x && mem.cells[u].parent == par
      requires u != g && x != g && par != g && x != u && par != u && 0 <= par && 0 <= ri && ri != g && ri != u
      modifies `mem, s
      ensures Sync() && mem == P.Detach(old(mem), g, u)
    {
      hide Sync, R.SetParent, R.SetLeft, R.SetRight, P.Detach;
      Read(g); Read(u);
      P.DetachWrites(mem, g, u, ri, par, x);
      Same(par, u); Same(par, g); Same(x, u); Same(x, g);
      var child := node'.right;
      var parent := node'.parent;
      if child != null {
        SetParent(child, parent, x, par);
      } else {
        R.SetParentNil(mem, par);
      }
      SetLeft(parent, child, par, x);
      SetRight(node', victim.right, u, ri);
      SetParent(victim.right, node', ri, u);
    }

    /** `node'` takes over colour, parent and left child of `victim`. */
    method Adopt(victim: RbNode, node': RbNode, ghost g: int, ghost u: int)
      requires Sync() && 0 <= g < |s| && victim == s[g] && 0 <= u < |s| && node' == s[u] && u != g
      requires var li := mem.cells[g].left; 0 <= li && li != g && li != u
      modifies `mem, s
      ensures Sync() && mem == P.Adopt(old(mem), g, u)
    {
      ghost var li, p := mem.cells[g].left, mem.cells[g].parent;
      P.AdoptWrites(mem, g, u, li, p, mem.cells[g].color);
      Read(g); Same(li, g); Same(u, g);
      hide Sync, R.SetParent, R.SetLeft, R.SetColor, P.Adopt;
      SetParent(node', victim.parent, u, p);
      SetColor(node', victim.color, u);
      SetLeft(node', victim.left, u, li);
      SetParent(victim.left, node', li, u);
    }

    /** The successor `node'` takes the place of `victim`. */
    method Splice(victim: RbNode, node': RbNode, ghost l: Tree, ghost g: int, ghost c: Color, ghost r: Tree, ghost ctx: Ctx)
      returns (child: RbNode?, parent: RbNode?, color: Color)
      requires Sync() && victim == At(s, g) && View(mem, Node(l, g, c, r), ctx, -1) && l.Node? && r.Node?
      requires P.MinTree(r).i < |s| && node' == At(s, P.MinTree(r).i)
      modifies `mem, `node, s
      ensures Sync() && View(mem, Node(l, P.MinTree(r).i, c, P.DelMin(r)), ctx, g)
      ensures child == At(s, Root(P.MinTree(r).r)) && color == P.MinTree(r).c
      ensures parent == At(s, if r.l.Leaf? then P.MinTree(r).i else P.MinParent(r))
    {
      hide Sync, View, R.ReplaceChild, P.Adopt, P.Detach, P.MinTree, P.MinParent, P.DelMin, Lo, Hi;
      ghost var u, x, m := P.MinTree(r).i, P.MinTree(r).r, mem;
      ghost var par := if r.l.Leaf? then g else P.MinParent(r);
      AtNode(Node(l, g, c, r), ctx);
      P.SuccessorLinks(mem, l, g, c, r, ctx);
      P.LinkEffect(mem, l, g, c, r, ctx, u);
      ReplaceChild(victim.parent, victim, node', Above(ctx), g, u);
      Read(u); Read(g);
      child := node'.right;
      parent := node'.parent;
      color := node'.color;
      Same(par, g);
      if parent == victim {
        parent := node';
        P.NearTree(r);
        P.SpliceNearView(m, l, g, c, u, P.MinTree(r).c, x, ctx);
      } else {
        P.SpliceFarView(m, l, g, c, r, ctx);
        ghost var m1 := mem;
        Detach(victim, node', g, u, r.i, par, Root(x));
        P.DetachEffect(m1, g, u, r.i, par, Root(x));
      }
      Adopt(victim, node', g, u);
    }

    // ----- the operations on a whole tree

    /** A red-black tree is linked, and `s` is its in-order sequence. */
    ghost predicate Valid()
      reads `node, `s, `mem, `tree, s
    {
      Sync() && View(mem, tree, Top, -1) && RedBlack(tree)
    }

    /** `RB_ROOT` */
    constructor ()
      ensures Valid() && s == []
    {
      node := null;
      s, mem, tree := [], Mem(NIL, []), Leaf;
      new;
      assert RB(Leaf, 0);
    }

    lemma CloseReady(g: int)
      requires Sync() && E.Erased(mem, tree, g) && 0 <= g < |s|
      ensures View(H.CloseMem(mem, g), H.Close(tree, g), Top, -1) && RedBlack(H.Close(tree, g))
      ensures mem.root != g && |mem.cells| == |s|
      ensures forall i :: 0 <= i < |s| && i != g ==> var c := mem.cells[i]; c.left != g && c.right != g && c.parent != g
    {
      H.CloseView(mem, tree, g);
      H.NoLink(mem, tree, NIL, 0, |s|, g);
    }

    /** The gap that the erased position `g` leaves is closed. */
    ghost method CloseGap(g: int)
      requires Sync() && E.Erased(mem, tree, g) && 0 <= g < |s|
      modifies `s, `mem, `tree, s
      ensures Valid() && s == RemoveAt(old(s), g)
    {
      hide Sync, E.Erased, View, RedBlack, H.CloseMem, H.Close;
      CloseReady(g);
      Renumber(g);
      tree := H.Close(tree, g);
    }

    ghost method Renumber(g: int)
      requires Sync() && 0 <= g < |s| && mem.root != g
      requires forall i :: 0 <= i < |s| && i != g ==> var c := mem.cells[i]; c.left != g && c.right != g && c.parent != g
      modifies `s, `mem, s
      ensures Sync() && s == RemoveAt(old(s), g) && mem == H.CloseMem(old(mem), g)
    {
      hide H.CloseMem, RemoveAt, At;
      var m0, s0 := mem, s;
      H.CloseSize(m0, g);
      AtRemoved(s0, g, m0.root);
      forall i | g < i < |s0| {
        s0[i].pos := i - 1;
      }
      s := RemoveAt(s, g);
      mem := H.CloseMem(mem, g);
      forall j | 0 <= j < |s|
        ensures CellOk(|s|, mem.cells[j]) && Matches(s, j, s[j], mem.cells[j])
      {
        var i := if j < g then j else j + 1;
        var c := m0.cells[i];
        RemovedAt(s0, g, j);
        H.CloseAt(m0, g, i);
        assert CellOk(|s0|, c) && s0[i].left == At(s0, c.left) && s0[i].right == At(s0, c.right);
        assert s0[i].parent == At(s0, c.parent) && s0[i].color == c.color && s0[i].pos == j;
        AtRemoved(s0, g, c.left);
        AtRemoved(s0, g, c.right);
        AtRemoved(s0, g, c.parent);
      }
    }

    lemma Placed(i: int)
      requires Valid() && 0 <= i < |s|
      ensures s[i].pos == i && s[i] in s
    {
    }

    lemma Indexed(x: RbNode)
      requires Valid() && x in s
      ensures 0 <= x.pos < |s| && s[x.pos] == x && x !in RemoveAt(s, x.pos)
    {
      NotElsewhere(x.pos);
    }

    lemma AllDifferent()
      requires Valid()
      ensures forall i, j :: 0 <= i < j < |s| ==> s[i] != s[j]
    {
      forall i, j | 0 <= i < j < |s|
        ensures s[i] != s[j]
      {
        Same(i, j);
      }
    }

    lemma NotElsewhere(g: int)
      requires Sync() && 0 <= g < |s|
      ensures s[g] !in RemoveAt(s, g)
    {
      if s[g] in RemoveAt(s, g) {
        var j :| 0 <= j < |s| - 1 && RemoveAt(s, g)[j] == s[g];
        RemovedAt(s, g, j);
        Same(g, if j < g then j else j + 1);
      }
    }

    /** `rb_erase` */
    method Erase(victim: RbNode)
      requires Valid() && victim in s
      modifies `node, `s, `mem, `tree, s
      ensures 0 <= old(victim.pos) < |old(s)| && old(s)[old(victim.pos)] == victim
      ensures Valid() && s == RemoveAt(old(s), old(victim.pos)) && victim !in s
    {
      ghost var g := victim.pos;
      NotElsewhere(g);
      ghost var k :| RB(tree, k);
      ghost var l, c, r, ctx, j := P.Locate(mem, tree, Top, k, g);
      hide Sync, RedBlack;
      AtNode(Node(l, g, c, r), ctx);
      if victim.left == null || victim.right == null {
        EraseSingle(victim, l, g, c, r, ctx, j);
      } else {
        EraseDouble(victim, l, g, c, r, ctx, j);
      }
      CloseGap(g);
    }

    /** `rb_link_node`: `x` becomes a red leaf at the hole of `ctx`, on the given side of `parent`. */
    method Link(x: RbNode, parent: RbNode?, left: bool, ghost ctx: Ctx)
      requires Sync() && View(mem, Leaf, ctx, -1) && x !in s
      requires parent == At(s, Above(ctx)) && (parent != null ==> left == ctx.InLeft?)
      modifies `node, `s, `mem, s, x
      ensures 0 <= Lo(ctx) <= |old(s)| && s == InsertAt(old(s), Lo(ctx), x) && Sync()
      ensures View(mem, Node(Leaf, Lo(ctx), Red, Leaf), H.OpenCtx(ctx, Lo(ctx)), -1)
    {
      ghost var k, p := Lo(ctx), Above(H.OpenCtx(ctx, Lo(ctx)));
      HoleReady(ctx);
      H.LinkView(mem, ctx, k);
      hide View, H.OpenMem, H.OpenCtx, Lo;
      OpenHole(x, parent, k, Above(ctx));
      if parent == null {
        SetRoot(x, k);
      } else if left {
        SetLeft(parent, x, p, k);
      } else {
        SetRight(parent, x, p, k);
      }
    }

    lemma HoleReady(ctx: Ctx)
      requires Sync() && View(mem, Leaf, ctx, -1)
      ensures 0 <= Lo(ctx) <= |s| && NIL <= Above(ctx) < |s|
      ensures Above(H.OpenCtx(ctx, Lo(ctx))) == H.Up1(Above(ctx), Lo(ctx))
      ensures Above(ctx) == NIL <==> ctx.Top?
    {
      CtxRange(ctx, |s|, -1);
      if !ctx.Top? { R.UpLinks(mem, Leaf, ctx, -1); }
      H.OpenAbove(ctx, Lo(ctx));
    }

    /** The fields of the new node; the nodes from position `k` on move by one. */
    method NewLeaf(x: RbNode, parent: RbNode?, ghost k: int)
      requires Sync() && x !in s && 0 <= k <= |s|
      modifies s, x
      ensures x.left == null && x.right == null && x.parent == parent && x.color == Red && x.pos == k
      ensures |mem.cells| == |s|
      ensures forall i :: 0 <= i < |s| ==> CellOk(|s|, mem.cells[i]) && Shifted(s, i, s[i], mem.cells[i], k)
    {
      x.parent, x.color := parent, Red;
      x.left, x.right := null, null;
      forall i | k <= i < |s| {
        s[i].pos := i + 1;
      }
      x.pos := k;
    }

    /** The fields of the new node are set, before anything links to it. */
    method OpenHole(x: RbNode, parent: RbNode?, ghost k: int, ghost q: int)
      requires Sync() && x !in s && 0 <= k <= |s| && PtrOk(|s|, q) && parent == At(s, q)
      modifies `s, `mem, s, x
      ensures Sync() && mem == H.OpenMem(old(mem), k, H.Up1(q, k)) && s == InsertAt(old(s), k, x)
      ensures parent == At(s, H.Up1(q, k)) && PtrOk(|s|, H.Up1(q, k))
    {
      ReadRoot();
      hide Shifted, CellOk, Matches, InsertAt, H.OpenMem, At, Sync;
      NewLeaf(x, parent, k);
      AtInserted(s, k, x, q);
      AtInserted(s, k, x, mem.root);
      AllOpened(s, mem, k, q, x);
      s, mem := InsertAt(s, k, x), H.OpenMem(mem, k, H.Up1(q, k));
      SyncFrom();
    }

    lemma SyncFrom()
      requires |mem.cells| == |s| && PtrOk(|s|, mem.root) && node == At(s, mem.root)
      requires forall i :: 0 <= i < |s| ==> CellOk(|s|, mem.cells[i]) && Matches(s, i, s[i], mem.cells[i])
      ensures Sync()
    {
    }

    // ----- walking in order

    lemma WholeTree()
      requires Valid()
      ensures |mem.cells| == |s| && node == At(s, Root(tree)) && (tree.Node? ==> 0 <= tree.i < |s|)
      ensures s == [] <==> tree.Leaf?
    {
      hide Sync;
      ReadRoot();
      if tree.Node? { AtNode(tree, Top); }
    }

    lemma First0(t: Tree, ctx: Ctx)
      requires Sync() && View(mem, t, ctx, -1) && t.Node?
      ensures 0 <= Lo(ctx) == P.MinTree(t).i < |s|
    {
      CtxRange(ctx, |mem.cells|, -1);
      P.MinFirst(t, Lo(ctx), Hi(ctx, |mem.cells|));
    }

    lemma Last0(t: Tree, ctx: Ctx)
      requires Sync() && View(mem, t, ctx, -1) && t.Node?
      ensures 0 <= Hi(ctx, |s|) - 1 == P.MaxTree(t).i < |s|
    {
      CtxRange(ctx, |mem.cells|, -1);
      P.MaxLast(t, Lo(ctx), Hi(ctx, |mem.cells|));
    }

    lemma Find(x: RbNode) returns (t: Tree, ctx: Ctx)
      requires Valid() && x in s
      ensures View(mem, t, ctx, -1) && t.Node? && t.i == x.pos && 0 <= x.pos < |s| && s[x.pos] == x && |mem.cells| == |s|
      ensures x.parent != x
    {
      var k :| RB(tree, k);
      var l, c, r, cx, j := P.Locate(mem, tree, Top, k, x.pos);
      t, ctx := Node(l, x.pos, c, r), cx;
      AtNode(t, ctx);
      if !ctx.Top? { R.UpLinks(mem, t, ctx, -1); Same(ctx.i, t.i); }
    }

    /** The links at and around a node. */
    lemma Neighbours(x: RbNode)
      requires Valid() && x in s
      ensures |mem.cells| == |s| && 0 <= x.pos < |s| && s[x.pos] == x
      ensures PointedAt(x.pos)
      ensures var g, c := x.pos, mem.cells[x.pos];
        && (c.parent != NIL ==> 0 <= c.parent < |s| && (mem.cells[c.parent].left == g || mem.cells[c.parent].right == g))
        && (c.left != NIL ==> 0 <= c.left < |s| && mem.cells[c.left].parent == g)
        && (c.right != NIL ==> 0 <= c.right < |s| && mem.cells[c.right].parent == g)
    {
      var t, ctx := Find(x);
      hide View, Sync;
      N.OnlyNeighbours(mem, t, ctx);
      N.NeighboursPointBack(mem, t, ctx);
      N.OneSide(mem, t, ctx);
      N.RootOutside(mem, t, ctx);
    }

    /** The child links, and the parent links, lead to `q` instead of `s`. */
    ghost predicate DownTo(q: seq<RbNode>)
      reads `node, `s, `mem, s
    {
      && |mem.cells| == |s| && node == At(q, mem.root)
      && forall i :: 0 <= i < |s| ==> s[i].left == At(q, mem.cells[i].left) && s[i].right == At(q, mem.cells[i].right)
    }

    ghost predicate UpTo(q: seq<RbNode>)
      reads `s, `mem, s
    {
      && |mem.cells| == |s|
      && forall i :: 0 <= i < |s| ==>
        s[i].pos == i && s[i].parent == At(q, mem.cells[i].parent) && s[i].color == mem.cells[i].color
    }

    lemma SyncParts()
      requires Sync()
      ensures DownTo(s) && UpTo(s) && PtrOk(|s|, mem.root)
      ensures forall i :: 0 <= i < |s| ==> CellOk(|s|, mem.cells[i])
    {
    }

    /** Who points at position `g`. */
    ghost predicate PointedAt(g: int)
      reads `mem
    {
      && 0 <= g < |mem.cells|
      && var c := mem.cells[g];
        && c.left != g && c.right != g && c.parent != g && (c.parent == NIL <==> mem.root == g)
        && forall i :: 0 <= i < |mem.cells| ==>
          && (mem.cells[i].left == g || mem.cells[i].right == g ==> i == c.parent)
          && !(mem.cells[i].left == g && mem.cells[i].right == g)
          && (mem.cells[i].parent == g ==> i == c.left || i == c.right)
    }

    /** The parent, or the root pointer, points at `x` instead of `victim`. */
    method RelinkDown(victim: RbNode, x: RbNode, ghost g: int, ghost p: int)
      requires Sync() && PointedAt(g) && g < |s| && s[g] == victim && p == mem.cells[g].parent
      requires p != NIL ==> mem.cells[p].left == g || mem.cells[p].right == g
      modifies `node, s
      ensures DownTo(s[g := x]) && UpTo(s)
    {
      Read(g);
      SyncParts();
      var parent := victim.parent;
      if parent != null {
        Read(p);
        Same(mem.cells[p].left, g);
        Same(mem.cells[p].right, g);
        var left := victim == parent.left;
        hide Sync;
        RelinkChild(parent, x, left, g, p);
      } else {
        node := x;
      }
    }

    method RelinkChild(parent: RbNode, x: RbNode, left: bool, ghost g: int, ghost p: int)
      requires DownTo(s) && UpTo(s) && PointedAt(g) && 0 <= p < |s| && s[p] == parent && mem.root != g
      requires p == mem.cells[g].parent && (if left then mem.cells[p].left == g else mem.cells[p].right == g)
      modifies s
      ensures DownTo(s[g := x]) && UpTo(s)
    {
      ghost var q := s[g := x];
      assert forall j :: j != g ==> At(q, j) == At(s, j);
      if left {
        parent.left := x;
      } else {
        parent.right := x;
      }
    }

    /** The parent links of the positions in `done` lead to `q`, the others to `s`. */
    ghost predicate UpMixed(q: seq<RbNode>, done: set<int>)
      reads `s, `mem, s
    {
      && |mem.cells| == |s|
      && forall i :: 0 <= i < |s| ==>
        s[i].pos == i && s[i].parent == At(if i in done then q else s, mem.cells[i].parent) && s[i].color == mem.cells[i].color
    }

    /** One child points back at `x`. */
    method PointBack(child: RbNode, x: RbNode, ghost g: int, ghost i: int, ghost done: set<int>)
      requires 0 <= g < |s| && 0 <= i < |s| && s[i] == child
      requires DownTo(s[g := x]) && UpMixed(s[g := x], done) && mem.cells[i].parent == g
      modifies s
      ensures DownTo(s[g := x]) && UpMixed(s[g := x], done + {i})
    {
      child.parent := x;
    }

    lemma UpDone(g: int, x: RbNode, done: set<int>)
      requires PointedAt(g) && g < |s| && UpMixed(s[g := x], done)
      requires forall i :: 0 <= i < |s| && mem.cells[i].parent == g ==> i in done
      ensures UpTo(s[g := x])
    {
    }

    /** The children point back at `x`. */
    method RelinkUp(victim: RbNode, x: RbNode, ghost g: int)
      requires PointedAt(g) && g < |s| && s[g] == victim && DownTo(s[g := x]) && UpTo(s)
      requires CellOk(|s|, mem.cells[g])
      requires var c := mem.cells[g];
        (c.left != NIL ==> mem.cells[c.left].parent == g) && (c.right != NIL ==> mem.cells[c.right].parent == g)
      modifies s
      ensures DownTo(s[g := x]) && UpTo(s[g := x])
    {
      ghost var c, q := mem.cells[g], s[g := x];
      ghost var done: set<int> := {};
      assert UpMixed(q, {});
      assert victim.left == At(q, c.left) == At(s, c.left) && victim.right == At(q, c.right) == At(s, c.right);
      var left, right := victim.left, victim.right;
      hide DownTo, UpTo, UpMixed;
      if left != null {
        PointBack(left, x, g, c.left, {});
        done := {c.left};
        assert {} + {c.left} == done;
      }
      if right != null {
        PointBack(right, x, g, c.right, done);
        done := done + {c.right};
      }
      UpDone(g, x, done);
    }

    /** `rb_replace_node`: `x` takes the place of `victim`, whatever its record. */
    method Replace(victim: RbNode, x: RbNode)
      requires Valid() && victim in s && x !in s
      modifies `node, `s, s, x
      ensures 0 <= old(victim.pos) < |old(s)| && old(s)[old(victim.pos)] == victim
      ensures Valid() && s == old(s)[old(victim.pos) := x] && tree == old(tree)
    {
      hide View, RedBlack;
      Neighbours(victim);
      SyncParts();
      ghost var g, q := victim.pos, s[victim.pos := x];
      hide Sync, DownTo, UpTo, PointedAt;
      RelinkDown(victim, x, g, mem.cells[g].parent);
      RelinkUp(victim, x, g);
      TakeOver(victim, x, g);
    }

    /** `x` gets the links and the colour of `victim`. */
    method TakeOver(victim: RbNode, x: RbNode, ghost g: int)
      requires 0 <= g < |s| && s[g] == victim && x !in s && DownTo(s[g := x]) && UpTo(s[g := x]) && PtrOk(|s|, mem.root)
      requires forall i :: 0 <= i < |s| ==> CellOk(|s|, mem.cells[i])
      modifies `s, x
      ensures Sync() && s == old(s)[g := x]
    {
      ghost var was, q := s, s[g := x];
      assert forall i :: 0 <= i < |was| ==> was[i] in was && was[i] != x;
      assert forall i :: 0 <= i < |q| && i != g ==> Matches(q, i, q[i], mem.cells[i]);
      x.left, x.right, x.parent, x.color := victim.left, victim.right, victim.parent, victim.color;
      x.pos := g;
      hide DownTo, UpTo;
      assert Matches(q, g, x, mem.cells[g]);
      s := q;
    }

    /** How the focus hangs below its parent. */
    lemma Joint(t: Tree, ctx: Ctx)
      requires Sync() && View(mem, t, ctx, -1) && t.Node?
      ensures |mem.cells| == |s| && 0 <= t.i < |s|
      ensures ctx.Top? ==> At(s, Above(ctx)) == null
      ensures !ctx.Top? ==>
        && 0 <= ctx.i < |s| && At(s, Above(ctx)) == s[ctx.i]
        && (s[ctx.i].left == s[t.i] <==> ctx.InLeft?) && (s[ctx.i].right == s[t.i] <==> ctx.InRight?)
    {
      AtNode(t, ctx);
      if !ctx.Top? {
        R.UpLinks(mem, t, ctx, -1);
        R.LeftIsFocus(mem, t, ctx, -1);
        Read(ctx.i);
        Same(mem.cells[ctx.i].left, t.i);
        Same(mem.cells[ctx.i].right, t.i);
      }
    }

    lemma EdgeNext(t: Tree, ctx: Ctx)
      requires View(mem, t, ctx, -1) && t.Node? && t.r.Leaf? && t.i >= 0 && |mem.cells| == |s|
      ensures Hi(ctx, |s|) == t.i + 1
    {
      assert Ordered(t.r, t.i + 1, Hi(ctx, |s|), -1);
    }

    lemma EdgePrev(t: Tree, ctx: Ctx)
      requires View(mem, t, ctx, -1) && t.Node? && t.l.Leaf? && t.i >= 0
      ensures Lo(ctx) == t.i
    {
      assert Ordered(t.l, Lo(ctx), t.i, -1);
      CtxRange(ctx, |mem.cells|, -1);
    }

    /** The rightmost node below `start`. */
    method Rightmost(start: RbNode, ghost t0: Tree, ghost ctx0: Ctx) returns (node': RbNode)
      requires Sync() && View(mem, t0, ctx0, -1) && t0.Node? && start == At(s, t0.i)
      ensures P.MaxTree(t0).i < |s| && node' == At(s, P.MaxTree(t0).i)
    {
      hide Sync, View;
      node' := start;
      ghost var t, ctx := t0, ctx0;
      AtNode(t, ctx);
      while node'.right != null
        invariant Sync() && View(mem, t, ctx, -1) && t.Node? && 0 <= t.i < |s| && node' == At(s, t.i)
        invariant node'.right == At(s, Root(t.r)) && (t.r.Node? ==> 0 <= t.r.i < |s|)
        invariant P.MaxTree(t) == P.MaxTree(t0)
        decreases t
      {
        node' := node'.right;
        R.FocusUp(mem, t.r, InRight(t.l, t.i, t.c, ctx), -1);
        t, ctx := t.r, InRight(t.l, t.i, t.c, ctx);
        AtNode(t, ctx);
      }
    }

    /** `rb_first` */
    method First() returns (r: RbNode?)
      requires Valid()
      ensures r == At(s, 0)
    {
      WholeTree();
      if node == null {
        return null;
      }
      First0(tree, Top);
      r := Leftmost(node, tree, Top);
    }

    /** `rb_last` */
    method Last() returns (r: RbNode?)
      requires Valid()
      ensures r == At(s, |s| - 1)
    {
      WholeTree();
      if node == null {
        return null;
      }
      Last0(tree, Top);
      r := Rightmost(node, tree, Top);
    }

    /** `rb_next` */
    method Next(start: RbNode) returns (r: RbNode?)
      requires Valid() && start in s
      ensures 0 <= start.pos < |s| && s[start.pos] == start && r == At(s, start.pos + 1)
    {
      hide Sync, View, RedBlack, P.MinTree, P.MaxTree;
      ghost var t, ctx := Find(start);
      hide Valid;
      AtNode(t, ctx);
      if start.parent == start {
        return null;
      }
      if start.right != null {
        R.FocusUp(mem, t.r, InRight(t.l, t.i, t.c, ctx), -1);
        First0(t.r, InRight(t.l, t.i, t.c, ctx));
        r := Leftmost(start.right, t.r, InRight(t.l, t.i, t.c, ctx));
        return;
      }
      EdgeNext(t, ctx);
      var node' := start;
      r := node'.parent;
      while r != null && node' == r.right
        invariant Sync() && View(mem, t, ctx, -1) && t.Node? && node' == At(s, t.i) && Hi(ctx, |s|) == start.pos + 1
        invariant r == At(s, Above(ctx)) && 0 <= start.pos < |s| && |mem.cells| == |s|
        decreases Depth(ctx)
      {
        Joint(t, ctx);
        P.ClimbRight(mem, t, ctx);
        t, ctx := R.Fill(ctx, t), ctx.up;
        AtNode(t, ctx);
        node' := r;
        r := node'.parent;
      }
      Joint(t, ctx);
      if ctx.Top? { P.TopKnown(ctx, |s|); }
    }

    /** `rb_prev` */
    method Prev(start: RbNode) returns (r: RbNode?)
      requires Valid() && start in s
      ensures 0 <= start.pos < |s| && s[start.pos] == start && r == At(s, start.pos - 1)
    {
      hide Sync, View, RedBlack, P.MinTree, P.MaxTree;
      ghost var t, ctx := Find(start);
      hide Valid;
      AtNode(t, ctx);
      if start.parent == start {
        return null;
      }
      if start.left != null {
        R.FocusUp(mem, t.l, InLeft(t.i, t.c, t.r, ctx), -1);
        Last0(t.l, InLeft(t.i, t.c, t.r, ctx));
        r := Rightmost(start.left, t.l, InLeft(t.i, t.c, t.r, ctx));
        return;
      }
      EdgePrev(t, ctx);
      var node' := start;
      r := node'.parent;
      while r != null && node' == r.left
        invariant Sync() && View(mem, t, ctx, -1) && t.Node? && node' == At(s, t.i) && Lo(ctx) == start.pos
        invariant r == At(s, Above(ctx)) && 0 <= start.pos < |s| && |mem.cells| == |s|
        decreases Depth(ctx)
      {
        Joint(t, ctx);
        P.ClimbLeft(mem, t, ctx);
        t, ctx := R.Fill(ctx, t), ctx.up;
        AtNode(t, ctx);
        node' := r;
        r := node'.parent;
      }
      Joint(t, ctx);
      if ctx.Top? { P.TopKnown(ctx, |s|); }
    }

    /** `rb_prev` undoes `rb_next`, and `rb_next` undoes `rb_prev`. */
    method ThereAndBack(start: RbNode) returns (next: RbNode?, prev: RbNode?, fromNext: RbNode?, fromPrev: RbNode?)
      requires Valid() && start in s
      ensures next != null ==> fromNext == start
      ensures prev != null ==> fromPrev == start
    {
      hide Valid;
      fromNext, fromPrev := null, null;
      next := Next(start);
      if next != null {
        Placed(start.pos + 1);
        fromNext := Prev(next);
      }
      prev := Prev(start);
      if prev != null {
        Placed(start.pos - 1);
        fromPrev := Next(prev);
      }
    }
  }
}
