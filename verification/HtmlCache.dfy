/** The two indexes of the page cache: by file name, where keys are unique, and by watch
    descriptor, where they need not be. */
module HtmlCache {
  import opened RbTree
  import opened RbBalance
  import opened RbHeap
  import opened RbIndex
  import KeyIndex

  // ----- strcmp

  /** The sign of `strcmp`: strings are compared byte by byte and a prefix comes first. */
  function StrCmp(a: string, b: string): int {
    if a == [] then (if b == [] then 0 else -1)
    else if b == [] then 1
    else if a[0] < b[0] then -1
    else if a[0] > b[0] then 1
    else StrCmp(a[1..], b[1..])
  }

  lemma {:induction false} StrCmpEqual(a: string, b: string)
    ensures StrCmp(a, b) == 0 <==> a == b
  {
    if a != [] && b != [] && a[0] == b[0] {
      StrCmpEqual(a[1..], b[1..]);
      assert a == [a[0]] + a[1..] && b == [b[0]] + b[1..];
    }
  }

  /** The first byte that differs decides; a prefix comes first. */
  lemma {:induction false} StrCmpFirst(same: string, x: char, a: string, y: char, b: string)
    ensures x < y ==> StrCmp(same + ([x] + a), same + ([y] + b)) < 0
    ensures StrCmp(same, same + ([y] + b)) < 0
  {
    if same == [] {
      assert [] + ([x] + a) == [x] + a && [] + ([y] + b) == [y] + b;
    } else {
      assert (same + ([x] + a))[1..] == same[1..] + ([x] + a) && (same + ([y] + b))[1..] == same[1..] + ([y] + b);
      StrCmpFirst(same[1..], x, a, y, b);
    }
  }

  lemma {:induction false} StrCmpMirror(a: string, b: string)
    ensures StrCmp(a, b) == -StrCmp(b, a)
  {
    if a != [] && b != [] { StrCmpMirror(a[1..], b[1..]); }
  }

  lemma {:induction false} StrCmpTransitive(a: string, b: string, c: string)
    requires StrCmp(a, b) < 0 && StrCmp(b, c) < 0
    ensures StrCmp(a, c) < 0
  {
    if a != [] && b != [] && c != [] && a[0] == b[0] == c[0] { StrCmpTransitive(a[1..], b[1..], c[1..]); }
  }

  // ----- the index by file name

  ghost function Names(s: seq<RbNode>): seq<string>
    reads set n | n in s :: n.record
  {
    seq(|s|, i requires 0 <= i < |s| reads set n | n in s :: n.record => s[i].record.name)
  }

  /** Names in strictly increasing order. */
  ghost predicate Ascending(names: seq<string>) {
    forall i, j :: 0 <= i < j < |names| ==> StrCmp(names[i], names[j]) < 0
  }

  /** Everything before `lo` is smaller than `name`, everything from `hi` on is greater. */
  ghost predicate Between(names: seq<string>, name: string, lo: int, hi: int) {
    && 0 <= lo <= hi <= |names|
    && (forall j :: 0 <= j < lo ==> StrCmp(names[j], name) < 0)
    && (forall j :: hi <= j < |names| ==> StrCmp(name, names[j]) < 0)
  }

  lemma Narrow(names: seq<string>, name: string, lo: int, hi: int, i: int)
    requires Ascending(names) && Between(names, name, lo, hi) && lo <= i < hi
    ensures StrCmp(name, names[i]) < 0 ==> Between(names, name, lo, i)
    ensures StrCmp(name, names[i]) > 0 ==> Between(names, name, i + 1, hi)
  {
    StrCmpMirror(name, names[i]);
    if StrCmp(name, names[i]) < 0 {
      forall j | i < j < hi ensures StrCmp(name, names[j]) < 0 { StrCmpTransitive(name, names[i], names[j]); }
    }
    if StrCmp(name, names[i]) > 0 {
      forall j | lo <= j < i ensures StrCmp(names[j], name) < 0 { StrCmpTransitive(names[j], names[i], name); }
    }
  }

  lemma Absent(names: seq<string>, name: string, i: int)
    requires Between(names, name, i, i)
    ensures name !in names
  {
    StrCmpEqual(name, name);
  }

  /** The descent shared by the query and the insertion: the node with this name, or the hole
      where it belongs. */
  method Search(root: RbRoot, name: string)
    returns (found: RbNode?, parent: RbNode?, left: bool, ghost ctx: Ctx, ghost k: int)
    requires root.Valid() && Ascending(Names(root.s))
    ensures found != null ==> found in root.s && found.record.name == name
    ensures found == null ==> Walk(root.mem, Leaf, ctx, k, root.tree)
    ensures found == null ==> Between(Names(root.s), name, Lo(ctx), Lo(ctx))
    ensures found == null ==> parent == At(root.s, Above(ctx)) && (parent != null ==> left == ctx.InLeft?)
    ensures Pow2(Depth(ctx)) <= (|root.s| + 1) * (|root.s| + 1)
  {
    hide View, RB, RBCtx, RedBlack, Walk, Plug, Lo, Hi, RbRoot.Sync, Ascending, Between;
    parent, found := null, null;
    var curr := root.node;
    left := true;
    k := WalkStart(root);
    ghost var t, s, names := root.tree, root.s, Names(root.s);
    ctx := Top;
    TopRange(|s|);
    WalkReads(root, t, ctx, k);
    root.WholeTree();
    assert Between(names, name, 0, |s|) by { Everything(names, name); }
    while curr != null
      invariant Walk(root.mem, t, ctx, k, root.tree) && curr == At(s, Root(t)) && parent == At(s, Above(ctx))
      invariant parent != null ==> left == ctx.InLeft?
      invariant Between(names, name, Lo(ctx), Hi(ctx, |s|))
      invariant t.Leaf? ==> Lo(ctx) == Hi(ctx, |s|) && curr == null
      invariant t.Node? ==> curr != null
      modifies {}
      decreases t
    {
      WalkReads(root, t, ctx, k);
      parent := curr;
      assert names[t.i] == curr.record.name && curr in s;
      Narrow(names, name, Lo(ctx), Hi(ctx, |s|), t.i);
      var result := StrCmp(name, curr.record.name);
      if result < 0 {
        StepLeft(root, t, ctx, k);
        curr, left := curr.left, true;
        t, ctx, k := t.l, InLeft(t.i, t.c, t.r, ctx), Down(t.c, k);
      } else if result > 0 {
        StepRight(root, t, ctx, k);
        curr, left := curr.right, false;
        t, ctx, k := t.r, InRight(t.l, t.i, t.c, ctx), Down(t.c, k);
      } else {
        StrCmpEqual(name, curr.record.name);
        WalkLength(root, t, ctx, k);
        found := curr;
        return;
      }
    }
    WalkLength(root, t, ctx, k);
  }

  lemma Everything(names: seq<string>, name: string)
    ensures Between(names, name, 0, |names|)
  {
  }

  function Spliced(names: seq<string>, i: nat, name: string): seq<string>
    requires i <= |names|
  {
    names[..i] + [name] + names[i..]
  }

  function Dropped(names: seq<string>, i: nat): seq<string>
    requires i < |names|
  {
    names[..i] + names[i + 1..]
  }

  lemma AscendingSpliced(names: seq<string>, i: nat, name: string)
    requires Ascending(names) && Between(names, name, i, i)
    ensures Ascending(Spliced(names, i, name))
  {
  }

  lemma AscendingDropped(names: seq<string>, i: nat)
    requires Ascending(names) && i < |names|
    ensures Ascending(Dropped(names, i))
  {
  }

  lemma NamesInsert(s: seq<RbNode>, i: nat, x: RbNode)
    requires i <= |s|
    ensures |Names(s)| == |s| && Names(InsertAt(s, i, x)) == Spliced(Names(s), i, x.record.name)
  {
  }

  lemma NamesRemove(s: seq<RbNode>, i: nat)
    requires i < |s|
    ensures |Names(s)| == |s| && Names(RemoveAt(s, i)) == Dropped(Names(s), i)
  {
  }

  class PathIndex {
    const root: RbRoot
    /** The finite map that the index stands for. */
    ghost var entries: map<string, RbNode>

    ghost predicate Valid()
      reads this, root, root.s, set n | n in root.s :: n.record
    {
      root.Valid() && Ascending(Names(root.s)) && Refines(root.s, entries)
    }

    constructor ()
      ensures Valid() && entries == map[] && fresh(root)
    {
      root := new RbRoot();
      entries := map[];
    }

    /** `QueryHtmlCachePathfilenameTreeNode` */
    method Query(name: string) returns (r: RbNode?)
      requires Valid()
      ensures r == if name in entries then entries[name] else null
    {
      hide RbRoot.Valid, Walk, Between, Ascending, Lo;
      var parent, left;
      ghost var ctx, k;
      r, parent, left, ctx, k := Search(root, name);
      if r == null { Absent(Names(root.s), name, Lo(ctx)); NamesAt(root.s); }
    }

    /** `AddHtmlCachePathfilenameTreeNode` */
    method Add(x: RbNode) returns (ret: int)
      requires Valid() && x !in root.s
      modifies this`entries, root, root.s, x
      ensures Valid()
      ensures ret == if x.record.name in old(entries) then -1 else 0
      ensures ret == -1 ==> entries == old(entries) && root.s == old(root.s) && unchanged(root) && unchanged(x) && unchanged(old(root.s))
      ensures ret == 0 ==> entries == old(entries)[x.record.name := x]
    {
      hide RbRoot.Valid, Walk, Between, Ascending, Lo, Spliced, InsertAt;
      ghost var s, names := root.s, Names(root.s);
      var found, parent, left;
      ghost var ctx, k;
      found, parent, left, ctx, k := Search(root, x.record.name);
      NamesAt(s);
      if found != null {
        return -1;
      }
      Absent(names, x.record.name, Lo(ctx));
      HoleInRange(names, x.record.name, Lo(ctx));
      AscendingSpliced(names, Lo(ctx), x.record.name);
      NamesInsert(s, Lo(ctx), x);
      RefinesInsert(s, entries, Lo(ctx), x);
      ghost var s' := InsertAt(s, Lo(ctx), x);
      ghost var names' := Names(s');
      LinkAndRebalance(root, x, parent, left, ctx, k);
      entries := entries[x.record.name := x];
      assert Names(root.s) == names';
      return 0;
    }

    /** `RemoveHtmlCachePathfilenameTreeNode` */
    method Remove(x: RbNode)
      requires Valid() && x in root.s
      modifies this`entries, root, root.s
      ensures Valid() && entries == old(entries) - {x.record.name}
      ensures x.record.name in old(entries) && old(entries)[x.record.name] == x
    {
      hide RbRoot.Valid, Ascending, Dropped, RemoveAt;
      ghost var s, names, i := root.s, Names(root.s), x.pos;
      root.Indexed(x);
      NamesRemove(s, i);
      AscendingDropped(names, i);
      RefinesRemove(s, entries, i);
      ghost var names' := Names(RemoveAt(s, i));
      root.Erase(x);
      entries := entries - {x.record.name};
      assert Names(root.s) == names';
    }
  }

  /** `entries` maps exactly the names of the nodes of `s`, each to its node. */
  ghost predicate Refines(s: seq<RbNode>, entries: map<string, RbNode>)
    reads set n | n in s :: n.record
  {
    && (forall n :: n in s ==> n.record.name in entries && entries[n.record.name] == n)
    && (forall name :: name in entries ==> entries[name] in s && entries[name].record.name == name)
  }

  lemma NamesAt(s: seq<RbNode>)
    ensures |Names(s)| == |s| && forall i :: 0 <= i < |s| ==> Names(s)[i] == s[i].record.name
    ensures forall n :: n in s ==> n.record.name in Names(s)
  {
    forall n | n in s
      ensures n.record.name in Names(s)
    {
      var i :| 0 <= i < |s| && s[i] == n;
      assert Names(s)[i] == n.record.name;
    }
  }

  lemma HoleInRange(names: seq<string>, name: string, i: int)
    requires Between(names, name, i, i)
    ensures 0 <= i <= |names|
  {
  }

  lemma RefinesInsert(s: seq<RbNode>, entries: map<string, RbNode>, i: nat, x: RbNode)
    requires i <= |s| && Refines(s, entries) && x.record.name !in entries
    ensures Refines(InsertAt(s, i, x), entries[x.record.name := x])
  {
    assert forall n :: n in InsertAt(s, i, x) <==> n in s || n == x;
  }

  lemma RefinesRemove(s: seq<RbNode>, entries: map<string, RbNode>, i: nat)
    requires i < |s| && Refines(s, entries) && s[i] !in RemoveAt(s, i)
    ensures Refines(RemoveAt(s, i), entries - {s[i].record.name})
  {
    assert forall n :: n in s <==> n in RemoveAt(s, i) || n == s[i];
  }

  // ----- the index by watch descriptor

  /** `QueryHtmlCacheWdTreeNode`: a node with this descriptor, if there is one. */
  method QueryWd(root: RbRoot, wd: int) returns (r: RbNode?)
    requires root.Valid() && KeyIndex.Sorted(KeyIndex.Keys(root.s))
    ensures r != null ==> r in root.s && r.record.key == wd
    ensures r == null ==> forall n :: n in root.s ==> n.record.key != wd
  {
    hide View, RB, RBCtx, RedBlack, Walk, Plug, Lo, Hi, RbRoot.Sync;
    var curr := root.node;
    ghost var k := WalkStart(root);
    ghost var t, ctx, s, ks := root.tree, Top, root.s, KeyIndex.Keys(root.s);
    assert forall j :: 0 <= j < |s| ==> ks[j] == s[j].record.key;
    TopRange(|s|);
    WalkReads(root, t, ctx, k);
    root.WholeTree();
    while curr != null
      invariant Walk(root.mem, t, ctx, k, root.tree) && curr == At(s, Root(t))
      invariant 0 <= Lo(ctx) <= Hi(ctx, |s|) <= |s|
      invariant t.Leaf? ==> Lo(ctx) == Hi(ctx, |s|) && curr == null
      invariant t.Node? ==> curr != null
      invariant forall j :: 0 <= j < Lo(ctx) ==> ks[j] < wd
      invariant forall j :: Hi(ctx, |s|) <= j < |s| ==> ks[j] > wd
      modifies {}
      decreases t
    {
      WalkReads(root, t, ctx, k);
      assert ks[t.i] == curr.record.key && curr in s;
      if wd < curr.record.key {
        StepLeft(root, t, ctx, k);
        curr := curr.left;
        t, ctx, k := t.l, InLeft(t.i, t.c, t.r, ctx), Down(t.c, k);
      } else if wd > curr.record.key {
        StepRight(root, t, ctx, k);
        curr := curr.right;
        t, ctx, k := t.r, InRight(t.l, t.i, t.c, ctx), Down(t.c, k);
      } else {
        return curr;
      }
    }
    return null;
  }
}
