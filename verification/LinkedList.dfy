/** `list.c`: circular doubly linked lists. */
module LinkedList {

  class ListHead {
    var next: ListHead?
    var prev: ListHead?

    /** `INIT_LIST_HEAD` on a new head. */
    constructor ()
      ensures Ring([this])
    {
      next, prev := this, this;
    }
  }

  predicate Distinct(r: seq<ListHead>) { forall i, j :: 0 <= i < j < |r| ==> r[i] != r[j] }

  /** The nodes are linked one after the other, in both directions. */
  predicate Linked(r: seq<ListHead>)
    reads r
  {
    forall i :: 0 < i < |r| ==> r[i - 1].next == r[i] && r[i].prev == r[i - 1]
  }

  /** The head and its entries form a ring. */
  predicate Ring(r: seq<ListHead>)
    reads r
  {
    && r != [] && Distinct(r) && Linked(r)
    && r[|r| - 1].next == r[0] && r[0].prev == r[|r| - 1]
  }

  /** The list at `head` has the entries `s`. */
  predicate Holds(head: ListHead, s: seq<ListHead>)
    reads Nodes(head, s)
  {
    Ring([head] + s)
  }

  /** The head and the entries. */
  ghost function Nodes(head: ListHead, s: seq<ListHead>): set<ListHead> {
    {head} + set x | x in s
  }

  method Init(list: ListHead)
    modifies list
    ensures Holds(list, [])
  {
    list.next, list.prev := list, list;
  }

  /** `__list_add`: between the two ends of an open chain. */
  method AddBetween(node: ListHead, prev: ListHead, next: ListHead)
    requires node != prev && node != next
    modifies node, prev, next
    ensures node.next == next && next.prev == node && node.prev == prev && prev.next == node
    ensures prev != next ==> prev.prev == old(prev.prev) && next.next == old(next.next)
  {
    next.prev := node;
    node.next := next;
    node.prev := prev;
    prev.next := node;
  }

  /** The neighbours of the head. */
  lemma Ends(head: ListHead, s: seq<ListHead>)
    requires Holds(head, s)
    ensures head.next == (if s == [] then head else s[0]) && head.prev == (if s == [] then head else s[|s| - 1])
    ensures head !in s
  {
    var r := [head] + s;
    assert r[0] == head;
    if s != [] { assert r[1] == s[0] && r[1 - 1].next == r[1]; }
    forall i | 0 <= i < |s| ensures s[i] != head { assert r[i + 1] == s[i]; }
  }

  /** `list_add`. */
  method Add(node: ListHead, head: ListHead, ghost s: seq<ListHead>)
    requires Holds(head, s) && node !in [head] + s
    modifies node, Nodes(head, s)
    ensures Holds(head, [node] + s)
  {
    Ends(head, s);
    ghost var r := [head] + s;
    assert s != [] ==> r[1] == s[0];
    AddBetween(node, head, head.next);
    ghost var q := [head] + ([node] + s);
    assert q == [head, node] + s;
    assert forall i :: 2 <= i < |q| ==> q[i] == r[i - 1];
  }

  /** `list_add_tail`. */
  method AddTail(node: ListHead, head: ListHead, ghost s: seq<ListHead>)
    requires Holds(head, s) && node !in [head] + s
    modifies node, Nodes(head, s)
    ensures Holds(head, s + [node])
  {
    AddBetween(node, head.prev, head);
    ghost var q := [head] + (s + [node]);
    assert forall i :: 0 <= i < |q| - 1 ==> q[i] == ([head] + s)[i];
  }

  /** `__list_del_entry`: the entry keeps its own links. */
  method DelEntry(entry: ListHead, head: ListHead, ghost s: seq<ListHead>, ghost k: nat)
    requires Holds(head, s) && k < |s| && entry == s[k]
    modifies Nodes(head, s)
    ensures Holds(head, s[..k] + s[k + 1..])
    ensures entry !in s[..k] + s[k + 1..] && entry != head
  {
    ghost var r := [head] + s;
    ghost var n := k + 1;
    assert r[n] == entry && r[n - 1].next == entry && entry.prev == r[n - 1];
    assert n + 1 < |r| ==> entry.next == r[n + 1] by {
      if n + 1 < |r| { assert r[n + 1 - 1].next == r[n + 1]; }
    }
    ghost var q := [head] + (s[..k] + s[k + 1..]);
    assert q == r[..n] + r[n + 1..];
    var prev, next := entry.prev, entry.next;
    next.prev := prev;
    prev.next := next;
    assert forall i :: 0 <= i < |q| ==> q[i] == if i < n then r[i] else r[i + 1];
    assert entry !in q;
  }

  /** `list_del`: the links of the entry are poisoned. */
  method Del(entry: ListHead, head: ListHead, ghost s: seq<ListHead>, ghost k: nat)
    requires Holds(head, s) && k < |s| && entry == s[k]
    modifies Nodes(head, s)
    ensures Holds(head, s[..k] + s[k + 1..])
    ensures entry.next == null && entry.prev == null
  {
    assert ([head] + s)[k + 1] == entry;
    DelEntry(entry, head, s, k);
    ghost var q := [head] + (s[..k] + s[k + 1..]);
    assert entry !in q;
    entry.next := null;
    entry.prev := null;
  }

  lemma Removed(head: ListHead, s: seq<ListHead>, k: nat)
    requires k < |s|
    ensures Nodes(head, s[..k] + s[k + 1..]) <= Nodes(head, s) && s[k] in Nodes(head, s)
  {
  }

  /** `list_move_tail` within one list. */
  method MoveTail(entry: ListHead, head: ListHead, ghost s: seq<ListHead>, ghost k: nat)
    requires Holds(head, s) && k < |s| && entry == s[k]
    modifies Nodes(head, s)
    ensures Holds(head, s[..k] + s[k + 1..] + [entry])
  {
    assert ([head] + s)[k + 1] == entry;
    DelEntry(entry, head, s, k);
    Removed(head, s, k);
    AddTail(entry, head, s[..k] + s[k + 1..]);
  }

  /** `list_move` within one list. */
  method Move(entry: ListHead, head: ListHead, ghost s: seq<ListHead>, ghost k: nat)
    requires Holds(head, s) && k < |s| && entry == s[k]
    modifies Nodes(head, s)
    ensures Holds(head, [entry] + (s[..k] + s[k + 1..]))
  {
    assert ([head] + s)[k + 1] == entry;
    DelEntry(entry, head, s, k);
    Removed(head, s, k);
    Add(entry, head, s[..k] + s[k + 1..]);
  }

  /** `list_move` and `list_move_tail` from one list to another. */
  method MoveAcross(entry: ListHead, head: ListHead, ghost s: seq<ListHead>, ghost k: nat, target: ListHead,
      ghost t: seq<ListHead>, tail: bool)
    requires Holds(head, s) && k < |s| && entry == s[k] && Holds(target, t)
    requires forall x :: x in [head] + s ==> x !in [target] + t
    modifies Nodes(head, s), Nodes(target, t)
    ensures Holds(head, s[..k] + s[k + 1..])
    ensures Holds(target, if tail then t + [entry] else [entry] + t)
  {
    ghost var q, old_s, new_t := s[..k] + s[k + 1..], [head] + s, [target] + t;
    assert old_s[k + 1] == entry && entry in old_s;
    label start:
    DelEntry(entry, head, s, k);
    assert forall x :: x in new_t ==> x !in old_s;
    RingStays@start(new_t);
    assert forall x :: x in [head] + q ==> x in old_s && x != entry;
    label deleted:
    if tail {
      AddTail(entry, target, t);
    } else {
      Add(entry, target, t);
    }
    RingStays@deleted([head] + q);
  }

  /** A ring none of whose nodes was changed. */
  twostate lemma RingStays(r: seq<ListHead>)
    requires old(Ring(r)) && forall x :: x in r ==> x.next == old(x.next) && x.prev == old(x.prev)
    ensures Ring(r)
  {
  }

  /** `list_empty`. */
  predicate IsEmpty(head: ListHead)
    reads head
  {
    head.next == head
  }

  /** `list_is_singular`. */
  predicate IsSingular(head: ListHead)
    reads head
  {
    !IsEmpty(head) && head.next == head.prev
  }

  function RotatedLeft<T>(s: seq<T>): seq<T> { if s == [] then [] else s[1..] + [s[0]] }

  function Rotations<T>(s: seq<T>, n: nat): seq<T>
    decreases n
  {
    if n == 0 then s else Rotations(RotatedLeft(s), n - 1)
  }

  /** `list_rotate_left`. */
  method RotateLeft(head: ListHead, ghost s: seq<ListHead>)
    requires Holds(head, s)
    modifies Nodes(head, s)
    ensures Holds(head, RotatedLeft(s))
  {
    Ends(head, s);
    if !IsEmpty(head) {
      var first := head.next;
      MoveTail(first, head, s, 0);
      assert s[..0] + s[1..] + [first] == RotatedLeft(s);
    }
  }

  // ----- cutting and splicing

  /** `__list_cut_position`. */
  method CutAfter(list: ListHead, head: ListHead, entry: ListHead, ghost s: seq<ListHead>, ghost k: nat)
    requires Holds(head, s) && list !in [head] + s && 0 < k <= |s| && entry == s[k - 1]
    modifies list, Nodes(head, s)
    ensures Holds(list, s[..k]) && Holds(head, s[k..])
  {
    Ends(head, s);
    ghost var r := [head] + s;
    assert r[1] == s[0] && r[k] == entry;
    assert k < |s| ==> entry.next == r[k + 1] == s[k] by {
      if k < |s| { assert r[k + 1 - 1].next == r[k + 1]; }
    }
    var new_first := entry.next;
    list.next := head.next;
    list.next.prev := list;
    list.prev := entry;
    entry.next := list;
    head.next := new_first;
    new_first.prev := head;
    ghost var a, b := [list] + s[..k], [head] + s[k..];
    assert forall i :: 0 < i < |a| ==> a[i] == r[i];
    assert forall i :: 0 < i < |b| ==> b[i] == r[i + k];
  }

  /** `list_cut_position`: `list` gets the entries up to and including `entry`, which is the head or
      the entry before position `k`.  The old contents of `list` are lost.  A foreign entry is
      noticed when the list has at most one entry. */
  method CutPosition(list: ListHead, head: ListHead, entry: ListHead, ghost s: seq<ListHead>, ghost k: nat)
    requires Holds(head, s) && list !in [head] + s && k <= |s|
    requires entry == (if k == 0 then head else s[k - 1]) || (|s| <= 1 && entry !in [head] + s)
    modifies list, Nodes(head, s)
    ensures s == [] || entry !in [head] + s ==>
      Holds(head, s) && list.next == old(list.next) && list.prev == old(list.prev)
    ensures s != [] && entry in [head] + s ==> Holds(list, s[..k]) && Holds(head, s[k..])
  {
    Ends(head, s);
    assert k > 0 ==> ([head] + s)[k] == s[k - 1];
    if IsEmpty(head) {
      return;
    }
    if IsSingular(head) && head.next != entry && head != entry {
      Singular(head, s);
      return;
    }
    if entry == head {
      Init(list);
      assert s[0..] == s;
      RingStays([head] + s);
    } else {
      CutAfter(list, head, entry, s, k);
    }
  }

  lemma Singular(head: ListHead, s: seq<ListHead>)
    requires Holds(head, s)
    ensures IsSingular(head) <==> |s| == 1
  {
    Ends(head, s);
    var r := [head] + s;
    if s != [] {
      assert r[1] == s[0] && r[|s|] == s[|s| - 1];
    }
  }

  /** `__list_splice` behind the entry at position `k` of the list at `head`, where position 0 is
      the head itself. */
  method SpliceAt(list: ListHead, prev: ListHead, next: ListHead, ghost t: seq<ListHead>, ghost head: ListHead,
      ghost s: seq<ListHead>, ghost k: nat)
    requires Holds(list, t) && t != [] && Holds(head, s) && k <= |s|
    requires forall x :: x in [list] + t ==> x !in [head] + s
    requires prev == (if k == 0 then head else s[k - 1]) && next == (if k == |s| then head else s[k])
    modifies Nodes(list, t), Nodes(head, s)
    ensures Holds(head, s[..k] + t + s[k..])
    ensures list.next == old(list.next) && list.prev == old(list.prev)
  {
    ghost var a, b := [head] + s[..k], s[k..];
    SpliceParts(list, t, head, s, k);
    Ends(list, t);
    hide *;
    Relink(list.next, list.prev, prev, next, a, t, b);
  }

  lemma SpliceParts(list: ListHead, t: seq<ListHead>, head: ListHead, s: seq<ListHead>, k: nat)
    requires Holds(list, t) && t != [] && Holds(head, s) && k <= |s|
    requires forall x :: x in [list] + t ==> x !in [head] + s
    ensures var a, b := [head] + s[..k], s[k..];
      && Linked(a) && Linked(t) && Linked(b) && Distinct(a) && Distinct(t) && Distinct(b) && Distinct(a + t + b)
      && a[|a| - 1] == (if k == 0 then head else s[k - 1]) && (b != [] ==> b[0] == s[k])
      && (forall x :: x in a || x in b ==> x !in t) && (forall x :: x in b ==> x !in a)
      && (b != [] ==> b[|b| - 1].next == a[0] && a[0].prev == b[|b| - 1])
      && [head] + (s[..k] + t + s[k..]) == a + t + b
      && list !in a && list !in b && list !in t
  {
    Ends(list, t);
    Segments(head, s, k);
    Segments(list, t, 0);
    assert t == t[0..];
    SegmentsApart(list, t, head, s, k);
    hide Ring, Linked, Distinct;
  }

  lemma SegmentsApart(list: ListHead, t: seq<ListHead>, head: ListHead, s: seq<ListHead>, k: nat)
    requires Distinct([head] + s) && Distinct(t) && k <= |s| && forall x :: x in [list] + t ==> x !in [head] + s
    ensures var a, b := [head] + s[..k], s[k..];
      && Distinct(a + t + b) && (forall x :: x in a || x in b ==> x !in t)
      && [head] + (s[..k] + t + s[k..]) == a + t + b && list !in a && list !in b
  {
    var a, b := [head] + s[..k], s[k..];
    assert forall x :: x in t ==> x in [list] + t;
    DistinctInsert([head] + s, k + 1, t);
    hide Distinct;
    assert ([head] + s)[..k + 1] == a && ([head] + s)[k + 1..] == b;
    assert forall x :: x in a || x in b ==> x in [head] + s;
    assert list in [list] + t;
  }

  /** The four assignments of `__list_splice`: chain `t` comes between the chains `a` and `b`, which
      make up a ring. */
  method Relink(first: ListHead, last: ListHead, prev: ListHead, next: ListHead, ghost a: seq<ListHead>,
      ghost t: seq<ListHead>, ghost b: seq<ListHead>)
    requires Linked(a) && Linked(t) && Linked(b) && Distinct(a) && Distinct(t) && Distinct(b) && Distinct(a + t + b)
    requires a != [] && prev == a[|a| - 1] && t != [] && first == t[0] && last == t[|t| - 1]
    requires next == if b != [] then b[0] else a[0]
    requires b != [] ==> b[|b| - 1].next == a[0] && a[0].prev == b[|b| - 1]
    requires (forall x :: x in a || x in b ==> x !in t) && (forall x :: x in b ==> x !in a)
    modifies first`prev, prev`next, last`next, next`prev
    ensures Ring(a + t + b)
  {
    hide Linked, Distinct;
    first.prev := prev;
    prev.next := first;
    last.next := next;
    next.prev := last;
    assert prev in a && first in t && last in t && a[0] in a;
    LinkedStays(a);
    LinkedStays(t);
    LinkedStays(b);
    LinkedConcat(a, t);
    if b != [] {
      assert b[|b| - 1] in b && b[0] in b;
      LinkedConcat(a + t, b);
    } else {
      assert a + t + b == a + t;
    }
  }

  /** The parts before and behind a position of a ring. */
  lemma Segments(head: ListHead, s: seq<ListHead>, k: nat)
    requires Holds(head, s) && k <= |s|
    ensures Linked([head] + s[..k]) && Linked(s[k..]) && Distinct([head] + s[..k]) && Distinct(s[k..])
    ensures forall x :: x in s[k..] ==> x !in [head] + s[..k]
    ensures s[k..] != [] ==> s[|s| - 1].next == head && head.prev == s[|s| - 1]
  {
    var r, a, b := [head] + s, [head] + s[..k], s[k..];
    assert forall i :: 0 <= i < |a| ==> a[i] == r[i];
    assert forall i :: 0 <= i < |b| ==> b[i] == r[i + k + 1];
  }

  /** A chain whose inner links were not changed. */
  twostate lemma LinkedStays(r: seq<ListHead>)
    requires old(Linked(r)) && Distinct(r)
    requires forall x :: x in r && x != r[|r| - 1] ==> x.next == old(x.next)
    requires forall x :: x in r && x != r[0] ==> x.prev == old(x.prev)
    ensures Linked(r)
  {
  }

  lemma LinkedConcat(a: seq<ListHead>, b: seq<ListHead>)
    requires Linked(a) && Linked(b) && a != [] && b != []
    requires a[|a| - 1].next == b[0] && b[0].prev == a[|a| - 1]
    ensures Linked(a + b)
  {
  }

  lemma DistinctInsert(r: seq<ListHead>, n: nat, t: seq<ListHead>)
    requires Distinct(r) && Distinct(t) && n <= |r| && forall x :: x in t ==> x !in r
    ensures Distinct(r[..n] + t + r[n..])
  {
    var q := r[..n] + t + r[n..];
    forall i, j | 0 <= i < j < |q| ensures q[i] != q[j] {
      assert q[i] == if i < n then r[i] else if i < n + |t| then t[i - n] else r[i - |t|];
      assert q[j] == if j < n then r[j] else if j < n + |t| then t[j - n] else r[j - |t|];
      if n <= i < n + |t| { assert t[i - n] in t; }
      if n <= j < n + |t| { assert t[j - n] in t; }
    }
  }

  /** `list_splice`: the entries of `list` become the first ones; `list` itself is left dangling. */
  method Splice(list: ListHead, head: ListHead, ghost t: seq<ListHead>, ghost s: seq<ListHead>)
    requires Holds(list, t) && Holds(head, s) && forall x :: x in [list] + t ==> x !in [head] + s
    modifies Nodes(list, t), Nodes(head, s)
    ensures Holds(head, t + s)
    ensures list.next == old(list.next) && list.prev == old(list.prev)
  {
    Ends(list, t);
    Ends(head, s);
    assert list in [list] + t;
    if !IsEmpty(list) {
      SpliceAt(list, head, head.next, t, head, s, 0);
      assert s[..0] + t + s[0..] == t + s;
    } else {
      assert t + s == s;
    }
  }

  /** `list_splice_tail`: the entries of `list` become the last ones. */
  method SpliceTail(list: ListHead, head: ListHead, ghost t: seq<ListHead>, ghost s: seq<ListHead>)
    requires Holds(list, t) && Holds(head, s) && forall x :: x in [list] + t ==> x !in [head] + s
    modifies Nodes(list, t), Nodes(head, s)
    ensures Holds(head, s + t)
    ensures list.next == old(list.next) && list.prev == old(list.prev)
  {
    Ends(list, t);
    Ends(head, s);
    if !IsEmpty(list) {
      SpliceAt(list, head.prev, head, t, head, s, |s|);
      assert s[..|s|] + t + s[|s|..] == s + t;
    } else {
      assert s + t == s;
    }
  }

  /** `list_splice_init` and `list_splice_tail_init`: `list` is empty afterwards. */
  method SpliceInit(list: ListHead, head: ListHead, ghost t: seq<ListHead>, ghost s: seq<ListHead>, tail: bool)
    requires Holds(list, t) && Holds(head, s) && forall x :: x in [list] + t ==> x !in [head] + s
    modifies Nodes(list, t), Nodes(head, s)
    ensures Holds(head, if tail then s + t else t + s) && Holds(list, [])
  {
    Ends(list, t);
    assert list in [list] + t;
    if !IsEmpty(list) {
      ghost var all := if tail then s + t else t + s;
      if tail { SpliceTail(list, head, t, s); } else { Splice(list, head, t, s); }
      assert list !in [head] + all;
      label spliced:
      Init(list);
      RingStays@spliced([head] + all);
    } else {
      assert t + s == s == s + t;
    }
  }

  // ----- laws

  lemma Apart(list: ListHead, head: ListHead, s: seq<ListHead>, k: nat)
    requires Distinct([head] + s) && list !in [head] + s && k <= |s|
    ensures forall x :: x in [list] + s[..k] ==> x !in [head] + s[k..]
  {
    var r := [head] + s;
    forall x | x in [list] + s[..k] ensures x !in [head] + s[k..] {
      if x in s[..k] {
        var i :| 0 <= i < k && s[..k][i] == x;
        assert r[i + 1] == x;
        assert r[0] == head && forall j :: k <= j < |s| ==> s[j] == r[j + 1];
      }
    }
  }

  /** Cutting a list and splicing the cut part back in front restores it. */
  method CutAndSplice(list: ListHead, head: ListHead, entry: ListHead, ghost s: seq<ListHead>, ghost k: nat)
    requires Holds(head, s) && list !in [head] + s && s != []
    requires k <= |s| && entry == if k == 0 then head else s[k - 1]
    modifies list, Nodes(head, s)
    ensures Holds(head, s) && Holds(list, [])
  {
    CutPosition(list, head, entry, s, k);
    ghost var t, u := s[..k], s[k..];
    assert t + u == s;
    Apart(list, head, s, k);
    SpliceInit(list, head, t, u, false);
  }

  lemma {:induction false} RotationsSplit<T>(s: seq<T>, n: nat)
    requires n <= |s|
    ensures Rotations(s, n) == s[n..] + s[..n]
    decreases n
  {
    if n == 0 {
      assert s == s[0..] + s[..0];
    } else {
      RotationsSplit(RotatedLeft(s), n - 1);
      var r := RotatedLeft(s);
      assert r[n - 1..] == s[n..] + [s[0]];
      assert r[..n - 1] == s[1..n];
      assert s[n..] + [s[0]] + s[1..n] == s[n..] + s[..n];
    }
  }

  lemma RotatedNodes(head: ListHead, s: seq<ListHead>)
    ensures Nodes(head, RotatedLeft(s)) == Nodes(head, s)
  {
    if s != [] {
      assert s == [s[0]] + s[1..];
    }
  }

  /** A run of `n` rotations exchanges the first `n` entries with the others; a full turn changes nothing. */
  method RotateTimes(head: ListHead, n: nat, ghost s: seq<ListHead>)
    requires Holds(head, s)
    modifies Nodes(head, s)
    ensures Holds(head, Rotations(s, n))
    ensures n <= |s| ==> Holds(head, s[n..] + s[..n])
    ensures n == |s| ==> Holds(head, s)
  {
    ghost var t := s;
    if n <= |s| { RotationsSplit(s, n); }
    if n == |s| { RotateAround(s); }
    for i := 0 to n
      invariant Holds(head, t) && Nodes(head, t) == Nodes(head, s)
      invariant Rotations(t, n - i) == Rotations(s, n)
    {
      RotateLeft(head, t);
      RotatedNodes(head, t);
      t := RotatedLeft(t);
    }
  }

  /** Rotating as many times as there are entries changes nothing. */
  lemma RotateAround<T>(s: seq<T>)
    ensures Rotations(s, |s|) == s
  {
    RotationsSplit(s, |s|);
  }
}
