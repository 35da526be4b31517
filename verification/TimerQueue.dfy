/** The elapse and timeout queues: sessions ordered by a timestamp, and the query for one that
    is due.  Both C files contain the same code on a different field. */
module TimerQueue {
  import opened RbTree
  import opened RbHeap
  import opened KeyIndex

  /** Among equal keys, later additions come first. */
  ghost predicate LatestFirst(ks: seq<int>, ts: seq<int>) {
    |ks| == |ts| && forall i, j :: 0 <= i < j < |ks| && ks[i] == ks[j] ==> ts[i] > ts[j]
  }

  ghost predicate Before(ts: seq<int>, t: int) {
    forall i :: 0 <= i < |ts| ==> ts[i] < t
  }

  function With(ts: seq<int>, i: nat, t: int): seq<int>
    requires i <= |ts|
  {
    ts[..i] + [t] + ts[i..]
  }

  lemma LatestInsert(ks: seq<int>, ts: seq<int>, key: int, t: int)
    requires Sorted(ks) && LatestFirst(ks, ts) && Before(ts, t)
    ensures var ts' := With(ts, LowerBound(ks, key), t);
      LatestFirst(Inserted(ks, key), ts') && Before(ts', t + 1)
  {
  }

  lemma LatestRemove(ks: seq<int>, ts: seq<int>, i: nat, t: int)
    requires LatestFirst(ks, ts) && Before(ts, t) && i < |ks|
    ensures LatestFirst(Removed(ks, i), Removed(ts, i)) && Before(Removed(ts, i), t)
  {
  }

  class Timers {
    const root: RbRoot
    /** How many insertions there have been, and at which of them each queued node was added. */
    ghost var clock: nat
    ghost var added: seq<int>

    /** The invariant that every run of the operations keeps. */
    ghost predicate Valid()
      reads this, root, root.s, set n | n in root.s :: n.record
    {
      root.Valid() && Sorted(Keys(root.s)) && LatestFirst(Keys(root.s), added) && Before(added, clock)
    }

    constructor ()
      ensures Valid() && root.s == [] && fresh(root)
    {
      root := new RbRoot();
      clock, added := 0, [];
    }

    /** `AddHttpSessionElapseTreeNode`, `AddHttpSessionTimeoutTreeNode` */
    method Add(x: RbNode)
      requires Valid() && x !in root.s
      modifies this`clock, this`added, root, root.s, x
      ensures Valid() && |added| == |root.s|
      ensures root.s == InsertAt(old(root.s), LowerBound(old(Keys(root.s)), x.record.key), x)
      ensures Keys(root.s) == Inserted(old(Keys(root.s)), x.record.key)
      ensures clock == old(clock) + 1
      ensures |old(added)| == |old(root.s)| && added == With(old(added), LowerBound(old(Keys(root.s)), x.record.key), old(clock))
    {
      hide RbRoot.Valid, Sorted, LatestFirst, Before, InsertAt, With, LowerBound, Inserted;
      ghost var ks := Keys(root.s);
      SameLength(root.s);
      LatestInsert(ks, added, x.record.key, clock);
      ghost var _, _ := KeyIndex.Add(root, x);
      added, clock := With(added, LowerBound(ks, x.record.key), clock), clock + 1;
      SameLength(root.s);
    }

    lemma SameLength(s: seq<RbNode>)
      ensures |Keys(s)| == |s|
      ensures LatestFirst(Keys(s), added) ==> |added| == |s|
    {
    }

    /** `RemoveHttpSessionElapseTreeNode`, `RemoveHttpSessionTimeoutTreeNode` */
    method Remove(x: RbNode)
      requires Valid() && x in root.s
      modifies this`added, root, root.s
      ensures Valid()
      ensures 0 <= old(x.pos) < |old(root.s)| == |old(added)| && old(root.s)[old(x.pos)] == x
      ensures root.s == RemoveAt(old(root.s), old(x.pos)) && added == Removed(old(added), old(x.pos))
      ensures |old(Keys(root.s))| == |old(root.s)| && Keys(root.s) == Removed(old(Keys(root.s)), old(x.pos)) && x !in root.s
    {
      hide RbRoot.Valid, Sorted, LatestFirst, Before, RemoveAt, Removed;
      ghost var s, ks, i := root.s, Keys(root.s), x.pos;
      SameLength(s);
      KeyIndex.Remove(root, x);
      RemoveSorted(ks, i);
      LatestRemove(ks, added, i, clock);
      added := Removed(added, i);
    }

    /** `UpdateHttpSessionElapseTreeNode`, `UpdateHttpSessionTimeoutTreeNode` */
    method Update(x: RbNode, stamp: int)
      requires Valid() && x in root.s && forall n :: n in root.s && n != x ==> n.record != x.record
      modifies this`clock, this`added, root, root.s, x.record
      ensures Valid() && x.record.key == stamp
      ensures 0 <= old(x.pos) < |old(root.s)| && old(root.s)[old(x.pos)] == x
      ensures var ks := Removed(old(Keys(root.s)), old(x.pos));
        && Keys(root.s) == Inserted(ks, stamp)
        && root.s == InsertAt(RemoveAt(old(root.s), old(x.pos)), LowerBound(ks, stamp), x)
      ensures clock == old(clock) + 1
    {
      hide RbRoot.Valid, Sorted, LatestFirst, Before, LowerBound, Inserted, With;
      ghost var s, i := root.s, x.pos;
      ghost var ks := Keys(s);
      Remove(x);
      Others(s, i, x);
      ghost var ks' := Keys(root.s);
      x.record.key := stamp;
      assert Keys(root.s) == ks';
      Add(x);
    }

    lemma Others(s0: seq<RbNode>, i: nat, x: RbNode)
      requires i < |s0| && root.s == RemoveAt(s0, i)
      ensures forall n :: n in root.s ==> n in s0
    {
    }

    /** `GetExpireHttpSessionElapseTreeNode`, `GetExpireHttpSessionTimeoutTreeNode` */
    method GetExpired(now: int) returns (r: RbNode?)
      requires Valid()
      ensures r == null <==> forall i :: 0 <= i < |root.s| ==> root.s[i].record.key > now
      ensures r != null ==> r in root.s && r.record.key <= now && r == root.s[0]
      ensures r != null ==> |added| == |root.s| && forall i :: 0 <= i < |root.s| ==>
        r.record.key <= root.s[i].record.key && (r.record.key == root.s[i].record.key ==> added[i] <= added[0])
    {
      ghost var ks := Keys(root.s);
      var curr := root.First();
      hide RbRoot.Valid;
      assert forall i :: 0 <= i < |root.s| ==> root.s[i].record.key == ks[i] && ks[0] <= ks[i];
      if curr == null {
        return null;
      }
      if curr.record.key - now <= 0 {
        return curr;
      }
      return null;
    }

    lemma HeadPosition()
      requires Valid() && root.s != []
      ensures root.s[0].pos == 0
    {
      root.Read(0);
    }
  }

  // ----- the two queues of the worker thread

  /** Every session is in both queues: `to` leads from its node in the one to its node in the other, and
      `back` leads back. */
  ghost predicate Paired(a: seq<RbNode>, b: seq<RbNode>, to: map<RbNode, RbNode>, back: map<RbNode, RbNode>) {
    && (forall x :: x in a ==> x in to && to[x] in b && to[x] in back && back[to[x]] == x)
    && (forall y :: y in b ==> y in back && back[y] in a && back[y] in to && to[back[y]] == y)
  }

  /** The queues share nothing. */
  ghost predicate Separate(a: Timers, b: Timers)
    reads a, b, a.root, b.root
  {
    a != b && a.root != b.root && forall x :: x in a.root.s ==> x !in b.root.s
  }

  lemma Without(s: seq<RbNode>, i: nat)
    requires i < |s| && s[i] !in RemoveAt(s, i)
    ensures forall x :: x in RemoveAt(s, i) <==> x in s && x != s[i]
  {
  }

  lemma NoneShared(s: seq<RbNode>, t: seq<RbNode>)
    requires forall x :: x in s ==> x !in t
    ensures forall i, j :: 0 <= i < |s| && 0 <= j < |t| ==> s[i] != t[j]
  {
    forall i, j | 0 <= i < |s| && 0 <= j < |t| ensures s[i] != t[j] {
      assert s[i] in s;
    }
  }

  lemma PairedWithout(a: seq<RbNode>, b: seq<RbNode>, a': seq<RbNode>, b': seq<RbNode>, x: RbNode, to: map<RbNode, RbNode>,
      back: map<RbNode, RbNode>)
    requires Paired(a, b, to, back) && x in a
    requires (forall z :: z in a' <==> z in a && z != x) && (forall z :: z in b' <==> z in b && z != to[x])
    ensures Paired(a', b', to, back)
  {
  }

  lemma PairedIn(a: seq<RbNode>, b: seq<RbNode>, to: map<RbNode, RbNode>, back: map<RbNode, RbNode>, x: RbNode)
    requires Paired(a, b, to, back) && x in a
    ensures x in to && to[x] in b && to[x] in back && back[to[x]] == x
  {
  }

  lemma PairedBack(a: seq<RbNode>, b: seq<RbNode>, to: map<RbNode, RbNode>, back: map<RbNode, RbNode>)
    requires Paired(a, b, to, back)
    ensures Paired(b, a, back, to)
  {
  }

  /** `SetHttpSessionUnused`, as far as the queues go: the session leaves both. */
  method SetUnused(a: Timers, b: Timers, x: RbNode, y: RbNode, ghost to: map<RbNode, RbNode>, ghost back: map<RbNode, RbNode>)
    requires a.Valid() && b.Valid() && Separate(a, b) && Paired(a.root.s, b.root.s, to, back)
    requires x in a.root.s && x in to && y == to[x]
    modifies a`added, a.root, (set n | n in a.root.s), b`added, b.root, (set n | n in b.root.s)
    ensures a.Valid() && b.Valid() && Separate(a, b) && Paired(a.root.s, b.root.s, to, back)
    ensures y in old(b.root.s) && 0 <= old(x.pos) < |old(a.root.s)| && 0 <= old(y.pos) < |old(b.root.s)|
    ensures a.root.s == RemoveAt(old(a.root.s), old(x.pos)) && b.root.s == RemoveAt(old(b.root.s), old(y.pos))
    ensures forall z :: z in a.root.s <==> z in old(a.root.s) && z != x
    ensures forall z :: z in b.root.s <==> z in old(b.root.s) && z != y
  {
    hide RbRoot.Valid, Sorted, LatestFirst, Before, Paired;
    ghost var s, t := a.root.s, b.root.s;
    assert y in t by { PairedIn(s, t, to, back, x); }
    NoneShared(s, t);
    a.Remove(x);
    NoneShared(a.root.s, t);
    b.Remove(y);
    Without(s, old(x.pos));
    Without(t, old(y.pos));
    PairedWithout(s, t, a.root.s, b.root.s, x, to, back);
  }

  ghost predicate Due(n: RbNode, now: int)
    reads n.record
  {
    n.record.key <= now
  }

  /** Emptying a queue `s` of what is due took its first `m` nodes. */
  ghost predicate Passed(s: seq<RbNode>, s': seq<RbNode>, m: nat, now: int)
    reads set n | n in s :: n.record, set n | n in s' :: n.record
  {
    && m <= |s| && s' == s[m..]
    && (forall i :: 0 <= i < m ==> Due(s[i], now)) && forall i :: 0 <= i < |s'| ==> !Due(s'[i], now)
  }

  lemma PassedIffDue(s: seq<RbNode>, s': seq<RbNode>, m: nat, now: int)
    requires Passed(s, s', m, now)
    ensures forall x :: x in s' <==> x in s && !Due(x, now)
  {
    forall x | x in s && !Due(x, now) ensures x in s' {
      var i :| 0 <= i < |s| && s[i] == x;
      assert s'[i - m] == x;
    }
  }

  /** One of the two loops of the worker thread over the sessions that are due in queue `a`. */
  method DrainExpired(a: Timers, b: Timers, to: map<RbNode, RbNode>, ghost back: map<RbNode, RbNode>, now: int)
      returns (ghost due: nat)
    requires a.Valid() && b.Valid() && Separate(a, b) && Paired(a.root.s, b.root.s, to, back)
    modifies a`added, a.root, (set n | n in a.root.s), b`added, b.root, (set n | n in b.root.s)
    ensures a.Valid() && b.Valid() && Separate(a, b) && Paired(a.root.s, b.root.s, to, back)
    ensures Passed(old(a.root.s), a.root.s, due, now)
    ensures forall y :: y in b.root.s ==> y in old(b.root.s)
  {
    hide RbRoot.Valid, Timers.Valid, Paired;
    due := 0;
    ghost var s, t := a.root.s, b.root.s;
    while true
      invariant a.Valid() && b.Valid() && Separate(a, b) && Paired(a.root.s, b.root.s, to, back)
      invariant due <= |s| && a.root.s == s[due..]
      invariant forall i :: 0 <= i < due ==> s[i].record.key <= now
      invariant forall y :: y in b.root.s ==> y in t
      decreases |a.root.s|
    {
      var session := a.GetExpired(now);
      if session == null {
        break;
      }
      a.HeadPosition();
      PairedIn(a.root.s, b.root.s, to, back, session);
      SetUnused(a, b, session, to[session], to, back);
      due := due + 1;
    }
  }

  lemma StaysInBoth(s: seq<RbNode>, t: seq<RbNode>, s1: seq<RbNode>, t1: seq<RbNode>, s2: seq<RbNode>, t2: seq<RbNode>,
      to: map<RbNode, RbNode>, back: map<RbNode, RbNode>, now: int)
    requires Paired(s, t, to, back) && Paired(s1, t1, to, back) && Paired(s2, t2, to, back)
    requires forall x :: x in s1 <==> x in s && !Due(x, now)
    requires forall y :: y in t2 <==> y in t1 && !Due(y, now)
    requires forall x :: x in s2 ==> x in s1
    ensures forall x :: x in s2 <==> x in s && !Due(x, now) && !Due(to[x], now)
  {
  }

  /** The worker thread's pass over both queues: first the sessions that are due in queue `a`, then those that are
      due in queue `b`.  Exactly the sessions with neither timestamp due stay. */
  method DrainBoth(a: Timers, b: Timers, to: map<RbNode, RbNode>, back: map<RbNode, RbNode>, now: int)
    requires a.Valid() && b.Valid() && Separate(a, b) && Paired(a.root.s, b.root.s, to, back)
    modifies a`added, a.root, (set n | n in a.root.s), b`added, b.root, (set n | n in b.root.s)
    ensures a.Valid() && b.Valid() && Separate(a, b) && Paired(a.root.s, b.root.s, to, back)
    ensures forall x :: x in old(a.root.s) ==> x in to
    ensures forall x :: x in a.root.s <==> x in old(a.root.s) && !Due(x, now) && !Due(to[x], now)
  {
    hide RbRoot.Valid, Timers.Valid, Paired;
    ghost var s, t := a.root.s, b.root.s;
    ghost var m := DrainExpired(a, b, to, back, now);
    ghost var s1, t1 := a.root.s, b.root.s;
    PairedBack(s1, t1, to, back);
    ghost var n := DrainExpired(b, a, back, to, now);
    PairedBack(b.root.s, a.root.s, back, to);
    PassedIffDue(s, s1, m, now);
    PassedIffDue(t1, b.root.s, n, now);
    StaysInBoth(s, t, s1, t1, a.root.s, b.root.s, to, back, now);
    assert forall x :: x in s ==> x in to by { forall x | x in s ensures x in to { PairedIn(s, t, to, back, x); } }
  }
}
