/** The least-connections scheduler: servers ordered by their connection count. */
module LeastConnection {
  import opened RbTree
  import opened RbHeap
  import opened KeyIndex

  /** `UpdateLeastConnectionCountTreeNode`: the count of `server` has already been changed, and those
      of others may have been.  The tree stays valid and keeps its servers; `server` moves to
      position `at`.  When the others are in order, all are afterwards. */
  method Update(root: RbRoot, server: RbNode) returns (ghost at: nat)
    requires root.Valid() && server in root.s
    modifies root, root.s
    ensures root.Valid() && 0 <= old(server.pos) < |old(root.s)|
    ensures var rest := RemoveAt(old(root.s), old(server.pos));
      at <= |rest| && root.s == InsertAt(rest, at, server)
    ensures var keys := Removed(old(Keys(root.s)), old(server.pos));
      Sorted(keys) ==> at == LowerBound(keys, server.record.key) && Sorted(Keys(root.s))
  {
    hide RbRoot.Valid, Sorted, InsertAt, LowerBound, Removed, Inserted;
    root.Indexed(server);
    assert forall n :: n in RemoveAt(root.s, server.pos) ==> n in root.s;
    hide RemoveAt;
    ghost var steps;
    KeyIndex.Remove(root, server);
    steps, at := KeyIndex.Add(root, server);
  }

  /** However the count of one server changes, the others stay in order. */
  lemma ChangedKey(ks: seq<int>, i: nat, key: int)
    requires Sorted(ks) && i < |ks|
    ensures Sorted(Removed(ks[i := key], i))
  {
  }

  /** When a session ends, the connection count of its server is decremented in place, without an
      update of the tree. */
  method Release(root: RbRoot, server: RbNode)
    requires root.Valid() && server in root.s && forall n :: n in root.s && n != server ==> n.record != server.record
    modifies server.record`key
    ensures root.Valid() && 0 <= server.pos < |root.s| && root.s[server.pos] == server && root.s == old(root.s)
    ensures |old(Keys(root.s))| == |root.s|
      && Keys(root.s) == old(Keys(root.s))[server.pos := old(server.record.key) - 1]
  {
    hide RbRoot.Valid;
    OtherRecords(root, server);
    server.record.key := server.record.key - 1;
  }

  lemma OtherRecords(root: RbRoot, server: RbNode)
    requires root.Valid() && server in root.s && forall n :: n in root.s && n != server ==> n.record != server.record
    ensures 0 <= server.pos < |root.s| && root.s[server.pos] == server
    ensures forall j :: 0 <= j < |root.s| && j != server.pos ==> root.s[j].record != server.record
  {
    hide RbRoot.Valid;
    root.Indexed(server);
    forall j | 0 <= j < |root.s| && j != server.pos ensures root.s[j].record != server.record { root.Placed(j); }
  }

  /** A decrement keeps the order exactly when the server in front, if any, has fewer connections. */
  lemma ReleaseKeepsOrder(ks: seq<int>, i: nat)
    requires Sorted(ks) && i < |ks|
    ensures Sorted(ks[i := ks[i] - 1]) <==> i == 0 || ks[i - 1] < ks[i]
  {
    var after := ks[i := ks[i] - 1];
    if i > 0 { assert after[i - 1] == ks[i - 1] && after[i] == ks[i] - 1; }
  }

  /** Two sessions of the second server end: the program leaves the counts out of order. */
  lemma StaleCounts()
    ensures Sorted([1, 2]) && Sorted([1, 2][1 := 1]) && !Sorted([1, 2][1 := 1][1 := 0])
  {
    var after := [1, 2][1 := 1][1 := 0];
    assert after[0] == 1 && after[1] == 0;
  }

  /** `TravelMinLeastConnectionCountTreeNode` */
  method Travel(root: RbRoot, server: RbNode?) returns (r: RbNode?)
    requires root.Valid() && (server != null ==> server in root.s)
    ensures server == null ==> r == At(root.s, 0)
    ensures server != null ==> 0 <= server.pos < |root.s| && root.s[server.pos] == server && r == At(root.s, server.pos + 1)
  {
    hide RbRoot.Valid;
    if server == null {
      r := root.First();
    } else {
      r := root.Next(server);
    }
  }

  /** Asking for the next server until there is none visits every server once; in load order when the
      tree is sorted. */
  method TravelAll(root: RbRoot) returns (visited: seq<RbNode>)
    requires root.Valid()
    ensures visited == root.s && forall i, j :: 0 <= i < j < |visited| ==> visited[i] != visited[j]
    ensures Sorted(Keys(root.s)) ==>
      forall i, j :: 0 <= i <= j < |visited| ==> visited[i].record.key <= visited[j].record.key
  {
    hide RbRoot.Valid;
    visited := [];
    var server := Travel(root, null);
    while server != null
      invariant |visited| <= |root.s| && visited == root.s[..|visited|] && server == At(root.s, |visited|)
      modifies {}
      decreases |root.s| - |visited|
    {
      root.Placed(|visited|);
      visited := visited + [server];
      server := Travel(root, server);
    }
    InLoadOrder(root);
  }

  lemma InLoadOrder(root: RbRoot)
    requires root.Valid()
    ensures Sorted(Keys(root.s)) ==>
      forall i, j :: 0 <= i <= j < |root.s| ==> root.s[i].record.key <= root.s[j].record.key
    ensures forall i, j :: 0 <= i < j < |root.s| ==> root.s[i] != root.s[j]
  {
    root.AllDifferent();
    var ks := Keys(root.s);
    assert forall i :: 0 <= i < |root.s| ==> ks[i] == root.s[i].record.key;
  }

  ghost predicate Available(n: RbNode, now: int)
    reads n.record
  {
    n.record.validAfter == 0 || now > n.record.validAfter
  }

  /** The least-connections branch of `SelectForwardAddress`: the first server in the order of the tree
      that is not suspended, or none when all are.  When the tree is sorted it is the least loaded
      of those. */
  method Select(root: RbRoot, now: int) returns (r: RbNode?)
    requires root.Valid()
    modifies set n | n in root.s :: n.record
    ensures r == null <==> forall n :: n in root.s ==> old(n.record.validAfter) != 0 && now <= old(n.record.validAfter)
    ensures r == null ==> forall n :: n in root.s ==> n.record.validAfter == old(n.record.validAfter)
    ensures r != null ==> r in root.s && old(Available(r, now)) && r.record.validAfter == 0
    ensures r != null ==> 0 <= r.pos < |root.s| && root.s[r.pos] == r
    ensures r != null ==> forall j :: 0 <= j < r.pos ==> !old(Available(root.s[j], now))
    ensures r != null && Sorted(Keys(root.s)) ==>
      forall n :: n in root.s && old(Available(n, now)) ==> r.record.key <= n.record.key
  {
    ghost var i;
    r, i := FirstAvailable(root, now);
    if r != null {
      root.Placed(i);
      if Sorted(Keys(root.s)) { KeysRead(root.s, i); }
      hide RbRoot.Valid;
      r.record.validAfter := 0;
      assert Keys(root.s) == old(Keys(root.s));
    }
  }

  lemma KeysRead(s: seq<RbNode>, i: nat)
    requires Sorted(Keys(s)) && i < |s|
    ensures forall j :: i <= j < |s| ==> s[i].record.key <= s[j].record.key
    ensures s[i] in s
  {
    assert forall j :: 0 <= j < |s| ==> Keys(s)[j] == s[j].record.key;
  }

  method FirstAvailable(root: RbRoot, now: int) returns (r: RbNode?, ghost i: nat)
    requires root.Valid()
    ensures i <= |root.s| && r == At(root.s, i) && forall j :: 0 <= j < i ==> !Available(root.s[j], now)
    ensures r != null ==> Available(r, now)
  {
    hide RbRoot.Valid;
    i := 0;
    r := Travel(root, null);
    while r != null
      invariant i <= |root.s| && r == At(root.s, i)
      invariant forall j :: 0 <= j < i ==> !Available(root.s[j], now)
      modifies {}
      decreases |root.s| - i
    {
      root.Placed(i);
      if r.record.validAfter == 0 || now > r.record.validAfter {
        return;
      }
      i := i + 1;
      r := Travel(root, r);
    }
  }
}
