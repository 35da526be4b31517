/** The connections of each client address: hash chains whose nodes point back at the pointer that
    points at them (`hlist` of `list.c`), and the counters of `IpLimitsHash.c` in them. */
module IpLimits {

  class ChainHead {
    var first: Entry?

    constructor ()
      ensures first == null
    {
      first := null;
    }
  }

  /** What a `pprev` points at: the `first` field of a head or the `next` field of a node. */
  datatype Back = First(head: ChainHead) | Next(entry: Entry) | Nowhere

  /** `struct IpLimits` with its chain node. */
  class Entry {
    const ip: nat
    var count: int
    var next: Entry?
    var pprev: Back

    constructor (ip: nat, count: int)
      ensures this.ip == ip && this.count == count
    {
      this.ip, this.count, next, pprev := ip, count, null, Nowhere;
    }
  }

  function At(s: seq<Entry>, i: nat): Entry? { if i < |s| then s[i] else null }

  /** The chain at `head` has the entries `s`. */
  predicate Chain(head: ChainHead, s: seq<Entry>)
    reads head, s
  {
    && head.first == At(s, 0)
    && (forall i {:trigger s[i].next} :: 0 <= i < |s| ==> s[i].next == At(s, i + 1))
    && (forall i {:trigger s[i].pprev} :: 0 <= i < |s| ==> s[i].pprev == if i == 0 then First(head) else Next(s[i - 1]))
  }

  predicate Distinct(s: seq<Entry>) { forall i, j :: 0 <= i < j < |s| ==> s[i] != s[j] }

  /** `hlist_add_head`. */
  method AddHead(n: Entry, head: ChainHead, ghost s: seq<Entry>)
    requires Chain(head, s) && Distinct(s) && n !in s
    modifies head, n`next, n`pprev, s
    ensures Chain(head, [n] + s) && Distinct([n] + s)
    ensures forall x :: x in s ==> x.count == old(x.count)
  {
    var first := head.first;
    n.next := first;
    if first != null {
      first.pprev := Next(n);
    }
    head.first := n;
    n.pprev := First(head);
  }

  /** `hlist_del`: whatever points at the node points at the next one instead. */
  method Delete(n: Entry, ghost head: ChainHead, ghost s: seq<Entry>, ghost k: nat)
    requires Chain(head, s) && Distinct(s) && k < |s| && n == s[k]
    modifies head, s
    ensures Chain(head, s[..k] + s[k + 1..]) && Distinct(s[..k] + s[k + 1..])
    ensures n.next == null && n.pprev == Nowhere
    ensures forall x :: x in s ==> x.count == old(x.count)
  {
    var next, pprev := n.next, n.pprev;
    assert next == At(s, k + 1) && pprev == if k == 0 then First(head) else Next(s[k - 1]);
    if pprev.First? {
      pprev.head.first := next;
    } else if pprev.Next? {
      pprev.entry.next := next;
    }
    if next != null {
      next.pprev := pprev;
    }
    n.next := null;
    n.pprev := Nowhere;
    Bypassed(head, s, k);
  }

  /** What points at entry `i` from behind. */
  function BackOf(head: ChainHead, s: seq<Entry>, i: nat): Back
    requires i < |s|
  {
    if i == 0 then First(head) else Next(s[i - 1])
  }

  /** The chain without the entry at `k`, when its neighbours point past it. */
  lemma Bypassed(head: ChainHead, s: seq<Entry>, k: nat)
    requires Distinct(s) && k < |s| && head.first == At(s, if k == 0 then 1 else 0)
    requires forall i {:trigger s[i].next} :: 0 <= i < |s| && i != k ==> s[i].next == At(s, if i + 1 == k then k + 1 else i + 1)
    requires forall i {:trigger s[i].pprev} :: 0 <= i < |s| && i != k ==> s[i].pprev == BackOf(head, s, if i == k + 1 then k else i)
    ensures Chain(head, s[..k] + s[k + 1..]) && Distinct(s[..k] + s[k + 1..])
  {
    var q := s[..k] + s[k + 1..];
    assert forall i {:trigger q[i]} :: 0 <= i < |q| ==> q[i] == if i < k then s[i] else s[i + 1];
    forall i | 0 <= i < |q|
      ensures q[i].next == At(q, i + 1) && q[i].pprev == if i == 0 then First(head) else Next(q[i - 1])
    {
      var j := if i < k then i else i + 1;
      assert q[i] == s[j] && s[j].next == At(s, if j + 1 == k then k + 1 else j + 1);
      assert s[j].pprev == BackOf(head, s, if j == k + 1 then k else j);
      assert i > 0 ==> q[i - 1] == if i - 1 < k then s[i - 1] else s[i];
    }
  }

  // ----- the counters as a map

  /** One more connection: what the counters become, and whether it is refused. */
  function Increased(counts: map<nat, int>, ip: nat, limit: int): (map<nat, int>, int) {
    if ip !in counts then (counts[ip := 1], 0)
    else if counts[ip] + 1 > limit then (counts, 1)
    else (counts[ip := counts[ip] + 1], 0)
  }

  /** One connection less; an address without connections is reported. */
  function Decreased(counts: map<nat, int>, ip: nat): (map<nat, int>, int) {
    if ip !in counts then (counts, 1)
    else if counts[ip] - 1 <= 0 then (counts - {ip}, 0)
    else (counts[ip := counts[ip] - 1], 0)
  }

  datatype Call = Connect(ip: nat) | Disconnect(ip: nat)

  function Step(counts: map<nat, int>, call: Call, limit: int): (map<nat, int>, int) {
    match call
    case Connect(ip) => Increased(counts, ip, limit)
    case Disconnect(ip) => Decreased(counts, ip)
  }

  /** The counters after a run from the empty table. */
  function Counters(run: seq<Call>, limit: int): map<nat, int> {
    if run == [] then map[] else Step(Counters(run[..|run| - 1], limit), run[|run| - 1], limit).0
  }

  /** How many calls of the run admitted, or released, a connection of the address. */
  function Succeeded(run: seq<Call>, limit: int, call: Call): nat {
    if run == [] then 0
    else
      var front, last := run[..|run| - 1], run[|run| - 1];
      Succeeded(front, limit, call)
        + if last == call && Step(Counters(front, limit), last, limit).1 == 0 then 1 else 0
  }

  /** In every run, an address is present exactly when more connections were admitted than
      released; its counter is the difference and within the limit. */
  lemma {:induction false} CountersBalance(run: seq<Call>, limit: int, ip: nat)
    requires limit >= 1
    ensures var counts := Counters(run, limit);
      var open := Succeeded(run, limit, Connect(ip)) - Succeeded(run, limit, Disconnect(ip));
      && (ip in counts <==> open > 0) && (ip in counts ==> counts[ip] == open <= limit) && open >= 0
  {
    if run != [] { CountersBalance(run[..|run| - 1], limit, ip); }
  }

  /** How many connections of the address a run has left open. */
  function Opened(run: seq<Call>, limit: int, ip: nat): int {
    Succeeded(run, limit, Connect(ip)) - Succeeded(run, limit, Disconnect(ip))
  }

  /** The next connection of an address is refused exactly when it has as many as the limit allows; a
      release is reported as unknown exactly when it has none. */
  lemma RefusedAtLimit(run: seq<Call>, limit: int, call: Call)
    requires limit >= 1
    ensures var ret := Step(Counters(run, limit), call, limit).1; var open := Opened(run, limit, call.ip);
      && 0 <= open <= limit
      && ret == if call.Connect? then (if open == limit then 1 else 0) else (if open == 0 then 1 else 0)
  {
    CountersBalance(run, limit, call.ip);
  }

  /** What a run has left open after one more call. */
  lemma OpenedNext(run: seq<Call>, limit: int, call: Call, ip: nat)
    requires limit >= 1
    ensures Opened(run + [call], limit, ip) == Opened(run, limit, ip)
      + if call == Connect(ip) && Opened(run, limit, ip) < limit then 1
        else if call == Disconnect(ip) && Opened(run, limit, ip) > 0 then -1
        else 0
  {
    var longer := run + [call];
    assert longer[..|longer| - 1] == run && longer[|longer| - 1] == call;
    RefusedAtLimit(run, limit, call);
  }

  /** Below a limit of one, a first connection is still admitted. */
  lemma FirstAlwaysAdmitted(ip: nat, limit: int)
    ensures Counters([Connect(ip)], limit) == map[ip := 1]
  {
    var run := [Connect(ip)];
    assert run[..0] == [];
    assert Counters([], limit) == map[];
  }

  // ----- the table

  const BUCKETS: nat := 65536

  predicate Has(s: seq<Entry>, ip: nat) { exists k :: 0 <= k < |s| && s[k].ip == ip }

  /** The entries of bucket `i`: their addresses belong there and differ, and they hold the counters. */
  ghost predicate EntriesOk(s: seq<Entry>, i: nat, counts: map<nat, int>)
    reads s
  {
    && (forall k :: 0 <= k < |s| ==> s[k].ip % BUCKETS == i && s[k].ip in counts && counts[s[k].ip] == s[k].count)
    && (forall j, k :: 0 <= j < k < |s| ==> s[j].ip != s[k].ip)
  }

  /** The counter of an address of another bucket changed. */
  lemma EntriesStay(s: seq<Entry>, i: nat, counts: map<nat, int>, after: map<nat, int>, ip: nat)
    requires EntriesOk(s, i, counts) && ip % BUCKETS != i
    requires forall x :: x != ip ==> (x in counts <==> x in after) && (x in counts ==> counts[x] == after[x])
    ensures EntriesOk(s, i, after)
  {
  }

  lemma EntriesGrow(n: Entry, s: seq<Entry>, i: nat, counts: map<nat, int>)
    requires EntriesOk(s, i, counts) && n.ip % BUCKETS == i && n.ip !in counts
    ensures EntriesOk([n] + s, i, counts[n.ip := n.count])
    ensures Has([n] + s, n.ip) && forall ip :: Has(s, ip) ==> Has([n] + s, ip)
  {
    var q := [n] + s;
    assert q[0] == n && forall k :: 0 <= k < |s| ==> s[k] == q[k + 1];
  }

  lemma EntriesShrink(s: seq<Entry>, i: nat, counts: map<nat, int>, k: nat)
    requires EntriesOk(s, i, counts) && k < |s|
    ensures EntriesOk(s[..k] + s[k + 1..], i, counts - {s[k].ip})
    ensures forall ip :: ip != s[k].ip && Has(s, ip) ==> Has(s[..k] + s[k + 1..], ip)
  {
    var q := s[..k] + s[k + 1..];
    assert forall j :: 0 <= j < |q| ==> q[j] == if j < k then s[j] else s[j + 1];
    assert forall j :: 0 <= j < |s| && j != k ==> s[j] == q[if j < k then j else j - 1];
  }

  /** The entries of a bucket belong there. */
  predicate Belong(s: seq<Entry>, i: nat) { forall x :: x in s ==> x.ip % BUCKETS == i }

  lemma EntriesBelong(s: seq<Entry>, i: nat, counts: map<nat, int>)
    requires EntriesOk(s, i, counts)
    ensures Belong(s, i)
  {
  }

  /** Different buckets share no entry. */
  lemma Apart(s: seq<Entry>, t: seq<Entry>, b: nat, i: nat)
    requires b != i && Belong(s, b) && Belong(t, i)
    ensures forall x :: x in t ==> x !in s
  {
  }

  lemma EntriesDistinct(s: seq<Entry>, i: nat, counts: map<nat, int>)
    requires EntriesOk(s, i, counts)
    ensures Distinct(s)
  {
  }

  predicate HeadsDiffer(heads: seq<ChainHead>) { forall i, j :: 0 <= i < j < |heads| ==> heads[i] != heads[j] }

  lemma HeadApart(heads: seq<ChainHead>, b: nat)
    requires HeadsDiffer(heads) && b < |heads|
    ensures forall i :: 0 <= i < |heads| && i != b ==> heads[i] != heads[b]
  {
  }

  /** Every counted address has an entry in its bucket. */
  ghost predicate Complete(chains: seq<seq<Entry>>, counts: map<nat, int>)
    requires |chains| == BUCKETS
  {
    forall ip :: ip in counts ==> Has(chains[ip % BUCKETS], ip)
  }

  lemma CompleteGrows(chains: seq<seq<Entry>>, counts: map<nat, int>, s: seq<Entry>, ip: nat, count: int)
    requires |chains| == BUCKETS && Complete(chains, counts) && Has(s, ip)
    requires forall x :: Has(chains[ip % BUCKETS], x) ==> Has(s, x)
    ensures Complete(chains[ip % BUCKETS := s], counts[ip := count])
  {
    hide Has;
  }

  lemma CompleteShrinks(chains: seq<seq<Entry>>, counts: map<nat, int>, s: seq<Entry>, ip: nat)
    requires |chains| == BUCKETS && Complete(chains, counts)
    requires forall x :: x != ip && Has(chains[ip % BUCKETS], x) ==> Has(s, x)
    ensures Complete(chains[ip % BUCKETS := s], counts - {ip})
  {
    hide Has;
  }

  ghost function AllEntries(chains: seq<seq<Entry>>): set<Entry> {
    set i, k | 0 <= i < |chains| && 0 <= k < |chains[i]| :: chains[i][k]
  }

  ghost function AllHeads(heads: seq<ChainHead>): set<ChainHead> { set h | h in heads }

  /** Every bucket but `b`. */
  ghost predicate OthersOk(heads: seq<ChainHead>, chains: seq<seq<Entry>>, b: nat, counts: map<nat, int>)
    reads heads, AllEntries(chains)
  {
    && |heads| == BUCKETS && |chains| == BUCKETS && HeadsDiffer(heads)
    && forall i :: 0 <= i < BUCKETS && i != b ==> Chain(heads[i], chains[i]) && EntriesOk(chains[i], i, counts)
  }

  lemma OthersStay(heads: seq<ChainHead>, chains: seq<seq<Entry>>, b: nat, before: map<nat, int>,
      after: map<nat, int>, ip: nat)
    requires OthersOk(heads, chains, b, before) && ip % BUCKETS == b
    requires forall x :: x != ip ==> (x in before <==> x in after) && (x in before ==> before[x] == after[x])
    ensures OthersOk(heads, chains, b, after)
  {
    hide Chain, EntriesOk;
    forall i | 0 <= i < BUCKETS && i != b ensures EntriesOk(chains[i], i, after) {
      EntriesStay(chains[i], i, before, after, ip);
    }
  }

  class Table {
    const heads: seq<ChainHead>
    const limit: int
    ghost var chains: seq<seq<Entry>>
    ghost var counts: map<nat, int>

    ghost predicate Valid()
      reads this, heads, AllEntries(chains)
    {
      && |heads| == BUCKETS && |chains| == BUCKETS && HeadsDiffer(heads)
      && (forall i :: 0 <= i < BUCKETS ==> Chain(heads[i], chains[i]) && EntriesOk(chains[i], i, counts))
      && Complete(chains, counts)
    }

    /** `InitIpLimitsHash`. */
    constructor (limit: int)
      ensures Valid() && counts == map[] && this.limit == limit
      ensures fresh(AllHeads(heads)) && AllEntries(chains) == {}
    {
      this.limit := limit;
      var made: seq<ChainHead> := [];
      while |made| < BUCKETS
        invariant |made| <= BUCKETS
        invariant forall i :: 0 <= i < |made| ==> fresh(made[i]) && made[i].first == null
        invariant forall i, j :: 0 <= i < j < |made| ==> made[i] != made[j]
      {
        var head := new ChainHead();
        made := made + [head];
      }
      heads := made;
      chains := seq(BUCKETS, _ => []);
      counts := map[];
    }

    /** The loop over the chain of an address. */
    method Find(ip: nat) returns (p: Entry?, ghost k: nat)
      requires Valid()
      ensures k <= |chains[ip % BUCKETS]| && p == At(chains[ip % BUCKETS], k)
      ensures p == null <==> ip !in counts
      ensures p != null ==> p.ip == ip && p.count == counts[ip]
    {
      ghost var s := chains[ip % BUCKETS];
      assert Chain(heads[ip % BUCKETS], s) && EntriesOk(s, ip % BUCKETS, counts);
      p := heads[ip % BUCKETS].first;
      k := 0;
      while p != null && p.ip != ip
        invariant k <= |s| && p == At(s, k) && forall j :: 0 <= j < k ==> s[j].ip != ip
        decreases |s| - k
      {
        p := p.next;
        k := k + 1;
      }
      if p != null { assert s[k].ip in counts; } else { assert !Has(s, ip); }
    }

    /** Change the counter of an entry. */
    method SetCount(p: Entry, count: int, ghost k: nat)
      requires Valid() && k < |chains[p.ip % BUCKETS]| && p == chains[p.ip % BUCKETS][k]
      modifies p`count, this`counts
      ensures Valid() && counts == old(counts)[p.ip := count] && p.count == count
    {
      p.count := count;
      counts := counts[p.ip := count];
    }

    lemma ValidParts(b: nat)
      requires Valid() && b < BUCKETS
      ensures |heads| == BUCKETS && |chains| == BUCKETS && Complete(chains, counts)
      ensures Chain(heads[b], chains[b]) && EntriesOk(chains[b], b, counts) && Distinct(chains[b])
      ensures forall i :: 0 <= i < BUCKETS && i != b ==>
        Chain(heads[i], chains[i]) && EntriesOk(chains[i], i, counts) && heads[i] != heads[b]
        && forall x :: x in chains[i] ==> x !in chains[b]
    {
      EntriesDistinct(chains[b], b, counts);
      HeadApart(heads, b);
      hide Chain, EntriesOk, Distinct;
      forall i | 0 <= i < BUCKETS && i != b ensures forall x :: x in chains[i] ==> x !in chains[b] {
        EntriesBelong(chains[i], i, counts);
        EntriesBelong(chains[b], b, counts);
        Apart(chains[b], chains[i], b, i);
      }
    }

    lemma ValidFrom(b: nat)
      requires b < BUCKETS && OthersOk(heads, chains, b, counts) && Chain(heads[b], chains[b]) && EntriesOk(chains[b], b, counts)
      requires Complete(chains, counts)
      ensures Valid()
    {
    }

    /** Put a new entry in front of the chain of bucket `b`. */
    method LinkFront(ip: nat, ghost b: nat) returns (entry: Entry)
      requires Valid() && b == ip % BUCKETS
      modifies this`chains, this`counts, heads[ip % BUCKETS], chains[ip % BUCKETS]
      ensures |chains| == BUCKETS == |heads| && chains == old(chains)[b := [entry] + old(chains[b])] && fresh(entry)
      ensures entry.ip == ip && entry.count == 1 && counts == old(counts)[ip := 1]
      ensures OthersOk(heads, chains, b, old(counts)) && Chain(heads[b], chains[b]) && EntriesOk(old(chains[b]), b, old(counts))
      ensures Complete(old(chains), old(counts))
    {
      hide Chain, Distinct, Complete, HeadsDiffer;
      ValidParts(b);
      ghost var s := chains[b];
      entry := new Entry(ip, 1);
      AddHead(entry, heads[ip % BUCKETS], s);
      chains := chains[b := [entry] + s];
      counts := counts[ip := 1];
    }

    method UnlinkEntry(p: Entry, ghost b: nat, ghost k: nat)
      requires Valid() && b == p.ip % BUCKETS && k < |chains[b]| && p == chains[b][k]
      modifies this`chains, this`counts, heads[b], chains[b]
      ensures |chains| == BUCKETS == |heads| && chains == old(chains)[b := old(chains[b])[..k] + old(chains[b])[k + 1..]]
      ensures counts == old(counts) - {p.ip}
      ensures OthersOk(heads, chains, b, old(counts)) && Chain(heads[b], chains[b]) && EntriesOk(old(chains[b]), b, old(counts))
      ensures Complete(old(chains), old(counts))
    {
      hide Chain, Distinct, Complete, HeadsDiffer;
      ValidParts(b);
      ghost var s := chains[b];
      Delete(p, heads[b], s, k);
      chains := chains[b := s[..k] + s[k + 1..]];
      counts := counts - {p.ip};
    }

    /** Put a new entry in front of its chain. */
    method Insert(ip: nat)
      requires Valid() && ip !in counts
      modifies this`chains, this`counts, heads[ip % BUCKETS], chains[ip % BUCKETS]
      ensures Valid() && counts == old(counts)[ip := 1]
      ensures |chains| == BUCKETS && forall i :: 0 <= i < BUCKETS && i != ip % BUCKETS ==> chains[i] == old(chains[i])
      ensures forall x :: x in chains[ip % BUCKETS] ==> x in old(chains[ip % BUCKETS]) || fresh(x)
    {
      ghost var b, s, all, before := ip % BUCKETS, chains[ip % BUCKETS], chains, counts;
      hide Chain, EntriesOk, Has, OthersOk, Distinct, Complete, Valid;
      var entry := LinkFront(ip, b);
      EntriesGrow(entry, s, b, before);
      CompleteGrows(all, before, [entry] + s, ip, 1);
      OthersStay(heads, chains, b, before, counts, ip);
      ValidFrom(b);
    }

    /** Take an entry out of its chain. */
    method Remove(p: Entry, ghost k: nat)
      requires Valid() && k < |chains[p.ip % BUCKETS]| && p == chains[p.ip % BUCKETS][k]
      modifies this`chains, this`counts, heads[p.ip % BUCKETS], chains[p.ip % BUCKETS]
      ensures Valid() && counts == old(counts) - {p.ip}
      ensures |chains| == BUCKETS && forall i :: 0 <= i < BUCKETS && i != p.ip % BUCKETS ==> chains[i] == old(chains[i])
      ensures forall x :: x in chains[p.ip % BUCKETS] ==> x in old(chains[p.ip % BUCKETS])
    {
      ghost var b, s, all, before := p.ip % BUCKETS, chains[p.ip % BUCKETS], chains, counts;
      hide Chain, EntriesOk, Has, OthersOk, Distinct, Complete, Valid;
      UnlinkEntry(p, b, k);
      EntriesShrink(s, b, before, k);
      CompleteShrinks(all, before, s[..k] + s[k + 1..], p.ip);
      OthersStay(heads, chains, b, before, counts, p.ip);
      ValidFrom(b);
    }

    /** `IncreaseIpLimitsHashNode`; `available`: the allocation of a new entry succeeds. */
    method Increase(ip: nat, available: bool) returns (ret: int)
      requires Valid()
      modifies this`chains, this`counts, heads[ip % BUCKETS], chains[ip % BUCKETS]
      ensures Valid()
      ensures |chains| == BUCKETS && forall i :: 0 <= i < BUCKETS && i != ip % BUCKETS ==> chains[i] == old(chains[i])
      ensures forall x :: x in chains[ip % BUCKETS] ==> x in old(chains[ip % BUCKETS]) || fresh(x)
      ensures (counts, ret) ==
        if ip !in old(counts) && !available then (old(counts), -1) else Increased(old(counts), ip, limit)
      ensures ret == 1 <==> ip in old(counts) && old(counts)[ip] >= limit
      ensures ret == -1 <==> ip !in old(counts) && !available
      ensures ret == 0 || ret == 1 || ret == -1
      ensures ret != 0 ==> counts == old(counts)
      ensures ret == 0 ==> counts == old(counts)[ip := (if ip in old(counts) then old(counts)[ip] else 0) + 1]
    {
      hide EntriesOk, Chain, Has;
      var p, k := Find(ip);
      if p != null {
        SetCount(p, p.count + 1, k);
        if p.count > limit {
          SetCount(p, p.count - 1, k);
          assert counts == old(counts);
          return 1;
        }
        return 0;
      }
      if !available {
        return -1;
      }
      Insert(ip);
      return 0;
    }

    /** `DecreaseIpLimitsHashNode`. */
    method Decrease(ip: nat) returns (ret: int)
      requires Valid()
      modifies this`chains, this`counts, heads[ip % BUCKETS], chains[ip % BUCKETS]
      ensures Valid() && (counts, ret) == Decreased(old(counts), ip)
      ensures ret == if ip in old(counts) then 0 else 1
      ensures ret != 0 ==> counts == old(counts)
      ensures ret == 0 ==> counts == if old(counts)[ip] <= 1 then old(counts) - {ip} else old(counts)[ip := old(counts)[ip] - 1]
      ensures |chains| == BUCKETS && forall i :: 0 <= i < BUCKETS && i != ip % BUCKETS ==> chains[i] == old(chains[i])
      ensures forall x :: x in chains[ip % BUCKETS] ==> x in old(chains[ip % BUCKETS])
    {
      hide EntriesOk, Chain, Has;
      var p, k := Find(ip);
      if p == null {
        return 1;
      }
      SetCount(p, p.count - 1, k);
      if p.count <= 0 {
        Remove(p, k);
        assert counts == old(counts) - {ip};
      }
      return 0;
    }
  }


  // ----- runs of calls on a table

  /** In a valid table an address has one entry if it is counted and none otherwise; the entry lies in
      the bucket of the address and holds the counter. */
  predicate OneEntryEach(chains: seq<seq<Entry>>, counts: map<nat, int>)
    reads AllEntries(chains)
  {
    && |chains| == 65536
    && (forall i, k :: 0 <= i < 65536 && 0 <= k < |chains[i]| ==> Placed(chains[i][k], i, counts))
    && (forall i, j, k :: 0 <= i < 65536 && 0 <= j < k < |chains[i]| ==> chains[i][j].ip != chains[i][k].ip)
    && (forall ip :: ip in counts ==> Has(chains[ip % 65536], ip))
  }

  predicate Placed(x: Entry, i: nat, counts: map<nat, int>)
    reads x
  {
    x.ip % 65536 == i && x.ip in counts && counts[x.ip] == x.count
  }

  lemma ValidPlaces(table: Table)
    requires table.Valid()
    ensures OneEntryEach(table.chains, table.counts)
  {
    forall i, k | 0 <= i < BUCKETS && 0 <= k < |table.chains[i]| ensures Placed(table.chains[i][k], i, table.counts) {
      assert EntriesOk(table.chains[i], i, table.counts);
    }
    forall i, j, k | 0 <= i < BUCKETS && 0 <= j < k < |table.chains[i]|
      ensures table.chains[i][j].ip != table.chains[i][k].ip
    {
      assert EntriesOk(table.chains[i], i, table.counts);
    }
  }

  /** The return values of a run of calls. */
  function Results(run: seq<Call>, limit: int): seq<int> {
    if run == [] then []
    else Results(run[..|run| - 1], limit) + [Step(Counters(run[..|run| - 1], limit), run[|run| - 1], limit).1]
  }

  /** In every run with a limit of at least one, a connection is refused with 1 exactly when the calls before
      it have left as many open as the limit allows, and a release exactly when they have left none. */
  lemma {:induction false} ResultsAtLimit(run: seq<Call>, limit: int, i: nat)
    requires limit >= 1 && i < |run|
    ensures |Results(run, limit)| == |run|
    ensures var open := Opened(run[..i], limit, run[i].ip);
      Results(run, limit)[i] == if run[i].Connect? then (if open == limit then 1 else 0) else (if open == 0 then 1 else 0)
  {
    var front := run[..|run| - 1];
    if i < |front| {
      ResultsAtLimit(front, limit, i);
      assert front[..i] == run[..i];
    } else {
      RefusedAtLimit(front, limit, run[i]);
      if front != [] { ResultsAtLimit(front, limit, 0); }
    }
  }

  lemma BucketEntries(chains: seq<seq<Entry>>, b: nat)
    requires b < |chains|
    ensures forall x :: x in chains[b] ==> x in AllEntries(chains)
  {
  }

  lemma EntriesWithin(chains: seq<seq<Entry>>, after: seq<seq<Entry>>, b: nat)
    requires |after| == |chains| && forall i :: 0 <= i < |chains| && i != b ==> after[i] == chains[i]
    ensures forall x :: x in AllEntries(after) ==> x in AllEntries(chains) || (b < |after| && x in after[b])
  {
  }

  /** One call on a table. */
  method Perform(table: Table, call: Call) returns (ret: int)
    requires table.Valid()
    modifies table`chains, table`counts, AllHeads(table.heads), AllEntries(table.chains)
    ensures table.Valid() && (table.counts, ret) == Step(old(table.counts), call, table.limit)
    ensures forall x :: x in AllEntries(table.chains) ==> x in old(AllEntries(table.chains)) || fresh(x)
  {
    ghost var chains, b := table.chains, call.ip % BUCKETS;
    table.ValidParts(b);
    BucketEntries(chains, b);
    hide Table.Valid, AllEntries;
    match call {
      case Connect(ip) => ret := table.Increase(ip, true);
      case Disconnect(ip) => ret := table.Decrease(ip);
    }
    EntriesWithin(chains, table.chains, b);
  }

  /** A run of calls on a new table: the counters and the results are those of the run, and every
      counted address has its one entry. */
  method Replay(run: seq<Call>, limit: int) returns (table: Table, rets: seq<int>)
    ensures fresh(table) && table.Valid() && table.limit == limit
    ensures table.counts == Counters(run, limit) && rets == Results(run, limit)
    ensures OneEntryEach(table.chains, Counters(run, limit))
  {
    hide Table.Valid, OneEntryEach, AllEntries;
    table := new Table(limit);
    rets := [];
    for i := 0 to |run|
      invariant fresh(table) && table.Valid() && table.limit == limit
      invariant table.counts == Counters(run[..i], limit) && rets == Results(run[..i], limit)
      invariant fresh(AllHeads(table.heads)) && forall x :: x in AllEntries(table.chains) ==> fresh(x)
    {
      assert run[..i + 1][..i] == run[..i];
      var ret := Perform(table, run[i]);
      rets := rets + [ret];
    }
    assert run[..|run|] == run;
    ValidPlaces(table);
  }
}
