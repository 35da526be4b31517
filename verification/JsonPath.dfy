/** The shared path buffer: what a traversal at a path never changes. */
module JsonPath {
  import opened JsonToken
  import opened JsonTravel

  /** As long as no array was visited at a path shorter than that of the array around it, the first
      `n` bytes of the path buffer are what they were, and a slash behind them is still one. */
  predicate Kept<S>(st: State<S>, n: nat, o: Outcome<S>)
    requires n < |st.jpath|
  {
    && |o.st.jpath| == |st.jpath|
    && (o.st.seen.rooted ==>
      && st.seen.rooted && o.st.jpath[..n] == st.jpath[..n]
      && (st.jpath[n] == '/' ==> o.st.jpath[n] == '/'))
  }

  lemma AppendKeeps(jpath: string, n: nat, name: string)
    requires n < |jpath|
    ensures Append(jpath, n, name).0[..n] == jpath[..n]
    ensures jpath[n] == '/' ==> Append(jpath, n, name).0[n] == '/'
  {
    AppendExtends(jpath, n, name);
  }

  lemma Shorter(a: string, b: string, n: nat, m: nat)
    requires n <= m <= |a| && m <= |b| && a[..m] == b[..m]
    ensures a[..n] == b[..n] && (n < m ==> a[n] == b[n])
  {
    assert n < m ==> a[n] == a[..m][n] && b[n] == b[..m][n];
    assert a[..n] == a[..m][..n] && b[..n] == b[..m][..n];
  }

  /** Whatever the text and the callback, traversing at path length `n` keeps the path. */
  lemma {:induction false} MembersKeep<S>(st: State<S>, n: nat, first: bool, cb: Callback<S>)
    requires n < |st.jpath|
    ensures Kept(st, n, Members(st, n, first, cb))
    decreases |st.rest|, 0
  {
    hide NextToken, Member;
    var t := NextToken(st.rest);
    if t.Token? { MemberKeeps(st.(rest := t.rest), n, t.from[..t.len], t.quotes, cb); }
  }

  lemma {:induction false} MemberKeeps<S>(st: State<S>, n: nat, name: string, quotes: char, cb: Callback<S>)
    requires n < |st.jpath|
    ensures Kept(st, n, Member(st, n, name, quotes, cb))
    decreases |st.rest|, 0
  {
    hide NextToken, MemberValue, Append, Fire;
    AppendKeeps(st.jpath, n, ".");
    var t := NextToken(st.rest);
    if t.Token? { MemberValueKeeps(st.(rest := t.rest), n, name, cb); }
  }

  lemma {:induction false} MemberValueKeeps<S>(st: State<S>, n: nat, name: string, cb: Callback<S>)
    requires n < |st.jpath|
    ensures Kept(st, n, MemberValue(st, n, name, cb))
    decreases |st.rest|, 0
  {
    hide NextToken, Append, Fire, MemberObject, MemberArray, AfterMember;
    AppendKeeps(st.jpath, n, name);
    var (buf, m) := Append(st.jpath, n, name);
    var t := NextToken(st.rest);
    if t.Token? {
      var here := st.(jpath := buf, seen := st.seen.(plain := st.seen.plain && '/' !in name), rest := t.rest);
      MemberObjectKeeps(here, n, m, name, cb);
      MemberArrayKeeps(here, n, m, cb);
      AfterMemberKeeps(Fire(here, LeafEvent(buf[..m], name, t.from, t.len), cb).st, n, cb);
    }
  }

  lemma {:induction false} MemberObjectKeeps<S>(st: State<S>, n: nat, m: nat, name: string, cb: Callback<S>)
    requires n <= m < |st.jpath|
    ensures Kept(st, n, MemberObject(st, n, m, name, cb))
    decreases |st.rest|, 1
  {
    hide Append, Fire, Members, AfterMember;
    var enter := Fire(st, Branch(EnterBranch, st.jpath[..m], name), cb);
    MembersKeep(enter.st, m, true, cb);
    var inner := Members(enter.st, m, true, cb);
    if inner.st.seen.rooted { Shorter(inner.st.jpath, st.jpath, n, m); }
    AppendKeeps(inner.st.jpath, n, name);
    var (buf, k) := Append(inner.st.jpath, n, name);
    var leave := Fire(inner.st.(jpath := buf), Branch(LeaveBranch, buf[..k], name), cb);
    AfterMemberKeeps(leave.st, n, cb);
  }

  lemma {:induction false} MemberArrayKeeps<S>(st: State<S>, n: nat, m: nat, cb: Callback<S>)
    requires n <= m < |st.jpath|
    ensures Kept(st, n, MemberArray(st, n, m, cb))
    decreases |st.rest|, 1
  {
    hide Append, Fire, Items, AfterMember;
    var enter := Fire(st, Branch(EnterArray, st.jpath[..m], "["), cb);
    ItemsKeep(enter.st, m, true, 0, cb);
    var inner := Items(enter.st, m, true, 0, cb);
    if inner.st.seen.rooted { Shorter(inner.st.jpath, st.jpath, n, m); }
    var leave := Fire(inner.st, Branch(LeaveArray, inner.st.jpath[..m], "["), cb);
    AppendKeeps(leave.st.jpath, n, "[");
    AfterMemberKeeps(leave.st.(jpath := Append(leave.st.jpath, n, "[").0), n, cb);
  }

  lemma {:induction false} AfterMemberKeeps<S>(st: State<S>, n: nat, cb: Callback<S>)
    requires n < |st.jpath|
    ensures Kept(st, n, AfterMember(st, n, cb))
    decreases |st.rest|, 0
  {
    hide NextToken, Members;
    var t := NextToken(st.rest);
    if t.Token? { MembersKeep(st.(rest := t.rest), n, false, cb); }
  }

  lemma {:induction false} ItemsKeep<S>(st: State<S>, n: nat, first: bool, m: nat, cb: Callback<S>)
    requires n < |st.jpath| && m < |st.jpath|
    ensures Kept(st, n, Items(st, n, first, m, cb))
    decreases |st.rest|, 0
  {
    hide NextToken, Append, Fire, ItemObject, ItemArray, AfterItem;
    AppendKeeps(st.jpath, n, ".");
    var (buf, k) := Append(st.jpath, n, ".");
    var t := NextToken(st.rest);
    if t.Token? {
      var here := st.(rest := t.rest);
      ItemObjectKeeps(here, n, m, cb);
      ItemArrayKeeps(here.(seen := Misplaced(st.seen, n, m)), n, m, cb);
      AfterItemKeeps(Fire(here.(jpath := buf), LeafEvent(buf[..k], [], t.from, t.len), cb).st, n, k, cb);
    }
  }

  lemma {:induction false} ItemObjectKeeps<S>(st: State<S>, n: nat, m: nat, cb: Callback<S>)
    requires n < |st.jpath| && m < |st.jpath|
    ensures Kept(st, n, ItemObject(st, n, m, cb))
    decreases |st.rest|, 1
  {
    hide Fire, Members, AfterItem;
    var enter := Fire(st, Branch(EnterBranch, st.jpath[..n], "["), cb);
    MembersKeep(enter.st, n, true, cb);
    var inner := Members(enter.st, n, true, cb);
    var leave := Fire(inner.st, Branch(LeaveBranch, inner.st.jpath[..n], "["), cb);
    AfterItemKeeps(leave.st, n, m, cb);
  }

  /** An array directly inside an array is visited at whatever path length is left over: zero in
      front of the first scalar or array of the array around it. */
  lemma {:induction false} ItemArrayKeeps<S>(st: State<S>, n: nat, m: nat, cb: Callback<S>)
    requires n < |st.jpath| && m < |st.jpath| && (st.seen.rooted ==> n <= m)
    ensures Kept(st, n, ItemArray(st, n, m, cb))
    decreases |st.rest|, 1
  {
    hide Append, Fire, Items, AfterItem;
    var enter := Fire(st, Branch(EnterArray, st.jpath[..m], "["), cb);
    ItemsKeep(enter.st, m, true, 0, cb);
    var inner := Items(enter.st, m, true, 0, cb);
    if inner.st.seen.rooted { Shorter(inner.st.jpath, st.jpath, n, m); }
    var leave := Fire(inner.st, Branch(LeaveArray, inner.st.jpath[..m], "["), cb);
    AppendKeeps(leave.st.jpath, n, "[");
    var (buf, k) := Append(leave.st.jpath, n, "[");
    AfterItemKeeps(leave.st.(jpath := buf), n, k, cb);
  }

  lemma {:induction false} AfterItemKeeps<S>(st: State<S>, n: nat, m: nat, cb: Callback<S>)
    requires n < |st.jpath| && m < |st.jpath|
    ensures Kept(st, n, AfterItem(st, n, m, cb))
    decreases |st.rest|, 0
  {
    hide NextToken, Items;
    var t := NextToken(st.rest);
    if t.Token? { ItemsKeep(st.(rest := t.rest), n, false, m, cb); }
  }
}
