/** What every callback of a traversal keeps, for any text: an invariant of the user's data that no call breaks. */
module JsonHold {
  import opened JsonToken
  import opened JsonTravel
  import opened JsonSurvey

  /** The last component of the key is `k`. */
  predicate Names(key: string, k: string) {
    key == k || (|key| > |k| && key[|key| - |k| - 1..] == "/" + k)
  }

  /** No key of the text has the last component `k`. */
  predicate KeyFree(text: string, k: string)
    decreases |text|
  {
    var t := NextToken(text);
    t.Token? ==> (t.tag == Text && ColonNext(t.rest) ==> !Names(t.from[..t.len], k)) && KeyFree(t.rest, k)
  }

  lemma KeyFreeNext(text: string, k: string)
    requires KeyFree(text, k)
    ensures var t := NextToken(text);
      t.Token? ==> KeyFree(t.rest, k) && (t.tag == Text && ColonNext(t.rest) ==> !Names(t.from[..t.len], k))
  {
  }

  /** A leaf has the path of a name whose last component is not `k`. */
  predicate Elsewhere(e: Event, name: string, path: string, k: string, size: nat) {
    e.kind == Leaf ==> e.path == Extend(path, name, size) && !Names(name, k)
  }

  /** Calls that enter and leave, and leaves with other names, keep the invariant. */
  ghost predicate Stable<S(!new)>(inv: S -> bool, cb: Callback<S>, k: string, size: nat) {
    forall user, e, name, path {:trigger cb(user, e), Elsewhere(e, name, path, k, size)} ::
      inv(user) && Elsewhere(e, name, path, k, size) ==> inv(cb(user, e).0)
  }

  lemma FireHolds<S(!new)>(st: State<S>, e: Event, name: string, path: string, cb: Callback<S>, inv: S -> bool, k: string)
    requires inv(st.user) && Stable(inv, cb, k, |st.jpath|) && Elsewhere(e, name, path, k, |st.jpath|)
    ensures inv(Fire(st, e, cb).st.user) && inv(Halt(Fire(st, e, cb)).st.user)
  {
    assert inv(cb(st.user, e).0);
  }

  ghost predicate Held<S(!new)>(o: Outcome<S>, inv: S -> bool, k: string, size: nat) {
    inv(o.st.user) && KeyFree(o.st.rest, k) && |o.st.jpath| == size
  }

  /** What holds before every part of a traversal. */
  ghost predicate Holds<S(!new)>(st: State<S>, cb: Callback<S>, inv: S -> bool, k: string) {
    inv(st.user) && KeyFree(st.rest, k) && Stable(inv, cb, k, |st.jpath|) && !Names(".", k) && |st.jpath| > 0
  }

  lemma {:induction false} MembersHold<S(!new)>(st: State<S>, n: nat, first: bool, cb: Callback<S>, inv: S -> bool, k: string)
    requires n < |st.jpath| && Holds(st, cb, inv, k)
    ensures Held(Members(st, n, first, cb), inv, k, |st.jpath|)
    decreases |st.rest|, 0
  {
    hide NextToken, Member, KeyFree, Stable, Names, ColonNext;
    KeyFreeNext(st.rest, k);
    var t := NextToken(st.rest);
    if t.Token? { MemberHolds(st.(rest := t.rest), n, t.from[..t.len], t.quotes, t.tag == Text, cb, inv, k); }
  }

  lemma {:induction false} MemberHolds<S(!new)>(st: State<S>, n: nat, name: string, quotes: char, text: bool, cb: Callback<S>,
      inv: S -> bool, k: string)
    requires n < |st.jpath| && Holds(st, cb, inv, k) && (text && ColonNext(st.rest) ==> !Names(name, k))
    ensures text ==> Held(Member(st, n, name, quotes, cb), inv, k, |st.jpath|)
    decreases |st.rest|, 0
  {
    hide NextToken, MemberValue, Append, Fire, KeyFree, Stable, Names, Extend;
    KeyFreeNext(st.rest, k);
    AppendExtends(st.jpath, n, ".");
    var (buf, m) := Append(st.jpath, n, ".");
    var t := NextToken(st.rest);
    if t.Token? {
      var here := st.(rest := t.rest, jpath := buf);
      FireHolds(here, LeafEvent(buf[..m], [], t.from, t.len), ".", st.jpath[..n], cb, inv, k);
      if t.tag == Colon && text { MemberValueHolds(st.(rest := t.rest), n, name, cb, inv, k); }
    }
  }

  lemma {:induction false} MemberValueHolds<S(!new)>(st: State<S>, n: nat, name: string, cb: Callback<S>, inv: S -> bool, k: string)
    requires n < |st.jpath| && Holds(st, cb, inv, k) && !Names(name, k)
    ensures Held(MemberValue(st, n, name, cb), inv, k, |st.jpath|)
    decreases |st.rest|, 0
  {
    hide NextToken, MemberObject, MemberArray, AfterMember, Append, Fire, KeyFree, Stable, Names, Extend, ColonNext;
    KeyFreeNext(st.rest, k);
    AppendExtends(st.jpath, n, name);
    var (buf, m) := Append(st.jpath, n, name);
    var t := NextToken(st.rest);
    if t.Token? {
      var here := st.(jpath := buf, seen := st.seen.(plain := st.seen.plain && '/' !in name), rest := t.rest);
      var e := LeafEvent(buf[..m], name, t.from, t.len);
      FireHolds(here, e, name, st.jpath[..n], cb, inv, k);
      AfterMemberHolds(Fire(here, e, cb).st, n, cb, inv, k);
      MemberObjectHolds(here, n, m, name, cb, inv, k);
      MemberArrayHolds(here, n, m, cb, inv, k);
    }
  }

  lemma {:induction false} MemberObjectHolds<S(!new)>(st: State<S>, n: nat, m: nat, name: string, cb: Callback<S>, inv: S -> bool,
      k: string)
    requires n < |st.jpath| && m < |st.jpath| && Holds(st, cb, inv, k)
    ensures Held(MemberObject(st, n, m, name, cb), inv, k, |st.jpath|)
    decreases |st.rest|, 1
  {
    hide Members, AfterMember, Append, Fire, KeyFree, Stable, Names;
    var enter := Branch(EnterBranch, st.jpath[..m], name);
    FireHolds(st, enter, [], [], cb, inv, k);
    var entered := Fire(st, enter, cb);
    MembersHold(entered.st, m, true, cb, inv, k);
    var inner := Members(entered.st, m, true, cb);
    var (buf, j) := Append(inner.st.jpath, n, name);
    var leave := Branch(LeaveBranch, buf[..j], name);
    FireHolds(inner.st.(jpath := buf), leave, [], [], cb, inv, k);
    AfterMemberHolds(Fire(inner.st.(jpath := buf), leave, cb).st, n, cb, inv, k);
  }

  lemma {:induction false} MemberArrayHolds<S(!new)>(st: State<S>, n: nat, m: nat, cb: Callback<S>, inv: S -> bool, k: string)
    requires n < |st.jpath| && m < |st.jpath| && Holds(st, cb, inv, k)
    ensures Held(MemberArray(st, n, m, cb), inv, k, |st.jpath|)
    decreases |st.rest|, 1
  {
    hide Items, AfterMember, Append, Fire, KeyFree, Stable, Names;
    var enter := Branch(EnterArray, st.jpath[..m], "[");
    FireHolds(st, enter, [], [], cb, inv, k);
    var entered := Fire(st, enter, cb);
    ItemsHold(entered.st, m, true, 0, cb, inv, k);
    var inner := Items(entered.st, m, true, 0, cb);
    var leave := Branch(LeaveArray, inner.st.jpath[..m], "[");
    FireHolds(inner.st, leave, [], [], cb, inv, k);
    var left := Fire(inner.st, leave, cb);
    AfterMemberHolds(left.st.(jpath := Append(left.st.jpath, n, "[").0), n, cb, inv, k);
  }

  lemma {:induction false} AfterMemberHolds<S(!new)>(st: State<S>, n: nat, cb: Callback<S>, inv: S -> bool, k: string)
    requires n < |st.jpath| && Holds(st, cb, inv, k)
    ensures Held(AfterMember(st, n, cb), inv, k, |st.jpath|)
    decreases |st.rest|, 0
  {
    hide NextToken, Members, KeyFree, Stable, Names, ColonNext;
    KeyFreeNext(st.rest, k);
    var t := NextToken(st.rest);
    if t.Token? { MembersHold(st.(rest := t.rest), n, false, cb, inv, k); }
  }

  lemma {:induction false} ItemsHold<S(!new)>(st: State<S>, n: nat, first: bool, m: nat, cb: Callback<S>, inv: S -> bool, k: string)
    requires n < |st.jpath| && m < |st.jpath| && Holds(st, cb, inv, k)
    ensures Held(Items(st, n, first, m, cb), inv, k, |st.jpath|)
    decreases |st.rest|, 0
  {
    hide NextToken, ItemObject, ItemArray, AfterItem, Append, Fire, KeyFree, Stable, Names, Extend, ColonNext;
    KeyFreeNext(st.rest, k);
    AppendExtends(st.jpath, n, ".");
    var (buf, j) := Append(st.jpath, n, ".");
    var t := NextToken(st.rest);
    if t.Token? {
      var here := st.(rest := t.rest);
      var e := LeafEvent(buf[..j], [], t.from, t.len);
      FireHolds(here.(jpath := buf), e, ".", st.jpath[..n], cb, inv, k);
      AfterItemHolds(Fire(here.(jpath := buf), e, cb).st, n, j, cb, inv, k);
      ItemObjectHolds(here, n, m, cb, inv, k);
      ItemArrayHolds(here.(seen := Misplaced(st.seen, n, m)), n, m, cb, inv, k);
    }
  }

  lemma {:induction false} ItemObjectHolds<S(!new)>(st: State<S>, n: nat, m: nat, cb: Callback<S>, inv: S -> bool, k: string)
    requires n < |st.jpath| && m < |st.jpath| && Holds(st, cb, inv, k)
    ensures Held(ItemObject(st, n, m, cb), inv, k, |st.jpath|)
    decreases |st.rest|, 1
  {
    hide Members, AfterItem, Fire, KeyFree, Stable, Names;
    var enter := Branch(EnterBranch, st.jpath[..n], "[");
    FireHolds(st, enter, [], [], cb, inv, k);
    var entered := Fire(st, enter, cb);
    MembersHold(entered.st, n, true, cb, inv, k);
    var inner := Members(entered.st, n, true, cb);
    var leave := Branch(LeaveBranch, inner.st.jpath[..n], "[");
    FireHolds(inner.st, leave, [], [], cb, inv, k);
    AfterItemHolds(Fire(inner.st, leave, cb).st, n, m, cb, inv, k);
  }

  lemma {:induction false} ItemArrayHolds<S(!new)>(st: State<S>, n: nat, m: nat, cb: Callback<S>, inv: S -> bool, k: string)
    requires n < |st.jpath| && m < |st.jpath| && Holds(st, cb, inv, k)
    ensures Held(ItemArray(st, n, m, cb), inv, k, |st.jpath|)
    decreases |st.rest|, 1
  {
    hide Items, AfterItem, Append, Fire, KeyFree, Stable, Names;
    var enter := Branch(EnterArray, st.jpath[..m], "[");
    FireHolds(st, enter, [], [], cb, inv, k);
    var entered := Fire(st, enter, cb);
    ItemsHold(entered.st, m, true, 0, cb, inv, k);
    var inner := Items(entered.st, m, true, 0, cb);
    var leave := Branch(LeaveArray, inner.st.jpath[..m], "[");
    FireHolds(inner.st, leave, [], [], cb, inv, k);
    var left := Fire(inner.st, leave, cb);
    var (buf, j) := Append(left.st.jpath, n, "[");
    AfterItemHolds(left.st.(jpath := buf), n, j, cb, inv, k);
  }

  lemma {:induction false} AfterItemHolds<S(!new)>(st: State<S>, n: nat, m: nat, cb: Callback<S>, inv: S -> bool, k: string)
    requires n < |st.jpath| && m < |st.jpath| && Holds(st, cb, inv, k)
    ensures Held(AfterItem(st, n, m, cb), inv, k, |st.jpath|)
    decreases |st.rest|, 0
  {
    hide NextToken, Items, KeyFree, Stable, Names, ColonNext;
    KeyFreeNext(st.rest, k);
    var t := NextToken(st.rest);
    if t.Token? { ItemsHold(st.(rest := t.rest), n, false, m, cb, inv, k); }
  }

  lemma {:induction false} DocumentHolds<S(!new)>(st: State<S>, cb: Callback<S>, inv: S -> bool, k: string)
    requires Holds(st, cb, inv, k)
    ensures inv(Document(st, cb).st.user)
    decreases |st.rest|
  {
    hide NextToken, Members, Items, Fire, KeyFree, Stable, Names, ColonNext;
    KeyFreeNext(st.rest, k);
    var t := NextToken(st.rest);
    if t.Token? && (t.tag == LeftBrace || t.tag == LeftBracket) {
      var here, braces := st.(rest := t.rest), t.tag == LeftBrace;
      var node := if braces then "{" else "[";
      var enter := Branch(if braces then EnterBranch else EnterArray, [], node);
      var leave := Branch(if braces then LeaveBranch else LeaveArray, [], node);
      FireHolds(here, enter, [], [], cb, inv, k);
      var entered := Fire(here, enter, cb);
      MembersHold(entered.st, 0, true, cb, inv, k);
      ItemsHold(entered.st, 0, true, 0, cb, inv, k);
      var inner := if braces then Members(entered.st, 0, true, cb) else Items(entered.st, 0, true, 0, cb);
      FireHolds(inner.st, leave, [], [], cb, inv, k);
      if entered.ret == 0 && inner.ret == 0 { DocumentHolds(Fire(inner.st, leave, cb).st, cb, inv, k); }
    }
  }

  /** Whatever the text, well-formed or not, and whatever the callback returns: an invariant that is kept by the calls that enter and
      leave, and by leaves whose name is not `k`, holds after traversing a text without the key `k`. */
  lemma TravelHolds<S(!new)>(text: string, jpath: string, user: S, cb: Callback<S>, inv: S -> bool, k: string)
    requires 0 < |jpath| && inv(user) && KeyFree(text, k) && k != "." && Stable(inv, cb, k, |jpath|)
    ensures inv(Travel(text, jpath, user, cb).st.user)
  {
    assert !Names(".", k) by {
      if k == "" { assert "."[0..] == "." && "/" + k == "/"; }
    }
    DocumentHolds(State(text, jpath, user, NOTHING), cb, inv, k);
    hide Document, Stable, KeyFree, Names;
  }
}
