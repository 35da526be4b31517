/** When every call of a traversal carries a path in the structure around it. */
module JsonCalls {
  import opened JsonToken
  import opened JsonTravel
  import opened JsonRead
  import opened JsonSurvey
  import JsonPath

  /** A callback that watches its calls: `paths` are the paths of the objects and arrays that were
      entered and not yet left, the innermost first. */
  datatype Watch = Watching(paths: seq<string>) | Astray

  predicate Extends(path: string, base: string) { |base| <= |path| && path[..|base|] == base }

  /** A call is in place when its path extends that of the structure around it; leaving must carry
      the path of entering. */
  function Watched(w: Watch, e: Event): (Watch, int) {
    match w
    case Astray => (Astray, 0)
    case Watching(paths) =>
      if !Extends(e.path, if paths == [] then [] else paths[0]) then (Astray, 0)
      else match e.kind
        case EnterBranch => (Watching([e.path] + paths), 0)
        case EnterArray => (Watching([e.path] + paths), 0)
        case Leaf => (w, 0)
        case _ => (if paths != [] && paths[0] == e.path then Watching(paths[1..]) else Astray, 0)
  }

  lemma WatchedStrict()
    ensures Strict(Watched)
  {
  }

  // ----- steps of the watching callback

  lemma EnterWatched(paths: seq<string>, p: string, e: Event)
    requires Extends(e.path, p) && (e.kind == EnterBranch || e.kind == EnterArray)
    ensures Watched(Watching([p] + paths), e) == (Watching([e.path] + ([p] + paths)), 0)
  {
  }

  lemma LeaveWatched(paths: seq<string>, e: Event)
    requires e.kind == LeaveBranch || e.kind == LeaveArray
    ensures Watched(Watching([e.path] + paths), e) == (Watching(paths), 0)
  {
    assert ([e.path] + paths)[1..] == paths;
  }

  lemma LeafWatched(paths: seq<string>, p: string, e: Event)
    requires Extends(e.path, p) && e.kind == Leaf
    ensures Watched(Watching([p] + paths), e) == (Watching([p] + paths), 0)
  {
  }

  lemma ShortWatched(paths: seq<string>, p: string, e: Event)
    requires |e.path| < |p|
    ensures Watched(Watching([p] + paths), e) == (Astray, 0)
  {
  }

  lemma ExtendExtends(p: string, name: string, size: nat)
    ensures Extends(Extend(p, name, size), p) && Extends(p, p)
  {
  }

  // ----- the traversals

  /** So far all calls were in place exactly if no array was visited at too short a path; then `p` is
      the path of length `n` and the innermost one that was entered. */
  predicate Right(st: State<Watch>, n: nat, p: string, paths: seq<string>)
    requires n < |st.jpath|
  {
    if st.seen.rooted then st.jpath[..n] == p && st.user == Watching([p] + paths) else st.user == Astray
  }

  predicate Ends(o: Outcome<Watch>, n: nat, p: string, paths: seq<string>)
    requires n < |o.st.jpath|
  {
    (o.st.seen.rooted <==> o.st.user.Watching?) && (o.ret == 0 ==> Right(o.st, n, p, paths))
  }

  lemma {:induction false} MembersCalls(st: State<Watch>, n: nat, first: bool, p: string, paths: seq<string>)
    requires n < |st.jpath| && Right(st, n, p, paths)
    ensures Ends(Members(st, n, first, Watched), n, p, paths)
    decreases |st.rest|, 0
  {
    hide NextToken, JsonTravel.Member;
    var t := NextToken(st.rest);
    if t.Token? { MemberCalls(st.(rest := t.rest), n, t.from[..t.len], t.quotes, p, paths); }
  }

  /** A leaf one level below the path. */
  lemma LeafCall(st: State<Watch>, n: nat, name: string, e: Event, here: State<Watch>, p: string, paths: seq<string>)
    requires n < |st.jpath| == |here.jpath| && Right(st, n, p, paths) && e.kind == Leaf
    requires e.path == Extend(st.jpath[..n], name, |st.jpath|)
    requires here.jpath[..n] == st.jpath[..n] && here.user == st.user && here.seen.rooted == st.seen.rooted
    ensures var leaf := Fire(here, e, Watched);
      leaf.ret == 0 && Right(leaf.st, n, p, paths) && leaf.st.rest == here.rest && leaf.st.jpath == here.jpath && leaf.st.seen == here.seen
  {
    hide Extend;
    ExtendExtends(st.jpath[..n], name, |st.jpath|);
    if st.seen.rooted { LeafWatched(paths, p, e); }
  }

  lemma {:induction false} MemberCalls(st: State<Watch>, n: nat, name: string, quotes: char, p: string, paths: seq<string>)
    requires n < |st.jpath| && Right(st, n, p, paths)
    ensures Ends(JsonTravel.Member(st, n, name, quotes, Watched), n, p, paths)
    decreases |st.rest|, 0
  {
    hide NextToken, MemberValue, Append, Fire, Watched, Extend;
    var t := NextToken(st.rest);
    if t.Token? {
      MemberValueCalls(st.(rest := t.rest), n, name, p, paths);
      AppendExtends(st.jpath, n, ".");
      var (buf, m) := Append(st.jpath, n, ".");
      LeafCall(st, n, ".", LeafEvent(buf[..m], [], t.from, t.len), st.(rest := t.rest, jpath := buf), p, paths);
    }
  }

  lemma {:induction false} MemberValueCalls(st: State<Watch>, n: nat, name: string, p: string, paths: seq<string>)
    requires n < |st.jpath| && Right(st, n, p, paths)
    ensures Ends(MemberValue(st, n, name, Watched), n, p, paths)
    decreases |st.rest|, 0
  {
    hide NextToken, MemberObject, MemberArray, AfterMember, Append, Fire, Watched, Extend;
    AppendExtends(st.jpath, n, name);
    var (buf, m) := Append(st.jpath, n, name);
    var t := NextToken(st.rest);
    if t.Token? {
      var here := st.(jpath := buf, seen := st.seen.(plain := st.seen.plain && '/' !in name), rest := t.rest);
      if t.tag == Text || t.tag == Special {
        var e := LeafEvent(buf[..m], name, t.from, t.len);
        LeafCall(st, n, name, e, here, p, paths);
        AfterMemberCalls(Fire(here, e, Watched).st, n, p, paths);
      } else if t.tag == LeftBrace {
        MemberObjectCalls(here, n, m, name, p, paths);
      } else if t.tag == LeftBracket {
        MemberArrayCalls(here, n, m, name, p, paths);
      }
    }
  }

  lemma {:induction false} AfterMemberCalls(st: State<Watch>, n: nat, p: string, paths: seq<string>)
    requires n < |st.jpath| && Right(st, n, p, paths)
    ensures Ends(AfterMember(st, n, Watched), n, p, paths)
    decreases |st.rest|, 0
  {
    hide NextToken, Members, Watched;
    var t := NextToken(st.rest);
    if t.Token? { MembersCalls(st.(rest := t.rest), n, false, p, paths); }
  }

  /** Entering at a path that extends the path around it. */
  lemma EnterCall(st: State<Watch>, n: nat, m: nat, e: Event, p: string, paths: seq<string>)
    requires n < |st.jpath| && m < |st.jpath| && Right(st, n, p, paths)
    requires (e.kind == EnterBranch || e.kind == EnterArray) && e.path == st.jpath[..m] && Extends(e.path, st.jpath[..n])
    ensures var enter := Fire(st, e, Watched);
      enter.ret == 0 && Right(enter.st, m, e.path, [p] + paths) && enter.st == st.(user := enter.st.user)
  {
    if st.seen.rooted { EnterWatched(paths, p, e); }
  }

  /** Leaving at the path of entering. */
  lemma LeaveCall(st: State<Watch>, n: nat, e: Event, q: string, p: string, paths: seq<string>)
    requires n < |st.jpath| && (e.kind == LeaveBranch || e.kind == LeaveArray)
    requires st.seen.rooted ==> e.path == q && st.user == Watching([q] + ([p] + paths)) && st.jpath[..n] == p
    requires !st.seen.rooted ==> st.user == Astray
    ensures var leave := Fire(st, e, Watched);
      leave.ret == 0 && Right(leave.st, n, p, paths) && leave.st == st.(user := leave.st.user)
  {
    if st.seen.rooted { LeaveWatched([p] + paths, e); }
  }

  lemma {:induction false} MemberObjectCalls(st: State<Watch>, n: nat, m: nat, name: string, p: string, paths: seq<string>)
    requires n <= m < |st.jpath| && Right(st, n, p, paths) && st.jpath[..m] == Extend(st.jpath[..n], name, |st.jpath|)
    ensures Ends(MemberObject(st, n, m, name, Watched), n, p, paths)
    decreases |st.rest|, 1
  {
    hide Members, AfterMember, Append, Fire, Watched, Extend;
    ExtendExtends(st.jpath[..n], name, |st.jpath|);
    var here := st.jpath[..m];
    var enter := Branch(EnterBranch, here, name);
    EnterCall(st, n, m, enter, p, paths);
    var entered := Fire(st, enter, Watched);
    MembersCalls(entered.st, m, true, here, [p] + paths);
    JsonPath.MembersKeep(entered.st, m, true, Watched);
    var inner := Members(entered.st, m, true, Watched);
    if inner.ret == 0 {
      if inner.st.seen.rooted { JsonPath.Shorter(inner.st.jpath, st.jpath, n, m); }
      AppendExtends(inner.st.jpath, n, name);
      var (buf, k) := Append(inner.st.jpath, n, name);
      var leave := Branch(LeaveBranch, buf[..k], name);
      LeaveCall(inner.st.(jpath := buf), n, leave, here, p, paths);
      AfterMemberCalls(Fire(inner.st.(jpath := buf), leave, Watched).st, n, p, paths);
    }
  }

  lemma {:induction false} MemberArrayCalls(st: State<Watch>, n: nat, m: nat, name: string, p: string, paths: seq<string>)
    requires n <= m < |st.jpath| && Right(st, n, p, paths) && st.jpath[..m] == Extend(st.jpath[..n], name, |st.jpath|)
    ensures Ends(MemberArray(st, n, m, Watched), n, p, paths)
    decreases |st.rest|, 1
  {
    hide Items, AfterMember, Append, Fire, Watched, Extend;
    ExtendExtends(st.jpath[..n], name, |st.jpath|);
    var here := st.jpath[..m];
    var enter := Branch(EnterArray, here, "[");
    EnterCall(st, n, m, enter, p, paths);
    var entered := Fire(st, enter, Watched);
    ItemsCalls(entered.st, m, true, 0, here, [p] + paths);
    JsonPath.ItemsKeep(entered.st, m, true, 0, Watched);
    var inner := Items(entered.st, m, true, 0, Watched);
    if inner.ret == 0 {
      if inner.st.seen.rooted { JsonPath.Shorter(inner.st.jpath, st.jpath, n, m); }
      var leave := Branch(LeaveArray, inner.st.jpath[..m], "[");
      LeaveCall(inner.st, n, leave, here, p, paths);
      var left := Fire(inner.st, leave, Watched);
      JsonPath.AppendKeeps(left.st.jpath, n, "[");
      AfterMemberCalls(left.st.(jpath := Append(left.st.jpath, n, "[").0), n, p, paths);
    }
  }

  lemma {:induction false} ItemsCalls(st: State<Watch>, n: nat, first: bool, m: nat, p: string, paths: seq<string>)
    requires n < |st.jpath| && m < |st.jpath| && Right(st, n, p, paths)
    ensures Ends(Items(st, n, first, m, Watched), n, p, paths)
    decreases |st.rest|, 0
  {
    hide NextToken, ItemObject, ItemArray, AfterItem, Append, Fire, Watched, Extend;
    AppendExtends(st.jpath, n, ".");
    var (buf, k) := Append(st.jpath, n, ".");
    var t := NextToken(st.rest);
    if t.Token? {
      var here := st.(rest := t.rest);
      if t.tag == Text || t.tag == Special {
        var e := LeafEvent(buf[..k], [], t.from, t.len);
        LeafCall(st, n, ".", e, here.(jpath := buf), p, paths);
        AfterItemCalls(Fire(here.(jpath := buf), e, Watched).st, n, k, p, paths);
      } else if t.tag == LeftBrace {
        ItemObjectCalls(here, n, m, p, paths);
      } else if t.tag == LeftBracket {
        ItemArrayCalls(here, n, m, p, paths);
      }
    }
  }

  lemma {:induction false} ItemObjectCalls(st: State<Watch>, n: nat, m: nat, p: string, paths: seq<string>)
    requires n < |st.jpath| && m < |st.jpath| && Right(st, n, p, paths)
    ensures Ends(ItemObject(st, n, m, Watched), n, p, paths)
    decreases |st.rest|, 1
  {
    hide Members, AfterItem, Fire, Watched;
    var here := st.jpath[..n];
    ExtendExtends(here, "", 0);
    var enter := Branch(EnterBranch, here, "[");
    EnterCall(st, n, n, enter, p, paths);
    var entered := Fire(st, enter, Watched);
    MembersCalls(entered.st, n, true, here, [p] + paths);
    var inner := Members(entered.st, n, true, Watched);
    if inner.ret == 0 {
      var leave := Branch(LeaveBranch, inner.st.jpath[..n], "[");
      RootedBefore(entered.st, n, Watched);
      LeaveCall(inner.st, n, leave, here, p, paths);
      AfterItemCalls(Fire(inner.st, leave, Watched).st, n, m, p, paths);
    }
  }

  lemma RootedBefore(st: State<Watch>, n: nat, cb: Callback<Watch>)
    requires n < |st.jpath|
    ensures Members(st, n, true, cb).st.seen.rooted ==> st.seen.rooted
  {
    JsonPath.MembersKeep(st, n, true, cb);
  }

  /** An array directly inside an array: the call that enters it is in place exactly when it is
      visited at or below the path of the array around it. */
  lemma {:induction false} ItemArrayCalls(before: State<Watch>, n: nat, m: nat, p: string, paths: seq<string>)
    requires n < |before.jpath| && m < |before.jpath| && Right(before, n, p, paths)
    ensures Ends(ItemArray(before.(seen := Misplaced(before.seen, n, m)), n, m, Watched), n, p, paths)
    decreases |before.rest|, 1
  {
    hide Items, AfterItem, Append, Fire, Watched;
    var st := before.(seen := Misplaced(before.seen, n, m));
    var here := st.jpath[..m];
    var enter := Branch(EnterArray, here, "[");
    MisplacedCall(before, n, m, enter, p, paths);
    var entered := Fire(st, enter, Watched);
    ItemsCalls(entered.st, m, true, 0, here, [p] + paths);
    JsonPath.ItemsKeep(entered.st, m, true, 0, Watched);
    var inner := Items(entered.st, m, true, 0, Watched);
    if inner.ret == 0 {
      if inner.st.seen.rooted { JsonPath.Shorter(inner.st.jpath, st.jpath, n, m); }
      var leave := Branch(LeaveArray, inner.st.jpath[..m], "[");
      LeaveCall(inner.st, n, leave, here, p, paths);
      var left := Fire(inner.st, leave, Watched);
      JsonPath.AppendKeeps(left.st.jpath, n, "[");
      var (buf, k) := Append(left.st.jpath, n, "[");
      AfterItemCalls(left.st.(jpath := buf), n, k, p, paths);
    }
  }

  lemma MisplacedCall(before: State<Watch>, n: nat, m: nat, e: Event, p: string, paths: seq<string>)
    requires n < |before.jpath| && m < |before.jpath| && Right(before, n, p, paths)
    requires e.kind == EnterArray && e.path == before.jpath[..m]
    ensures var st := before.(seen := Misplaced(before.seen, n, m)); var enter := Fire(st, e, Watched);
      enter.ret == 0 && Right(enter.st, m, e.path, [p] + paths) && enter.st == st.(user := enter.st.user)
  {
    if before.seen.rooted {
      if n <= m {
        assert before.jpath[..m][..n] == before.jpath[..n];
        EnterWatched(paths, p, e);
      } else {
        ShortWatched(paths, p, e);
      }
    }
  }

  lemma {:induction false} AfterItemCalls(st: State<Watch>, n: nat, m: nat, p: string, paths: seq<string>)
    requires n < |st.jpath| && m < |st.jpath| && Right(st, n, p, paths)
    ensures Ends(AfterItem(st, n, m, Watched), n, p, paths)
    decreases |st.rest|, 0
  {
    hide NextToken, Items, Watched;
    var t := NextToken(st.rest);
    if t.Token? { ItemsCalls(st.(rest := t.rest), n, false, m, p, paths); }
  }

  /** Between the structures of a document nothing is open. */
  predicate Outside(st: State<Watch>) {
    if st.seen.rooted then st.user == Watching([]) else st.user == Astray
  }

  lemma {:induction false} DocumentCalls(st: State<Watch>)
    requires |st.jpath| > 0 && Outside(st)
    ensures var o := Document(st, Watched); o.st.seen.rooted <==> o.st.user.Watching?
    decreases |st.rest|
  {
    hide NextToken, Members, Items, Fire, Watched;
    var t := NextToken(st.rest);
    if t.Token? && (t.tag == LeftBrace || t.tag == LeftBracket) {
      var here := st.(rest := t.rest);
      var braces := t.tag == LeftBrace;
      var node := if braces then "{" else "[";
      var enter := Branch(if braces then EnterBranch else EnterArray, [], node);
      var leave := Branch(if braces then LeaveBranch else LeaveArray, [], node);
      TopEnter(here, enter);
      var entered := Fire(here, enter, Watched);
      MembersCalls(entered.st, 0, true, [], []);
      ItemsCalls(entered.st, 0, true, 0, [], []);
      var inner := if braces then Members(entered.st, 0, true, Watched) else Items(entered.st, 0, true, 0, Watched);
      if inner.ret == 0 {
        TopLeave(inner.st, leave);
        DocumentCalls(Fire(inner.st, leave, Watched).st);
      }
    }
  }

  lemma TopEnter(st: State<Watch>, e: Event)
    requires |st.jpath| > 0 && Outside(st) && (e.kind == EnterBranch || e.kind == EnterArray) && e.path == []
    ensures var enter := Fire(st, e, Watched);
      enter.ret == 0 && Right(enter.st, 0, [], []) && enter.st == st.(user := enter.st.user)
  {
    assert st.jpath[..0] == [] && [[]] + [] == [e.path] + [];
  }

  lemma TopLeave(st: State<Watch>, e: Event)
    requires |st.jpath| > 0 && Right(st, 0, [], []) && (e.kind == LeaveBranch || e.kind == LeaveArray) && e.path == []
    ensures var leave := Fire(st, e, Watched);
      leave.ret == 0 && Outside(leave.st) && leave.st == st.(user := leave.st.user)
  {
    if st.seen.rooted { LeaveWatched([], e); }
  }

  // ----- the exact condition

  /** Every call is in place exactly when no array is visited at too short a path.  For a text
      without an early array this always holds; for a text that is traversed without an error it
      holds exactly when there is none. */
  lemma CallsInPlace(text: string, jpath: string)
    requires |jpath| >= 3
    ensures var o := Travel(text, jpath, Watching([]), Watched);
      && (NoEarlyArray(text) ==> o.st.user.Watching?)
      && (o.ret == 0 ==> (o.st.user.Watching? <==> NoEarlyArray(text)))
  {
    WatchedStrict();
    TravelFollows(text, jpath, Watching([]), Watched);
    DocumentCalls(State(text, jpath, Watching([]), NOTHING));
    hide Document, Survey, Watched;
  }
}
