/** Reading any document, well-formed or not, without an early array and without a slash in a key
    stays inside the arrays of the configuration. */
module ConfRuns {

  import opened JsonText
  import opened JsonToken
  import opened JsonTravel
  import opened JsonRead
  import opened JsonSurvey
  import opened HetaoConf
  import opened ConfSafety
  import opened ConfQuiet
  import JsonPath

  predicate Good(st: State<Loading>) { st.seen.rooted && st.seen.plain }

  /** From `st` to `o` the invariant at the path of length `n` is kept. */
  predicate Bracketed(st: State<Loading>, n: nat, inside: bool, o: Outcome<Loading>)
    requires n < |st.jpath|
  {
    && |o.st.jpath| == |st.jpath|
    && (Good(o.st) ==> Good(st))
    && (Good(o.st) && Inv(st.user, st.jpath[..n], inside) ==>
      && Safe(o.st.user)
      && (o.ret == 0 ==> o.st.jpath[..n] == st.jpath[..n] && Inv(o.st.user, st.jpath[..n], inside)))
  }

  lemma FieldPathEnds(f: Field)
    requires f != Unknown
    ensures var p := FieldPath(f); 0 < |p| <= 43 && p[|p| - 1] != '.' && p[|p| - 1] != '*'
  {
  }

  /** The path of a scalar item, or an abbreviated path, belongs to no field. */
  lemma DotUnknown(path: string, name: string, size: nat)
    requires size >= 48 && name == "."
    ensures Classify(Extend(path, name, size)) == Unknown
  {
    hide Classify, FieldPath;
    var p := Extend(path, name, size);
    ClassifiedPath(p);
    var f := Classify(p);
    if f != Unknown { FieldPathEnds(f); }
  }

  lemma UnknownIgnored(l: Loading, e: Event)
    requires Classify(e.path) == Unknown && e.kind == Leaf
    ensures OnNode(l, e) == (l, 0)
  {
    hide Classify;
  }

  lemma ArrayIgnored(l: Loading, e: Event)
    requires e.kind == EnterArray || e.kind == LeaveArray
    ensures OnNode(l, e) == (l, 0)
  {
    hide Classify;
  }

  /** A leaf one level below the path. */
  lemma LeafBelow(l: Loading, path: string, name: string, size: nat, e: Event)
    requires size >= 48 && '/' !in name && e.kind == Leaf && e.path == Extend(path, name, size)
    requires Inv(l, path, true)
    ensures var (l', r) := OnNode(l, e); Inv(l', path, true) && r <= 0
  {
    hide Inv, OnNode, Extend;
    Descend(l, path, name, size);
    LeafKeeps(l, e);
    var (l', r) := OnNode(l, e);
    Descend(l', path, name, size);
  }

  lemma InvSafe(l: Loading, path: string, inside: bool)
    requires Inv(l, path, inside)
    ensures Safe(l)
  {
  }

  // ----- the traversals

  lemma {:induction false} MembersBracketed(st: State<Loading>, n: nat, first: bool)
    requires n < |st.jpath| && |st.jpath| >= 48
    ensures Bracketed(st, n, true, Members(st, n, first, OnNode))
    decreases |st.rest|, 0
  {
    hide NextToken, JsonTravel.Member, Inv, Safe;
    if Inv(st.user, st.jpath[..n], true) { InvSafe(st.user, st.jpath[..n], true); }
    var t := NextToken(st.rest);
    if t.Token? { MemberBracketed(st.(rest := t.rest), n, t.from[..t.len], t.quotes); }
  }

  lemma {:induction false} AfterMemberBracketed(st: State<Loading>, n: nat)
    requires n < |st.jpath| && |st.jpath| >= 48
    ensures Bracketed(st, n, true, AfterMember(st, n, OnNode))
    decreases |st.rest|, 0
  {
    hide NextToken, Members, Inv, Safe;
    if Inv(st.user, st.jpath[..n], true) { InvSafe(st.user, st.jpath[..n], true); }
    var t := NextToken(st.rest);
    if t.Token? { MembersBracketed(st.(rest := t.rest), n, false); }
  }

  /** A leaf is reported, and the outcome is that of what follows. */
  lemma LeafThen(st: State<Loading>, n: nat, name: string, e: Event, here: State<Loading>, o: Outcome<Loading>)
    requires n < |st.jpath| && |st.jpath| >= 48 && '/' !in name
    requires e.kind == Leaf && e.path == Extend(st.jpath[..n], name, |st.jpath|)
    requires |here.jpath| == |st.jpath| && here.jpath[..n] == st.jpath[..n] && here.user == st.user
    requires Good(here) ==> Good(st)
    requires var leaf := Fire(here, e, OnNode);
      if leaf.ret != 0 then o == Halt(leaf) else o == leaf || Bracketed(leaf.st, n, true, o)
    ensures Bracketed(st, n, true, o)
  {
    hide Inv, Safe, OnNode, Extend;
    if Inv(st.user, st.jpath[..n], true) {
      LeafBelow(st.user, st.jpath[..n], name, |st.jpath|, e);
      InvSafe(OnNode(st.user, e).0, st.jpath[..n], true);
    }
  }

  lemma {:induction false} MemberBracketed(st: State<Loading>, n: nat, name: string, quotes: char)
    requires n < |st.jpath| && |st.jpath| >= 48
    ensures Bracketed(st, n, true, JsonTravel.Member(st, n, name, quotes, OnNode))
    decreases |st.rest|, 0
  {
    hide NextToken, MemberValue, Append, Fire, OnNode, Inv, Safe, Extend;
    if Inv(st.user, st.jpath[..n], true) { InvSafe(st.user, st.jpath[..n], true); }
    var t := NextToken(st.rest);
    if t.Token? {
      if t.tag == Colon {
        MemberValueBracketed(st.(rest := t.rest), n, name);
      } else if t.tag == RightBrace || t.tag == RightBracket {
        AppendExtends(st.jpath, n, ".");
        var (buf, m) := Append(st.jpath, n, ".");
        var here := st.(rest := t.rest, jpath := buf);
        LeafThen(st, n, ".", LeafEvent(buf[..m], [], t.from, t.len), here, JsonTravel.Member(st, n, name, quotes, OnNode));
      }
    }
  }

  lemma {:induction false} MemberValueBracketed(st: State<Loading>, n: nat, name: string)
    requires n < |st.jpath| && |st.jpath| >= 48
    ensures Bracketed(st, n, true, MemberValue(st, n, name, OnNode))
    decreases |st.rest|, 0
  {
    hide NextToken, MemberObject, MemberArray, AfterMember, Append, Fire, OnNode, Inv, Safe, Extend;
    if Inv(st.user, st.jpath[..n], true) { InvSafe(st.user, st.jpath[..n], true); }
    AppendExtends(st.jpath, n, name);
    var (buf, m) := Append(st.jpath, n, name);
    var t := NextToken(st.rest);
    if t.Token? {
      var here := st.(jpath := buf, seen := st.seen.(plain := st.seen.plain && '/' !in name), rest := t.rest);
      if t.tag == Text || t.tag == Special {
        var leaf := Fire(here, LeafEvent(buf[..m], name, t.from, t.len), OnNode);
        AfterMemberBracketed(leaf.st, n);
        if '/' !in name && t.quotes != '\'' {
          LeafThen(st, n, name, LeafEvent(buf[..m], name, t.from, t.len), here, MemberValue(st, n, name, OnNode));
        }
      } else if t.tag == LeftBrace {
        MemberObjectBracketed(here, n, m, name);
      } else if t.tag == LeftBracket {
        MemberArrayBracketed(here, n, m, name);
      }
    }
  }

  lemma {:induction false} MemberObjectBracketed(st: State<Loading>, n: nat, m: nat, name: string)
    requires n <= m < |st.jpath| && |st.jpath| >= 48 && ('/' in name ==> !st.seen.plain)
    requires st.jpath[..m] == Extend(st.jpath[..n], name, |st.jpath|)
    ensures Bracketed(st, n, true, MemberObject(st, n, m, name, OnNode))
    decreases |st.rest|, 1
  {
    hide Members, AfterMember, Append, OnNode, Inv, Safe, Extend;
    var path, here := st.jpath[..n], st.jpath[..m];
    var enter, leave := Branch(EnterBranch, here, name), Branch(LeaveBranch, here, name);
    var entered := Fire(st, enter, OnNode);
    MembersBracketed(entered.st, m, true);
    var inner := Members(entered.st, m, true, OnNode);
    AppendExtends(inner.st.jpath, n, name);
    var (buf, k) := Append(inner.st.jpath, n, name);
    var left := Fire(inner.st.(jpath := buf), Branch(LeaveBranch, buf[..k], name), OnNode);
    AfterMemberBracketed(left.st, n);
    if Good(st) && Inv(st.user, path, true) {
      Descend(st.user, path, name, |st.jpath|);
      EnterKeeps(st.user, enter);
      InvSafe(st.user, path, true);
      if entered.ret == 0 && inner.ret == 0 && Good(inner.st) {
        JsonPath.Shorter(inner.st.jpath, st.jpath, n, m);
        LeaveKeeps(inner.st.user, leave);
        Descend(left.st.user, path, name, |st.jpath|);
        InvSafe(left.st.user, path, true);
      }
    }
  }

  lemma {:induction false} MemberArrayBracketed(st: State<Loading>, n: nat, m: nat, name: string)
    requires n <= m < |st.jpath| && |st.jpath| >= 48 && ('/' in name ==> !st.seen.plain)
    requires st.jpath[..m] == Extend(st.jpath[..n], name, |st.jpath|)
    ensures Bracketed(st, n, true, MemberArray(st, n, m, OnNode))
    decreases |st.rest|, 1
  {
    hide Items, AfterMember, Append, OnNode, Inv, Safe, Extend;
    var path, here := st.jpath[..n], st.jpath[..m];
    var enter := Branch(EnterArray, here, "[");
    var entered := Fire(st, enter, OnNode);
    ArrayIgnored(st.user, enter);
    ItemsBracketed(entered.st, m, true, 0);
    var inner := Items(entered.st, m, true, 0, OnNode);
    var leave := Branch(LeaveArray, inner.st.jpath[..m], "[");
    var left := Fire(inner.st, leave, OnNode);
    ArrayIgnored(inner.st.user, leave);
    JsonPath.AppendKeeps(left.st.jpath, n, "[");
    AfterMemberBracketed(left.st.(jpath := Append(left.st.jpath, n, "[").0), n);
    if Good(st) && Inv(st.user, path, true) {
      Descend(st.user, path, name, |st.jpath|);
      if inner.ret == 0 && Good(inner.st) {
        JsonPath.Shorter(inner.st.jpath, st.jpath, n, m);
        Descend(inner.st.user, path, name, |st.jpath|);
      }
    }
  }

  lemma {:induction false} ItemsBracketed(st: State<Loading>, n: nat, first: bool, m: nat)
    requires n < |st.jpath| && m < |st.jpath| && |st.jpath| >= 48 && (st.seen.rooted ==> LeftPath(st.jpath, n, m))
    ensures Bracketed(st, n, false, Items(st, n, first, m, OnNode))
    decreases |st.rest|, 0
  {
    hide NextToken, ItemObject, ItemArray, AfterItem, Append, OnNode, Inv, Safe, Extend;
    if Inv(st.user, st.jpath[..n], false) { InvSafe(st.user, st.jpath[..n], false); }
    AppendExtends(st.jpath, n, ".");
    var (buf, k) := Append(st.jpath, n, ".");
    var t := NextToken(st.rest);
    if t.Token? {
      var here := st.(rest := t.rest);
      if t.tag == Text || t.tag == Special {
        var e := LeafEvent(buf[..k], [], t.from, t.len);
        DotUnknown(st.jpath[..n], ".", |st.jpath|);
        UnknownIgnored(st.user, e);
        AppendLeft(st.jpath, n, ".");
        AfterItemBracketed(Fire(here.(jpath := buf), e, OnNode).st, n, k);
      } else if t.tag == LeftBrace {
        ItemObjectBracketed(here, n, m);
      } else if t.tag == LeftBracket {
        ItemArrayBracketed(here.(seen := Misplaced(st.seen, n, m)), n, m);
      }
    }
  }

  lemma {:induction false} ItemObjectBracketed(st: State<Loading>, n: nat, m: nat)
    requires n < |st.jpath| && m < |st.jpath| && |st.jpath| >= 48 && (st.seen.rooted ==> LeftPath(st.jpath, n, m))
    ensures Bracketed(st, n, false, ItemObject(st, n, m, OnNode))
    decreases |st.rest|, 1
  {
    hide Members, AfterItem, OnNode, Inv, Safe;
    var here := st.jpath[..n];
    var enter := Branch(EnterBranch, here, "[");
    var entered := Fire(st, enter, OnNode);
    MembersBracketed(entered.st, n, true);
    MembersQuiet(entered.st, n, true);
    var inner := Members(entered.st, n, true, OnNode);
    var leave := Branch(LeaveBranch, inner.st.jpath[..n], "[");
    var left := Fire(inner.st, leave, OnNode);
    AfterItemBracketed(left.st, n, m);
    if Good(st) && Inv(st.user, here, false) {
      EnterKeeps(st.user, enter);
      InvSafe(st.user, here, false);
      if entered.ret == 0 && inner.ret == 0 && Good(inner.st) {
        LeaveKeeps(inner.st.user, leave);
        InvSafe(left.st.user, here, false);
      }
    }
  }

  /** An array directly inside an array is visited at a dead path, or at the top at the empty one. */
  lemma {:induction false} ItemArrayBracketed(st: State<Loading>, n: nat, m: nat)
    requires n < |st.jpath| && m < |st.jpath| && |st.jpath| >= 48
    requires st.seen.rooted ==> n <= m && LeftPath(st.jpath, n, m)
    ensures Bracketed(st, n, false, ItemArray(st, n, m, OnNode))
    decreases |st.rest|, 1
  {
    hide Append, Fire, Items, AfterItem, OnNode, Inv, Safe, Dead;
    FireArray(st, Branch(EnterArray, st.jpath[..m], "["));
    ItemsBracketed(st, m, true, 0);
    ItemsQuiet(st, m, true, 0);
    var inner := Items(st, m, true, 0, OnNode);
    FireArray(inner.st, Branch(LeaveArray, inner.st.jpath[..m], "["));
    AppendLeft(inner.st.jpath, n, "[");
    JsonPath.AppendKeeps(inner.st.jpath, n, "[");
    var (buf, k) := Append(inner.st.jpath, n, "[");
    AfterItemBracketed(inner.st.(jpath := buf), n, k);
    if Good(inner.st) {
      JsonPath.Shorter(inner.st.jpath, st.jpath, n, m);
      if m > 0 { LeftOverDead(st.jpath, n, m); }
      if Inv(st.user, st.jpath[..n], false) { InvSafe(st.user, st.jpath[..n], false); }
    }
  }

  lemma LeftOverDead(jpath: string, n: nat, m: nat)
    requires n <= m < |jpath| && LeftPath(jpath, n, m) && m > 0 && |jpath| >= 48
    ensures Dead(jpath[..m])
  {
    hide Dead;
    if m == n { LongDead(jpath[..m]); } else { ShortDead(jpath[..m]); }
  }

  lemma {:induction false} AfterItemBracketed(st: State<Loading>, n: nat, m: nat)
    requires n < |st.jpath| && m < |st.jpath| && |st.jpath| >= 48 && (st.seen.rooted ==> LeftPath(st.jpath, n, m))
    ensures Bracketed(st, n, false, AfterItem(st, n, m, OnNode))
    decreases |st.rest|, 0
  {
    hide NextToken, Items, Inv, Safe;
    if Inv(st.user, st.jpath[..n], false) { InvSafe(st.user, st.jpath[..n], false); }
    var t := NextToken(st.rest);
    if t.Token? { ItemsBracketed(st.(rest := t.rest), n, false, m); }
  }

  lemma TopOpens(l: Loading)
    ensures Inv(l, [], true) <==> Inv(l, [], false)
  {
    hide PathOf, Safe, Count, Cap;
    forall a: Array ensures ArrayOk(l.conf, [], true, a) <==> ArrayOk(l.conf, [], false, a) {
      PathLength(a);
    }
    assert (forall a: Array :: ArrayOk(l.conf, [], true, a)) <==> (forall a: Array :: ArrayOk(l.conf, [], false, a));
  }

  /** One object or array of the document, from the call that enters it to the one that leaves it. */
  lemma TopBracketed(st: State<Loading>, braces: bool, node: string)
    requires |st.jpath| >= 48 && Inv(st.user, [], true)
    ensures
      var enter := Branch(if braces then EnterBranch else EnterArray, [], node);
      var leave := Branch(if braces then LeaveBranch else LeaveArray, [], node);
      var entered := Fire(st, enter, OnNode);
      && Safe(entered.st.user)
      && (entered.ret == 0 ==>
        var inner := if braces then Members(entered.st, 0, true, OnNode) else Items(entered.st, 0, true, 0, OnNode);
        && (Good(inner.st) ==> Safe(inner.st.user))
        && (inner.ret == 0 && Good(inner.st) ==> Inv(Fire(inner.st, leave, OnNode).st.user, [], true)))
  {
    hide Members, Items, OnNode, Inv, Safe;
    var enter := Branch(if braces then EnterBranch else EnterArray, [], node);
    var leave := Branch(if braces then LeaveBranch else LeaveArray, [], node);
    var entered := Fire(st, enter, OnNode);
    TopOpens(st.user);
    InvSafe(st.user, [], true);
    assert st.jpath[..0] == [];
    if braces {
      EnterKeeps(st.user, enter);
      MembersBracketed(entered.st, 0, true);
      var inner := Members(entered.st, 0, true, OnNode);
      if entered.ret == 0 && inner.ret == 0 && Good(inner.st) {
        LeaveKeeps(inner.st.user, leave);
        TopOpens(Fire(inner.st, leave, OnNode).st.user);
      }
    } else {
      ArrayIgnored(st.user, enter);
      ItemsBracketed(entered.st, 0, true, 0);
      var inner := Items(entered.st, 0, true, 0, OnNode);
      ArrayIgnored(inner.st.user, leave);
      TopOpens(inner.st.user);
    }
  }

  lemma GoodBefore(st: State<Loading>, braces: bool)
    requires |st.jpath| >= 48
    ensures var inner := if braces then Members(st, 0, true, OnNode) else Items(st, 0, true, 0, OnNode);
      Good(inner.st) ==> Good(st)
  {
    hide Members, Items, OnNode;
    MembersBracketed(st, 0, true);
    ItemsBracketed(st, 0, true, 0);
  }

  lemma {:induction false} DocumentBracketed(st: State<Loading>)
    requires |st.jpath| >= 48
    ensures var o := Document(st, OnNode); Good(o.st) ==> Good(st) && (Inv(st.user, [], true) ==> Safe(o.st.user))
    decreases |st.rest|
  {
    hide NextToken, Members, Items, OnNode, Inv, Safe, Fire;
    if Inv(st.user, [], true) { InvSafe(st.user, [], true); }
    var t := NextToken(st.rest);
    if t.Token? && (t.tag == LeftBrace || t.tag == LeftBracket) {
      var here := st.(rest := t.rest);
      var braces := t.tag == LeftBrace;
      var node := if braces then "{" else "[";
      var entered := Fire(here, Branch(if braces then EnterBranch else EnterArray, [], node), OnNode);
      if Inv(st.user, [], true) { TopBracketed(here, braces, node); }
      GoodBefore(entered.st, braces);
      if entered.ret == 0 {
        var inner := if braces then Members(entered.st, 0, true, OnNode) else Items(entered.st, 0, true, 0, OnNode);
        if inner.ret == 0 {
          var left := Fire(inner.st, Branch(if braces then LeaveBranch else LeaveArray, [], node), OnNode);
          DocumentBracketed(left.st);
          if Inv(left.st.user, [], true) { InvSafe(left.st.user, [], true); }
        }
      }
    }
  }

  /** In a text without early arrays and without slashes in keys, the members of an object keep the
      invariant at the path of the object. */
  lemma MembersStaySafe(st: State<Loading>, n: nat, first: bool, open: seq<Frame>)
    requires n < |st.jpath| && |st.jpath| >= 48 && Good(st) && Inv(st.user, st.jpath[..n], true)
    requires var s := Survey(st.rest, [Brace] + open); s.rooted && s.plain
    ensures var o := Members(st, n, first, OnNode);
      Safe(o.st.user) && (o.ret == 0 ==> o.st.jpath[..n] == st.jpath[..n] && Inv(o.st.user, st.jpath[..n], true))
  {
    OnNodeStrict();
    MembersFollow(st, n, first, OnNode, open);
    MembersBracketed(st, n, first);
    hide Members, Survey, Strict, OnNode, Inv, Safe;
  }

  lemma OnNodeStrict()
    ensures Strict(OnNode)
  {
    forall l: Loading, e: Event ensures OnNode(l, e).1 <= 0 {
      hide Classify, Reachable, IsFull;
      FillFails(e.content, e.beyond, TextSize(Classify(e.path)));
      hide Fill;
    }
  }

  /** For every text without an early array and without a slash in a key, well-formed or not, and
      whatever the configuration held before within its caps, every counter stays at or below its cap
      and every element that is addressed is below it. */
  lemma LoadIsSafe(text: string, conf: Conf)
    requires NoEarlyArray(text) && PlainKeys(text) && Bounded(conf)
    ensures Safe(LoadInto(text, conf).st.user)
  {
    OnNodeStrict();
    var jpath := seq(1025, _ => NUL);
    TravelFollows(text, jpath, Loading(conf, false), OnNode);
    hide Document, OnNode, Strict, Survey;
    var st := State(text, jpath, Loading(conf, false), NOTHING);
    assert Inv(st.user, [], true) by {
      forall a: Array ensures ArrayOk(conf, [], true, a) { PathLength(a); }
    }
    DocumentBracketed(st);
  }

  /** A load that does not fail meets an early array, or a key with a slash,
      exactly when the text holds one. */
  lemma LoadMeets(text: string, conf: Conf)
    ensures var o := LoadInto(text, conf); o.ret == 0 ==>
      (o.st.seen.rooted <==> NoEarlyArray(text)) && (o.st.seen.plain <==> PlainKeys(text))
  {
    OnNodeStrict();
    TravelFollows(text, seq(1025, _ => NUL), Loading(conf, false), OnNode);
    hide Travel, OnNode, Strict, Survey;
  }
}
