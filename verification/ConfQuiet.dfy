/** Paths that lead to no field of the configuration: whatever the traversal finds there, the
    configuration stays as it is. */
module ConfQuiet {

  import opened JsonToken
  import opened JsonTravel
  import opened HetaoConf
  import opened ConfSafety
  import JsonPath

  /** No field has the path, or a path that leads through it. */
  predicate Dead(path: string) {
    forall f: Field :: f != Unknown ==> !Within(FieldPath(f), path)
  }

  lemma FieldPathLength(f: Field)
    requires f != Unknown
    ensures 0 < |FieldPath(f)| <= 43
  {
  }

  lemma LongDead(path: string)
    requires |path| > 43
    ensures Dead(path)
  {
    hide FieldPath;
    forall f: Field | f != Unknown ensures !Within(FieldPath(f), path) { FieldPathLength(f); }
  }

  /** Every component of the path has at least two characters. */
  predicate Spaced(path: string) {
    forall i {:trigger path[i]} :: 0 <= i < |path| && path[i] == '/' ==> i + 2 < |path| && path[i + 2] != '/'
  }

  lemma TopSpaced()
    ensures Spaced("/worker_processes") && Spaced("/user") && Spaced("/listen") && Spaced("/listen/ip") && Spaced("/listen/port")
  {
  }

  lemma WebsiteSpaced()
    ensures Spaced("/listen/website") && Spaced("/listen/website/domain") && Spaced("/listen/website/wwwroot")
  {
  }

  lemma RewriteSpaced()
    ensures Spaced("/listen/website/rewrite") && Spaced("/listen/website/rewrite/pattern") && Spaced("/listen/website/rewrite/new_uri")
  {
  }

  lemma RedirectSpaced()
    ensures Spaced("/listen/website/redirect") && Spaced("/listen/website/redirect/domain")
    ensures Spaced("/listen/website/redirect/new_domain")
  {
  }

  lemma ForwardSpaced()
    ensures Spaced("/listen/website/forward/forward_type") && Spaced("/listen/website/forward/forward_rule")
    ensures Spaced("/listen/website/forward/forward_server")
  {
  }

  lemma ServerSpaced()
    ensures Spaced("/listen/website/forward/forward_server/ip") && Spaced("/listen/website/forward/forward_server/port")
  {
  }

  lemma MimeSpaced()
    ensures Spaced("/mime_types/mime_type") && Spaced("/mime_types/mime_type/type") && Spaced("/mime_types/mime_type/mime")
    ensures Spaced("/mime_types/mime_type/compress_enable")
  {
  }

  lemma FieldSpaced(f: Field)
    requires f != Unknown
    ensures Spaced(FieldPath(f))
  {
    hide Spaced;
    TopSpaced();
    WebsiteSpaced();
    RewriteSpaced();
    RedirectSpaced();
    ForwardSpaced();
    ServerSpaced();
    MimeSpaced();
  }

  lemma ThroughBoth(path: string, b: string, a: string)
    requires Within(b, a)
    ensures Within(path, b) ==> Within(path, a)
  {
    if Within(path, b) {
      assert path[..|a|] == path[..|b|][..|a|] == b[..|a|];
      assert |b| > |a| ==> path[|a|] == path[..|b|][|a|] == b[|a|];
    }
  }

  lemma DeadBelow(path: string, longer: string)
    requires Dead(path) && Within(longer, path)
    ensures Dead(longer)
  {
    hide FieldPath, Within;
    forall f: Field | f != Unknown ensures !Within(FieldPath(f), longer) { ThroughBoth(FieldPath(f), longer, path); }
  }

  lemma SpacedThrough(p: string, path: string)
    requires Spaced(p) && |path| >= 2 && path[|path| - 2] == '/'
    ensures !Within(p, path)
  {
    var i := |path| - 2;
    assert |p| >= |path| ==> p[i] == p[..|path|][i];
  }

  /** A component of a single character leads to no field. */
  lemma ShortDead(path: string)
    requires |path| >= 2 && path[|path| - 2] == '/'
    ensures Dead(path)
  {
    hide FieldPath, Within, Spaced;
    forall f: Field | f != Unknown ensures !Within(FieldPath(f), path) {
      FieldSpaced(f);
      SpacedThrough(FieldPath(f), path);
    }
  }

  lemma DeadUnknown(path: string)
    requires Dead(path)
    ensures Classify(path) == Unknown
  {
    hide Classify, FieldPath;
    ClassifiedPath(path);
    WithinSelf(path);
  }

  /** Calls under such a path are ignored. */
  lemma DeadIgnored(l: Loading, e: Event)
    requires Dead(e.path)
    ensures OnNode(l, e) == (l, 0)
  {
    hide Classify, Dead;
    DeadUnknown(e.path);
    UnknownStored(l.conf, e);
    hide StoreLeaf;
  }

  lemma UnknownStored(c: Conf, e: Event)
    ensures StoreLeaf(c, Unknown, e.content, e.beyond) == (c, 0)
  {
  }

  lemma DeadExtended(path: string, name: string, size: nat)
    requires Dead(path)
    ensures Dead(Extend(path, name, size))
  {
    hide Dead;
    Under(path, name);
    Under(path, "*");
    WithinSelf(path);
    assert path + "/" + name == path + ("/" + name) && path + "/*" == path + ("/" + "*");
    DeadBelow(path, Extend(path, name, size));
  }

  // ----- the path length left over in an array

  /** In front of the first scalar or array it is zero; behind it, it is that of a name of one character. */
  predicate LeftPath(jpath: string, n: nat, m: nat)
    requires n < |jpath| && m < |jpath|
  {
    m == 0 || (m == n && n + 2 >= |jpath|) || (m == n + 2 && jpath[n] == '/')
  }

  lemma AppendLeft(jpath: string, n: nat, name: string)
    requires n < |jpath| && (name == "." || name == "[")
    ensures var (buf, m) := Append(jpath, n, name); LeftPath(buf, n, m)
  {
  }

  lemma LeftDead(jpath: string, n: nat, m: nat)
    requires n <= m < |jpath| && LeftPath(jpath, n, m)
    ensures Dead(jpath[..n]) ==> Dead(jpath[..m])
  {
    hide Dead;
    if Dead(jpath[..n]) && m == n + 2 {
      assert jpath[..m][..n] == jpath[..n];
      DeadBelow(jpath[..n], jpath[..m]);
    }
  }

  // ----- the traversals

  /** At a dead path nothing happens to the configuration. */
  predicate Quiet(st: State<Loading>, n: nat, o: Outcome<Loading>)
    requires n < |st.jpath|
  {
    JsonPath.Kept(st, n, o) && (o.st.seen.rooted && Dead(st.jpath[..n]) ==> o.st.user == st.user)
  }

  lemma {:induction false} MembersQuiet(st: State<Loading>, n: nat, first: bool)
    requires n < |st.jpath|
    ensures Quiet(st, n, Members(st, n, first, OnNode))
    decreases |st.rest|, 0
  {
    hide NextToken, JsonTravel.Member, Dead;
    var t := NextToken(st.rest);
    if t.Token? { MemberQuiet(st.(rest := t.rest), n, t.from[..t.len], t.quotes); }
  }

  lemma FireDead(st: State<Loading>, e: Event)
    requires Dead(e.path)
    ensures Fire(st, e, OnNode) == Outcome(st, 0)
  {
    DeadIgnored(st.user, e);
  }

  lemma {:induction false} MemberQuiet(st: State<Loading>, n: nat, name: string, quotes: char)
    requires n < |st.jpath|
    ensures Quiet(st, n, JsonTravel.Member(st, n, name, quotes, OnNode))
    decreases |st.rest|, 0
  {
    hide NextToken, MemberValue, Append, Fire, Dead, OnNode;
    JsonPath.AppendKeeps(st.jpath, n, ".");
    AppendExtends(st.jpath, n, ".");
    var t := NextToken(st.rest);
    if t.Token? {
      MemberValueQuiet(st.(rest := t.rest), n, name);
      if Dead(st.jpath[..n]) {
        var (buf, m) := Append(st.jpath, n, ".");
        DeadExtended(st.jpath[..n], ".", |st.jpath|);
        FireDead(st.(rest := t.rest, jpath := buf), LeafEvent(buf[..m], [], t.from, t.len));
      }
    }
  }

  lemma {:induction false} MemberValueQuiet(st: State<Loading>, n: nat, name: string)
    requires n < |st.jpath|
    ensures Quiet(st, n, MemberValue(st, n, name, OnNode))
    decreases |st.rest|, 0
  {
    hide NextToken, Append, Fire, MemberObject, MemberArray, AfterMember, Dead, OnNode;
    JsonPath.AppendKeeps(st.jpath, n, name);
    AppendExtends(st.jpath, n, name);
    var (buf, m) := Append(st.jpath, n, name);
    var t := NextToken(st.rest);
    if t.Token? {
      var here := st.(jpath := buf, seen := st.seen.(plain := st.seen.plain && '/' !in name), rest := t.rest);
      var e := LeafEvent(buf[..m], name, t.from, t.len);
      if Dead(st.jpath[..n]) {
        DeadExtended(st.jpath[..n], name, |st.jpath|);
        FireDead(here, e);
      }
      MemberObjectQuiet(here, n, m, name);
      MemberArrayQuiet(here, n, m, name);
      AfterMemberQuiet(Fire(here, e, OnNode).st, n);
    }
  }

  lemma {:induction false} MemberObjectQuiet(st: State<Loading>, n: nat, m: nat, name: string)
    requires n <= m < |st.jpath| && st.jpath[..m] == Extend(st.jpath[..n], name, |st.jpath|)
    ensures Quiet(st, n, MemberObject(st, n, m, name, OnNode))
    decreases |st.rest|, 1
  {
    hide Append, Fire, Members, AfterMember, Dead, OnNode;
    var enter := Branch(EnterBranch, st.jpath[..m], name);
    var entered := Fire(st, enter, OnNode);
    MembersQuiet(entered.st, m, true);
    var inner := Members(entered.st, m, true, OnNode);
    if inner.st.seen.rooted { JsonPath.Shorter(inner.st.jpath, st.jpath, n, m); }
    JsonPath.AppendKeeps(inner.st.jpath, n, name);
    AppendExtends(inner.st.jpath, n, name);
    var (buf, k) := Append(inner.st.jpath, n, name);
    var leave := Branch(LeaveBranch, buf[..k], name);
    var left := Fire(inner.st.(jpath := buf), leave, OnNode);
    AfterMemberQuiet(left.st, n);
    if Dead(st.jpath[..n]) {
      DeadExtended(st.jpath[..n], name, |st.jpath|);
      FireDead(st, enter);
      if inner.st.seen.rooted { FireDead(inner.st.(jpath := buf), leave); }
    }
  }

  lemma FireArray(st: State<Loading>, e: Event)
    requires e.kind == EnterArray || e.kind == LeaveArray
    ensures Fire(st, e, OnNode) == Outcome(st, 0)
  {
    hide Classify;
  }

  lemma {:induction false} MemberArrayQuiet(st: State<Loading>, n: nat, m: nat, name: string)
    requires n <= m < |st.jpath| && st.jpath[..m] == Extend(st.jpath[..n], name, |st.jpath|)
    ensures Quiet(st, n, MemberArray(st, n, m, OnNode))
    decreases |st.rest|, 1
  {
    hide Append, Fire, Items, AfterMember, Dead, OnNode;
    FireArray(st, Branch(EnterArray, st.jpath[..m], "["));
    ItemsQuiet(st, m, true, 0);
    var inner := Items(st, m, true, 0, OnNode);
    if inner.st.seen.rooted { JsonPath.Shorter(inner.st.jpath, st.jpath, n, m); }
    FireArray(inner.st, Branch(LeaveArray, inner.st.jpath[..m], "["));
    JsonPath.AppendKeeps(inner.st.jpath, n, "[");
    AfterMemberQuiet(inner.st.(jpath := Append(inner.st.jpath, n, "[").0), n);
    if Dead(st.jpath[..n]) { DeadExtended(st.jpath[..n], name, |st.jpath|); }
  }

  lemma {:induction false} AfterMemberQuiet(st: State<Loading>, n: nat)
    requires n < |st.jpath|
    ensures Quiet(st, n, AfterMember(st, n, OnNode))
    decreases |st.rest|, 0
  {
    hide NextToken, Members, Dead;
    var t := NextToken(st.rest);
    if t.Token? { MembersQuiet(st.(rest := t.rest), n, false); }
  }

  lemma {:induction false} ItemsQuiet(st: State<Loading>, n: nat, first: bool, m: nat)
    requires n < |st.jpath| && m < |st.jpath| && (st.seen.rooted ==> LeftPath(st.jpath, n, m))
    ensures Quiet(st, n, Items(st, n, first, m, OnNode))
    decreases |st.rest|, 0
  {
    hide NextToken, Append, Fire, ItemObject, ItemArray, AfterItem, Dead, OnNode;
    JsonPath.AppendKeeps(st.jpath, n, ".");
    AppendExtends(st.jpath, n, ".");
    AppendLeft(st.jpath, n, ".");
    var (buf, k) := Append(st.jpath, n, ".");
    var t := NextToken(st.rest);
    if t.Token? {
      var here := st.(rest := t.rest);
      var e := LeafEvent(buf[..k], [], t.from, t.len);
      var leaf := Fire(here.(jpath := buf), e, OnNode);
      if Dead(st.jpath[..n]) {
        DeadExtended(st.jpath[..n], ".", |st.jpath|);
        FireDead(here.(jpath := buf), e);
      }
      ItemObjectQuiet(here, n, m);
      ItemArrayQuiet(here.(seen := Misplaced(st.seen, n, m)), n, m);
      AfterItemQuiet(leaf.st, n, k);
    }
  }

  lemma {:induction false} ItemObjectQuiet(st: State<Loading>, n: nat, m: nat)
    requires n < |st.jpath| && m < |st.jpath| && (st.seen.rooted ==> LeftPath(st.jpath, n, m))
    ensures Quiet(st, n, ItemObject(st, n, m, OnNode))
    decreases |st.rest|, 1
  {
    hide Fire, Members, AfterItem, Dead, OnNode;
    var enter := Branch(EnterBranch, st.jpath[..n], "[");
    var entered := Fire(st, enter, OnNode);
    MembersQuiet(entered.st, n, true);
    var inner := Members(entered.st, n, true, OnNode);
    var leave := Branch(LeaveBranch, inner.st.jpath[..n], "[");
    var left := Fire(inner.st, leave, OnNode);
    AfterItemQuiet(left.st, n, m);
    if Dead(st.jpath[..n]) {
      FireDead(st, enter);
      if inner.st.seen.rooted { FireDead(inner.st, leave); }
    }
  }

  lemma {:induction false} ItemArrayQuiet(st: State<Loading>, n: nat, m: nat)
    requires n < |st.jpath| && m < |st.jpath| && (st.seen.rooted ==> n <= m && LeftPath(st.jpath, n, m))
    ensures Quiet(st, n, ItemArray(st, n, m, OnNode))
    decreases |st.rest|, 1
  {
    hide Append, Fire, Items, AfterItem, Dead, OnNode;
    FireArray(st, Branch(EnterArray, st.jpath[..m], "["));
    ItemsQuiet(st, m, true, 0);
    var inner := Items(st, m, true, 0, OnNode);
    if inner.st.seen.rooted {
      JsonPath.Shorter(inner.st.jpath, st.jpath, n, m);
      LeftDead(st.jpath, n, m);
    }
    FireArray(inner.st, Branch(LeaveArray, inner.st.jpath[..m], "["));
    JsonPath.AppendKeeps(inner.st.jpath, n, "[");
    AppendLeft(inner.st.jpath, n, "[");
    var (buf, k) := Append(inner.st.jpath, n, "[");
    AfterItemQuiet(inner.st.(jpath := buf), n, k);
  }

  lemma {:induction false} AfterItemQuiet(st: State<Loading>, n: nat, m: nat)
    requires n < |st.jpath| && m < |st.jpath| && (st.seen.rooted ==> LeftPath(st.jpath, n, m))
    ensures Quiet(st, n, AfterItem(st, n, m, OnNode))
    decreases |st.rest|, 0
  {
    hide NextToken, Items, Dead;
    var t := NextToken(st.rest);
    if t.Token? { ItemsQuiet(st.(rest := t.rest), n, false, m); }
  }
}
