/** Loading a printed value tree does what the tree means. */
module ConfLoads {

  import opened JsonText
  import opened JsonToken
  import opened JsonTravel
  import opened JsonPrint
  import opened JsonRead
  import opened JsonLayout
  import opened Decimals
  import opened HetaoConf
  import opened ConfSafety
  import opened ConfMeaning
  import opened ConfPaths
  import ConfRuns

  /** A run of calls does what a part of the tree means, and keeps the invariant at the path. */
  predicate Does(run: (Loading, int), mean: (Conf, int), path: string, inside: bool) {
    run == (Loading(mean.0, false), mean.1) && (mean.1 == 0 ==> Inv(run.0, path, inside))
  }

  lemma InvTame(l: Loading, path: string, inside: bool)
    requires Inv(l, path, inside)
    ensures l == Loading(l.conf, false)
  {
  }

  lemma EnterMeans(l: Loading, e: Event, f: Field)
    requires Inv(l, e.path, false) && e.kind == EnterBranch && Classify(e.path) == f
    ensures var (l', r) := OnNode(l, e);
      l' == l && (if IsFull(l.conf, f) then r == -8 else r == 0 && Inv(l, e.path, true))
  {
    EnterKeeps(l, e);
    InvReaches(l, e.path, false);
    hide Classify, Reachable, IsFull, Inv;
  }

  lemma LeaveMeans(l: Loading, e: Event, f: Field)
    requires Inv(l, e.path, true) && e.kind == LeaveBranch && Classify(e.path) == f
    ensures OnNode(l, e) == (l.(conf := Leave(l.conf, f)), 0) && Inv(l.(conf := Leave(l.conf, f)), e.path, false)
  {
    LeaveKeeps(l, e);
    InvReaches(l, e.path, true);
    hide Classify, Reachable, Leave, Inv;
  }

  lemma LeafMeans(l: Loading, e: Event, f: Field, v: Scalar, key: string, after: string)
    requires Inv(l, e.path, false) && Classify(e.path) == f && e == ScalarEvent(v, e.path, key, after)
    requires Settled(v) && PrintableScalar(v) && Ends(after) && (after != [] ==> !High(after[0]))
    ensures var (c, r) := Put(l.conf, f, v); OnNode(l, e) == (Loading(c, false), r) && Inv(Loading(c, false), e.path, false)
  {
    PutStored(l.conf, f, v, e.path, key, after);
    LeafKeeps(l, e);
    InvTame(l, e.path, false);
    InvReaches(l, e.path, false);
    hide Classify, Reachable, StoreLeaf, Put, Inv, ScalarEvent;
  }

  lemma RunNothing(l: Loading)
    ensures Run([], l, OnNode) == (l, 0)
  {
  }

  lemma UnknownBranch(l: Loading, e: Event)
    requires e.kind == EnterBranch || e.kind == LeaveBranch
    requires Classify(e.path) == Unknown
    ensures OnNode(l, e) == (l, 0)
  {
    hide Classify;
  }

  lemma EmptyPathUnknown()
    ensures Classify([]) == Unknown
  {
  }

  lemma SeparatorEnds(last: bool, text: string)
    ensures var after := Separator(last) + text; Ends(after) && after != [] && !High(after[0])
  {
  }

  /** An object at a path, entered and left. */
  lemma {:induction false} ObjectMeans(ms: MemberList, q: string, f: Field, t: Spot, node: string, depth: nat, after: string, l: Loading)
    requires At(q, t) && Classify(q) == f && Inv(l, q, false)
    requires Printable(ms) && PlainMembers(ms) && SettledMembers(ms)
    ensures Does(Run(ObjectEvents(ms, q, node, 1025, depth, after), l, OnNode), MeanObject(ms, f, t, l.conf), q, false)
    decreases ms, 2
  {
    hide Run, MemberEvents, OnNode, Inv, Classify, At, Printable, PlainMembers, SettledMembers, IsFull, Leave, ShowMark,
      MeanMembers;
    var closing := ShowMark("}", depth, after);
    var inside := MemberEvents(ms, q, 1025, depth + 1, closing);
    var enter, leave := Branch(EnterBranch, q, node), Branch(LeaveBranch, q, node);
    assert [enter] + inside + [leave] == [enter] + inside + [leave] + [];
    RunBlock(enter, inside, leave, [], l, OnNode);
    EnterMeans(l, enter, f);
    InvTame(l, q, false);
    if !IsFull(l.conf, f) {
      MembersMean(ms, q, t, depth + 1, closing, l);
      var (m, r) := Run(inside, l, OnNode);
      if r == 0 {
        LeaveMeans(m, leave, f);
        RunNothing(OnNode(m, leave).0);
      }
    }
  }

  lemma {:induction false} MembersMean(ms: MemberList, p: string, s: Spot, depth: nat, next: string, l: Loading)
    requires At(p, s) && Inv(l, p, true)
    requires Printable(ms) && PlainMembers(ms) && SettledMembers(ms)
    ensures Does(Run(MemberEvents(ms, p, 1025, depth, next), l, OnNode), MeanMembers(ms, s, l.conf), p, true)
    decreases ms, 1
  {
    InvTame(l, p, true);
    if !ms.NoMember? {
      hide Run, OnNode, Inv, At, PlainMembers, SettledMembers, Extend, MeanValue, ValueEvents, ShowMembers, Printable;
      UnfoldMember(ms, p, 1025, depth, next);
      hide MemberEvents;
      QuotableKey(ms);
      MoreParts(ms);
      var q, after := Extend(p, ms.key, 1025), After(ms, depth, next);
      PathStep(p, s, ms.key);
      Descend(l, p, ms.key, 1025);
      ValueMeans(ms, q, s, depth, next, l);
      RunConcat(ValueEvents(ms, q, 1025, depth, after), MemberEvents(ms.more, p, 1025, depth, next), l, OnNode);
      if MeanValue(ms, s, l.conf).1 == 0 {
        var m := Run(ValueEvents(ms, q, 1025, depth, after), l, OnNode).0;
        Descend(m, p, ms.key, 1025);
        MembersMean(ms.more, p, s, depth, next, m);
      }
    }
  }

  lemma MoreParts(ms: MemberList)
    requires !ms.NoMember? && PlainMembers(ms) && SettledMembers(ms)
    ensures '/' !in ms.key && PlainMembers(ms.more) && SettledMembers(ms.more)
  {
  }

  /** The value of a member, at the path of the member. */
  lemma {:induction false} ValueMeans(ms: MemberList, q: string, s: Spot, depth: nat, next: string, l: Loading)
    requires !ms.NoMember? && Printable(ms) && PlainMembers(ms) && SettledMembers(ms)
    requires At(q, Into(s, ms.key)) && Classify(q) == FieldAt(s, ms.key) && Inv(l, q, false)
    ensures Does(Run(ValueEvents(ms, q, 1025, depth, After(ms, depth, next)), l, OnNode), MeanValue(ms, s, l.conf), q, false)
    decreases ms, 0
  {
    hide Run, OnNode, Inv, At, Classify, FieldAt, Into, Put, MeanObject, MeanItems, ShowMembers, ScalarEvent, ObjectEvents, ItemEvents,
      Quotable, PrintableScalar, Settled, ShowMark, After;
    var after := After(ms, depth, next);
    match ms
    case ScalarMember(key, v, more) =>
      AfterEnds(ms, depth, next);
      ScalarIsLeaf(v, q, key, after);
      var e := ScalarEvent(v, q, key, after);
      LeafMeans(l, e, FieldAt(s, key), v, key, after);
      RunOne(e, [], l, OnNode);
      assert [e] + [] == [e];
      RunNothing(OnNode(l, e).0);
    case ObjectMember(key, inner, _) =>
      ObjectMeans(inner, q, FieldAt(s, key), Into(s, key), key, depth, after, l);
    case ArrayMember(key, items, _) =>
      var closing := ShowMark("]", depth, after);
      ItemsMean(items, q, FieldAt(s, key), Into(s, key), depth, closing, l);
      ArrayRuns(ItemEvents(items, q, 1025, depth, closing), q, l);
  }

  lemma AfterEnds(ms: MemberList, depth: nat, next: string)
    requires !ms.NoMember?
    ensures var after := After(ms, depth, next); Ends(after) && after != [] && !High(after[0])
  {
    SeparatorEnds(ms.more.NoMember?, ShowMembers(ms.more, depth, next));
  }

  lemma ScalarIsLeaf(v: Scalar, path: string, node: string, after: string)
    ensures var e := ScalarEvent(v, path, node, after); e.kind == Leaf && e.path == path
  {
  }

  /** The calls that enter and leave an array do nothing. */
  lemma ArrayRuns(inside: seq<Event>, q: string, l: Loading)
    ensures Run([Branch(EnterArray, q, "[")] + inside + [Branch(LeaveArray, q, "[")], l, OnNode) == Run(inside, l, OnNode)
  {
    var enter, leave := Branch(EnterArray, q, "["), Branch(LeaveArray, q, "[");
    ConfRuns.ArrayIgnored(l, enter);
    var m := Run(inside, l, OnNode).0;
    ConfRuns.ArrayIgnored(m, leave);
    RunNothing(m);
    hide Run, OnNode;
    assert [enter] + inside + [leave] == [enter] + inside + [leave] + [];
    RunBlock(enter, inside, leave, [], l, OnNode);
  }

  lemma {:induction false} ItemsMean(items: ItemList, q: string, f: Field, t: Spot, depth: nat, next: string, l: Loading)
    requires PrintableItems(items) && PlainItems(items) && SettledItems(items)
    requires At(q, t) && Classify(q) == f && Inv(l, q, false)
    ensures Does(Run(ItemEvents(items, q, 1025, depth, next), l, OnNode), MeanItems(items, f, t, l.conf), q, false)
    decreases items, 0
  {
    InvTame(l, q, false);
    if !items.NoItem? {
      hide Run, OnNode, Inv, At, Classify, MeanObject, ShowItems, ScalarEvent, ObjectEvents, PrintableScalar, Settled, Extend,
        MemberEvents;
      UnfoldItem(items, q, 1025, depth, next);
      hide ItemEvents;
      var after := ItemAfter(items, depth, next);
      match items
      case ScalarItem(v, more) =>
        ScalarIsLeaf(v, Extend(q, ".", 1025), [], after);
        var e := ScalarEvent(v, Extend(q, ".", 1025), [], after);
        ConfRuns.DotUnknown(q, ".", 1025);
        ConfRuns.UnknownIgnored(l, e);
        RunOne(e, ItemEvents(more, q, 1025, depth, next), l, OnNode);
        ItemsMean(more, q, f, t, depth, next, l);
      case ObjectItem(inner, more) =>
        ObjectMeans(inner, q, f, t, "[", depth, after, l);
        RunConcat(ObjectEvents(inner, q, "[", 1025, depth, after), ItemEvents(more, q, 1025, depth, next), l, OnNode);
        if MeanObject(inner, f, t, l.conf).1 == 0 {
          ItemsMean(more, q, f, t, depth, next, Run(ObjectEvents(inner, q, "[", 1025, depth, after), l, OnNode).0);
        }
    }
  }

  // ----- the whole document

  lemma InvStart(base: Conf)
    requires Bounded(base)
    ensures Inv(Loading(base, false), [], false)
  {
    forall a: Array ensures ArrayOk(base, [], false, a) { PathLength(a); }
  }

  lemma TopSpot()
    ensures At([], Top)
  {
  }

  /** Loading a printed tree into any configuration within its caps, whatever its members and their order: the
      result is what the tree means, and so is the result code; no element behind an array is addressed. */
  lemma LoadMeans(ms: MemberList, base: Conf)
    requires Sound(ms) && Bounded(base)
    ensures var o := LoadInto(ShowDocument(ms), base);
      (o.st.user.conf, o.ret) == MeanMembers(ms, Top, base) && !o.st.user.wild
  {
    hide Run, OnNode, Inv, Bounded, At, Classify, MeanMembers, MeanObject, ObjectEvents, Travel, Printable, PlainMembers, SettledMembers,
      ShowDocument, Strict, IsFull, Leave;
    var l := Loading(base, false);
    ConfRuns.OnNodeStrict();
    TravelReads(ms, seq(1025, _ => NUL), l, OnNode);
    InvStart(base);
    TopSpot();
    EmptyPathUnknown();
    ObjectMeans(ms, [], Unknown, Top, "{", 0, "\n", l);
    ObjectAtTop(ms, base);
  }

  lemma ObjectAtTop(ms: MemberList, base: Conf)
    ensures MeanObject(ms, Unknown, Top, base) == MeanMembers(ms, Top, base)
  {
    hide MeanMembers;
  }
}
