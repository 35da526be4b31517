/** Printed documents: those without a slash in a key are read safely, and some with one are not. */
module ConfSlash {

  import opened JsonText
  import opened JsonToken
  import opened JsonTravel
  import opened JsonPrint
  import opened JsonRead
  import opened JsonSurvey
  import opened JsonLayout
  import Decimals
  import opened HetaoConf
  import opened ConfMeaning
  import opened ConfPaths
  import opened ConfLoads
  import opened ConfRoundTrip
  import opened ConfExact
  import ConfRuns
  import ConfSafety

  /** Every printed tree without a slash in a key is read safely. */
  lemma PrintedIsSafe(ms: MemberList, conf: Conf)
    requires Printable(ms) && PlainMembers(ms) && ConfSafety.Bounded(conf)
    ensures ConfSafety.Safe(LoadInto(ShowDocument(ms), conf).st.user)
  {
    hide *;
    PrintedShape(ms);
    ConfRuns.LoadIsSafe(ShowDocument(ms), conf);
  }

  // ----- a key with a slash

  /** A list of listen entries, and behind it a top-level member with the key `listen/ip`. */
  function SlashMembers(xs: seq<Listen>, s: string): MemberList {
    ArrayMember("listen", ListenItems(xs), ScalarMember("listen/ip", TextOf(s), NoMember))
  }

  lemma SlashQuotable()
    ensures Quotable("listen/ip") && Quotable("listen")
  {
    hide Quotable;
    LettersQuotable("listen");
    LettersQuotable("listen/ip");
  }

  lemma SlashPrintable(xs: seq<Listen>, s: string)
    ensures Printable(SlashMembers(xs, s))
  {
    hide Quotable, PrintableScalar, PrintableItems, PlainItems, SettledItems, TextOf, ListenItems;
    SlashQuotable();
    TextSound(s);
    ListenItemsSound(xs);
    var slash := ScalarMember("listen/ip", TextOf(s), NoMember);
    assert Printable(slash) by { assert Printable(NoMember); }
    assert Printable(ArrayMember("listen", ListenItems(xs), slash));
  }

  lemma SlashFound(key: string, v: Scalar, more: MemberList)
    requires !Plain(key)
    ensures !PlainMembers(ScalarMember(key, v, more))
  {
  }

  lemma SlashInKey(xs: seq<Listen>, s: string)
    ensures !PlainMembers(SlashMembers(xs, s))
  {
    hide ListenItems, TextOf, PlainItems;
    assert "listen/ip"[6] == '/' && !Plain("listen/ip");
    SlashFound("listen/ip", TextOf(s), NoMember);
  }

  lemma SlashShape(xs: seq<Listen>, s: string)
    ensures NoEarlyArray(ShowDocument(SlashMembers(xs, s))) && !PlainKeys(ShowDocument(SlashMembers(xs, s)))
  {
    hide *;
    SlashPrintable(xs, s);
    SlashInKey(xs, s);
    PrintedShape(SlashMembers(xs, s));
  }

  /** The member behind the list assigns to the listen entry at the counter. */
  lemma SlashLeaf(l: Loading, s: string, after: string)
    requires TextFits(s, 15) && !l.wild && Decimals.Ends(after) && (after != [] ==> !High(after[0]))
    ensures var (m, r) := OnNode(l, ScalarEvent(TextOf(s), "/listen/ip", "listen/ip", after));
      && r == 0 && (m.wild <==> |l.conf.listens| >= 16)
      && (!m.wild ==> m.conf == l.conf.(listen := l.conf.listen.(ip := NormalText(s))))
  {
    Known(ListenIp);
    TextSound(s);
    PutStored(l.conf, ListenIp, TextOf(s), "/listen/ip", "listen/ip", after);
    PutTextOf(l.conf, ListenIp, s);
    hide Classify, TextOf, ScalarEvent, Put, StoreLeaf, NormalText, TextFits, PrintableScalar, Settled;
  }

  /** The list of listen entries is read into a zeroed configuration. */
  lemma ListensRun(xs: seq<Listen>, depth: nat, next: string)
    requires (forall x :: x in xs ==> ListenFits(x)) && |xs| <= 16
    ensures Run(ItemEvents(ListenItems(xs), "/listen", 1025, depth, next), Loading(ZERO_CONF, false), OnNode)
      == (Loading(WithListens(ZERO_CONF, NormalListens(xs)), false), 0)
  {
    hide Run, ItemEvents, OnNode, Classify, ListenItems, ListenFits, NormalListens, MeanItems, ConfSafety.Inv;
    ListenItemsSound(xs);
    ListensMean(xs, ZERO_CONF);
    Known(Listens);
    ListenStart();
    ItemsMean(ListenItems(xs), "/listen", Listens, Listening, depth, next, Loading(ZERO_CONF, false));
  }

  lemma ListenStart()
    ensures At("/listen", Listening) && FieldPath(Listens) == "/listen" && ConfSafety.Inv(Loading(ZERO_CONF, false), "/listen", false)
  {
    InvStart(ZERO_CONF);
    forall a: ConfSafety.Array ensures ConfSafety.ArrayOk(ZERO_CONF, "/listen", false, a) {
    }
  }

  lemma TopExtends()
    ensures Extend([], "listen", 1025) == "/listen" && Extend([], "listen/ip", 1025) == "/listen/ip"
  {
  }

  lemma SlashRun(xs: seq<Listen>, s: string, depth: nat, next: string)
    requires (forall x :: x in xs ==> ListenFits(x)) && |xs| <= 16 && TextFits(s, 15)
    ensures var (m, r) := Run(MemberEvents(SlashMembers(xs, s), [], 1025, depth, next), Loading(ZERO_CONF, false), OnNode);
      && r == 0 && (m.wild <==> |xs| == 16)
      && (!m.wild ==> m.conf.listens == NormalListens(xs) && m.conf.listen.ip == NormalText(s))
  {
    hide ItemEvents, Run, OnNode, Extend, TextOf, NormalText, TextFits, ShowMark, ShowMembers, ListenItems, ListenFits, NormalListens,
      ScalarEvent;
    var slash := ScalarMember("listen/ip", TextOf(s), NoMember);
    var ms := SlashMembers(xs, s);
    TopExtends();
    UnfoldMember(ms, [], 1025, depth, next);
    UnfoldMember(slash, [], 1025, depth, next);
    hide MemberEvents, After;
    var inside := ItemEvents(ListenItems(xs), "/listen", 1025, depth, ShowMark("]", depth, After(ms, depth, next)));
    ListensRun(xs, depth, ShowMark("]", depth, After(ms, depth, next)));
    ArrayRuns(inside, "/listen", Loading(ZERO_CONF, false));
    RunConcat([Branch(EnterArray, "/listen", "[")] + inside + [Branch(LeaveArray, "/listen", "[")],
      MemberEvents(slash, [], 1025, depth, next), Loading(ZERO_CONF, false), OnNode);
    NormalListensLength(xs);
    assert [] + NormalListens(xs) == NormalListens(xs);
    var l := Loading(WithListens(ZERO_CONF, NormalListens(xs)), false);
    AfterEnds(slash, depth, next);
    SlashLeaf(l, s, After(slash, depth, next));
    var e := ScalarEvent(TextOf(s), "/listen/ip", "listen/ip", After(slash, depth, next));
    NoEvents(depth, next);
    RunOne(e, [], l, OnNode);
    RunNothing(OnNode(l, e).0);
    assert [e] + [] == [e];
  }

  lemma NoEvents(depth: nat, next: string)
    ensures MemberEvents(NoMember, [], 1025, depth, next) == []
  {
  }

  lemma {:induction false} NormalListensLength(xs: seq<Listen>)
    ensures |NormalListens(xs)| == |xs|
  {
    if xs != [] { NormalListensLength(xs[1..]); }
  }

  /** Reading such a document addresses the element behind the array exactly when the list is full;
      otherwise the key assigns to the listen entry that was never entered. */
  lemma SlashKeyDocument(xs: seq<Listen>, s: string)
    requires (forall x :: x in xs ==> ListenFits(x)) && |xs| <= 16 && TextFits(s, 15)
    ensures NoEarlyArray(ShowDocument(SlashMembers(xs, s))) && !PlainKeys(ShowDocument(SlashMembers(xs, s)))
    ensures var o := Load(ShowDocument(SlashMembers(xs, s)));
      && o.ret == 0 && (o.st.user.wild <==> |xs| == 16)
      && (|xs| < 16 ==> o.st.user.conf.listens == NormalListens(xs) && o.st.user.conf.listen.ip == NormalText(s))
  {
    SlashPrintable(xs, s);
    SlashShape(xs, s);
    ConfRuns.OnNodeStrict();
    hide SlashMembers, NoEarlyArray, PlainKeys, MemberEvents, Run, OnNode, Travel, ShowDocument, Printable, Strict, Classify,
      ShowMark, ListenFits, TextFits, NormalListens, NormalText;
    var l := Loading(ZERO_CONF, false);
    TravelReads(SlashMembers(xs, s), seq(1025, _ => NUL), l, OnNode);
    var closing := ShowMark("}", 0, "\n");
    SlashRun(xs, s, 1, closing);
    var inside := MemberEvents(SlashMembers(xs, s), [], 1025, 1, closing);
    var m := Run(inside, l, OnNode).0;
    var enter, leave := Branch(EnterBranch, [], "{"), Branch(LeaveBranch, [], "{");
    EmptyPathUnknown();
    UnknownBranch(l, enter);
    UnknownBranch(m, leave);
    assert [enter] + inside + [leave] == [enter] + inside + [leave] + [];
    RunBlock(enter, inside, leave, [], l, OnNode);
    RunNothing(m);
  }
}
