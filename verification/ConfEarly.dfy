/** Documents with an early array: an array in front of the first scalar item of an array. */
module ConfEarly {

  import opened JsonText
  import opened JsonToken
  import opened JsonTravel
  import opened JsonPrint
  import opened JsonRead
  import opened JsonSurvey
  import JsonLayout
  import opened HetaoConf
  import opened ConfPaths
  import opened ConfLoads
  import opened ConfRoundTrip
  import opened ConfExact
  import opened ConfQuiet
  import opened Decimals
  import ConfRuns
  import ConfSafety
  import ConfSlash
  import JsonNested
  import JsonPath

  // ----- the text

  const PORT: string := JsonNested.Keyed("port", ['1'] + (['}'] + (['}'] + [])))

  const INNER: string := JsonNested.Keyed("listen", ['1'] + (['}'] + ([']'] + ([']'] + ([','] + PORT)))))

  const OBJECT: string := ['{'] + JsonNested.Keyed("y", ['['] + (['['] + (['{'] + INNER)))

  /** What follows the list of listen entries. */
  function Behind(): string { [','] + JsonNested.Keyed("xxxxxx", OBJECT) }

  /** A list of listen entries, and behind it `"xxxxxx":{"y":[[{"listen":1}]],"port":1}`. */
  function EarlyText(xs: seq<Listen>): string {
    ['{'] + JsonNested.Keyed("listen",
      ['['] + ShowItems(ListenItems(xs), 0, ShowMark("]", 0, Behind())))
  }

  // ----- what the scan finds in it

  /** No key from here on holds a slash. */
  ghost predicate PlainText(text: string) { forall open: seq<Frame> :: Survey(text, open).plain }

  lemma MarkPlain(c: char, rest: string)
    requires Punctuation(c) && PlainText(rest)
    ensures PlainText([c] + rest)
  {
    hide NextToken, Survey, ColonNext;
    PunctuationToken(c, rest);
    forall open: seq<Frame> ensures Survey([c] + rest, open).plain { SurveyOnce([c] + rest, open); }
  }

  lemma KeyedPlain(key: string, rest: string)
    requires Quotable(key) && '/' !in key && PlainText(rest)
    ensures PlainText(JsonNested.Keyed(key, rest))
  {
    hide NextToken, Survey, ColonNext, Quotable;
    var tail := [':'] + rest;
    QuotedToken(key, tail);
    MarkPlain(':', rest);
    assert (key + ("\"" + tail))[..|key|] == key;
    forall open: seq<Frame> ensures Survey(JsonNested.Keyed(key, rest), open).plain {
      SurveyOnce(JsonNested.Keyed(key, rest), open);
    }
  }

  lemma OnePlain(c: char, rest: string)
    requires (c == '}' || c == ']') && PlainText([c] + rest)
    ensures PlainText(['1'] + ([c] + rest))
  {
    hide NextToken, Survey, Terminated;
    OneToken([c] + rest);
    PunctuationToken(c, rest);
    forall open: seq<Frame> ensures Survey(['1'] + ([c] + rest), open).plain { SurveyOnce(['1'] + ([c] + rest), open); }
  }

  lemma NothingPlain()
    ensures PlainText([])
  {
    JsonNested.LastTokens();
  }

  lemma BehindPlain()
    ensures PlainText(Behind())
  {
    hide PlainText, Quotable;
    NothingPlain();
    MarkPlain('}', []);
    MarkPlain('}', ['}'] + []);
    OnePlain('}', ['}'] + []);
    LettersQuotable("port");
    KeyedPlain("port", ['1'] + (['}'] + (['}'] + [])));
    MarkPlain(',', PORT);
    MarkPlain(']', [','] + PORT);
    MarkPlain(']', [']'] + ([','] + PORT));
    MarkPlain('}', [']'] + ([']'] + ([','] + PORT)));
    OnePlain('}', [']'] + ([']'] + ([','] + PORT)));
    LettersQuotable("listen");
    KeyedPlain("listen", ['1'] + (['}'] + ([']'] + ([']'] + ([','] + PORT)))));
    MarkPlain('{', INNER);
    MarkPlain('[', ['{'] + INNER);
    MarkPlain('[', ['['] + (['{'] + INNER));
    LettersQuotable("y");
    KeyedPlain("y", ['['] + (['['] + (['{'] + INNER)));
    MarkPlain('{', JsonNested.Keyed("y", ['['] + (['['] + (['{'] + INNER))));
    LettersQuotable("xxxxxx");
    KeyedPlain("xxxxxx", OBJECT);
    MarkPlain(',', JsonNested.Keyed("xxxxxx", OBJECT));
  }

  lemma KeyedRooted(key: string, rest: string, open: seq<Frame>)
    requires Quotable(key)
    ensures Survey(JsonNested.Keyed(key, rest), [Brace] + open).rooted == Survey(rest, [Brace] + open).rooted
  {
    hide NextToken, Survey, ColonNext, Quotable;
    var tail := [':'] + rest;
    QuotedToken(key, tail);
    PunctuationToken(':', rest);
    SurveyOnce(JsonNested.Keyed(key, rest), [Brace] + open);
    SurveyOnce(tail, [Brace] + open);
    JsonLayout.MarkedFrame(Brace, open);
  }

  /** The inner array comes first in the array around it. */
  lemma EarlyFound(open: seq<Frame>)
    ensures !Survey(['['] + (['['] + (['{'] + INNER)), [Brace] + open).rooted
  {
    hide NextToken, Survey;
    PunctuationToken('[', ['['] + (['{'] + INNER));
    PunctuationToken('[', ['{'] + INNER);
    SurveyOnce(['['] + (['['] + (['{'] + INNER)), [Brace] + open);
    JsonLayout.MarkedFrame(Brace, open);
    SurveyOnce(['['] + (['{'] + INNER), [Bracket(false, false)] + ([Brace] + open));
  }

  lemma BehindRooted(open: seq<Frame>)
    ensures !Survey(Behind(), [Brace] + open).rooted
  {
    hide NextToken, Survey, Quotable;
    var outer, y := JsonNested.Keyed("xxxxxx", OBJECT), JsonNested.Keyed("y", ['['] + (['['] + (['{'] + INNER)));
    PunctuationToken(',', outer);
    SurveyOnce([','] + outer, [Brace] + open);
    LettersQuotable("xxxxxx");
    LettersQuotable("y");
    KeyedRooted("xxxxxx", OBJECT, open);
    PunctuationToken('{', y);
    SurveyOnce(['{'] + y, [Brace] + open);
    KeyedRooted("y", ['['] + (['['] + (['{'] + INNER)), [Brace] + open);
    EarlyFound([Brace] + open);
  }

  /** An early array, and no slash in a key. */
  lemma EarlyShape(xs: seq<Listen>)
    requires forall x :: x in xs ==> ListenFits(x)
    ensures PlainKeys(EarlyText(xs)) && !NoEarlyArray(EarlyText(xs))
  {
    hide NextToken, Survey, Quotable, ListenItems, ListenFits, ShowItems, ShowMark, PrintableItems, JsonLayout.PlainItems, Closes,
      Behind, ColonNext;
    var closing := ShowMark("]", 0, Behind());
    var shown := ShowItems(ListenItems(xs), 0, closing);
    var frame := Bracket(false, false);
    ListenItemsSound(xs);
    MarkCloses("]", 0, Behind());
    JsonLayout.ItemsSurvey(ListenItems(xs), 0, closing, Behind(), frame, [Brace]);
    BehindPlain();
    BehindRooted([]);
    assert [Brace] + [] == [Brace] && Survey(Behind(), [Brace]).plain;
    PunctuationToken('[', shown);
    SurveyOnce(['['] + shown, [Brace]);
    assert Survey(['['] + shown, [Brace]) == Survey(shown, [frame] + [Brace]);
    LettersQuotable("listen");
    KeyedSurvey("listen", ['['] + shown);
    PunctuationToken('{', JsonNested.Keyed("listen", ['['] + shown));
    SurveyOnce(EarlyText(xs), []);
  }

  lemma KeyedSurvey(key: string, rest: string)
    requires Quotable(key) && '/' !in key
    ensures Survey(JsonNested.Keyed(key, rest), [Brace]) == Survey(rest, [Brace])
  {
    hide NextToken, Survey, Quotable;
    var tail := [':'] + rest;
    QuotedToken(key, tail);
    PunctuationToken(':', rest);
    assert (key + ("\"" + tail))[..|key|] == key;
    SurveyOnce(JsonNested.Keyed(key, rest), [Brace]);
    SurveyOnce(tail, [Brace]);
  }

  // ----- the early array

  /** A piece of text was read without an error, up to `rest`, and the configuration is as it was. */
  predicate Through(st: State<Loading>, rest: string, o: Outcome<Loading>) {
    o.ret == 0 && o.st.rest == rest && |o.st.jpath| == |st.jpath| == 1025 && o.st.user == st.user
  }

  lemma ListenLeaf(l: Loading, e: Event)
    requires e.kind == Leaf && e.path == "/listen"
    ensures OnNode(l, e) == (l, 0)
  {
    assert FieldPath(Listens) == "/listen";
    Known(Listens);
    hide Classify;
  }

  lemma OneToken(rest: string)
    requires Terminated(rest)
    ensures NextToken(['1'] + rest) == Token(Tag.Text, ['1'] + rest, 1, NUL, rest)
  {
    assert Bare("1") && "1" + rest == ['1'] + rest;
    BareToken("1", rest);
  }

  /** The innermost member puts its name at the start of the path buffer. */
  lemma InnerMember(st: State<Loading>)
    requires st.rest == INNER && |st.jpath| == 1025
    ensures var o := Members(st, 0, true, OnNode);
      Through(st, [']'] + ([']'] + ([','] + PORT)), o) && o.st.jpath[..7] == "/listen"
  {
    hide NextToken, Quotable, OnNode, MemberValue;
    var after := [']'] + ([']'] + ([','] + PORT));
    LettersQuotable("listen");
    JsonNested.KeyThenColon("listen", ['1'] + (['}'] + after), st, 0, true, OnNode);
    InnerValue(st.(rest := ['1'] + (['}'] + after)), after);
  }

  lemma InnerValue(st: State<Loading>, after: string)
    requires st.rest == ['1'] + (['}'] + after) && |st.jpath| == 1025
    ensures var o := MemberValue(st, 0, "listen", OnNode); Through(st, after, o) && o.st.jpath[..7] == "/listen"
  {
    hide NextToken, OnNode, Append, Extend;
    AppendExtends(st.jpath, 0, "listen");
    FirstPath(st.jpath, "listen");
    OneToken(['}'] + after);
    PunctuationToken('}', after);
    var (buf, m) := Append(st.jpath, 0, "listen");
    ListenLeaf(st.user, LeafEvent(buf[..m], "listen", st.rest, 1));
  }

  lemma FirstPath(jpath: string, name: string)
    requires |jpath| == 1025 && |name| == 6
    ensures Append(jpath, 0, name).1 == 7 && Extend(jpath[..0], name, 1025) == "/" + name
  {
    assert jpath[..0] + "/" + name == "/" + name;
  }

  lemma FireUnknown(st: State<Loading>, e: Event)
    requires Classify(e.path) == Unknown && (e.kind == EnterBranch || e.kind == LeaveBranch)
    ensures Fire(st, e, OnNode) == Outcome(st, 0)
  {
    hide Classify;
    UnknownBranch(st.user, e);
  }

  /** The items of the inner array, which is visited at the empty path. */
  lemma InnerItems(st: State<Loading>)
    requires st.rest == ['{'] + INNER && |st.jpath| == 1025
    ensures var o := Items(st, 0, true, 0, OnNode); Through(st, [']'] + ([','] + PORT), o) && o.st.jpath[..7] == "/listen"
  {
    hide NextToken, OnNode, Classify, Members, Fire;
    PunctuationToken('{', INNER);
    var here := st.(rest := INNER);
    EmptyPathUnknown();
    assert st.jpath[..0] == [];
    FireUnknown(here, Branch(EnterBranch, [], "["));
    InnerMember(here);
    var inner := Members(here, 0, true, OnNode);
    assert inner.st.jpath[..0] == [];
    FireUnknown(inner.st, Branch(LeaveBranch, [], "["));
    PunctuationToken(']', [']'] + ([','] + PORT));
    assert AfterItem(inner.st, 0, 0, OnNode) == inner.(st := inner.st.(rest := [']'] + ([','] + PORT)));
  }

  /** The items of the array around it, whose path has nine bytes. */
  lemma OuterItems(st: State<Loading>)
    requires st.rest == ['['] + (['{'] + INNER) && |st.jpath| == 1025
    ensures var o := Items(st, 9, true, 0, OnNode); Through(st, [','] + PORT, o) && o.st.jpath[..7] == "/listen"
  {
    hide NextToken, OnNode, Items, Fire, Append;
    ItemsOpen(st);
    PunctuationToken(']', [','] + PORT);
    var here := st.(rest := ['{'] + INNER, seen := Misplaced(st.seen, 9, 0));
    FireArray(here, Branch(EnterArray, here.jpath[..0], "["));
    InnerItems(here);
    var inner := Items(here, 0, true, 0, OnNode);
    FireArray(inner.st, Branch(LeaveArray, inner.st.jpath[..0], "["));
    JsonPath.AppendKeeps(inner.st.jpath, 9, "[");
    var (buf, k) := Append(inner.st.jpath, 9, "[");
    JsonPath.Shorter(buf, inner.st.jpath, 7, 9);
    var left := inner.st.(jpath := buf);
    assert AfterItem(left, 9, k, OnNode) == Outcome(left.(rest := [','] + PORT), 0);
  }

  lemma ItemsOpen(st: State<Loading>)
    requires st.rest == ['['] + (['{'] + INNER) && |st.jpath| == 1025
    ensures Items(st, 9, true, 0, OnNode)
      == ItemArray(st.(rest := ['{'] + INNER, seen := Misplaced(st.seen, 9, 0)), 9, 0, OnNode)
  {
    hide NextToken, ItemArray, OnNode;
    PunctuationToken('[', ['{'] + INNER);
  }

  /** The member "y"; afterwards the path of the object around it is "/listen". */
  lemma YValue(st: State<Loading>)
    requires st.rest == ['['] + (['['] + (['{'] + INNER)) && |st.jpath| == 1025
    ensures exists after: State<Loading> ::
      && after.rest == PORT && |after.jpath| == 1025 && after.jpath[..7] == "/listen" && after.user == st.user
      && MemberValue(st, 7, "y", OnNode) == Members(after, 7, false, OnNode)
  {
    hide NextToken, OnNode, Items, Fire, Append, Members;
    YOpens(st);
    AppendExtends(st.jpath, 7, "y");
    YLength(st.jpath);
    var here := Named(st, 7, "y").(rest := ['['] + (['{'] + INNER));
    FireArray(here, Branch(EnterArray, here.jpath[..9], "["));
    OuterItems(here);
    var inner := Items(here, 9, true, 0, OnNode);
    FireArray(inner.st, Branch(LeaveArray, inner.st.jpath[..9], "["));
    JsonPath.AppendKeeps(inner.st.jpath, 7, "[");
    var left := inner.st.(jpath := Append(inner.st.jpath, 7, "[").0);
    PunctuationToken(',', PORT);
    assert AfterMember(left, 7, OnNode) == Members(left.(rest := PORT), 7, false, OnNode);
    assert MemberArray(here, 7, 9, OnNode) == AfterMember(left, 7, OnNode);
  }

  lemma YLength(jpath: string)
    requires |jpath| == 1025
    ensures Append(jpath, 7, "y").1 == 9
  {
  }

  lemma YOpens(st: State<Loading>)
    requires st.rest == ['['] + (['['] + (['{'] + INNER)) && |st.jpath| == 1025
    ensures MemberValue(st, 7, "y", OnNode)
      == MemberArray(Named(st, 7, "y").(rest := ['['] + (['{'] + INNER)), 7, Append(st.jpath, 7, "y").1, OnNode)
  {
    hide NextToken, MemberArray, OnNode, Append;
    PunctuationToken('[', ['['] + (['{'] + INNER));
  }

  // ----- the member behind it

  /** What is assigned when `port` is read at the path "/listen". */
  function Ported(l: Loading): Loading {
    if ListenRoom(l.conf) then l.(conf := PutInt(l.conf, ListenPort, 1)) else l.(wild := true)
  }

  lemma PortLeaf(l: Loading, e: Event)
    requires e.kind == Leaf && e.path == FieldPath(ListenPort) && e.content + e.beyond == "1}}"
    ensures OnNode(l, e) == (Ported(l), 0)
  {
    Known(ListenPort);
    assert Convert("1}}", 10) == 1 by {
      assert Decimal(1) == "1" && "1" + "}}" == "1}}";
      AtoiDecimal(1, "}}");
    }
    hide Classify, FieldPath, Convert;
  }

  lemma PortPath()
    ensures Extend("/listen", "port", 1025) == FieldPath(ListenPort)
  {
  }

  lemma PortMember(st: State<Loading>)
    requires st.rest == PORT && |st.jpath| == 1025 && st.jpath[..7] == "/listen"
    ensures var o := Members(st, 7, false, OnNode);
      o.ret == 0 && o.st.rest == ['}'] + [] && |o.st.jpath| == 1025 && o.st.user == Ported(st.user)
  {
    hide NextToken, OnNode, MemberValue, Quotable;
    var after := ['}'] + (['}'] + []);
    LettersQuotable("port");
    JsonNested.KeyThenColon("port", ['1'] + after, st, 7, false, OnNode);
    PortValue(st.(rest := ['1'] + after), after);
  }

  lemma PortValue(st: State<Loading>, after: string)
    requires after == ['}'] + (['}'] + []) && st.rest == ['1'] + after && |st.jpath| == 1025 && st.jpath[..7] == "/listen"
    ensures var o := MemberValue(st, 7, "port", OnNode);
      o.ret == 0 && o.st.rest == ['}'] + [] && |o.st.jpath| == 1025 && o.st.user == Ported(st.user)
  {
    hide NextToken, OnNode, Append, Extend;
    AppendExtends(st.jpath, 7, "port");
    PortPath();
    OneToken(after);
    PunctuationToken('}', ['}'] + []);
    var (buf, m) := Append(st.jpath, 7, "port");
    var e := LeafEvent(buf[..m], "port", st.rest, 1);
    assert e.content + e.beyond == "1}}";
    PortLeaf(st.user, e);
  }

  /** The value of the member "xxxxxx", to the end of the text. */
  lemma ObjectValue(st: State<Loading>)
    requires st.rest == OBJECT && |st.jpath| == 1025
    ensures var o := MemberValue(st, 0, "xxxxxx", OnNode);
      o.ret == 0 && o.st.rest == [] && |o.st.jpath| == 1025 && o.st.user == Ported(st.user)
  {
    hide NextToken, OnNode, Append, Members, Fire, Extend, Classify, Quotable;
    AppendExtends(st.jpath, 0, "xxxxxx");
    FirstPath(st.jpath, "xxxxxx");
    SevenUnknown();
    var inside := JsonNested.Keyed("y", ['['] + (['['] + (['{'] + INNER)));
    ObjectOpens(st, 0, "xxxxxx", inside, OnNode);
    var here := Named(st, 0, "xxxxxx").(rest := inside);
    FireUnknown(here, Branch(EnterBranch, here.jpath[..7], "xxxxxx"));
    InsideObject(here);
    var inner := Members(here, 7, true, OnNode);
    AppendExtends(inner.st.jpath, 0, "xxxxxx");
    FirstPath(inner.st.jpath, "xxxxxx");
    var (buf, k) := Append(inner.st.jpath, 0, "xxxxxx");
    var left := inner.st.(jpath := buf);
    FireUnknown(left, Branch(LeaveBranch, buf[..7], "xxxxxx"));
    PunctuationToken('}', []);
    assert AfterMember(left, 0, OnNode) == Outcome(left.(rest := []), 0);
    assert MemberObject(here, 0, 7, "xxxxxx", OnNode) == AfterMember(left, 0, OnNode);
  }

  lemma SevenUnknown()
    ensures Classify("/" + "xxxxxx") == Unknown
  {
    hide Classify, FieldPath;
    var path := "/" + "xxxxxx";
    ClassifiedPath(path);
    var f := Classify(path);
    if f != Unknown { NoX(f); }
  }

  lemma NoX(f: Field)
    requires f != Unknown
    ensures |FieldPath(f)| > 1 && FieldPath(f)[1] != 'x'
  {
  }

  lemma ObjectOpens<S>(st: State<S>, n: nat, name: string, inside: string, cb: Callback<S>)
    requires n < |st.jpath| && st.rest == ['{'] + inside
    ensures MemberValue(st, n, name, cb)
      == MemberObject(Named(st, n, name).(rest := inside), n, Append(st.jpath, n, name).1, name, cb)
  {
    hide NextToken, MemberObject, Append;
    PunctuationToken('{', inside);
  }

  lemma InsideObject(st: State<Loading>)
    requires st.rest == JsonNested.Keyed("y", ['['] + (['['] + (['{'] + INNER))) && |st.jpath| == 1025
    ensures var o := Members(st, 7, true, OnNode);
      o.ret == 0 && o.st.rest == ['}'] + [] && |o.st.jpath| == 1025 && o.st.user == Ported(st.user)
  {
    hide NextToken, OnNode, Members, MemberValue, Quotable;
    var value := ['['] + (['['] + (['{'] + INNER));
    LettersQuotable("y");
    JsonNested.KeyThenColon("y", value, st, 7, true, OnNode);
    YValue(st.(rest := value));
    var after: State<Loading> :| after.rest == PORT && |after.jpath| == 1025 && after.jpath[..7] == "/listen" && after.user == st.user
      && MemberValue(st.(rest := value), 7, "y", OnNode) == Members(after, 7, false, OnNode);
    PortMember(after);
  }

  // ----- the whole document

  lemma BehindList(st: State<Loading>)
    requires st.rest == Behind() && |st.jpath| == 1025
    ensures var o := AfterMember(st, 0, OnNode);
      o.ret == 0 && o.st.rest == [] && |o.st.jpath| == 1025 && o.st.user == Ported(st.user)
  {
    hide NextToken, OnNode, Members, MemberValue, Quotable;
    PunctuationToken(',', JsonNested.Keyed("xxxxxx", OBJECT));
    LettersQuotable("xxxxxx");
    var here := st.(rest := JsonNested.Keyed("xxxxxx", OBJECT));
    JsonNested.KeyThenColon("xxxxxx", OBJECT, here, 0, false, OnNode);
    ObjectValue(here.(rest := OBJECT));
  }

  /** The list of listen entries, and what follows it. */
  lemma ListThen(st: State<Loading>, xs: seq<Listen>)
    requires (forall x :: x in xs ==> ListenFits(x)) && |xs| <= 16 && |st.jpath| == 1025 && st.user == Loading(ZERO_CONF, false)
    requires st.rest == ['['] + ShowItems(ListenItems(xs), 0, ShowMark("]", 0, Behind()))
    ensures var o := MemberValue(st, 0, "listen", OnNode);
      && o.ret == 0 && o.st.rest == []
      && o.st.user == Ported(Loading(WithListens(ZERO_CONF, NormalListens(xs)), false))
  {
    hide NextToken, OnNode, Items, AfterMember, Append, Fire, Extend, Run, ItemEvents, ShowItems, ShowMark, PrintableItems, Strict,
      ListenItems, ListenFits, NormalListens, Behind, ConfSafety.PathOf, Reads, Closes;
    var closing := ShowMark("]", 0, Behind());
    var shown := ShowItems(ListenItems(xs), 0, closing);
    PunctuationToken('[', shown);
    FirstPath(st.jpath, "listen");
    var here := Named(st, 0, "listen").(rest := shown);
    ConfSlash.TopExtends();
    assert st.jpath[..0] == [];
    MarkCloses("]", 0, Behind());
    ListenItemsSound(xs);
    ConfRuns.OnNodeStrict();
    FireArray(here, Branch(EnterArray, here.jpath[..7], "["));
    ItemsRead(here, 7, true, 0, ListenItems(xs), 0, closing, Behind(), OnNode);
    ConfSlash.ListensRun(xs, 0, closing);
    var inner := Items(here, 7, true, 0, OnNode);
    ReadsOut(here, 7, ItemEvents(ListenItems(xs), here.jpath[..7], 1025, 0, closing), Behind(), inner, OnNode);
    FireArray(inner.st, Branch(LeaveArray, inner.st.jpath[..7], "["));
    assert [] + NormalListens(xs) == NormalListens(xs);
    BehindList(inner.st.(jpath := Append(inner.st.jpath, 0, "[").0));
  }

  lemma ReadsOut(st: State<Loading>, n: nat, calls: seq<Event>, rest: string, o: Outcome<Loading>, cb: Callback<Loading>)
    requires n < |st.jpath| && Reads(st, n, calls, rest, o, cb)
    ensures (o.st.user, o.ret) == Run(calls, st.user, cb)
    ensures o.ret == 0 ==> o.st.rest == rest && |o.st.jpath| == |st.jpath|
  {
  }

  /** Reading such a document, none of whose keys holds a slash, addresses the element behind the
      array exactly when the list is full; otherwise it assigns to a listen entry that was never entered. */
  lemma EarlyDocument(xs: seq<Listen>)
    requires (forall x :: x in xs ==> ListenFits(x)) && |xs| <= 16
    ensures PlainKeys(EarlyText(xs)) && !NoEarlyArray(EarlyText(xs))
    ensures var o := Load(EarlyText(xs));
      && o.ret == 0 && (o.st.user.wild <==> |xs| == 16)
      && (|xs| < 16 ==> o.st.user.conf.listens == NormalListens(xs) && o.st.user.conf.listen == ZERO_LISTEN.(port := 1))
  {
    hide *;
    EarlyShape(xs);
    EarlyLoad(xs);
    EarlyResult(xs);
  }

  lemma EarlyLoad(xs: seq<Listen>)
    requires (forall x :: x in xs ==> ListenFits(x)) && |xs| <= 16
    ensures var o := Load(EarlyText(xs));
      o.ret == 0 && o.st.user == Ported(Loading(WithListens(ZERO_CONF, NormalListens(xs)), false))
  {
    var st := State(EarlyText(xs), seq(1025, _ => NUL), Loading(ZERO_CONF, false), NOTHING);
    var o := DocumentSteps(st, xs);
    hide OnNode, Document, ListenFits, NormalListens, EarlyText, Ported, WithListens;
  }

  lemma EarlyResult(xs: seq<Listen>)
    requires |xs| <= 16
    ensures var l := Ported(Loading(WithListens(ZERO_CONF, NormalListens(xs)), false));
      && (l.wild <==> |xs| == 16)
      && (|xs| < 16 ==> l.conf.listens == NormalListens(xs) && l.conf.listen == ZERO_LISTEN.(port := 1))
  {
    hide NormalListens;
    ConfSlash.NormalListensLength(xs);
    assert [] + NormalListens(xs) == NormalListens(xs);
  }

  lemma DocumentSteps(st: State<Loading>, xs: seq<Listen>) returns (o: Outcome<Loading>)
    requires (forall x :: x in xs ==> ListenFits(x)) && |xs| <= 16 && |st.jpath| == 1025 && st.user == Loading(ZERO_CONF, false)
    requires st.rest == EarlyText(xs)
    ensures o == Document(st, OnNode)
    ensures o.ret == END_OF_TEXT && o.st.user == Ported(Loading(WithListens(ZERO_CONF, NormalListens(xs)), false))
  {
    hide NextToken, OnNode, Members, MemberValue, Quotable, Fire, Classify, ListenFits, NormalListens, ShowItems, ShowMark, WithListens,
      Ported;
    var value := ['['] + ShowItems(ListenItems(xs), 0, ShowMark("]", 0, Behind()));
    PunctuationToken('{', JsonNested.Keyed("listen", value));
    EmptyPathUnknown();
    var here := st.(rest := JsonNested.Keyed("listen", value));
    FireUnknown(here, Branch(EnterBranch, [], "{"));
    LettersQuotable("listen");
    JsonNested.KeyThenColon("listen", value, here, 0, true, OnNode);
    ListThen(here.(rest := value), xs);
    var inner := Members(here, 0, true, OnNode);
    FireUnknown(inner.st, Branch(LeaveBranch, [], "{"));
    DocumentOver(inner.st);
    o := Document(st, OnNode);
  }

  lemma DocumentOver(st: State<Loading>)
    requires st.rest == [] && 0 < |st.jpath|
    ensures Document(st, OnNode) == Outcome(st, END_OF_TEXT)
  {
    JsonNested.LastTokens();
  }
}
