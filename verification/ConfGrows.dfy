/** What no text can take away from a configuration that was there before. */
module ConfGrows {

  import opened JsonText
  import opened JsonToken
  import opened JsonTravel
  import opened JsonSurvey
  import opened JsonHold
  import opened Decimals
  import opened HetaoConf
  import opened ConfPaths
  import ConfQuiet
  import ConfLoads

  // ----- the elements that were there

  predicate ForwardGrown(x: Forward, y: Forward) { x.forward_servers <= y.forward_servers }

  predicate SiteGrown(x: Website, y: Website) {
    x.rewrites <= y.rewrites && x.redirects <= y.redirects && ForwardGrown(x.forward, y.forward)
  }

  predicate ListenGrown(x: Listen, y: Listen) {
    x.websites <= y.websites && SiteGrown(x.website, Element(y.websites, y.website, |x.websites|))
  }

  /** The element with this number, which may be the one at the counter. */
  function Element<T>(ys: seq<T>, y: T, i: nat): T
    requires i <= |ys|
  {
    (ys + [y])[i]
  }

  /** All that was counted in `a` is still there, in the same places, in `b`; so it is in the elements that were being
      filled in `a`. */
  predicate Grown(a: Conf, b: Conf) {
    && a.listens <= b.listens && a.mime_types <= b.mime_types
    && ListenGrown(a.listen, Element(b.listens, b.listen, |a.listens|))
  }

  function ForwardHere(x: Forward, y: Forward): Forward
    requires ForwardGrown(x, y)
  {
    y.(forward_servers := x.forward_servers, forward_server := Element(y.forward_servers, y.forward_server, |x.forward_servers|))
  }

  function SiteHere(x: Website, y: Website): Website
    requires SiteGrown(x, y)
  {
    y.(rewrites := x.rewrites, rewrite := Element(y.rewrites, y.rewrite, |x.rewrites|),
      redirects := x.redirects, redirect := Element(y.redirects, y.redirect, |x.redirects|),
      forward := ForwardHere(x.forward, y.forward))
  }

  function ListenHere(x: Listen, y: Listen): Listen
    requires ListenGrown(x, y)
  {
    y.(websites := x.websites, website := SiteHere(x.website, Element(y.websites, y.website, |x.websites|)))
  }

  /** The fields of `b`, and in it those of the elements that were being filled in `a`. */
  function Here(a: Conf, b: Conf): Conf
    requires Grown(a, b)
  {
    b.(listens := a.listens, listen := ListenHere(a.listen, Element(b.listens, b.listen, |a.listens|)),
      mime_types := a.mime_types, mime_type := Element(b.mime_types, b.mime_type, |a.mime_types|))
  }

  // ----- one field

  function TextIn(c: Conf, f: Field): string {
    var w := c.listen.website;
    match f
    case User => c.user
    case ListenIp => c.listen.ip
    case Domain => w.domain
    case Wwwroot => w.wwwroot
    case Pattern => w.rewrite.pattern
    case NewUri => w.rewrite.new_uri
    case RedirectDomain => w.redirect.domain
    case NewDomain => w.redirect.new_domain
    case ForwardType => w.forward.forward_type
    case ForwardRule => w.forward.forward_rule
    case ServerIp => w.forward.forward_server.ip
    case MimeKind => c.mime_type.kind
    case MimeText => c.mime_type.mime
    case _ => []
  }

  function IntIn(c: Conf, f: Field): int {
    match f
    case WorkerProcesses => c.worker_processes
    case ListenPort => c.listen.port
    case ServerPort => c.listen.website.forward.forward_server.port
    case CompressEnable => c.mime_type.compress_enable
    case _ => 0
  }

  predicate SameField(c: Conf, d: Conf, f: Field) { TextIn(c, f) == TextIn(d, f) && IntIn(c, f) == IntIn(d, f) }

  /** Assigning one field leaves the others. */
  lemma OtherText(c: Conf, f: Field, s: string, g: Field)
    requires f != g
    ensures SameField(PutText(c, f, s), c, g)
  {
  }

  lemma OtherInt(c: Conf, f: Field, n: int, g: Field)
    requires f != g
    ensures SameField(PutInt(c, f, n), c, g)
  {
  }

  // ----- one call

  /** Counting an element moves nothing. */
  lemma LeaveGrows(a: Conf, b: Conf, f: Field)
    requires Grown(a, b)
    ensures Grown(a, Leave(b, f)) && Here(a, Leave(b, f)) == Here(a, b)
  {
  }

  /** Assigning a field changes that field of the elements that were being filled, or nothing in them. */
  lemma PutTextGrows(a: Conf, b: Conf, f: Field, s: string)
    requires Grown(a, b)
    ensures Grown(a, PutText(b, f, s))
    ensures Here(a, PutText(b, f, s)) == Here(a, b) || Here(a, PutText(b, f, s)) == PutText(Here(a, b), f, s)
  {
  }

  lemma PutIntGrows(a: Conf, b: Conf, f: Field, n: int)
    requires Grown(a, b)
    ensures Grown(a, PutInt(b, f, n))
    ensures Here(a, PutInt(b, f, n)) == Here(a, b) || Here(a, PutInt(b, f, n)) == PutInt(Here(a, b), f, n)
  {
  }

  // ----- whole texts

  /** Everything that was counted is there, and so are the values of the fields with the name `k`. */
  predicate Stays(base: Conf, k: string, l: Loading) {
    Grown(base, l.conf) && forall f: Field :: f != Unknown && Around(f).1 == k ==> SameField(Here(base, l.conf), base, f)
  }

  lemma PutStays(base: Conf, k: string, l: Loading, f: Field, e: Event)
    requires Stays(base, k, l) && (f != Unknown ==> Around(f).1 != k)
    ensures Stays(base, k, l.(conf := StoreLeaf(l.conf, f, e.content, e.beyond).0))
  {
    hide Grown, Here, PutText, PutInt, SameField, Fill, Convert, Around, TextSize, IntWidth;
    var s, n := Fill(e.content, e.beyond, TextSize(f)).0, Convert(e.content + e.beyond, IntWidth(f));
    PutTextGrows(base, l.conf, f, s);
    PutIntGrows(base, l.conf, f, n);
    forall g: Field | g != Unknown && Around(g).1 == k
      ensures SameField(Here(base, PutText(l.conf, f, s)), base, g) || TextSize(f) == 0
      ensures SameField(Here(base, PutInt(l.conf, f, n)), base, g) || IntWidth(f) == 0
    {
      if f != Unknown {
        OtherText(Here(base, l.conf), f, s, g);
        OtherInt(Here(base, l.conf), f, n, g);
        SameTrans(Here(base, PutText(l.conf, f, s)), Here(base, l.conf), base, g);
        SameTrans(Here(base, PutInt(l.conf, f, n)), Here(base, l.conf), base, g);
      } else {
        NoSize();
      }
    }
  }

  lemma NoSize()
    ensures TextSize(Unknown) == 0 && IntWidth(Unknown) == 0
  {
  }

  lemma SameTrans(a: Conf, b: Conf, c: Conf, f: Field)
    ensures SameField(a, b, f) && SameField(b, c, f) ==> SameField(a, c, f)
  {
  }

  /** A leaf is stored under the last component of its name. */
  lemma LeafName(path: string, name: string, k: string)
    requires !Names(name, k)
    ensures var f := Classify(Extend(path, name, 1025)); f != Unknown ==> Around(f).1 != k
  {
    hide Classify, FieldPath, SpotPath, Around, Names;
    var p := Extend(path, name, 1025);
    ClassifiedPath(p);
    var f := Classify(p);
    if f != Unknown {
      if |path| + 1 + |name| < 1023 {
        AroundPath(f);
        AroundName(f);
        LastName(path, name, SpotPath(Around(f).0), Around(f).1);
      } else if |path| + 2 <= 1024 {
        ConfQuiet.ShortDead(p);
        DeadBarren(p);
      } else {
        ConfQuiet.LongDead(p);
        DeadBarren(p);
      }
    }
  }

  lemma LastName(path: string, name: string, q: string, k: string)
    requires path + "/" + name == q + ("/" + k) && '/' !in k
    ensures Names(name, k)
  {
    var a := q + ("/" + k);
    LastSlash(q, k);
    assert a[|path|] == '/' && a[|path| + 1..] == name;
    assert |path| <= |q|;
    assert a[|q|..] == "/" + k;
    if |path| < |q| { assert name[|q| - |path| - 1..] == a[|q|..]; }
  }

  lemma NodeStays(base: Conf, k: string, l: Loading, e: Event, name: string, path: string)
    requires Stays(base, k, l) && Elsewhere(e, name, path, k, 1025)
    ensures Stays(base, k, OnNode(l, e).0)
  {
    hide Stays, Classify, Extend, Leave, StoreLeaf, Around, Reachable, Names, IsFull;
    var f := Classify(e.path);
    LeaveStays(base, k, l, f);
    WildStays(base, k, l);
    if e.kind == Leaf {
      LeafName(path, name, k);
      PutStays(base, k, l, f, e);
    }
  }

  lemma LeaveStays(base: Conf, k: string, l: Loading, f: Field)
    requires Stays(base, k, l)
    ensures Stays(base, k, l.(conf := Leave(l.conf, f)))
  {
    hide Grown, Here, SameField, Around, Leave;
    LeaveGrows(base, l.conf, f);
  }

  lemma WildStays(base: Conf, k: string, l: Loading)
    requires Stays(base, k, l)
    ensures Stays(base, k, l.(wild := true))
  {
    hide Grown, Here, SameField, Around;
  }

  lemma StaysAtFirst(base: Conf, k: string)
    ensures Stays(base, k, Loading(base, false))
  {
  }

  lemma LoadStays(text: string, base: Conf, k: string)
    requires KeyFree(text, k) && k != "."
    ensures Stays(base, k, LoadInto(text, base).st.user)
  {
    hide Stays, OnNode, KeyFree, Elsewhere;
    var inv := l => Stays(base, k, l);
    StaysAtFirst(base, k);
    assert Stable(inv, OnNode, k, 1025) by {
      forall l: Loading, e: Event, name: string, path: string | inv(l) && Elsewhere(e, name, path, k, 1025) ensures inv(OnNode(l, e).0) {
        NodeStays(base, k, l, e, name, path);
      }
    }
    TravelHolds(text, seq(1025, _ => NUL), Loading(base, false), OnNode, inv, k);
  }

  /** Whatever the text, well-formed or not: a field whose key does not occur in it keeps its value, in the
      element that was being filled. */
  lemma FieldStays(text: string, base: Conf, f: Field)
    requires f != Unknown && KeyFree(text, Around(f).1)
    ensures var conf := LoadInto(text, base).st.user.conf; Grown(base, conf) && SameField(Here(base, conf), base, f)
  {
    AroundSafe(f);
    LoadStays(text, base, Around(f).1);
    hide LoadInto, KeyFree, SameField, Here, Grown, Around;
  }

  lemma AroundSafe(f: Field)
    requires f != Unknown
    ensures Around(f).1 != "."
  {
  }

  lemma TokenShort(text: string)
    ensures var t := NextToken(text); t.Token? && t.tag == Text ==> t.len <= |text|
  {
    hide Skip, Quoted, UnquotedFrom;
    var s := Skip(text);
    assert |s| <= |text|;
  }

  lemma {:induction false} LongKeyFree(text: string, k: string)
    requires |k| > |text|
    ensures KeyFree(text, k)
    decreases |text|
  {
    hide NextToken, ColonNext;
    TokenShort(text);
    var t := NextToken(text);
    if t.Token? { LongKeyFree(t.rest, k); }
  }

  /** Whatever the text: the elements that were counted stay, in front of those that are read. */
  lemma NothingLost(text: string, base: Conf)
    ensures Grown(base, LoadInto(text, base).st.user.conf)
  {
    var k := seq(|text| + 2, _ => 'x');
    LongKeyFree(text, k);
    LoadStays(text, base, k);
    hide LoadInto, KeyFree, Grown;
  }

  /** An empty object, and an empty text, change nothing. */
  lemma EmptyObject(base: Conf)
    ensures LoadInto("{}", base).ret == 0 && LoadInto("{}", base).st.user == Loading(base, false)
    ensures LoadInto("", base).ret == 0 && LoadInto("", base).st.user == Loading(base, false)
  {
    var l, jpath := Loading(base, false), seq(1025, _ => NUL);
    assert "{}" == ['{'] + ("}" + []) && "}" == ['}'] + [] && "}" + [] == "}";
    PunctuationToken('{', "}");
    PunctuationToken('}', []);
    assert NextToken([]) == End;
    ConfLoads.EmptyPathUnknown();
    ConfLoads.UnknownBranch(l, Branch(EnterBranch, [], "{"));
    ConfLoads.UnknownBranch(l, Branch(LeaveBranch, [], "{"));
    hide NextToken, OnNode, Classify;
    var st := State("}", jpath, l, NOTHING);
    assert Members(st, 0, true, OnNode) == Outcome(st.(rest := []), 0);
    assert Document(st.(rest := []), OnNode) == Outcome(st.(rest := []), END_OF_TEXT);
  }
}
