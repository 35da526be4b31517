/** Reading back a printed configuration: the whole document, and when exactly nothing is lost. */
module ConfExact {

  import opened JsonToken
  import opened JsonPrint
  import opened JsonLayout
  import opened Decimals
  import opened HetaoConf
  import opened ConfMeaning
  import opened ConfLoads
  import opened ConfForms
  import opened ConfRoundTrip
  import ConfSafety

  // ----- the tree of a configuration is sound

  predicate Letter(c: char) { 'a' <= c <= 'z' || c == '_' || c == '/' }

  predicate Letters(s: string) { forall i :: 0 <= i < |s| ==> Letter(s[i]) }

  lemma {:induction false} LettersQuotable(s: string)
    requires Letters(s)
    ensures Quotable(s)
  {
    if s != [] {
      assert Letter(s[0]);
      assert forall i :: 0 <= i < |s[1..]| ==> s[1..][i] == s[i + 1];
      LettersQuotable(s[1..]);
    }
  }

  predicate Key(key: string) { Quotable(key) && Plain(key) }

  lemma TopKeysQuotable()
    ensures Key("worker_processes") && Key("user") && Key("listen") && Key("mime_types")
  {
    hide Quotable;
    LettersQuotable("worker_processes");
    LettersQuotable("user");
    LettersQuotable("listen");
    LettersQuotable("mime_types");
  }

  lemma MimeKeysQuotable()
    ensures Key("mime_type") && Key("type") && Key("mime") && Key("compress_enable")
  {
    hide Quotable;
    LettersQuotable("mime_type");
    LettersQuotable("type");
    LettersQuotable("mime");
    LettersQuotable("compress_enable");
  }

  lemma KeysQuotable()
    ensures Key("worker_processes") && Key("user") && Key("listen") && Key("mime_types")
    ensures Key("mime_type") && Key("type") && Key("mime") && Key("compress_enable")
  {
    hide Key;
    TopKeysQuotable();
    MimeKeysQuotable();
  }

  lemma ListenKeysQuotable()
    ensures Key("ip") && Key("port") && Key("website")
  {
    hide Quotable;
    LettersQuotable("ip");
    LettersQuotable("port");
    LettersQuotable("website");
  }

  lemma WebsiteKeysQuotable()
    ensures Key("domain") && Key("wwwroot") && Key("rewrite") && Key("redirect") && Key("forward")
  {
    hide Quotable;
    LettersQuotable("domain");
    LettersQuotable("wwwroot");
    LettersQuotable("rewrite");
    LettersQuotable("redirect");
    LettersQuotable("forward");
  }

  lemma RewriteKeysQuotable()
    ensures Key("pattern") && Key("new_uri") && Key("domain") && Key("new_domain")
  {
    hide Quotable;
    LettersQuotable("pattern");
    LettersQuotable("new_uri");
    LettersQuotable("domain");
    LettersQuotable("new_domain");
  }

  lemma ForwardKeysQuotable()
    ensures Key("forward_type") && Key("forward_rule") && Key("forward_server")
  {
    hide Quotable;
    LettersQuotable("forward_type");
    LettersQuotable("forward_rule");
    LettersQuotable("forward_server");
  }

  lemma ElementKeysQuotable()
    ensures Key("pattern") && Key("new_uri") && Key("domain") && Key("new_domain")
    ensures Key("forward_type") && Key("forward_rule") && Key("forward_server")
  {
    hide Key;
    RewriteKeysQuotable();
    ForwardKeysQuotable();
  }

  lemma TextSound(s: string)
    ensures PrintableScalar(TextOf(s)) && Settled(TextOf(s))
  {
    EscapeQuotable(s);
    EscapeWhole(s);
  }

  lemma IntSound(n: int)
    ensures PrintableScalar(IntOf(n)) && Settled(IntOf(n))
  {
    var s := Decimal(n);
    forall i | 0 <= i < |s| ensures BareByte(s[i]) {
      assert IsDigit(s[i]) || s[i] == '-' by {
        if n < 0 && i > 0 { assert s[i] == Unsigned(-n)[i - 1]; }
      }
    }
    assert n >= 0 ==> IsDigit(s[0]);
  }

  /** Members are printable when their parts are. */
  lemma TextThen(key: string, s: string, more: MemberList)
    requires Key(key) && Sound(more)
    ensures Sound(ScalarMember(key, TextOf(s), more))
  {
    TextSound(s);
    hide Quotable, Plain, Settled, PrintableScalar, TextOf;
  }

  lemma IntThen(key: string, n: int, more: MemberList)
    requires Key(key) && Sound(more)
    ensures Sound(ScalarMember(key, IntOf(n), more))
  {
    IntSound(n);
    hide Quotable, Plain, Settled, PrintableScalar, IntOf;
  }

  lemma ItemsThen(key: string, items: ItemList, more: MemberList)
    requires Key(key) && SoundItems(items) && Sound(more)
    ensures Sound(ArrayMember(key, items, more))
  {
  }

  lemma MembersThen(key: string, ms: MemberList, more: MemberList)
    requires Key(key) && Sound(ms) && Sound(more)
    ensures Sound(ObjectMember(key, ms, more))
  {
  }

  lemma Nothing()
    ensures Sound(NoMember) && SoundItems(NoItem)
  {
  }

  lemma ItemThen(ms: MemberList, more: ItemList)
    requires Sound(ms) && SoundItems(more)
    ensures SoundItems(ObjectItem(ms, more))
  {
  }

  lemma RewriteSound(x: Rewrite)
    ensures Sound(RewriteMembers(x))
  {
    hide Key, Sound, SoundItems, TextOf, IntOf;
    ElementKeysQuotable();
    Nothing();
    var new_uri := ScalarMember("new_uri", TextOf(x.new_uri), NoMember);
    TextThen("new_uri", x.new_uri, NoMember);
    TextThen("pattern", x.pattern, new_uri);
  }

  lemma {:induction false} RewriteItemsSound(xs: seq<Rewrite>)
    ensures SoundItems(RewriteItems(xs))
  {
    hide Sound, SoundItems, RewriteMembers;
    Nothing();
    if xs != [] {
      RewriteSound(xs[0]);
      RewriteItemsSound(xs[1..]);
      ItemThen(RewriteMembers(xs[0]), RewriteItems(xs[1..]));
    }
  }

  lemma RedirectSound(x: Redirect)
    ensures Sound(RedirectMembers(x))
  {
    hide Key, Sound, SoundItems, TextOf, IntOf;
    ElementKeysQuotable();
    Nothing();
    var new_domain := ScalarMember("new_domain", TextOf(x.new_domain), NoMember);
    TextThen("new_domain", x.new_domain, NoMember);
    TextThen("domain", x.domain, new_domain);
  }

  lemma {:induction false} RedirectItemsSound(xs: seq<Redirect>)
    ensures SoundItems(RedirectItems(xs))
  {
    hide Sound, SoundItems, RedirectMembers;
    Nothing();
    if xs != [] {
      RedirectSound(xs[0]);
      RedirectItemsSound(xs[1..]);
      ItemThen(RedirectMembers(xs[0]), RedirectItems(xs[1..]));
    }
  }

  lemma ServerSound(x: Server)
    ensures Sound(ServerMembers(x))
  {
    hide Key, Sound, SoundItems, TextOf, IntOf;
    ListenKeysQuotable();
    Nothing();
    var port := ScalarMember("port", IntOf(x.port), NoMember);
    IntThen("port", x.port, NoMember);
    TextThen("ip", x.ip, port);
  }

  lemma {:induction false} ServerItemsSound(xs: seq<Server>)
    ensures SoundItems(ServerItems(xs))
  {
    hide Sound, SoundItems, ServerMembers;
    Nothing();
    if xs != [] {
      ServerSound(xs[0]);
      ServerItemsSound(xs[1..]);
      ItemThen(ServerMembers(xs[0]), ServerItems(xs[1..]));
    }
  }

  lemma ForwardSound(x: Forward)
    ensures Sound(ForwardMembers(x))
  {
    hide Key, Sound, SoundItems, TextOf, IntOf;
    ElementKeysQuotable();
    Nothing();
    ServerItemsSound(x.forward_servers);
    var servers := ArrayMember("forward_server", ServerItems(x.forward_servers), NoMember);
    ItemsThen("forward_server", ServerItems(x.forward_servers), NoMember);
    var rule := ScalarMember("forward_rule", TextOf(x.forward_rule), servers);
    TextThen("forward_rule", x.forward_rule, servers);
    TextThen("forward_type", x.forward_type, rule);
  }

  lemma WebsiteSound(x: Website)
    ensures Sound(WebsiteMembers(x))
  {
    hide Key, Sound, SoundItems, TextOf, IntOf;
    WebsiteKeysQuotable();
    Nothing();
    ForwardSound(x.forward);
    RedirectItemsSound(x.redirects);
    RewriteItemsSound(x.rewrites);
    var forward := ObjectMember("forward", ForwardMembers(x.forward), NoMember);
    MembersThen("forward", ForwardMembers(x.forward), NoMember);
    var redirects := ArrayMember("redirect", RedirectItems(x.redirects), forward);
    ItemsThen("redirect", RedirectItems(x.redirects), forward);
    var rewrites := ArrayMember("rewrite", RewriteItems(x.rewrites), redirects);
    ItemsThen("rewrite", RewriteItems(x.rewrites), redirects);
    var wwwroot := ScalarMember("wwwroot", TextOf(x.wwwroot), rewrites);
    TextThen("wwwroot", x.wwwroot, rewrites);
    TextThen("domain", x.domain, wwwroot);
  }

  lemma {:induction false} WebsiteItemsSound(xs: seq<Website>)
    ensures SoundItems(WebsiteItems(xs))
  {
    hide Sound, SoundItems, WebsiteMembers;
    Nothing();
    if xs != [] {
      WebsiteSound(xs[0]);
      WebsiteItemsSound(xs[1..]);
      ItemThen(WebsiteMembers(xs[0]), WebsiteItems(xs[1..]));
    }
  }

  lemma ListenSound(x: Listen)
    ensures Sound(ListenMembers(x))
  {
    hide Key, Sound, SoundItems, TextOf, IntOf;
    ListenKeysQuotable();
    Nothing();
    WebsiteItemsSound(x.websites);
    var websites := ArrayMember("website", WebsiteItems(x.websites), NoMember);
    ItemsThen("website", WebsiteItems(x.websites), NoMember);
    var port := ScalarMember("port", IntOf(x.port), websites);
    IntThen("port", x.port, websites);
    TextThen("ip", x.ip, port);
  }

  lemma {:induction false} ListenItemsSound(xs: seq<Listen>)
    ensures SoundItems(ListenItems(xs))
  {
    hide Sound, SoundItems, ListenMembers;
    Nothing();
    if xs != [] {
      ListenSound(xs[0]);
      ListenItemsSound(xs[1..]);
      ItemThen(ListenMembers(xs[0]), ListenItems(xs[1..]));
    }
  }

  lemma MimeSound(x: MimeType)
    ensures Sound(MimeMembers(x))
  {
    hide Key, Sound, SoundItems, TextOf, IntOf;
    KeysQuotable();
    Nothing();
    var compress := ScalarMember("compress_enable", IntOf(x.compress_enable), NoMember);
    IntThen("compress_enable", x.compress_enable, NoMember);
    var mime := ScalarMember("mime", TextOf(x.mime), compress);
    TextThen("mime", x.mime, compress);
    TextThen("type", x.kind, mime);
  }

  lemma {:induction false} MimeItemsSound(xs: seq<MimeType>)
    ensures SoundItems(MimeItems(xs))
  {
    hide Sound, SoundItems, MimeMembers;
    Nothing();
    if xs != [] {
      MimeSound(xs[0]);
      MimeItemsSound(xs[1..]);
      ItemThen(MimeMembers(xs[0]), MimeItems(xs[1..]));
    }
  }

  lemma ConfSound(c: Conf)
    ensures Sound(ConfMembers(c))
  {
    hide Key, Sound, SoundItems, TextOf, IntOf, ListenItems, MimeItems;
    KeysQuotable();
    Nothing();
    ListenItemsSound(c.listens);
    MimeItemsSound(c.mime_types);
    var mime := ArrayMember("mime_type", MimeItems(c.mime_types), NoMember);
    ItemsThen("mime_type", MimeItems(c.mime_types), NoMember);
    var mimes := ObjectMember("mime_types", mime, NoMember);
    MembersThen("mime_types", mime, NoMember);
    var listens := ArrayMember("listen", ListenItems(c.listens), mimes);
    ItemsThen("listen", ListenItems(c.listens), mimes);
    var user := ScalarMember("user", TextOf(c.user), listens);
    TextThen("user", c.user, listens);
    IntThen("worker_processes", c.worker_processes, user);
  }

  function Keys(ms: MemberList): seq<string> { if ms.NoMember? then [] else [ms.key] + Keys(ms.more) }

  /** The members of every object, in the order in which they are printed. */
  lemma KeysInOrder(c: Conf, x: Listen, w: Website, r: Rewrite, d: Redirect, f: Forward, s: Server, m: MimeType)
    ensures Keys(ConfMembers(c)) == ["worker_processes", "user", "listen", "mime_types"]
    ensures Keys(ListenMembers(x)) == ["ip", "port", "website"]
    ensures Keys(WebsiteMembers(w)) == ["domain", "wwwroot", "rewrite", "redirect", "forward"]
    ensures Keys(RewriteMembers(r)) == ["pattern", "new_uri"] && Keys(RedirectMembers(d)) == ["domain", "new_domain"]
    ensures Keys(ForwardMembers(f)) == ["forward_type", "forward_rule", "forward_server"] && Keys(ServerMembers(s)) == ["ip", "port"]
    ensures Keys(MimeMembers(m)) == ["type", "mime", "compress_enable"]
  {
    hide TextOf, IntOf, ListenItems, WebsiteItems, RewriteItems, RedirectItems, ServerItems, MimeItems;
    var w4 := WebsiteMembers(w).more.more.more.more;
    var w2 := WebsiteMembers(w).more.more;
    assert Keys(w4) == ["forward"] && Keys(w2.more) == ["redirect"] + Keys(w4);
    assert Keys(w2) == ["rewrite", "redirect", "forward"];
    assert Keys(WebsiteMembers(w).more) == ["wwwroot"] + Keys(w2);
    assert Keys(ListenMembers(x).more) == ["port", "website"] && Keys(ForwardMembers(f).more) == ["forward_rule", "forward_server"];
    assert Keys(MimeMembers(m).more) == ["mime", "compress_enable"];
    var c2 := ConfMembers(c).more.more;
    assert Keys(c2.more) == ["mime_types"] && Keys(c2) == ["listen"] + Keys(c2.more);
    assert Keys(ConfMembers(c).more) == ["user"] + Keys(c2);
  }

  // ----- the whole document

  /** The same configuration with every list as an object member with a repeated key for each of its elements. */
  function RepeatedText(c: Conf): string { ShowDocument(Spread(ConfMembers(c))) }

  /** The text of every configuration that fits the record, in both forms of its lists, is read without an error and without
      leaving an array, into any configuration with room for its elements: the elements come behind those that were there,
      and the fields have the values of the normal form. */
  lemma ConfReadsInto(c: Conf, base: Conf)
    requires ConfFits(c) && Takes(base, c) && ConfSafety.Bounded(base)
    ensures var o := LoadInto(ConfText(c), base); o.ret == 0 && o.st.user == Loading(Joined(base, c), false)
    ensures var o := LoadInto(RepeatedText(c), base); o.ret == 0 && o.st.user == Loading(Joined(base, c), false)
  {
    hide ConfMembers, Joined, MeanMembers, LoadInto, ShowDocument, Sound, Spread, ConfFits, Takes, ConfSafety.Bounded;
    ConfSound(c);
    SpreadSound(ConfMembers(c));
    ConfMeans(c, base);
    SpreadMeans(ConfMembers(c), Top, base);
    LoadMeans(ConfMembers(c), base);
    LoadMeans(Spread(ConfMembers(c)), base);
  }

  lemma ZeroJoined(c: Conf)
    requires ConfFits(c)
    ensures Joined(ZERO_CONF, c) == NormalConf(c) && Takes(ZERO_CONF, c) && ConfSafety.Bounded(ZERO_CONF)
  {
    hide NormalListens, NormalMimes;
    assert [] + NormalListens(c.listens) == NormalListens(c.listens);
    assert [] + NormalMimes(c.mime_types) == NormalMimes(c.mime_types);
  }

  /** Into a zeroed configuration: the normal form. */
  lemma ConfReadsBack(c: Conf)
    requires ConfFits(c)
    ensures var o := Load(ConfText(c)); o.ret == 0 && o.st.user == Loading(NormalConf(c), false)
    ensures Load(RepeatedText(c)).ret == 0 && Load(RepeatedText(c)).st.user == Loading(NormalConf(c), false)
  {
    hide ConfFits, Joined, Takes, LoadInto, ConfText, RepeatedText, NormalConf, ConfSafety.Bounded;
    ZeroJoined(c);
    ConfReadsInto(c, ZERO_CONF);
  }

  // ----- when nothing is lost

  /** The configuration with every element at or behind a counter zeroed: what a text can hold. */
  function TrimForward(x: Forward): Forward { x.(forward_server := ZERO_SERVER) }

  function TrimWebsite(x: Website): Website {
    x.(rewrite := ZERO_REWRITE, redirect := ZERO_REDIRECT, forward := TrimForward(x.forward))
  }

  function TrimWebsites(xs: seq<Website>): seq<Website> {
    if xs == [] then [] else [TrimWebsite(xs[0])] + TrimWebsites(xs[1..])
  }

  function TrimListen(x: Listen): Listen { x.(websites := TrimWebsites(x.websites), website := ZERO_WEBSITE) }

  function TrimListens(xs: seq<Listen>): seq<Listen> {
    if xs == [] then [] else [TrimListen(xs[0])] + TrimListens(xs[1..])
  }

  function Trim(c: Conf): Conf {
    c.(listens := TrimListens(c.listens), listen := ZERO_LISTEN, mime_type := ZERO_MIME_TYPE)
  }

  /** The text does not start with the marker byte, or is the marker. */
  predicate TextExact(s: string) { s == [] || s[0] != MARKER[0] || s == MARKER }

  predicate IntExact(n: int, width: nat) { |Decimal(n)| <= width }

  predicate RewriteExact(x: Rewrite) { TextExact(x.pattern) && TextExact(x.new_uri) }

  predicate RedirectExact(x: Redirect) { TextExact(x.domain) && TextExact(x.new_domain) }

  predicate ServerExact(x: Server) { TextExact(x.ip) && IntExact(x.port, 10) }

  predicate ForwardExact(x: Forward) {
    TextExact(x.forward_type) && TextExact(x.forward_rule) && forall y :: y in x.forward_servers ==> ServerExact(y)
  }

  predicate WebsiteExact(x: Website) {
    && TextExact(x.domain) && TextExact(x.wwwroot) && ForwardExact(x.forward)
    && (forall y :: y in x.rewrites ==> RewriteExact(y)) && (forall y :: y in x.redirects ==> RedirectExact(y))
  }

  predicate ListenExact(x: Listen) {
    TextExact(x.ip) && IntExact(x.port, 10) && forall y :: y in x.websites ==> WebsiteExact(y)
  }

  predicate MimeExact(x: MimeType) { TextExact(x.kind) && TextExact(x.mime) && IntExact(x.compress_enable, 3) }

  predicate LosesNothing(c: Conf) {
    && IntExact(c.worker_processes, 10) && TextExact(c.user)
    && (forall y :: y in c.listens ==> ListenExact(y)) && (forall y :: y in c.mime_types ==> MimeExact(y))
  }

  lemma NormalTextExact(s: string)
    ensures NormalText(s) == s <==> TextExact(s)
  {
  }

  lemma NormalIntExact(n: int)
    ensures NormalInt(n) == n <==> IntExact(n, 10)
  {
    ReadBackExact(n, 10);
  }

  lemma ShortNumber(n: nat)
    requires n <= 999
    ensures |Unsigned(n)| <= 3
  {
    if n >= 10 {
      assert |Unsigned(n)| == |Unsigned(n / 10)| + 1;
      if n / 10 >= 10 { assert |Unsigned(n / 10)| == |Unsigned(n / 10 / 10)| + 1; }
    }
  }

  /** The narrow conversion of a signed byte: nothing wraps around. */
  lemma NormalByteExact(n: int)
    requires -128 <= n <= 127
    ensures Signed8(ReadBack(n, 3)) == n <==> IntExact(n, 3)
  {
    ReadBackExact(n, 3);
    if n >= 0 {
      ShortNumber(n);
    } else if |Decimal(n)| > 3 {
      assert Decimal(n)[..3][1..] == Unsigned(-n)[..2];
      PrefixBelow(-n, 2);
    }
  }

  lemma NormalRewriteExact(x: Rewrite)
    ensures NormalRewrite(x) == x <==> RewriteExact(x)
  {
    NormalTextExact(x.pattern);
    NormalTextExact(x.new_uri);
  }

  lemma NormalRedirectExact(x: Redirect)
    ensures NormalRedirect(x) == x <==> RedirectExact(x)
  {
    NormalTextExact(x.domain);
    NormalTextExact(x.new_domain);
  }

  lemma NormalServerExact(x: Server)
    ensures NormalServer(x) == x <==> ServerExact(x)
  {
    NormalTextExact(x.ip);
    NormalIntExact(x.port);
  }

  lemma NormalMimeExact(x: MimeType)
    requires MimeFits(x)
    ensures NormalMime(x) == x <==> MimeExact(x)
  {
    NormalTextExact(x.kind);
    NormalTextExact(x.mime);
    NormalByteExact(x.compress_enable);
  }

  lemma {:induction false} NormalRewritesExact(xs: seq<Rewrite>)
    ensures NormalRewrites(xs) == xs <==> forall x :: x in xs ==> RewriteExact(x)
  {
    if xs != [] {
      hide NormalRewrite, RewriteExact;
      NormalRewriteExact(xs[0]);
      NormalRewritesExact(xs[1..]);
      assert NormalRewrites(xs)[0] == NormalRewrite(xs[0]) && NormalRewrites(xs)[1..] == NormalRewrites(xs[1..]);
      assert xs == [xs[0]] + xs[1..];
    }
  }

  lemma {:induction false} NormalRedirectsExact(xs: seq<Redirect>)
    ensures NormalRedirects(xs) == xs <==> forall x :: x in xs ==> RedirectExact(x)
  {
    if xs != [] {
      hide NormalRedirect, RedirectExact;
      NormalRedirectExact(xs[0]);
      NormalRedirectsExact(xs[1..]);
      assert NormalRedirects(xs)[0] == NormalRedirect(xs[0]) && NormalRedirects(xs)[1..] == NormalRedirects(xs[1..]);
      assert xs == [xs[0]] + xs[1..];
    }
  }

  lemma SameHead<T>(y: T, ys: seq<T>, x: T, xs: seq<T>)
    ensures [y] + ys == [x] + xs <==> y == x && ys == xs
  {
    assert ([y] + ys)[0] == y && ([y] + ys)[1..] == ys && ([x] + xs)[0] == x && ([x] + xs)[1..] == xs;
  }

  lemma {:induction false} NormalServersExact(xs: seq<Server>)
    ensures NormalServers(xs) == xs <==> forall x :: x in xs ==> ServerExact(x)
  {
    if xs != [] {
      hide NormalServer, ServerExact;
      NormalServerExact(xs[0]);
      NormalServersExact(xs[1..]);
      assert xs == [xs[0]] + xs[1..];
      SameHead(NormalServer(xs[0]), NormalServers(xs[1..]), xs[0], xs[1..]);
    }
  }

  lemma {:induction false} NormalMimesExact(xs: seq<MimeType>)
    requires forall x :: x in xs ==> MimeFits(x)
    ensures NormalMimes(xs) == xs <==> forall x :: x in xs ==> MimeExact(x)
  {
    if xs != [] {
      hide NormalMime, MimeExact;
      NormalMimeExact(xs[0]);
      NormalMimesExact(xs[1..]);
      assert NormalMimes(xs)[0] == NormalMime(xs[0]) && NormalMimes(xs)[1..] == NormalMimes(xs[1..]);
      assert xs == [xs[0]] + xs[1..];
    }
  }

  lemma NormalForwardExact(x: Forward)
    ensures NormalForward(x) == TrimForward(x) <==> ForwardExact(x)
  {
    NormalTextExact(x.forward_type);
    NormalTextExact(x.forward_rule);
    NormalServersExact(x.forward_servers);
  }

  lemma NormalWebsiteExact(x: Website)
    ensures NormalWebsite(x) == TrimWebsite(x) <==> WebsiteExact(x)
  {
    NormalTextExact(x.domain);
    NormalTextExact(x.wwwroot);
    NormalRewritesExact(x.rewrites);
    NormalRedirectsExact(x.redirects);
    NormalForwardExact(x.forward);
    hide NormalText, TextExact, NormalForward, TrimForward, ForwardExact, RewriteExact, RedirectExact;
  }

  lemma {:induction false} NormalWebsitesExact(xs: seq<Website>)
    ensures NormalWebsites(xs) == TrimWebsites(xs) <==> forall x :: x in xs ==> WebsiteExact(x)
  {
    if xs != [] {
      hide NormalWebsite, WebsiteExact, TrimWebsite;
      NormalWebsiteExact(xs[0]);
      NormalWebsitesExact(xs[1..]);
      assert NormalWebsites(xs)[0] == NormalWebsite(xs[0]) && NormalWebsites(xs)[1..] == NormalWebsites(xs[1..]);
      assert TrimWebsites(xs)[0] == TrimWebsite(xs[0]) && TrimWebsites(xs)[1..] == TrimWebsites(xs[1..]);
      assert xs == [xs[0]] + xs[1..];
    }
  }

  lemma NormalListenExact(x: Listen)
    ensures NormalListen(x) == TrimListen(x) <==> ListenExact(x)
  {
    NormalTextExact(x.ip);
    NormalIntExact(x.port);
    NormalWebsitesExact(x.websites);
    hide NormalText, TextExact, NormalInt, IntExact, NormalWebsites, TrimWebsites, WebsiteExact;
  }

  lemma {:induction false} NormalListensExact(xs: seq<Listen>)
    ensures NormalListens(xs) == TrimListens(xs) <==> forall x :: x in xs ==> ListenExact(x)
  {
    if xs != [] {
      hide NormalListen, ListenExact, TrimListen;
      NormalListenExact(xs[0]);
      NormalListensExact(xs[1..]);
      assert NormalListens(xs)[0] == NormalListen(xs[0]) && NormalListens(xs)[1..] == NormalListens(xs[1..]);
      assert TrimListens(xs)[0] == TrimListen(xs[0]) && TrimListens(xs)[1..] == TrimListens(xs[1..]);
      assert xs == [xs[0]] + xs[1..];
    }
  }

  /** A printed configuration is read back unchanged exactly when its numbers print in the bytes
      that are converted and no text starts with the marker byte without being the marker. */
  lemma RoundTrip(c: Conf)
    requires ConfFits(c)
    ensures var o := Load(ConfText(c));
      o.ret == 0 && !o.st.user.wild && (o.st.user.conf == Trim(c) <==> LosesNothing(c))
    ensures Load(RepeatedText(c)).ret == 0 && Load(RepeatedText(c)).st.user == Load(ConfText(c)).st.user
  {
    ConfReadsBack(c);
    hide Load, ConfText, RepeatedText, NormalText, TextExact, NormalInt, IntExact, NormalListens, TrimListens, ListenExact, NormalMimes,
      MimeExact, ListenFits, MimeFits;
    NormalIntExact(c.worker_processes);
    NormalTextExact(c.user);
    NormalListensExact(c.listens);
    NormalMimesExact(c.mime_types);
  }
}
