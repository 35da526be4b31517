/** What the printed tree of a configuration means: the configuration itself, in its normal form, whatever configuration
    it is read into. */
module ConfRoundTrip {

  import opened JsonText
  import opened JsonToken
  import opened JsonPrint
  import opened Decimals
  import opened HetaoConf
  import opened ConfMeaning

  // ----- what is read back

  /** A text that starts with the marker byte is read back as the marker. */
  function NormalText(s: string): string {
    if s != [] && s[0] == MARKER[0] then MARKER else s
  }

  function NormalInt(n: int): int { ReadBack(n, 10) }

  function NormalRewrite(x: Rewrite): Rewrite { Rewrite(NormalText(x.pattern), NormalText(x.new_uri)) }

  function NormalRedirect(x: Redirect): Redirect { Redirect(NormalText(x.domain), NormalText(x.new_domain)) }

  function NormalServer(x: Server): Server { Server(NormalText(x.ip), NormalInt(x.port)) }

  function NormalRewrites(xs: seq<Rewrite>): seq<Rewrite> {
    if xs == [] then [] else [NormalRewrite(xs[0])] + NormalRewrites(xs[1..])
  }

  function NormalRedirects(xs: seq<Redirect>): seq<Redirect> {
    if xs == [] then [] else [NormalRedirect(xs[0])] + NormalRedirects(xs[1..])
  }

  function NormalServers(xs: seq<Server>): seq<Server> {
    if xs == [] then [] else [NormalServer(xs[0])] + NormalServers(xs[1..])
  }

  function NormalForward(x: Forward): Forward {
    Forward(NormalText(x.forward_type), NormalText(x.forward_rule), NormalServers(x.forward_servers), ZERO_SERVER)
  }

  function NormalWebsite(x: Website): Website {
    Website(NormalText(x.domain), NormalText(x.wwwroot), NormalRewrites(x.rewrites), ZERO_REWRITE,
      NormalRedirects(x.redirects), ZERO_REDIRECT, NormalForward(x.forward))
  }

  function NormalWebsites(xs: seq<Website>): seq<Website> {
    if xs == [] then [] else [NormalWebsite(xs[0])] + NormalWebsites(xs[1..])
  }

  function NormalListen(x: Listen): Listen {
    Listen(NormalText(x.ip), NormalInt(x.port), NormalWebsites(x.websites), ZERO_WEBSITE)
  }

  function NormalListens(xs: seq<Listen>): seq<Listen> {
    if xs == [] then [] else [NormalListen(xs[0])] + NormalListens(xs[1..])
  }

  function NormalMime(x: MimeType): MimeType {
    MimeType(NormalText(x.kind), NormalText(x.mime), Signed8(ReadBack(x.compress_enable, 3)))
  }

  function NormalMimes(xs: seq<MimeType>): seq<MimeType> {
    if xs == [] then [] else [NormalMime(xs[0])] + NormalMimes(xs[1..])
  }

  function NormalConf(c: Conf): Conf {
    Conf(NormalInt(c.worker_processes), NormalText(c.user), NormalListens(c.listens), ZERO_LISTEN,
      NormalMimes(c.mime_types), ZERO_MIME_TYPE)
  }

  // ----- configurations that fit the record

  /** A string field of `size` bytes and a terminator. */
  predicate TextFits(s: string, size: nat) { |s| <= size && NUL !in s }

  predicate RewriteFits(x: Rewrite) { TextFits(x.pattern, 256) && TextFits(x.new_uri, 256) }

  predicate RedirectFits(x: Redirect) { TextFits(x.domain, 64) && TextFits(x.new_domain, 64) }

  predicate ServerFits(x: Server) { TextFits(x.ip, 15) }

  predicate ForwardFits(x: Forward) {
    && TextFits(x.forward_type, 16) && TextFits(x.forward_rule, 1)
    && |x.forward_servers| <= 1000 && forall y :: y in x.forward_servers ==> ServerFits(y)
  }

  predicate WebsiteFits(x: Website) {
    && TextFits(x.domain, 256) && TextFits(x.wwwroot, 1024) && ForwardFits(x.forward)
    && |x.rewrites| <= 10 && (forall y :: y in x.rewrites ==> RewriteFits(y))
    && |x.redirects| <= 100 && (forall y :: y in x.redirects ==> RedirectFits(y))
  }

  predicate ListenFits(x: Listen) {
    TextFits(x.ip, 15) && |x.websites| <= 64 && forall y :: y in x.websites ==> WebsiteFits(y)
  }

  predicate MimeFits(x: MimeType) {
    TextFits(x.kind, 50) && TextFits(x.mime, 100) && -128 <= x.compress_enable <= 127
  }

  predicate ConfFits(c: Conf) {
    && TextFits(c.user, 64)
    && |c.listens| <= 16 && (forall y :: y in c.listens ==> ListenFits(y))
    && |c.mime_types| <= 256 && (forall y :: y in c.mime_types ==> MimeFits(y))
  }

  // ----- printed fields

  lemma {:induction false} CStringWhole(s: string)
    requires NUL !in s
    ensures CString(s) == s
  {
    if s != [] { CStringWhole(s[1..]); }
  }

  lemma CStringMarker()
    ensures CString(MARKER) == MARKER
  {
    CStringWhole(MARKER);
  }

  lemma MarkerFolds(size: nat)
    requires size >= 1
    ensures Fold(MARKER + [], 1, size) == Folded(MARKER, true)
  {
    assert Escape(MARKER) == MARKER by { assert MARKER[1..] == []; }
    FoldEscape(MARKER, [], size);
  }

  // ----- fields

  /** A printed text means the text. */
  lemma PutTextOf(c: Conf, f: Field, s: string)
    requires TextSize(f) > 0 && TextFits(s, TextSize(f))
    ensures Put(c, f, TextOf(s)) == (PutText(c, f, NormalText(s)), 0)
  {
    hide PutText, Fold, TextSize, CString;
    if s != [] && s[0] == MARKER[0] {
      MarkerFolds(TextSize(f));
      CStringMarker();
      assert MARKER + [] == MARKER;
    } else {
      FoldEscape(s, [], TextSize(f));
      assert Escape(s) + [] == Escape(s);
      CStringWhole(s);
    }
  }

  lemma TextNext(key: string, s: string, more: MemberList, spot: Spot, c: Conf, f: Field)
    requires f == FieldAt(spot, key) && TextSize(f) > 0 && TextFits(s, TextSize(f))
    ensures MeanMembers(ScalarMember(key, TextOf(s), more), spot, c) == MeanMembers(more, spot, PutText(c, f, NormalText(s)))
  {
    PutTextOf(c, f, s);
    hide Put, PutText, FieldAt, TextOf, TextSize, NormalText;
  }

  lemma IntNext(key: string, n: int, more: MemberList, spot: Spot, c: Conf, f: Field)
    requires f == FieldAt(spot, key) && IntWidth(f) > 0
    ensures MeanMembers(ScalarMember(key, IntOf(n), more), spot, c)
      == MeanMembers(more, spot, PutInt(c, f, ReadBack(n, IntWidth(f))))
  {
    NoText(f);
    hide PutInt, FieldAt, IntWidth, TextSize, Convert;
  }

  lemma NoText(f: Field)
    requires IntWidth(f) > 0
    ensures TextSize(f) == 0
  {
  }

  lemma ArrayNext(key: string, items: ItemList, more: MemberList, spot: Spot, c: Conf, d: Conf)
    requires MeanItems(items, FieldAt(spot, key), Into(spot, key), c) == (d, 0)
    ensures MeanMembers(ArrayMember(key, items, more), spot, c) == MeanMembers(more, spot, d)
  {
    hide MeanItems, FieldAt, Into;
  }

  lemma NoneNext(spot: Spot, c: Conf)
    ensures MeanMembers(NoMember, spot, c) == (c, 0)
  {
  }

  /** An element that is read without an error, with room in its array. */
  lemma ItemNext(ms: MemberList, more: ItemList, f: Field, spot: Spot, c: Conf, d: Conf)
    requires !IsFull(c, f) && MeanMembers(ms, spot, c) == (d, 0)
    ensures MeanItems(ObjectItem(ms, more), f, spot, c) == MeanItems(more, f, spot, Leave(d, f))
  {
    hide MeanMembers, IsFull, Leave;
  }

  // ----- elements and arrays, innermost first

  function WithRewrite(c: Conf, x: Rewrite): Conf { WithWebsite(c, c.listen.website.(rewrite := x)) }

  lemma RewriteMeans(x: Rewrite, c: Conf)
    requires RewriteFits(x)
    ensures MeanMembers(RewriteMembers(x), Rewriting, c) == (WithRewrite(c, NormalRewrite(x)), 0)
  {
    hide MeanMembers, TextOf, IntOf, NormalText, ReadBack, Signed8, TextFits;
    TextNext("pattern", x.pattern, ScalarMember("new_uri", TextOf(x.new_uri), NoMember), Rewriting, c, Pattern);
    var d := PutText(c, Pattern, NormalText(x.pattern));
    TextNext("new_uri", x.new_uri, NoMember, Rewriting, d, NewUri);
    NoneNext(Rewriting, PutText(d, NewUri, NormalText(x.new_uri)));
  }

  function WithRewrites(c: Conf, xs: seq<Rewrite>): Conf {
    WithWebsite(c, c.listen.website.(rewrites := c.listen.website.rewrites + xs, rewrite := ZERO_REWRITE))
  }

  lemma WithRewritesMore(c: Conf, y: Rewrite, zs: seq<Rewrite>)
    ensures WithRewrites(WithRewrites(c, [y]), zs) == WithRewrites(c, [y] + zs)
  {
    var ys := c.listen.website.rewrites;
    assert ys + [y] + zs == ys + ([y] + zs);
  }

  lemma {:induction false} RewritesMean(xs: seq<Rewrite>, c: Conf)
    requires (forall x :: x in xs ==> RewriteFits(x))
    requires |c.listen.website.rewrites| + |xs| <= 10 && c.listen.website.rewrite == ZERO_REWRITE
    ensures MeanItems(RewriteItems(xs), Rewrites, Rewriting, c) == (WithRewrites(c, NormalRewrites(xs)), 0)
    decreases |xs|
  {
    if xs == [] {
      assert c.listen.website.rewrites + [] == c.listen.website.rewrites;
    } else {
      hide MeanItems, MeanMembers, RewriteMembers, NormalRewrite, RewriteFits;
      var d := WithRewrite(c, NormalRewrite(xs[0]));
      RewriteMeans(xs[0], c);
      ItemNext(RewriteMembers(xs[0]), RewriteItems(xs[1..]), Rewrites, Rewriting, c, d);
      RewritesMean(xs[1..], WithRewrites(c, [NormalRewrite(xs[0])]));
      WithRewritesMore(c, NormalRewrite(xs[0]), NormalRewrites(xs[1..]));
    }
  }

  function WithRedirect(c: Conf, x: Redirect): Conf { WithWebsite(c, c.listen.website.(redirect := x)) }

  lemma RedirectMeans(x: Redirect, c: Conf)
    requires RedirectFits(x)
    ensures MeanMembers(RedirectMembers(x), Redirecting, c) == (WithRedirect(c, NormalRedirect(x)), 0)
  {
    hide MeanMembers, TextOf, IntOf, NormalText, ReadBack, Signed8, TextFits;
    TextNext("domain", x.domain, ScalarMember("new_domain", TextOf(x.new_domain), NoMember), Redirecting, c, RedirectDomain);
    var d := PutText(c, RedirectDomain, NormalText(x.domain));
    TextNext("new_domain", x.new_domain, NoMember, Redirecting, d, NewDomain);
    NoneNext(Redirecting, PutText(d, NewDomain, NormalText(x.new_domain)));
  }

  function WithRedirects(c: Conf, xs: seq<Redirect>): Conf {
    WithWebsite(c, c.listen.website.(redirects := c.listen.website.redirects + xs, redirect := ZERO_REDIRECT))
  }

  lemma WithRedirectsMore(c: Conf, y: Redirect, zs: seq<Redirect>)
    ensures WithRedirects(WithRedirects(c, [y]), zs) == WithRedirects(c, [y] + zs)
  {
    var ys := c.listen.website.redirects;
    assert ys + [y] + zs == ys + ([y] + zs);
  }

  lemma {:induction false} RedirectsMean(xs: seq<Redirect>, c: Conf)
    requires (forall x :: x in xs ==> RedirectFits(x))
    requires |c.listen.website.redirects| + |xs| <= 100 && c.listen.website.redirect == ZERO_REDIRECT
    ensures MeanItems(RedirectItems(xs), Redirects, Redirecting, c) == (WithRedirects(c, NormalRedirects(xs)), 0)
    decreases |xs|
  {
    if xs == [] {
      assert c.listen.website.redirects + [] == c.listen.website.redirects;
    } else {
      hide MeanItems, MeanMembers, RedirectMembers, NormalRedirect, RedirectFits;
      var d := WithRedirect(c, NormalRedirect(xs[0]));
      RedirectMeans(xs[0], c);
      ItemNext(RedirectMembers(xs[0]), RedirectItems(xs[1..]), Redirects, Redirecting, c, d);
      RedirectsMean(xs[1..], WithRedirects(c, [NormalRedirect(xs[0])]));
      WithRedirectsMore(c, NormalRedirect(xs[0]), NormalRedirects(xs[1..]));
    }
  }

  function WithForward(c: Conf, x: Forward): Conf { WithWebsite(c, c.listen.website.(forward := x)) }

  function WithServer(c: Conf, x: Server): Conf { WithForward(c, c.listen.website.forward.(forward_server := x)) }

  lemma ServerMeans(x: Server, c: Conf)
    requires ServerFits(x)
    ensures MeanMembers(ServerMembers(x), Serving, c) == (WithServer(c, NormalServer(x)), 0)
  {
    hide MeanMembers, TextOf, IntOf, NormalText, ReadBack, Signed8, TextFits;
    TextNext("ip", x.ip, ScalarMember("port", IntOf(x.port), NoMember), Serving, c, ServerIp);
    var d := PutText(c, ServerIp, NormalText(x.ip));
    IntNext("port", x.port, NoMember, Serving, d, ServerPort);
    NoneNext(Serving, PutInt(d, ServerPort, NormalInt(x.port)));
  }

  function WithServers(c: Conf, xs: seq<Server>): Conf {
    var f := c.listen.website.forward;
    WithForward(c, f.(forward_servers := f.forward_servers + xs, forward_server := ZERO_SERVER))
  }

  lemma WithServersMore(c: Conf, y: Server, zs: seq<Server>)
    ensures WithServers(WithServers(c, [y]), zs) == WithServers(c, [y] + zs)
  {
    var ys := c.listen.website.forward.forward_servers;
    assert ys + [y] + zs == ys + ([y] + zs);
  }

  lemma {:induction false} ServersMean(xs: seq<Server>, c: Conf)
    requires (forall x :: x in xs ==> ServerFits(x))
    requires |c.listen.website.forward.forward_servers| + |xs| <= 1000 && c.listen.website.forward.forward_server == ZERO_SERVER
    ensures MeanItems(ServerItems(xs), Servers, Serving, c) == (WithServers(c, NormalServers(xs)), 0)
    decreases |xs|
  {
    if xs == [] {
      assert c.listen.website.forward.forward_servers + [] == c.listen.website.forward.forward_servers;
    } else {
      hide MeanItems, MeanMembers, ServerMembers, NormalServer, ServerFits;
      var d := WithServer(c, NormalServer(xs[0]));
      ServerMeans(xs[0], c);
      ItemNext(ServerMembers(xs[0]), ServerItems(xs[1..]), Servers, Serving, c, d);
      ServersMean(xs[1..], WithServers(c, [NormalServer(xs[0])]));
      WithServersMore(c, NormalServer(xs[0]), NormalServers(xs[1..]));
    }
  }

  lemma ForwardMeans(x: Forward, c: Conf)
    requires ForwardFits(x) && c.listen.website.forward == ZERO_FORWARD
    ensures MeanMembers(ForwardMembers(x), Forwarding, c) == (WithForward(c, NormalForward(x)), 0)
  {
    hide MeanMembers, MeanItems, TextOf, NormalText, TextFits, ServerItems, NormalServers, ServerFits;
    var servers := ServerItems(x.forward_servers);
    var last := ArrayMember("forward_server", servers, NoMember);
    var rule := ScalarMember("forward_rule", TextOf(x.forward_rule), last);
    TextNext("forward_type", x.forward_type, rule, Forwarding, c, ForwardType);
    var c1 := PutText(c, ForwardType, NormalText(x.forward_type));
    TextNext("forward_rule", x.forward_rule, last, Forwarding, c1, ForwardRule);
    var c2 := PutText(c1, ForwardRule, NormalText(x.forward_rule));
    ServersMean(x.forward_servers, c2);
    var c3 := WithServers(c2, NormalServers(x.forward_servers));
    ArrayNext("forward_server", servers, NoMember, Forwarding, c2, c3);
    NoneNext(Forwarding, c3);
    assert [] + NormalServers(x.forward_servers) == NormalServers(x.forward_servers);
  }

  lemma WebsiteMeans(x: Website, c: Conf)
    requires WebsiteFits(x) && c.listen.website == ZERO_WEBSITE
    ensures MeanMembers(WebsiteMembers(x), Site, c) == (WithWebsite(c, NormalWebsite(x)), 0)
  {
    hide MeanMembers, MeanItems, TextOf, NormalText, TextFits, RewriteItems, NormalRewrites, RewriteFits, RedirectItems,
      NormalRedirects, RedirectFits, ForwardMembers, NormalForward, ForwardFits;
    var forward := ObjectMember("forward", ForwardMembers(x.forward), NoMember);
    var redirects := ArrayMember("redirect", RedirectItems(x.redirects), forward);
    var rewrites := ArrayMember("rewrite", RewriteItems(x.rewrites), redirects);
    TextNext("domain", x.domain, ScalarMember("wwwroot", TextOf(x.wwwroot), rewrites), Site, c, Domain);
    var c1 := PutText(c, Domain, NormalText(x.domain));
    TextNext("wwwroot", x.wwwroot, rewrites, Site, c1, Wwwroot);
    var c2 := PutText(c1, Wwwroot, NormalText(x.wwwroot));
    RewritesMean(x.rewrites, c2);
    var c3 := WithRewrites(c2, NormalRewrites(x.rewrites));
    ArrayNext("rewrite", RewriteItems(x.rewrites), redirects, Site, c2, c3);
    RedirectsMean(x.redirects, c3);
    var c4 := WithRedirects(c3, NormalRedirects(x.redirects));
    ArrayNext("redirect", RedirectItems(x.redirects), forward, Site, c3, c4);
    ForwardMeans(x.forward, c4);
    var c5 := WithForward(c4, NormalForward(x.forward));
    PlainObjectNext("forward", ForwardMembers(x.forward), NoMember, Site, c4, c5);
    NoneNext(Site, c5);
    assert [] + NormalRewrites(x.rewrites) == NormalRewrites(x.rewrites);
    assert [] + NormalRedirects(x.redirects) == NormalRedirects(x.redirects);
  }

  /** An object that is not counted. */
  lemma PlainObjectNext(key: string, ms: MemberList, more: MemberList, spot: Spot, c: Conf, d: Conf)
    requires FieldAt(spot, key) == Unknown && MeanMembers(ms, Into(spot, key), c) == (d, 0)
    ensures MeanMembers(ObjectMember(key, ms, more), spot, c) == MeanMembers(more, spot, d)
  {
    hide FieldAt, Into;
    assert MeanObject(ms, Unknown, Into(spot, key), c) == (d, 0) by { hide MeanMembers; }
  }

  function WithWebsites(c: Conf, xs: seq<Website>): Conf {
    c.(listen := c.listen.(websites := c.listen.websites + xs, website := ZERO_WEBSITE))
  }

  lemma WithWebsitesMore(c: Conf, y: Website, zs: seq<Website>)
    ensures WithWebsites(WithWebsites(c, [y]), zs) == WithWebsites(c, [y] + zs)
  {
    var ys := c.listen.websites;
    assert ys + [y] + zs == ys + ([y] + zs);
  }

  lemma {:induction false} WebsitesMean(xs: seq<Website>, c: Conf)
    requires (forall x :: x in xs ==> WebsiteFits(x))
    requires |c.listen.websites| + |xs| <= 64 && c.listen.website == ZERO_WEBSITE
    ensures MeanItems(WebsiteItems(xs), Websites, Site, c) == (WithWebsites(c, NormalWebsites(xs)), 0)
    decreases |xs|
  {
    if xs == [] {
      assert c.listen.websites + [] == c.listen.websites;
    } else {
      hide MeanItems, MeanMembers, WebsiteMembers, NormalWebsite, WebsiteFits;
      var d := WithWebsite(c, NormalWebsite(xs[0]));
      WebsiteMeans(xs[0], c);
      ItemNext(WebsiteMembers(xs[0]), WebsiteItems(xs[1..]), Websites, Site, c, d);
      WebsitesMean(xs[1..], WithWebsites(c, [NormalWebsite(xs[0])]));
      WithWebsitesMore(c, NormalWebsite(xs[0]), NormalWebsites(xs[1..]));
    }
  }

  lemma ListenMeans(x: Listen, c: Conf)
    requires ListenFits(x) && c.listen == ZERO_LISTEN
    ensures MeanMembers(ListenMembers(x), Listening, c) == (c.(listen := NormalListen(x)), 0)
  {
    hide MeanMembers, MeanItems, TextOf, IntOf, NormalText, ReadBack, TextFits, WebsiteItems, NormalWebsites, WebsiteFits;
    var websites := ArrayMember("website", WebsiteItems(x.websites), NoMember);
    TextNext("ip", x.ip, ScalarMember("port", IntOf(x.port), websites), Listening, c, ListenIp);
    var c1 := PutText(c, ListenIp, NormalText(x.ip));
    IntNext("port", x.port, websites, Listening, c1, ListenPort);
    var c2 := PutInt(c1, ListenPort, NormalInt(x.port));
    WebsitesMean(x.websites, c2);
    var c3 := WithWebsites(c2, NormalWebsites(x.websites));
    ArrayNext("website", WebsiteItems(x.websites), NoMember, Listening, c2, c3);
    NoneNext(Listening, c3);
    assert [] + NormalWebsites(x.websites) == NormalWebsites(x.websites);
  }

  function WithListens(c: Conf, xs: seq<Listen>): Conf { c.(listens := c.listens + xs, listen := ZERO_LISTEN) }

  lemma WithListensMore(c: Conf, y: Listen, zs: seq<Listen>)
    ensures WithListens(WithListens(c, [y]), zs) == WithListens(c, [y] + zs)
  {
    var ys := c.listens;
    assert ys + [y] + zs == ys + ([y] + zs);
  }

  lemma {:induction false} ListensMean(xs: seq<Listen>, c: Conf)
    requires (forall x :: x in xs ==> ListenFits(x))
    requires |c.listens| + |xs| <= 16 && c.listen == ZERO_LISTEN
    ensures MeanItems(ListenItems(xs), Listens, Listening, c) == (WithListens(c, NormalListens(xs)), 0)
    decreases |xs|
  {
    if xs == [] {
      assert c.listens + [] == c.listens;
    } else {
      hide MeanItems, MeanMembers, ListenMembers, NormalListen, ListenFits;
      var d := c.(listen := NormalListen(xs[0]));
      ListenMeans(xs[0], c);
      ItemNext(ListenMembers(xs[0]), ListenItems(xs[1..]), Listens, Listening, c, d);
      ListensMean(xs[1..], WithListens(c, [NormalListen(xs[0])]));
      WithListensMore(c, NormalListen(xs[0]), NormalListens(xs[1..]));
    }
  }

  lemma MimeMeans(x: MimeType, c: Conf)
    requires MimeFits(x)
    ensures MeanMembers(MimeMembers(x), Mime, c) == (c.(mime_type := NormalMime(x)), 0)
  {
    hide MeanMembers, TextOf, IntOf, NormalText, ReadBack, Signed8, TextFits;
    var compress := ScalarMember("compress_enable", IntOf(x.compress_enable), NoMember);
    TextNext("type", x.kind, ScalarMember("mime", TextOf(x.mime), compress), Mime, c, MimeKind);
    var c1 := PutText(c, MimeKind, NormalText(x.kind));
    TextNext("mime", x.mime, compress, Mime, c1, MimeText);
    var c2 := PutText(c1, MimeText, NormalText(x.mime));
    IntNext("compress_enable", x.compress_enable, NoMember, Mime, c2, CompressEnable);
    NoneNext(Mime, PutInt(c2, CompressEnable, ReadBack(x.compress_enable, 3)));
  }

  function WithMimes(c: Conf, xs: seq<MimeType>): Conf {
    c.(mime_types := c.mime_types + xs, mime_type := ZERO_MIME_TYPE)
  }

  lemma WithMimesMore(c: Conf, y: MimeType, zs: seq<MimeType>)
    ensures WithMimes(WithMimes(c, [y]), zs) == WithMimes(c, [y] + zs)
  {
    var ys := c.mime_types;
    assert ys + [y] + zs == ys + ([y] + zs);
  }

  lemma {:induction false} MimesMean(xs: seq<MimeType>, c: Conf)
    requires (forall x :: x in xs ==> MimeFits(x))
    requires |c.mime_types| + |xs| <= 256 && c.mime_type == ZERO_MIME_TYPE
    ensures MeanItems(MimeItems(xs), MimeTypes, Mime, c) == (WithMimes(c, NormalMimes(xs)), 0)
    decreases |xs|
  {
    if xs == [] {
      assert c.mime_types + [] == c.mime_types;
    } else {
      hide MeanItems, MeanMembers, MimeMembers, NormalMime, MimeFits;
      var d := c.(mime_type := NormalMime(xs[0]));
      MimeMeans(xs[0], c);
      ItemNext(MimeMembers(xs[0]), MimeItems(xs[1..]), MimeTypes, Mime, c, d);
      MimesMean(xs[1..], WithMimes(c, [NormalMime(xs[0])]));
      WithMimesMore(c, NormalMime(xs[0]), NormalMimes(xs[1..]));
    }
  }

  // ----- the whole configuration

  /** The configuration `c` read into `base`. */
  function Joined(base: Conf, c: Conf): Conf {
    Conf(NormalInt(c.worker_processes), NormalText(c.user), base.listens + NormalListens(c.listens), ZERO_LISTEN,
      base.mime_types + NormalMimes(c.mime_types), ZERO_MIME_TYPE)
  }

  /** There is room for the elements of `c` behind those of `base`. */
  predicate Takes(base: Conf, c: Conf) {
    && |base.listens| + |c.listens| <= 16 && base.listen == ZERO_LISTEN
    && |base.mime_types| + |c.mime_types| <= 256 && base.mime_type == ZERO_MIME_TYPE
  }

  lemma ConfMeans(c: Conf, base: Conf)
    requires ConfFits(c) && Takes(base, c)
    ensures MeanMembers(ConfMembers(c), Top, base) == (Joined(base, c), 0)
  {
    hide MeanMembers, MeanItems, TextOf, IntOf, NormalText, ReadBack, TextFits, ListenItems, NormalListens, ListenFits, MimeItems,
      NormalMimes, MimeFits;
    var mime := ArrayMember("mime_type", MimeItems(c.mime_types), NoMember);
    var mimes := ObjectMember("mime_types", mime, NoMember);
    var listens := ArrayMember("listen", ListenItems(c.listens), mimes);
    var user := ScalarMember("user", TextOf(c.user), listens);
    IntNext("worker_processes", c.worker_processes, user, Top, base, WorkerProcesses);
    var c1 := PutInt(base, WorkerProcesses, NormalInt(c.worker_processes));
    TextNext("user", c.user, listens, Top, c1, User);
    var c2 := PutText(c1, User, NormalText(c.user));
    ListensMean(c.listens, c2);
    var c3 := WithListens(c2, NormalListens(c.listens));
    ArrayNext("listen", ListenItems(c.listens), mimes, Top, c2, c3);
    MimesMean(c.mime_types, c3);
    var c4 := WithMimes(c3, NormalMimes(c.mime_types));
    ArrayNext("mime_type", MimeItems(c.mime_types), NoMember, Mimes, c3, c4);
    NoneNext(Mimes, c4);
    PlainObjectNext("mime_types", mime, NoMember, Top, c3, c4);
    NoneNext(Top, c4);
  }
}
