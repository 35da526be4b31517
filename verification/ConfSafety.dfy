/** Filling the configuration never leaves its arrays: enters and leaves of a path are bracketed. */
module ConfSafety {

  import opened JsonText
  import opened JsonTravel
  import opened HetaoConf
  import opened Decimals

  /** The counted arrays. */
  datatype Array = ListenArray | WebsiteArray | RewriteArray | RedirectArray | ServerArray | MimeArray

  function PathOf(a: Array): string {
    match a
    case ListenArray => "/listen"
    case WebsiteArray => "/listen/website"
    case RewriteArray => "/listen/website/rewrite"
    case RedirectArray => "/listen/website/redirect"
    case ServerArray => "/listen/website/forward/forward_server"
    case MimeArray => "/mime_types/mime_type"
  }

  function Cap(a: Array): nat {
    match a
    case ListenArray => 16
    case WebsiteArray => 64
    case RewriteArray => 10
    case RedirectArray => 100
    case ServerArray => 1000
    case MimeArray => 256
  }

  /** The counter of the array, in the elements that are being filled. */
  function Count(c: Conf, a: Array): nat {
    match a
    case ListenArray => |c.listens|
    case WebsiteArray => |c.listen.websites|
    case RewriteArray => |c.listen.website.rewrites|
    case RedirectArray => |c.listen.website.redirects|
    case ServerArray => |c.listen.website.forward.forward_servers|
    case MimeArray => |c.mime_types|
  }

  // ----- every counter is at most its cap

  predicate WebsiteBounded(w: Website) {
    |w.rewrites| <= 10 && |w.redirects| <= 100 && |w.forward.forward_servers| <= 1000
  }

  predicate ListenBounded(x: Listen) {
    && |x.websites| <= 64 && WebsiteBounded(x.website)
    && forall i :: 0 <= i < |x.websites| ==> WebsiteBounded(x.websites[i])
  }

  predicate Bounded(c: Conf) {
    && |c.listens| <= 16 && ListenBounded(c.listen)
    && (forall i :: 0 <= i < |c.listens| ==> ListenBounded(c.listens[i]))
    && |c.mime_types| <= 256
  }

  /** No element behind an array was addressed, and every counter is at most its cap. */
  predicate Safe(l: Loading) { !l.wild && Bounded(l.conf) }

  // ----- the invariant

  /** `path` is the path `e` or leads into it. */
  predicate Within(path: string, e: string) {
    |e| <= |path| && path[..|e|] == e && (|path| == |e| || path[|e|] == '/')
  }

  /** While an element of the array is open, the counter is below the cap. */
  predicate Open(path: string, inside: bool, a: Array) {
    Within(path, PathOf(a)) && (inside || path != PathOf(a))
  }

  /** `inside`: in an object at `path`, and not merely about to enter one. */
  predicate ArrayOk(c: Conf, path: string, inside: bool, a: Array) {
    Open(path, inside, a) ==> Count(c, a) < Cap(a)
  }

  predicate Inv(l: Loading, path: string, inside: bool) {
    Safe(l) && forall a: Array :: ArrayOk(l.conf, path, inside, a)
  }

  // ----- what the callback does to it

  lemma Under(e: string, tail: string)
    ensures Within(e + ("/" + tail), e) && e + ("/" + tail) != e
  {
    var path := e + ("/" + tail);
    assert path[..|e|] == e && path[|e|] == '/';
  }

  lemma Deeper(path: string, a: string, b: string)
    requires Within(path, b) && Within(b, a) && a != b
    ensures Within(path, a) && path != a
  {
    assert path[..|a|] == path[..|b|][..|a|] == b[..|a|];
    assert path[|a|] == path[..|b|][|a|];
  }

  /** The array whose element holds the field, or which the field counts. */
  function Holder(f: Field): Array
    requires f != Unknown && f != WorkerProcesses && f != User && f != Listens && f != MimeTypes
  {
    match f
    case ListenIp => ListenArray case ListenPort => ListenArray case Websites => ListenArray
    case Pattern => RewriteArray case NewUri => RewriteArray
    case RedirectDomain => RedirectArray case NewDomain => RedirectArray
    case ServerIp => ServerArray case ServerPort => ServerArray
    case MimeKind => MimeArray case MimeText => MimeArray case CompressEnable => MimeArray
    case _ => WebsiteArray
  }

  function Tail(f: Field): string
    requires f != Unknown && f != WorkerProcesses && f != User && f != Listens && f != MimeTypes
  {
    match f
    case ListenIp => "ip" case ListenPort => "port" case Websites => "website"
    case Domain => "domain" case Wwwroot => "wwwroot"
    case Rewrites => "rewrite" case Pattern => "pattern" case NewUri => "new_uri"
    case Redirects => "redirect" case RedirectDomain => "domain" case NewDomain => "new_domain"
    case ForwardType => "forward/forward_type" case ForwardRule => "forward/forward_rule"
    case Servers => "forward/forward_server" case ServerIp => "ip" case ServerPort => "port"
    case MimeKind => "type" case MimeText => "mime" case CompressEnable => "compress_enable"
  }

  lemma ListenParts(f: Field)
    requires f == ListenIp || f == ListenPort || f == Websites
    ensures FieldPath(f) == "/listen" + ("/" + Tail(f))
  {
  }

  lemma WebsiteParts(f: Field)
    requires f == Domain || f == Wwwroot || f == Rewrites || f == Redirects
    ensures FieldPath(f) == "/listen/website" + ("/" + Tail(f))
  {
  }

  lemma ForwardTypeParts()
    ensures FieldPath(ForwardType) == "/listen/website" + ("/" + Tail(ForwardType))
  {
  }

  lemma ForwardRuleParts()
    ensures FieldPath(ForwardRule) == "/listen/website" + ("/" + Tail(ForwardRule))
  {
  }

  lemma ServersParts()
    ensures FieldPath(Servers) == "/listen/website" + ("/" + Tail(Servers))
  {
    assert Tail(Servers) == "forward/forward_server";
  }

  lemma RewriteParts(f: Field)
    requires f == Pattern || f == NewUri
    ensures FieldPath(f) == "/listen/website/rewrite" + ("/" + Tail(f))
  {
  }

  lemma RedirectParts(f: Field)
    requires f == RedirectDomain || f == NewDomain
    ensures FieldPath(f) == "/listen/website/redirect" + ("/" + Tail(f))
  {
  }

  lemma ServerParts(f: Field)
    requires f == ServerIp || f == ServerPort
    ensures FieldPath(f) == "/listen/website/forward/forward_server" + ("/" + Tail(f))
  {
  }

  lemma MimeParts(f: Field)
    requires f == MimeKind || f == MimeText || f == CompressEnable
    ensures FieldPath(f) == "/mime_types/mime_type" + ("/" + Tail(f))
  {
  }

  lemma FieldParts(f: Field)
    requires f != Unknown && f != WorkerProcesses && f != User && f != Listens && f != MimeTypes
    ensures FieldPath(f) == PathOf(Holder(f)) + ("/" + Tail(f))
  {
    hide FieldPath, Tail;
    match Holder(f)
    case ListenArray => ListenParts(f);
    case WebsiteArray =>
      if f == Servers { ServersParts(); }
      else if f == ForwardType { ForwardTypeParts(); }
      else if f == ForwardRule { ForwardRuleParts(); }
      else { WebsiteParts(f); }
    case RewriteArray => RewriteParts(f);
    case RedirectArray => RedirectParts(f);
    case ServerArray => ServerParts(f);
    case MimeArray => MimeParts(f);
  }

  lemma ArrayParts()
    ensures PathOf(WebsiteArray) == PathOf(ListenArray) + ("/" + "website")
    ensures PathOf(RewriteArray) == PathOf(WebsiteArray) + ("/" + "rewrite")
    ensures PathOf(RedirectArray) == PathOf(WebsiteArray) + ("/" + "redirect")
    ensures PathOf(ServerArray) == PathOf(WebsiteArray) + ("/" + "forward/forward_server")
  {
  }

  /** A path within an array inside another array is within that one, too. */
  lemma Inside(path: string, a: Array)
    requires Within(path, PathOf(a))
    ensures a == WebsiteArray || a == RewriteArray || a == RedirectArray || a == ServerArray
      ==> Within(path, PathOf(ListenArray)) && path != PathOf(ListenArray)
    ensures a == RewriteArray || a == RedirectArray || a == ServerArray
      ==> Within(path, PathOf(WebsiteArray)) && path != PathOf(WebsiteArray)
  {
    hide Within, PathOf;
    ArrayParts();
    Under(PathOf(ListenArray), "website");
    Under(PathOf(WebsiteArray), "rewrite");
    Under(PathOf(WebsiteArray), "redirect");
    Under(PathOf(WebsiteArray), "forward/forward_server");
    if a == RewriteArray || a == RedirectArray || a == ServerArray {
      Deeper(path, PathOf(WebsiteArray), PathOf(a));
      Deeper(path, PathOf(ListenArray), PathOf(WebsiteArray));
    } else if a == WebsiteArray {
      Deeper(path, PathOf(ListenArray), PathOf(WebsiteArray));
    }
  }

  lemma RoomReaches(c: Conf, f: Field)
    requires f != Unknown && f != WorkerProcesses && f != User && f != Listens && f != MimeTypes
    requires Count(c, Holder(f)) < Cap(Holder(f))
    requires Holder(f) != MimeArray ==> Count(c, ListenArray) < 16
    requires Holder(f) != MimeArray && Holder(f) != ListenArray ==> Count(c, WebsiteArray) < 64
    ensures Reachable(c, f)
  {
  }

  lemma InvRoom(l: Loading, path: string, inside: bool, a: Array)
    requires Inv(l, path, inside) && Open(path, inside, a)
    ensures Count(l.conf, a) < Cap(a)
  {
    assert ArrayOk(l.conf, path, inside, a);
  }

  /** When a field is addressed, the elements that hold it are inside their arrays. */
  lemma InvReaches(l: Loading, path: string, inside: bool)
    requires Inv(l, path, inside)
    ensures Reachable(l.conf, Classify(path))
  {
    var f := Classify(path);
    if f != Unknown && f != WorkerProcesses && f != User && f != Listens && f != MimeTypes {
      hide Within, PathOf, FieldPath, Classify, Inv, Tail, Reachable, Count;
      ClassifiedPath(path);
      FieldParts(f);
      var a := Holder(f);
      Under(PathOf(a), Tail(f));
      Inside(path, a);
      InvRoom(l, path, inside, a);
      if a != MimeArray { InvRoom(l, path, inside, ListenArray); }
      if a != MimeArray && a != ListenArray { InvRoom(l, path, inside, WebsiteArray); }
      RoomReaches(l.conf, f);
    }
  }

  /** Entering an element that is not refused: its counter is below the cap. */
  lemma EnterKeeps(l: Loading, e: Event)
    requires Inv(l, e.path, false) && e.kind == EnterBranch
    ensures var (l', r) := OnNode(l, e); l' == l && r <= 0 && (r == 0 ==> Inv(l, e.path, true))
  {
    InvReaches(l, e.path, false);
    var (l', r) := OnNode(l, e);
    if r == 0 {
      forall a: Array ensures ArrayOk(l.conf, e.path, true, a) {
        assert ArrayOk(l.conf, e.path, false, a);
        if e.path == PathOf(a) {
          ArrayField(a);
        }
      }
    }
  }

  function CountedBy(a: Array): Field {
    match a
    case ListenArray => Listens
    case WebsiteArray => Websites
    case RewriteArray => Rewrites
    case RedirectArray => Redirects
    case ServerArray => Servers
    case MimeArray => MimeTypes
  }

  lemma ShortPaths()
    ensures Classify("/listen") == Listens && Classify("/listen/website") == Websites
    ensures Classify("/mime_types/mime_type") == MimeTypes
  {
  }

  lemma LongPaths()
    ensures Classify("/listen/website/rewrite") == Rewrites
    ensures Classify("/listen/website/redirect") == Redirects
  {
  }

  lemma ServerPath()
    ensures Classify("/listen/website/forward/forward_server") == Servers
  {
  }

  lemma ArrayField(a: Array)
    ensures Classify(PathOf(a)) == CountedBy(a)
  {
    hide Classify;
    ShortPaths();
    LongPaths();
    ServerPath();
  }

  lemma FieldArray(path: string, a: Array)
    requires Classify(path) == CountedBy(a)
    ensures path == PathOf(a)
  {
    ClassifiedPath(path);
  }

  lemma StoreCounts(c: Conf, f: Field, content: string, beyond: string)
    ensures var (c', r) := StoreLeaf(c, f, content, beyond);
      && r <= 0 && (forall a: Array :: Count(c', a) == Count(c, a)) && (Bounded(c) ==> Bounded(c'))
  {
    hide Fold, Convert, CString, Fill;
    assert Fill(content, beyond, TextSize(f)).1 <= 0 by { FillFails(content, beyond, TextSize(f)); }
  }

  lemma FillFails(content: string, beyond: string, size: nat)
    ensures Fill(content, beyond, size).1 <= 0
  {
  }

  /** A leaf changes no counter. */
  lemma LeafKeeps(l: Loading, e: Event)
    requires Inv(l, e.path, false) && e.kind == Leaf
    ensures var (l', r) := OnNode(l, e); Inv(l', e.path, false) && r <= 0
  {
    InvReaches(l, e.path, false);
    hide Classify, StoreLeaf, Reachable, Open, Count, Bounded;
    StoreCounts(l.conf, Classify(e.path), e.content, e.beyond);
    var (l', r) := OnNode(l, e);
    forall a: Array ensures ArrayOk(l'.conf, e.path, false, a) {
      assert ArrayOk(l.conf, e.path, false, a);
    }
  }

  /** Counting an element whose counter is below the cap. */
  lemma LeaveCounts(c: Conf, f: Field)
    requires Bounded(c) && Reachable(c, f)
    requires forall a: Array :: f == CountedBy(a) ==> Count(c, a) < Cap(a)
    ensures Bounded(Leave(c, f))
    ensures forall a: Array :: f != CountedBy(a) ==> Count(Leave(c, f), a) == Count(c, a) || Count(Leave(c, f), a) == 0
  {
    match f
    case Listens => assert f == CountedBy(ListenArray);
    case Websites => assert f == CountedBy(WebsiteArray);
    case Rewrites => assert f == CountedBy(RewriteArray);
    case Redirects => assert f == CountedBy(RedirectArray);
    case Servers => assert f == CountedBy(ServerArray);
    case MimeTypes => assert f == CountedBy(MimeArray);
    case _ =>
  }

  /** Leaving an element: the path of the element is open no longer. */
  lemma LeaveKeeps(l: Loading, e: Event)
    requires Inv(l, e.path, true) && e.kind == LeaveBranch
    ensures var (l', r) := OnNode(l, e); Inv(l', e.path, false) && r == 0
  {
    InvReaches(l, e.path, true);
    hide Classify, Leave, Reachable, Within, Count, Bounded, PathOf, CountedBy;
    var f := Classify(e.path);
    forall a: Array | f == CountedBy(a) ensures Count(l.conf, a) < Cap(a) {
      FieldArray(e.path, a);
      WithinSelf(PathOf(a));
      assert ArrayOk(l.conf, e.path, true, a);
    }
    LeaveCounts(l.conf, f);
    var (l', r) := OnNode(l, e);
    forall a: Array ensures ArrayOk(l'.conf, e.path, false, a) {
      if f == CountedBy(a) {
        FieldArray(e.path, a);
      } else {
        assert ArrayOk(l.conf, e.path, true, a);
        assert Count(l'.conf, a) == Count(l.conf, a) || Count(l'.conf, a) == 0;
      }
    }
  }

  lemma WithinSelf(path: string)
    ensures Within(path, path)
  {
    assert path[..|path|] == path;
  }

  // ----- one level down

  lemma PathLength(a: Array)
    ensures 0 < |PathOf(a)| <= 38
  {
  }

  /** A name without a slash leads into an array exactly when the path around it does. */
  lemma DescendWithin(path: string, name: string, e: string)
    requires '/' !in name
    ensures Within(path, e) <==> Within(path + "/" + name, e) && path + "/" + name != e
  {
    var longer := path + "/" + name;
    if |e| <= |path| {
      assert longer[..|e|] == path[..|e|];
    } else if |e| < |longer| {
      assert longer[|e|] == name[|e| - |path| - 1];
    } else if |e| == |longer| {
      assert longer[..|e|] == longer;
    }
  }

  lemma Descend(l: Loading, path: string, name: string, size: nat)
    requires '/' !in name && size >= 41
    ensures Inv(l, path, true) <==> Inv(l, Extend(path, name, size), false)
  {
    hide Safe, Within, Count, PathOf, Cap;
    var longer := Extend(path, name, size);
    forall a: Array ensures ArrayOk(l.conf, path, true, a) <==> ArrayOk(l.conf, longer, false, a) {
      PathLength(a);
      DescendWithin(path, name, PathOf(a));
      DescendWithin(path, "*", PathOf(a));
      assert path + "/*" == path + "/" + "*";
    }
    assert (forall a: Array :: ArrayOk(l.conf, path, true, a)) <==> (forall a: Array :: ArrayOk(l.conf, longer, false, a));
  }
}
