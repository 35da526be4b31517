/** The paths of the fields: where the members of an object of the configuration lead. */
module ConfPaths {

  import opened JsonTravel
  import opened HetaoConf
  import opened ConfSafety
  import opened ConfMeaning
  import ConfQuiet

  // ----- the path of every field is told apart from the others

  lemma KnownWorkerProcesses()
    ensures Classify(FieldPath(WorkerProcesses)) == WorkerProcesses
    ensures Classify(FieldPath(User)) == User
    ensures Classify(FieldPath(Listens)) == Listens
  {
  }

  lemma KnownListenIp()
    ensures Classify(FieldPath(ListenIp)) == ListenIp
    ensures Classify(FieldPath(ListenPort)) == ListenPort
    ensures Classify(FieldPath(Websites)) == Websites
  {
  }

  lemma KnownDomain()
    ensures Classify(FieldPath(Domain)) == Domain
    ensures Classify(FieldPath(Wwwroot)) == Wwwroot
  {
  }

  lemma KnownRewrites()
    ensures Classify(FieldPath(Rewrites)) == Rewrites
    ensures Classify(FieldPath(Redirects)) == Redirects
  {
  }

  lemma KnownPattern()
    ensures Classify(FieldPath(Pattern)) == Pattern
    ensures Classify(FieldPath(NewUri)) == NewUri
  {
  }

  lemma KnownRedirectDomain()
    ensures Classify(FieldPath(RedirectDomain)) == RedirectDomain
    ensures Classify(FieldPath(NewDomain)) == NewDomain
  {
  }

  lemma KnownForwardType()
    ensures Classify(FieldPath(ForwardType)) == ForwardType
    ensures Classify(FieldPath(ForwardRule)) == ForwardRule
  {
  }

  lemma KnownServers()
    ensures Classify(FieldPath(Servers)) == Servers
  {
  }

  lemma KnownServerIp()
    ensures Classify(FieldPath(ServerIp)) == ServerIp
  {
  }

  lemma KnownServerPort()
    ensures Classify(FieldPath(ServerPort)) == ServerPort
  {
  }

  lemma KnownMimeTypes()
    ensures Classify(FieldPath(MimeTypes)) == MimeTypes
    ensures Classify(FieldPath(MimeKind)) == MimeKind
    ensures Classify(FieldPath(MimeText)) == MimeText
  {
  }

  lemma KnownCompressEnable()
    ensures Classify(FieldPath(CompressEnable)) == CompressEnable
  {
  }

  lemma Known(f: Field)
    requires f != Unknown
    ensures Classify(FieldPath(f)) == f
  {
    hide Classify, FieldPath;
    KnownWorkerProcesses();
    KnownListenIp();
    KnownDomain();
    KnownRewrites();
    KnownPattern();
    KnownRedirectDomain();
    KnownForwardType();
    KnownServers();
    KnownServerIp();
    KnownServerPort();
    KnownMimeTypes();
    KnownCompressEnable();
  }

  // ----- the paths of the objects

  function SpotPath(s: Spot): string
    requires s != Nowhere
  {
    match s
    case Top => ""
    case Listening => "/listen"
    case Site => "/listen/website"
    case Rewriting => "/listen/website/rewrite"
    case Redirecting => "/listen/website/redirect"
    case Forwarding => "/listen/website/forward"
    case Serving => "/listen/website/forward/forward_server"
    case Mimes => "/mime_types"
    case Mime => "/mime_types/mime_type"
  }

  /** The object around a field, and the name of the field in it. */
  function Around(f: Field): (Spot, string)
    requires f != Unknown
  {
    match f
    case WorkerProcesses => (Top, "worker_processes") case User => (Top, "user") case Listens => (Top, "listen")
    case ListenIp => (Listening, "ip") case ListenPort => (Listening, "port") case Websites => (Listening, "website")
    case Domain => (Site, "domain") case Wwwroot => (Site, "wwwroot") case Rewrites => (Site, "rewrite")
    case Redirects => (Site, "redirect")
    case Pattern => (Rewriting, "pattern") case NewUri => (Rewriting, "new_uri")
    case RedirectDomain => (Redirecting, "domain") case NewDomain => (Redirecting, "new_domain")
    case ForwardType => (Forwarding, "forward_type") case ForwardRule => (Forwarding, "forward_rule")
    case Servers => (Forwarding, "forward_server")
    case ServerIp => (Serving, "ip") case ServerPort => (Serving, "port")
    case MimeTypes => (Mimes, "mime_type")
    case MimeKind => (Mime, "type") case MimeText => (Mime, "mime") case CompressEnable => (Mime, "compress_enable")
  }

  function Outside(s: Spot): (Spot, string)
    requires s != Top && s != Nowhere
  {
    match s
    case Listening => (Top, "listen") case Mimes => (Top, "mime_types")
    case Site => (Listening, "website")
    case Rewriting => (Site, "rewrite") case Redirecting => (Site, "redirect") case Forwarding => (Site, "forward")
    case Serving => (Forwarding, "forward_server")
    case Mime => (Mimes, "mime_type")
  }

  lemma AroundTop(f: Field)
    requires f == WorkerProcesses || f == User || f == Listens
    ensures FieldPath(f) == SpotPath(Around(f).0) + ("/" + Around(f).1)
  {
  }

  lemma AroundMimes(f: Field)
    requires f == MimeTypes
    ensures FieldPath(f) == SpotPath(Around(f).0) + ("/" + Around(f).1)
  {
  }

  lemma AroundListening(f: Field)
    requires f == ListenIp || f == ListenPort || f == Websites
    ensures FieldPath(f) == SpotPath(Around(f).0) + ("/" + Around(f).1)
  {
  }

  lemma AroundMime(f: Field)
    requires f == MimeKind || f == MimeText
    ensures FieldPath(f) == SpotPath(Around(f).0) + ("/" + Around(f).1)
  {
  }

  lemma AroundCompress(f: Field)
    requires f == CompressEnable
    ensures FieldPath(f) == SpotPath(Around(f).0) + ("/" + Around(f).1)
  {
  }

  lemma AroundSite(f: Field)
    requires f == Domain || f == Wwwroot
    ensures FieldPath(f) == SpotPath(Around(f).0) + ("/" + Around(f).1)
  {
  }

  lemma AroundLists(f: Field)
    requires f == Rewrites || f == Redirects
    ensures FieldPath(f) == SpotPath(Around(f).0) + ("/" + Around(f).1)
  {
  }

  lemma AroundRewriting(f: Field)
    requires f == Pattern || f == NewUri
    ensures FieldPath(f) == SpotPath(Around(f).0) + ("/" + Around(f).1)
  {
  }

  lemma AroundRedirecting(f: Field)
    requires f == RedirectDomain || f == NewDomain
    ensures FieldPath(f) == SpotPath(Around(f).0) + ("/" + Around(f).1)
  {
  }

  lemma AroundForwarding(f: Field)
    requires f == ForwardType || f == ForwardRule
    ensures FieldPath(f) == SpotPath(Around(f).0) + ("/" + Around(f).1)
  {
  }

  lemma AroundServers(f: Field)
    requires f == Servers
    ensures FieldPath(f) == SpotPath(Around(f).0) + ("/" + Around(f).1)
  {
  }

  lemma AroundServing(f: Field)
    requires f == ServerIp || f == ServerPort
    ensures FieldPath(f) == SpotPath(Around(f).0) + ("/" + Around(f).1)
  {
  }

  lemma AroundPath(f: Field)
    requires f != Unknown
    ensures var (s, name) := Around(f); s != Nowhere && FieldPath(f) == SpotPath(s) + ("/" + name)
  {
    hide FieldPath, SpotPath;
    match f
    case WorkerProcesses => AroundTop(f);
    case User => AroundTop(f);
    case Listens => AroundTop(f);
    case MimeTypes => AroundMimes(f);
    case ListenIp => AroundListening(f);
    case ListenPort => AroundListening(f);
    case Websites => AroundListening(f);
    case MimeKind => AroundMime(f);
    case MimeText => AroundMime(f);
    case CompressEnable => AroundCompress(f);
    case Domain => AroundSite(f);
    case Wwwroot => AroundSite(f);
    case Rewrites => AroundLists(f);
    case Redirects => AroundLists(f);
    case Pattern => AroundRewriting(f);
    case NewUri => AroundRewriting(f);
    case RedirectDomain => AroundRedirecting(f);
    case NewDomain => AroundRedirecting(f);
    case ForwardType => AroundForwarding(f);
    case ForwardRule => AroundForwarding(f);
    case Servers => AroundServers(f);
    case ServerIp => AroundServing(f);
    case ServerPort => AroundServing(f);
  }

  lemma AroundName(f: Field)
    requires f != Unknown
    ensures '/' !in Around(f).1 && 0 < |Around(f).1| <= 20
  {
  }

  lemma AroundAt(f: Field)
    requires f != Unknown
    ensures FieldAt(Around(f).0, Around(f).1) == f
  {
  }

  lemma AtAround(s: Spot, key: string)
    ensures var f := FieldAt(s, key); f != Unknown ==> Around(f) == (s, key)
  {
  }

  lemma OutsideShort(s: Spot)
    requires s == Listening || s == Mimes || s == Site || s == Mime
    ensures SpotPath(s) == SpotPath(Outside(s).0) + ("/" + Outside(s).1)
  {
  }

  lemma OutsideLong(s: Spot)
    requires s == Rewriting || s == Redirecting || s == Forwarding
    ensures SpotPath(s) == SpotPath(Outside(s).0) + ("/" + Outside(s).1)
  {
  }

  lemma OutsideServing()
    ensures SpotPath(Serving) == SpotPath(Forwarding) + ("/" + "forward_server")
  {
  }

  lemma OutsidePath(s: Spot)
    requires s != Top && s != Nowhere
    ensures var (t, name) := Outside(s); t != Nowhere && SpotPath(s) == SpotPath(t) + ("/" + name)
  {
    hide SpotPath;
    if s == Listening || s == Mimes || s == Site || s == Mime {
      OutsideShort(s);
    } else if s == Serving {
      OutsideServing();
    } else {
      OutsideLong(s);
    }
  }

  lemma OutsideName(s: Spot)
    requires s != Top && s != Nowhere
    ensures var (t, name) := Outside(s); '/' !in name && 0 < |name| <= 20 && Into(t, name) == s
  {
  }

  lemma IntoOutside(s: Spot, key: string)
    ensures var t := Into(s, key); t != Nowhere ==> t != Top && Outside(t) == (s, key)
  {
  }

  lemma SpotsDiffer(s: Spot, t: Spot)
    requires s != Nowhere && t != Nowhere && SpotPath(s) == SpotPath(t)
    ensures s == t
  {
  }

  lemma SpotLength(s: Spot)
    requires s != Nowhere
    ensures |SpotPath(s)| <= 38
  {
  }

  /** A path is taken apart at its last slash in one way only. */
  lemma SplitOnce(p: string, k: string, q: string, j: string)
    requires p + ("/" + k) == q + ("/" + j) && '/' !in k && '/' !in j
    ensures p == q && k == j
  {
    LastSlash(p, k);
    LastSlash(q, j);
  }

  lemma LastSlash(p: string, k: string)
    requires '/' !in k
    ensures var a := p + ("/" + k);
      a[|p|] == '/' && (forall i :: |p| < i < |a| ==> a[i] != '/') && a[..|p|] == p && a[|p| + 1..] == k
  {
    var a := p + ("/" + k);
    assert forall i :: |p| < i < |a| ==> a[i] == k[i - |p| - 1];
  }

  // ----- one level down

  /** No field has a path that leads through this one. */
  predicate Barren(path: string) {
    forall f: Field :: f != Unknown && Within(FieldPath(f), path) ==> FieldPath(f) == path
  }

  predicate At(path: string, s: Spot) {
    if s == Nowhere then Barren(path) else path == SpotPath(s)
  }

  lemma WithinSplit(q: string, k: string, p: string)
    requires '/' !in k
    ensures Within(q + ("/" + k), p) ==> p == q + ("/" + k) || Within(q, p)
  {
    var a := q + ("/" + k);
    LastSlash(q, k);
    if Within(a, p) && |p| <= |q| {
      assert a[..|p|] == q[..|p|] && (|p| < |q| ==> a[|p|] == q[|p|]);
    }
  }

  function Level(s: Spot): nat {
    match s
    case Listening => 1 case Mimes => 1 case Site => 2 case Mime => 2 case Serving => 4
    case Top => 0 case Nowhere => 0
    case _ => 3
  }

  /** Whatever the path of an object leads through is the path of an object. */
  lemma {:induction false} SpotThrough(t: Spot, p: string)
    requires t != Nowhere && Within(SpotPath(t), p)
    ensures exists u: Spot :: u != Nowhere && p == SpotPath(u)
    decreases Level(t)
  {
    hide Within;
    if t == Top {
      NothingWithin(p);
      assert p == SpotPath(Top);
    } else {
      OutsidePath(t);
      OutsideName(t);
      var (q, name) := Outside(t);
      WithinSplit(SpotPath(q), name, p);
      if Within(SpotPath(q), p) { SpotThrough(q, p); }
    }
  }

  lemma NothingWithin(p: string)
    ensures Within("", p) ==> p == ""
  {
  }

  lemma IntoComplete(u: Spot, s: Spot, key: string)
    requires u != Nowhere && s != Nowhere && SpotPath(u) == SpotPath(s) + ("/" + key) && '/' !in key
    ensures Into(s, key) == u
  {
    hide SpotPath, Into;
    assert SpotPath(u) != "";
    TopPath();
    OutsidePath(u);
    OutsideName(u);
    SplitOnce(SpotPath(Outside(u).0), Outside(u).1, SpotPath(s), key);
    SpotsDiffer(Outside(u).0, s);
  }

  lemma TopPath()
    ensures SpotPath(Top) == ""
  {
  }

  lemma BelowIs(f: Field, s: Spot, key: string)
    requires f != Unknown && s != Nowhere && '/' !in key
    ensures var q := SpotPath(s) + ("/" + key); Within(FieldPath(f), q) ==> FieldPath(f) == q || Into(s, key) != Nowhere
  {
    hide SpotPath, Into, FieldPath, Within;
    AroundPath(f);
    AroundName(f);
    var q := SpotPath(s) + ("/" + key);
    var (a, name) := Around(f);
    WithinSplit(SpotPath(a), name, q);
    if Within(SpotPath(a), q) {
      SpotThrough(a, q);
      var u: Spot :| u != Nowhere && q == SpotPath(u);
      IntoComplete(u, s, key);
    }
  }

  lemma FieldHere(s: Spot, key: string)
    requires s != Nowhere && '/' !in key
    ensures Classify(SpotPath(s) + ("/" + key)) == FieldAt(s, key)
  {
    hide SpotPath, FieldPath, Classify, FieldAt;
    var q := SpotPath(s) + ("/" + key);
    ClassifiedPath(q);
    var f := Classify(q);
    if f != Unknown {
      AroundPath(f);
      AroundName(f);
      AroundAt(f);
      SplitOnce(SpotPath(Around(f).0), Around(f).1, SpotPath(s), key);
      SpotsDiffer(Around(f).0, s);
    }
    AtAround(s, key);
    var g := FieldAt(s, key);
    if g != Unknown {
      AroundPath(g);
      Known(g);
    }
  }

  lemma DeadBarren(path: string)
    requires ConfQuiet.Dead(path)
    ensures Barren(path) && Classify(path) == Unknown
  {
    ConfQuiet.DeadUnknown(path);
    hide FieldPath, Within, Classify;
  }

  lemma LongKey(s: Spot, key: string)
    requires |key| > 20
    ensures FieldAt(s, key) == Unknown && Into(s, key) == Nowhere
  {
    hide FieldAt, Into;
    AtAround(s, key);
    IntoOutside(s, key);
    if FieldAt(s, key) != Unknown { AroundName(FieldAt(s, key)); }
    if Into(s, key) != Nowhere { OutsideName(Into(s, key)); }
  }

  lemma BarrenBelow(p: string, key: string)
    requires Barren(p)
    ensures ConfQuiet.Dead(p + ("/" + key))
  {
    hide FieldPath;
    var q := p + ("/" + key);
    Under(p, key);
    forall f: Field | f != Unknown ensures !Within(FieldPath(f), q) { ConfQuiet.ThroughBoth(FieldPath(f), q, p); }
  }

  /** A member leads to its field and its object. */
  lemma PathStep(p: string, s: Spot, key: string)
    requires At(p, s) && '/' !in key
    ensures var q := Extend(p, key, 1025); Classify(q) == FieldAt(s, key) && At(q, Into(s, key))
  {
    hide Barren, Classify, SpotPath, FieldAt, Into, ConfQuiet.Dead;
    var q := Extend(p, key, 1025);
    assert p + "/" + key == p + ("/" + key) && p + "/*" == p + ("/" + "*");
    NowhereNothing(key);
    if s == Nowhere {
      BarrenBelow(p, key);
      BarrenBelow(p, "*");
      if |p| + 2 > 1024 { ConfQuiet.LongDead(p); }
      DeadBarren(q);
    } else if |p| + 1 + |key| < 1023 {
      FieldHere(s, key);
      if Into(s, key) == Nowhere {
        PathBarren(s, key);
      } else {
        IntoOutside(s, key);
        OutsidePath(Into(s, key));
      }
    } else {
      SpotLength(s);
      LongKey(s, key);
      ConfQuiet.ShortDead(q);
      DeadBarren(q);
    }
  }

  lemma NowhereNothing(key: string)
    ensures FieldAt(Nowhere, key) == Unknown && Into(Nowhere, key) == Nowhere
  {
  }

  lemma PathBarren(s: Spot, key: string)
    requires s != Nowhere && '/' !in key && Into(s, key) == Nowhere
    ensures Barren(SpotPath(s) + ("/" + key))
  {
    hide SpotPath, Into, FieldPath, Within;
    var q := SpotPath(s) + ("/" + key);
    forall f: Field | f != Unknown ensures Within(FieldPath(f), q) ==> FieldPath(f) == q { BelowIs(f, s, key); }
  }

  // ----- what is addressed

  /** The element at the counter of the array of an object is inside the array. */
  predicate RoomAt(c: Conf, s: Spot) {
    match s
    case Listening => |c.listens| < 16
    case Site => |c.listen.websites| < 64
    case Rewriting => |c.listen.website.rewrites| < 10
    case Redirecting => |c.listen.website.redirects| < 100
    case Serving => |c.listen.website.forward.forward_servers| < 1000
    case Mime => |c.mime_types| < 256
    case _ => true
  }

  /** So it is for the object and for all objects around it. */
  predicate RoomAround(c: Conf, s: Spot)
    decreases Level(s)
  {
    s == Top || s == Nowhere || (RoomAt(c, s) && RoomAround(c, Outside(s).0))
  }

  lemma ReachableRoom(c: Conf, f: Field)
    requires f != Unknown
    ensures Reachable(c, f) <==> RoomAround(c, Around(f).0)
  {
    RoomSteps(c);
    hide RoomAround;
  }

  lemma RoomSteps(c: Conf)
    ensures RoomAround(c, Top)
    ensures RoomAround(c, Listening) <==> |c.listens| < 16
    ensures RoomAround(c, Site) <==> |c.listens| < 16 && |c.listen.websites| < 64
    ensures RoomAround(c, Rewriting) <==> RoomAround(c, Site) && |c.listen.website.rewrites| < 10
    ensures RoomAround(c, Redirecting) <==> RoomAround(c, Site) && |c.listen.website.redirects| < 100
    ensures RoomAround(c, Forwarding) <==> RoomAround(c, Site)
    ensures RoomAround(c, Serving) <==> RoomAround(c, Site) && |c.listen.website.forward.forward_servers| < 1000
    ensures RoomAround(c, Mimes)
    ensures RoomAround(c, Mime) <==> |c.mime_types| < 256
  {
    assert RoomAround(c, Listening) <==> |c.listens| < 16;
    assert RoomAround(c, Site) <==> RoomAt(c, Site) && RoomAround(c, Listening);
    assert RoomAround(c, Forwarding) <==> RoomAround(c, Site);
  }

  /** A call is recorded as addressing an element behind an array exactly when its path is that of a field, and the array of an
      object around the field is full. */
  lemma WildExactly(l: Loading, e: Event)
    requires !l.wild && e.kind != EnterArray && e.kind != LeaveArray
    ensures OnNode(l, e).0.wild <==> Classify(e.path) != Unknown && !RoomAround(l.conf, Around(Classify(e.path)).0)
  {
    var f := Classify(e.path);
    if f != Unknown { ReachableRoom(l.conf, f); }
    hide Classify, StoreLeaf, Leave, IsFull, RoomAround;
  }
}
