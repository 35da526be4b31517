/** A slice of the server configuration, the callback that fills it while a document is traversed,
    and the value tree the serializers print. */
module HetaoConf {

  import opened JsonText
  import opened JsonToken
  import opened JsonTravel
  import opened JsonPrint
  import opened Decimals

  /** A counted array `x` of the source is two fields: `xs` are the elements below its counter and
      `x` is the element at the counter, which is the one being filled.  The elements behind it
      are untouched. */
  datatype Rewrite = Rewrite(pattern: string, new_uri: string)

  datatype Redirect = Redirect(domain: string, new_domain: string)

  datatype Server = Server(ip: string, port: int)

  datatype Forward = Forward(forward_type: string, forward_rule: string, forward_servers: seq<Server>, forward_server: Server)

  datatype Website = Website(domain: string, wwwroot: string, rewrites: seq<Rewrite>, rewrite: Rewrite,
    redirects: seq<Redirect>, redirect: Redirect, forward: Forward)

  datatype Listen = Listen(ip: string, port: int, websites: seq<Website>, website: Website)

  datatype MimeType = MimeType(kind: string, mime: string, compress_enable: int)

  datatype Conf = Conf(worker_processes: int, user: string, listens: seq<Listen>, listen: Listen,
    mime_types: seq<MimeType>, mime_type: MimeType)

  // ----- the zeroed configuration

  const ZERO_REWRITE := Rewrite([], [])
  const ZERO_REDIRECT := Redirect([], [])
  const ZERO_SERVER := Server([], 0)
  const ZERO_FORWARD := Forward([], [], [], ZERO_SERVER)
  const ZERO_WEBSITE := Website([], [], [], ZERO_REWRITE, [], ZERO_REDIRECT, ZERO_FORWARD)
  const ZERO_LISTEN := Listen([], 0, [], ZERO_WEBSITE)
  const ZERO_MIME_TYPE := MimeType([], [], 0)
  const ZERO_CONF := Conf(0, [], [], ZERO_LISTEN, [], ZERO_MIME_TYPE)

  // ----- paths

  datatype Field =
    | WorkerProcesses | User
    | Listens | ListenIp | ListenPort
    | Websites | Domain | Wwwroot
    | Rewrites | Pattern | NewUri
    | Redirects | RedirectDomain | NewDomain
    | ForwardType | ForwardRule
    | Servers | ServerIp | ServerPort
    | MimeTypes | MimeKind | MimeText | CompressEnable
    | Unknown

  function FieldPath(f: Field): string
    requires f != Unknown
  {
    match f
    case WorkerProcesses => "/worker_processes"
    case User => "/user"
    case Listens => "/listen"
    case ListenIp => "/listen/ip"
    case ListenPort => "/listen/port"
    case Websites => "/listen/website"
    case Domain => "/listen/website/domain"
    case Wwwroot => "/listen/website/wwwroot"
    case Rewrites => "/listen/website/rewrite"
    case Pattern => "/listen/website/rewrite/pattern"
    case NewUri => "/listen/website/rewrite/new_uri"
    case Redirects => "/listen/website/redirect"
    case RedirectDomain => "/listen/website/redirect/domain"
    case NewDomain => "/listen/website/redirect/new_domain"
    case ForwardType => "/listen/website/forward/forward_type"
    case ForwardRule => "/listen/website/forward/forward_rule"
    case Servers => "/listen/website/forward/forward_server"
    case ServerIp => "/listen/website/forward/forward_server/ip"
    case ServerPort => "/listen/website/forward/forward_server/port"
    case MimeTypes => "/mime_types/mime_type"
    case MimeKind => "/mime_types/mime_type/type"
    case MimeText => "/mime_types/mime_type/mime"
    case CompressEnable => "/mime_types/mime_type/compress_enable"
  }

  function Classify(path: string): Field {
    if path == FieldPath(WorkerProcesses) then WorkerProcesses
    else if path == FieldPath(User) then User
    else if path == FieldPath(Listens) then Listens
    else if path == FieldPath(ListenIp) then ListenIp
    else if path == FieldPath(ListenPort) then ListenPort
    else if path == FieldPath(Websites) then Websites
    else if path == FieldPath(Domain) then Domain
    else if path == FieldPath(Wwwroot) then Wwwroot
    else if path == FieldPath(Rewrites) then Rewrites
    else if path == FieldPath(Pattern) then Pattern
    else if path == FieldPath(NewUri) then NewUri
    else if path == FieldPath(Redirects) then Redirects
    else if path == FieldPath(RedirectDomain) then RedirectDomain
    else if path == FieldPath(NewDomain) then NewDomain
    else if path == FieldPath(ForwardType) then ForwardType
    else if path == FieldPath(ForwardRule) then ForwardRule
    else if path == FieldPath(Servers) then Servers
    else if path == FieldPath(ServerIp) then ServerIp
    else if path == FieldPath(ServerPort) then ServerPort
    else if path == FieldPath(MimeTypes) then MimeTypes
    else if path == FieldPath(MimeKind) then MimeKind
    else if path == FieldPath(MimeText) then MimeText
    else if path == FieldPath(CompressEnable) then CompressEnable
    else Unknown
  }

  lemma ClassifiedPath(path: string)
    ensures var f := Classify(path); f != Unknown ==> path == FieldPath(f)
  {
    hide FieldPath;
  }

  // ----- the callback

  /** `wild`: an element of an array was addressed behind the end of the array. */
  datatype Loading = Loading(conf: Conf, wild: bool)

  const FULL: int := -8
  const TOO_LONG: int := -7

  /** The bytes before the first NUL. */
  function CString(s: string): string {
    if s == [] || s[0] == NUL then [] else [s[0]] + CString(s[1..])
  }

  /** A string field with room for `size` bytes and a terminator. */
  function Fill(content: string, beyond: string, size: nat): (string, int) {
    var f := Fold(content + beyond, |content|, size);
    (CString(f.out), if f.ok then 0 else TOO_LONG)
  }

  function Signed8(n: int): (r: int)
    ensures -128 <= r <= 127 && exists k :: n == r + 256 * k
  {
    assert n == (n + 128) % 256 - 128 + 256 * ((n + 128) / 256);
    (n + 128) % 256 - 128
  }

  /** Whether the element at the counter is inside its array. */
  predicate ListenRoom(c: Conf) { |c.listens| < 16 }

  predicate WebsiteRoom(c: Conf) { ListenRoom(c) && |c.listen.websites| < 64 }

  predicate RewriteRoom(w: Website) { |w.rewrites| < 10 }

  predicate RedirectRoom(w: Website) { |w.redirects| < 100 }

  predicate ServerRoom(w: Website) { |w.forward.forward_servers| < 1000 }

  predicate MimeRoom(c: Conf) { |c.mime_types| < 256 }

  function WithWebsite(c: Conf, w: Website): Conf { c.(listen := c.listen.(website := w)) }

  /** Whether the elements through which a field is addressed are inside their arrays. */
  predicate Reachable(c: Conf, f: Field) {
    var w := c.listen.website;
    match f
    case WorkerProcesses => true
    case User => true
    case Listens => true
    case ListenIp => ListenRoom(c)
    case ListenPort => ListenRoom(c)
    case Websites => ListenRoom(c)
    case Pattern => WebsiteRoom(c) && RewriteRoom(w)
    case NewUri => WebsiteRoom(c) && RewriteRoom(w)
    case RedirectDomain => WebsiteRoom(c) && RedirectRoom(w)
    case NewDomain => WebsiteRoom(c) && RedirectRoom(w)
    case ServerIp => WebsiteRoom(c) && ServerRoom(w)
    case ServerPort => WebsiteRoom(c) && ServerRoom(w)
    case MimeTypes => true
    case MimeKind => MimeRoom(c)
    case MimeText => MimeRoom(c)
    case CompressEnable => MimeRoom(c)
    case Unknown => true
    case _ => WebsiteRoom(c)
  }

  /** Entering an element: is the array full? */
  predicate IsFull(c: Conf, f: Field) {
    match f
    case Listens => |c.listens| >= 16
    case Websites => |c.listen.websites| >= 64
    case Rewrites => |c.listen.website.rewrites| >= 10
    case Redirects => |c.listen.website.redirects| >= 100
    case Servers => |c.listen.website.forward.forward_servers| >= 1000
    case MimeTypes => |c.mime_types| >= 256
    case _ => false
  }

  /** Leaving an element counts it; the next element is still zero. */
  function Leave(c: Conf, f: Field): Conf {
    var w := c.listen.website;
    match f
    case Listens => c.(listens := c.listens + [c.listen], listen := ZERO_LISTEN)
    case Websites => c.(listen := c.listen.(websites := c.listen.websites + [w], website := ZERO_WEBSITE))
    case Rewrites => WithWebsite(c, w.(rewrites := w.rewrites + [w.rewrite], rewrite := ZERO_REWRITE))
    case Redirects => WithWebsite(c, w.(redirects := w.redirects + [w.redirect], redirect := ZERO_REDIRECT))
    case Servers => WithWebsite(c, w.(forward := LeaveServer(w.forward)))
    case MimeTypes => c.(mime_types := c.mime_types + [c.mime_type], mime_type := ZERO_MIME_TYPE)
    case _ => c
  }

  function LeaveServer(f: Forward): Forward {
    f.(forward_servers := f.forward_servers + [f.forward_server], forward_server := ZERO_SERVER)
  }

  /** How many bytes fit a string field; 0 for other fields. */
  function TextSize(f: Field): nat {
    match f
    case User => 64
    case ListenIp => 15
    case Domain => 256
    case Wwwroot => 1024
    case Pattern => 256
    case NewUri => 256
    case RedirectDomain => 64
    case NewDomain => 64
    case ForwardType => 16
    case ForwardRule => 1
    case ServerIp => 15
    case MimeKind => 50
    case MimeText => 100
    case _ => 0
  }

  /** How many bytes of an integer field are converted; 0 for other fields. */
  function IntWidth(f: Field): nat {
    match f
    case WorkerProcesses => 10
    case ListenPort => 10
    case ServerPort => 10
    case CompressEnable => 3
    case _ => 0
  }

  /** Assign to a string field, in the elements at the counters. */
  function PutText(c: Conf, f: Field, s: string): Conf {
    var w := c.listen.website;
    match f
    case User => c.(user := s)
    case ListenIp => c.(listen := c.listen.(ip := s))
    case Domain => WithWebsite(c, w.(domain := s))
    case Wwwroot => WithWebsite(c, w.(wwwroot := s))
    case Pattern => WithWebsite(c, w.(rewrite := w.rewrite.(pattern := s)))
    case NewUri => WithWebsite(c, w.(rewrite := w.rewrite.(new_uri := s)))
    case RedirectDomain => WithWebsite(c, w.(redirect := w.redirect.(domain := s)))
    case NewDomain => WithWebsite(c, w.(redirect := w.redirect.(new_domain := s)))
    case ForwardType => WithWebsite(c, w.(forward := w.forward.(forward_type := s)))
    case ForwardRule => WithWebsite(c, w.(forward := w.forward.(forward_rule := s)))
    case ServerIp => WithWebsite(c, w.(forward := w.forward.(forward_server := w.forward.forward_server.(ip := s))))
    case MimeKind => c.(mime_type := c.mime_type.(kind := s))
    case MimeText => c.(mime_type := c.mime_type.(mime := s))
    case _ => c
  }

  /** Assign to an integer field; `compress_enable` is a signed byte. */
  function PutInt(c: Conf, f: Field, n: int): Conf {
    var w := c.listen.website;
    match f
    case WorkerProcesses => c.(worker_processes := n)
    case ListenPort => c.(listen := c.listen.(port := n))
    case ServerPort => WithWebsite(c, w.(forward := w.forward.(forward_server := w.forward.forward_server.(port := n))))
    case CompressEnable => c.(mime_type := c.mime_type.(compress_enable := Signed8(n)))
    case _ => c
  }

  /** A leaf: a string that does not fit its field is cut off and reported. */
  function StoreLeaf(c: Conf, f: Field, content: string, beyond: string): (Conf, int) {
    if TextSize(f) > 0 then
      var (s, r) := Fill(content, beyond, TextSize(f)); (PutText(c, f, s), r)
    else if IntWidth(f) > 0 then (PutInt(c, f, Convert(content + beyond, IntWidth(f))), 0)
    else (c, 0)
  }

  /** `CallbackOnJsonNode_hetao_conf`. */
  function OnNode(l: Loading, e: Event): (Loading, int) {
    var f := Classify(e.path);
    if e.kind == EnterArray || e.kind == LeaveArray then (l, 0)
    else if !Reachable(l.conf, f) then (l.(wild := true), 0)
    else match e.kind
      case EnterBranch => (l, if IsFull(l.conf, f) then FULL else 0)
      case LeaveBranch => (l.(conf := Leave(l.conf, f)), 0)
      case _ =>
        var (c, r) := StoreLeaf(l.conf, f, e.content, e.beyond); (l.(conf := c), r)
  }

  /** `DSCDESERIALIZE_JSON_hetao_conf`: read a text into a configuration. */
  function LoadInto(text: string, conf: Conf): Outcome<Loading> {
    Travel(text, seq(1025, _ => NUL), Loading(conf, false), OnNode)
  }

  /** Read a text into a zeroed configuration. */
  function Load(text: string): Outcome<Loading> { LoadInto(text, ZERO_CONF) }

  // ----- the value tree of a configuration

  /** A field that starts with the marker byte is printed as `null`. */
  function TextOf(s: string): Scalar {
    if s != [] && s[0] == MARKER[0] then Null else Scalar.Text(Escape(s))
  }

  function IntOf(n: int): Scalar { Number(Decimal(n)) }

  function RewriteMembers(x: Rewrite): MemberList {
    ScalarMember("pattern", TextOf(x.pattern), ScalarMember("new_uri", TextOf(x.new_uri), NoMember))
  }

  function RedirectMembers(x: Redirect): MemberList {
    ScalarMember("domain", TextOf(x.domain), ScalarMember("new_domain", TextOf(x.new_domain), NoMember))
  }

  function ServerMembers(x: Server): MemberList {
    ScalarMember("ip", TextOf(x.ip), ScalarMember("port", IntOf(x.port), NoMember))
  }

  function RewriteItems(xs: seq<Rewrite>): ItemList {
    if xs == [] then NoItem else ObjectItem(RewriteMembers(xs[0]), RewriteItems(xs[1..]))
  }

  function RedirectItems(xs: seq<Redirect>): ItemList {
    if xs == [] then NoItem else ObjectItem(RedirectMembers(xs[0]), RedirectItems(xs[1..]))
  }

  function ServerItems(xs: seq<Server>): ItemList {
    if xs == [] then NoItem else ObjectItem(ServerMembers(xs[0]), ServerItems(xs[1..]))
  }

  function ForwardMembers(x: Forward): MemberList {
    ScalarMember("forward_type", TextOf(x.forward_type),
      ScalarMember("forward_rule", TextOf(x.forward_rule),
        ArrayMember("forward_server", ServerItems(x.forward_servers), NoMember)))
  }

  function WebsiteMembers(x: Website): MemberList {
    ScalarMember("domain", TextOf(x.domain),
      ScalarMember("wwwroot", TextOf(x.wwwroot),
        ArrayMember("rewrite", RewriteItems(x.rewrites),
          ArrayMember("redirect", RedirectItems(x.redirects),
            ObjectMember("forward", ForwardMembers(x.forward), NoMember)))))
  }

  function WebsiteItems(xs: seq<Website>): ItemList {
    if xs == [] then NoItem else ObjectItem(WebsiteMembers(xs[0]), WebsiteItems(xs[1..]))
  }

  function ListenMembers(x: Listen): MemberList {
    ScalarMember("ip", TextOf(x.ip),
      ScalarMember("port", IntOf(x.port),
        ArrayMember("website", WebsiteItems(x.websites), NoMember)))
  }

  function ListenItems(xs: seq<Listen>): ItemList {
    if xs == [] then NoItem else ObjectItem(ListenMembers(xs[0]), ListenItems(xs[1..]))
  }

  function MimeMembers(x: MimeType): MemberList {
    ScalarMember("type", TextOf(x.kind),
      ScalarMember("mime", TextOf(x.mime),
        ScalarMember("compress_enable", IntOf(x.compress_enable), NoMember)))
  }

  function MimeItems(xs: seq<MimeType>): ItemList {
    if xs == [] then NoItem else ObjectItem(MimeMembers(xs[0]), MimeItems(xs[1..]))
  }

  function ConfMembers(c: Conf): MemberList {
    ScalarMember("worker_processes", IntOf(c.worker_processes),
      ScalarMember("user", TextOf(c.user),
        ArrayMember("listen", ListenItems(c.listens),
          ObjectMember("mime_types", ArrayMember("mime_type", MimeItems(c.mime_types), NoMember), NoMember))))
  }

  /** The text of a configuration. */
  function ConfText(c: Conf): string { ShowDocument(ConfMembers(c)) }
}
