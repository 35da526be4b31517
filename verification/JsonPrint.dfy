/** Value trees, the layout the serializers print them in, and the calls a traversal of the
    printed text makes. */
module JsonPrint {
  import opened JsonToken
  import opened JsonTravel

  /** `Text` and `Number` hold the spelling: between the quotes, or without quotes. */
  datatype Scalar = Text(raw: string) | Number(raw: string) | Null

  /** The members of an object.  No array sits directly inside an array. */
  datatype MemberList =
    | NoMember
    | ScalarMember(key: string, scalar: Scalar, more: MemberList)
    | ObjectMember(key: string, members: MemberList, more: MemberList)
    | ArrayMember(key: string, items: ItemList, more: MemberList)

  datatype ItemList =
    | NoItem
    | ScalarItem(scalar: Scalar, more: ItemList)
    | ObjectItem(members: MemberList, more: ItemList)

  /** Keys and texts can stand between double quotes; numbers are unquoted text that is read back
      whole. */
  predicate PrintableScalar(v: Scalar) {
    (v.Text? ==> Quotable(v.raw)) && (v.Number? ==> Bare(v.raw))
  }

  predicate Printable(ms: MemberList) {
    match ms
    case NoMember => true
    case ScalarMember(key, v, more) => Quotable(key) && PrintableScalar(v) && Printable(more)
    case ObjectMember(key, inner, more) => Quotable(key) && Printable(inner) && Printable(more)
    case ArrayMember(key, items, more) => Quotable(key) && PrintableItems(items) && Printable(more)
  }

  predicate PrintableItems(items: ItemList) {
    match items
    case NoItem => true
    case ScalarItem(v, more) => PrintableScalar(v) && PrintableItems(more)
    case ObjectItem(inner, more) => Printable(inner) && PrintableItems(more)
  }

  // ----- the layout; every function prints in front of the text `next`

  function Tabs(depth: nat): (s: string)
    ensures AllBlank(s)
  {
    seq(depth, _ => '\t')
  }

  /** What stands between a member or item and the next one, or the closing mark. */
  function Separator(last: bool): string {
    if last then "\n" else " ,\n"
  }

  function ShowText(raw: string, next: string): string { "\"" + (raw + ("\"" + next)) }

  function ShowScalar(v: Scalar, next: string): string {
    match v
    case Text(raw) => ShowText(raw, next)
    case Number(raw) => raw + next
    case Null => "null" + next
  }

  function ShowKey(key: string, depth: nat, next: string): string {
    Tabs(depth) + ShowText(key, " : " + next)
  }

  /** An opening or closing mark on its own line. */
  function ShowMark(mark: string, depth: nat, next: string): string { Tabs(depth) + (mark + next) }

  function ShowMembers(ms: MemberList, depth: nat, next: string): string
    decreases ms, 0
  {
    if ms.NoMember? then next
    else
      var after := Separator(ms.more.NoMember?) + ShowMembers(ms.more, depth, next);
      match ms
      case ScalarMember(key, v, _) => ShowKey(key, depth, ShowScalar(v, after))
      case ObjectMember(key, inner, _) => ShowKey(key, depth, "\n" + ShowObject(inner, depth, after))
      case ArrayMember(key, items, _) =>
        ShowKey(key, depth, "\n" + ShowMark("[\n", depth, ShowItems(items, depth, ShowMark("]", depth, after))))
  }

  function ShowObject(ms: MemberList, depth: nat, next: string): string
    decreases ms, 1
  {
    ShowMark("{\n", depth, ShowMembers(ms, depth + 1, ShowMark("}", depth, next)))
  }

  function ShowItems(items: ItemList, depth: nat, next: string): string
    decreases items
  {
    if items.NoItem? then next
    else
      var after := Separator(items.more.NoItem?) + ShowItems(items.more, depth, next);
      match items
      case ScalarItem(v, _) => Tabs(depth) + ShowScalar(v, after)
      case ObjectItem(inner, _) => ShowObject(inner, depth, after)
  }

  /** A whole document: an object. */
  function ShowDocument(ms: MemberList): string {
    ShowObject(ms, 0, "\n")
  }

  // ----- the calls

  function ScalarEvent(v: Scalar, path: string, node: string, after: string): Event {
    match v
    case Text(raw) => Event(Leaf, path, node, raw, "\"" + after)
    case Number(raw) => Event(Leaf, path, node, raw, after)
    case Null => Event(Leaf, path, node, MARKER, [])
  }

  /** The calls for the members of the object at `path`, in a path buffer of `size` bytes. */
  function MemberEvents(ms: MemberList, path: string, size: nat, depth: nat, next: string): seq<Event>
    decreases ms, 0
  {
    if ms.NoMember? then []
    else
      var after := Separator(ms.more.NoMember?) + ShowMembers(ms.more, depth, next);
      var here := Extend(path, ms.key, size);
      (match ms
       case ScalarMember(key, v, _) => [ScalarEvent(v, here, key, after)]
       case ObjectMember(key, inner, _) => ObjectEvents(inner, here, key, size, depth, after)
       case ArrayMember(key, items, _) =>
         [Branch(EnterArray, here, "[")]
         + ItemEvents(items, here, size, depth, ShowMark("]", depth, after))
         + [Branch(LeaveArray, here, "[")])
      + MemberEvents(ms.more, path, size, depth, next)
  }

  function ObjectEvents(ms: MemberList, path: string, node: string, size: nat, depth: nat, after: string): seq<Event>
    decreases ms, 1
  {
    [Branch(EnterBranch, path, node)]
    + MemberEvents(ms, path, size, depth + 1, ShowMark("}", depth, after))
    + [Branch(LeaveBranch, path, node)]
  }

  /** The calls for the items of the array at `path`: objects are reported under the path of the
      array. */
  function ItemEvents(items: ItemList, path: string, size: nat, depth: nat, next: string): seq<Event>
    decreases items
  {
    if items.NoItem? then []
    else
      var after := Separator(items.more.NoItem?) + ShowItems(items.more, depth, next);
      (match items
       case ScalarItem(v, _) => [ScalarEvent(v, Extend(path, ".", size), [], after)]
       case ObjectItem(inner, _) => ObjectEvents(inner, path, "[", size, depth, after))
      + ItemEvents(items.more, path, size, depth, next)
  }

  function DocumentEvents(ms: MemberList, size: nat): seq<Event> {
    ObjectEvents(ms, [], "{", size, 0, "\n")
  }
}
