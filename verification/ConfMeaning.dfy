/** What a value tree means for a configuration, by recursion over the tree, without paths and calls. */
module ConfMeaning {

  import opened JsonText
  import opened JsonToken
  import opened JsonTravel
  import opened JsonPrint
  import opened JsonLayout
  import opened Decimals
  import opened HetaoConf
  import EscapeBytes

  // ----- the meaning

  /** The objects of a configuration. */
  datatype Spot = Top | Listening | Site | Rewriting | Redirecting | Forwarding | Serving | Mimes | Mime | Nowhere

  /** The field that a member of an object is about. */
  function FieldAt(s: Spot, key: string): Field {
    match s
    case Top =>
      if key == "worker_processes" then WorkerProcesses else if key == "user" then User
      else if key == "listen" then Listens else Unknown
    case Listening =>
      if key == "ip" then ListenIp else if key == "port" then ListenPort else if key == "website" then Websites else Unknown
    case Site =>
      if key == "domain" then Domain else if key == "wwwroot" then Wwwroot else if key == "rewrite" then Rewrites
      else if key == "redirect" then Redirects else Unknown
    case Rewriting => if key == "pattern" then Pattern else if key == "new_uri" then NewUri else Unknown
    case Redirecting => if key == "domain" then RedirectDomain else if key == "new_domain" then NewDomain else Unknown
    case Forwarding =>
      if key == "forward_type" then ForwardType else if key == "forward_rule" then ForwardRule
      else if key == "forward_server" then Servers else Unknown
    case Serving => if key == "ip" then ServerIp else if key == "port" then ServerPort else Unknown
    case Mimes => if key == "mime_type" then MimeTypes else Unknown
    case Mime =>
      if key == "type" then MimeKind else if key == "mime" then MimeText
      else if key == "compress_enable" then CompressEnable else Unknown
    case Nowhere => Unknown
  }

  /** The object that a member holds. */
  function Into(s: Spot, key: string): Spot {
    match s
    case Top => if key == "listen" then Listening else if key == "mime_types" then Mimes else Nowhere
    case Listening => if key == "website" then Site else Nowhere
    case Site =>
      if key == "rewrite" then Rewriting else if key == "redirect" then Redirecting
      else if key == "forward" then Forwarding else Nowhere
    case Forwarding => if key == "forward_server" then Serving else Nowhere
    case Mimes => if key == "mime_type" then Mime else Nowhere
    case _ => Nowhere
  }

  function Raw(v: Scalar): string {
    match v
    case Text(raw) => raw
    case Number(raw) => raw
    case Null => MARKER
  }

  /** A scalar is stored in its field; a text that does not fit is cut off, and the load fails with -7. */
  function Put(c: Conf, f: Field, v: Scalar): (Conf, int) {
    if TextSize(f) > 0 then
      var folded := Fold(Raw(v), |Raw(v)|, TextSize(f));
      (PutText(c, f, CString(folded.out)), if folded.ok then 0 else -7)
    else if IntWidth(f) > 0 then (PutInt(c, f, Convert(Raw(v), IntWidth(f))), 0)
    else (c, 0)
  }

  function MeanMembers(ms: MemberList, s: Spot, c: Conf): (Conf, int)
    decreases ms, 1
  {
    if ms.NoMember? then (c, 0)
    else
      var (d, ret) := MeanValue(ms, s, c);
      if ret != 0 then (d, ret) else MeanMembers(ms.more, s, d)
  }

  /** The first member. */
  function MeanValue(ms: MemberList, s: Spot, c: Conf): (Conf, int)
    requires !ms.NoMember?
    decreases ms, 0
  {
    match ms
    case ScalarMember(key, v, _) => Put(c, FieldAt(s, key), v)
    case ObjectMember(key, inner, _) => MeanObject(inner, FieldAt(s, key), Into(s, key), c)
    case ArrayMember(key, items, _) => MeanItems(items, FieldAt(s, key), Into(s, key), c)
  }

  /** An object of a counted array fills the element at the counter, and is counted, whether it stands in an array
      or under a repeated key; with a full array the load fails with -8. */
  function MeanObject(ms: MemberList, f: Field, s: Spot, c: Conf): (Conf, int)
    decreases ms, 2
  {
    if IsFull(c, f) then (c, -8)
    else
      var (d, ret) := MeanMembers(ms, s, c);
      if ret != 0 then (d, ret) else (Leave(d, f), 0)
  }

  function MeanItems(items: ItemList, f: Field, s: Spot, c: Conf): (Conf, int)
    decreases items, 0
  {
    match items
    case NoItem => (c, 0)
    case ScalarItem(_, more) => MeanItems(more, f, s, c)
    case ObjectItem(inner, more) =>
      var (d, ret) := MeanObject(inner, f, s, c);
      if ret != 0 then (d, ret) else MeanItems(more, f, s, d)
  }

  // ----- scalars that do not depend on what follows them

  /** Unescaping looks at nothing behind the text: it does not end inside an escape. */
  predicate Whole(raw: string)
    decreases |raw|
  {
    raw == [] ||
    match FoldStep(raw)
    case Stuck => |raw| >= 6
    case Step(_, used) => used <= |raw| && Whole(raw[used..])
  }

  predicate Settled(v: Scalar) {
    match v
    case Text(raw) => Whole(raw)
    case Number(raw) => raw != [] && !Space(raw[0])
    case Null => true
  }

  predicate SettledMembers(ms: MemberList) {
    match ms
    case NoMember => true
    case ScalarMember(_, v, more) => Settled(v) && SettledMembers(more)
    case ObjectMember(_, inner, more) => SettledMembers(inner) && SettledMembers(more)
    case ArrayMember(_, items, more) => SettledItems(items) && SettledMembers(more)
  }

  predicate SettledItems(items: ItemList) {
    match items
    case NoItem => true
    case ScalarItem(_, more) => SettledItems(more)
    case ObjectItem(inner, more) => SettledMembers(inner) && SettledItems(more)
  }

  /** A tree that can be printed, without a slash in a key, whose scalars depend on themselves only. */
  predicate Sound(ms: MemberList) { Printable(ms) && PlainMembers(ms) && SettledMembers(ms) }

  predicate SoundItems(items: ItemList) { PrintableItems(items) && PlainItems(items) && SettledItems(items) }

  lemma GroupBefore(raw: string, after: string)
    requires raw != [] && High(raw[0]) && (after != [] ==> !High(after[0]))
    ensures GroupLength(raw + after, 0) == GroupLength(raw, 0)
  {
    assert forall i :: 0 <= i < |raw| ==> ByteAt(raw + after, i) == ByteAt(raw, i);
    assert !Continues(ByteAt(raw + after, |raw|)) && !Continues(ByteAt(raw, |raw|));
    hide Continues;
  }

  lemma StepBefore(raw: string, after: string)
    requires raw != [] && (after != [] ==> !High(after[0]))
    requires var step := FoldStep(raw); if step.Step? then step.used <= |raw| else |raw| >= 6
    ensures FoldStep(raw + after) == FoldStep(raw)
  {
    hide FoldHex, GroupLength;
    assert forall i :: 0 <= i < |raw| ==> ByteAt(raw + after, i) == ByteAt(raw, i);
    if High(raw[0]) {
      GroupBefore(raw, after);
      GroupIsHigh(raw, 0);
      assert (raw + after)[..GroupLength(raw, 0)] == raw[..GroupLength(raw, 0)];
    }
  }

  lemma {:induction false} FoldBefore(raw: string, after: string, room: int)
    requires Whole(raw) && (after != [] ==> !High(after[0]))
    ensures Fold(raw + after, |raw|, room) == Fold(raw, |raw|, room)
    decreases |raw|
  {
    hide Fold, FoldStep;
    if raw == [] {
      assert raw + after == after;
      EscapeBytes.FoldDone(raw, room);
      EscapeBytes.FoldDone(after, room);
    } else {
      StepBefore(raw, after);
      var step := FoldStep(raw);
      if step.Stuck? {
        FoldStops(raw, |raw|, room);
        FoldStops(raw + after, |raw|, room);
      } else {
        assert (raw + after)[step.used..] == raw[step.used..] + after;
        EscapeBytes.FoldBy(raw, |raw|, room, step.piece, step.used, raw[step.used..]);
        EscapeBytes.FoldBy(raw + after, |raw|, room, step.piece, step.used, raw[step.used..] + after);
        FoldBefore(raw[step.used..], after, room - |step.piece|);
      }
    }
  }

  /** Escaped text is whole. */
  lemma {:induction false} EscapeWhole(s: string)
    ensures Whole(Escape(s))
    decreases |s|
  {
    hide FoldStep;
    if s == [] {
      EscapeNone();
    } else {
      var m, e := FirstStep(s, []);
      assert Escape(s) + [] == Escape(s) && Escape(s[m..]) + [] == Escape(s[m..]);
      EscapeWhole(s[m..]);
    }
  }

  /** Text without backslashes and bytes above 127 is whole. */
  lemma {:induction false} PlainWhole(s: string)
    requires forall c :: c in s ==> !High(c) && c != '\\'
    ensures Whole(s)
  {
    if s != [] {
      assert s[0] in s && forall c :: c in s[1..] ==> c in s;
      PlainWhole(s[1..]);
    }
  }

  /** A conversion does not look past a byte that is neither white space, nor a sign, nor a digit. */
  lemma {:induction false} DigitsBefore(s: string, after: string, acc: nat)
    requires Ends(after)
    ensures Digits(s + after, acc) == Digits(s, acc)
    decreases |s|
  {
    if s == [] {
      assert s + after == after;
    } else {
      assert (s + after)[1..] == s[1..] + after;
      if IsDigit(s[0]) { DigitsBefore(s[1..], after, acc * 10 + (s[0] as int - '0' as int)); }
    }
  }

  predicate NoNumber(after: string) {
    after == [] || (!Space(after[0]) && after[0] != '-' && after[0] != '+' && !IsDigit(after[0]))
  }

  lemma {:induction false} AtoiBefore(s: string, after: string)
    requires Ends(after) && ((s != [] && !Space(s[0])) || NoNumber(after))
    ensures Atoi(s + after) == Atoi(s)
    decreases |s|
  {
    if s == [] {
      assert s + after == after;
    } else {
      assert (s + after)[1..] == s[1..] + after;
      if Space(s[0]) {
        AtoiBefore(s[1..], after);
      } else {
        DigitsBefore(s[1..], after, 0);
        DigitsBefore(s, after, 0);
      }
    }
  }

  lemma ConvertBefore(s: string, after: string, width: nat)
    requires Ends(after) && ((s != [] && !Space(s[0])) || NoNumber(after))
    ensures Convert(s + after, width) == Convert(s, width)
  {
    if width <= |s| {
      assert Take(s + after, width) == Take(s, width);
    } else {
      var rest := Take(after, width - |s|);
      assert Take(s + after, width) == s + rest;
      AtoiBefore(s, rest);
    }
  }

  /** What a printed scalar stores in a field. */
  lemma PutStored(c: Conf, f: Field, v: Scalar, path: string, key: string, after: string)
    requires Settled(v) && PrintableScalar(v) && Ends(after) && (after != [] ==> !High(after[0]))
    ensures var e := ScalarEvent(v, path, key, after);
      e.kind == Leaf && e.path == path && StoreLeaf(c, f, e.content, e.beyond) == Put(c, f, v)
  {
    hide PutText, PutInt, TextSize, IntWidth, CString, Fold, Convert, Whole, Bare, Quotable;
    var raw := Raw(v);
    match v
    case Text(_) =>
      FoldBefore(raw, "\"" + after, TextSize(f));
      ConvertBefore(raw, "\"" + after, IntWidth(f));
    case Number(_) =>
      BareWhole(raw);
      FoldBefore(raw, after, TextSize(f));
      ConvertBefore(raw, after, IntWidth(f));
    case Null =>
      assert MARKER + [] == MARKER;
  }

  lemma BareWhole(raw: string)
    requires Bare(raw)
    ensures Whole(raw)
  {
    hide Whole;
    forall c | c in raw ensures !High(c) && c != '\\' {
      var i :| 0 <= i < |raw| && raw[i] == c;
      assert BareByte(raw[i]);
    }
    PlainWhole(raw);
  }
}
