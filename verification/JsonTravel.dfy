/** `TravelJsonBuffer`: the three mutually recursive traversals, as functions of the remaining
    text, the shared path buffer and the user's data. */
module JsonTravel {

  import opened JsonText
  import opened JsonToken

  datatype Kind = EnterBranch | LeaveBranch | EnterArray | LeaveArray | Leaf

  /** A call of the callback: the path is what the buffer holds up to the path length.  The content
      is a part of the document and not terminated; `beyond` is the text after it. */
  datatype Event = Event(kind: Kind, path: string, node: string, content: string, beyond: string)

  /** The callback maps the user's data to new data and a return value. */
  type Callback<!S> = (S, Event) -> (S, int)

  /** What a traversal has met so far.  `rooted`: no array that was visited at a path shorter than
      that of the array around it; `plain`: no key with a slash. */
  datatype Shape = Shape(rooted: bool, plain: bool)

  const NOTHING: Shape := Shape(true, true)

  datatype State<S> = State(rest: string, jpath: string, user: S, seen: Shape)

  datatype Outcome<S> = Outcome(st: State<S>, ret: int)

  const ERROR_TOP: int := -121
  const ERROR_LEAF1: int := -131
  const ERROR_LEAF2: int := -132
  const ERROR_LEAF3: int := -133
  const ERROR_LEAF4: int := -134
  const ERROR_ARRAY1: int := -141
  const ERROR_ARRAY2: int := -142
  const MALFORMED: int := -150
  const END_OF_BUFFER: int := -160
  const END_OF_TEXT: int := 150

  // ----- the shared path buffer

  /** The bytes of `s` written over the buffer from `at`. */
  function Overwrite(jpath: string, at: nat, s: string): (r: string)
    requires at + |s| <= |jpath|
    ensures |r| == |jpath|
  {
    jpath[..at] + s + jpath[at + |s|..]
  }

  /** Write "/name" and a terminator behind the first `n` bytes, or an abbreviation when the name
      does not fit, or nothing.  The result is the buffer and the new path length. */
  function Append(jpath: string, n: nat, name: string): (r: (string, nat))
    requires n < |jpath|
    ensures |r.0| == |jpath| && n <= r.1 < |jpath|
  {
    if n + 1 + |name| < |jpath| - 2 then (Overwrite(jpath, n, "/" + name + [NUL]), n + 1 + |name|)
    else if n + 2 <= |jpath| - 1 then (Overwrite(jpath, n, "/*" + [NUL]), n + 2)
    else (jpath, n)
  }

  /** The path a name leads to in a buffer of `size` bytes. */
  function Extend(path: string, name: string, size: nat): string {
    if |path| + 1 + |name| < size - 2 then path + "/" + name
    else if |path| + 2 <= size - 1 then path + "/*"
    else path
  }

  /** Appending a name keeps the enclosing path and leaves the extended path in the buffer. */
  lemma AppendExtends(jpath: string, n: nat, name: string)
    requires n < |jpath|
    ensures var (buf, m) := Append(jpath, n, name);
      && buf[..n] == jpath[..n] && buf[..m] == Extend(jpath[..n], name, |jpath|)
  {
    var (buf, m) := Append(jpath, n, name);
    if n + 1 + |name| < |jpath| - 2 {
      assert buf[..m] == jpath[..n] + "/" + name;
    } else if n + 2 <= |jpath| - 1 {
      assert buf[..m] == jpath[..n] + "/*";
    }
  }

  /** The buffer holds the new path with a terminator behind it; only the bytes of the name and the terminator are written.
      The name is used when it leaves three bytes of the buffer free. */
  lemma AppendTerminates(jpath: string, n: nat, name: string)
    requires n < |jpath|
    ensures var (buf, m) := Append(jpath, n, name);
      && (n < m ==> buf[m] == NUL && buf[m + 1..] == jpath[m + 1..])
      && (n == m ==> buf == jpath)
      && (n + 1 + |name| + 3 <= |jpath| <==> m == n + 1 + |name| && buf[..m] == jpath[..n] + "/" + name && m + 3 <= |jpath|)
  {
    AppendExtends(jpath, n, name);
  }

  // ----- the traversals

  function Fire<S>(st: State<S>, e: Event, cb: Callback<S>): (o: Outcome<S>)
    ensures o.st.rest == st.rest && o.st.jpath == st.jpath && o.st.seen == st.seen
  {
    var (user, ret) := cb(st.user, e);
    Outcome(st.(user := user), ret)
  }

  /** A positive return value leaves the loop without an error. */
  function Halt<S>(o: Outcome<S>): Outcome<S> {
    if o.ret > 0 then o.(ret := 0) else o
  }

  /** An array is visited at path length `m`, directly inside an array whose path has length `n`. */
  function Misplaced(seen: Shape, n: nat, m: nat): Shape {
    seen.(rooted := seen.rooted && n <= m)
  }

  function Branch(kind: Kind, path: string, node: string): Event {
    Event(kind, path, node, [], [])
  }

  function LeafEvent(path: string, node: string, from: string, len: nat): Event
    requires len <= |from|
  {
    Event(Leaf, path, node, from[..len], from[len..])
  }

  /** `_TravelJsonLeafBuffer` before the name of a member. */
  function Members<S>(st: State<S>, n: nat, first: bool, cb: Callback<S>): (o: Outcome<S>)
    requires n < |st.jpath|
    ensures |o.st.jpath| == |st.jpath| && |o.st.rest| <= |st.rest|
    decreases |st.rest|, 0
  {
    match NextToken(st.rest)
    case End => Outcome(st, END_OF_BUFFER)
    case Invalid => Outcome(st, MALFORMED)
    case Token(tag, from, len, quotes, rest) =>
      if tag == RightBrace && first then Outcome(st.(rest := rest), 0)
      else if tag != Text then Outcome(st, ERROR_LEAF1)
      else Member(st.(rest := rest), n, from[..len], quotes, cb)
  }

  /** After the name of a member. */
  function Member<S>(st: State<S>, n: nat, name: string, quotes: char, cb: Callback<S>): (o: Outcome<S>)
    requires n < |st.jpath|
    ensures |o.st.jpath| == |st.jpath| && |o.st.rest| <= |st.rest|
    decreases |st.rest|, 0
  {
    match NextToken(st.rest)
    case End => Outcome(st, END_OF_BUFFER)
    case Invalid => Outcome(st, MALFORMED)
    case Token(tag, from, len, _, rest) =>
      if tag == Colon then
        if quotes == '\"' then MemberValue(st.(rest := rest), n, name, cb) else Outcome(st, ERROR_LEAF1)
      else if tag == Comma then Outcome(st, ERROR_LEAF1)
      else if tag == RightBrace || tag == RightBracket then
        var (buf, m) := Append(st.jpath, n, ".");
        Halt(Fire(st.(rest := rest, jpath := buf), LeafEvent(buf[..m], [], from, len), cb))
      else Outcome(st, ERROR_LEAF2)
  }

  /** After the colon. */
  function MemberValue<S>(st: State<S>, n: nat, name: string, cb: Callback<S>): (o: Outcome<S>)
    requires n < |st.jpath|
    ensures |o.st.jpath| == |st.jpath| && |o.st.rest| <= |st.rest|
    decreases |st.rest|, 0
  {
    var (buf, m) := Append(st.jpath, n, name);
    var here := st.(jpath := buf, seen := st.seen.(plain := st.seen.plain && '/' !in name));
    match NextToken(st.rest)
    case End => Outcome(here, END_OF_BUFFER)
    case Invalid => Outcome(here, MALFORMED)
    case Token(tag, from, len, quotes, rest) =>
      if tag == Text || tag == Special then
        if quotes == '\'' then Outcome(here, ERROR_LEAF3)
        else
          var leaf := Fire(here.(rest := rest), LeafEvent(buf[..m], name, from, len), cb);
          if leaf.ret != 0 then Halt(leaf) else AfterMember(leaf.st, n, cb)
      else if tag == LeftBrace then MemberObject(here.(rest := rest), n, m, name, cb)
      else if tag == LeftBracket then MemberArray(here.(rest := rest), n, m, cb)
      else Outcome(here, ERROR_LEAF3)
  }

  /** After the opening brace of a member; the path of the member has length `m`. */
  function MemberObject<S>(st: State<S>, n: nat, m: nat, name: string, cb: Callback<S>): (o: Outcome<S>)
    requires n < |st.jpath| && m < |st.jpath|
    ensures |o.st.jpath| == |st.jpath| && |o.st.rest| <= |st.rest|
    decreases |st.rest|, 1
  {
    var enter := Fire(st, Branch(EnterBranch, st.jpath[..m], name), cb);
    if enter.ret != 0 then Halt(enter)
    else
      var inner := Members(enter.st, m, true, cb);
      if inner.ret != 0 then inner
      else
        var (buf, k) := Append(inner.st.jpath, n, name);
        var leave := Fire(inner.st.(jpath := buf), Branch(LeaveBranch, buf[..k], name), cb);
        if leave.ret != 0 then Halt(leave) else AfterMember(leave.st, n, cb)
  }

  /** After the opening bracket of a member. */
  function MemberArray<S>(st: State<S>, n: nat, m: nat, cb: Callback<S>): (o: Outcome<S>)
    requires n < |st.jpath| && m < |st.jpath|
    ensures |o.st.jpath| == |st.jpath| && |o.st.rest| <= |st.rest|
    decreases |st.rest|, 1
  {
    var enter := Fire(st, Branch(EnterArray, st.jpath[..m], "["), cb);
    if enter.ret != 0 then Halt(enter)
    else
      var inner := Items(enter.st, m, true, 0, cb);
      if inner.ret != 0 then inner
      else
        var leave := Fire(inner.st, Branch(LeaveArray, inner.st.jpath[..m], "["), cb);
        if leave.ret != 0 then Halt(leave)
        else AfterMember(leave.st.(jpath := Append(leave.st.jpath, n, "[").0), n, cb)
  }

  /** After the value of a member. */
  function AfterMember<S>(st: State<S>, n: nat, cb: Callback<S>): (o: Outcome<S>)
    requires n < |st.jpath|
    ensures |o.st.jpath| == |st.jpath| && |o.st.rest| <= |st.rest|
    decreases |st.rest|, 0
  {
    match NextToken(st.rest)
    case End => Outcome(st, END_OF_BUFFER)
    case Invalid => Outcome(st, MALFORMED)
    case Token(tag, _, _, _, rest) =>
      if tag == Comma then Members(st.(rest := rest), n, false, cb)
      else if tag == RightBrace then Outcome(st.(rest := rest), 0)
      else Outcome(st, ERROR_LEAF4)
  }

  /** `_TravelJsonArrayBuffer` before an item.  `m` is the path length left over from the item
      before; an array directly inside the array is visited at that length. */
  function Items<S>(st: State<S>, n: nat, first: bool, m: nat, cb: Callback<S>): (o: Outcome<S>)
    requires n < |st.jpath| && m < |st.jpath|
    ensures |o.st.jpath| == |st.jpath| && |o.st.rest| <= |st.rest|
    decreases |st.rest|, 0
  {
    match NextToken(st.rest)
    case End => Outcome(st, END_OF_BUFFER)
    case Invalid => Outcome(st, MALFORMED)
    case Token(tag, from, len, quotes, rest) =>
      if tag == Text || tag == Special then
        if quotes == '\'' then Outcome(st, ERROR_LEAF1)
        else
          var (buf, k) := Append(st.jpath, n, ".");
          var leaf := Fire(st.(rest := rest, jpath := buf), LeafEvent(buf[..k], [], from, len), cb);
          if leaf.ret != 0 then Halt(leaf) else AfterItem(leaf.st, n, k, cb)
      else if tag == LeftBrace then ItemObject(st.(rest := rest), n, m, cb)
      else if tag == LeftBracket then ItemArray(st.(rest := rest, seen := Misplaced(st.seen, n, m)), n, m, cb)
      else if tag == RightBracket && first then Outcome(st.(rest := rest), 0)
      else Outcome(st, ERROR_ARRAY1)
  }

  function ItemObject<S>(st: State<S>, n: nat, m: nat, cb: Callback<S>): (o: Outcome<S>)
    requires n < |st.jpath| && m < |st.jpath|
    ensures |o.st.jpath| == |st.jpath| && |o.st.rest| <= |st.rest|
    decreases |st.rest|, 1
  {
    var enter := Fire(st, Branch(EnterBranch, st.jpath[..n], "["), cb);
    if enter.ret != 0 then Halt(enter)
    else
      var inner := Members(enter.st, n, true, cb);
      if inner.ret != 0 then inner
      else
        var leave := Fire(inner.st, Branch(LeaveBranch, inner.st.jpath[..n], "["), cb);
        if leave.ret != 0 then Halt(leave) else AfterItem(leave.st, n, m, cb)
  }

  function ItemArray<S>(st: State<S>, n: nat, m: nat, cb: Callback<S>): (o: Outcome<S>)
    requires n < |st.jpath| && m < |st.jpath|
    ensures |o.st.jpath| == |st.jpath| && |o.st.rest| <= |st.rest|
    decreases |st.rest|, 1
  {
    var enter := Fire(st, Branch(EnterArray, st.jpath[..m], "["), cb);
    if enter.ret != 0 then Halt(enter)
    else
      var inner := Items(enter.st, m, true, 0, cb);
      if inner.ret != 0 then inner
      else
        var leave := Fire(inner.st, Branch(LeaveArray, inner.st.jpath[..m], "["), cb);
        if leave.ret != 0 then Halt(leave)
        else
          var (buf, k) := Append(leave.st.jpath, n, "[");
          AfterItem(leave.st.(jpath := buf), n, k, cb)
  }

  function AfterItem<S>(st: State<S>, n: nat, m: nat, cb: Callback<S>): (o: Outcome<S>)
    requires n < |st.jpath| && m < |st.jpath|
    ensures |o.st.jpath| == |st.jpath| && |o.st.rest| <= |st.rest|
    decreases |st.rest|, 0
  {
    match NextToken(st.rest)
    case End => Outcome(st, END_OF_BUFFER)
    case Invalid => Outcome(st, MALFORMED)
    case Token(tag, _, _, _, rest) =>
      if tag == Comma then Items(st.(rest := rest), n, false, m, cb)
      else if tag == RightBracket then Outcome(st.(rest := rest), 0)
      else Outcome(st, ERROR_ARRAY2)
  }

  /** `_TravelJsonBuffer`: the objects and arrays of the document, one after the other. */
  function Document<S>(st: State<S>, cb: Callback<S>): (o: Outcome<S>)
    requires 0 < |st.jpath|
    ensures |o.st.jpath| == |st.jpath|
    decreases |st.rest|
  {
    match NextToken(st.rest)
    case End => Outcome(st, END_OF_TEXT)
    case Invalid => Outcome(st, MALFORMED)
    case Token(tag, _, _, _, rest) =>
      if tag != LeftBrace && tag != LeftBracket then Outcome(st, ERROR_TOP)
      else
        var here := st.(rest := rest);
        var braces := tag == LeftBrace;
        var node := if braces then "{" else "[";
        var enter := Fire(here, Branch(if braces then EnterBranch else EnterArray, [], node), cb);
        if enter.ret != 0 then Halt(enter)
        else
          var inner := if braces then Members(enter.st, 0, true, cb) else Items(enter.st, 0, true, 0, cb);
          if inner.ret != 0 then inner
          else
            var leave := Fire(inner.st, Branch(if braces then LeaveBranch else LeaveArray, [], node), cb);
            if leave.ret != 0 then Halt(leave) else Document(leave.st, cb)
  }

  /** `TravelJsonBuffer`: the end of the text is not an error. */
  function Travel<S>(text: string, jpath: string, user: S, cb: Callback<S>): Outcome<S>
    requires 0 < |jpath|
  {
    var o := Document(State(text, jpath, user, NOTHING), cb);
    if o.ret == END_OF_TEXT then o.(ret := 0) else o
  }
}
