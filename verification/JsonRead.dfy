/** A traversal of a printed value tree makes exactly the calls of that tree. */
module JsonRead {
  import opened JsonToken
  import opened JsonTravel
  import opened JsonPrint
  import JsonPath

  /** The calls in order, up to the first one that does not return zero. */
  function Run<S>(calls: seq<Event>, user: S, cb: Callback<S>): (S, int) {
    if calls == [] then (user, 0)
    else
      var (next, ret) := cb(user, calls[0]);
      if ret != 0 then (next, ret) else Run(calls[1..], next, cb)
  }

  lemma RunOne<S>(e: Event, calls: seq<Event>, user: S, cb: Callback<S>)
    ensures Run([e] + calls, user, cb) ==
      var (next, ret) := cb(user, e); if ret != 0 then (next, ret) else Run(calls, next, cb)
  {
    assert ([e] + calls)[1..] == calls;
  }

  lemma {:induction false} RunConcat<S>(a: seq<Event>, b: seq<Event>, user: S, cb: Callback<S>)
    ensures Run(a + b, user, cb) ==
      var (next, ret) := Run(a, user, cb); if ret != 0 then (next, ret) else Run(b, next, cb)
  {
    if a == [] {
      assert a + b == b;
    } else {
      assert (a + b)[1..] == a[1..] + b;
      var (next, ret) := cb(user, a[0]);
      if ret == 0 { RunConcat(a[1..], b, next, cb); }
    }
  }

  /** Enter, `inner`, leave, `more`. */
  lemma RunBlock<S>(enter: Event, inner: seq<Event>, leave: Event, more: seq<Event>, user: S, cb: Callback<S>)
    ensures Run([enter] + inner + [leave] + more, user, cb) ==
      var (u, r) := cb(user, enter);
      if r != 0 then (u, r)
      else var (v, s) := Run(inner, u, cb);
        if s != 0 then (v, s)
        else var (w, t) := cb(v, leave);
          if t != 0 then (w, t) else Run(more, w, cb)
  {
    assert [enter] + inner + [leave] + more == [enter] + (inner + ([leave] + more));
    RunOne(enter, inner + ([leave] + more), user, cb);
    var (u, r) := cb(user, enter);
    if r == 0 {
      RunConcat(inner, [leave] + more, u, cb);
      var (v, s) := Run(inner, u, cb);
      if s == 0 { RunOne(leave, more, v, cb); }
    }
  }

  /** A callback that goes on or fails, but does not leave a loop early. */
  ghost predicate Strict<S(!new)>(cb: Callback<S>) { forall user, e :: cb(user, e).1 <= 0 }

  /** From `st`, `o` is the outcome of making the `calls`; without an error the text from `rest`
      is left and the path of length `n` is kept. */
  ghost predicate Reads<S>(st: State<S>, n: nat, calls: seq<Event>, rest: string, o: Outcome<S>, cb: Callback<S>)
    requires n < |st.jpath|
  {
    var (user, ret) := Run(calls, st.user, cb);
    && o.st.user == user && o.ret == ret
    && (ret == 0 ==> o.st.rest == rest && |o.st.jpath| == |st.jpath| && o.st.jpath[..n] == st.jpath[..n])
  }

  // ----- tokens of the layout

  lemma MarkToken(mark: string, depth: nat, next: string)
    requires mark == "{\n" || mark == "}" || mark == "[\n" || mark == "]"
    ensures var t := NextToken(ShowMark(mark, depth, next));
      && t.Token? && t.tag == PunctuationTag(mark[0]) && t.rest == mark[1..] + next
  {
    TokenAfterBlank(Tabs(depth), mark + next);
    assert mark + next == [mark[0]] + (mark[1..] + next);
    PunctuationToken(mark[0], mark[1..] + next);
  }

  lemma NewLine(text: string)
    ensures NextToken("\n" + text) == NextToken(text)
  {
    TokenAfterBlank("\n", text);
  }

  lemma CommaToken(text: string)
    ensures var t := NextToken(" ,\n" + text); t.Token? && t.tag == Comma && t.rest == "\n" + text
  {
    assert " ,\n" + text == " " + ("," + ("\n" + text));
    TokenAfterBlank(" ", "," + ("\n" + text));
    PunctuationToken(',', "\n" + text);
  }

  lemma ColonToken(text: string)
    ensures var t := NextToken(" : " + text); t.Token? && t.tag == Colon && t.rest == " " + text
  {
    assert " : " + text == " " + (":" + (" " + text));
    TokenAfterBlank(" ", ":" + (" " + text));
    PunctuationToken(':', " " + text);
  }

  lemma KeyToken(key: string, depth: nat, next: string)
    requires Quotable(key)
    ensures NextToken(ShowKey(key, depth, next)) ==
      Token(Tag.Text, key + ("\"" + (" : " + next)), |key|, '\"', " : " + next)
  {
    TokenAfterBlank(Tabs(depth), ShowText(key, " : " + next));
    QuotedToken(key, " : " + next);
  }

  lemma Halves(a: string, b: string)
    ensures (a + b)[..|a|] == a && (a + b)[|a|..] == b
  {
  }

  lemma ScalarToken(blank: string, v: Scalar, after: string)
    requires AllBlank(blank) && PrintableScalar(v) && Terminated(after)
    ensures var t := NextToken(blank + ShowScalar(v, after));
      && t.Token? && (t.tag == Tag.Text || t.tag == Special) && t.quotes != '\'' && t.rest == after
      && forall path, node :: ScalarEvent(v, path, node, after) == LeafEvent(path, node, t.from, t.len)
  {
    TokenAfterBlank(blank, ShowScalar(v, after));
    match v
    case Text(raw) =>
      QuotedToken(raw, after);
      Halves(raw, "\"" + after);
    case Number(raw) =>
      BareToken(raw, after);
      Halves(raw, after);
    case Null => NullToken(after);
  }

  // ----- the members of an object

  /** `next` closes the object: it starts with the closing brace, after which comes `rest`. */
  predicate Closes(next: string, mark: Tag, rest: string) {
    var t := NextToken(next);
    t.Token? && t.tag == mark && t.rest == rest
  }

  lemma MarkCloses(mark: string, depth: nat, after: string)
    requires mark == "}" || mark == "]"
    ensures Closes(ShowMark(mark, depth, after), PunctuationTag(mark[0]), after)
  {
    MarkToken(mark, depth, after);
    assert mark[1..] + after == after;
  }

  /** Calls made one after the other. */
  lemma ReadsFirst<S(!new)>(st: State<S>, n: nat, e: Event, calls: seq<Event>, rest: string, cb: Callback<S>, o: Outcome<S>)
    requires n < |st.jpath| && Strict(cb)
    requires var fire := Fire(st, e, cb);
      if fire.ret != 0 then o == Halt(fire) else Reads(fire.st, n, calls, rest, o, cb)
    ensures Reads(st, n, [e] + calls, rest, o, cb)
  {
    RunOne(e, calls, st.user, cb);
  }

  /** The path buffer may be written behind the path. */
  lemma ReadsFrom<S>(st: State<S>, n: nat, before: State<S>, calls: seq<Event>, rest: string, o: Outcome<S>, cb: Callback<S>)
    requires n < |st.jpath| == |before.jpath| && st.jpath[..n] == before.jpath[..n] && st.user == before.user
    requires Reads(st, n, calls, rest, o, cb)
    ensures Reads(before, n, calls, rest, o, cb)
  {
  }

  /** The text behind a member. */
  function After(ms: MemberList, depth: nat, next: string): string
    requires !ms.NoMember?
  {
    Separator(ms.more.NoMember?) + ShowMembers(ms.more, depth, next)
  }

  /** The text of the value of a member. */
  function ShowValue(ms: MemberList, depth: nat, after: string): string
    requires !ms.NoMember?
  {
    match ms
    case ScalarMember(_, v, _) => ShowScalar(v, after)
    case ObjectMember(_, inner, _) => "\n" + ShowObject(inner, depth, after)
    case ArrayMember(_, items, _) =>
      "\n" + ShowMark("[\n", depth, ShowItems(items, depth, ShowMark("]", depth, after)))
  }

  function ValueEvents(ms: MemberList, here: string, size: nat, depth: nat, after: string): seq<Event>
    requires !ms.NoMember?
  {
    match ms
    case ScalarMember(key, v, _) => [ScalarEvent(v, here, key, after)]
    case ObjectMember(key, inner, _) => ObjectEvents(inner, here, key, size, depth, after)
    case ArrayMember(_, items, _) =>
      [Branch(EnterArray, here, "[")] + ItemEvents(items, here, size, depth, ShowMark("]", depth, after))
      + [Branch(LeaveArray, here, "[")]
  }

  lemma UnfoldMember(ms: MemberList, path: string, size: nat, depth: nat, next: string)
    requires !ms.NoMember?
    ensures ShowMembers(ms, depth, next) == ShowKey(ms.key, depth, ShowValue(ms, depth, After(ms, depth, next)))
    ensures MemberEvents(ms, path, size, depth, next)
      == ValueEvents(ms, Extend(path, ms.key, size), size, depth, After(ms, depth, next))
         + MemberEvents(ms.more, path, size, depth, next)
  {
    hide ShowKey, ShowScalar, ShowObject, ShowItems, ScalarEvent, ObjectEvents, ItemEvents, Separator, Extend;
  }

  lemma {:induction false} MembersRead<S(!new)>(st: State<S>, n: nat, first: bool, ms: MemberList, depth: nat,
      next: string, rest: string, cb: Callback<S>)
    requires n < |st.jpath| && Strict(cb) && Printable(ms) && (ms.NoMember? ==> first)
    requires NextToken(st.rest) == NextToken(ShowMembers(ms, depth, next)) && Closes(next, RightBrace, rest)
    ensures Reads(st, n, MemberEvents(ms, st.jpath[..n], |st.jpath|, depth, next), rest, Members(st, n, first, cb), cb)
    decreases ms, 3
  {
    if !ms.NoMember? {
      hide ShowMembers, MemberEvents, ShowValue, ValueEvents, Members, MemberValue, Reads, Strict, Closes, After;
      UnfoldMember(ms, st.jpath[..n], |st.jpath|, depth, next);
      var value := ShowValue(ms, depth, After(ms, depth, next));
      QuotableKey(ms);
      ToValue(st, n, first, ms.key, depth, value, cb);
      var here := st.(rest := " " + value);
      ValueRead(here, n, ms, depth, next, rest, cb);
      ReadsFrom(here, n, st, MemberEvents(ms, st.jpath[..n], |st.jpath|, depth, next), rest,
        Members(st, n, first, cb), cb);
    }
  }

  lemma QuotableKey(ms: MemberList)
    requires Printable(ms) && !ms.NoMember?
    ensures Quotable(ms.key) && Printable(ms.more)
  {
  }

  lemma ToValue<S>(st: State<S>, n: nat, first: bool, key: string, depth: nat, value: string, cb: Callback<S>)
    requires n < |st.jpath| && Quotable(key) && NextToken(st.rest) == NextToken(ShowKey(key, depth, value))
    ensures Members(st, n, first, cb) == MemberValue(st.(rest := " " + value), n, key, cb)
  {
    hide ShowKey, MemberValue, NextToken;
    KeyToken(key, depth, value);
    assert (key + ("\"" + (" : " + value)))[..|key|] == key;
    ColonToken(value);
  }

  lemma {:induction false} ValueRead<S(!new)>(st: State<S>, n: nat, ms: MemberList, depth: nat,
      next: string, rest: string, cb: Callback<S>)
    requires n < |st.jpath| && Strict(cb) && Printable(ms) && !ms.NoMember? && Closes(next, RightBrace, rest)
    requires st.rest == " " + ShowValue(ms, depth, After(ms, depth, next))
    ensures Reads(st, n,
      ValueEvents(ms, Extend(st.jpath[..n], ms.key, |st.jpath|), |st.jpath|, depth, After(ms, depth, next))
      + MemberEvents(ms.more, st.jpath[..n], |st.jpath|, depth, next),
      rest, MemberValue(st, n, ms.key, cb), cb)
    decreases ms, 2
  {
    hide Reads, Strict, Printable, Closes, ShowValue, ValueEvents, MemberEvents, MemberValue, After;
    match ms
    case ScalarMember(_, _, _) => ScalarRead(st, n, ms, depth, next, rest, cb);
    case ObjectMember(_, _, _) => ObjectRead(st, n, ms, depth, next, rest, cb);
    case ArrayMember(_, _, _) => ArrayRead(st, n, ms, depth, next, rest, cb);
  }

  /** The state in which the value of a member is read. */
  function Named<S>(st: State<S>, n: nat, name: string): (r: State<S>)
    requires n < |st.jpath|
    ensures |r.jpath| == |st.jpath| && r.jpath[..n] == st.jpath[..n] && r.user == st.user
    ensures var m := Append(st.jpath, n, name).1;
      n <= m < |r.jpath| && r.jpath[..m] == Extend(st.jpath[..n], name, |st.jpath|)
  {
    AppendExtends(st.jpath, n, name);
    st.(jpath := Append(st.jpath, n, name).0, seen := st.seen.(plain := st.seen.plain && '/' !in name))
  }

  lemma ScalarValue<S>(st: State<S>, n: nat, name: string, v: Scalar, after: string, cb: Callback<S>)
    requires n < |st.jpath| && st.rest == " " + ShowScalar(v, after) && PrintableScalar(v) && Terminated(after)
    ensures var here := Named(st, n, name).(rest := after);
      var leaf := Fire(here, ScalarEvent(v, Extend(st.jpath[..n], name, |st.jpath|), name, after), cb);
      MemberValue(st, n, name, cb) == if leaf.ret != 0 then Halt(leaf) else AfterMember(leaf.st, n, cb)
  {
    hide NextToken, AfterMember, MemberObject, MemberArray, Append, Extend, ShowScalar, PrintableScalar, Terminated,
      ScalarEvent, Fire;
    ScalarToken(" ", v, after);
    AppendExtends(st.jpath, n, name);
  }

  lemma AfterTerminated(last: bool, text: string)
    ensures Terminated(Separator(last) + text)
  {
  }

  lemma {:induction false} ScalarRead<S(!new)>(st: State<S>, n: nat, ms: MemberList, depth: nat,
      next: string, rest: string, cb: Callback<S>)
    requires n < |st.jpath| && Strict(cb) && Printable(ms) && ms.ScalarMember? && Closes(next, RightBrace, rest)
    requires st.rest == " " + ShowValue(ms, depth, After(ms, depth, next))
    ensures Reads(st, n,
      ValueEvents(ms, Extend(st.jpath[..n], ms.key, |st.jpath|), |st.jpath|, depth, After(ms, depth, next))
      + MemberEvents(ms.more, st.jpath[..n], |st.jpath|, depth, next),
      rest, MemberValue(st, n, ms.key, cb), cb)
    decreases ms, 1
  {
    hide Reads, Strict, Closes, MemberEvents, MemberValue, AfterMember, ShowMembers, Separator, Extend, Terminated,
      Named, ShowScalar, ScalarEvent, PrintableScalar;
    var after := After(ms, depth, next);
    AfterTerminated(ms.more.NoMember?, ShowMembers(ms.more, depth, next));
    ScalarValue(st, n, ms.key, ms.scalar, after, cb);
    var path, size := st.jpath[..n], |st.jpath|;
    var here := Named(st, n, ms.key).(rest := after);
    var call := ScalarEvent(ms.scalar, Extend(path, ms.key, size), ms.key, after);
    var leaf := Fire(here, call, cb);
    AfterMemberRead(leaf.st, n, ms.more, depth, next, rest, cb);
    var more := MemberEvents(ms.more, path, size, depth, next);
    ReadsFirst(here, n, call, more, rest, cb, MemberValue(st, n, ms.key, cb));
    ReadsFrom(here, n, st, [call] + more, rest, MemberValue(st, n, ms.key, cb), cb);
  }

  lemma {:induction false} AfterMemberRead<S(!new)>(st: State<S>, n: nat, ms: MemberList, depth: nat,
      next: string, rest: string, cb: Callback<S>)
    requires n < |st.jpath| && Strict(cb) && Printable(ms) && Closes(next, RightBrace, rest)
    requires st.rest == Separator(ms.NoMember?) + ShowMembers(ms, depth, next)
    ensures Reads(st, n, MemberEvents(ms, st.jpath[..n], |st.jpath|, depth, next), rest, AfterMember(st, n, cb), cb)
    decreases ms, 4
  {
    if ms.NoMember? {
      NewLine(next);
    } else {
      hide Reads, MemberEvents, ShowMembers, Members, NextToken, Strict, Closes, Printable;
      var shown := ShowMembers(ms, depth, next);
      CommaToken(shown);
      NewLine(shown);
      var here := st.(rest := "\n" + shown);
      MembersRead(here, n, false, ms, depth, next, rest, cb);
      ReadsFrom(here, n, st, MemberEvents(ms, st.jpath[..n], |st.jpath|, depth, next), rest,
        AfterMember(st, n, cb), cb);
    }
  }

  // ----- objects and arrays inside

  /** Enter, the calls inside, leave, and what follows. */
  lemma ReadsBlock<S(!new)>(st: State<S>, n: nat, enter: Event, inside: seq<Event>, leave: Event, more: seq<Event>,
      m: nat, after: string, inner: Outcome<S>, left: State<S>, rest: string, o: Outcome<S>, cb: Callback<S>)
    requires n < |st.jpath| && m < |st.jpath| && Strict(cb)
    requires var entered := Fire(st, enter, cb);
      if entered.ret != 0 then o == Halt(entered)
      else
        && Reads(entered.st, m, inside, after, inner, cb)
        && if inner.ret != 0 then o == inner
           else
             var done := Fire(left, leave, cb);
             && left.user == inner.st.user && |left.jpath| == |st.jpath| && left.jpath[..n] == st.jpath[..n]
             && if done.ret != 0 then o == Halt(done) else Reads(done.st, n, more, rest, o, cb)
    ensures Reads(st, n, [enter] + inside + [leave] + more, rest, o, cb)
  {
    RunBlock(enter, inside, leave, more, st.user, cb);
  }

  lemma ObjectValue<S>(st: State<S>, n: nat, name: string, inner: MemberList, depth: nat, after: string, cb: Callback<S>)
    requires n < |st.jpath| && st.rest == " " + ("\n" + ShowObject(inner, depth, after))
    ensures var shown := "\n" + ShowMembers(inner, depth + 1, ShowMark("}", depth, after));
      MemberValue(st, n, name, cb)
        == MemberObject(Named(st, n, name).(rest := shown), n, Append(st.jpath, n, name).1, name, cb)
  {
    hide NextToken, MemberObject, Append, Extend, ShowMembers, ShowMark;
    var shown := ShowMembers(inner, depth + 1, ShowMark("}", depth, after));
    TokenAfterBlank(" ", "\n" + ShowMark("{\n", depth, shown));
    NewLine(ShowMark("{\n", depth, shown));
    MarkToken("{\n", depth, shown);
  }

  /** What `MemberObject` does after the members inside were read. */
  lemma MemberObjectSteps<S>(st: State<S>, n: nat, m: nat, name: string, cb: Callback<S>)
    returns (inner: Outcome<S>, left: State<S>)
    requires n <= m < |st.jpath| && st.jpath[..m] == Extend(st.jpath[..n], name, |st.jpath|)
    ensures var here := st.jpath[..m]; var o := MemberObject(st, n, m, name, cb);
      var entered := Fire(st, Branch(EnterBranch, here, name), cb);
      if entered.ret != 0 then o == Halt(entered)
      else
        && inner == Members(entered.st, m, true, cb)
        && if inner.ret != 0 then o == inner
           else
             && left.user == inner.st.user && left.rest == inner.st.rest && |left.jpath| == |st.jpath|
             && (inner.st.jpath[..n] == st.jpath[..n] ==>
               && left.jpath[..n] == st.jpath[..n]
               && var done := Fire(left, Branch(LeaveBranch, here, name), cb);
                 if done.ret != 0 then o == Halt(done) else o == AfterMember(done.st, n, cb))
  {
    hide Fire, Members, AfterMember, Append, Extend;
    var entered := Fire(st, Branch(EnterBranch, st.jpath[..m], name), cb);
    inner := Members(entered.st, m, true, cb);
    AppendExtends(inner.st.jpath, n, name);
    left := inner.st.(jpath := Append(inner.st.jpath, n, name).0);
  }

  lemma {:induction false} ObjectRead<S(!new)>(st: State<S>, n: nat, ms: MemberList, depth: nat,
      next: string, rest: string, cb: Callback<S>)
    requires n < |st.jpath| && Strict(cb) && Printable(ms) && ms.ObjectMember? && Closes(next, RightBrace, rest)
    requires st.rest == " " + ShowValue(ms, depth, After(ms, depth, next))
    ensures Reads(st, n,
      ValueEvents(ms, Extend(st.jpath[..n], ms.key, |st.jpath|), |st.jpath|, depth, After(ms, depth, next))
      + MemberEvents(ms.more, st.jpath[..n], |st.jpath|, depth, next),
      rest, MemberValue(st, n, ms.key, cb), cb)
    decreases ms, 1
  {
    hide Reads, Strict, Closes, MemberEvents, MemberValue, MemberObject, Members, AfterMember, ShowMembers, ShowObject,
      ShowMark, Separator, Extend, Append, Named, Fire, Halt, NextToken;
    var path, size, after := st.jpath[..n], |st.jpath|, After(ms, depth, next);
    ObjectValue(st, n, ms.key, ms.members, depth, after, cb);
    var m := Append(st.jpath, n, ms.key).1;
    var closing := ShowMark("}", depth, after);
    var shown := ShowMembers(ms.members, depth + 1, closing);
    var here := Named(st, n, ms.key).(rest := "\n" + shown);
    var o := MemberObject(here, n, m, ms.key, cb);
    var inner, left := MemberObjectSteps(here, n, m, ms.key, cb);
    var more := MemberEvents(ms.more, path, size, depth, next);
    var inside := MemberEvents(ms.members, here.jpath[..m], size, depth + 1, closing);
    var enter, leave := Branch(EnterBranch, here.jpath[..m], ms.key), Branch(LeaveBranch, here.jpath[..m], ms.key);
    NewLine(shown);
    MarkCloses("}", depth, after);
    var entered := Fire(here, enter, cb);
    MembersRead(entered.st, m, true, ms.members, depth + 1, closing, after, cb);
    if entered.ret == 0 && inner.ret == 0 {
      ReadsKept(entered.st, m, inside, after, inner, cb);
      JsonPath.Shorter(inner.st.jpath, here.jpath, n, m);
      AfterMemberRead(Fire(left, leave, cb).st, n, ms.more, depth, next, rest, cb);
    }
    ReadsBlock(here, n, enter, inside, leave, more, m, after, inner, left, rest, o, cb);
    ReadsFrom(here, n, st, [enter] + inside + [leave] + more, rest, o, cb);
  }

  lemma ReadsKept<S>(st: State<S>, n: nat, calls: seq<Event>, rest: string, o: Outcome<S>, cb: Callback<S>)
    requires n < |st.jpath| && Reads(st, n, calls, rest, o, cb) && o.ret == 0
    ensures o.st.rest == rest && |o.st.jpath| == |st.jpath| && o.st.jpath[..n] == st.jpath[..n]
  {
  }

  lemma ArrayValue<S>(st: State<S>, n: nat, name: string, items: ItemList, depth: nat, after: string, cb: Callback<S>)
    requires n < |st.jpath|
    requires st.rest == " " + ("\n" + ShowMark("[\n", depth, ShowItems(items, depth, ShowMark("]", depth, after))))
    ensures var shown := "\n" + ShowItems(items, depth, ShowMark("]", depth, after));
      MemberValue(st, n, name, cb) == MemberArray(Named(st, n, name).(rest := shown), n, Append(st.jpath, n, name).1, cb)
  {
    hide NextToken, MemberArray, Append, Extend, ShowItems, ShowMark;
    var shown := ShowItems(items, depth, ShowMark("]", depth, after));
    TokenAfterBlank(" ", "\n" + ShowMark("[\n", depth, shown));
    NewLine(ShowMark("[\n", depth, shown));
    MarkToken("[\n", depth, shown);
  }

  /** What `MemberArray` does after the items were read. */
  lemma MemberArraySteps<S>(st: State<S>, n: nat, m: nat, cb: Callback<S>) returns (inner: Outcome<S>)
    requires n <= m < |st.jpath|
    ensures var here := st.jpath[..m]; var o := MemberArray(st, n, m, cb);
      var entered := Fire(st, Branch(EnterArray, here, "["), cb);
      if entered.ret != 0 then o == Halt(entered)
      else
        && inner == Items(entered.st, m, true, 0, cb)
        && if inner.ret != 0 then o == inner
           else inner.st.jpath[..m] == here ==>
             var done := Fire(inner.st, Branch(LeaveArray, here, "["), cb);
             if done.ret != 0 then o == Halt(done)
             else o == AfterMember(done.st.(jpath := Append(done.st.jpath, n, "[").0), n, cb)
  {
    hide Fire, Items, AfterMember, Append, Extend;
    inner := Items(Fire(st, Branch(EnterArray, st.jpath[..m], "["), cb).st, m, true, 0, cb);
  }

  lemma {:induction false} ArrayRead<S(!new)>(st: State<S>, n: nat, ms: MemberList, depth: nat,
      next: string, rest: string, cb: Callback<S>)
    requires n < |st.jpath| && Strict(cb) && Printable(ms) && ms.ArrayMember? && Closes(next, RightBrace, rest)
    requires st.rest == " " + ShowValue(ms, depth, After(ms, depth, next))
    ensures Reads(st, n,
      ValueEvents(ms, Extend(st.jpath[..n], ms.key, |st.jpath|), |st.jpath|, depth, After(ms, depth, next))
      + MemberEvents(ms.more, st.jpath[..n], |st.jpath|, depth, next),
      rest, MemberValue(st, n, ms.key, cb), cb)
    decreases ms, 1
  {
    hide Reads, Strict, Closes, MemberEvents, ItemEvents, MemberValue, MemberArray, Items, AfterMember, ShowMembers,
      ShowItems, ShowMark, Separator, Extend, Append, Named, Fire, Halt, NextToken;
    var path, size, after := st.jpath[..n], |st.jpath|, After(ms, depth, next);
    ArrayValue(st, n, ms.key, ms.items, depth, after, cb);
    var m := Append(st.jpath, n, ms.key).1;
    var closing := ShowMark("]", depth, after);
    var shown := ShowItems(ms.items, depth, closing);
    var here := Named(st, n, ms.key).(rest := "\n" + shown);
    var o := MemberArray(here, n, m, cb);
    var inner := MemberArraySteps(here, n, m, cb);
    var more := MemberEvents(ms.more, path, size, depth, next);
    var inside := ItemEvents(ms.items, here.jpath[..m], size, depth, closing);
    var enter, leave := Branch(EnterArray, here.jpath[..m], "["), Branch(LeaveArray, here.jpath[..m], "[");
    NewLine(shown);
    MarkCloses("]", depth, after);
    var entered := Fire(here, enter, cb);
    ItemsRead(entered.st, m, true, 0, ms.items, depth, closing, after, cb);
    if entered.ret == 0 && inner.ret == 0 {
      ReadsKept(entered.st, m, inside, after, inner, cb);
      JsonPath.Shorter(inner.st.jpath, here.jpath, n, m);
      var done := Fire(inner.st, leave, cb).st;
      JsonPath.AppendKeeps(done.jpath, n, "[");
      var left := done.(jpath := Append(done.jpath, n, "[").0);
      AfterMemberRead(left, n, ms.more, depth, next, rest, cb);
      if Fire(inner.st, leave, cb).ret == 0 { ReadsFrom(left, n, done, more, rest, o, cb); }
    }
    ReadsBlock(here, n, enter, inside, leave, more, m, after, inner, inner.st, rest, o, cb);
    ReadsFrom(here, n, st, [enter] + inside + [leave] + more, rest, o, cb);
  }

  // ----- the items of an array

  lemma {:induction false} ItemsRead<S(!new)>(st: State<S>, n: nat, first: bool, m: nat, items: ItemList, depth: nat,
      next: string, rest: string, cb: Callback<S>)
    requires n < |st.jpath| && m < |st.jpath| && Strict(cb) && PrintableItems(items) && (items.NoItem? ==> first)
    requires NextToken(st.rest) == NextToken(ShowItems(items, depth, next)) && Closes(next, RightBracket, rest)
    ensures Reads(st, n, ItemEvents(items, st.jpath[..n], |st.jpath|, depth, next), rest, Items(st, n, first, m, cb), cb)
    decreases items, 3
  {
    hide Reads, Strict, Closes, PrintableItems, ShowItems, ItemEvents, Items;
    match items
    case NoItem => NoItemRead(st, n, m, depth, next, rest, cb);
    case ScalarItem(_, _) => ScalarItemRead(st, n, first, m, items, depth, next, rest, cb);
    case ObjectItem(_, _) => ObjectItemRead(st, n, first, m, items, depth, next, rest, cb);
  }

  lemma NoItemRead<S(!new)>(st: State<S>, n: nat, m: nat, depth: nat, next: string, rest: string, cb: Callback<S>)
    requires n < |st.jpath| && m < |st.jpath|
    requires NextToken(st.rest) == NextToken(ShowItems(NoItem, depth, next)) && Closes(next, RightBracket, rest)
    ensures Reads(st, n, ItemEvents(NoItem, st.jpath[..n], |st.jpath|, depth, next), rest, Items(st, n, true, m, cb), cb)
  {
  }

  lemma {:induction false} AfterItemRead<S(!new)>(st: State<S>, n: nat, m: nat, items: ItemList, depth: nat,
      next: string, rest: string, cb: Callback<S>)
    requires n < |st.jpath| && m < |st.jpath| && Strict(cb) && PrintableItems(items) && Closes(next, RightBracket, rest)
    requires st.rest == Separator(items.NoItem?) + ShowItems(items, depth, next)
    ensures Reads(st, n, ItemEvents(items, st.jpath[..n], |st.jpath|, depth, next), rest, AfterItem(st, n, m, cb), cb)
    decreases items, 4
  {
    if items.NoItem? {
      NewLine(next);
    } else {
      hide Reads, ItemEvents, ShowItems, Items, NextToken, Strict, Closes, PrintableItems;
      var shown := ShowItems(items, depth, next);
      CommaToken(shown);
      NewLine(shown);
      var here := st.(rest := "\n" + shown);
      ItemsRead(here, n, false, m, items, depth, next, rest, cb);
      ReadsFrom(here, n, st, ItemEvents(items, st.jpath[..n], |st.jpath|, depth, next), rest,
        AfterItem(st, n, m, cb), cb);
    }
  }

  function ItemAfter(items: ItemList, depth: nat, next: string): string
    requires !items.NoItem?
  {
    Separator(items.more.NoItem?) + ShowItems(items.more, depth, next)
  }

  lemma UnfoldItem(items: ItemList, path: string, size: nat, depth: nat, next: string)
    requires !items.NoItem?
    ensures var after := ItemAfter(items, depth, next); var more := ItemEvents(items.more, path, size, depth, next);
      match items
      case ScalarItem(v, _) =>
        && ShowItems(items, depth, next) == Tabs(depth) + ShowScalar(v, after)
        && ItemEvents(items, path, size, depth, next) == [ScalarEvent(v, Extend(path, ".", size), [], after)] + more
      case ObjectItem(inner, _) =>
        && ShowItems(items, depth, next) == ShowObject(inner, depth, after)
        && ItemEvents(items, path, size, depth, next) == ObjectEvents(inner, path, "[", size, depth, after) + more
  {
    hide ShowScalar, ShowObject, ScalarEvent, ObjectEvents, Separator, Extend, Tabs;
  }

  lemma PrintableItem(items: ItemList)
    requires PrintableItems(items) && !items.NoItem?
    ensures PrintableItems(items.more)
    ensures items.ScalarItem? ==> PrintableScalar(items.scalar)
    ensures items.ObjectItem? ==> Printable(items.members)
  {
  }

  lemma ScalarItemSteps<S>(st: State<S>, n: nat, first: bool, m: nat, v: Scalar, depth: nat, after: string, cb: Callback<S>)
    returns (here: State<S>, k: nat)
    requires n < |st.jpath| && m < |st.jpath| && PrintableScalar(v) && Terminated(after)
    requires NextToken(st.rest) == NextToken(Tabs(depth) + ShowScalar(v, after))
    ensures k < |st.jpath| == |here.jpath| && here.jpath[..n] == st.jpath[..n]
    ensures here.user == st.user && here.rest == after
    ensures var leaf := Fire(here, ScalarEvent(v, Extend(st.jpath[..n], ".", |st.jpath|), [], after), cb);
      Items(st, n, first, m, cb) == if leaf.ret != 0 then Halt(leaf) else AfterItem(leaf.st, n, k, cb)
  {
    hide NextToken, AfterItem, ItemObject, ItemArray, Append, Extend, ShowScalar, PrintableScalar, Terminated,
      ScalarEvent, Fire, Tabs;
    ScalarToken(Tabs(depth), v, after);
    AppendExtends(st.jpath, n, ".");
    here := st.(rest := after, jpath := Append(st.jpath, n, ".").0);
    k := Append(st.jpath, n, ".").1;
  }

  lemma {:induction false} ScalarItemRead<S(!new)>(st: State<S>, n: nat, first: bool, m: nat, items: ItemList,
      depth: nat, next: string, rest: string, cb: Callback<S>)
    requires n < |st.jpath| && m < |st.jpath| && Strict(cb) && PrintableItems(items) && items.ScalarItem?
    requires NextToken(st.rest) == NextToken(ShowItems(items, depth, next)) && Closes(next, RightBracket, rest)
    ensures Reads(st, n, ItemEvents(items, st.jpath[..n], |st.jpath|, depth, next), rest, Items(st, n, first, m, cb), cb)
    decreases items, 1
  {
    hide Reads, Strict, Closes, PrintableItems, PrintableScalar, Terminated, ShowItems, ItemEvents, Items, AfterItem,
      Separator, Extend, ScalarEvent, ShowScalar, Tabs, NextToken, Fire, Halt;
    var path, size, after := st.jpath[..n], |st.jpath|, ItemAfter(items, depth, next);
    UnfoldItem(items, path, size, depth, next);
    PrintableItem(items);
    AfterTerminated(items.more.NoItem?, ShowItems(items.more, depth, next));
    var here, k := ScalarItemSteps(st, n, first, m, items.scalar, depth, after, cb);
    var call := ScalarEvent(items.scalar, Extend(path, ".", size), [], after);
    AfterItemRead(Fire(here, call, cb).st, n, k, items.more, depth, next, rest, cb);
    var o := Items(st, n, first, m, cb);
    var more := ItemEvents(items.more, path, size, depth, next);
    ReadsFirst(here, n, call, more, rest, cb, o);
    ReadsFrom(here, n, st, [call] + more, rest, o, cb);
  }

  lemma ObjectItemStart<S>(st: State<S>, n: nat, first: bool, m: nat, inner: MemberList, depth: nat, after: string,
      cb: Callback<S>)
    requires n < |st.jpath| && m < |st.jpath|
    requires NextToken(st.rest) == NextToken(ShowObject(inner, depth, after))
    ensures var shown := "\n" + ShowMembers(inner, depth + 1, ShowMark("}", depth, after));
      Items(st, n, first, m, cb) == ItemObject(st.(rest := shown), n, m, cb)
  {
    hide NextToken, ItemObject, ItemArray, AfterItem, Append, ShowMembers, ShowMark;
    MarkToken("{\n", depth, ShowMembers(inner, depth + 1, ShowMark("}", depth, after)));
  }

  lemma ItemObjectSteps<S>(st: State<S>, n: nat, m: nat, cb: Callback<S>) returns (inner: Outcome<S>)
    requires n < |st.jpath| && m < |st.jpath|
    ensures var here := st.jpath[..n]; var o := ItemObject(st, n, m, cb);
      var entered := Fire(st, Branch(EnterBranch, here, "["), cb);
      if entered.ret != 0 then o == Halt(entered)
      else
        && inner == Members(entered.st, n, true, cb)
        && if inner.ret != 0 then o == inner
           else inner.st.jpath[..n] == here ==>
             var done := Fire(inner.st, Branch(LeaveBranch, here, "["), cb);
             if done.ret != 0 then o == Halt(done) else o == AfterItem(done.st, n, m, cb)
  {
    hide Fire, Members, AfterItem;
    inner := Members(Fire(st, Branch(EnterBranch, st.jpath[..n], "["), cb).st, n, true, cb);
  }

  lemma {:induction false} ObjectItemRead<S(!new)>(st: State<S>, n: nat, first: bool, m: nat, items: ItemList,
      depth: nat, next: string, rest: string, cb: Callback<S>)
    requires n < |st.jpath| && m < |st.jpath| && Strict(cb) && PrintableItems(items) && items.ObjectItem?
    requires NextToken(st.rest) == NextToken(ShowItems(items, depth, next)) && Closes(next, RightBracket, rest)
    ensures Reads(st, n, ItemEvents(items, st.jpath[..n], |st.jpath|, depth, next), rest, Items(st, n, first, m, cb), cb)
    decreases items, 1
  {
    hide Reads, Strict, Closes, PrintableItems, Printable, ShowItems, ItemEvents, MemberEvents, Items, ItemObject,
      Members, AfterItem, ShowMembers, ShowObject, ShowMark, Separator, Fire, Halt, NextToken;
    var path, size, after := st.jpath[..n], |st.jpath|, ItemAfter(items, depth, next);
    UnfoldItem(items, path, size, depth, next);
    PrintableItem(items);
    ObjectItemStart(st, n, first, m, items.members, depth, after, cb);
    var closing := ShowMark("}", depth, after);
    var shown := ShowMembers(items.members, depth + 1, closing);
    var here := st.(rest := "\n" + shown);
    var o := Items(st, n, first, m, cb);
    var inner := ItemObjectSteps(here, n, m, cb);
    var more := ItemEvents(items.more, path, size, depth, next);
    var inside := MemberEvents(items.members, path, size, depth + 1, closing);
    var enter, leave := Branch(EnterBranch, path, "["), Branch(LeaveBranch, path, "[");
    NewLine(shown);
    MarkCloses("}", depth, after);
    var entered := Fire(here, enter, cb);
    MembersRead(entered.st, n, true, items.members, depth + 1, closing, after, cb);
    if entered.ret == 0 && inner.ret == 0 {
      ReadsKept(entered.st, n, inside, after, inner, cb);
      AfterItemRead(Fire(inner.st, leave, cb).st, n, m, items.more, depth, next, rest, cb);
    }
    ReadsBlock(here, n, enter, inside, leave, more, n, after, inner, inner.st, rest, o, cb);
    ReadsFrom(here, n, st, [enter] + inside + [leave] + more, rest, o, cb);
  }

  // ----- a whole document

  lemma DocumentEnds<S>(st: State<S>, cb: Callback<S>)
    requires 0 < |st.jpath| && st.rest == "\n"
    ensures Document(st, cb) == Outcome(st, END_OF_TEXT)
  {
    NewLine([]);
    assert "\n" + [] == "\n";
  }

  lemma DocumentSteps<S>(st: State<S>, shown: string, cb: Callback<S>) returns (inner: Outcome<S>)
    requires 0 < |st.jpath| && st.rest == ShowMark("{\n", 0, shown)
    ensures var o := Document(st, cb);
      var entered := Fire(st.(rest := "\n" + shown), Branch(EnterBranch, [], "{"), cb);
      if entered.ret != 0 then o == Halt(entered)
      else
        && inner == Members(entered.st, 0, true, cb)
        && if inner.ret != 0 then o == inner
           else
             var left := Fire(inner.st, Branch(LeaveBranch, [], "{"), cb);
             if left.ret != 0 then o == Halt(left) else o == Document(left.st, cb)
  {
    hide NextToken, Members, Items, Fire;
    MarkToken("{\n", 0, shown);
    inner := Members(Fire(st.(rest := "\n" + shown), Branch(EnterBranch, [], "{"), cb).st, 0, true, cb);
  }

  lemma {:induction false} RunStrict<S(!new)>(calls: seq<Event>, user: S, cb: Callback<S>)
    requires Strict(cb)
    ensures Run(calls, user, cb).1 <= 0
  {
    if calls != [] { RunStrict(calls[1..], cb(user, calls[0]).0, cb); }
  }

  /** Traversing a printed document makes exactly its calls, in order, until one fails. */
  lemma TravelReads<S(!new)>(ms: MemberList, jpath: string, user: S, cb: Callback<S>)
    requires 0 < |jpath| && Strict(cb) && Printable(ms)
    ensures var o := Travel(ShowDocument(ms), jpath, user, cb);
      (o.st.user, o.ret) == Run(DocumentEvents(ms, |jpath|), user, cb)
  {
    hide Members, MemberEvents, ShowMembers, ShowMark, NextToken, Printable, Closes, Document;
    var closing := ShowMark("}", 0, "\n");
    var shown := ShowMembers(ms, 1, closing);
    var st := State(ShowMark("{\n", 0, shown), jpath, user, NOTHING);
    var inner := DocumentSteps(st, shown, cb);
    var inside := MemberEvents(ms, [], |jpath|, 1, closing);
    var enter, leave := Branch(EnterBranch, [], "{"), Branch(LeaveBranch, [], "{");
    var entered := Fire(st.(rest := "\n" + shown), enter, cb);
    NewLine(shown);
    MarkCloses("}", 0, "\n");
    assert entered.st.jpath[..0] == [];
    MembersRead(entered.st, 0, true, ms, 1, closing, "\n", cb);
    if entered.ret == 0 && inner.ret == 0 {
      ReadsKept(entered.st, 0, inside, "\n", inner, cb);
      DocumentEnds(Fire(inner.st, leave, cb).st, cb);
    }
    RunStrict(inside, entered.st.user, cb);
    assert [enter] + inside + [leave] == [enter] + inside + [leave] + [];
    RunBlock(enter, inside, leave, [], user, cb);
  }

  /** A callback that writes down its calls. */
  function Record(log: seq<Event>, e: Event): (seq<Event>, int) { (log + [e], 0) }

  lemma {:induction false} RunRecords(calls: seq<Event>, log: seq<Event>)
    ensures Run(calls, log, Record) == (log + calls, 0)
  {
    if calls == [] {
      assert log + calls == log;
    } else {
      RunRecords(calls[1..], log + [calls[0]]);
      assert log + [calls[0]] + calls[1..] == log + calls;
    }
  }

  /** The calls made for a printed document are the calls of the tree. */
  lemma TravelRecords(ms: MemberList, jpath: string)
    requires 0 < |jpath| && Printable(ms)
    ensures Travel(ShowDocument(ms), jpath, [], Record).st.user == DocumentEvents(ms, |jpath|)
  {
    TravelReads(ms, jpath, [], Record);
    RunRecords(DocumentEvents(ms, |jpath|), []);
  }
}
