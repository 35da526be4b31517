/** What can be told about a traversal from the text alone: a scan over its tokens with a stack of
    the open brackets. */
module JsonSurvey {
  import opened JsonToken
  import opened JsonTravel
  import opened JsonRead
  import JsonPath

  /** An open brace, or an open bracket.  `zero`: the array is visited at path length zero; `marked`:
      it has had a scalar or an array as an item. */
  datatype Frame = Brace | Bracket(zero: bool, marked: bool)

  function Both(a: Shape, b: Shape): Shape {
    Shape(a.rooted && b.rooted, a.plain && b.plain)
  }

  predicate Implies(a: Shape, b: Shape) {
    (a.rooted ==> b.rooted) && (a.plain ==> b.plain)
  }

  predicate ColonNext(text: string) {
    var t := NextToken(text);
    t.Token? && t.tag == Colon
  }

  function Mark(open: seq<Frame>): seq<Frame> {
    if open != [] && open[0].Bracket? then [open[0].(marked := true)] + open[1..] else open
  }

  /** The brackets that are open behind a token. */
  function Opened(open: seq<Frame>, tag: Tag): seq<Frame> {
    match tag
    case LeftBrace => [Brace] + open
    case LeftBracket =>
      var zero := open == [] || (open[0].Bracket? && !open[0].marked);
      [Bracket(zero, false)] + Mark(open)
    case RightBrace => if open == [] then [] else open[1..]
    case RightBracket => if open == [] then [] else open[1..]
    case Text => Mark(open)
    case Special => Mark(open)
    case _ => open
  }

  /** A key is a text with a colon behind it. */
  function KeyShape(name: string, rest: string): Shape {
    NOTHING.(plain := ColonNext(rest) ==> '/' !in name)
  }

  function Judge(open: seq<Frame>, tag: Tag, name: string, rest: string): Shape {
    if tag == LeftBracket && open != [] && open[0].Bracket? then
      NOTHING.(rooted := open[0].zero || open[0].marked)
    else if tag == Text then KeyShape(name, rest)
    else NOTHING
  }

  /** What the rest of a text holds, inside the open brackets. */
  function Survey(text: string, open: seq<Frame>): Shape
    decreases |text|
  {
    match NextToken(text)
    case Token(tag, from, len, _, rest) =>
      Both(Judge(open, tag, from[..len], rest), Survey(rest, Opened(open, tag)))
    case _ => NOTHING
  }

  /** No array that is not at the top has an array among its items in front of its first scalar
      item; where it has, the inner array is visited at path length zero. */
  predicate NoEarlyArray(text: string) { Survey(text, []).rooted }

  /** No key, which is a text with a colon behind it, holds a slash. */
  predicate PlainKeys(text: string) { Survey(text, []).plain }

  // ----- what the scan foretells is what the traversal meets

  /** `total` is what was met before and what the text holds.  Nothing else is met; without an
      error exactly this, and what the text behind the closing mark holds. */
  predicate Follows<S>(total: Shape, o: Outcome<S>, open: seq<Frame>) {
    && Implies(total, o.st.seen) && o.ret <= 0
    && (o.ret == 0 ==> Both(o.st.seen, Survey(o.st.rest, open)) == total)
  }

  function Total<S>(st: State<S>, open: seq<Frame>): Shape { Both(st.seen, Survey(st.rest, open)) }

  lemma AppendPositive(jpath: string, n: nat, name: string)
    requires n < |jpath| && |jpath| >= 3
    ensures Append(jpath, n, name).1 > 0
  {
  }

  lemma SurveyOnce(text: string, open: seq<Frame>)
    ensures var t := NextToken(text);
      Survey(text, open) ==
        if t.Token? then Both(Judge(open, t.tag, t.from[..t.len], t.rest), Survey(t.rest, Opened(open, t.tag))) else NOTHING
  {
  }

  lemma {:induction false} MembersFollow<S(!new)>(st: State<S>, n: nat, first: bool, cb: Callback<S>, open: seq<Frame>)
    requires n < |st.jpath| && |st.jpath| >= 3 && Strict(cb)
    ensures Follows(Total(st, [Brace] + open), Members(st, n, first, cb), open)
    decreases |st.rest|, 0
  {
    hide NextToken, Member, Survey, Strict, ColonNext;
    SurveyOnce(st.rest, [Brace] + open);
    assert ([Brace] + open)[1..] == open;
    var t := NextToken(st.rest);
    if t.Token? { MemberFollows(st.(rest := t.rest), n, t.from[..t.len], t.quotes, cb, open); }
  }

  lemma {:induction false} MemberFollows<S(!new)>(st: State<S>, n: nat, name: string, quotes: char, cb: Callback<S>, open: seq<Frame>)
    requires n < |st.jpath| && |st.jpath| >= 3 && Strict(cb)
    ensures Follows(Both(KeyShape(name, st.rest), Total(st, [Brace] + open)), Member(st, n, name, quotes, cb), open)
    decreases |st.rest|, 0
  {
    hide NextToken, MemberValue, Survey, Append, Fire;
    SurveyOnce(st.rest, [Brace] + open);
    assert ([Brace] + open)[1..] == open;
    var t := NextToken(st.rest);
    if t.Token? {
      MemberValueFollows(st.(rest := t.rest), n, name, cb, open);
      var (buf, m) := Append(st.jpath, n, ".");
      FireStrict(st.(rest := t.rest, jpath := buf), LeafEvent(buf[..m], [], t.from, t.len), cb);
    }
  }

  lemma FireStrict<S(!new)>(st: State<S>, e: Event, cb: Callback<S>)
    requires Strict(cb)
    ensures Fire(st, e, cb).ret <= 0 && Fire(st, e, cb).st.seen == st.seen && Fire(st, e, cb).st.rest == st.rest
  {
  }

  /** What was met and what the text holds, before the value of a member. */
  function ValueTotal<S>(st: State<S>, name: string, open: seq<Frame>): Shape {
    Both(NOTHING.(plain := '/' !in name), Total(st, [Brace] + open))
  }

  function Value<S>(st: State<S>, n: nat, name: string, rest: string): State<S>
    requires n < |st.jpath|
  {
    st.(jpath := Append(st.jpath, n, name).0, seen := st.seen.(plain := st.seen.plain && '/' !in name), rest := rest)
  }

  /** The first token of the value. */
  lemma ValueOnce<S>(st: State<S>, name: string, n: nat, open: seq<Frame>)
    requires n < |st.jpath|
    ensures var t := NextToken(st.rest); t.Token? ==>
      ValueTotal(st, name, open) == Both(Judge([Brace] + open, t.tag, t.from[..t.len], t.rest),
        Total(Value(st, n, name, t.rest), Opened([Brace] + open, t.tag)))
  {
    hide NextToken, Survey, Append, Opened, Judge;
    SurveyOnce(st.rest, [Brace] + open);
  }

  lemma {:induction false} MemberValueFollows<S(!new)>(st: State<S>, n: nat, name: string, cb: Callback<S>, open: seq<Frame>)
    requires n < |st.jpath| && |st.jpath| >= 3 && Strict(cb)
    ensures Follows(ValueTotal(st, name, open), MemberValue(st, n, name, cb), open)
    decreases |st.rest|, 0
  {
    hide NextToken, MemberObject, MemberArray, AfterMember, Survey, Append, Fire, Strict, ColonNext, Total;
    ValueOnce(st, name, n, open);
    AppendPositive(st.jpath, n, name);
    var (buf, m) := Append(st.jpath, n, name);
    var t := NextToken(st.rest);
    if !t.Token? {
      TotalSeen(st, name, open);
    } else {
      var here := Value(st, n, name, t.rest);
      TotalSeen(st, name, open);
      if t.tag == Text || t.tag == Special {
        LeafFollows(here, n, LeafEvent(buf[..m], name, t.from, t.len), cb, open);
      } else if t.tag == LeftBrace {
        MemberObjectFollows(here, n, m, name, cb, open);
      } else if t.tag == LeftBracket {
        assert Opened([Brace] + open, LeftBracket) == [Bracket(false, false)] + ([Brace] + open);
        MemberArrayFollows(here, n, m, cb, open);
      }
    }
  }

  lemma TotalSeen<S>(st: State<S>, name: string, open: seq<Frame>)
    ensures Implies(ValueTotal(st, name, open), st.seen.(plain := st.seen.plain && '/' !in name))
  {
  }

  lemma {:induction false} LeafFollows<S(!new)>(st: State<S>, n: nat, e: Event, cb: Callback<S>, open: seq<Frame>)
    requires n < |st.jpath| && |st.jpath| >= 3 && Strict(cb)
    ensures var leaf := Fire(st, e, cb);
      var o := if leaf.ret != 0 then Halt(leaf) else AfterMember(leaf.st, n, cb);
      Follows(Total(st, [Brace] + open), o, open) && (o.ret == 0 ==> !ColonNext(st.rest))
    decreases |st.rest|, 1
  {
    hide AfterMember, Survey, Fire, Strict, ColonNext;
    FireStrict(st, e, cb);
    AfterMemberFollows(Fire(st, e, cb).st, n, cb, open);
    AfterMemberMark(Fire(st, e, cb).st, n, cb);
  }

  /** Behind a value that was read without an error there is no colon. */
  lemma AfterMemberMark<S(!new)>(st: State<S>, n: nat, cb: Callback<S>)
    requires n < |st.jpath|
    ensures AfterMember(st, n, cb).ret == 0 ==> !ColonNext(st.rest)
  {
    hide NextToken, Members;
  }

  lemma {:induction false} MemberObjectFollows<S(!new)>(st: State<S>, n: nat, m: nat, name: string, cb: Callback<S>, open: seq<Frame>)
    requires n < |st.jpath| && m < |st.jpath| && |st.jpath| >= 3 && Strict(cb)
    ensures Follows(Total(st, [Brace] + ([Brace] + open)), MemberObject(st, n, m, name, cb), open)
    decreases |st.rest|, 1
  {
    hide Members, AfterMember, Survey, Append, Fire, Strict;
    var enter := Branch(EnterBranch, st.jpath[..m], name);
    FireStrict(st, enter, cb);
    var entered := Fire(st, enter, cb);
    MembersFollow(entered.st, m, true, cb, [Brace] + open);
    var inner := Members(entered.st, m, true, cb);
    var (buf, k) := Append(inner.st.jpath, n, name);
    var leave := Branch(LeaveBranch, buf[..k], name);
    FireStrict(inner.st.(jpath := buf), leave, cb);
    AfterMemberFollows(Fire(inner.st.(jpath := buf), leave, cb).st, n, cb, open);
  }

  lemma {:induction false} MemberArrayFollows<S(!new)>(st: State<S>, n: nat, m: nat, cb: Callback<S>, open: seq<Frame>)
    requires n < |st.jpath| && 0 < m < |st.jpath| && |st.jpath| >= 3 && Strict(cb)
    ensures Follows(Total(st, [Bracket(false, false)] + ([Brace] + open)), MemberArray(st, n, m, cb), open)
    decreases |st.rest|, 1
  {
    hide Items, AfterMember, Survey, Append, Fire, Strict;
    var enter := Branch(EnterArray, st.jpath[..m], "[");
    FireStrict(st, enter, cb);
    var entered := Fire(st, enter, cb);
    ItemsFollow(entered.st, m, true, 0, cb, false, [Brace] + open);
    var inner := Items(entered.st, m, true, 0, cb);
    var leave := Branch(LeaveArray, inner.st.jpath[..m], "[");
    FireStrict(inner.st, leave, cb);
    var left := Fire(inner.st, leave, cb);
    AfterMemberFollows(left.st.(jpath := Append(left.st.jpath, n, "[").0), n, cb, open);
  }

  lemma {:induction false} AfterMemberFollows<S(!new)>(st: State<S>, n: nat, cb: Callback<S>, open: seq<Frame>)
    requires n < |st.jpath| && |st.jpath| >= 3 && Strict(cb)
    ensures Follows(Total(st, [Brace] + open), AfterMember(st, n, cb), open)
    decreases |st.rest|, 0
  {
    hide NextToken, Members, Survey, Strict;
    SurveyOnce(st.rest, [Brace] + open);
    assert ([Brace] + open)[1..] == open;
    var t := NextToken(st.rest);
    if t.Token? { MembersFollow(st.(rest := t.rest), n, false, cb, open); }
  }

  /** The path length left over is zero exactly in front of the first scalar or array. */
  predicate LeftOver(n: nat, m: nat, marked: bool) {
    if marked then m > 0 && n <= m else m == 0
  }

  lemma {:induction false} ItemsFollow<S(!new)>(st: State<S>, n: nat, first: bool, m: nat, cb: Callback<S>, marked: bool, open: seq<Frame>)
    requires n < |st.jpath| && m < |st.jpath| && |st.jpath| >= 3 && Strict(cb) && LeftOver(n, m, marked)
    ensures Follows(Total(st, [Bracket(n == 0, marked)] + open), Items(st, n, first, m, cb), open)
    decreases |st.rest|, 0
  {
    hide NextToken, ItemObject, ItemArray, AfterItem, Survey, Append, Fire, Strict, ColonNext;
    var brackets := [Bracket(n == 0, marked)] + open;
    SurveyOnce(st.rest, brackets);
    assert brackets[1..] == open;
    AppendPositive(st.jpath, n, ".");
    var (buf, k) := Append(st.jpath, n, ".");
    var t := NextToken(st.rest);
    if t.Token? {
      var here := st.(rest := t.rest);
      if t.tag == Text || t.tag == Special {
        var e := LeafEvent(buf[..k], [], t.from, t.len);
        FireStrict(here.(jpath := buf), e, cb);
        var leaf := Fire(here.(jpath := buf), e, cb);
        AfterItemFollows(leaf.st, n, k, cb, true, open);
        AfterItemMark(leaf.st, n, k, cb);
      } else if t.tag == LeftBrace {
        ItemObjectFollows(here, n, m, cb, marked, open);
      } else if t.tag == LeftBracket {
        ItemArrayFollows(here.(seen := Misplaced(st.seen, n, m)), n, m, cb, marked, open);
      }
    }
  }

  lemma AfterItemMark<S(!new)>(st: State<S>, n: nat, m: nat, cb: Callback<S>)
    requires n < |st.jpath| && m < |st.jpath|
    ensures AfterItem(st, n, m, cb).ret == 0 ==> !ColonNext(st.rest)
  {
    hide NextToken, Items;
  }

  lemma {:induction false} ItemObjectFollows<S(!new)>(st: State<S>, n: nat, m: nat, cb: Callback<S>, marked: bool, open: seq<Frame>)
    requires n < |st.jpath| && m < |st.jpath| && |st.jpath| >= 3 && Strict(cb) && LeftOver(n, m, marked)
    ensures Follows(Total(st, [Brace] + ([Bracket(n == 0, marked)] + open)), ItemObject(st, n, m, cb), open)
    decreases |st.rest|, 1
  {
    hide Members, AfterItem, Survey, Fire, Strict;
    var enter := Branch(EnterBranch, st.jpath[..n], "[");
    FireStrict(st, enter, cb);
    var entered := Fire(st, enter, cb);
    MembersFollow(entered.st, n, true, cb, [Bracket(n == 0, marked)] + open);
    var inner := Members(entered.st, n, true, cb);
    var leave := Branch(LeaveBranch, inner.st.jpath[..n], "[");
    FireStrict(inner.st, leave, cb);
    AfterItemFollows(Fire(inner.st, leave, cb).st, n, m, cb, marked, open);
  }

  lemma {:induction false} ItemArrayFollows<S(!new)>(st: State<S>, n: nat, m: nat, cb: Callback<S>, marked: bool, open: seq<Frame>)
    requires n < |st.jpath| && m < |st.jpath| && |st.jpath| >= 3 && Strict(cb) && LeftOver(n, m, marked)
    ensures Follows(Total(st, [Bracket(!marked, false)] + ([Bracket(n == 0, true)] + open)), ItemArray(st, n, m, cb), open)
    decreases |st.rest|, 1
  {
    hide Items, AfterItem, Survey, Append, Fire, Strict;
    var enter := Branch(EnterArray, st.jpath[..m], "[");
    FireStrict(st, enter, cb);
    var entered := Fire(st, enter, cb);
    ItemsFollow(entered.st, m, true, 0, cb, false, [Bracket(n == 0, true)] + open);
    var inner := Items(entered.st, m, true, 0, cb);
    var leave := Branch(LeaveArray, inner.st.jpath[..m], "[");
    FireStrict(inner.st, leave, cb);
    var left := Fire(inner.st, leave, cb);
    AppendPositive(left.st.jpath, n, "[");
    var (buf, k) := Append(left.st.jpath, n, "[");
    AfterItemFollows(left.st.(jpath := buf), n, k, cb, true, open);
  }

  lemma {:induction false} AfterItemFollows<S(!new)>(st: State<S>, n: nat, m: nat, cb: Callback<S>, marked: bool, open: seq<Frame>)
    requires n < |st.jpath| && m < |st.jpath| && |st.jpath| >= 3 && Strict(cb) && LeftOver(n, m, marked)
    ensures Follows(Total(st, [Bracket(n == 0, marked)] + open), AfterItem(st, n, m, cb), open)
    decreases |st.rest|, 0
  {
    hide NextToken, Items, Survey, Strict;
    var brackets := [Bracket(n == 0, marked)] + open;
    SurveyOnce(st.rest, brackets);
    assert brackets[1..] == open;
    var t := NextToken(st.rest);
    if t.Token? { ItemsFollow(st.(rest := t.rest), n, false, m, cb, marked, open); }
  }

  lemma {:induction false} DocumentFollows<S(!new)>(st: State<S>, cb: Callback<S>)
    requires |st.jpath| >= 3 && Strict(cb)
    ensures var o := Document(st, cb);
      Implies(Total(st, []), o.st.seen) && (o.ret == END_OF_TEXT ==> o.st.seen == Total(st, []))
    decreases |st.rest|
  {
    hide NextToken, Members, Items, Survey, Fire, Strict;
    SurveyOnce(st.rest, []);
    var t := NextToken(st.rest);
    if t.Token? && (t.tag == LeftBrace || t.tag == LeftBracket) {
      var here := st.(rest := t.rest);
      var braces := t.tag == LeftBrace;
      var node := if braces then "{" else "[";
      var enter := Branch(if braces then EnterBranch else EnterArray, [], node);
      var leave := Branch(if braces then LeaveBranch else LeaveArray, [], node);
      FireStrict(here, enter, cb);
      var entered := Fire(here, enter, cb);
      MembersFollow(entered.st, 0, true, cb, []);
      ItemsFollow(entered.st, 0, true, 0, cb, false, []);
      var inner := if braces then Members(entered.st, 0, true, cb) else Items(entered.st, 0, true, 0, cb);
      FireStrict(inner.st, leave, cb);
      if entered.ret == 0 && inner.ret == 0 { DocumentFollows(Fire(inner.st, leave, cb).st, cb); }
    }
  }

  /** A traversal meets nothing that the scan of its text does not tell, and when it ends without an
      error it meets exactly that. */
  lemma TravelFollows<S(!new)>(text: string, jpath: string, user: S, cb: Callback<S>)
    requires |jpath| >= 3 && Strict(cb)
    ensures var o := Travel(text, jpath, user, cb);
      Implies(Survey(text, []), o.st.seen) && (o.ret == 0 ==> o.st.seen == Survey(text, []))
  {
    hide Survey;
    var st := State(text, jpath, user, NOTHING);
    DocumentFollows(st, cb);
    DocumentReturns(st, cb);
    hide Document;
  }

  lemma {:induction false} DocumentReturns<S(!new)>(st: State<S>, cb: Callback<S>)
    requires |st.jpath| >= 3 && Strict(cb)
    ensures Document(st, cb).ret != 0
    decreases |st.rest|
  {
    hide NextToken, Members, Items, Survey, Strict;
    var t := NextToken(st.rest);
    if t.Token? && (t.tag == LeftBrace || t.tag == LeftBracket) {
      var here := st.(rest := t.rest);
      var braces := t.tag == LeftBrace;
      var node := if braces then "{" else "[";
      var enter := Branch(if braces then EnterBranch else EnterArray, [], node);
      var leave := Branch(if braces then LeaveBranch else LeaveArray, [], node);
      FireStrict(here, enter, cb);
      var entered := Fire(here, enter, cb);
      var inner := if braces then Members(entered.st, 0, true, cb) else Items(entered.st, 0, true, 0, cb);
      FireStrict(inner.st, leave, cb);
      if entered.ret == 0 && inner.ret == 0 { DocumentReturns(Fire(inner.st, leave, cb).st, cb); }
    }
  }

  // ----- the path buffer

  /** An object of a text without an early array keeps the path around it, whatever the callback
      does short of leaving a loop early. */
  lemma MembersKeepPath<S(!new)>(st: State<S>, n: nat, first: bool, cb: Callback<S>, open: seq<Frame>)
    requires n < |st.jpath| && |st.jpath| >= 3 && Strict(cb)
    requires st.seen.rooted && Survey(st.rest, [Brace] + open).rooted
    ensures var o := Members(st, n, first, cb); |o.st.jpath| == |st.jpath| && o.st.jpath[..n] == st.jpath[..n]
  {
    MembersFollow(st, n, first, cb, open);
    JsonPath.MembersKeep(st, n, first, cb);
    hide Members, Survey, Strict;
  }

  lemma ItemsKeepPath<S(!new)>(st: State<S>, n: nat, first: bool, m: nat, cb: Callback<S>, marked: bool, open: seq<Frame>)
    requires n < |st.jpath| && m < |st.jpath| && |st.jpath| >= 3 && Strict(cb) && LeftOver(n, m, marked)
    requires st.seen.rooted && Survey(st.rest, [Bracket(n == 0, marked)] + open).rooted
    ensures var o := Items(st, n, first, m, cb); |o.st.jpath| == |st.jpath| && o.st.jpath[..n] == st.jpath[..n]
  {
    ItemsFollow(st, n, first, m, cb, marked, open);
    JsonPath.ItemsKeep(st, n, first, m, cb);
    hide Items, Survey, Strict;
  }
}
