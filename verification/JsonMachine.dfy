/** The traversal as a stack machine: one token after the other, with the open objects and arrays on a stack.  The
    recursive traversal does exactly what the machine does. */
module JsonMachine {
  import opened JsonToken
  import opened JsonTravel

  /** What was read last, and so what may come next. */
  datatype Place =
    | Top
    | BeforeName(first: bool)
    | BehindName(name: string, quotes: char)
    | BeforeValue(name: string, m: nat)
    | BehindValue
    | BeforeItem(first: bool, left: nat)
    | BehindItem(left: nat)

  /** An open object or array, and where the one around it goes on: a whole document, a member, or an item. */
  datatype Open =
    | WholeObject
    | WholeArray
    | NamedObject(n: nat, name: string)
    | NamedArray(n: nat, m: nat)
    | ListedObject(n: nat, left: nat)
    | ListedArray(n: nat, m: nat)

  /** What a token makes the machine do. */
  datatype Action = Fail(code: int) | Name | Value | Scalar | Dot | Push | Next | Pop

  /** The table of the machine, with the codes of `fasterjson.h`. */
  function Act(place: Place, tag: Tag, quotes: char): Action {
    match place
    case Top => if tag == LeftBrace || tag == LeftBracket then Push else Fail(-121)
    case BeforeName(first) => if tag == Text then Name else if tag == RightBrace && first then Pop else Fail(-131)
    case BehindName(_, q) =>
      if tag == Colon && q == '\"' then Value
      else if tag == Colon || tag == Comma then Fail(-131)
      else if tag == RightBrace || tag == RightBracket then Dot
      else Fail(-132)
    case BeforeValue(_, _) =>
      if tag == LeftBrace || tag == LeftBracket then Push
      else if (tag == Text || tag == Special) && quotes != '\'' then Scalar
      else Fail(-133)
    case BehindValue => if tag == Comma then Next else if tag == RightBrace then Pop else Fail(-134)
    case BeforeItem(first, _) =>
      if tag == LeftBrace || tag == LeftBracket then Push
      else if tag == Text || tag == Special then (if quotes == '\'' then Fail(-131) else Scalar)
      else if tag == RightBracket && first then Pop
      else Fail(-141)
    case BehindItem(_) => if tag == Comma then Next else if tag == RightBracket then Pop else Fail(-142)
  }

  /** The path lengths on the stack are positions in the buffer. */
  predicate Within(open: Open, size: nat) {
    match open
    case WholeObject => true
    case WholeArray => true
    case NamedObject(n, _) => n < size
    case NamedArray(n, m) => n < size && m < size
    case ListedObject(n, left) => n < size && left < size
    case ListedArray(n, m) => n < size && m < size
  }

  predicate Fits(size: nat, n: nat, stack: seq<Open>) {
    n < size && forall i :: 0 <= i < |stack| ==> Within(stack[i], size)
  }

  predicate PlaceFits(place: Place, size: nat) {
    (place.BeforeValue? ==> place.m < size) && (place.BeforeItem? ==> place.left < size) && (place.BehindItem? ==> place.left < size)
  }

  /** The machine at a place in an object or array whose path has length `n`. */
  function Go<S>(st: State<S>, place: Place, n: nat, stack: seq<Open>, cb: Callback<S>): Outcome<S>
    requires Fits(|st.jpath|, n, stack) && PlaceFits(place, |st.jpath|)
    decreases |st.rest|, |stack|, 0
  {
    match NextToken(st.rest)
    case End => Outcome(st, if place.Top? then 150 else -160)
    case Invalid => Outcome(st, -150)
    case Token(tag, from, len, quotes, rest) =>
      var here := st.(rest := rest);
      match Act(place, tag, quotes)
      case Fail(code) => Outcome(st, code)
      case Name => Go(here, BehindName(from[..len], quotes), n, stack, cb)
      case Value =>
        var name := if place.BehindName? then place.name else [];
        var (buf, m) := Append(st.jpath, n, name);
        Go(here.(jpath := buf, seen := st.seen.(plain := st.seen.plain && '/' !in name)), BeforeValue(name, m), n, stack, cb)
      case Scalar =>
        if place.BeforeValue? then
          On(Fire(here, LeafEvent(st.jpath[..place.m], place.name, from, len), cb), BehindValue, n, stack, cb)
        else
          var (buf, k) := Append(st.jpath, n, ".");
          On(Fire(here.(jpath := buf), LeafEvent(buf[..k], [], from, len), cb), BehindItem(k), n, stack, cb)
      case Dot =>
        var (buf, k) := Append(st.jpath, n, ".");
        var o := Fire(here.(jpath := buf), LeafEvent(buf[..k], [], from, len), cb);
        if o.ret < 0 then o else Back(o.st, stack, cb)
      case Push => Into(here, place, tag == LeftBrace, n, stack, cb)
      case Next => Go(here, if place.BehindItem? then BeforeItem(false, place.left) else BeforeName(false), n, stack, cb)
      case Pop => Back(here, stack, cb)
  }

  /** After a call: zero goes on, a negative value ends everything, a positive one closes the innermost object or array
      as if its closing mark had been read. */
  function On<S>(o: Outcome<S>, place: Place, n: nat, stack: seq<Open>, cb: Callback<S>): Outcome<S>
    requires Fits(|o.st.jpath|, n, stack) && PlaceFits(place, |o.st.jpath|)
    decreases |o.st.rest|, |stack|, 1
  {
    if o.ret < 0 then o else if o.ret > 0 then Back(o.st, stack, cb) else Go(o.st, place, n, stack, cb)
  }

  /** The calls that enter. */
  function Entering<S>(st: State<S>, place: Place, braces: bool, n: nat): Event
    requires n < |st.jpath| && PlaceFits(place, |st.jpath|)
  {
    match place
    case BeforeValue(name, m) =>
      if braces then Branch(EnterBranch, st.jpath[..m], name) else Branch(EnterArray, st.jpath[..m], "[")
    case BeforeItem(_, left) =>
      if braces then Branch(EnterBranch, st.jpath[..n], "[") else Branch(EnterArray, st.jpath[..left], "[")
    case _ => if braces then Branch(EnterBranch, [], "{") else Branch(EnterArray, [], "[")
  }

  /** An opening mark: the call that enters, and on the stack what is to be done at the closing mark. */
  function Into<S>(st: State<S>, place: Place, braces: bool, n: nat, stack: seq<Open>, cb: Callback<S>): Outcome<S>
    requires Fits(|st.jpath|, n, stack) && PlaceFits(place, |st.jpath|)
    decreases |st.rest|, |stack| + 1, 2
  {
    var here := if place.BeforeItem? && !braces then st.(seen := Misplaced(st.seen, n, place.left)) else st;
    var o := Fire(here, Entering(st, place, braces, n), cb);
    if o.ret < 0 then o
    else if o.ret > 0 then Back(o.st, stack, cb)
    else
      var inside := if braces then BeforeName(true) else BeforeItem(true, 0);
      match place
      case BeforeValue(name, m) => Go(o.st, inside, m, [if braces then NamedObject(n, name) else NamedArray(n, m)] + stack, cb)
      case BeforeItem(_, left) =>
        Go(o.st, inside, if braces then n else left, [if braces then ListedObject(n, left) else ListedArray(n, left)] + stack, cb)
      case _ => Go(o.st, inside, 0, [if braces then WholeObject else WholeArray] + stack, cb)
  }

  /** The innermost object or array is closed: the call that leaves it, and what is around it goes on. */
  function Back<S>(st: State<S>, stack: seq<Open>, cb: Callback<S>): Outcome<S>
    requires Fits(|st.jpath|, 0, stack)
    decreases |st.rest|, |stack|, 0
  {
    if stack == [] then Outcome(st, 0)
    else
      var more := stack[1..];
      match stack[0]
      case WholeObject => On(Fire(st, Branch(LeaveBranch, [], "{"), cb), Top, 0, more, cb)
      case WholeArray => On(Fire(st, Branch(LeaveArray, [], "["), cb), Top, 0, more, cb)
      case NamedObject(n, name) =>
        var (buf, k) := Append(st.jpath, n, name);
        On(Fire(st.(jpath := buf), Branch(LeaveBranch, buf[..k], name), cb), BehindValue, n, more, cb)
      case NamedArray(n, m) =>
        var o := Fire(st, Branch(LeaveArray, st.jpath[..m], "["), cb);
        On(if o.ret == 0 then o.(st := o.st.(jpath := Append(o.st.jpath, n, "[").0)) else o, BehindValue, n, more, cb)
      case ListedObject(n, left) => On(Fire(st, Branch(LeaveBranch, st.jpath[..n], "["), cb), BehindItem(left), n, more, cb)
      case ListedArray(n, m) =>
        var o := Fire(st, Branch(LeaveArray, st.jpath[..m], "["), cb);
        var (buf, k) := Append(o.st.jpath, n, "[");
        On(if o.ret == 0 then o.(st := o.st.(jpath := buf)) else o, BehindItem(k), n, more, cb)
  }

  // ----- the recursive traversal is the machine

  /** What the machine makes of the outcome of a traversal inside an object or array. */
  function Finish<S>(o: Outcome<S>, stack: seq<Open>, cb: Callback<S>): Outcome<S>
    requires Fits(|o.st.jpath|, 0, stack)
  {
    if o.ret != 0 then o else Back(o.st, stack, cb)
  }

  lemma Pushed(size: nat, n: nat, open: Open, stack: seq<Open>)
    requires Fits(size, n, stack) && Within(open, size)
    ensures Fits(size, n, [open] + stack) && ([open] + stack)[0] == open && ([open] + stack)[1..] == stack
  {
  }

  lemma {:induction false} MembersGo<S>(st: State<S>, n: nat, first: bool, stack: seq<Open>, cb: Callback<S>)
    requires Fits(|st.jpath|, n, stack)
    ensures Go(st, BeforeName(first), n, stack, cb) == Finish(Members(st, n, first, cb), stack, cb)
    decreases |st.rest|, 0
  {
    hide NextToken, Back, Member, Fits;
    var t := NextToken(st.rest);
    if t.Token? && t.tag == Text { MemberGoes(st.(rest := t.rest), n, t.from[..t.len], t.quotes, stack, cb); }
  }

  lemma {:induction false} MemberGoes<S>(st: State<S>, n: nat, name: string, quotes: char, stack: seq<Open>, cb: Callback<S>)
    requires Fits(|st.jpath|, n, stack)
    ensures Go(st, BehindName(name, quotes), n, stack, cb) == Finish(Member(st, n, name, quotes, cb), stack, cb)
    decreases |st.rest|, 0
  {
    hide NextToken, Back, MemberValue, Append, Fire, Fits;
    var t := NextToken(st.rest);
    if t.Token? && t.tag == Colon { MemberValueGoes(st.(rest := t.rest), n, name, stack, cb); }
  }

  /** The state in which the machine stands before a value. */
  function Valued<S>(st: State<S>, n: nat, name: string): State<S>
    requires n < |st.jpath|
  {
    st.(jpath := Append(st.jpath, n, name).0, seen := st.seen.(plain := st.seen.plain && '/' !in name))
  }

  lemma {:induction false} MemberValueGoes<S>(st: State<S>, n: nat, name: string, stack: seq<Open>, cb: Callback<S>)
    requires Fits(|st.jpath|, n, stack)
    ensures Go(Valued(st, n, name), BeforeValue(name, Append(st.jpath, n, name).1), n, stack, cb)
      == Finish(MemberValue(st, n, name, cb), stack, cb)
    decreases |st.rest|, 0
  {
    hide NextToken, Back, MemberObject, MemberArray, AfterMember, Append, Fire, Into;
    var (buf, m) := Append(st.jpath, n, name);
    var t := NextToken(st.rest);
    if t.Token? {
      var here := Valued(st, n, name).(rest := t.rest);
      AfterMemberGoes(Fire(here, LeafEvent(buf[..m], name, t.from, t.len), cb).st, n, stack, cb);
      MemberObjectGoes(here, n, m, name, stack, cb);
      MemberArrayGoes(here, n, m, name, stack, cb);
    }
  }

  lemma {:induction false} MemberObjectGoes<S>(st: State<S>, n: nat, m: nat, name: string, stack: seq<Open>, cb: Callback<S>)
    requires Fits(|st.jpath|, n, stack) && m < |st.jpath|
    ensures Into(st, BeforeValue(name, m), true, n, stack, cb) == Finish(MemberObject(st, n, m, name, cb), stack, cb)
    decreases |st.rest|, 1
  {
    hide Go, Members, AfterMember, Append, Fire;
    Pushed(|st.jpath|, n, NamedObject(n, name), stack);
    var entered := Fire(st, Branch(EnterBranch, st.jpath[..m], name), cb);
    MembersGo(entered.st, m, true, [NamedObject(n, name)] + stack, cb);
    var inner := Members(entered.st, m, true, cb);
    var (buf, k) := Append(inner.st.jpath, n, name);
    var left := Fire(inner.st.(jpath := buf), Branch(LeaveBranch, buf[..k], name), cb);
    AfterMemberGoes(left.st, n, stack, cb);
    assert inner.ret == 0 ==>
      Back(inner.st, [NamedObject(n, name)] + stack, cb) == On(left, BehindValue, n, stack, cb);
  }

  lemma {:induction false} MemberArrayGoes<S>(st: State<S>, n: nat, m: nat, name: string, stack: seq<Open>, cb: Callback<S>)
    requires Fits(|st.jpath|, n, stack) && m < |st.jpath|
    ensures Into(st, BeforeValue(name, m), false, n, stack, cb) == Finish(MemberArray(st, n, m, cb), stack, cb)
    decreases |st.rest|, 1
  {
    hide Go, Items, AfterMember, Append, Fire;
    Pushed(|st.jpath|, n, NamedArray(n, m), stack);
    var entered := Fire(st, Branch(EnterArray, st.jpath[..m], "["), cb);
    ItemsGo(entered.st, m, true, 0, [NamedArray(n, m)] + stack, cb);
    var inner := Items(entered.st, m, true, 0, cb);
    var left := Fire(inner.st, Branch(LeaveArray, inner.st.jpath[..m], "["), cb);
    var appended := left.st.(jpath := Append(left.st.jpath, n, "[").0);
    AfterMemberGoes(appended, n, stack, cb);
    assert inner.ret == 0 ==>
      Back(inner.st, [NamedArray(n, m)] + stack, cb)
        == On(if left.ret == 0 then left.(st := appended) else left, BehindValue, n, stack, cb);
  }

  lemma {:induction false} AfterMemberGoes<S>(st: State<S>, n: nat, stack: seq<Open>, cb: Callback<S>)
    requires Fits(|st.jpath|, n, stack)
    ensures Go(st, BehindValue, n, stack, cb) == Finish(AfterMember(st, n, cb), stack, cb)
    decreases |st.rest|, 0
  {
    hide NextToken, Back, Members, Fits;
    var t := NextToken(st.rest);
    if t.Token? { MembersGo(st.(rest := t.rest), n, false, stack, cb); }
  }

  lemma {:induction false} ItemsGo<S>(st: State<S>, n: nat, first: bool, left: nat, stack: seq<Open>, cb: Callback<S>)
    requires Fits(|st.jpath|, n, stack) && left < |st.jpath|
    ensures Go(st, BeforeItem(first, left), n, stack, cb) == Finish(Items(st, n, first, left, cb), stack, cb)
    decreases |st.rest|, 0
  {
    hide NextToken, Back, ItemObject, ItemArray, AfterItem, Append, Fire, Into;
    var (buf, k) := Append(st.jpath, n, ".");
    var t := NextToken(st.rest);
    if t.Token? {
      var here := st.(rest := t.rest);
      AfterItemGoes(Fire(here.(jpath := buf), LeafEvent(buf[..k], [], t.from, t.len), cb).st, n, k, stack, cb);
      ItemObjectGoes(here, n, first, left, stack, cb);
      ItemArrayGoes(here, n, first, left, stack, cb);
    }
  }

  lemma {:induction false} ItemObjectGoes<S>(st: State<S>, n: nat, first: bool, left: nat, stack: seq<Open>, cb: Callback<S>)
    requires Fits(|st.jpath|, n, stack) && left < |st.jpath|
    ensures Into(st, BeforeItem(first, left), true, n, stack, cb) == Finish(ItemObject(st, n, left, cb), stack, cb)
    decreases |st.rest|, 1
  {
    hide Go, Members, AfterItem, Fire;
    Pushed(|st.jpath|, n, ListedObject(n, left), stack);
    var entered := Fire(st, Branch(EnterBranch, st.jpath[..n], "["), cb);
    MembersGo(entered.st, n, true, [ListedObject(n, left)] + stack, cb);
    var inner := Members(entered.st, n, true, cb);
    var closed := Fire(inner.st, Branch(LeaveBranch, inner.st.jpath[..n], "["), cb);
    AfterItemGoes(closed.st, n, left, stack, cb);
    assert inner.ret == 0 ==> Back(inner.st, [ListedObject(n, left)] + stack, cb) == On(closed, BehindItem(left), n, stack, cb);
  }

  lemma {:induction false} ItemArrayGoes<S>(st: State<S>, n: nat, first: bool, left: nat, stack: seq<Open>, cb: Callback<S>)
    requires Fits(|st.jpath|, n, stack) && left < |st.jpath|
    ensures Into(st, BeforeItem(first, left), false, n, stack, cb)
      == Finish(ItemArray(st.(seen := Misplaced(st.seen, n, left)), n, left, cb), stack, cb)
    decreases |st.rest|, 1
  {
    hide Go, Items, AfterItem, Append, Fire;
    Pushed(|st.jpath|, n, ListedArray(n, left), stack);
    var here := st.(seen := Misplaced(st.seen, n, left));
    var entered := Fire(here, Branch(EnterArray, st.jpath[..left], "["), cb);
    ItemsGo(entered.st, left, true, 0, [ListedArray(n, left)] + stack, cb);
    var inner := Items(entered.st, left, true, 0, cb);
    var closed := Fire(inner.st, Branch(LeaveArray, inner.st.jpath[..left], "["), cb);
    var (buf, k) := Append(closed.st.jpath, n, "[");
    AfterItemGoes(closed.st.(jpath := buf), n, k, stack, cb);
    assert inner.ret == 0 ==>
      Back(inner.st, [ListedArray(n, left)] + stack, cb)
        == On(if closed.ret == 0 then closed.(st := closed.st.(jpath := buf)) else closed, BehindItem(k), n, stack, cb);
  }

  lemma {:induction false} AfterItemGoes<S>(st: State<S>, n: nat, left: nat, stack: seq<Open>, cb: Callback<S>)
    requires Fits(|st.jpath|, n, stack) && left < |st.jpath|
    ensures Go(st, BehindItem(left), n, stack, cb) == Finish(AfterItem(st, n, left, cb), stack, cb)
    decreases |st.rest|, 0
  {
    hide NextToken, Back, Items, Fits;
    var t := NextToken(st.rest);
    if t.Token? { ItemsGo(st.(rest := t.rest), n, false, left, stack, cb); }
  }

  lemma BackEmpty<S>(st: State<S>, cb: Callback<S>)
    requires 0 < |st.jpath|
    ensures Back(st, [], cb) == Outcome(st, 0)
  {
  }

  lemma {:induction false} DocumentGoes<S>(st: State<S>, cb: Callback<S>)
    requires 0 < |st.jpath|
    ensures Go(st, Top, 0, [], cb) == Document(st, cb)
    decreases |st.rest|
  {
    hide NextToken, Members, Items, Fire;
    var t := NextToken(st.rest);
    if t.Token? && (t.tag == LeftBrace || t.tag == LeftBracket) {
      var here, braces := st.(rest := t.rest), t.tag == LeftBrace;
      var open := if braces then WholeObject else WholeArray;
      Pushed(|st.jpath|, 0, open, []);
      var entered := Fire(here, Entering(here, Top, braces, 0), cb);
      MembersGo(entered.st, 0, true, [open] + [], cb);
      ItemsGo(entered.st, 0, true, 0, [open] + [], cb);
      var inner := if braces then Members(entered.st, 0, true, cb) else Items(entered.st, 0, true, 0, cb);
      var leave := if braces then Branch(LeaveBranch, [], "{") else Branch(LeaveArray, [], "[");
      BackEmpty(entered.st, cb);
      if entered.ret == 0 && inner.ret == 0 {
        BackEmpty(Fire(inner.st, leave, cb).st, cb);
        DocumentGoes(Fire(inner.st, leave, cb).st, cb);
        assert Back(inner.st, [open] + [], cb) == On(Fire(inner.st, leave, cb), Top, 0, [], cb);
      }
    }
  }

  /** For every text, every callback and every return value of it: traversing is running the machine from an empty stack. */
  lemma TravelRuns<S>(text: string, jpath: string, user: S, cb: Callback<S>)
    requires 0 < |jpath|
    ensures var o := Go(State(text, jpath, user, NOTHING), Top, 0, [], cb);
      Travel(text, jpath, user, cb) == if o.ret == 150 then o.(ret := 0) else o
  {
    DocumentGoes(State(text, jpath, user, NOTHING), cb);
    hide Document, Go;
  }
}
