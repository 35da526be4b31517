/** What the scan of a text finds in a printed value tree: no early array, and a slash in a key
    exactly when the tree has one. */
module JsonLayout {
  import opened JsonToken
  import opened JsonTravel
  import opened JsonPrint
  import opened JsonRead
  import opened JsonSurvey

  predicate Plain(key: string) { '/' !in key }

  predicate PlainMembers(ms: MemberList) {
    match ms
    case NoMember => true
    case ScalarMember(key, _, more) => Plain(key) && PlainMembers(more)
    case ObjectMember(key, inner, more) => Plain(key) && PlainMembers(inner) && PlainMembers(more)
    case ArrayMember(key, items, more) => Plain(key) && PlainItems(items) && PlainMembers(more)
  }

  predicate PlainItems(items: ItemList) {
    match items
    case NoItem => true
    case ScalarItem(_, more) => PlainItems(more)
    case ObjectItem(inner, more) => PlainMembers(inner) && PlainItems(more)
  }

  predicate PlainValue(ms: MemberList)
    requires !ms.NoMember?
  {
    (ms.ObjectMember? ==> PlainMembers(ms.members)) && (ms.ArrayMember? ==> PlainItems(ms.items))
  }

  // ----- one token

  lemma SameToken(a: string, b: string, open: seq<Frame>)
    requires NextToken(a) == NextToken(b)
    ensures Survey(a, open) == Survey(b, open)
  {
  }

  /** A closing mark takes the innermost bracket off. */
  lemma ClosingToken(next: string, mark: Tag, rest: string, frame: Frame, open: seq<Frame>)
    requires Closes(next, mark, rest) && (mark == RightBrace || mark == RightBracket)
    ensures Survey(next, [frame] + open) == Survey(rest, open) && !ColonNext(next)
  {
    hide NextToken, Survey;
    SurveyOnce(next, [frame] + open);
    assert ([frame] + open)[1..] == open;
  }

  lemma MarkedFrame(frame: Frame, open: seq<Frame>)
    ensures Mark([frame] + open) == [if frame.Bracket? then frame.(marked := true) else frame] + open
  {
  }

  /** A scalar, which is no key. */
  lemma ScalarFound(blank: string, v: Scalar, after: string, frame: Frame, open: seq<Frame>)
    requires AllBlank(blank) && PrintableScalar(v) && Terminated(after) && !ColonNext(after)
    ensures Survey(blank + ShowScalar(v, after), [frame] + open)
      == Survey(after, [if frame.Bracket? then frame.(marked := true) else frame] + open)
  {
    hide NextToken, Survey, ShowScalar, ColonNext, PrintableScalar, Terminated, ScalarEvent;
    ScalarToken(blank, v, after);
    SurveyOnce(blank + ShowScalar(v, after), [frame] + open);
    MarkedFrame(frame, open);
  }

  lemma KeyFound(key: string, depth: nat, value: string, open: seq<Frame>)
    requires Quotable(key)
    ensures Survey(ShowKey(key, depth, value), [Brace] + open) == Both(Shape(true, Plain(key)), Survey(" " + value, [Brace] + open))
  {
    hide NextToken, Survey, ShowKey;
    KeyToken(key, depth, value);
    assert (key + ("\"" + (" : " + value)))[..|key|] == key;
    ColonToken(value);
    SurveyOnce(ShowKey(key, depth, value), [Brace] + open);
    SurveyOnce(" : " + value, [Brace] + open);
    MarkedFrame(Brace, open);
  }

  lemma CommaFound(text: string, open: seq<Frame>)
    ensures Survey(Separator(false) + text, open) == Survey(text, open) && !ColonNext(Separator(false) + text)
  {
    hide NextToken, Survey;
    CommaToken(text);
    NewLine(text);
    SurveyOnce(" ,\n" + text, open);
    SameToken("\n" + text, text, open);
  }

  // ----- the tree

  lemma {:induction false} MembersSurvey(ms: MemberList, depth: nat, next: string, rest: string, open: seq<Frame>)
    requires Printable(ms) && Closes(next, RightBrace, rest)
    ensures Survey(ShowMembers(ms, depth, next), [Brace] + open) == Both(Shape(true, PlainMembers(ms)), Survey(rest, open))
    decreases ms, 3
  {
    hide Survey, Closes, ShowKey, ShowValue, After, PlainItems;
    if ms.NoMember? {
      ClosingToken(next, RightBrace, rest, Brace, open);
    } else {
      UnfoldMember(ms, [], 1, depth, next);
      QuotableKey(ms);
      hide ShowMembers, Printable, ValueEvents, MemberEvents, Quotable;
      KeyFound(ms.key, depth, ShowValue(ms, depth, After(ms, depth, next)), open);
      ValueSurvey(ms, depth, next, rest, open);
    }
  }

  lemma {:induction false} ValueSurvey(ms: MemberList, depth: nat, next: string, rest: string, open: seq<Frame>)
    requires Printable(ms) && !ms.NoMember? && Closes(next, RightBrace, rest)
    ensures Survey(" " + ShowValue(ms, depth, After(ms, depth, next)), [Brace] + open)
      == Both(Shape(true, PlainValue(ms) && PlainMembers(ms.more)), Survey(rest, open))
    decreases ms, 2
  {
    hide Survey, Closes, ShowMembers, ShowItems, ShowScalar, ShowMark, NextToken, PlainMembers, PlainItems, Separator, ColonNext,
      Terminated, PrintableScalar;
    var after := After(ms, depth, next);
    AfterMemberSurvey(ms.more, depth, next, rest, open);
    match ms
    case ScalarMember(_, v, more) =>
      AfterTerminated(more.NoMember?, ShowMembers(more, depth, next));
      ScalarFound(" ", v, after, Brace, open);
    case ObjectMember(_, inner, _) =>
      ObjectSurvey(" \n", inner, depth, after, [Brace] + open);
      assert " " + ("\n" + ShowObject(inner, depth, after)) == " \n" + ShowObject(inner, depth, after);
    case ArrayMember(_, items, _) =>
      ArraySurvey(items, depth, after, open);
  }

  lemma {:induction false} AfterMemberSurvey(ms: MemberList, depth: nat, next: string, rest: string, open: seq<Frame>)
    requires Printable(ms) && Closes(next, RightBrace, rest)
    ensures var text := Separator(ms.NoMember?) + ShowMembers(ms, depth, next);
      Survey(text, [Brace] + open) == Both(Shape(true, PlainMembers(ms)), Survey(rest, open)) && !ColonNext(text)
    decreases ms, 4
  {
    hide Survey, Closes, NextToken;
    MembersSurvey(ms, depth, next, rest, open);
    if ms.NoMember? {
      NewLine(next);
      SameToken("\n" + next, next, [Brace] + open);
      ClosingToken(next, RightBrace, rest, Brace, open);
    } else {
      CommaFound(ShowMembers(ms, depth, next), [Brace] + open);
    }
  }

  lemma {:induction false} ObjectSurvey(blank: string, ms: MemberList, depth: nat, after: string, open: seq<Frame>)
    requires Printable(ms) && AllBlank(blank)
    ensures Survey(blank + ShowObject(ms, depth, after), open) == Both(Shape(true, PlainMembers(ms)), Survey(after, open))
    decreases ms, 5
  {
    hide Survey, Closes, ShowMembers, ShowMark, NextToken, PlainMembers;
    var closing := ShowMark("}", depth, after);
    var shown := ShowMembers(ms, depth + 1, closing);
    MarkCloses("}", depth, after);
    MembersSurvey(ms, depth + 1, closing, after, open);
    TokenAfterBlank(blank, ShowObject(ms, depth, after));
    MarkToken("{\n", depth, shown);
    SurveyOnce(blank + ShowObject(ms, depth, after), open);
    NewLine(shown);
    SameToken("\n" + shown, shown, [Brace] + open);
  }

  lemma {:induction false} ArraySurvey(items: ItemList, depth: nat, after: string, open: seq<Frame>)
    requires PrintableItems(items)
    ensures Survey(" " + ("\n" + ShowMark("[\n", depth, ShowItems(items, depth, ShowMark("]", depth, after)))), [Brace] + open)
      == Both(Shape(true, PlainItems(items)), Survey(after, [Brace] + open))
    decreases items, 5
  {
    hide Survey, Closes, ShowItems, ShowMark, NextToken, PlainItems;
    var closing := ShowMark("]", depth, after);
    var shown := ShowItems(items, depth, closing);
    var text := ShowMark("[\n", depth, shown);
    MarkCloses("]", depth, after);
    ItemsSurvey(items, depth, closing, after, Bracket(false, false), [Brace] + open);
    TokenAfterBlank(" ", "\n" + text);
    NewLine(text);
    MarkToken("[\n", depth, shown);
    SurveyOnce(" " + ("\n" + text), [Brace] + open);
    MarkedFrame(Brace, open);
    NewLine(shown);
    SameToken("\n" + shown, shown, [Bracket(false, false)] + ([Brace] + open));
  }

  lemma {:induction false} ItemsSurvey(items: ItemList, depth: nat, next: string, rest: string, frame: Frame, open: seq<Frame>)
    requires PrintableItems(items) && Closes(next, RightBracket, rest) && frame.Bracket?
    ensures Survey(ShowItems(items, depth, next), [frame] + open) == Both(Shape(true, PlainItems(items)), Survey(rest, open))
    decreases items, 3
  {
    hide Survey, Closes, ShowObject, ShowScalar, PlainMembers, Separator, ColonNext, Terminated, PrintableScalar;
    if items.NoItem? {
      ClosingToken(next, RightBracket, rest, frame, open);
    } else {
      var after := ItemAfter(items, depth, next);
      UnfoldItem(items, [], 1, depth, next);
      hide ShowItems;
      match items
      case ScalarItem(v, more) =>
        AfterTerminated(more.NoItem?, ShowItems(more, depth, next));
        AfterItemSurvey(more, depth, next, rest, frame.(marked := true), open);
        ScalarFound(Tabs(depth), v, after, frame, open);
      case ObjectItem(inner, more) =>
        AfterItemSurvey(more, depth, next, rest, frame, open);
        ObjectSurvey([], inner, depth, after, [frame] + open);
        assert [] + ShowObject(inner, depth, after) == ShowObject(inner, depth, after);
    }
  }

  lemma {:induction false} AfterItemSurvey(items: ItemList, depth: nat, next: string, rest: string, frame: Frame, open: seq<Frame>)
    requires PrintableItems(items) && Closes(next, RightBracket, rest) && frame.Bracket?
    ensures var text := Separator(items.NoItem?) + ShowItems(items, depth, next);
      Survey(text, [frame] + open) == Both(Shape(true, PlainItems(items)), Survey(rest, open)) && !ColonNext(text)
    decreases items, 4
  {
    hide Survey, Closes, NextToken;
    ItemsSurvey(items, depth, next, rest, frame, open);
    if items.NoItem? {
      NewLine(next);
      SameToken("\n" + next, next, [frame] + open);
      ClosingToken(next, RightBracket, rest, frame, open);
    } else {
      CommaFound(ShowItems(items, depth, next), [frame] + open);
    }
  }

  /** Every printed tree can be traversed at its own paths; its text has a slash in a key exactly when the tree has one. */
  lemma PrintedShape(ms: MemberList)
    requires Printable(ms)
    ensures NoEarlyArray(ShowDocument(ms)) && (PlainKeys(ShowDocument(ms)) <==> PlainMembers(ms))
  {
    hide Survey, ShowObject, PlainMembers, Printable;
    ObjectSurvey([], ms, 0, "\n", []);
    assert [] + ShowDocument(ms) == ShowDocument(ms);
    NewLine([]);
    assert "\n" + [] == "\n";
    SurveyOnce("\n", []);
  }
}
