/** A document with an array directly inside an array, call by call. */
module JsonNested {

  import opened JsonText
  import opened JsonToken
  import opened JsonTravel
  import opened JsonRead

  type Log = seq<Event>

  // ----- its tokens

  lemma MarkTokens()
    ensures NextToken("],{}]}") == Token(RightBracket, "],{}]}", 1, NUL, ",{}]}")
    ensures NextToken(",{}]}") == Token(Comma, ",{}]}", 1, NUL, "{}]}")
    ensures NextToken("{}]}") == Token(LeftBrace, "{}]}", 1, NUL, "}]}")
    ensures NextToken("}]}") == Token(RightBrace, "}]}", 1, NUL, "]}")
  {
    assert "],{}]}" == [']'] + ",{}]}" && ",{}]}" == [','] + "{}]}" && "{}]}" == ['{'] + "}]}" && "}]}" == ['}'] + "]}";
    PunctuationToken(']', ",{}]}");
    PunctuationToken(',', "{}]}");
    PunctuationToken('{', "}]}");
    PunctuationToken('}', "]}");
  }

  lemma LastTokens()
    ensures NextToken("]}") == Token(RightBracket, "]}", 1, NUL, "}")
    ensures NextToken("}") == Token(RightBrace, "}", 1, NUL, [])
    ensures NextToken([]) == End
  {
    assert "]}" == [']'] + "}" && "}" == ['}'] + [];
    PunctuationToken(']', "}");
    PunctuationToken('}', []);
  }

  lemma NumberToken()
    ensures NextToken("1],{}]}") == Token(Text, "1],{}]}", 1, NUL, "],{}]}")
  {
    assert Bare("1") && Terminated("],{}]}") && "1" + "],{}]}" == "1],{}]}";
    BareToken("1", "],{}]}");
  }

  /** What stands behind the key and its colon. */
  const ARRAYS: string := ['['] + (['['] + "1],{}]}")

  /** A key, its colon, and what follows. */
  function Keyed(key: string, rest: string): string { "\"" + (key + ("\"" + ([':'] + rest))) }

  /** The document: `{"key":[[1],{}]}`. */
  function NestedText(key: string): string {
    ['{'] + Keyed(key, ARRAYS)
  }

  // ----- its calls

  /** The items `1]` of the inner array, visited at path length zero: the start of the buffer is
      overwritten. */
  lemma InnerItems(jpath: string, log: Log, seen: Shape)
    requires |jpath| >= 8
    ensures Items(State("1],{}]}", jpath, log, seen), 0, true, 0, Record)
      == Outcome(State(",{}]}", Overwrite(jpath, 0, "/." + [NUL]), log + [Event(Leaf, "/.", [], "1", "],{}]}")], seen), 0)
  {
    hide NextToken, Overwrite;
    NumberToken();
    MarkTokens();
    AppendExtends(jpath, 0, ".");
    assert "/" + "." + [NUL] == "/." + [NUL] && jpath[..0] + "/" + "." == "/.";
    var buf := Overwrite(jpath, 0, "/." + [NUL]);
    assert Append(jpath, 0, ".") == (buf, 2);
    var e := Event(Leaf, "/.", [], "1", "],{}]}");
    assert "1],{}]}"[..1] == "1" && "1],{}]}"[1..] == "],{}]}";
    var leaf := State("],{}]}", buf, log + [e], seen);
    assert AfterItem(leaf, 0, 2, Record) == Outcome(leaf.(rest := ",{}]}"), 0);
  }

  /** The empty object behind it is reported under whatever the buffer holds by then. */
  lemma ObjectItems(jpath: string, n: nat, m: nat, log: Log, seen: Shape)
    requires n < |jpath| && m < |jpath|
    ensures var lost := jpath[..n];
      Items(State("{}]}", jpath, log, seen), n, false, m, Record)
      == Outcome(State("}", jpath, log + [Branch(EnterBranch, lost, "["), Branch(LeaveBranch, lost, "[")], seen), 0)
  {
    hide NextToken;
    MarkTokens();
    LastTokens();
    var lost := jpath[..n];
    var enter, leave := Branch(EnterBranch, lost, "["), Branch(LeaveBranch, lost, "[");
    assert log + [enter] + [leave] == log + [enter, leave];
    var entered := State("}]}", jpath, log + [enter], seen);
    assert Members(entered, n, true, Record) == Outcome(entered.(rest := "]}"), 0);
    var left := State("]}", jpath, log + [enter, leave], seen);
    assert AfterItem(left, n, m, Record) == Outcome(left.(rest := "}"), 0);
    assert ItemObject(State("}]}", jpath, log, seen), n, m, Record) == Outcome(left.(rest := "}"), 0);
  }

  /** The calls for the items of the outer array, whose path has length `n`. */
  function ItemCalls(lost: string): Log {
    [Branch(EnterArray, [], "["), Event(Leaf, "/.", [], "1", "],{}]}"), Branch(LeaveArray, [], "["),
     Branch(EnterBranch, lost, "["), Branch(LeaveBranch, lost, "[")]
  }

  lemma OuterItems(jpath: string, n: nat, log: Log, seen: Shape)
    requires 0 < n && n + 8 <= |jpath|
    ensures var lost := Overwrite(jpath, 0, "/." + [NUL])[..n]; var o := Items(State(['['] + "1],{}]}", jpath, log, seen), n, true, 0, Record);
      && o.ret == 0 && o.st.rest == "}" && o.st.user == log + ItemCalls(lost)
      && |o.st.jpath| == |jpath| && o.st.jpath[..n] == lost
  {
    hide NextToken, Overwrite;
    PunctuationToken('[', "1],{}]}");
    MarkTokens();
    var st := State("1],{}]}", jpath, log, Misplaced(seen, n, 0));
    var enter, leave := Branch(EnterArray, [], "["), Branch(LeaveArray, [], "[");
    var leafed := Event(Leaf, "/.", [], "1", "],{}]}");
    assert jpath[..0] == [];
    InnerItems(jpath, log + [enter], st.seen);
    var buf := Overwrite(jpath, 0, "/." + [NUL]);
    assert buf[..0] == [];
    var left := State(",{}]}", buf, log + [enter] + [leafed] + [leave], st.seen);
    AppendExtends(buf, n, "[");
    var (last, k) := Append(buf, n, "[");
    ObjectItems(last, n, k, left.user, st.seen);
    var here := left.(jpath := last);
    assert AfterItem(here, n, k, Record) == Items(here.(rest := "{}]}"), n, false, k, Record);
    assert ItemArray(st, n, 0, Record) == AfterItem(here, n, k, Record);
    var lost := last[..n];
    assert left.user + [Branch(EnterBranch, lost, "["), Branch(LeaveBranch, lost, "[")] == log + ItemCalls(lost);
  }

  /** The calls for the whole document. */
  function NestedCalls(path: string, lost: string): Log {
    [Branch(EnterBranch, [], "{"), Branch(EnterArray, path, "[")] + ItemCalls(lost)
    + [Branch(LeaveArray, lost, "["), Branch(LeaveBranch, [], "{")]
  }

  /** What is left of the path of the outer array when its object is reported. */
  function Lost(key: string, jpath: string): string
    requires |key| + 9 <= |jpath|
  {
    Overwrite(Overwrite(jpath, 0, "/" + key + [NUL]), 0, "/." + [NUL])[..|key| + 1]
  }

  lemma OuterMember(jpath: string, key: string, log: Log, seen: Shape)
    requires |key| + 9 <= |jpath|
    ensures var lost := Lost(key, jpath);
      var o := MemberValue(State(['['] + (['['] + "1],{}]}"), jpath, log, seen), 0, key, Record);
      && o.ret == 0 && o.st.rest == [] && |o.st.jpath| == |jpath|
      && o.st.user == log + [Branch(EnterArray, "/" + key, "[")] + ItemCalls(lost) + [Branch(LeaveArray, lost, "[")]
  {
    hide NextToken, Overwrite;
    PunctuationToken('[', ['['] + "1],{}]}");
    LastTokens();
    AppendExtends(jpath, 0, key);
    var (buf, m) := Append(jpath, 0, key);
    assert jpath[..0] + "/" + key == "/" + key;
    assert buf == Overwrite(jpath, 0, "/" + key + [NUL]) && m == |key| + 1;
    var enter := Branch(EnterArray, "/" + key, "[");
    var st := State(['['] + "1],{}]}", buf, log, seen.(plain := seen.plain && '/' !in key));
    OuterItems(buf, m, log + [enter], st.seen);
    var inner := Items(st.(user := log + [enter]), m, true, 0, Record);
    var leave := Branch(LeaveArray, inner.st.jpath[..m], "[");
    var (last, k) := Append(inner.st.jpath, 0, "[");
    var left := inner.st.(user := inner.st.user + [leave], jpath := last);
    assert AfterMember(left, 0, Record) == Outcome(left.(rest := []), 0);
    assert MemberArray(st, 0, m, Record) == Outcome(left.(rest := []), 0);
  }

  lemma KeyThenColon<S>(key: string, rest: string, st: State<S>, n: nat, first: bool, cb: Callback<S>)
    requires Quotable(key) && n < |st.jpath| && st.rest == Keyed(key, rest)
    ensures Members(st, n, first, cb) == MemberValue(st.(rest := rest), n, key, cb)
  {
    hide NextToken, MemberValue, Quotable;
    var tail := [':'] + rest;
    QuotedToken(key, tail);
    PunctuationToken(':', rest);
    assert (key + ("\"" + tail))[..|key|] == key;
  }

  lemma DocumentOnce(key: string, jpath: string)
    requires 0 < |jpath|
    ensures var inner := Members(State(Keyed(key, ARRAYS), jpath, [Branch(EnterBranch, [], "{")], NOTHING), 0, true, Record);
      inner.ret == 0 && inner.st.rest == [] && |inner.st.jpath| > 0 ==>
        Document(State(NestedText(key), jpath, [], NOTHING), Record)
          == Outcome(inner.st.(user := inner.st.user + [Branch(LeaveBranch, [], "{")]), END_OF_TEXT)
  {
    hide NextToken, Members;
    PunctuationToken('{', Keyed(key, ARRAYS));
    LastTokens();
    var enter := Branch(EnterBranch, [], "{");
    assert [] + [enter] == [enter];
    assert NestedText(key) == ['{'] + Keyed(key, ARRAYS);
  }

  /** The traversal of the document does not fail, and makes these calls. */
  lemma NestedDocument(key: string, jpath: string)
    requires Quotable(key) && |key| + 9 <= |jpath|
    ensures var o := Travel(NestedText(key), jpath, [], Record);
      o.ret == 0 && o.st.user == NestedCalls("/" + key, Lost(key, jpath))
  {
    hide NextToken, Lost, Quotable, MemberValue, Members, ItemCalls, Document, NestedText, Keyed;
    var enter := Branch(EnterBranch, [], "{");
    OuterMember(jpath, key, [enter], NOTHING);
    KeyThenColon(key, ARRAYS, State(Keyed(key, ARRAYS), jpath, [enter], NOTHING), 0, true, Record);
    DocumentOnce(key, jpath);
    var path, lost := "/" + key, Lost(key, jpath);
    assert [enter] + [Branch(EnterArray, path, "[")] + ItemCalls(lost) + [Branch(LeaveArray, lost, "[")] + [Branch(LeaveBranch, [], "{")]
      == NestedCalls(path, lost);
  }

  /** The object keeps the path of the array around it only under two keys. */
  lemma LostExactly(key: string, jpath: string)
    requires |key| + 9 <= |jpath| && NUL !in key
    ensures Lost(key, jpath) == "/" + key <==> key == "" || key == "."
  {
    var lost := Lost(key, jpath);
    assert |lost| == |key| + 1 && lost[0] == '/';
    assert |key| >= 1 ==> lost[1] == '.';
    assert |key| >= 2 ==> lost[2] == NUL && ("/" + key)[2] == key[1];
    if |key| == 1 { assert ("/" + key)[1] == key[0]; }
    if key == "" || key == "." { assert lost == "/" + key; }
  }

  lemma ExampleText()
    ensures NestedText("ab") == "{\"ab\":[[1],{}]}"
  {
  }

  lemma ExampleKey()
    ensures Quotable("ab") && NUL !in "ab"
  {
    assert Quotable("b") && "ab"[1..] == "b";
  }

  /** One such document: the object in the array "ab" is entered under another path. */
  lemma NestedExample(jpath: string)
    requires |jpath| >= 11
    ensures var o := Travel("{\"ab\":[[1],{}]}", jpath, [], Record);
      o.ret == 0 && |o.st.user| == 9 && o.st.user[1] == Branch(EnterArray, "/ab", "[")
      && o.st.user[5].kind == EnterBranch && o.st.user[5].path != "/ab"
  {
    ExampleText();
    ExampleKey();
    NestedDocument("ab", jpath);
    LostExactly("ab", jpath);
    hide Travel, Lost, NestedText;
    assert "/" + "ab" == "/ab";
  }
}
