/** The printed form of a value tree, line by line. */
module JsonLines {
  import opened JsonPrint

  function Indent(depth: nat): string { if depth == 0 then "" else "\t" + Indent(depth - 1) }

  function Flat(lines: seq<string>): string { if lines == [] then "" else lines[0] + "\n" + Flat(lines[1..]) }

  function ValueText(v: Scalar): string {
    match v
    case Text(raw) => "\"" + raw + "\""
    case Number(raw) => raw
    case Null => "null"
  }

  /** What stands at the end of the last line of a member or item. */
  function Comma(last: bool): string { if last then "" else " ," }

  /** A scalar member is one line.  An object or array is a line with its key, its opening mark, its members one tab further in, or
      its items, and its closing mark. */
  function MemberLines(ms: MemberList, depth: nat): seq<string>
    decreases ms, 0
  {
    if ms.NoMember? then []
    else
      var key, end := Indent(depth) + "\"" + ms.key + "\" : ", Comma(ms.more.NoMember?);
      (match ms
       case ScalarMember(_, v, _) => [key + ValueText(v) + end]
       case ObjectMember(_, inner, _) => [key] + ObjectLines(inner, depth, end)
       case ArrayMember(_, items, _) => [key, Indent(depth) + "["] + ItemLines(items, depth) + [Indent(depth) + "]" + end])
      + MemberLines(ms.more, depth)
  }

  function ObjectLines(ms: MemberList, depth: nat, end: string): seq<string>
    decreases ms, 1
  {
    [Indent(depth) + "{"] + MemberLines(ms, depth + 1) + [Indent(depth) + "}" + end]
  }

  function ItemLines(items: ItemList, depth: nat): seq<string>
    decreases items, 0
  {
    if items.NoItem? then []
    else
      var end := Comma(items.more.NoItem?);
      (match items
       case ScalarItem(v, _) => [Indent(depth) + ValueText(v) + end]
       case ObjectItem(inner, _) => ObjectLines(inner, depth, end))
      + ItemLines(items.more, depth)
  }

  // ----- the text is these lines

  lemma {:induction false} FlatConcat(a: seq<string>, b: seq<string>)
    ensures Flat(a + b) == Flat(a) + Flat(b)
  {
    if a == [] {
      assert a + b == b;
    } else {
      assert (a + b)[1..] == a[1..] + b;
      FlatConcat(a[1..], b);
    }
  }

  lemma FlatOne(line: string)
    ensures Flat([line]) == line + "\n"
  {
    assert [line][1..] == [];
  }

  lemma {:induction false} TabsIndent(depth: nat)
    ensures Tabs(depth) == Indent(depth)
  {
    if depth > 0 {
      TabsIndent(depth - 1);
      assert Tabs(depth) == "\t" + Tabs(depth - 1);
    }
  }

  lemma SeparatorLine(last: bool)
    ensures Separator(last) == Comma(last) + "\n"
  {
  }

  predicate AreLines(ms: MemberList, depth: nat, next: string) { ShowMembers(ms, depth, next) == Flat(MemberLines(ms, depth)) + next }

  lemma ScalarLine(key: string, v: Scalar, more: MemberList, depth: nat, next: string)
    requires AreLines(more, depth, next)
    ensures AreLines(ScalarMember(key, v, more), depth, next)
  {
    hide Indent, Flat, ValueText, Comma, Tabs, ShowScalar, Separator;
    TabsIndent(depth);
    SeparatorLine(more.NoMember?);
    var end, rest := Comma(more.NoMember?), MemberLines(more, depth);
    var after := Separator(more.NoMember?) + ShowMembers(more, depth, next);
    var line := Indent(depth) + "\"" + key + "\" : ";
    assert after == end + "\n" + (Flat(rest) + next);
    ScalarText(v, after);
    FlatOne(line + ValueText(v) + end);
    FlatConcat([line + ValueText(v) + end], rest);
  }

  lemma KeyLine(key: string, depth: nat, x: string)
    ensures ShowKey(key, depth, x) == Indent(depth) + "\"" + key + "\" : " + x
  {
    TabsIndent(depth);
    hide Tabs, Indent;
  }

  lemma Regroup(a: string, b: string, c: string, d: string)
    ensures a + ("\n" + (b + (c + d))) == a + "\n" + b + c + d
  {
  }

  lemma ObjectMemberLines(key: string, inner: MemberList, more: MemberList, depth: nat, next: string)
    requires AreLines(more, depth, next)
    requires forall end, after :: ShowObject(inner, depth, end + "\n" + after) == Flat(ObjectLines(inner, depth, end)) + after
    ensures AreLines(ObjectMember(key, inner, more), depth, next)
  {
    var end, rest := Comma(more.NoMember?), MemberLines(more, depth);
    var after := Separator(more.NoMember?) + ShowMembers(more, depth, next);
    var line := Indent(depth) + "\"" + key + "\" : ";
    SeparatorLine(more.NoMember?);
    assert after == end + "\n" + (Flat(rest) + next);
    var lines := ObjectLines(inner, depth, end);
    FlatOne(line);
    FlatConcat([line], lines);
    FlatConcat([line] + lines, rest);
    KeyLine(key, depth, "\n" + ShowObject(inner, depth, after));
    Regroup(line, Flat(lines), Flat(rest), next);
    hide ShowObject, ObjectLines, ShowKey, Flat, Indent, Comma, Separator;
  }

  /** The lines of an array below its key. */
  function Block(depth: nat, shown: string, end: string): string {
    Indent(depth) + "[\n" + shown + Indent(depth) + "]" + end + "\n"
  }

  lemma ArrayMemberLines(key: string, items: ItemList, more: MemberList, depth: nat, next: string)
    requires AreLines(more, depth, next)
    requires forall after :: ShowItems(items, depth, after) == Flat(ItemLines(items, depth)) + after
    ensures AreLines(ArrayMember(key, items, more), depth, next)
  {
    var end, rest := Comma(more.NoMember?), MemberLines(more, depth);
    var after := Separator(more.NoMember?) + ShowMembers(more, depth, next);
    var line := Indent(depth) + "\"" + key + "\" : ";
    SeparatorLine(more.NoMember?);
    assert after == end + "\n" + (Flat(rest) + next);
    var closing, shown := ShowMark("]", depth, after), Flat(ItemLines(items, depth));
    var lines := [line, Indent(depth) + "["] + ItemLines(items, depth) + [Indent(depth) + "]" + end];
    hide ShowMark, ShowKey, Flat, Indent, Comma, Separator, Block, ItemLines, ShowItems;
    assert ShowItems(items, depth, closing) == shown + closing;
    BracketLines(depth, shown, end, Flat(rest), next);
    ArrayLines(line, items, depth, end);
    FlatConcat(lines, rest);
    var block := Block(depth, shown, end);
    KeyLine(key, depth, "\n" + (block + (Flat(rest) + next)));
    Regroup(line, block, Flat(rest), next);
  }

  lemma BracketLines(depth: nat, shown: string, end: string, rest: string, next: string)
    ensures ShowMark("[\n", depth, shown + ShowMark("]", depth, end + "\n" + (rest + next)))
      == Block(depth, shown, end) + (rest + next)
  {
    TabsIndent(depth);
    hide Tabs, Indent;
  }

  lemma {:induction false} MembersAreLines(ms: MemberList, depth: nat, next: string)
    ensures AreLines(ms, depth, next)
    decreases ms, 0
  {
    match ms
    case NoMember => FlatNone();
    case ScalarMember(key, v, more) =>
      MembersAreLines(more, depth, next);
      ScalarLine(key, v, more, depth, next);
    case ObjectMember(key, inner, more) =>
      MembersAreLines(more, depth, next);
      forall end, after ensures ShowObject(inner, depth, end + "\n" + after) == Flat(ObjectLines(inner, depth, end)) + after {
        ObjectIsLines(inner, depth, end, after);
      }
      ObjectMemberLines(key, inner, more, depth, next);
    case ArrayMember(key, items, more) =>
      MembersAreLines(more, depth, next);
      forall after ensures ShowItems(items, depth, after) == Flat(ItemLines(items, depth)) + after { ItemsAreLines(items, depth, after); }
      ArrayMemberLines(key, items, more, depth, next);
  }

  lemma FlatNone()
    ensures Flat([]) == ""
  {
  }

  lemma ScalarText(v: Scalar, after: string)
    ensures ShowScalar(v, after) == ValueText(v) + after
  {
  }

  lemma ArrayLines(key: string, items: ItemList, depth: nat, end: string)
    ensures Flat([key, Indent(depth) + "["] + ItemLines(items, depth) + [Indent(depth) + "]" + end])
      == key + "\n" + Block(depth, Flat(ItemLines(items, depth)), end)
  {
    hide Indent, Flat, ItemLines;
    var open, close := Indent(depth) + "[", Indent(depth) + "]" + end;
    FlatOne(key);
    FlatOne(open);
    FlatOne(close);
    FlatConcat([key], [open]);
    assert [key] + [open] == [key, open];
    FlatConcat([key, open], ItemLines(items, depth));
    FlatConcat([key, open] + ItemLines(items, depth), [close]);
  }

  lemma {:induction false} ObjectIsLines(ms: MemberList, depth: nat, end: string, next: string)
    ensures ShowObject(ms, depth, end + "\n" + next) == Flat(ObjectLines(ms, depth, end)) + next
    decreases ms, 1
  {
    hide Indent, Flat, Tabs, MemberLines, ShowMembers;
    var after := end + "\n" + next;
    TabsIndent(depth);
    MembersAreLines(ms, depth + 1, ShowMark("}", depth, after));
    var open, close := Indent(depth) + "{", Indent(depth) + "}" + end;
    FlatOne(open);
    FlatOne(close);
    FlatConcat([open], MemberLines(ms, depth + 1));
    FlatConcat([open] + MemberLines(ms, depth + 1), [close]);
  }

  lemma {:induction false} ItemsAreLines(items: ItemList, depth: nat, next: string)
    ensures ShowItems(items, depth, next) == Flat(ItemLines(items, depth)) + next
    decreases items, 0
  {
    hide Indent, Flat, ValueText, Comma, Tabs, ShowScalar, Separator, ObjectLines, ShowObject;
    if items.NoItem? {
      FlatNone();
    } else {
      TabsIndent(depth);
      SeparatorLine(items.more.NoItem?);
      ItemsAreLines(items.more, depth, next);
      var end, more := Comma(items.more.NoItem?), ItemLines(items.more, depth);
      var after := Separator(items.more.NoItem?) + ShowItems(items.more, depth, next);
      assert after == end + "\n" + (Flat(more) + next);
      match items
      case ScalarItem(v, _) =>
        ScalarText(v, after);
        FlatOne(Indent(depth) + ValueText(v) + end);
        FlatConcat([Indent(depth) + ValueText(v) + end], more);
      case ObjectItem(inner, _) =>
        ObjectIsLines(inner, depth, end, Flat(more) + next);
        FlatConcat(ObjectLines(inner, depth, end), more);
    }
  }

  /** A printed document. */
  lemma DocumentIsLines(ms: MemberList)
    ensures ShowDocument(ms) == Flat(["{"] + MemberLines(ms, 1) + ["}"])
  {
    hide MemberLines, ShowMembers;
    ObjectIsLines(ms, 0, "", "");
    assert "" + "\n" + "" == "\n";
    assert Indent(0) + "{" == "{" && Indent(0) + "}" + "" == "}";
    var lines := Flat(ObjectLines(ms, 0, ""));
    assert lines + "" == lines;
  }
}
