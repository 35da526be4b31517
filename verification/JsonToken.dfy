/** `TOKENJSON`: white space and comments, punctuation, quoted and unquoted text. */
module JsonToken {

  import opened JsonText

  datatype Tag = LeftBrace | RightBrace | LeftBracket | RightBracket | Colon | Comma | Text | Special

  /** A token starts at `from`, which is the rest of the document, and has `len` bytes; `rest` is
      what follows it.  `null` is reported as the marker byte 127. */
  datatype Lexed =
    | End
    | Invalid
    | Token(tag: Tag, from: string, len: nat, quotes: char, rest: string)

  const MARKER: string := [127 as char]

  predicate Blank(c: char) { c == ' ' || c == '\t' || c == '\r' || c == '\n' }

  predicate Break(c: char) { c == '\t' || c == '\r' || c == '\n' }

  predicate Quote(c: char) { c == '\"' || c == '\'' }

  predicate Punctuation(c: char) {
    c == '{' || c == '}' || c == '[' || c == ']' || c == ':' || c == ','
  }

  function PunctuationTag(c: char): Tag
    requires Punctuation(c)
  {
    if c == '{' then LeftBrace else if c == '}' then RightBrace
    else if c == '[' then LeftBracket else if c == ']' then RightBracket
    else if c == ':' then Colon else Comma
  }

  /** The bytes that may follow a backslash in quoted text. */
  predicate EscapeLetter(c: char) {
    c == 't' || c == 'r' || c == 'n' || c == 'f' || c == 'b' || c == 'u' || c == '\"' || c == '\\' || c == '/'
  }

  /** The bytes that end unquoted text; a tab does not. */
  predicate Terminator(c: char) {
    c == ' ' || Punctuation(c) || c == '\r' || c == '\n'
  }

  predicate Refused(c: char) { c == '\\' || c == '(' || c == ')' }

  predicate Comment(text: string) { ByteAt(text, 0) == '/' && ByteAt(text, 1) == '*' }

  predicate LineComment(text: string) { ByteAt(text, 0) == '/' && ByteAt(text, 1) == '/' }

  /** The part of `text` that starts with the first end-of-comment mark. */
  function CommentEnd(text: string): (r: string)
    ensures |r| <= |text|
  {
    if text == [] || (text[0] == '*' && ByteAt(text, 1) == '/') then text else CommentEnd(text[1..])
  }

  function LineEnd(text: string): (r: string)
    ensures |r| <= |text|
  {
    if text == [] || text[0] == '\n' then text else LineEnd(text[1..])
  }

  /** Past white space and comments.  The search for the end of a comment starts four bytes in. */
  function Skip(text: string): (r: string)
    ensures |r| <= |text|
    ensures r != [] ==> !Blank(r[0])
    decreases |text|
  {
    if text == [] then []
    else if Blank(text[0]) then Skip(text[1..])
    else if Comment(text) then Skip(Drop(CommentEnd(Drop(text, 4)), 2))
    else if LineComment(text) then Skip(Drop(LineEnd(Drop(text, 4)), 1))
    else text
  }

  datatype Scan = Stop(at: nat) | Ran | Bad

  function Later(s: Scan, n: nat): Scan {
    if s.Stop? then Stop(s.at + n) else s
  }

  /** Where the closing quote is. */
  function Quoted(text: string, quote: char): (r: Scan)
    ensures r.Stop? ==> r.at < |text|
    decreases |text|
  {
    if text == [] then Ran
    else if High(text[0]) then Later(Quoted(text[1..], quote), 1)
    else if Break(text[0]) then Bad
    else if text[0] == '\\' then
      if |text| == 1 then Ran
      else if EscapeLetter(text[1]) then Later(Quoted(text[2..], quote), 2)
      else Bad
    else if text[0] == quote then Stop(0)
    else Later(Quoted(text[1..], quote), 1)
  }

  /** Where unquoted text ends.  After a leading zero only a dot may come. */
  function Unquoted(text: string, zero: bool): (r: Scan)
    ensures r.Stop? ==> r.at < |text| && Terminator(text[r.at])
    decreases |text|
  {
    if text == [] then Ran
    else if High(text[0]) then Later(Unquoted(text[1..], zero), 1)
    else if Terminator(text[0]) then Stop(0)
    else if zero then
      if text[0] != '.' then Bad else Later(Unquoted(text[1..], false), 1)
    else if Refused(text[0]) then Bad
    else Later(Unquoted(text[1..], false), 1)
  }

  function UnquotedFrom(text: string): (r: Scan)
    requires text != []
    ensures r.Stop? ==> r.at < |text| && Terminator(text[r.at])
  {
    if text[0] == '0' then Later(Unquoted(text[1..], true), 1) else Unquoted(text, false)
  }

  /** Unquoted text beginning with `t`, `f` or `n` must be one of the three literals. */
  function Literal(from: string, len: nat, rest: string): Lexed
    requires 0 < len <= |from|
  {
    var word := from[..len];
    if from[0] == 't' then
      if word == "true" then Token(Special, from, 1, NUL, rest) else Invalid
    else if from[0] == 'f' then
      if word == "false" then Token(Special, from, 1, NUL, rest) else Invalid
    else if from[0] == 'n' then
      if word == "null" then Token(Special, MARKER, 1, NUL, rest) else Invalid
    else Token(Text, from, len, NUL, rest)
  }

  function TokenAt(text: string): (r: Lexed)
    requires text != [] ==> !Blank(text[0])
    ensures r.Token? ==> r.len <= |r.from| && |r.rest| < |text|
  {
    if text == [] then End
    else if Punctuation(text[0]) then Token(PunctuationTag(text[0]), text, 1, NUL, text[1..])
    else if Quote(text[0]) then
      match Quoted(text[1..], text[0])
      case Stop(n) => Token(Text, text[1..], n, text[0], text[n + 2..])
      case Ran => End
      case Bad => Invalid
    else
      match UnquotedFrom(text)
      case Stop(n) => assert n > 0; Literal(text, n, text[n..])
      case Ran => End
      case Bad => Invalid
  }

  /** The first token of `text`. */
  function NextToken(text: string): (r: Lexed)
    ensures r.Token? ==> r.len <= |r.from| && |r.rest| < |text|
  {
    TokenAt(Skip(text))
  }

  // ----- the loops of the macro

  lemma Suffix(text: string, b: nat, n: nat)
    requires b <= |text|
    ensures Drop(text[b..], n) == if b + n <= |text| then text[b + n..] else []
    ensures b + n <= |text| ==> text[b..][n..] == text[b + n..]
  {
  }

  method PassComment(text: string, base: nat) returns (next: nat)
    requires base <= |text|
    ensures base <= next <= |text| && text[next..] == CommentEnd(text[base..])
  {
    next := base;
    while next < |text| && !(text[next] == '*' && ByteAt(text, next + 1) == '/')
      invariant base <= next <= |text|
      invariant CommentEnd(text[next..]) == CommentEnd(text[base..])
    {
      Suffix(text, next, 1);
      next := next + 1;
    }
  }

  method PassLine(text: string, base: nat) returns (next: nat)
    requires base <= |text|
    ensures base <= next <= |text| && text[next..] == LineEnd(text[base..])
  {
    next := base;
    while next < |text| && text[next] != '\n'
      invariant base <= next <= |text|
      invariant LineEnd(text[next..]) == LineEnd(text[base..])
    {
      Suffix(text, next, 1);
      next := next + 1;
    }
  }

  /** `base` moved by `n` bytes, but not beyond the end. */
  function Ahead(text: string, base: nat, n: nat): (r: nat)
    requires base <= |text|
    ensures base <= r <= |text| && text[r..] == Drop(text[base..], n)
  {
    Suffix(text, base, n);
    if base + n <= |text| then base + n else |text|
  }

  lemma SkipCommentOnce(text: string)
    requires text != [] && !Blank(text[0])
    ensures Comment(text) ==> Skip(text) == Skip(Drop(CommentEnd(Drop(text, 4)), 2))
    ensures !Comment(text) && LineComment(text) ==> Skip(text) == Skip(Drop(LineEnd(Drop(text, 4)), 1))
    ensures !Comment(text) && !LineComment(text) ==> Skip(text) == text
  {
  }

  method PassBlank(text: string, base: nat) returns (next: nat)
    requires base <= |text|
    ensures base <= next <= |text| && Skip(text[next..]) == Skip(text[base..])
    ensures next < |text| ==> !Blank(text[next])
  {
    next := base;
    while next < |text| && Blank(text[next])
      invariant base <= next <= |text| && Skip(text[next..]) == Skip(text[base..])
    {
      Suffix(text, next, 1);
      next := next + 1;
    }
  }

  method SkipFrom(text: string, base: nat) returns (next: nat)
    requires base <= |text|
    ensures base <= next <= |text| && text[next..] == Skip(text[base..])
  {
    hide Skip, Comment, LineComment, CommentEnd, LineEnd, Blank;
    next := PassBlank(text, base);
    while next < |text| && (Comment(text[next..]) || LineComment(text[next..]))
      invariant base <= next <= |text| && Skip(text[next..]) == Skip(text[base..])
      invariant next < |text| ==> !Blank(text[next])
      decreases |text| - next
    {
      SkipCommentOnce(text[next..]);
      var inside := Ahead(text, next, 4);
      if Comment(text[next..]) {
        var close := PassComment(text, inside);
        next := Ahead(text, close, 2);
      } else {
        var line := PassLine(text, inside);
        next := Ahead(text, line, 1);
      }
      next := PassBlank(text, next);
    }
    if next < |text| { SkipCommentOnce(text[next..]); } else { assert Skip([]) == []; }
  }

  /** The loop over quoted text, which starts after the opening quote. */
  method QuotedFrom(text: string, base: nat, quote: char) returns (r: Scan)
    requires base <= |text|
    ensures r == Quoted(text[base..], quote)
  {
    var b := base;
    while b < |text|
      invariant base <= b <= |text|
      invariant Later(Quoted(text[b..], quote), b - base) == Quoted(text[base..], quote)
    {
      Suffix(text, b, 1);
      if High(text[b]) {
      } else if Break(text[b]) {
        return Bad;
      } else if text[b] == '\\' {
        if b + 1 == |text| {
          return Ran;
        }
        Suffix(text, b, 2);
        if !EscapeLetter(text[b + 1]) {
          return Bad;
        }
        b := b + 1;
      } else if text[b] == quote {
        return Stop(b - base);
      }
      b := b + 1;
    }
    r := Ran;
  }

  lemma UnquotedOnce(text: string, zero: bool)
    requires text != []
    ensures Unquoted(text, zero) ==
      if High(text[0]) then Later(Unquoted(text[1..], zero), 1)
      else if Terminator(text[0]) then Stop(0)
      else if (if zero then text[0] != '.' else Refused(text[0])) then Bad
      else Later(Unquoted(text[1..], false), 1)
  {
  }

  lemma UnquotedNone(zero: bool)
    ensures Unquoted([], zero) == Ran
  {
  }

  lemma UnquotedStart(text: string, base: nat)
    requires base < |text|
    ensures UnquotedFrom(text[base..]) ==
      if text[base] == '0' then Later(Unquoted(text[base + 1..], true), 1) else Unquoted(text[base..], false)
  {
    Suffix(text, base, 1);
  }

  /** The loop over unquoted text. */
  method UnquotedLoop(text: string, base: nat) returns (r: Scan)
    requires base < |text|
    ensures r == UnquotedFrom(text[base..])
  {
    hide Unquoted, UnquotedFrom, Terminator, Refused, High;
    var b, zero := base, false;
    ghost var result := UnquotedFrom(text[base..]);
    if text[b] == '0' {
      zero := true;
      b := b + 1;
    }
    UnquotedStart(text, base);
    while b < |text|
      invariant base <= b <= |text|
      invariant Later(Unquoted(text[b..], zero), b - base) == result
    {
      UnquotedOnce(text[b..], zero);
      Suffix(text, b, 1);
      if High(text[b]) {
      } else if Terminator(text[b]) {
        return Stop(b - base);
      } else if zero {
        if text[b] != '.' {
          return Bad;
        }
        zero := false;
      } else if Refused(text[b]) {
        return Bad;
      }
      b := b + 1;
    }
    assert text[b..] == [];
    UnquotedNone(zero);
    r := Ran;
  }

  /** The token that starts at or after `base`, and the position after it. */
  method Tokenize(text: string, base: nat) returns (lexed: Lexed, next: nat)
    requires base <= |text|
    ensures lexed == NextToken(text[base..])
    ensures lexed.Token? ==> base < next <= |text| && lexed.rest == text[next..]
  {
    hide Skip, Quoted, UnquotedFrom, Literal, PunctuationTag;
    next := SkipFrom(text, base);
    if next == |text| {
      return End, next;
    }
    var c := text[next];
    assert c == text[next..][0];
    if Punctuation(c) {
      Suffix(text, next, 1);
      return Token(PunctuationTag(c), text[next..], 1, NUL, text[next + 1..]), next + 1;
    }
    if Quote(c) {
      Suffix(text, next, 1);
      var scan := QuotedFrom(text, next + 1, c);
      match scan {
        case Stop(n) =>
          Suffix(text, next, n + 2);
          return Token(Text, text[next + 1..], n, c, text[next + n + 2..]), next + n + 2;
        case Ran => return End, next;
        case Bad => return Invalid, next;
      }
    }
    var scan := UnquotedLoop(text, next);
    match scan {
      case Stop(n) =>
        Suffix(text, next, n);
        LiteralRest(text[next..], n, text[next + n..]);
        lexed := Literal(text[next..], n, text[next + n..]);
        next := next + n;
      case Ran => return End, next;
      case Bad => return Invalid, next;
    }
  }

  lemma LiteralRest(from: string, len: nat, rest: string)
    requires 0 < len <= |from|
    ensures var r := Literal(from, len, rest); r.Token? ==> r.rest == rest
  {
  }

  // ----- comments

  /** From its third byte on, the body of a comment does not hold the end mark. */
  predicate Unclosed(body: string) {
    forall i :: 2 <= i < |body| - 1 ==> !(body[i] == '*' && body[i + 1] == '/')
  }

  lemma {:induction false} CommentEndAt(body: string, rest: string)
    requires forall i :: 0 <= i < |body| - 1 ==> !(body[i] == '*' && body[i + 1] == '/')
    ensures CommentEnd(body + ("*/" + rest)) == "*/" + rest
  {
    var text := body + ("*/" + rest);
    if body == [] {
      assert text == "*/" + rest;
    } else {
      assert text[1..] == body[1..] + ("*/" + rest);
      CommentEndAt(body[1..], rest);
      assert text[0] == body[0] && text[1] == if |body| > 1 then body[1] else '*';
    }
  }

  lemma SkipComment(text: string)
    requires Comment(text)
    ensures Skip(text) == Skip(Drop(CommentEnd(Drop(text, 4)), 2))
  {
  }

  /** A comment whose body has at least two bytes is white space. */
  lemma CommentIsBlank(body: string, rest: string)
    requires |body| >= 2 && Unclosed(body)
    ensures NextToken("/*" + body + "*/" + rest) == NextToken(rest)
  {
    var text := "/*" + body + "*/" + rest;
    SkipComment(text);
    assert text[4..] == body[2..] + ("*/" + rest);
    CommentEndAt(body[2..], rest);
    assert ("*/" + rest)[2..] == rest;
  }

  /** An empty comment is not closed by its own end mark, but by the next one. */
  lemma EmptyCommentRunsOn(rest: string)
    ensures NextToken("/**/" + rest) == NextToken(Drop(CommentEnd(rest), 2))
  {
    var text := "/**/" + rest;
    SkipComment(text);
    assert text[4..] == rest;
  }

  lemma OneByteCommentRunsOn(c: char, rest: string)
    ensures NextToken("/*" + [c] + "*/" + rest) == NextToken(Drop(CommentEnd(rest), 2))
  {
    var text := "/*" + [c] + "*/" + rest;
    SkipComment(text);
    assert text[4..] == "/" + rest && ("/" + rest)[1..] == rest;
  }

  lemma {:induction false} LineEndAt(body: string, rest: string)
    requires '\n' !in body
    ensures LineEnd(body + ("\n" + rest)) == "\n" + rest
  {
    var text := body + ("\n" + rest);
    if body == [] {
      assert text == "\n" + rest;
    } else {
      assert text[1..] == body[1..] + ("\n" + rest);
      LineEndAt(body[1..], rest);
    }
  }

  lemma SkipLine(text: string)
    requires LineComment(text)
    ensures Skip(text) == Skip(Drop(LineEnd(Drop(text, 4)), 1))
  {
  }

  /** A line comment with at least two bytes is white space up to the end of the line. */
  lemma LineCommentIsBlank(body: string, rest: string)
    requires |body| >= 2 && '\n' !in body[2..]
    ensures NextToken("//" + body + "\n" + rest) == NextToken(rest)
  {
    var text := "//" + body + "\n" + rest;
    SkipLine(text);
    assert text[4..] == body[2..] + ("\n" + rest);
    LineEndAt(body[2..], rest);
    assert ("\n" + rest)[1..] == rest;
  }

  /** A line comment of one byte takes the next line with it. */
  lemma ShortLineCommentRunsOn(c: char, rest: string)
    ensures NextToken("//" + [c] + "\n" + rest) == NextToken(Drop(LineEnd(rest), 1))
  {
    var text := "//" + [c] + "\n" + rest;
    SkipLine(text);
    assert text[4..] == rest;
  }

  /** A leading zero must be the only digit before a dot. */
  lemma LeadingZeroRefused(c: char, rest: string)
    requires !High(c) && !Terminator(c) && c != '.'
    ensures NextToken("0" + [c] + rest) == Invalid
  {
    var text := "0" + [c] + rest;
    assert text[1..] == [c] + rest && Skip(text) == text;
    UnquotedOnce([c] + rest, true);
  }

  // ----- reading back what was printed

  predicate AllBlank(s: string) { forall i :: 0 <= i < |s| ==> Blank(s[i]) }

  lemma {:induction false} SkipBlank(blank: string, text: string)
    requires AllBlank(blank)
    ensures Skip(blank + text) == Skip(text)
  {
    if blank == [] {
      assert blank + text == text;
    } else {
      assert (blank + text)[1..] == blank[1..] + text;
      SkipBlank(blank[1..], text);
    }
  }

  /** White space before a token is ignored. */
  lemma TokenAfterBlank(blank: string, text: string)
    requires AllBlank(blank)
    ensures NextToken(blank + text) == NextToken(text)
  {
    SkipBlank(blank, text);
  }

  lemma PunctuationToken(c: char, rest: string)
    requires Punctuation(c)
    ensures NextToken([c] + rest) == Token(PunctuationTag(c), [c] + rest, 1, NUL, rest)
  {
  }

  /** Bytes that can stand between double quotes: breaks and double quotes do not occur, and a
      backslash starts an escape. */
  predicate Quotable(raw: string)
    decreases |raw|
  {
    raw == [] ||
    if raw[0] == '\\' then |raw| >= 2 && EscapeLetter(raw[1]) && Quotable(raw[2..])
    else !Break(raw[0]) && raw[0] != '\"' && Quotable(raw[1..])
  }

  lemma {:induction false} QuotedStops(raw: string, rest: string)
    requires Quotable(raw)
    ensures Quoted(raw + ("\"" + rest), '\"') == Stop(|raw|)
    decreases |raw|
  {
    var text := raw + ("\"" + rest);
    if raw == [] {
      assert text[0] == '\"';
    } else if raw[0] == '\\' {
      assert text[2..] == raw[2..] + ("\"" + rest);
      QuotedStops(raw[2..], rest);
    } else {
      assert text[1..] == raw[1..] + ("\"" + rest);
      QuotedStops(raw[1..], rest);
    }
  }

  lemma QuotedParts(raw: string, rest: string)
    ensures var from := raw + ("\"" + rest); var text := "\"" + from;
      text[0] == '\"' && text[1..] == from && text[|raw| + 2..] == rest
  {
    var from := raw + ("\"" + rest);
    assert from[|raw| + 1..] == rest && ("\"" + from)[1..] == from;
  }

  lemma SkipsNothing(text: string)
    requires text != [] && !Blank(text[0]) && text[0] != '/'
    ensures Skip(text) == text
  {
  }

  lemma QuotedToken(raw: string, rest: string)
    requires Quotable(raw)
    ensures NextToken("\"" + (raw + ("\"" + rest))) == Token(Text, raw + ("\"" + rest), |raw|, '\"', rest)
  {
    QuotedStops(raw, rest);
    QuotedParts(raw, rest);
    SkipsNothing("\"" + (raw + ("\"" + rest)));
    hide Quoted, Quotable, UnquotedFrom, Literal, Skip;
  }

  lemma {:induction false} EscapeQuotable(s: string)
    ensures Quotable(Escape(s))
  {
    if s != [] {
      EscapeQuotable(s[1..]);
      var e := EscapeByte(s[0]);
      assert Escape(s)[|e|..] == Escape(s[1..]);
    }
  }

  /** Unquoted text that is read back whole: a number, for example. */
  predicate Bare(raw: string) {
    && raw != []
    && (forall i :: 0 <= i < |raw| ==> BareByte(raw[i]))
    && !Quote(raw[0]) && !Break(raw[0])
    && raw[0] != '/' && raw[0] != 't' && raw[0] != 'f' && raw[0] != 'n'
    && (raw[0] == '0' ==> |raw| == 1 || raw[1] == '.')
  }

  predicate BareByte(c: char) { !Terminator(c) && !Refused(c) && !High(c) }

  predicate Terminated(rest: string) { rest != [] && Terminator(rest[0]) }

  lemma {:induction false} UnquotedStops(raw: string, rest: string)
    requires forall i :: 0 <= i < |raw| ==> BareByte(raw[i])
    requires Terminated(rest)
    ensures Unquoted(raw + rest, false) == Stop(|raw|)
  {
    var text := raw + rest;
    if raw == [] {
      assert text == rest;
    } else {
      assert text[1..] == raw[1..] + rest;
      UnquotedStops(raw[1..], rest);
    }
  }

  lemma LeadingZero(raw: string, rest: string)
    requires Bare(raw) && raw[0] == '0' && Terminated(rest)
    ensures UnquotedFrom(raw + rest) == Stop(|raw|)
  {
    var text := raw + rest;
    assert text[1..] == raw[1..] + rest;
    if |raw| == 1 {
      assert text[1..] == rest;
    } else {
      assert text[1..][1..] == raw[2..] + rest;
      assert raw[2..] == raw[1..][1..];
      UnquotedStops(raw[2..], rest);
    }
  }

  lemma BareToken(raw: string, rest: string)
    requires Bare(raw) && Terminated(rest)
    ensures NextToken(raw + rest) == Token(Text, raw + rest, |raw|, NUL, rest)
  {
    var text := raw + rest;
    assert text[0] == raw[0] && BareByte(raw[0]);
    if raw[0] == '0' { LeadingZero(raw, rest); } else { UnquotedStops(raw, rest); }
    hide Unquoted;
    assert text[|raw|..] == rest;
    assert Skip(text) == text;
  }

  lemma NullToken(rest: string)
    requires Terminated(rest)
    ensures NextToken("null" + rest) == Token(Special, MARKER, 1, NUL, rest)
  {
    var text := "null" + rest;
    UnquotedStops("null", rest);
    hide Unquoted;
    assert text[4..] == rest && text[..4] == "null";
    assert Skip(text) == text;
  }
}
