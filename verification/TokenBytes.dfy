/** The tokens of a text, in terms of its bytes. */
module TokenBytes {
  import opened JsonText
  import opened JsonToken

  /** The bytes that end unquoted text, and those that it must not hold. */
  const ENDS: string := " {}[]:,\r\n"
  const REFUSED: string := "\\()"

  // ----- marks and white space

  lemma MarkTokens(rest: string)
    ensures NextToken("{" + rest) == Token(LeftBrace, "{" + rest, 1, NUL, rest)
    ensures NextToken("}" + rest) == Token(RightBrace, "}" + rest, 1, NUL, rest)
    ensures NextToken("[" + rest) == Token(LeftBracket, "[" + rest, 1, NUL, rest)
    ensures NextToken("]" + rest) == Token(RightBracket, "]" + rest, 1, NUL, rest)
    ensures NextToken(":" + rest) == Token(Colon, ":" + rest, 1, NUL, rest)
    ensures NextToken("," + rest) == Token(Comma, "," + rest, 1, NUL, rest)
  {
    hide NextToken;
    PunctuationToken('{', rest);
    PunctuationToken('}', rest);
    PunctuationToken('[', rest);
    PunctuationToken(']', rest);
    PunctuationToken(':', rest);
    PunctuationToken(',', rest);
  }

  /** Four bytes are white space, in any number and order. */
  lemma BlanksSkipped(blank: string, text: string)
    requires forall c :: c in blank ==> c in " \t\r\n"
    ensures NextToken(blank + text) == NextToken(text) && NextToken(blank) == End
  {
    forall i | 0 <= i < |blank| ensures Blank(blank[i]) { assert blank[i] in blank; }
    TokenAfterBlank(blank, text);
    SkipBlank(blank, []);
    assert blank + [] == blank;
  }

  // ----- unquoted text

  lemma EndBytes(c: char)
    ensures Terminator(c) <==> c in ENDS
    ensures Refused(c) <==> c in REFUSED
    ensures c in ENDS || c in REFUSED ==> !High(c)
  {
    assert ENDS[0] == ' ' && ENDS[1] == '{' && ENDS[2] == '}' && ENDS[3] == '[' && ENDS[4] == ']' && ENDS[5] == ':'
      && ENDS[6] == ',' && ENDS[7] == '\r' && ENDS[8] == '\n';
    assert REFUSED[0] == '\\' && REFUSED[1] == '(' && REFUSED[2] == ')';
  }

  /** The first `n` bytes neither end unquoted text nor are refused in it. */
  predicate Free(text: string, n: nat)
    requires n <= |text|
  {
    forall i :: 0 <= i < n ==> text[i] !in ENDS && text[i] !in REFUSED
  }

  lemma FreeTail(text: string, n: nat)
    requires 0 < n <= |text|
    ensures Free(text, n) <==> text[0] !in ENDS && text[0] !in REFUSED && Free(text[1..], n - 1)
  {
    assert forall i :: 0 <= i < n - 1 ==> text[1..][i] == text[i + 1];
    assert forall i :: 1 <= i < n ==> text[i] == text[1..][i - 1];
  }

  /** Unquoted text ends at the first of its end bytes, and fails at a refused byte in front of it. */
  lemma {:induction false} WordEnds(text: string, n: nat)
    requires n < |text|
    ensures Unquoted(text, false) == Stop(n) <==> text[n] in ENDS && Free(text, n)
    ensures text[n] in REFUSED && Free(text, n) ==> Unquoted(text, false) == Bad
  {
    hide Free;
    EndBytes(text[0]);
    if n > 0 {
      FreeTail(text, n);
      WordEnds(text[1..], n - 1);
    } else {
      FreeNone(text);
    }
  }

  lemma FreeNone(text: string)
    ensures Free(text, 0)
  {
  }

  lemma {:induction false} WordRuns(text: string)
    requires Free(text, |text|)
    ensures Unquoted(text, false) == Ran
  {
    if text != [] {
      hide Free;
      FreeTail(text, |text|);
      EndBytes(text[0]);
      WordRuns(text[1..]);
    }
  }

  /** The first byte that is not above 127 is a dot, if there is one. */
  predicate DotFirst(s: string) { s == [] || s[0] == '.' || (High(s[0]) && DotFirst(s[1..])) }

  lemma {:induction false} ZeroWordEnds(text: string, n: nat)
    requires n < |text| && Free(text, n) && text[n] in ENDS
    ensures Unquoted(text, true) == if DotFirst(text[..n]) then Stop(n) else Bad
  {
    hide Free;
    EndBytes(text[0]);
    if n > 0 {
      FreeTail(text, n);
      assert text[..n][1..] == text[1..][..n - 1];
      if High(text[0]) {
        ZeroWordEnds(text[1..], n - 1);
      } else if text[0] == '.' {
        WordEnds(text[1..], n - 1);
      }
    }
  }

  /** What may stand in front of an end byte to be one word: it does not begin like another token. */
  predicate Word(word: string) {
    && word != [] && Free(word, |word|)
    && word[0] != '\t' && word[0] != '\"' && word[0] != '\''
    && (word[0] == '/' ==> |word| == 1 || (word[1] != '*' && word[1] != '/'))
  }

  /** The one token of a word: the literals, or its bytes. */
  function WordLexed(word: string, rest: string): Lexed
    requires word != []
  {
    if word[0] == '0' && !DotFirst(word[1..]) then Invalid
    else if word == "true" || word == "false" then Token(Special, word + rest, 1, NUL, rest)
    else if word == "null" then Token(Special, [127 as char], 1, NUL, rest)
    else if word[0] == 't' || word[0] == 'f' || word[0] == 'n' then Invalid
    else Token(Text, word + rest, |word|, NUL, rest)
  }

  lemma WordParts(word: string, rest: string)
    requires Word(word) && rest != [] && rest[0] in ENDS
    ensures var text := word + rest;
      && text[0] == word[0] && text[..|word|] == word && text[|word|..] == rest && text[|word|] == rest[0]
      && Free(text, |word|) && text[0] !in ENDS
    ensures |word| > 1 ==> (word + rest)[1] == word[1]
    ensures |word| == 1 ==> (word + rest)[1] == rest[0]
    ensures (word + rest)[1..] == word[1..] + rest && Free(word[1..] + rest, |word| - 1) && (word[1..] + rest)[..|word| - 1] == word[1..]
  {
    assert forall i :: 0 <= i < |word| ==> (word + rest)[i] == word[i];
    assert forall i :: 0 <= i < |word| - 1 ==> (word[1..] + rest)[i] == word[i + 1];
  }

  lemma WordStarts(word: string, rest: string)
    requires Word(word) && rest != [] && rest[0] in ENDS
    ensures var text := word + rest; Skip(text) == text && !Punctuation(text[0]) && !Quote(text[0])
  {
    WordParts(word, rest);
    EndBytes(word[0]);
    EndBytes(rest[0]);
    hide Free, Skip;
    SkipCommentOnce(word + rest);
  }

  lemma WordStops(word: string, rest: string)
    requires Word(word) && rest != [] && rest[0] in ENDS
    ensures UnquotedFrom(word + rest) == if word[0] == '0' && !DotFirst(word[1..]) then Bad else Stop(|word|)
  {
    WordParts(word, rest);
    hide Free, Word;
    WordEnds(word + rest, |word|);
    ZeroWordEnds(word[1..] + rest, |word| - 1);
  }

  /** A word in front of any of the nine end bytes is one token, of exactly its bytes or a literal, and the rest
      begins at the end byte. */
  lemma WordToken(word: string, rest: string)
    requires Word(word) && rest != [] && rest[0] in ENDS
    ensures NextToken(word + rest) == WordLexed(word, rest)
  {
    WordParts(word, rest);
    WordStarts(word, rest);
    WordStops(word, rest);
    hide Word, Free, Skip, UnquotedFrom, DotFirst, Quoted;
  }

  /** A refused byte in a word without a leading zero: the text is malformed. */
  lemma WordRefused(word: string, c: char, rest: string)
    requires Word(word) && word[0] != '0' && c in REFUSED
    ensures NextToken(word + [c] + rest) == Invalid
  {
    var text := word + [c] + rest;
    assert forall i :: 0 <= i < |word| ==> text[i] == word[i];
    assert text[|word|] == c && Free(text, |word|);
    EndBytes(word[0]);
    EndBytes(c);
    WordEnds(text, |word|);
    hide Free, Skip, Unquoted;
    SkipCommentOnce(text);
  }

  /** Unquoted text that does not end before the text does: the end of the text. */
  lemma WordUnfinished(word: string)
    requires Word(word) && word[0] != '0'
    ensures NextToken(word) == End
  {
    EndBytes(word[0]);
    WordRuns(word);
    hide Free, Unquoted, Skip;
    SkipCommentOnce(word);
  }

  // ----- quoted text

  /** What may stand between two quotes `q`: any bytes but tab, CR, LF and `q`, and a backslash only in front of one of
      nine bytes. */
  predicate Inside(s: string, q: char) {
    s == [] ||
    if s[0] == '\\' then |s| >= 2 && s[1] in "trnfbu\"\\/" && Inside(s[2..], q)
    else s[0] !in "\t\r\n" && s[0] != q && Inside(s[1..], q)
  }

  lemma QuotedBytes(c: char)
    ensures Break(c) <==> c in "\t\r\n"
    ensures EscapeLetter(c) <==> c in "trnfbu\"\\/"
  {
    var breaks, letters := "\t\r\n", "trnfbu\"\\/";
    assert breaks[0] == '\t' && breaks[1] == '\r' && breaks[2] == '\n';
    assert letters[0] == 't' && letters[1] == 'r' && letters[2] == 'n' && letters[3] == 'f' && letters[4] == 'b' && letters[5] == 'u'
      && letters[6] == '\"' && letters[7] == '\\' && letters[8] == '/';
  }

  /** The closing quote is the first one that no backslash precedes, with nothing wrong in front of it. */
  lemma {:induction false} QuoteCloses(text: string, q: char, n: nat)
    requires Quote(q) && n < |text|
    ensures Quoted(text, q) == Stop(n) <==> text[n] == q && Inside(text[..n], q)
    decreases n
  {
    QuotedBytes(text[0]);
    if n > 0 {
      assert text[..n][0] == text[0] && text[..n][1..] == text[1..][..n - 1];
      if text[0] != '\\' {
        QuoteCloses(text[1..], q, n - 1);
      } else if n > 1 {
        assert text[..n][1] == text[1] && text[..n][2..] == text[2..][..n - 2];
        QuotedBytes(text[1]);
        QuoteCloses(text[2..], q, n - 2);
      }
    }
  }

  /** Quoted text is malformed at a break, or at a backslash in front of any other byte. */
  lemma {:induction false} QuoteFails(s: string, q: char, bad: string)
    requires Quote(q) && Inside(s, q)
    requires (bad != [] && bad[0] in "\t\r\n") || (|bad| >= 2 && bad[0] == '\\' && bad[1] !in "trnfbu\"\\/")
    ensures Quoted(s + bad, q) == Bad
    decreases |s|
  {
    var text := s + bad;
    QuotedBytes(text[0]);
    if s == [] {
      assert text == bad;
      if |bad| >= 2 { QuotedBytes(bad[1]); }
    } else if s[0] == '\\' {
      QuotedBytes(s[1]);
      assert text[2..] == s[2..] + bad;
      QuoteFails(s[2..], q, bad);
    } else {
      assert text[1..] == s[1..] + bad;
      QuoteFails(s[1..], q, bad);
    }
  }

  lemma {:induction false} QuoteRuns(s: string, q: char)
    requires Quote(q) && Inside(s, q)
    ensures Quoted(s, q) == Ran
    decreases |s|
  {
    if s != [] {
      QuotedBytes(s[0]);
      if s[0] == '\\' {
        QuotedBytes(s[1]);
        QuoteRuns(s[2..], q);
      } else {
        QuoteRuns(s[1..], q);
      }
    }
  }

  /** Text in double or single quotes: one token of exactly what stands between them; the closing quote is needed. */
  lemma QuotedText(s: string, q: char, rest: string)
    requires (q == '\"' || q == '\'') && Inside(s, q)
    ensures NextToken([q] + (s + ([q] + rest))) == Token(Text, s + ([q] + rest), |s|, q, rest)
    ensures NextToken([q] + s) == End
  {
    var from := s + ([q] + rest);
    assert from[..|s|] == s && from[|s|] == q && ([q] + from)[1..] == from && ([q] + from)[|s| + 2..] == rest;
    assert ([q] + s)[1..] == s;
    QuoteCloses(from, q, |s|);
    QuoteRuns(s, q);
    SkipsNothing([q] + from);
    SkipsNothing([q] + s);
    hide Quoted, Inside, Skip;
  }

  /** A break in quoted text, or a backslash in front of any but the nine bytes. */
  lemma QuotedMalformed(s: string, q: char, bad: string)
    requires (q == '\"' || q == '\'') && Inside(s, q)
    requires (bad != [] && bad[0] in "\t\r\n") || (|bad| >= 2 && bad[0] == '\\' && bad[1] !in "trnfbu\"\\/")
    ensures NextToken([q] + (s + bad)) == Invalid
  {
    assert ([q] + (s + bad))[1..] == s + bad;
    QuoteFails(s, q, bad);
    SkipsNothing([q] + (s + bad));
    hide Quoted, Inside, Skip;
  }

  lemma {:induction false} QuoteCut(s: string, q: char)
    requires Quote(q) && Inside(s, q)
    ensures Quoted(s + "\\", q) == Ran
    decreases |s|
  {
    var text := s + "\\";
    QuotedBytes(text[0]);
    if s == [] {
      assert text == "\\";
    } else if s[0] == '\\' {
      QuotedBytes(s[1]);
      assert text[2..] == s[2..] + "\\";
      QuoteCut(s[2..], q);
    } else {
      assert text[1..] == s[1..] + "\\";
      QuoteCut(s[1..], q);
    }
  }

  /** A text that ends behind a backslash in quotes: the end of the text. */
  lemma QuotedCut(s: string, q: char)
    requires (q == '\"' || q == '\'') && Inside(s, q)
    ensures NextToken([q] + (s + "\\")) == End
  {
    assert ([q] + (s + "\\"))[1..] == s + "\\";
    QuoteCut(s, q);
    SkipsNothing([q] + (s + "\\"));
    hide Quoted, Inside, Skip;
  }

  // ----- comments that do not end

  lemma {:induction false} NoCommentEnd(text: string)
    requires forall i {:trigger text[i]} :: 0 <= i < |text| - 1 ==> !(text[i] == '*' && text[i + 1] == '/')
    ensures CommentEnd(text) == []
  {
    if text != [] {
      assert forall i {:trigger text[1..][i]} :: 0 <= i < |text[1..]| - 1 ==> text[1..][i] == text[i + 1] && text[1..][i + 1] == text[i + 2];
      NoCommentEnd(text[1..]);
    }
  }

  lemma {:induction false} NoLineEnd(text: string)
    requires '\n' !in text
    ensures LineEnd(text) == []
  {
    if text != [] { NoLineEnd(text[1..]); }
  }

  /** A comment, or a line comment, that is not closed reaches to the end of the text. */
  lemma CommentUnfinished(body: string)
    requires |body| >= 2
    ensures Unclosed(body) ==> NextToken("/*" + body) == End
    ensures '\n' !in body[2..] ==> NextToken("//" + body) == End
  {
    var comment, line := "/*" + body, "//" + body;
    assert comment[4..] == body[2..] && line[4..] == body[2..];
    if Unclosed(body) {
      assert forall i {:trigger body[2..][i]} :: 0 <= i < |body[2..]| - 1 ==> body[2..][i] == body[i + 2] && body[2..][i + 1] == body[i + 3];
      NoCommentEnd(body[2..]);
      SkipComment(comment);
    }
    if '\n' !in body[2..] {
      NoLineEnd(body[2..]);
      SkipLine(line);
    }
  }
}
