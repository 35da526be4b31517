/** Escaping and unescaping, byte by byte: with what is proved of concatenation in `JsonText`, these
    laws leave no other functions. */
module EscapeBytes {
  import opened JsonText

  const BACKSPACE: char := 8 as char
  const FORM_FEED: char := 12 as char

  /** The seven bytes that are escaped. */
  const ESCAPED: string := "\"\\\t\r\n" + [BACKSPACE, FORM_FEED]

  // ----- escaping

  lemma EscapeOne(c: char)
    ensures Escape([c]) == EscapeByte(c)
  {
    assert [c][1..] == [];
  }

  /** A string without these seven bytes is its own escaped form: a slash is not escaped. */
  lemma {:induction false} EscapePlain(s: string)
    requires forall c :: c in s ==> c !in ESCAPED
    ensures Escape(s) == s
  {
    if s != [] {
      assert s[0] in s && '\"' in ESCAPED && '\\' in ESCAPED && '\t' in ESCAPED && '\r' in ESCAPED && '\n' in ESCAPED;
      assert ESCAPED[5] == BACKSPACE && ESCAPED[6] == FORM_FEED;
      EscapePlain(s[1..]);
    }
  }

  /** What the seven become. */
  lemma EscapeSeven()
    ensures Escape("\"") == "\\\"" && Escape("\\") == "\\\\" && Escape("\t") == "\\t" && Escape("\r") == "\\r"
    ensures Escape("\n") == "\\n" && Escape([BACKSPACE]) == "\\b" && Escape([FORM_FEED]) == "\\f"
  {
    EscapeOne('\"');
    EscapeOne('\\');
    EscapeOne('\t');
    EscapeOne('\r');
    EscapeOne('\n');
    EscapeOne(BACKSPACE);
    EscapeOne(FORM_FEED);
  }

  /** How many of the bytes of `s` are among the seven. */
  function Escapes(s: string): nat {
    var m := multiset(s);
    m['\"'] + m['\\'] + m['\t'] + m['\r'] + m['\n'] + m[BACKSPACE] + m[FORM_FEED]
  }

  lemma EscapesMore(c: char, s: string)
    ensures Escapes([c] + s) == Escapes(s) + |EscapeByte(c)| - 1
  {
    assert multiset([c] + s) == multiset{c} + multiset(s);
  }

  /** Every byte that is escaped takes one byte more. */
  lemma {:induction false} EscapeLength(s: string)
    ensures |Escape(s)| == |s| + Escapes(s)
  {
    hide Escapes, EscapeByte;
    if s == [] {
      NoEscapes();
    } else {
      EscapeLength(s[1..]);
      EscapesMore(s[0], s[1..]);
      assert s == [s[0]] + s[1..];
    }
  }

  lemma NoEscapes()
    ensures Escapes([]) == 0
  {
  }

  // ----- unescaping

  function Before(piece: string, f: Folded): Folded { Folded(piece + f.out, f.ok) }

  /** One step of unescaping. */
  lemma FoldBy(text: string, n: int, room: int, piece: string, used: nat, rest: string)
    requires 0 < n <= |text| && used <= |text| && FoldStep(text) == Step(piece, used) && text[used..] == rest
    ensures n - used <= |rest|
    ensures Fold(text, n, room) == if room < |piece| then Folded([], false) else Before(piece, Fold(rest, n - used, room - |piece|))
  {
    hide FoldStep;
    if room < |piece| { FoldStops(text, n, room); } else { FoldOnce(text, n, room, piece, used); }
  }

  /** A byte that is neither a backslash nor above 127 is copied. */
  lemma FoldPlain(c: char, rest: string, n: int, room: int)
    requires c as int <= 127 && c != '\\' && 0 < n <= |rest| + 1
    ensures Fold([c] + rest, n, room)
      == if room < 1 then Folded([], false) else Before([c], Fold(rest, n - 1, room - 1))
  {
    assert ([c] + rest)[1..] == rest;
  }

  /** The byte that a backslash and `c` stand for: itself, other than for five letters. */
  function Meant(c: char): char {
    match c
    case 't' => '\t'
    case 'r' => '\r'
    case 'n' => '\n'
    case 'b' => BACKSPACE
    case 'f' => FORM_FEED
    case _ => c
  }

  /** A backslash and any byte other than `u`: one byte. */
  lemma FoldPair(c: char, rest: string, n: int, room: int)
    requires c != 'u' && 1 < n <= |rest| + 2
    ensures Fold(['\\', c] + rest, n, room)
      == if room < 1 then Folded([], false) else Before([Meant(c)], Fold(rest, n - 2, room - 1))
  {
    var text := ['\\', c] + rest;
    assert text[2..] == rest && text[1] == c;
    hide FoldHex, GroupLength;
    assert FoldStep(text) == Step([Meant(c)], 2);
    hide Fold, FoldStep, Meant;
    FoldBy(text, n, room, [Meant(c)], 2, rest);
  }

  /** The two spellings of a hexadecimal digit. */
  predicate Spells(c: char, d: nat)
    requires d < 16
  {
    c == "0123456789abcdef"[d] || c == "0123456789ABCDEF"[d]
  }

  lemma SpelledDigit(c: char, d: nat)
    requires d < 16 && Spells(c, d)
    ensures HexIndex(c) >= 0 && HexDigit(c) == d
  {
  }

  lemma SpelledByte(hi: char, lo: char, d: nat, e: nat)
    requires d < 16 && e < 16 && Spells(hi, d) && Spells(lo, e)
    ensures HexIndex(hi) >= 0 && HexIndex(lo) >= 0 && HexByte(hi, lo) == Byte(d, e)
  {
    SpelledDigit(hi, d);
    SpelledDigit(lo, e);
    hide HexIndex, HexDigit, Spells;
  }

  lemma HexStep(c2: char, c3: char, c4: char, c5: char, rest: string)
    ensures FoldStep(['\\', 'u', c2, c3, c4, c5] + rest) == FoldHex(c2, c3, c4, c5)
    ensures (['\\', 'u', c2, c3, c4, c5] + rest)[6..] == rest
  {
    hide FoldHex;
  }

  function Byte(hi: nat, lo: nat): char
    requires hi < 16 && lo < 16
  {
    (hi * 16 + lo) as char
  }

  /** `\u00` and two digits: the byte with that value. */
  lemma FoldByte(c4: char, c5: char, hi: nat, lo: nat, rest: string, n: int, room: int)
    requires hi < 16 && lo < 16 && Spells(c4, hi) && Spells(c5, lo) && 5 < n <= |rest| + 6
    ensures Fold(['\\', 'u', '0', '0', c4, c5] + rest, n, room)
      == if room < 1 then Folded([], false) else Before([Byte(hi, lo)], Fold(rest, n - 6, room - 1))
  {
    hide Fold, FoldStep, HexIndex, HexByte, Spells, Byte;
    HexStep('0', '0', c4, c5, rest);
    SpelledByte(c4, c5, hi, lo);
    FoldBy(['\\', 'u', '0', '0', c4, c5] + rest, n, room, [Byte(hi, lo)], 6, rest);
  }

  /** `\u` and four digits that do not begin with two zeros: two bytes. */
  lemma FoldBytes(c: string, d: seq<nat>, rest: string, n: int, room: int)
    requires |c| == |d| == 4 && (c[0] != '0' || c[1] != '0') && 5 < n <= |rest| + 6
    requires forall i :: 0 <= i < 4 ==> d[i] < 16 && Spells(c[i], d[i])
    ensures Fold(['\\', 'u', c[0], c[1], c[2], c[3]] + rest, n, room)
      == if room < 2 then Folded([], false) else Before([Byte(d[0], d[1]), Byte(d[2], d[3])], Fold(rest, n - 6, room - 2))
  {
    hide Fold, FoldStep, HexIndex, HexByte, Spells, Byte;
    HexStep(c[0], c[1], c[2], c[3], rest);
    SpelledByte(c[0], c[1], d[0], d[1]);
    SpelledByte(c[2], c[3], d[2], d[3]);
    FoldBy(['\\', 'u', c[0], c[1], c[2], c[3]] + rest, n, room, [Byte(d[0], d[1]), Byte(d[2], d[3])], 6, rest);
  }

  /** Four bytes after `\u` of which one is no hexadecimal digit: the loop stops. */
  lemma FoldNoDigit(c2: char, c3: char, c4: char, c5: char, rest: string, n: int, room: int)
    requires exists c :: c in [c2, c3, c4, c5] && c != NUL && c !in "0123456789aAbBcCdDeEfF"
    requires 5 < n <= |rest| + 6
    ensures Fold(['\\', 'u', c2, c3, c4, c5] + rest, n, room) == Folded([], false)
  {
    HexStep(c2, c3, c4, c5, rest);
    var c :| c in [c2, c3, c4, c5] && c != NUL && c !in "0123456789aAbBcCdDeEfF";
    NoDigit(c);
    hide HexIndex, HexByte, FoldStep;
    assert HexIndex(c) < 0;
  }

  lemma NoDigit(c: char)
    ensures HexIndex(c) >= 0 && c != NUL ==> c in "0123456789aAbBcCdDeEfF"
    ensures c !in "0123456789aAbBcCdDeEfF" ==> c != '0'
  {
    var digits, i := "0123456789aAbBcCdDeEfF", HexIndex(c);
    assert digits[0] == '0';
    if i >= 0 && c != NUL { assert digits[i] == c; }
  }

  /** The search for a digit also finds the terminator, as a digit of value 16: a text that ends behind `\u00`
      gives the byte 16. */
  lemma FoldPastEnd(room: int)
    ensures Fold("\\u00", 4, room) == if room < 1 then Folded([], false) else Folded([16 as char], true)
  {
    hide GroupLength;
    assert FoldStep("\\u00") == Step([16 as char], 6);
    hide FoldStep;
  }

  /** A character of two, three or four bytes. */
  predicate Character(g: string) {
    && 2 <= |g| <= 4
    && (forall i :: 1 <= i < |g| ==> 0x80 <= g[i] as int <= 0xBF)
    && (|g| == 2 ==> 0xC0 <= g[0] as int <= 0xDF)
    && (|g| == 3 ==> 0xE0 <= g[0] as int <= 0xEF)
    && (|g| == 4 ==> 0xF0 <= g[0] as int <= 0xF7)
  }

  lemma CharacterGroup(g: string, rest: string)
    requires Character(g)
    ensures High(g[0]) && GroupLength(g + rest, 0) == |g| && (g + rest)[..|g|] == g && (g + rest)[|g|..] == rest
  {
    assert forall i :: 0 <= i < |g| ==> ByteAt(g + rest, i) == g[i];
  }

  /** A character is copied whole or not at all. */
  lemma FoldCharacter(g: string, rest: string, n: int, room: int)
    requires Character(g) && |g| <= n <= |rest| + |g|
    ensures Fold(g + rest, n, room)
      == if room < |g| then Folded([], false) else Before(g, Fold(rest, n - |g|, room - |g|))
  {
    CharacterGroup(g, rest);
    hide GroupLength, Character, FoldHex;
    assert FoldStep(g + rest) == Step(g, |g|);
    hide Fold, FoldStep;
    FoldBy(g + rest, n, room, g, |g|, rest);
  }

  /** Nothing is left: done. */
  lemma FoldDone(text: string, room: int)
    ensures Fold(text, 0, room) == Folded([], true)
  {
  }

  /** The room decides whether a text without backslashes and bytes above 127 is kept whole. */
  lemma {:induction false} FoldFits(s: string, after: string, room: nat)
    requires forall c :: c in s ==> c as int <= 127 && c != '\\'
    ensures Fold(s + after, |s|, room) == Folded(if |s| <= room then s else s[..room], |s| <= room)
    decreases |s|
  {
    hide Fold;
    if s == [] {
      assert s + after == after;
      FoldDone(after, room);
    } else {
      assert s + after == [s[0]] + (s[1..] + after) && s[0] in s;
      FoldPlain(s[0], s[1..] + after, |s|, room);
      if room > 0 {
        assert forall c :: c in s[1..] ==> c in s;
        FoldFits(s[1..], after, room - 1);
        assert [s[0]] + s[1..] == s && [s[0]] + (if |s| <= room then s[1..] else s[1..][..room - 1]) == if |s| <= room then s else s[..room];
      }
    }
  }

  /** A text that is longer than the room is not kept whole, whatever has to be escaped in it. */
  lemma {:induction false} FoldTooLong(s: string, after: string, room: nat)
    requires |s| > room && (after != [] ==> !High(after[0]))
    ensures !Fold(Escape(s) + after, |Escape(s)|, room).ok
    decreases |s|
  {
    hide Fold, FoldStep, High, Escaped, Escape;
    var text, n := Escape(s) + after, |Escape(s)|;
    assert Escaped(text, n, s, after) by { EscapedWhole(s, after); }
    var m, e := EscapedStep(text, n, s, after);
    if m > room {
      FoldStops(text, n, room);
    } else {
      EscapedParts(Drop(text, e), n - e, s[m..], after);
      FoldOnce(text, n, room, s[..m], e);
      FoldTooLong(s[m..], after, room - m);
    }
  }

  lemma EscapedWhole(s: string, after: string)
    ensures Escaped(Escape(s) + after, |Escape(s)|, s, after)
  {
  }

  lemma EscapedParts(text: string, n: int, s: string, after: string)
    requires Escaped(text, n, s, after)
    ensures text == Escape(s) + after && n == |Escape(s)|
  {
  }

  lemma LongStep(g: string, rest: string)
    requires (|g| == 5 && 0xF8 <= g[0] as int <= 0xFB) || (|g| == 6 && 0xFC <= g[0] as int <= 0xFD)
    requires forall i :: 1 <= i < |g| ==> 0x80 <= g[i] as int <= 0xBF
    ensures FoldStep(g + rest) == Step(g[..4], 4)
  {
    var text := g + rest;
    assert forall i :: 0 <= i < |g| ==> ByteAt(text, i) == g[i];
    assert text[..4] == g[..4];
    assert GroupLength(text, 0) == 4;
    hide GroupLength, FoldHex;
  }

  /** The bytes that begin a group of five or six, and four bytes behind them: four bytes are copied at once. */
  lemma FoldLongGroup(g: string, rest: string, n: int, room: int)
    requires (|g| == 5 && 0xF8 <= g[0] as int <= 0xFB) || (|g| == 6 && 0xFC <= g[0] as int <= 0xFD)
    requires (forall i :: 1 <= i < |g| ==> 0x80 <= g[i] as int <= 0xBF) && 4 <= n <= |rest| + |g|
    ensures Fold(g + rest, n, room) == if room < 4 then Folded([], false) else Before(g[..4], Fold(g[4..] + rest, n - 4, room - 4))
  {
    var text := g + rest;
    hide Fold, FoldStep;
    assert text[4..] == g[4..] + rest;
    LongStep(g, rest);
    FoldBy(text, n, room, g[..4], 4, g[4..] + rest);
  }

  lemma LoneStep(c: char, rest: string)
    requires c as int > 127 && (rest == [] || !(0x80 <= rest[0] as int <= 0xBF))
    ensures FoldStep([c] + rest) == Step([c], 1)
  {
    var text := [c] + rest;
    assert text[..1] == [c] && ByteAt(text, 1) == ByteAt(rest, 0) && !Continues(ByteAt(text, 1));
    assert GroupLength(text, 0) == 1 by { hide Continues; }
    hide GroupLength, FoldHex;
  }

  /** A byte above 127 that begins no group is copied alone. */
  lemma FoldLoneByte(c: char, rest: string, n: int, room: int)
    requires c as int > 127 && (rest == [] || !(0x80 <= rest[0] as int <= 0xBF)) && 0 < n <= |rest| + 1
    ensures Fold([c] + rest, n, room) == if room < 1 then Folded([], false) else Before([c], Fold(rest, n - 1, room - 1))
  {
    hide Fold, FoldStep;
    var text := [c] + rest;
    assert text[1..] == rest;
    LoneStep(c, rest);
    FoldBy(text, n, room, [c], 1, rest);
  }
}
