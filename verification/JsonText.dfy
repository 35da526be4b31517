/** String escapes: `JSONESCAPE_EXPAND` and `JSONUNESCAPE_FOLD` with UTF-8 encoding.

    A `char` stands for a byte.  A C string is the sequence of its bytes before the
    terminator; `ByteAt` reads the terminator as NUL. */
module JsonText {

  const NUL: char := 0 as char

  function ByteAt(s: string, i: int): char {
    if 0 <= i < |s| then s[i] else NUL
  }

  predicate High(c: char) { c as int > 127 }

  predicate Continues(c: char) { c as int / 64 == 2 }

  /** How many bytes `JSONENCODING_SKIP_MULTIBYTE` copies at once for a byte above 127.  Groups
      of five and six bytes are copied four bytes at first. */
  function GroupLength(s: string, i: int): (n: nat)
    ensures 1 <= n <= 4
  {
    var c := ByteAt(s, i) as int;
    if c / 32 == 0x06 && Continues(ByteAt(s, i + 1)) then 2
    else if c / 16 == 0x0E && Continues(ByteAt(s, i + 1)) && Continues(ByteAt(s, i + 2)) then 3
    else if c / 8 == 0x1E && Continues(ByteAt(s, i + 1)) && Continues(ByteAt(s, i + 2)) && Continues(ByteAt(s, i + 3)) then 4
    else if c / 4 == 0x3E && Continues(ByteAt(s, i + 1)) && Continues(ByteAt(s, i + 2)) && Continues(ByteAt(s, i + 3))
         && Continues(ByteAt(s, i + 4)) then 4
    else if c / 2 == 0x7E && Continues(ByteAt(s, i + 1)) && Continues(ByteAt(s, i + 2)) && Continues(ByteAt(s, i + 3))
         && Continues(ByteAt(s, i + 4)) && Continues(ByteAt(s, i + 5)) then 4
    else 1
  }

  /** A group consists of bytes above 127 and does not run past the end. */
  lemma GroupIsHigh(s: string, i: nat)
    requires i < |s| && High(s[i])
    ensures i + GroupLength(s, i) <= |s|
    ensures forall j :: i <= j < i + GroupLength(s, i) ==> High(s[j])
  {
  }

  // ----- escaping

  function EscapeByte(c: char): (e: string)
    ensures 1 <= |e| <= 2
  {
    if c == '\"' || c == '\\' then ['\\', c]
    else if c == '\t' then "\\t"
    else if c == '\r' then "\\r"
    else if c == '\n' then "\\n"
    else if c == 8 as char then "\\b"
    else if c == 12 as char then "\\f"
    else [c]
  }

  function Escape(s: string): string {
    if s == [] then [] else EscapeByte(s[0]) + Escape(s[1..])
  }

  lemma EscapeNone()
    ensures Escape([]) == []
  {
  }

  lemma {:induction false} EscapeConcat(a: string, b: string)
    ensures Escape(a + b) == Escape(a) + Escape(b)
  {
    if a == [] {
      assert a + b == b;
    } else {
      assert (a + b)[1..] == a[1..] + b;
      EscapeConcat(a[1..], b);
    }
  }

  lemma {:induction false} EscapeHigh(s: string)
    requires forall j :: 0 <= j < |s| ==> High(s[j])
    ensures Escape(s) == s
  {
    if s != [] { EscapeHigh(s[1..]); }
  }

  lemma EscapeStep(s: string, i: nat, n: nat)
    requires i + n <= |s|
    ensures Escape(s[..i + n]) == Escape(s[..i]) + Escape(s[i..i + n])
    ensures |Escape(s[..i + n])| <= |Escape(s)|
  {
    assert s[..i + n] == s[..i] + s[i..i + n];
    EscapeConcat(s[..i], s[i..i + n]);
    assert s == s[..i + n] + s[i + n..];
    EscapeConcat(s[..i + n], s[i + n..]);
  }

  /** Write the bytes of `piece` one after the other. */
  method Store(dst: array<char>, at: nat, piece: string)
    requires at + |piece| <= dst.Length
    modifies dst
    ensures dst[..at + |piece|] == old(dst[..at]) + piece
    ensures dst[at + |piece|..] == old(dst[at + |piece|..])
  {
    var n := 0;
    while n < |piece|
      invariant n <= |piece|
      invariant forall k :: 0 <= k < n ==> dst[at + k] == piece[k]
      invariant forall k :: (0 <= k < at || at + n <= k < dst.Length) ==> dst[k] == old(dst[k])
    {
      dst[at + n] := piece[n];
      n := n + 1;
    }
  }

  /** The bytes written for the source byte, or group of bytes, at `i`, and its length. */
  function Piece(src: string, i: nat): (r: (string, nat))
    requires i < |src|
    ensures 1 <= r.1 && i + r.1 <= |src| && |r.0| <= 4
  {
    if High(src[i]) then
      GroupIsHigh(src, i);
      var n := GroupLength(src, i); (src[i..i + n], n)
    else (EscapeByte(src[i]), 1)
  }

  lemma PieceEscapes(src: string, i: nat)
    requires i < |src|
    ensures var (piece, n) := Piece(src, i);
      && Escape(src[..i + n]) == Escape(src[..i]) + piece
      && |Escape(src[..i + n])| <= |Escape(src)|
  {
    var n := Piece(src, i).1;
    EscapeStep(src, i, n);
    if High(src[i]) {
      GroupIsHigh(src, i);
      EscapeHigh(src[i..i + n]);
    } else {
      assert src[i..i + 1] == [src[i]];
    }
  }

  /** `JSONESCAPE_EXPAND`: escape `src` into `dst` from `off`, where there is room for `room`
      bytes and a terminator. */
  method Expand(src: string, dst: array<char>, off: nat, room: nat) returns (len: int)
    requires off + room < dst.Length
    modifies dst
    ensures len == if |Escape(src)| > room then -1 else |Escape(src)|
    ensures len >= 0 ==> dst[..off + len] == old(dst[..off]) + Escape(src)
    ensures if src == [] then dst[..] == old(dst[..]) else len >= 0 ==> dst[off + len] == NUL
    ensures dst[..off] == old(dst[..off]) && dst[off + room + 1..] == old(dst[off + room + 1..])
  {
    hide Piece, Escape;
    EscapeNone();
    len := 0;
    if |src| > 0 {
      var i, j, remain := 0, 0, room as int;
      ghost var head, tail := dst[..off], dst[off + room + 1..];
      while i < |src|
        invariant 0 <= i <= |src| && j + remain == room && 0 <= remain
        invariant j == |Escape(src[..i])| && dst[..off + j] == head + Escape(src[..i])
        invariant dst[off + room + 1..] == tail
      {
        var (piece, n) := Piece(src, i);
        PieceEscapes(src, i);
        remain := remain - |piece|;
        if remain < 0 {
          break;
        }
        Store(dst, off + j, piece);
        assert (head + Escape(src[..i])) + piece == head + (Escape(src[..i]) + piece);
        assert dst[off + room + 1..] == dst[off + j + |piece|..][room + 1 - j - |piece|..];
        i, j := i + n, j + |piece|;
      }
      dst[off + j] := NUL;
      assert src[..|src|] == src;
      if remain < 0 || i < |src| {
        len := -1;
      } else {
        len := j;
      }
      assert dst[..off] == dst[..off + j][..off] == head;
    }
  }

  // ----- unescaping

  /** The position of `c` in "0123456789aAbBcCdDeEfF", or -1.  `strchr` also finds the terminator. */
  function HexIndex(c: char): int {
    if '0' <= c <= '9' then c as int - '0' as int
    else if 'a' <= c <= 'f' then 10 + 2 * (c as int - 'a' as int)
    else if 'A' <= c <= 'F' then 11 + 2 * (c as int - 'A' as int)
    else if c == NUL then 22
    else -1
  }

  function HexDigit(c: char): (d: int)
    requires HexIndex(c) >= 0
    ensures 0 <= d <= 16
  {
    var i := HexIndex(c);
    if i >= 10 then 10 + (i - 10) / 2 else i
  }

  function HexByte(hi: char, lo: char): char
    requires HexIndex(hi) >= 0 && HexIndex(lo) >= 0
  {
    ((HexDigit(hi) * 16 + HexDigit(lo)) % 256) as char
  }

  /** What one step of `JSONUNESCAPE_FOLD` writes for the start of `text`, and how many bytes it
      consumes; a bad hexadecimal escape stops the loop. */
  datatype Step = Step(piece: string, used: nat) | Stuck

  function FoldStep(text: string): (r: Step)
    requires text != []
    ensures r.Step? ==> r.used >= 1
  {
    if High(text[0]) then
      GroupIsHigh(text, 0);
      var n := GroupLength(text, 0); Step(text[..n], n)
    else if text[0] != '\\' then Step([text[0]], 1)
    else
      var c := ByteAt(text, 1);
      if c == 't' then Step("\t", 2)
      else if c == 'r' then Step("\r", 2)
      else if c == 'n' then Step("\n", 2)
      else if c == 'b' then Step([8 as char], 2)
      else if c == 'f' then Step([12 as char], 2)
      else if c == 'u' then FoldHex(ByteAt(text, 2), ByteAt(text, 3), ByteAt(text, 4), ByteAt(text, 5))
      else Step([c], 2)
  }

  /** The four bytes after a backslash and a `u`. */
  function FoldHex(c2: char, c3: char, c4: char, c5: char): (r: Step)
    ensures r.Step? ==> r.used == 6
  {
    if c2 == '0' && c3 == '0' then
      if HexIndex(c4) < 0 || HexIndex(c5) < 0 then Stuck else Step([HexByte(c4, c5)], 6)
    else
      if HexIndex(c2) < 0 || HexIndex(c3) < 0 || HexIndex(c4) < 0 || HexIndex(c5) < 0 then Stuck
      else Step([HexByte(c2, c3), HexByte(c4, c5)], 6)
  }

  function Drop(s: string, n: nat): (r: string)
    ensures |r| <= |s| && (n > 0 && s != [] ==> |r| < |s|)
  {
    if n <= |s| then s[n..] else []
  }

  /** The bytes written, and whether all `n` source bytes were consumed within the room. */
  datatype Folded = Folded(out: string, ok: bool)

  /** `text` starts with the `n` source bytes; what follows them can be looked at. */
  function Fold(text: string, n: int, room: int): (f: Folded)
    requires n <= |text|
    ensures room >= 0 ==> |f.out| <= room
    decreases |text|
  {
    if n <= 0 then Folded([], true)
    else match FoldStep(text)
      case Stuck => Folded([], false)
      case Step(piece, used) =>
        if |piece| > room then Folded([], false)
        else
          var rest := Fold(Drop(text, used), n - used, room - |piece|);
          Folded(piece + rest.out, rest.ok)
  }

  lemma HighFirst(s: string, after: string)
    requires Escape(s) + after != [] && High((Escape(s) + after)[0])
    requires after != [] ==> !High(after[0])
    ensures s != [] && High(s[0]) && Escape(s) == [s[0]] + Escape(s[1..])
  {
    EscapeNone();
    assert [] + after == after;
    if s != [] {
      EscapeOnce(s);
      EscapeByteHigh(s[0]);
      hide Escape, EscapeByte, High;
      assert (Escape(s) + after)[0] == EscapeByte(s[0])[0];
    }
  }

  lemma EscapeOnce(s: string)
    requires s != []
    ensures Escape(s) == EscapeByte(s[0]) + Escape(s[1..])
  {
  }

  lemma EscapeByteHigh(c: char)
    ensures High(EscapeByte(c)[0]) ==> High(c) && EscapeByte(c) == [c]
  {
  }

  lemma TailHigh(c: char, more: string, m: nat)
    requires 0 < m <= |more| + 1 && forall j :: 0 <= j < m ==> High(([c] + more)[j])
    ensures forall j :: 0 <= j < m - 1 ==> High(more[j])
  {
    assert forall j :: 0 <= j < m - 1 ==> more[j] == ([c] + more)[j + 1];
  }

  lemma SplitTail(s: string, m: nat, more: string)
    requires 0 < m <= |s|
    ensures s[1..][m - 1..] == s[m..] && [s[0]] + (s[1..][..m - 1] + more) == s[..m] + more
  {
  }

  /** If escaped text followed by `after` starts with `m` bytes above 127, so does the string. */
  lemma {:induction false} HighPrefix(s: string, after: string, m: nat)
    requires m <= |Escape(s) + after| && forall j :: 0 <= j < m ==> High((Escape(s) + after)[j])
    requires after != [] ==> !High(after[0])
    ensures m <= |s| && Escape(s) == s[..m] + Escape(s[m..])
    decreases m
  {
    if m > 0 {
      HighFirst(s, after);
      hide Escape, High;
      assert Escape(s) + after == [s[0]] + (Escape(s[1..]) + after);
      TailHigh(s[0], Escape(s[1..]) + after, m);
      HighPrefix(s[1..], after, m - 1);
      SplitTail(s, m, Escape(s[m..]));
    } else {
      assert s[0..] == s;
    }
  }

  lemma GroupStep(text: string) returns (m: nat)
    requires text != [] && High(text[0])
    ensures 1 <= m <= |text| && FoldStep(text) == Step(text[..m], m)
    ensures forall j :: 0 <= j < m ==> High(text[j])
  {
    hide FoldHex, HexIndex;
    GroupIsHigh(text, 0);
    m := GroupLength(text, 0);
  }

  lemma FirstGroup(s: string, after: string) returns (m: nat)
    requires s != [] && High(s[0]) && (after != [] ==> !High(after[0]))
    ensures 1 <= m <= |s| && FoldStep(Escape(s) + after) == Step(s[..m], m)
    ensures Escape(s) == s[..m] + Escape(s[m..])
  {
    assert (Escape(s) + after)[0] == s[0];
    hide *;
    m := GroupStep(Escape(s) + after);
    HighPrefix(s, after, m);
    Prefix(s[..m], Escape(s[m..]), after);
  }

  lemma Prefix(a: string, b: string, c: string)
    ensures ((a + b) + c)[..|a|] == a
  {
  }

  lemma UnescapeByte(c: char, text: string)
    requires !High(c) && |text| >= |EscapeByte(c)| && text[..|EscapeByte(c)|] == EscapeByte(c)
    ensures FoldStep(text) == Step([c], |EscapeByte(c)|)
  {
    hide FoldHex, GroupLength;
    assert text[0] == EscapeByte(c)[0];
    if |EscapeByte(c)| == 2 {
      assert text[1] == EscapeByte(c)[1];
    }
  }

  lemma FirstByte(s: string, after: string)
    requires s != [] && !High(s[0])
    ensures FoldStep(Escape(s) + after) == Step(s[..1], |EscapeByte(s[0])|)
    ensures Escape(s) == EscapeByte(s[0]) + Escape(s[1..])
  {
    hide FoldStep, EscapeByte;
    assert Escape(s) + after == EscapeByte(s[0]) + (Escape(s[1..]) + after);
    UnescapeByte(s[0], Escape(s) + after);
    assert s[..1] == [s[0]];
  }

  /** The first step of unescaping undoes the escape of the first byte, or copies a group. */
  lemma FirstStep(s: string, after: string) returns (m: nat, e: nat)
    requires s != [] && (after != [] ==> !High(after[0]))
    ensures 1 <= m <= |s| && FoldStep(Escape(s) + after) == Step(s[..m], e)
    ensures Drop(Escape(s) + after, e) == Escape(s[m..]) + after
    ensures |Escape(s)| == e + |Escape(s[m..])| && 0 < e
  {
    ghost var head;
    if High(s[0]) {
      m := FirstGroup(s, after);
      e, head := m, s[..m];
    } else {
      FirstByte(s, after);
      m, e, head := 1, |EscapeByte(s[0])|, EscapeByte(s[0]);
    }
    hide *;
    Rest(head, Escape(s[m..]), after);
  }

  lemma Rest(a: string, b: string, c: string)
    ensures Drop((a + b) + c, |a|) == b + c
  {
    assert ((a + b) + c)[|a|..] == b + c;
  }

  /** One step of unescaping. */
  lemma FoldOnce(text: string, n: int, room: int, piece: string, used: nat)
    requires 0 < n <= |text| && FoldStep(text) == Step(piece, used) && |piece| <= room
    ensures n - used <= |Drop(text, used)|
    ensures var rest := Fold(Drop(text, used), n - used, room - |piece|);
      Fold(text, n, room) == Folded(piece + rest.out, rest.ok)
  {
  }

  lemma FoldEnd(text: string, n: int, room: int)
    requires n <= 0
    ensures Fold(text, n, room) == Folded([], true)
  {
  }

  lemma FoldStops(text: string, n: int, room: int)
    requires 0 < n <= |text|
    requires FoldStep(text).Stuck? || |FoldStep(text).piece| > room
    ensures Fold(text, n, room) == Folded([], false)
  {
  }

  lemma FoldMore(text: string, n: int, room: int, s: string, m: nat, used: nat)
    requires 0 < n <= |text| && m <= |s| && m <= room && FoldStep(text) == Step(s[..m], used)
    requires n - used <= |Drop(text, used)|
    requires Fold(Drop(text, used), n - used, room - m) == Folded(s[m..], true)
    ensures Fold(text, n, room) == Folded(s, true)
  {
    hide Fold, FoldStep, Drop;
    FoldOnce(text, n, room, s[..m], used);
    assert s[..m] + s[m..] == s;
  }

  predicate Escaped(text: string, n: int, s: string, after: string) {
    text == Escape(s) + after && n == |Escape(s)|
  }

  lemma EscapedNone(text: string, n: int, after: string)
    requires Escaped(text, n, [], after)
    ensures n == 0
  {
  }

  lemma EscapedStep(text: string, n: int, s: string, after: string) returns (m: nat, e: nat)
    requires Escaped(text, n, s, after) && s != [] && (after != [] ==> !High(after[0]))
    ensures 1 <= m <= |s| && 0 < n <= |text| && FoldStep(text) == Step(s[..m], e)
    ensures Escaped(Drop(text, e), n - e, s[m..], after)
  {
    hide FoldStep, Drop, High;
    m, e := FirstStep(s, after);
    assert |Escape(s)| == e + |Escape(s[m..])| && 0 < e;
  }

  lemma {:induction false} FoldEscaped(text: string, n: int, s: string, after: string, room: int)
    requires Escaped(text, n, s, after) && |s| <= room && (after != [] ==> !High(after[0]))
    ensures n <= |text| && Fold(text, n, room) == Folded(s, true)
    decreases |s|
  {
    hide *;
    if s == [] {
      EscapedNone(text, n, after);
      FoldEnd(text, n, room);
    } else {
      var m, e := EscapedStep(text, n, s, after);
      FoldEscaped(Drop(text, e), n - e, s[m..], after, room - m);
      FoldMore(text, n, room, s, m, e);
    }
  }

  /** Unescaping what was escaped returns the original, multibyte groups included. */
  lemma FoldEscape(s: string, after: string, room: int)
    requires |s| <= room && (after != [] ==> !High(after[0]))
    ensures Fold(Escape(s) + after, |Escape(s)|, room) == Folded(s, true)
  {
    FoldEscaped(Escape(s) + after, |Escape(s)|, s, after, room);
  }

  lemma DropAll(s: string)
    ensures Drop(s, 0) == s
  {
  }

  lemma DropDrop(s: string, m: nat, n: nat)
    ensures Drop(Drop(s, m), n) == Drop(s, m + n)
  {
  }

  /** `JSONUNESCAPE_FOLD`: unescape the first `n` bytes of `text` into `dst`, which has room for
      `room` bytes and a terminator.  When it fails, `dst` holds what was written until then. */
  method FoldInto(text: string, n: nat, dst: array<char>, room: nat) returns (len: int)
    requires n <= |text| && room < dst.Length
    modifies dst
    ensures var f := Fold(text, n, room);
      && len == (if f.ok then |f.out| else -1)
      && dst[..|f.out|] == f.out && dst[|f.out|] == NUL
      && dst[|f.out| + 1..] == old(dst[|f.out| + 1..])
  {
    hide Fold, FoldStep, Drop, Piece;
    var i, j, remain := 0, 0, room as int;
    ghost var whole := Fold(text, n, room);
    DropAll(text);
    while i < n
      invariant 0 <= i && 0 <= remain && 0 <= j && j + remain == room && n - i <= |Drop(text, i)|
      invariant dst[j..] == old(dst[j..])
      invariant var rest := Fold(Drop(text, i), n - i, remain);
        whole == Folded(dst[..j] + rest.out, rest.ok)
    {
      var here := Drop(text, i);
      var step := FoldStep(here);
      if step.Stuck? {
        FoldStops(here, n - i, remain);
        break;
      }
      remain := remain - |step.piece|;
      if remain < 0 {
        FoldStops(here, n - i, remain + |step.piece|);
        break;
      }
      FoldOnce(here, n - i, remain + |step.piece|, step.piece, step.used);
      DropDrop(text, i, step.used);
      Store(dst, j, step.piece);
      i, j := i + step.used, j + |step.piece|;
    }
    ghost var done := dst[..j];
    dst[j] := NUL;
    if remain < 0 || i < n {
      len := -1;
    } else {
      FoldEnd(Drop(text, i), n - i, remain);
      len := j;
    }
    assert whole.out == done == dst[..j];
  }
}
