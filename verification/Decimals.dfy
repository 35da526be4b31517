/** Decimal numbers: the `%d` conversion and `atoi` behind `NATOI` and `NATOI1`. */
module Decimals {

  function Digit(d: nat): char
    requires d < 10
  {
    ('0' as int + d) as char
  }

  predicate IsDigit(c: char) { '0' <= c <= '9' }

  function Unsigned(n: nat): (s: string)
    ensures s != [] && forall i :: 0 <= i < |s| ==> IsDigit(s[i])
    ensures s[0] == '0' ==> |s| == 1
  {
    if n < 10 then [Digit(n)] else Unsigned(n / 10) + [Digit(n % 10)]
  }

  /** `%d`. */
  function Decimal(n: int): string {
    if n < 0 then "-" + Unsigned(-n) else Unsigned(n)
  }

  predicate Space(c: char) { c == ' ' || 9 <= c as int <= 13 }

  function Digits(s: string, acc: nat): nat {
    if s != [] && IsDigit(s[0]) then Digits(s[1..], acc * 10 + (s[0] as int - '0' as int)) else acc
  }

  function Atoi(s: string): int {
    if s == [] then 0
    else if Space(s[0]) then Atoi(s[1..])
    else if s[0] == '-' then 0 - Digits(s[1..], 0)
    else if s[0] == '+' then Digits(s[1..], 0)
    else Digits(s, 0)
  }

  function Take(s: string, n: nat): (r: string) {
    if n <= |s| then s[..n] else s
  }

  /** `NATOI` and `NATOI1` convert the first `width` bytes, wherever the token ends. */
  function Convert(text: string, width: nat): int { Atoi(Take(text, width)) }

  /** A number printed and converted. */
  function ReadBack(n: int, width: nat): int { Convert(Decimal(n), width) }

  /** The byte after a number is not a digit. */
  predicate Ends(after: string) { after == [] || !IsDigit(after[0]) }

  lemma {:induction false} DigitsRead(n: nat, after: string)
    ensures Digits(Unsigned(n) + after, 0) == Digits(after, n)
  {
    if n < 10 {
      assert (Unsigned(n) + after)[1..] == after;
    } else {
      var last := [Digit(n % 10)];
      assert Unsigned(n) + after == Unsigned(n / 10) + (last + after);
      DigitsRead(n / 10, last + after);
      assert (last + after)[1..] == after;
    }
  }

  lemma AtoiDecimal(n: int, after: string)
    requires Ends(after)
    ensures Atoi(Decimal(n) + after) == n
  {
    if n < 0 {
      assert (Decimal(n) + after)[1..] == Unsigned(-n) + after;
      DigitsRead(-n, after);
    } else {
      assert (Decimal(n) + after)[0] == Unsigned(n)[0];
      DigitsRead(n, after);
    }
  }

  lemma {:induction false} PrefixBelow(n: nat, m: nat)
    requires 0 < m < |Unsigned(n)|
    ensures Digits(Unsigned(n)[..m], 0) < n
  {
    var front := Unsigned(n / 10);
    assert Unsigned(n)[..m] == front[..m];
    if m < |front| {
      PrefixBelow(n / 10, m);
    } else {
      assert front[..m] == front + [];
      DigitsRead(n / 10, []);
    }
  }

  /** A number is read back exactly when all of its characters fit the width. */
  lemma ReadBackExact(n: int, width: nat)
    requires width >= 2
    ensures ReadBack(n, width) == n <==> |Decimal(n)| <= width
  {
    var s := Decimal(n);
    if |s| <= width {
      assert Take(s, width) == s + [];
      AtoiDecimal(n, []);
    } else if n < 0 {
      assert s[..width][1..] == Unsigned(-n)[..width - 1];
      PrefixBelow(-n, width - 1);
    } else {
      assert s[..width][0] == Unsigned(n)[0];
      PrefixBelow(n, width);
    }
  }

  /** What `atoi` reads: white space, one sign or none, and digits up to the first other byte. */
  lemma {:induction false} AtoiSpelled(blank: string, n: nat, after: string)
    requires (forall c :: c in blank ==> c in " \t\n\r" + [11 as char, 12 as char]) && Ends(after)
    ensures Atoi(blank + (Unsigned(n) + after)) == n
    ensures Atoi(blank + ("+" + (Unsigned(n) + after))) == n
    ensures Atoi(blank + ("-" + (Unsigned(n) + after))) + n == 0
    decreases |blank|
  {
    var digits := Unsigned(n) + after;
    if blank == [] {
      assert blank + digits == digits && blank + ("+" + digits) == "+" + digits && blank + ("-" + digits) == "-" + digits;
      DigitsRead(n, after);
      assert digits[0] == Unsigned(n)[0] && ("+" + digits)[1..] == digits && ("-" + digits)[1..] == digits;
    } else {
      assert blank[0] in blank && forall c :: c in blank[1..] ==> c in blank;
      AtoiSpelled(blank[1..], n, after);
      assert (blank + digits)[1..] == blank[1..] + digits;
      assert (blank + ("+" + digits))[1..] == blank[1..] + ("+" + digits);
      assert (blank + ("-" + digits))[1..] == blank[1..] + ("-" + digits);
    }
  }

  lemma DigitWritten(c: char)
    ensures IsDigit(c) ==> c in "0123456789"
  {
    var digits := "0123456789";
    if IsDigit(c) { assert digits[c as int - '0' as int] == c; }
  }

  /** Text that does not begin with white space, a sign or a digit converts to zero. */
  lemma AtoiNothing(c: char, after: string)
    requires c !in " \t\n\r+-" && c !in "0123456789" && c != 11 as char && c != 12 as char
    ensures Atoi([c] + after) == 0
  {
    DigitWritten(c);
    var blanks := " \t\n\r+-";
    assert blanks[0] == ' ' && blanks[1] == '\t' && blanks[2] == '\n' && blanks[3] == '\r' && blanks[4] == '+' && blanks[5] == '-';
  }
}
