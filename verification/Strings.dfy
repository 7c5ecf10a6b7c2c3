/** The string operations of JavaScript and Python that the models share. */
module Strings {
  function Join(parts: seq<string>, separator: string): string {
    if |parts| == 0 then ""
    else if |parts| == 1 then parts[0]
    else parts[0] + separator + Join(parts[1..], separator)
  }

  lemma JoinFront(part: string, rest: seq<string>, separator: string)
    ensures Join([part] + rest, separator) == if rest == [] then part else part + separator + Join(rest, separator)
  {
    assert ([part] + rest)[1..] == rest;
  }

  /** `c` put in front of the first piece. */
  function Grow(c: char, pieces: seq<string>): seq<string>
    requires pieces != []
  {
    [[c] + pieces[0]] + pieces[1..]
  }

  /** The pieces of `s` between occurrences of `separator`: always at least one. */
  function Split(s: string, separator: char): (pieces: seq<string>)
    ensures pieces != []
  {
    if s == "" then [""]
    else if s[0] == separator then [""] + Split(s[1..], separator)
    else Grow(s[0], Split(s[1..], separator))
  }

  lemma GrowConcat(c: char, a: seq<string>, b: seq<string>)
    requires a != []
    ensures Grow(c, a + b) == Grow(c, a) + b
  {
    assert (a + b)[1..] == a[1..] + b;
  }

  lemma {:induction false} SplitAtSeparator(a: string, b: string, separator: char)
    ensures Split(a + [separator] + b, separator) == Split(a, separator) + Split(b, separator)
  {
    var whole := a + [separator] + b;
    if a == "" {
      assert whole[1..] == b;
    } else {
      assert whole[0] == a[0] && whole[1..] == a[1..] + [separator] + b;
      SplitAtSeparator(a[1..], b, separator);
      if a[0] == separator {
        ConcatAssociative([""], Split(a[1..], separator), Split(b, separator));
      } else {
        GrowConcat(a[0], Split(a[1..], separator), Split(b, separator));
      }
    }
  }

  lemma {:induction false} SplitWhole(s: string, separator: char)
    requires separator !in s
    ensures Split(s, separator) == [s]
  {
    if s != "" {
      assert s[0] in s;
      assert forall c | c in s[1..] :: c in s;
      SplitWhole(s[1..], separator);
      assert [s[0]] + s[1..] == s;
    }
  }

  predicate EndsWith(s: string, suffix: string) {
    |suffix| <= |s| && s[|s| - |suffix|..] == suffix
  }

  lemma EndsWithExtend(front: string, s: string, suffix: string)
    requires EndsWith(s, suffix)
    ensures EndsWith(front + s, suffix)
  {
    assert (front + s)[|front + s| - |suffix|..] == s[|s| - |suffix|..];
  }

  lemma EndsWithTransitive(a: string, b: string, c: string)
    requires EndsWith(a, b) && EndsWith(b, c)
    ensures EndsWith(a, c)
  {
    assert a[|a| - |c|..] == b[|b| - |c|..];
  }

  lemma ConcatAssociative<T>(a: seq<T>, b: seq<T>, c: seq<T>)
    ensures a + (b + c) == a + b + c
  {
  }

  // ---------------------------------------------------------------- blanks

  /** A class of characters, such as what a language counts as white space. */
  type CharClass = char -> bool

  function TrimStart(blank: CharClass, s: string): string {
    if s != "" && blank(s[0]) then TrimStart(blank, s[1..]) else s
  }

  function TrimEnd(blank: CharClass, s: string): string {
    if s != "" && blank(s[|s| - 1]) then TrimEnd(blank, s[..|s| - 1]) else s
  }

  function Trim(blank: CharClass, s: string): string {
    TrimEnd(blank, TrimStart(blank, s))
  }

  /** `s` is nothing but blanks in front of `TrimStart(s)`. */
  lemma TrimStartSplits(blank: CharClass, s: string)
    ensures EndsWith(s, TrimStart(blank, s))
    ensures AllIn(blank, s[..|s| - |TrimStart(blank, s)|])
    ensures TrimStart(blank, s) != "" ==> !blank(TrimStart(blank, s)[0])
  {
    if s != "" && blank(s[0]) {
      TrimStartSplits(blank, s[1..]);
    }
  }

  /** `s` is nothing but blanks behind `TrimEnd(s)`. */
  lemma TrimEndSplits(blank: CharClass, s: string)
    ensures TrimEnd(blank, s) <= s
    ensures AllIn(blank, s[|TrimEnd(blank, s)|..])
    ensures TrimEnd(blank, s) != "" ==> !blank(TrimEnd(blank, s)[|TrimEnd(blank, s)| - 1])
  {
    if s != "" && blank(s[|s| - 1]) {
      TrimEndSplits(blank, s[..|s| - 1]);
    }
  }

  predicate AllIn(kind: CharClass, s: string) {
    forall i | 0 <= i < |s| :: kind(s[i])
  }

  // ---------------------------------------------------------------- decimal numerals

  const DIGITS := "0123456789"

  predicate IsDigit(c: char) {
    '0' <= c <= '9'
  }

  /** How both languages print a non-negative integer. */
  function Decimal(n: nat): (s: string)
    ensures s != ""
  {
    if n < 10 then [DIGITS[n]] else Decimal(n / 10) + [DIGITS[n % 10]]
  }

  lemma DigitsDiffer(i: nat, j: nat)
    requires i < 10 && j < 10 && DIGITS[i] == DIGITS[j]
    ensures i == j
  {
    assert forall k | 0 <= k < 10 :: DIGITS[k] as int == '0' as int + k;
  }

  lemma DecimalParts(n: nat)
    ensures var s := Decimal(n);
            && s[|s| - 1] == DIGITS[n % 10]
            && s[..|s| - 1] == if n < 10 then "" else Decimal(n / 10)
  {
  }

  lemma {:induction false} DecimalInjective(m: nat, n: nat)
    requires Decimal(m) == Decimal(n)
    ensures m == n
  {
    DecimalParts(m);
    DecimalParts(n);
    DigitsDiffer(m % 10, n % 10);
    if m >= 10 && n >= 10 {
      DecimalInjective(m / 10, n / 10);
    }
  }

  /** The number that a text of digits stands for. */
  function NumberOf(s: string): nat
    requires AllIn(IsDigit, s)
  {
    if s == "" then 0
    else
      assert forall i | 0 <= i < |s| - 1 :: s[..|s| - 1][i] == s[i];
      10 * NumberOf(s[..|s| - 1]) + (s[|s| - 1] as int - '0' as int)
  }

  /** A printed number is read back as itself, and it has no digit too many. */
  lemma {:induction false} DecimalMeans(n: nat)
    ensures AllIn(IsDigit, Decimal(n)) && NumberOf(Decimal(n)) == n
    ensures n > 0 ==> Decimal(n)[0] != '0'
    ensures n == 0 ==> Decimal(n) == "0"
  {
    DecimalParts(n);
    assert forall k | 0 <= k < 10 :: DIGITS[k] as int == '0' as int + k;
    var s := Decimal(n);
    if n >= 10 {
      DecimalMeans(n / 10);
      assert s == s[..|s| - 1] + [s[|s| - 1]];
    } else {
      assert s == [DIGITS[n]];
    }
  }
}
