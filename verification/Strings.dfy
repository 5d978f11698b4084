/** String operations the modelled programs rely on: split, join, decimal numerals. */
module Strings {

  predicate Free(s: string, seps: set<char>) {
    forall i | 0 <= i < |s| :: s[i] !in seps
  }

  /** Puts one character in front of split text. */
  function Prepend(c: char, parts: seq<string>, seps: set<char>): (r: seq<string>)
    requires parts != []
    ensures r != []
  {
    if c in seps then [""] + parts else [[c] + parts[0]] + parts[1..]
  }

  /** Splits at every character of `seps`; the result is never empty. */
  function Split(s: string, seps: set<char>): (parts: seq<string>)
    ensures parts != []
  {
    if s == "" then [""] else Prepend(s[0], Split(s[1..], seps), seps)
  }

  function Join(parts: seq<string>, sep: char): string
    requires parts != []
  {
    if |parts| == 1 then parts[0] else parts[0] + [sep] + Join(parts[1..], sep)
  }

  lemma {:induction false} SplitFree(s: string, seps: set<char>)
    requires Free(s, seps)
    ensures Split(s, seps) == [s]
  {
    if s != "" {
      SplitFree(s[1..], seps);
      assert [s[0]] + s[1..] == s;
    }
  }

  lemma PrependConcat(c: char, a: seq<string>, b: seq<string>, seps: set<char>)
    requires a != []
    ensures Prepend(c, a + b, seps) == Prepend(c, a, seps) + b
  {
    assert (a + b)[0] == a[0] && (a + b)[1..] == a[1..] + b;
  }

  lemma {:induction false} SplitAtSeparator(a: string, sep: char, b: string, seps: set<char>)
    requires sep in seps
    ensures Split(a + [sep] + b, seps) == Split(a, seps) + Split(b, seps)
  {
    var t := a + [sep] + b;
    if a == "" {
      assert t[0] == sep && t[1..] == b;
    } else {
      assert t[0] == a[0] && t[1..] == a[1..] + [sep] + b;
      SplitAtSeparator(a[1..], sep, b, seps);
      PrependConcat(a[0], Split(a[1..], seps), Split(b, seps), seps);
    }
  }

  lemma {:induction false} SplitJoin(parts: seq<string>, sep: char, seps: set<char>)
    requires parts != [] && sep in seps && forall p | p in parts :: Free(p, seps)
    ensures Split(Join(parts, sep), seps) == parts
  {
    SplitFree(parts[0], seps);
    if |parts| > 1 {
      SplitJoin(parts[1..], sep, seps);
      SplitAtSeparator(parts[0], sep, Join(parts[1..], sep), seps);
    }
  }

  lemma {:induction false} JoinSplit(s: string, sep: char)
    ensures Join(Split(s, {sep}), sep) == s
  {
    if s != "" {
      JoinSplit(s[1..], sep);
      var rest := Split(s[1..], {sep});
      if s[0] == sep {
        assert ([""] + rest)[1..] == rest;
      } else if |rest| > 1 {
        assert ([[s[0]] + rest[0]] + rest[1..])[1..] == rest[1..];
      }
    }
  }

  lemma {:induction false} JoinConcat(a: seq<string>, b: seq<string>, sep: char)
    requires a != [] && b != []
    ensures Join(a + b, sep) == Join(a, sep) + [sep] + Join(b, sep)
  {
    if |a| == 1 {
      assert (a + b)[1..] == b;
    } else {
      assert (a + b)[1..] == a[1..] + b;
      JoinConcat(a[1..], b, sep);
    }
  }

  lemma SeparatorPosition(a: string, b: string, sep: char)
    requires sep !in b
    ensures (a + [sep] + b)[|a|] == sep
    ensures forall i | |a| < i < |a + [sep] + b| :: (a + [sep] + b)[i] != sep
  {
    forall i | |a| < i < |a + [sep] + b|
      ensures (a + [sep] + b)[i] != sep
    {
      assert (a + [sep] + b)[i] == b[i - |a| - 1];
    }
  }

  /** A string with one separator in front of a separator-free tail splits in one way only. */
  lemma LastSeparator(a: string, b: string, c: string, d: string, sep: char)
    requires a + [sep] + b == c + [sep] + d
    requires sep !in b && sep !in d
    ensures a == c && b == d
  {
    SeparatorPosition(a, b, sep);
    SeparatorPosition(c, d, sep);
    var s := a + [sep] + b;
    assert |a| == |c|;
    assert a == s[..|a|] && b == s[|a| + 1..];
    assert c == (c + [sep] + d)[..|c|] && d == (c + [sep] + d)[|c| + 1..];
  }

  // ---- Decimal numerals ----

  predicate IsDigit(c: char) {
    '0' <= c <= '9'
  }

  /** Python's str.isdigit on ASCII text. */
  predicate IsNumeral(s: string) {
    s != "" && forall i | 0 <= i < |s| :: IsDigit(s[i])
  }

  function DigitValue(c: char): nat
    requires IsDigit(c)
  {
    c as int - '0' as int
  }

  function ParseNat(s: string): nat
    requires forall i | 0 <= i < |s| :: IsDigit(s[i])
  {
    if s == "" then 0
    else 10 * ParseNat(s[..|s| - 1]) + DigitValue(s[|s| - 1])
  }

  function DigitChar(d: nat): (c: char)
    requires d < 10
    ensures IsDigit(c) && DigitValue(c) == d
  {
    ('0' as int + d) as char
  }

  function PrintNat(n: nat): string {
    (if n < 10 then "" else PrintNat(n / 10)) + [DigitChar(n % 10)]
  }

  /** Printing a number and reading it back is the identity, so printing is injective. */
  lemma {:induction false} ParsePrint(n: nat)
    ensures IsNumeral(PrintNat(n)) && ParseNat(PrintNat(n)) == n
  {
    var front := if n < 10 then "" else PrintNat(n / 10);
    if 10 <= n {
      ParsePrint(n / 10);
    }
    assert PrintNat(n) == front + [DigitChar(n % 10)];
    AppendDigit(front, n % 10);
    assert n == 10 * (n / 10) + n % 10;
  }

  /** Numerals are decimal, the most significant digit first. */
  lemma {:induction false} NumeralsAreDecimal(n: nat)
    ensures n < 10 ==> PrintNat(n) == ["0123456789"[n]]
    ensures n >= 10 ==> PrintNat(n) == PrintNat(n / 10) + ["0123456789"[n % 10]]
  {
    assert forall d: nat | d < 10 :: DigitChar(d) as int == 48 + d && "0123456789"[d] as int == 48 + d;
    assert n < 10 ==> "" + [DigitChar(n)] == [DigitChar(n)];
  }

  lemma AppendDigit(front: string, d: nat)
    requires d < 10 && forall i | 0 <= i < |front| :: IsDigit(front[i])
    ensures IsNumeral(front + [DigitChar(d)]) && ParseNat(front + [DigitChar(d)]) == 10 * ParseNat(front) + d
  {
    var s := front + [DigitChar(d)];
    assert s[..|s| - 1] == front && s[|s| - 1] == DigitChar(d);
  }
}
