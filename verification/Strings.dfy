/** Splitting and trimming, as the standard string functions of the sources do it. */
module Strings {
  /** The pieces between occurrences of `sep`; always at least one. */
  function Split(s: string, sep: char): (parts: seq<string>)
    ensures |parts| >= 1
  {
    if s == "" then [""]
    else
      var rest := Split(s[1..], sep);
      if s[0] == sep then [""] + rest else [[s[0]] + rest[0]] + rest[1..]
  }

  lemma {:induction false} SplitWhole(s: string, sep: char)
    requires sep !in s
    ensures Split(s, sep) == [s]
  {
    if s != "" {
      SplitWhole(s[1..], sep);
      assert [s[0]] + s[1..] == s;
    }
  }

  /** A piece without the separator, the separator, and anything else. */
  lemma {:induction false} SplitFirst(a: string, b: string, sep: char)
    requires sep !in a
    ensures Split(a + [sep] + b, sep) == [a] + Split(b, sep)
  {
    var s := a + [sep] + b;
    if a == "" {
      assert s[0] == sep && s[1..] == b;
    } else {
      assert s[0] == a[0] && s[1..] == a[1..] + [sep] + b;
      SplitFirst(a[1..], b, sep);
      assert Split(s, sep) == [[a[0]] + a[1..]] + Split(b, sep);
      assert [a[0]] + a[1..] == a;
    }
  }

  lemma {:induction false} PiecesLackTheSeparator(s: string, sep: char)
    ensures forall i :: 0 <= i < |Split(s, sep)| ==> sep !in Split(s, sep)[i]
  {
    if s != "" {
      PiecesLackTheSeparator(s[1..], sep);
    }
  }

  function Join(parts: seq<string>, sep: char): string
    requires |parts| >= 1
  {
    if |parts| == 1 then parts[0] else parts[0] + [sep] + Join(parts[1..], sep)
  }

  /** Joining the pieces gives the text back. */
  lemma {:induction false} JoinSplit(s: string, sep: char)
    ensures Join(Split(s, sep), sep) == s
  {
    if s != "" {
      JoinSplit(s[1..], sep);
      var rest := Split(s[1..], sep);
      if s[0] == sep {
        assert ([""] + rest)[1..] == rest;
        assert Split(s, sep) == [""] + rest && Join([""] + rest, sep) == [sep] + Join(rest, sep);
      } else {
        assert Split(s, sep) == [[s[0]] + rest[0]] + rest[1..];
        JoinLonger(s[0], rest, sep);
      }
      hide Split, Join;
      assert [s[0]] + s[1..] == s;
    }
  }

  lemma JoinLonger(c: char, parts: seq<string>, sep: char)
    requires |parts| >= 1
    ensures Join([[c] + parts[0]] + parts[1..], sep) == [c] + Join(parts, sep)
  {
    var longer := [[c] + parts[0]] + parts[1..];
    assert longer[1..] == parts[1..];
  }

  /** Drops every trailing `c`. */
  function TrimRight(s: string, c: char): (r: string)
    ensures r == "" || r[|r| - 1] != c
    ensures r <= s && forall i :: |r| <= i < |s| ==> s[i] == c
  {
    if s != "" && s[|s| - 1] == c then TrimRight(s[..|s| - 1], c) else s
  }

  /** strings.LastIndex for one character: -1 when absent. */
  function LastIndex(s: string, c: char): (i: int)
    ensures -1 <= i < |s|
    ensures i >= 0 ==> s[i] == c
    ensures forall j :: i < j < |s| ==> s[j] != c
  {
    if s == "" then -1 else if s[|s| - 1] == c then |s| - 1 else LastIndex(s[..|s| - 1], c)
  }

  /** %0Nd of a natural number. */
  function Digits(n: nat, width: nat): (s: string)
    ensures |s| >= width && forall i :: 0 <= i < |s| ==> '0' <= s[i] <= '9'
    decreases n, width
  {
    if n == 0 && width == 0 then ""
    else Digits(n / 10, if width == 0 then 0 else width - 1) + ["0123456789"[n % 10]]
  }

  lemma {:induction false} DigitsWidth(n: nat, width: nat)
    ensures |Digits(n, width)| == width <==> n < Pow10(width)
    decreases n, width
  {
    if width == 0 {
      if n > 0 { DigitsWidth(n / 10, 0); }
    } else {
      DigitsWidth(n / 10, width - 1);
    }
  }

  function Pow10(n: nat): (p: nat)
    ensures p >= 1
  {
    if n == 0 then 1 else 10 * Pow10(n - 1)
  }

  /** The number a decimal text says. */
  function Value(s: string): int {
    if s == "" then 0 else 10 * Value(s[..|s| - 1]) + (s[|s| - 1] as int - '0' as int)
  }

  /** A printed number reads as itself. */
  lemma {:induction false} DigitsValue(n: nat, width: nat)
    ensures Value(Digits(n, width)) == n
    decreases n, width
  {
    if n > 0 || width > 0 {
      var w := if width == 0 then 0 else width - 1;
      DigitsValue(n / 10, w);
      var s := Digits(n, width);
      assert s[..|s| - 1] == Digits(n / 10, w);
      DigitChar(n % 10);
    }
  }

  lemma DigitChar(d: nat)
    requires d < 10
    ensures "0123456789"[d] as int - '0' as int == d
  {
  }
}
