/** Separators, splitting and decimal printing, as Python's str methods do them. */
module Strings {

  /** Text up to the first separator is determined by the whole. */
  lemma FirstSeparatorUnique(p: string, a: string, q: string, b: string, sep: char)
    requires sep !in p && sep !in q
    requires p + [sep] + a == q + [sep] + b
    ensures p == q && a == b
  {
    var x, y := p + [sep] + a, q + [sep] + b;
    assert x[|p|] == sep && y[|q|] == sep;
    assert |p| == |q|;
    assert p == x[..|p|] && q == y[..|q|];
    assert a == x[|p| + 1..] && b == y[|q| + 1..];
  }

  /** Text after the last separator is determined by the whole. */
  lemma LastSeparatorUnique(a: string, p: string, b: string, q: string, sep: char)
    requires sep !in p && sep !in q
    requires a + [sep] + p == b + [sep] + q
    ensures p == q && a == b
  {
    var x, y := a + [sep] + p, b + [sep] + q;
    assert x[|a|] == sep && y[|b|] == sep;
    assert |a| == |b|;
    assert a == x[..|a|] && b == y[..|b|];
    assert p == x[|a| + 1..] && q == y[|b| + 1..];
  }

  // ---- str.replace, str.split, str.join ----

  /** str.replace of one character by another. */
  function ReplaceChar(s: string, from: char, to: char): (r: string)
    ensures |r| == |s|
    ensures forall i :: 0 <= i < |s| ==> r[i] == if s[i] == from then to else s[i]
  {
    seq(|s|, i requires 0 <= i < |s| => if s[i] == from then to else s[i])
  }

  lemma ReplaceAppend(a: string, b: string, from: char, to: char)
    ensures ReplaceChar(a + b, from, to) == ReplaceChar(a, from, to) + ReplaceChar(b, from, to)
  {
  }

  /** Position of the first c, or |s|. */
  function IndexOf(s: string, c: char): (i: nat)
    ensures i <= |s| && c !in s[..i]
    ensures i < |s| ==> s[i] == c
    ensures i == |s| <==> c !in s
  {
    if s == "" then 0 else if s[0] == c then 0 else
    var i := 1 + IndexOf(s[1..], c);
    assert s[..i] == [s[0]] + s[1..][..i - 1];
    i
  }

  predicate SeparatorFree(parts: seq<string>, sep: char) {
    forall i :: 0 <= i < |parts| ==> sep !in parts[i]
  }

  function Split(s: string, sep: char): (parts: seq<string>)
    ensures |parts| >= 1 && SeparatorFree(parts, sep)
  {
    var i := IndexOf(s, sep);
    if i == |s| then [s] else [s[..i]] + Split(s[i + 1..], sep)
  }

  function Join(parts: seq<string>, sep: char): string
    requires |parts| >= 1
  {
    if |parts| == 1 then parts[0] else parts[0] + [sep] + Join(parts[1..], sep)
  }

  lemma JoinCons(s: string, i: nat, parts: seq<string>, sep: char)
    requires i < |s| && s[i] == sep && |parts| >= 1 && Join(parts, sep) == s[i + 1..]
    ensures Join([s[..i]] + parts, sep) == s
  {
    assert ([s[..i]] + parts)[1..] == parts;
    assert s == s[..i] + [sep] + s[i + 1..];
  }

  lemma {:induction false} JoinSplit(s: string, sep: char)
    ensures Join(Split(s, sep), sep) == s
  {
    var i := IndexOf(s, sep);
    if i < |s| {
      var rest := Split(s[i + 1..], sep);
      JoinSplit(s[i + 1..], sep);
      JoinCons(s, i, rest, sep);
      assert Split(s, sep) == [s[..i]] + rest;
    } else {
      assert Split(s, sep) == [s];
    }
  }

  lemma SplitFirst(part: string, rest: string, sep: char)
    requires sep !in part
    ensures Split(part + [sep] + rest, sep) == [part] + Split(rest, sep)
  {
    var s := part + [sep] + rest;
    var i := IndexOf(s, sep);
    assert s[|part|] == sep;
    assert s == s[..i] + [sep] + s[i + 1..];
    FirstSeparatorUnique(s[..i], s[i + 1..], part, rest, sep);
  }

  lemma {:induction false} SplitJoin(parts: seq<string>, sep: char)
    requires |parts| >= 1 && SeparatorFree(parts, sep)
    ensures Split(Join(parts, sep), sep) == parts
  {
    if |parts| > 1 {
      SplitJoin(parts[1..], sep);
      SplitFirst(parts[0], Join(parts[1..], sep), sep);
      assert parts == [parts[0]] + parts[1..];
    } else {
      var s := Join(parts, sep);
      assert s == parts[0] && IndexOf(s, sep) == |s|;
    }
  }

  lemma {:induction false} JoinConcat(p: seq<string>, q: seq<string>, sep: char)
    requires |p| >= 1 && |q| >= 1
    ensures Join(p + q, sep) == Join(p, sep) + [sep] + Join(q, sep)
  {
    if |p| == 1 {
      assert (p + q)[1..] == q;
    } else {
      JoinConcat(p[1..], q, sep);
      assert (p + q)[1..] == p[1..] + q;
    }
  }

  lemma JoinPrepend(part: string, parts: seq<string>, sep: char)
    requires |parts| >= 1
    ensures Join([part] + parts, sep) == part + [sep] + Join(parts, sep)
  {
    assert ([part] + parts)[1..] == parts;
  }

  /** Splitting a concatenation around a separator splits both halves. */
  lemma SplitConcat(a: string, b: string, sep: char)
    ensures Split(a + [sep] + b, sep) == Split(a, sep) + Split(b, sep)
  {
    JoinConcat(Split(a, sep), Split(b, sep), sep);
    JoinSplit(a, sep);
    JoinSplit(b, sep);
    SplitJoin(Split(a, sep) + Split(b, sep), sep);
  }

  /** Dropping a prefix never adds parts. */
  lemma {:induction false} SplitSuffix(prefix: string, s: string, sep: char)
    ensures |Split(s, sep)| <= |Split(prefix + s, sep)|
  {
    if prefix == "" {
      assert prefix + s == s;
    } else {
      SplitSuffix(prefix[1..], s, sep);
      assert (prefix + s)[1..] == prefix[1..] + s;
      SplitTail(prefix + s, sep);
    }
  }

  lemma SplitTail(s: string, sep: char)
    requires s != ""
    ensures |Split(s[1..], sep)| <= |Split(s, sep)|
  {
    if s[0] != sep {
      var j := IndexOf(s[1..], sep);
      SameRest(s, j);
    }
  }

  lemma SameRest(s: string, j: nat)
    requires j + 1 <= |s|
    ensures j + 1 < |s| ==> s[1..][j + 1..] == s[j + 2..]
  {
  }

  // ---- Decimal numbers ----

  predicate IsDigit(c: char) { '0' <= c <= '9' }

  predicate AllDigits(s: string) { forall i :: 0 <= i < |s| ==> IsDigit(s[i]) }

  function DigitChar(d: nat): (c: char)
    requires d < 10
    ensures IsDigit(c) && c as int == '0' as int + d
  {
    ('0' as int + d) as char
  }

  function Decimal(n: nat): (s: string)
    ensures |s| >= 1 && AllDigits(s)
  {
    if n < 10 then [DigitChar(n)] else Decimal(n / 10) + [DigitChar(n % 10)]
  }

  /** int() of a digit string. */
  function ParseDecimal(s: string): nat
    requires AllDigits(s)
  {
    if s == "" then 0 else 10 * ParseDecimal(s[..|s| - 1]) + (s[|s| - 1] as int - '0' as int)
  }

  lemma {:induction false} ParsePrinted(n: nat)
    ensures ParseDecimal(Decimal(n)) == n
  {
    if n >= 10 {
      ParsePrinted(n / 10);
      var s := Decimal(n);
      assert s[..|s| - 1] == Decimal(n / 10);
    }
  }

  /** str() of an integer. */
  function IntText(n: int): string {
    if n < 0 then "-" + Decimal(-n) else Decimal(n)
  }

  lemma IntTextInjective(m: int, n: int)
    requires IntText(m) == IntText(n)
    ensures m == n
  {
    assert !IsDigit('-');
    assert IsDigit(Decimal(if m < 0 then -m else m)[0]) && IsDigit(Decimal(if n < 0 then -n else n)[0]);
    assert m < 0 <==> IntText(m)[0] == '-';
    assert n < 0 <==> IntText(n)[0] == '-';
    var a, b := if m < 0 then -m else m, if n < 0 then -n else n;
    assert (m < 0) == (n < 0);
    assert Decimal(a) == (if m < 0 then IntText(m)[1..] else IntText(m));
    assert Decimal(b) == (if n < 0 then IntText(n)[1..] else IntText(n));
    ParsePrinted(a);
    ParsePrinted(b);
  }
}
