/** compute_fingerprint up to the digest: SHA-256 is assumed injective, so raw strings are compared. */
module Fingerprint {
  import opened Common
  import opened Strings

  /** FINGERPRINT_LINE_BUCKET */
  const LINE_BUCKET: int := 5

  function LastThree(parts: seq<string>): (r: seq<string>)
    requires |parts| >= 1
    ensures 1 <= |r| <= 3
  {
    if |parts| <= 3 then parts else parts[|parts| - 3..]
  }

  function NormaliseFile(file: string): string {
    var normalised := ReplaceChar(file, '\\', '/');
    if '/' in normalised then Join(LastThree(Split(normalised, '/')), '/') else normalised
  }

  /** The line is rounded down to its bucket; Python's // floors, as does / here for a positive divisor. */
  function RawFingerprint(tenant: string, service: string, errorType: string, file: string, line: int, crashMethod: string): string {
    tenant + ":" + (service + ":" + (errorType + ":" + (NormaliseFile(file) + ":"
    + (IntText(line / LINE_BUCKET * LINE_BUCKET) + ":" + crashMethod))))
  }

  /** The last three path components, whichever slash separates them. */
  function LastComponents(file: string): seq<string> {
    LastThree(Split(ReplaceChar(file, '\\', '/'), '/'))
  }

  lemma NormaliseIsJoin(file: string)
    ensures NormaliseFile(file) == Join(LastComponents(file), '/')
    ensures Split(NormaliseFile(file), '/') == LastComponents(file)
    ensures '\\' !in NormaliseFile(file)
  {
    var g := ReplaceChar(file, '\\', '/');
    JoinSplit(g, '/');
    SplitJoin(LastComponents(file), '/');
    NoBackslash(g);
  }

  lemma NoBackslash(g: string)
    requires '\\' !in g
    ensures '\\' !in Join(LastThree(Split(g, '/')), '/')
  {
    PartsFrom(g, '/', '\\');
    JoinFrom(LastThree(Split(g, '/')), '/', '\\');
  }

  lemma {:induction false} PartsFrom(s: string, sep: char, c: char)
    requires c !in s
    ensures SeparatorFree(Split(s, sep), c)
  {
    var i := IndexOf(s, sep);
    if i < |s| {
      PartsFrom(s[i + 1..], sep, c);
    }
  }

  lemma {:induction false} JoinFrom(parts: seq<string>, sep: char, c: char)
    requires |parts| >= 1 && SeparatorFree(parts, c) && c != sep
    ensures c !in Join(parts, sep)
  {
    if |parts| > 1 {
      JoinFrom(parts[1..], sep, c);
    }
  }

  lemma ReplaceNothing(s: string, from: char, to: char)
    requires from !in s
    ensures ReplaceChar(s, from, to) == s
  {
  }

  // ---- Normalisation ----

  lemma NormaliseIdempotent(file: string)
    ensures NormaliseFile(NormaliseFile(file)) == NormaliseFile(file)
  {
    NormaliseIsJoin(file);
    NormaliseIsJoin(NormaliseFile(file));
    ReplaceNothing(NormaliseFile(file), '\\', '/');
  }

  predicate Slash(c: char) { c == '/' || c == '\\' }

  predicate SameUpToSlashes(a: string, b: string) {
    |a| == |b| && forall i :: 0 <= i < |a| ==> a[i] == b[i] || (Slash(a[i]) && Slash(b[i]))
  }

  lemma NormaliseIgnoresSlashDirection(a: string, b: string)
    requires SameUpToSlashes(a, b)
    ensures NormaliseFile(a) == NormaliseFile(b)
  {
    assert ReplaceChar(a, '\\', '/') == ReplaceChar(b, '\\', '/');
  }

  lemma ReplaceConcat(a: string, slash: char, b: string)
    requires Slash(slash)
    ensures ReplaceChar(a + [slash] + b, '\\', '/') == ReplaceChar(a, '\\', '/') + ['/'] + ReplaceChar(b, '\\', '/')
  {
    ReplaceAppend(a + [slash], b, '\\', '/');
    ReplaceAppend(a, [slash], '\\', '/');
    assert ReplaceChar([slash], '\\', '/') == ['/'];
  }

  /** Directories in front of a path of at least three components do not matter. */
  lemma NormaliseIgnoresPrefix(prefix: string, slash: char, path: string)
    requires Slash(slash) && |Split(ReplaceChar(path, '\\', '/'), '/')| >= 3
    ensures NormaliseFile(prefix + [slash] + path) == NormaliseFile(path)
  {
    var p, q := ReplaceChar(prefix, '\\', '/'), ReplaceChar(path, '\\', '/');
    var whole := prefix + [slash] + path;
    assert LastComponents(whole) == LastComponents(path) by {
      ReplaceConcat(prefix, slash, path);
      SplitConcat(p, q, '/');
      LastThreeOfConcat(Split(p, '/'), Split(q, '/'));
    }
    NormaliseIsJoin(whole);
    NormaliseIsJoin(path);
  }

  lemma LastThreeOfConcat(a: seq<string>, b: seq<string>)
    requires |b| >= 3
    ensures LastThree(a + b) == LastThree(b)
  {
    assert (a + b)[|a + b| - 3..] == b[|b| - 3..];
  }

  /** The path component k places from the end. */
  function ComponentFromEnd(file: string, k: nat): Option<string> {
    var parts := Split(ReplaceChar(file, '\\', '/'), '/');
    if k < |parts| then Some(parts[|parts| - 1 - k]) else None
  }

  lemma LastThreeFromEnd(a: string, b: string)
    ensures LastComponents(a) == LastComponents(b) <==> forall k: nat :: k < 3 ==> ComponentFromEnd(a, k) == ComponentFromEnd(b, k)
  {
    var p, q := LastComponents(a), LastComponents(b);
    assert forall k: nat :: k < |p| ==> Some(p[|p| - 1 - k]) == ComponentFromEnd(a, k);
    assert forall k: nat :: k < |q| ==> Some(q[|q| - 1 - k]) == ComponentFromEnd(b, k);
    if forall k: nat :: k < 3 ==> ComponentFromEnd(a, k) == ComponentFromEnd(b, k) {
      assert |p| < 3 ==> ComponentFromEnd(a, |p|) == ComponentFromEnd(b, |p|);
      assert |q| < 3 ==> ComponentFromEnd(a, |q|) == ComponentFromEnd(b, |q|);
      forall i | 0 <= i < |p| ensures |p| == |q| && p[i] == q[i] {
        assert ComponentFromEnd(a, |p| - 1 - i) == ComponentFromEnd(b, |p| - 1 - i);
      }
    }
  }

  /** Two paths normalise alike exactly when they agree in each of their last three components. */
  lemma NormaliseKeepsComponents(a: string, b: string)
    ensures NormaliseFile(a) == NormaliseFile(b) <==> LastComponents(a) == LastComponents(b)
    ensures NormaliseFile(a) == NormaliseFile(b) <==> forall k: nat :: k < 3 ==> ComponentFromEnd(a, k) == ComponentFromEnd(b, k)
  {
    NormaliseIsJoin(a);
    NormaliseIsJoin(b);
    LastThreeFromEnd(a, b);
  }

  // ---- Identity ----

  lemma PeelField(f: string, rest: string, g: string, other: string)
    requires ':' !in f && ':' !in g
    ensures f + ":" + rest == g + ":" + other <==> f == g && rest == other
  {
    if f + ":" + rest == g + ":" + other {
      FirstSeparatorUnique(f, rest, g, other, ':');
    }
  }

  /**
   With no colon in tenant, service, error type and normalised file, two crashes share a fingerprint
   exactly when these, the line bucket and the method agree. The method may contain anything.
   */
  lemma SameFingerprintIffSameCrash(t1: string, s1: string, e1: string, f1: string, l1: int, m1: string,
                                    t2: string, s2: string, e2: string, f2: string, l2: int, m2: string)
    requires ':' !in t1 && ':' !in s1 && ':' !in e1 && ':' !in NormaliseFile(f1)
    requires ':' !in t2 && ':' !in s2 && ':' !in e2 && ':' !in NormaliseFile(f2)
    ensures RawFingerprint(t1, s1, e1, f1, l1, m1) == RawFingerprint(t2, s2, e2, f2, l2, m2)
            <==> && t1 == t2 && s1 == s2 && e1 == e2 && m1 == m2
                 && LastComponents(f1) == LastComponents(f2)
                 && l1 / 5 == l2 / 5
  {
    var n1, n2 := IntText(l1 / LINE_BUCKET * LINE_BUCKET), IntText(l2 / LINE_BUCKET * LINE_BUCKET);
    IntTextHasNoColon(l1 / LINE_BUCKET * LINE_BUCKET);
    IntTextHasNoColon(l2 / LINE_BUCKET * LINE_BUCKET);
    var d1, d2 := n1 + ":" + m1, n2 + ":" + m2;
    var c1, c2 := NormaliseFile(f1) + ":" + d1, NormaliseFile(f2) + ":" + d2;
    var b1, b2 := e1 + ":" + c1, e2 + ":" + c2;
    var a1, a2 := s1 + ":" + b1, s2 + ":" + b2;
    assert RawFingerprint(t1, s1, e1, f1, l1, m1) == t1 + ":" + a1;
    assert RawFingerprint(t2, s2, e2, f2, l2, m2) == t2 + ":" + a2;
    PeelField(t1, a1, t2, a2);
    PeelField(s1, b1, s2, b2);
    PeelField(e1, c1, e2, c2);
    PeelField(NormaliseFile(f1), d1, NormaliseFile(f2), d2);
    PeelField(n1, m1, n2, m2);
    NormaliseKeepsComponents(f1, f2);
    if n1 == n2 {
      IntTextInjective(l1 / LINE_BUCKET * LINE_BUCKET, l2 / LINE_BUCKET * LINE_BUCKET);
    }
  }

  lemma IntTextHasNoColon(n: int)
    ensures ':' !in IntText(n)
  {
    assert !IsDigit(':');
    assert AllDigits(Decimal(if n < 0 then -n else n));
  }

  // ---- Collisions within a tenant ----

  datatype Crash = Crash(service: string, errorType: string, file: string, line: int, crashMethod: string)
  {
    function LineText(): string { IntText(line / LINE_BUCKET * LINE_BUCKET) }

    /** What follows the tenant in the raw fingerprint. */
    function Body(): string {
      service + ":" + (errorType + ":" + (NormaliseFile(file) + ":" + (LineText() + ":" + crashMethod)))
    }
  }

  function FingerprintOf(tenant: string, c: Crash): string {
    RawFingerprint(tenant, c.service, c.errorType, c.file, c.line, c.crashMethod)
  }

  /** The same in every component the fingerprint is made of. */
  predicate SameCrash(c: Crash, d: Crash) {
    && c.service == d.service && c.errorType == d.errorType && c.crashMethod == d.crashMethod
    && LastComponents(c.file) == LastComponents(d.file) && c.line / LINE_BUCKET == d.line / LINE_BUCKET
  }

  /** What a parsed log event guarantees of its crash. */
  predicate Receivable(c: Crash) { c.service != "" && c.line >= 0 }

  /** Some other crash of the tenant gets the same fingerprint. */
  ghost predicate HasTwin(tenant: string, c: Crash) {
    exists d :: Receivable(d) && !SameCrash(c, d) && FingerprintOf(tenant, c) == FingerprintOf(tenant, d)
  }

  predicate Normalised(file: string) { '\\' !in file && |Split(file, '/')| <= 3 }

  /**
   The text before a later colon of the method could be the line of another crash, and the text
   before that the end of its file: the first token is preceded by the line, any other by a token.
   */
  ghost predicate LineAt(tokens: seq<string>, i: nat) {
    && i + 1 < |tokens|
    && (exists n: nat :: tokens[i] == IntText(n * LINE_BUCKET))
    && (i > 0 ==> Normalised(tokens[i - 1]))
  }

  /** A colon at the very start of the service does not count: the service of a twin would be empty. */
  ghost predicate Ambiguous(c: Crash)
    requires c.service != ""
  {
    || ':' in c.service[1..] || ':' in c.errorType || ':' in NormaliseFile(c.file)
    || exists i: nat :: LineAt(Split(c.crashMethod, ':'), i)
  }

  lemma NormalisedIff(file: string)
    ensures Normalised(file) <==> NormaliseFile(file) == file
  {
    NormaliseIsJoin(file);
    if Normalised(file) {
      ReplaceNothing(file, '\\', '/');
      JoinSplit(file, '/');
    }
  }

  lemma SuffixNormalised(prefix: string, file: string)
    requires Normalised(prefix + file)
    ensures Normalised(file)
  {
    SplitSuffix(prefix, file, '/');
    assert forall i :: 0 <= i < |file| ==> file[i] == (prefix + file)[|prefix| + i];
  }

  lemma SingleToken(s: string)
    ensures Split(s, ':') == [s] <==> ':' !in s
    ensures |Split(s, ':')| == 1 ==> Split(s, ':') == [s]
  {
    JoinSplit(s, ':');
  }

  lemma FingerprintIsBody(tenant: string, c: Crash, d: Crash)
    ensures FingerprintOf(tenant, c) == FingerprintOf(tenant, d) <==> c.Body() == d.Body()
  {
    var t := tenant + ":";
    assert FingerprintOf(tenant, c) == t + c.Body() && FingerprintOf(tenant, d) == t + d.Body();
    assert (t + c.Body())[|t|..] == c.Body() && (t + d.Body())[|t|..] == d.Body();
  }

  /** The tokens of a body, grouped by field. */
  function Grouped(service: seq<string>, errorType: seq<string>, file: seq<string>, line: string, crashMethod: seq<string>): seq<string> {
    service + (errorType + (file + ([line] + crashMethod)))
  }

  lemma BodyTokens(c: Crash)
    ensures Split(c.Body(), ':') == Grouped(Split(c.service, ':'), Split(c.errorType, ':'), Split(NormaliseFile(c.file), ':'),
                                            c.LineText(), Split(c.crashMethod, ':'))
  {
    var d4 := c.LineText() + ":" + c.crashMethod;
    var d3 := NormaliseFile(c.file) + ":" + d4;
    var d2 := c.errorType + ":" + d3;
    SplitConcat(c.service, d2, ':');
    SplitConcat(c.errorType, d3, ':');
    SplitConcat(NormaliseFile(c.file), d4, ':');
    SplitConcat(c.LineText(), c.crashMethod, ':');
    IntTextHasNoColon(c.line / LINE_BUCKET * LINE_BUCKET);
    SingleToken(c.LineText());
  }

  lemma GroupedAt(s2: seq<string>, e2: seq<string>, f2: seq<string>, line: string, m2: seq<string>)
    requires f2 != []
    ensures var all, k := Grouped(s2, e2, f2, line, m2), |s2| + |e2| + |f2|;
            |all| == k + 1 + |m2| && all[k - 1] == f2[|f2| - 1] && all[k] == line && all[k + 1..] == m2
  {
  }

  predicate FrontIsSingle(d: Crash) {
    ':' !in d.service && ':' !in d.errorType && ':' !in NormaliseFile(d.file)
  }

  /** A front that is not three single tokens has more, and its last one could end a file. */
  lemma FrontTokens(s2: string, e2: string, f2: string) returns (s: seq<string>, e: seq<string>, f: seq<string>)
    requires (':' in s2 || ':' in e2 || ':' in f2) && Normalised(f2)
    ensures s == Split(s2, ':') && e == Split(e2, ':') && f == Split(f2, ':')
    ensures f != [] && |s| + |e| + |f| > 3 && Normalised(f[|f| - 1])
  {
    SingleToken(s2);
    SingleToken(e2);
    SingleToken(f2);
    LastTokenNormalised(f2);
    s, e, f := Split(s2, ':'), Split(e2, ':'), Split(f2, ':');
  }

  lemma NormaliseNormalises(file: string)
    ensures Normalised(NormaliseFile(file))
  {
    NormaliseIsJoin(file);
  }

  lemma LastTokenNormalised(f: string)
    requires Normalised(f)
    ensures var tokens := Split(f, ':'); Normalised(tokens[|tokens| - 1])
  {
    JoinSplit(f, ':');
    LastOfJoin(f, Split(f, ':'));
  }

  lemma {:induction false} LastOfJoin(f: string, tokens: seq<string>)
    requires |tokens| >= 1 && f == Join(tokens, ':') && Normalised(f)
    ensures Normalised(tokens[|tokens| - 1])
    decreases |tokens|
  {
    if |tokens| > 1 {
      SuffixNormalised(tokens[0] + [':'], Join(tokens[1..], ':'));
      LastOfJoin(Join(tokens[1..], ':'), tokens[1..]);
    }
  }

  /** Equal bodies with colons after the same fields only come from the same crash. */
  lemma SameFront(c: Crash, d: Crash)
    requires FrontIsSingle(c) && FrontIsSingle(d) && c.Body() == d.Body()
    ensures SameCrash(c, d)
  {
    FingerprintIsBody("t", c, d);
    SameFingerprintIffSameCrash("t", c.service, c.errorType, c.file, c.line, c.crashMethod,
                                "t", d.service, d.errorType, d.file, d.line, d.crashMethod);
  }

  // ---- A twin for each ambiguity ----

  /** A colon inside the second of three fields can be read as the one after the first. */
  lemma ShiftColon(first: string, p: string, q: string, rest: string)
    ensures first + ":" + ((p + ":" + q) + ":" + rest) == (first + ":" + p) + ":" + (q + ":" + rest)
  {
  }

  lemma AtColon(s: string) returns (p: string, q: string)
    requires ':' in s
    ensures s == p + ":" + q && |p| < |s| && |q| < |s|
  {
    var i := IndexOf(s, ':');
    p, q := s[..i], s[i + 1..];
  }

  lemma ServiceTwin(c: Crash) returns (d: Crash)
    requires Receivable(c) && ':' in c.service[1..]
    ensures Receivable(d) && d.Body() == c.Body() && !SameCrash(c, d)
  {
    var tail, q := AtColon(c.service[1..]);
    var p := [c.service[0]] + tail;
    assert c.service == p + ":" + q;
    d := c.(service := p, errorType := q + ":" + c.errorType);
    var rest := NormaliseFile(c.file) + ":" + (c.LineText() + ":" + c.crashMethod);
    ShiftColon(p, q, c.errorType, rest);
    Reassociate(p, q, c.errorType + ":" + rest);
  }

  lemma Reassociate(p: string, q: string, rest: string)
    ensures (p + ":" + q) + ":" + rest == p + ":" + (q + ":" + rest)
  {
  }

  lemma ErrorTypeTwin(c: Crash) returns (d: Crash)
    requires Receivable(c) && ':' in c.errorType
    ensures Receivable(d) && d.Body() == c.Body() && !SameCrash(c, d)
  {
    var p, q := AtColon(c.errorType);
    d := c.(service := c.service + ":" + p, errorType := q);
    ShiftColon(c.service, p, q, NormaliseFile(c.file) + ":" + (c.LineText() + ":" + c.crashMethod));
  }

  lemma FileTwin(c: Crash) returns (d: Crash)
    requires Receivable(c) && ':' in NormaliseFile(c.file)
    ensures Receivable(d) && d.Body() == c.Body() && !SameCrash(c, d)
  {
    var f := NormaliseFile(c.file);
    var p, q := AtColon(f);
    NormaliseNormalises(c.file);
    SuffixNormalised(p + ":", q);
    NormalisedIff(q);
    d := c.(errorType := c.errorType + ":" + p, file := q);
    assert |d.errorType| > |c.errorType|;
    ShiftColon(c.errorType, p, q, c.LineText() + ":" + c.crashMethod);
  }

  lemma IntTextNormalised(n: int)
    ensures Normalised(IntText(n))
  {
    var t := IntText(n);
    assert !IsDigit('/') && !IsDigit('\\') && AllDigits(Decimal(if n < 0 then -n else n));
    assert '/' !in t;
  }

  /** The fields between service and method, with the method cut at its colons. */
  function Tokens(c: Crash): (r: seq<string>)
    ensures |r| == 3 + |Split(c.crashMethod, ':')|
  {
    [c.errorType] + ([NormaliseFile(c.file)] + ([c.LineText()] + Split(c.crashMethod, ':')))
  }

  lemma BodyJoin(c: Crash)
    ensures c.Body() == c.service + ":" + Join(Tokens(c), ':')
  {
    var m := Split(c.crashMethod, ':');
    JoinSplit(c.crashMethod, ':');
    JoinPrepend(c.LineText(), m, ':');
    JoinPrepend(NormaliseFile(c.file), [c.LineText()] + m, ':');
    JoinPrepend(c.errorType, [NormaliseFile(c.file)] + ([c.LineText()] + m), ':');
  }

  lemma JoinAround(front: seq<string>, file: string, token: string, rest: seq<string>)
    requires |front| >= 1 && |rest| >= 1
    ensures Join(front + ([file] + ([token] + rest)), ':') == Join(front, ':') + ":" + (file + ":" + (token + ":" + Join(rest, ':')))
  {
    JoinPrepend(token, rest, ':');
    JoinPrepend(file, [token] + rest, ':');
    JoinConcat(front, [file] + ([token] + rest), ':');
  }

  /** The error type of the twin takes over everything up to the token that becomes its file. */
  lemma MethodTwin(c: Crash, i: nat) returns (d: Crash)
    requires Receivable(c) && LineAt(Split(c.crashMethod, ':'), i)
    ensures Receivable(d) && d.Body() == c.Body() && !SameCrash(c, d)
  {
    BodyJoin(c);
    TokenBefore(c, i);
    TokensEnd(c);
    d := TwinFromTokens(c, i, Tokens(c), Split(c.crashMethod, ':'));
  }

  lemma TokensEnd(c: Crash)
    ensures Tokens(c)[0] == c.errorType && Tokens(c)[3..] == Split(c.crashMethod, ':')
  {
  }

  lemma TwinFromTokens(c: Crash, i: nat, all: seq<string>, m: seq<string>) returns (d: Crash)
    requires Receivable(c) && LineAt(m, i) && |all| == 3 + |m| && all[0] == c.errorType && all[3..] == m && Normalised(all[i + 2])
    ensures Receivable(d) && d.Body() == c.service + ":" + Join(all, ':') && !SameCrash(c, d)
  {
    var n: nat :| m[i] == IntText(n * LINE_BUCKET);
    var front, rest := all[..i + 2], m[i + 1..];
    d := Crash(c.service, Join(front, ':'), all[i + 2], n * LINE_BUCKET, Join(rest, ':'));
    assert d.LineText() == m[i] by { assert d.line / LINE_BUCKET == n; }
    assert !SameCrash(c, d) by { LongerJoin(c.errorType, front); }
    assert d.Body() == d.service + ":" + Join(all, ':') by {
      CutTokens(all, m, i);
      TwinBody(d, front, m[i], rest);
    }
  }

  lemma TwinBody(d: Crash, front: seq<string>, token: string, rest: seq<string>)
    requires |front| >= 1 && |rest| >= 1 && Normalised(d.file) && d.LineText() == token
    requires d.errorType == Join(front, ':') && d.crashMethod == Join(rest, ':')
    ensures d.Body() == d.service + ":" + Join(front + ([d.file] + ([token] + rest)), ':')
  {
    NormalisedIff(d.file);
    JoinAround(front, d.file, token, rest);
  }

  lemma LongerJoin(first: string, parts: seq<string>)
    requires |parts| >= 2 && parts[0] == first
    ensures |Join(parts, ':')| > |first|
  {
    assert parts == [first] + parts[1..];
    JoinPrepend(first, parts[1..], ':');
  }

  lemma TokenBefore(c: Crash, i: nat)
    requires LineAt(Split(c.crashMethod, ':'), i)
    ensures Normalised(Tokens(c)[i + 2])
  {
    if i == 0 {
      IntTextNormalised(c.line / LINE_BUCKET * LINE_BUCKET);
      assert Tokens(c)[2] == c.LineText();
    } else {
      TokensEnd(c);
      assert Tokens(c)[i + 2] == Tokens(c)[3..][i - 1];
    }
  }

  lemma CutTokens(all: seq<string>, m: seq<string>, i: nat)
    requires |all| == 3 + |m| && all[3..] == m && i + 1 < |m|
    ensures all == all[..i + 2] + ([all[i + 2]] + ([m[i]] + m[i + 1..]))
  {
    assert m[i] == all[i + 3];
  }

  // ---- The exact condition ----

  function WithoutFirst(c: Crash): Crash
    requires c.service != ""
  {
    c.(service := c.service[1..])
  }

  /** The services of twins begin alike, so their first characters can be dropped. */
  lemma DropFirst(c: Crash, d: Crash)
    requires c.service != "" && d.service != "" && c.Body() == d.Body()
    ensures WithoutFirst(c).Body() == WithoutFirst(d).Body()
    ensures SameCrash(WithoutFirst(c), WithoutFirst(d)) ==> SameCrash(c, d)
  {
    BodyTail(c);
    BodyTail(d);
    assert c.service == [c.service[0]] + c.service[1..] && d.service == [d.service[0]] + d.service[1..];
  }

  lemma BodyTail(c: Crash)
    requires c.service != ""
    ensures c.Body() == [c.service[0]] + WithoutFirst(c).Body() && c.Body()[0] == c.service[0]
    ensures c.Body()[1..] == WithoutFirst(c).Body()
  {
    var rest := ":" + (c.errorType + ":" + (NormaliseFile(c.file) + ":" + (c.LineText() + ":" + c.crashMethod)));
    assert c.Body() == c.service + rest;
    assert WithoutFirst(c).Body() == c.service[1..] + rest;
    assert (c.service + rest)[1..] == c.service[1..] + rest;
  }

  /** The tokens of a crash whose fields before the line take up more than three. */
  lemma ManyTokens(d: Crash) returns (s2: seq<string>, e2: seq<string>, f2: seq<string>, m2: seq<string>)
    requires !FrontIsSingle(d)
    ensures Split(d.Body(), ':') == Grouped(s2, e2, f2, d.LineText(), m2)
    ensures f2 != [] && m2 != [] && |s2| + |e2| + |f2| > 3 && Normalised(f2[|f2| - 1])
  {
    NormaliseNormalises(d.file);
    s2, e2, f2 := FrontTokens(d.service, d.errorType, NormaliseFile(d.file));
    m2 := Split(d.crashMethod, ':');
    BodyTokens(d);
  }

  /** Where the line stands among them. */
  lemma LineToken(d: Crash) returns (k: nat)
    requires !FrontIsSingle(d)
    ensures var all := Split(d.Body(), ':'); 4 <= k < |all| - 1 && all[k] == d.LineText() && Normalised(all[k - 1])
  {
    var s2, e2, f2, m2 := ManyTokens(d);
    GroupedAt(s2, e2, f2, d.LineText(), m2);
    k := |s2| + |e2| + |f2|;
  }

  lemma MethodTokens(c: Crash)
    requires FrontIsSingle(c)
    ensures |Split(c.Body(), ':')| == 4 + |Split(c.crashMethod, ':')| && Split(c.Body(), ':')[4..] == Split(c.crashMethod, ':')
  {
    BodyTokens(c);
    SingleToken(c.service);
    SingleToken(c.errorType);
    SingleToken(NormaliseFile(c.file));
    GroupedAt([c.service], [c.errorType], [NormaliseFile(c.file)], c.LineText(), Split(c.crashMethod, ':'));
  }

  lemma LineInTail(all: seq<string>, m: seq<string>, k: nat, bucket: nat)
    requires |all| == 4 + |m| && all[4..] == m && 4 <= k < |all| - 1
    requires all[k] == IntText(bucket * LINE_BUCKET) && Normalised(all[k - 1])
    ensures LineAt(m, k - 4)
  {
    assert m[k - 4] == all[k];
    assert k > 4 ==> m[k - 5] == all[k - 1];
  }

  lemma TwinOfSingle(c: Crash, d: Crash)
    requires FrontIsSingle(c) && c.Body() == d.Body() && !SameCrash(c, d) && d.line >= 0
    ensures exists i: nat :: LineAt(Split(c.crashMethod, ':'), i)
  {
    if FrontIsSingle(d) {
      SameFront(c, d);
    } else {
      var k := LineToken(d);
      MethodTokens(c);
      LineInTail(Split(c.Body(), ':'), Split(c.crashMethod, ':'), k, d.line / LINE_BUCKET);
    }
  }

  /**
   A crash shares its fingerprint with another crash its tenant can have exactly when its service, after
   the first character, its error type or its normalised file holds a colon, or its method holds one
   right after a token that could be a line.
   */
  lemma TwinIff(tenant: string, c: Crash)
    requires Receivable(c)
    ensures HasTwin(tenant, c) <==> Ambiguous(c)
  {
    if Ambiguous(c) {
      var d: Crash;
      if ':' in c.service[1..] { d := ServiceTwin(c); }
      else if ':' in c.errorType { d := ErrorTypeTwin(c); }
      else if ':' in NormaliseFile(c.file) { d := FileTwin(c); }
      else {
        var i: nat :| LineAt(Split(c.crashMethod, ':'), i);
        d := MethodTwin(c, i);
      }
      FingerprintIsBody(tenant, c, d);
    } else if HasTwin(tenant, c) {
      var d :| Receivable(d) && !SameCrash(c, d) && FingerprintOf(tenant, c) == FingerprintOf(tenant, d);
      FingerprintIsBody(tenant, c, d);
      DropFirst(c, d);
      TwinOfSingle(WithoutFirst(c), WithoutFirst(d));
    }
  }
}
