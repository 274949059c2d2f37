/**
 Building the Elasticsearch query of a log search, and what that query matches. All term and
 wildcard clauses address the `.keyword` sub-field of the field they name.
 */
module LogQuery {
  import opened Common
  import opened Strings

  datatype Filters = Filters(
    tenantId: string, severity: Option<string>, serviceName: Option<string>, environment: Option<string>,
    errorType: Option<string>, filePath: Option<string>, searchQuery: Option<string>, status: Option<string>,
    timeFrom: Option<string>, timeTo: Option<string>, timeWindow: Option<string>)

  datatype Doc = Doc(logId: string, timestamp: int, fields: map<string, string>)

  datatype Query =
    | Term(field: string, value: string)
    | Wildcard(field: string, pattern: string)           // case_insensitive
    | Range(gte: Option<string>, lte: Option<string>)    // on timestamp
    | Should(clauses: seq<Query>)                        // minimum_should_match 1
    | Filter(clauses: seq<Query>)

  // ---- Wildcard patterns ----

  /** Case-insensitive wildcards fold ASCII letters only. */
  function Fold(c: char): char {
    if 'A' <= c <= 'Z' then (c as int + 32) as char else c
  }

  /** Letter case aside means: equal, or the two cases of one ASCII letter. */
  lemma FoldIff(a: char, b: char)
    ensures Fold(a) == Fold(b) <==> SameLetter(a, b)
  {
  }

  /** The stretch of t from k is s up to the case of ASCII letters. */
  predicate SameStretch(t: string, s: string, k: nat) {
    k + |s| <= |t| && forall i :: 0 <= i < |s| ==> SameLetter(t[k..k + |s|][i], s[i])
  }

  lemma StretchIff(t: string, s: string, k: nat)
    ensures OccursAt(t, s, k) <==> SameStretch(t, s, k)
  {
    if k + |s| <= |t| {
      var part := t[k..k + |s|];
      forall i | 0 <= i < |s| ensures Fold(part[i]) == Fold(s[i]) <==> SameLetter(part[i], s[i]) {
        FoldIff(part[i], s[i]);
      }
    }
  }

  /** t contains s, letter case aside, exactly when some stretch of t is s up to the case of ASCII letters. */
  lemma ContainsIff(t: string, s: string)
    ensures Contains(t, s) <==> exists k: nat :: SameStretch(t, s, k)
  {
    forall k: nat ensures OccursAt(t, s, k) <==> SameStretch(t, s, k) {
      StretchIff(t, s, k);
    }
  }

  /** Equal, or the two cases of one ASCII letter. */
  predicate SameLetter(a: char, b: char) {
    a == b || ('A' <= a <= 'Z' && b as int == a as int + 32) || ('A' <= b <= 'Z' && a as int == b as int + 32)
  }

  /** Lucene wildcards: `*` any text, `?` any character, a backslash quotes what follows it. */
  predicate Matches(p: string, t: string)
    decreases |p| + |t|
  {
    if p == "" then t == ""
    else if p[0] == '*' then Matches(p[1..], t) || (t != "" && Matches(p, t[1..]))
    else if p[0] == '?' then t != "" && Matches(p[1..], t[1..])
    else if p[0] == '\\' && |p| >= 2 then t != "" && Fold(t[0]) == Fold(p[1]) && Matches(p[2..], t[1..])
    else t != "" && Fold(t[0]) == Fold(p[0]) && Matches(p[1..], t[1..])
  }

  /** replace('\\', '\\\\') */
  function Escape(s: string): string {
    if s == "" then "" else (if s[0] == '\\' then "\\\\" else [s[0]]) + Escape(s[1..])
  }

  function Around(s: string): string { "*" + Escape(s) + "*" }

  predicate SameFolded(a: string, b: string) {
    |a| == |b| && forall i :: 0 <= i < |a| ==> Fold(a[i]) == Fold(b[i])
  }

  predicate OccursAt(t: string, s: string, k: nat) {
    k + |s| <= |t| && SameFolded(t[k..k + |s|], s)
  }

  /** t contains s, letter case aside. */
  predicate Contains(t: string, s: string) {
    exists k: nat :: k <= |t| && OccursAt(t, s, k)
  }

  predicate WildcardFree(s: string) { '*' !in s && '?' !in s }

  lemma {:induction false} StarMatchesAll(t: string)
    ensures Matches("*", t)
  {
    if t != "" {
      StarMatchesAll(t[1..]);
    } else {
      assert Matches("*"[1..], t);
    }
  }

  lemma {:induction false} PrefixMatch(s: string, t: string)
    requires WildcardFree(s)
    ensures Matches(Escape(s) + "*", t) <==> |s| <= |t| && SameFolded(t[..|s|], s)
  {
    var p := Escape(s) + "*";
    if s == "" {
      assert p == "*";
      StarMatchesAll(t);
    } else {
      var rest := Escape(s[1..]) + "*";
      if s[0] == '\\' {
        assert p[2..] == rest;
      } else {
        assert p[1..] == rest;
      }
      if t != "" {
        PrefixMatch(s[1..], t[1..]);
        if |s| <= |t| {
          assert t[..|s|] == [t[0]] + t[1..][..|s| - 1];
          assert s == [s[0]] + s[1..];
        }
      }
    }
  }

  /** A leading star lets the rest match from any position. */
  lemma {:induction false} LeadingStar(p: string, t: string)
    ensures Matches("*" + p, t) <==> exists k :: 0 <= k <= |t| && Matches(p, t[k..])
  {
    assert ("*" + p)[1..] == p;
    assert t[0..] == t;
    if t != "" {
      LeadingStar(p, t[1..]);
      if exists k :: 0 <= k <= |t[1..]| && Matches(p, t[1..][k..]) {
        var k :| 0 <= k <= |t[1..]| && Matches(p, t[1..][k..]);
        assert t[1..][k..] == t[k + 1..];
      }
      if exists k :: 0 <= k <= |t| && Matches(p, t[k..]) {
        var k :| 0 <= k <= |t| && Matches(p, t[k..]);
        if k > 0 { assert t[1..][k - 1..] == t[k..]; }
      }
    }
  }

  lemma PlainPatternMeansContains(s: string, t: string)
    requires WildcardFree(s)
    ensures Matches(Around(s), t) <==> Contains(t, s)
  {
    assert Around(s) == "*" + (Escape(s) + "*");
    LeadingStar(Escape(s) + "*", t);
    forall k: nat | k <= |t| ensures Matches(Escape(s) + "*", t[k..]) <==> OccursAt(t, s, k) {
      PrefixMatch(s, t[k..]);
      if k + |s| <= |t| { assert t[k..][..|s|] == t[k..k + |s|]; }
    }
  }

  /** s with its wildcards replaced by a letter: it matches s as a pattern without containing s. */
  function Instance(s: string): (r: string)
    ensures |r| == |s|
    ensures forall i :: 0 <= i < |s| ==> r[i] == if s[i] == '*' || s[i] == '?' then 'x' else s[i]
  {
    if s == "" then "" else [if s[0] == '*' || s[0] == '?' then 'x' else s[0]] + Instance(s[1..])
  }

  lemma {:induction false} InstanceMatches(s: string)
    ensures Matches(Escape(s) + "*", Instance(s))
  {
    if s == "" {
      assert Escape(s) + "*" == "*";
      StarMatchesAll("");
    } else {
      InstanceMatches(s[1..]);
      var p, rest, t := Escape(s) + "*", Escape(s[1..]) + "*", Instance(s);
      assert t[1..] == Instance(s[1..]);
      if s[0] == '\\' {
        assert p[2..] == rest;
      } else {
        assert p[1..] == rest;
      }
    }
  }

  /** The built pattern means "contains the text" exactly for texts without wildcard characters. */
  lemma PatternMeansContainsIff(s: string)
    ensures (forall t :: Matches(Around(s), t) <==> Contains(t, s)) <==> WildcardFree(s)
  {
    if WildcardFree(s) {
      forall t ensures Matches(Around(s), t) <==> Contains(t, s) {
        PlainPatternMeansContains(s, t);
      }
    } else {
      var t := Instance(s);
      InstanceMatches(s);
      assert Around(s) == "*" + (Escape(s) + "*");
      LeadingStar(Escape(s) + "*", t);
      assert t[0..] == t;
      var i := if '*' in s then IndexOf(s, '*') else IndexOf(s, '?');
      assert Fold(t[i]) != Fold(s[i]);
      assert t[0..0 + |s|] == t;
      assert !OccursAt(t, s, 0);
      assert forall k: nat :: OccursAt(t, s, k) ==> k == 0;
    }
  }

  // ---- The pasted line number ----

  function TrailingDigits(s: string): (n: nat)
    ensures n <= |s| && forall i :: |s| - n <= i < |s| ==> IsDigit(s[i])
    ensures n < |s| ==> !IsDigit(s[|s| - n - 1])
  {
    if s == "" || !IsDigit(s[|s| - 1]) then 0 else TrailingDigits(s[..|s| - 1]) + 1
  }

  /** re.sub(r':\d+$', '', s) on a stripped string */
  function DropLineNumber(s: string): string {
    var n := TrailingDigits(s);
    if 1 <= n < |s| && s[|s| - n - 1] == ':' then s[..|s| - n - 1] else s
  }

  /** r is s without a final colon and line number. */
  ghost predicate WithoutLine(s: string, r: string) {
    exists d :: d != "" && AllDigits(d) && s == r + ":" + d
  }

  lemma TrailingDigitsOf(s: string, r: string, d: string)
    requires d != "" && AllDigits(d) && s == r + ":" + d
    ensures TrailingDigits(s) == |d| && DropLineNumber(s) == r
  {
    var n, m := TrailingDigits(s), |d|;
    assert s[|s| - m - 1] == ':' && !IsDigit(':');
    assert forall i :: |s| - m <= i < |s| ==> s[i] == d[i - (|s| - m)];
    assert n == m;
    assert s[..|s| - m - 1] == r;
  }

  lemma DropLineNumberSpec(s: string, r: string)
    ensures WithoutLine(s, r) ==> DropLineNumber(s) == r
    ensures (forall q :: !WithoutLine(s, q)) ==> DropLineNumber(s) == s
    ensures DropLineNumber(s) != s ==> WithoutLine(s, DropLineNumber(s))
  {
    if DropLineNumber(s) != s {
      assert s == DropLineNumber(s) + ":" + s[|s| - TrailingDigits(s)..];
      assert WithoutLine(s, DropLineNumber(s));
    }
    if WithoutLine(s, r) {
      var d :| d != "" && AllDigits(d) && s == r + ":" + d;
      TrailingDigitsOf(s, r, d);
    }
  }

  // ---- Python truth and strip ----

  predicate Given(o: Option<string>) { o.Some? && o.value != "" }

  predicate IsSpace(c: char) { c == ' ' || ('\t' <= c <= '\r') || ('\U{1c}' <= c <= '\U{1f}') }

  function StripLeft(s: string): string {
    if s != "" && IsSpace(s[0]) then StripLeft(s[1..]) else s
  }

  function StripRight(s: string): string {
    if s != "" && IsSpace(s[|s| - 1]) then StripRight(s[..|s| - 1]) else s
  }

  function Strip(s: string): string { StripRight(StripLeft(s)) }

  predicate AllSpace(s: string) { forall i :: 0 <= i < |s| ==> IsSpace(s[i]) }

  /** The ASCII characters str.strip() removes. */
  lemma WhiteSpace(c: char)
    ensures IsSpace(c) <==> (c as int) in {9, 10, 11, 12, 13, 28, 29, 30, 31, 32}
  {
  }

  lemma SpaceCons(c: char, l: string, kept: string)
    requires IsSpace(c) && AllSpace(l)
    ensures AllSpace([c] + l) && [c] + (l + kept) == ([c] + l) + kept
  {
  }

  lemma SpaceSnoc(kept: string, r: string, c: char)
    requires IsSpace(c) && AllSpace(r)
    ensures AllSpace(r + [c]) && (kept + r) + [c] == kept + (r + [c])
  {
  }

  lemma {:induction false} StripLeftSpec(s: string) returns (l: string)
    ensures AllSpace(l) && s == l + StripLeft(s)
    ensures StripLeft(s) != "" ==> !IsSpace(StripLeft(s)[0])
  {
    if s != "" && IsSpace(s[0]) {
      l := StripLeftSpec(s[1..]);
      SpaceCons(s[0], l, StripLeft(s));
      l := [s[0]] + l;
    } else {
      l := "";
    }
  }

  lemma {:induction false} StripRightSpec(s: string) returns (r: string)
    ensures AllSpace(r) && s == StripRight(s) + r
    ensures StripRight(s) != "" ==> !IsSpace(StripRight(s)[|StripRight(s)| - 1])
  {
    var n := |s| - 1;
    if s != "" && IsSpace(s[n]) {
      r := StripRightSpec(s[..n]);
      SpaceSnoc(StripRight(s), r, s[n]);
      r := r + [s[n]];
    } else {
      r := "";
    }
  }

  /** Only white space is removed, and none is left at either end. */
  lemma StripSpec(s: string)
    ensures exists l, r :: AllSpace(l) && AllSpace(r) && s == l + Strip(s) + r
    ensures Strip(s) != "" ==>
              && (Strip(s)[0] as int) !in {9, 10, 11, 12, 13, 28, 29, 30, 31, 32}
              && (Strip(s)[|Strip(s)| - 1] as int) !in {9, 10, 11, 12, 13, 28, 29, 30, 31, 32}
    ensures Strip(s) != "" ==> !IsSpace(Strip(s)[0]) && !IsSpace(Strip(s)[|Strip(s)| - 1])
  {
    var l := StripLeftSpec(s);
    var r := StripRightSpec(StripLeft(s));
    assert s == l + Strip(s) + r;
    if Strip(s) != "" {
      WhiteSpace(Strip(s)[0]);
      WhiteSpace(Strip(s)[|Strip(s)| - 1]);
      assert Strip(s)[0] == StripLeft(s)[0];
    }
  }

  // ---- Building ----

  function ExactFields(f: Filters): seq<(string, Option<string>)> {
    [("severity", f.severity), ("service_name", f.serviceName), ("environment", f.environment),
     ("error_type", f.errorType), ("file_path", f.filePath), ("status", f.status)]
  }

  function FieldClauses(fields: seq<(string, Option<string>)>): seq<Query> {
    if fields == [] then []
    else
      var f := fields[|fields| - 1];
      FieldClauses(fields[..|fields| - 1]) + if Given(f.1) then [Term(f.0, Strip(f.1.value))] else []
  }

  function SearchClauses(text: Option<string>): seq<Query> {
    if !Given(text) then []
    else
      var raw := Strip(text.value);
      [Should([Wildcard("file_path", Around(DropLineNumber(raw))), Wildcard("error_type", Around(raw))])]
  }

  /** The preset window takes precedence over explicit bounds. */
  function TimeClauses(f: Filters): seq<Query> {
    if Given(f.timeWindow) then [Range(Some("now-" + f.timeWindow.value), Some("now"))]
    else if Given(f.timeFrom) || Given(f.timeTo) then
      [Range(if Given(f.timeFrom) then f.timeFrom else None, if Given(f.timeTo) then f.timeTo else None)]
    else []
  }

  function QueryFor(f: Filters): Query {
    Filter([Term("tenant_id", f.tenantId)] + FieldClauses(ExactFields(f)) + SearchClauses(f.searchQuery) + TimeClauses(f))
  }

  method BuildTimeRange(f: Filters) returns (r: Option<Query>)
    ensures TimeClauses(f) == if r.Some? then [r.value] else []
  {
    if Given(f.timeWindow) {
      return Some(Range(Some("now-" + f.timeWindow.value), Some("now")));
    }
    var gte: Option<string>, lte: Option<string> := None, None;
    if Given(f.timeFrom) { gte := f.timeFrom; }
    if Given(f.timeTo) { lte := f.timeTo; }
    return if gte.Some? || lte.Some? then Some(Range(gte, lte)) else None;
  }

  method BuildQuery(f: Filters) returns (q: Query)
    ensures q == QueryFor(f)
  {
    var clauses := [Term("tenant_id", f.tenantId)];
    var fields := ExactFields(f);
    for i := 0 to |fields|
      invariant clauses == [Term("tenant_id", f.tenantId)] + FieldClauses(fields[..i])
    {
      if Given(fields[i].1) {
        clauses := clauses + [Term(fields[i].0, Strip(fields[i].1.value))];
      }
      assert fields[..i + 1][..i] == fields[..i];
    }
    assert fields[..|fields|] == fields;
    if Given(f.searchQuery) {
      var raw := Strip(f.searchQuery.value);
      var escaped := Escape(raw);
      var fileEscaped := Escape(DropLineNumber(raw));
      clauses := clauses + [Should([Wildcard("file_path", "*" + fileEscaped + "*"), Wildcard("error_type", "*" + escaped + "*")])];
    }
    var timeRange := BuildTimeRange(f);
    if timeRange.Some? {
      clauses := clauses + [timeRange.value];
    }
    return Filter(clauses);
  }

  // ---- Meaning ----

  predicate FieldIs(doc: Doc, field: string, value: string) {
    field in doc.fields && doc.fields[field] == value
  }

  /** A date that leaves out its smaller units stands for their first moment in gte, for the last in lte. */
  datatype Bound = Gte | Lte

  /** Which documents Elasticsearch returns for a query; `date` resolves ISO strings and date math. */
  predicate Eval(q: Query, doc: Doc, date: (string, Bound) -> int)
    decreases q
  {
    match q
    case Term(field, value) => FieldIs(doc, field, value)
    case Wildcard(field, pattern) => field in doc.fields && Matches(pattern, doc.fields[field])
    case Range(gte, lte) => (gte.Some? ==> date(gte.value, Gte) <= doc.timestamp) && (lte.Some? ==> doc.timestamp <= date(lte.value, Lte))
    case Should(clauses) => exists c :: c in clauses && Eval(c, doc, date)
    case Filter(clauses) => forall c :: c in clauses ==> Eval(c, doc, date)
  }

  predicate ExactFilterHolds(f: (string, Option<string>), doc: Doc) {
    Given(f.1) ==> FieldIs(doc, f.0, Strip(f.1.value))
  }

  predicate SearchHolds(text: string, doc: Doc) {
    var raw := Strip(text);
    || ("file_path" in doc.fields && Matches(Around(DropLineNumber(raw)), doc.fields["file_path"]))
    || ("error_type" in doc.fields && Matches(Around(raw), doc.fields["error_type"]))
  }

  predicate TimeHolds(f: Filters, t: int, date: (string, Bound) -> int) {
    if Given(f.timeWindow) then date("now-" + f.timeWindow.value, Gte) <= t <= date("now", Lte)
    else (Given(f.timeFrom) ==> date(f.timeFrom.value, Gte) <= t) && (Given(f.timeTo) ==> t <= date(f.timeTo.value, Lte))
  }

  /** What the filters ask for. */
  predicate Wanted(f: Filters, doc: Doc, date: (string, Bound) -> int) {
    && FieldIs(doc, "tenant_id", f.tenantId)
    && ExactFilterHolds(("severity", f.severity), doc)
    && ExactFilterHolds(("service_name", f.serviceName), doc)
    && ExactFilterHolds(("environment", f.environment), doc)
    && ExactFilterHolds(("error_type", f.errorType), doc)
    && ExactFilterHolds(("file_path", f.filePath), doc)
    && ExactFilterHolds(("status", f.status), doc)
    && (Given(f.searchQuery) ==> SearchHolds(f.searchQuery.value, doc))
    && TimeHolds(f, doc.timestamp, date)
  }

  predicate AllHold(clauses: seq<Query>, doc: Doc, date: (string, Bound) -> int) {
    forall c :: c in clauses ==> Eval(c, doc, date)
  }

  lemma AllHoldConcat(a: seq<Query>, b: seq<Query>, doc: Doc, date: (string, Bound) -> int)
    ensures AllHold(a + b, doc, date) <==> AllHold(a, doc, date) && AllHold(b, doc, date)
  {
    assert forall c :: c in a + b <==> c in a || c in b;
  }

  lemma {:induction false} FieldClausesMean(fields: seq<(string, Option<string>)>, doc: Doc, date: (string, Bound) -> int)
    ensures AllHold(FieldClauses(fields), doc, date) <==> forall i :: 0 <= i < |fields| ==> ExactFilterHolds(fields[i], doc)
  {
    if fields != [] {
      var n := |fields| - 1;
      FieldClausesMean(fields[..n], doc, date);
      var last := if Given(fields[n].1) then [Term(fields[n].0, Strip(fields[n].1.value))] else [];
      AllHoldConcat(FieldClauses(fields[..n]), last, doc, date);
      assert last != [] ==> last[0] in last;
      assert AllHold(last, doc, date) <==> ExactFilterHolds(fields[n], doc);
      assert forall i :: 0 <= i < n ==> fields[..n][i] == fields[i];
    }
  }

  lemma EitherHolds(p: Query, q: Query, doc: Doc, date: (string, Bound) -> int)
    ensures AllHold([Should([p, q])], doc, date) <==> Eval(p, doc, date) || Eval(q, doc, date)
  {
    assert p in [p, q] && q in [p, q];
    var should := Should([p, q]);
    assert should in [should];
    assert Eval(should, doc, date) <==> Eval(p, doc, date) || Eval(q, doc, date);
  }

  lemma SearchClausesMean(text: Option<string>, doc: Doc, date: (string, Bound) -> int)
    ensures AllHold(SearchClauses(text), doc, date) <==> (Given(text) ==> SearchHolds(text.value, doc))
  {
    if Given(text) {
      var raw := Strip(text.value);
      EitherHolds(Wildcard("file_path", Around(DropLineNumber(raw))), Wildcard("error_type", Around(raw)), doc, date);
    }
  }

  lemma TimeClausesMean(f: Filters, doc: Doc, date: (string, Bound) -> int)
    ensures AllHold(TimeClauses(f), doc, date) <==> TimeHolds(f, doc.timestamp, date)
  {
    if Given(f.timeWindow) || Given(f.timeFrom) || Given(f.timeTo) {
      assert TimeClauses(f)[0] in TimeClauses(f);
    }
  }

  /** The built query matches exactly the documents the filters ask for, always within the tenant. */
  lemma QueryMeansFilters(f: Filters, doc: Doc, date: (string, Bound) -> int)
    ensures Eval(QueryFor(f), doc, date) <==> Wanted(f, doc, date)
  {
    var tenant := [Term("tenant_id", f.tenantId)];
    var fields := ExactFields(f);
    AllHoldConcat(tenant + FieldClauses(fields) + SearchClauses(f.searchQuery), TimeClauses(f), doc, date);
    AllHoldConcat(tenant + FieldClauses(fields), SearchClauses(f.searchQuery), doc, date);
    AllHoldConcat(tenant, FieldClauses(fields), doc, date);
    assert tenant[0] in tenant;
    FieldClausesMean(fields, doc, date);
    SearchClausesMean(f.searchQuery, doc, date);
    TimeClausesMean(f, doc, date);
    assert (forall i :: 0 <= i < |fields| ==> ExactFilterHolds(fields[i], doc)) <==>
      ExactFilterHolds(fields[0], doc) && ExactFilterHolds(fields[1], doc) && ExactFilterHolds(fields[2], doc)
      && ExactFilterHolds(fields[3], doc) && ExactFilterHolds(fields[4], doc) && ExactFilterHolds(fields[5], doc);
  }

  /** For plain text the search clause asks for it in the error type, or in the path without a pasted line number. */
  lemma PlainSearchMeansContains(text: string, doc: Doc)
    requires WildcardFree(Strip(text))
    ensures SearchHolds(text, doc) <==>
              || ("file_path" in doc.fields && Contains(doc.fields["file_path"], DropLineNumber(Strip(text))))
              || ("error_type" in doc.fields && Contains(doc.fields["error_type"], Strip(text)))
  {
    var raw := Strip(text);
    if "file_path" in doc.fields {
      PlainPatternMeansContains(DropLineNumber(raw), doc.fields["file_path"]);
    }
    if "error_type" in doc.fields {
      PlainPatternMeansContains(raw, doc.fields["error_type"]);
    }
  }
}
