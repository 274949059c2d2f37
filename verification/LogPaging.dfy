/**
 Keyset pagination of the log search: newest first, log_id as tie-breaker, each page asking for the
 documents after the sort values of the last hit of the page before.
 */
module LogPaging {
  import opened Common
  import opened LogQuery

  // ---- The sort order ----

  /** Strings compare by character code, as keyword fields do. */
  predicate StrLess(a: string, b: string) {
    b != "" && (a == "" || a[0] < b[0] || (a[0] == b[0] && StrLess(a[1..], b[1..])))
  }

  lemma {:induction false} StrLessTotal(a: string, b: string)
    ensures a == b || StrLess(a, b) || StrLess(b, a)
    ensures !(StrLess(a, b) && StrLess(b, a)) && (StrLess(a, b) ==> a != b)
  {
    if a != "" && b != "" {
      StrLessTotal(a[1..], b[1..]);
      assert a == [a[0]] + a[1..] && b == [b[0]] + b[1..];
    }
  }

  lemma {:induction false} StrLessTransitive(a: string, b: string, c: string)
    requires StrLess(a, b) && StrLess(b, c)
    ensures StrLess(a, c)
  {
    if a != "" && a[0] == b[0] == c[0] {
      StrLessTransitive(a[1..], b[1..], c[1..]);
    }
  }

  /** The sort values of a hit, which are also the cursor for the next page. */
  datatype Cursor = Cursor(timestamp: int, logId: string)

  function SortValues(d: Doc): Cursor { Cursor(d.timestamp, d.logId) }

  /** timestamp descending, then log_id ascending */
  predicate Before(a: Cursor, b: Cursor) {
    a.timestamp > b.timestamp || (a.timestamp == b.timestamp && StrLess(a.logId, b.logId))
  }

  lemma BeforeTransitive(a: Cursor, b: Cursor, c: Cursor)
    requires Before(a, b) && Before(b, c)
    ensures Before(a, c)
  {
    if a.timestamp == b.timestamp == c.timestamp {
      StrLessTransitive(a.logId, b.logId, c.logId);
    }
  }

  lemma BeforeTotal(a: Cursor, b: Cursor)
    ensures a == b || Before(a, b) || Before(b, a)
    ensures !(Before(a, b) && Before(b, a)) && !Before(a, a)
  {
    StrLessTotal(a.logId, b.logId);
    StrLessTotal(a.logId, a.logId);
  }

  predicate Sorted(ds: seq<Doc>) {
    forall i, j :: 0 <= i < j < |ds| ==> Before(SortValues(ds[i]), SortValues(ds[j]))
  }

  predicate UniqueIds(ds: seq<Doc>) {
    forall i, j :: 0 <= i < |ds| && 0 <= j < |ds| && ds[i].logId == ds[j].logId ==> i == j
  }

  /** Before position k the strings agree, and there a has the smaller character or has just ended. */
  predicate SmallerAt(a: string, b: string, k: nat) {
    && k <= |a| && k < |b| && (forall i :: 0 <= i < k ==> a[i] == b[i])
    && (k == |a| || a[k] < b[k])
  }

  lemma SmallerAtNext(a: string, b: string, k: nat)
    requires a != "" && b != ""
    ensures SmallerAt(a, b, k + 1) <==> a[0] == b[0] && SmallerAt(a[1..], b[1..], k)
  {
    if a[0] == b[0] && SmallerAt(a[1..], b[1..], k) {
      forall i | 0 <= i < k + 1 ensures a[i] == b[i] {
        if i > 0 { assert a[1..][i - 1] == b[1..][i - 1]; }
      }
    }
  }

  /** Strings are ordered by their first difference, a proper prefix before what it begins. */
  lemma {:induction false} StrLessIff(a: string, b: string)
    ensures StrLess(a, b) <==> exists k: nat :: SmallerAt(a, b, k)
  {
    if b != "" && (a == "" || a[0] < b[0]) {
      assert SmallerAt(a, b, 0);
    } else if a != "" && b != "" {
      StrLessIff(a[1..], b[1..]);
      if StrLess(a, b) {
        var k: nat :| SmallerAt(a[1..], b[1..], k);
        SmallerAtNext(a, b, k);
      }
      if k: nat :| SmallerAt(a, b, k) {
        assert !SmallerAt(a, b, 0);
        SmallerAtNext(a, b, k - 1);
      }
    }
  }

  /** Sorted documents come newest first; among equal timestamps the smaller log_id comes first. */
  lemma NewestFirst(ds: seq<Doc>, i: nat, j: nat)
    requires Sorted(ds) && i < j < |ds|
    ensures ds[i].timestamp >= ds[j].timestamp
    ensures ds[i].timestamp == ds[j].timestamp ==>
              exists k: nat :: SmallerAt(ds[i].logId, ds[j].logId, k)
  {
    StrLessIff(ds[i].logId, ds[j].logId);
  }

  // ---- The server ----

  /** ds with d put before the first document that sorts after it. */
  function Insert(d: Doc, ds: seq<Doc>): seq<Doc> {
    if ds == [] then [d]
    else if Before(SortValues(d), SortValues(ds[0])) then [d] + ds
    else [ds[0]] + Insert(d, ds[1..])
  }

  /** The documents of the index that match, in sort order. */
  function Hits(index: seq<Doc>, matching: Doc -> bool): seq<Doc> {
    if index == [] then []
    else
      var rest := Hits(index[1..], matching);
      if matching(index[0]) then Insert(index[0], rest) else rest
  }

  function After(cursor: Option<Cursor>, ds: seq<Doc>): seq<Doc> {
    if ds == [] then []
    else if cursor.Some? && !Before(cursor.value, SortValues(ds[0])) then After(cursor, ds[1..])
    else [ds[0]] + After(cursor, ds[1..])
  }

  /** Elasticsearch: sort, search_after, size. */
  function Page(index: seq<Doc>, matching: Doc -> bool, cursor: Option<Cursor>, size: nat): seq<Doc> {
    var ds := After(cursor, Hits(index, matching));
    if |ds| <= size then ds else ds[..size]
  }

  // ---- The repository ----

  datatype Request = Request(filters: Filters, pageSize: nat, searchAfter: Option<Cursor>)

  datatype Response = Response(hits: seq<Doc>, total: nat, next: Option<Cursor>)

  datatype Body = Body(query: Query, size: nat, searchAfter: Option<Cursor>)

  function PageLimit(pageSize: nat): nat { if pageSize < 200 then pageSize else 200 }

  function Next(page: seq<Doc>): Option<Cursor> {
    if page == [] then None else Some(SortValues(page[|page| - 1]))
  }

  class LogSearchRepository {
    /** The tenant's index, if it exists. */
    var index: Option<seq<Doc>>

    method Execute(body: Body, date: (string, Bound) -> int) returns (r: Option<(seq<Doc>, nat)>)
      ensures r.None? <==> index.None?
      ensures r.Some? ==> var matching := (d: Doc) => Eval(body.query, d, date);
                          && r.value.0 == Page(index.value, matching, body.searchAfter, body.size)
                          && r.value.1 == |Hits(index.value, matching)|
    {
      if index.None? { return None; }
      var matching := (d: Doc) => Eval(body.query, d, date);
      return Some((Page(index.value, matching, body.searchAfter, body.size), |Hits(index.value, matching)|));
    }

    method Search(request: Request, date: (string, Bound) -> int) returns (r: Response)
      ensures index.None? ==> r == Response([], 0, None)
      ensures index.Some? ==>
                var matching := (d: Doc) => Eval(QueryFor(request.filters), d, date);
                && r.hits == Page(index.value, matching, request.searchAfter, PageLimit(request.pageSize))
                && r.total == |Hits(index.value, matching)|
                && r.next == Next(r.hits)
      ensures |r.hits| <= request.pageSize && |r.hits| <= 200
      ensures index.Some? ==>
                var ahead := |After(request.searchAfter, Hits(index.value, (d: Doc) => Eval(QueryFor(request.filters), d, date)))|;
                && |r.hits| <= ahead
                && (|r.hits| == request.pageSize || |r.hits| == 200 || |r.hits| == ahead)
      ensures r.hits == [] ==> r.next.None?
      ensures r.hits != [] ==> r.next == Some(Cursor(r.hits[|r.hits| - 1].timestamp, r.hits[|r.hits| - 1].logId))
    {
      var query := BuildQuery(request.filters);
      var body := Body(query, if request.pageSize < 200 then request.pageSize else 200, None);
      if request.searchAfter.Some? {
        body := body.(searchAfter := request.searchAfter);
      }
      var response := Execute(body, date);
      if response.None? {
        return Response([], 0, None);
      }
      var (hits, total) := response.value;
      var cursor := if hits != [] then Some(SortValues(hits[|hits| - 1])) else None;
      return Response(hits, total, cursor);
    }
  }

  // ---- What one page holds ----

  lemma {:induction false} InsertSorts(d: Doc, ds: seq<Doc>)
    requires Sorted(ds) && forall i :: 0 <= i < |ds| ==> ds[i].logId != d.logId
    ensures Sorted(Insert(d, ds))
    ensures forall x :: x in Insert(d, ds) <==> x == d || x in ds
  {
    if ds != [] && !Before(SortValues(d), SortValues(ds[0])) {
      BeforeTotal(SortValues(d), SortValues(ds[0]));
      InsertSorts(d, ds[1..]);
      assert ds == [ds[0]] + ds[1..];
      var r := Insert(d, ds[1..]);
      forall j | 0 <= j < |r| ensures Before(SortValues(ds[0]), SortValues(r[j])) {
        assert r[j] in r;
        if r[j] != d {
          var i :| 0 <= i < |ds[1..]| && ds[1..][i] == r[j];
          assert ds[i + 1] == r[j];
        }
      }
    } else if ds != [] {
      forall j | 0 <= j < |ds| ensures Before(SortValues(d), SortValues(ds[j])) {
        if j > 0 { BeforeTransitive(SortValues(d), SortValues(ds[0]), SortValues(ds[j])); }
      }
    }
  }

  lemma {:induction false} HitsSorted(index: seq<Doc>, matching: Doc -> bool)
    requires UniqueIds(index)
    ensures Sorted(Hits(index, matching))
    ensures forall x :: x in Hits(index, matching) <==> x in index && matching(x)
  {
    if index != [] {
      HitsSorted(index[1..], matching);
      assert index == [index[0]] + index[1..];
      var rest := Hits(index[1..], matching);
      if matching(index[0]) {
        forall i | 0 <= i < |rest| ensures rest[i].logId != index[0].logId {
          assert rest[i] in index[1..];
          var j :| 0 <= j < |index[1..]| && index[1..][j] == rest[i];
          assert index[j + 1] == rest[i];
        }
        InsertSorts(index[0], rest);
      }
    }
  }

  lemma {:induction false} AfterSpec(cursor: Option<Cursor>, ds: seq<Doc>)
    requires Sorted(ds)
    ensures Sorted(After(cursor, ds))
    ensures forall x :: x in After(cursor, ds) <==> x in ds && (cursor.Some? ==> Before(cursor.value, SortValues(x)))
  {
    if ds != [] {
      AfterSpec(cursor, ds[1..]);
      assert ds == [ds[0]] + ds[1..];
      var rest := After(cursor, ds[1..]);
      forall j | 0 <= j < |rest| ensures Before(SortValues(ds[0]), SortValues(rest[j])) {
        assert rest[j] in ds[1..];
        var i :| 0 <= i < |ds[1..]| && ds[1..][i] == rest[j];
        assert ds[i + 1] == rest[j];
      }
    }
  }

  /** Still to come after this cursor. */
  predicate Pending(d: Doc, cursor: Option<Cursor>) {
    cursor.Some? ==> Before(cursor.value, SortValues(d))
  }

  /**
   A page is sorted, holds only pending matches, and skips none: a pending match is on the page, or
   the page is not empty and the document is pending after it.
   */
  lemma PageSpec(index: seq<Doc>, matching: Doc -> bool, cursor: Option<Cursor>, size: nat)
    requires UniqueIds(index) && size >= 1
    ensures var page := Page(index, matching, cursor, size);
            && Sorted(page) && |page| <= size
            && (forall x :: x in page ==> x in index && matching(x) && Pending(x, cursor))
            && (forall x :: x in index && matching(x) && Pending(x, cursor) ==>
                  x in page || (page != [] && Pending(x, Next(page))))
  {
    HitsSorted(index, matching);
    var hits := Hits(index, matching);
    AfterSpec(cursor, hits);
    var ds := After(cursor, hits);
    var page := Page(index, matching, cursor, size);
    forall x | x in ds ensures x in page || (page != [] && Pending(x, Next(page))) {
      var i :| 0 <= i < |ds| && ds[i] == x;
      if i < |page| { assert page[i] == x; }
    }
  }

  // ---- Following the cursor ----

  function Concat(pages: seq<seq<Doc>>): seq<Doc> {
    if pages == [] then [] else Concat(pages[..|pages| - 1]) + pages[|pages| - 1]
  }

  function CursorBefore(pages: seq<seq<Doc>>, k: nat): Option<Cursor>
    requires k <= |pages|
  {
    if k == 0 then None else Next(pages[k - 1])
  }

  /** Page k was served from snapshots[k] of the index. */
  predicate Served(snapshots: seq<seq<Doc>>, matching: Doc -> bool, size: nat, pages: seq<seq<Doc>>, k: nat)
    requires |pages| == |snapshots| && k < |pages|
  {
    pages[k] == Page(snapshots[k], matching, CursorBefore(pages, k), size)
  }

  /** Every page was served from its snapshot, and every page but the last gave a cursor. */
  predicate Walk(snapshots: seq<seq<Doc>>, matching: Doc -> bool, size: nat, pages: seq<seq<Doc>>) {
    && |pages| == |snapshots|
    && (forall k :: 0 <= k < |pages| ==> Served(snapshots, matching, size, pages, k))
    && (forall k :: 0 <= k < |pages| - 1 ==> pages[k] != [])
  }

  predicate Extends(a: seq<Doc>, b: seq<Doc>) {
    forall x :: x in a ==> x in b
  }

  /** Documents are only added between requests, always under fresh log_ids. */
  predicate Growing(snapshots: seq<seq<Doc>>) {
    && (forall k :: 0 <= k < |snapshots| ==> UniqueIds(snapshots[k]))
    && (forall j, k :: 0 <= j <= k < |snapshots| ==> Extends(snapshots[j], snapshots[k]))
  }

  predicate InPlace(pages: seq<seq<Doc>>, k: nat)
    requires k < |pages|
  {
    Sorted(pages[k]) && AllPending(pages[k], CursorBefore(pages, k))
  }

  /** Each page is sorted and lies after the page before it. */
  predicate InOrder(pages: seq<seq<Doc>>) {
    (forall k :: 0 <= k < |pages| ==> InPlace(pages, k)) && (forall k :: 0 <= k < |pages| - 1 ==> pages[k] != [])
  }

  predicate AllPending(ds: seq<Doc>, cursor: Option<Cursor>) {
    forall x :: x in ds ==> Pending(x, cursor)
  }

  /** Pages in order are strictly sorted together, so no document comes twice. */
  lemma {:induction false} ConcatIsSorted(pages: seq<seq<Doc>>, k: nat)
    requires InOrder(pages) && k <= |pages|
    ensures Sorted(Concat(pages[..k]))
    ensures k > 0 && pages[k - 1] != [] ==> Next(Concat(pages[..k])) == Next(pages[k - 1])
  {
    if k > 0 {
      ConcatIsSorted(pages, k - 1);
      ConcatPrefix(pages, k);
      assert InPlace(pages, k - 1);
      assert k == 1 ==> pages[..0] == [];
      SortedConcat(Concat(pages[..k - 1]), pages[k - 1]);
    }
  }

  lemma ConcatPrefix(pages: seq<seq<Doc>>, k: nat)
    requires 0 < k <= |pages|
    ensures Concat(pages[..k]) == Concat(pages[..k - 1]) + pages[k - 1]
    ensures pages[k - 1] != [] ==> Next(Concat(pages[..k])) == Next(pages[k - 1])
  {
    assert pages[..k][..k - 1] == pages[..k - 1];
  }

  lemma WalkIsInOrder(snapshots: seq<seq<Doc>>, matching: Doc -> bool, size: nat, pages: seq<seq<Doc>>)
    requires Growing(snapshots) && size >= 1 && Walk(snapshots, matching, size, pages)
    ensures InOrder(pages)
  {
    forall k | 0 <= k < |pages| ensures InPlace(pages, k) {
      assert Served(snapshots, matching, size, pages, k);
      PageIsSortedAfter(snapshots[k], matching, CursorBefore(pages, k), size);
    }
  }

  lemma PageIsSortedAfter(index: seq<Doc>, matching: Doc -> bool, cursor: Option<Cursor>, size: nat)
    requires UniqueIds(index) && size >= 1
    ensures Sorted(Page(index, matching, cursor, size))
    ensures AllPending(Page(index, matching, cursor, size), cursor)
  {
    PageSpec(index, matching, cursor, size);
  }

  lemma SortedConcat(a: seq<Doc>, b: seq<Doc>)
    requires Sorted(a) && Sorted(b)
    requires AllPending(b, Next(a))
    ensures Sorted(a + b)
    ensures b != [] ==> a + b != [] && Next(a + b) == Next(b)
  {
    forall i, j | 0 <= i < |a| && 0 <= j < |b| ensures Before(SortValues(a[i]), SortValues(b[j])) {
      assert b[j] in b;
      var last := SortValues(a[|a| - 1]);
      if i < |a| - 1 { BeforeTransitive(SortValues(a[i]), last, SortValues(b[j])); }
    }
  }

  /** After k pages each match present at the start has been returned or is still ahead of the cursor. */
  lemma {:induction false} NothingSkipped(snapshots: seq<seq<Doc>>, matching: Doc -> bool, size: nat, pages: seq<seq<Doc>>, x: Doc, k: nat)
    requires Growing(snapshots) && size >= 1 && Walk(snapshots, matching, size, pages) && k <= |pages| && |pages| >= 1
    requires x in snapshots[0] && matching(x)
    ensures x in Concat(pages[..k]) || (Pending(x, CursorBefore(pages, k)) && (k > 0 ==> pages[k - 1] != []))
  {
    if k > 0 {
      NothingSkipped(snapshots, matching, size, pages, x, k - 1);
      assert pages[..k][..k - 1] == pages[..k - 1];
      assert Served(snapshots, matching, size, pages, k - 1);
      PageSpec(snapshots[k - 1], matching, CursorBefore(pages, k - 1), size);
      assert Extends(snapshots[0], snapshots[k - 1]);
    }
  }

  lemma PageIsPresent(snapshots: seq<seq<Doc>>, matching: Doc -> bool, size: nat, pages: seq<seq<Doc>>, k: nat, x: Doc)
    requires Growing(snapshots) && size >= 1 && Walk(snapshots, matching, size, pages) && k < |pages|
    requires x in pages[k]
    ensures x in snapshots[|snapshots| - 1] && matching(x)
  {
    assert Served(snapshots, matching, size, pages, k);
    assert UniqueIds(snapshots[k]) && Extends(snapshots[k], snapshots[|snapshots| - 1]);
    PageSpec(snapshots[k], matching, CursorBefore(pages, k), size);
  }

  lemma {:induction false} ReturnedArePresent(snapshots: seq<seq<Doc>>, matching: Doc -> bool, size: nat, pages: seq<seq<Doc>>, k: nat, x: Doc)
    requires Growing(snapshots) && size >= 1 && Walk(snapshots, matching, size, pages) && k <= |pages|
    requires x in Concat(pages[..k])
    ensures x in snapshots[|snapshots| - 1] && matching(x)
  {
    InPages(pages, k, x);
    if x in pages[k - 1] {
      PageIsPresent(snapshots, matching, size, pages, k - 1, x);
    } else {
      ReturnedArePresent(snapshots, matching, size, pages, k - 1, x);
    }
  }

  lemma InPages(pages: seq<seq<Doc>>, k: nat, x: Doc)
    requires k <= |pages| && x in Concat(pages[..k])
    ensures k > 0 && (x in pages[k - 1] || x in Concat(pages[..k - 1]))
  {
    assert pages[..0] == [];
    if k > 0 { assert pages[..k][..k - 1] == pages[..k - 1]; }
  }

  lemma SortedIsUnique(ds: seq<Doc>, index: seq<Doc>)
    requires Sorted(ds) && UniqueIds(index) && forall x :: x in ds ==> x in index
    ensures UniqueIds(ds)
  {
    forall i, j | 0 <= i < |ds| && 0 <= j < |ds| && ds[i].logId == ds[j].logId ensures i == j {
      assert ds[i] in index && ds[j] in index;
      var m :| 0 <= m < |index| && index[m] == ds[i];
      var n :| 0 <= n < |index| && index[n] == ds[j];
      BeforeTotal(SortValues(ds[i]), SortValues(ds[j]));
    }
  }

  /** While documents are being added anywhere, following the cursor to the end misses no initial match. */
  lemma WalkReturnsAllInitial(snapshots: seq<seq<Doc>>, matching: Doc -> bool, size: nat, pages: seq<seq<Doc>>, x: Doc)
    requires Growing(snapshots) && size >= 1 && Walk(snapshots, matching, size, pages)
    requires |pages| >= 1 && pages[|pages| - 1] == []
    requires x in snapshots[0] && matching(x)
    ensures x in Concat(pages)
  {
    assert pages[..|pages|] == pages;
    NothingSkipped(snapshots, matching, size, pages, x, |pages|);
  }

  /** Meanwhile no log_id comes twice, finished or not, and every page keeps to the size limit. */
  lemma WalkNeverRepeats(snapshots: seq<seq<Doc>>, matching: Doc -> bool, size: nat, pages: seq<seq<Doc>>)
    requires Growing(snapshots) && size >= 1 && Walk(snapshots, matching, size, pages)
    ensures Sorted(Concat(pages)) && UniqueIds(Concat(pages))
    ensures forall k :: 0 <= k < |pages| ==> |pages[k]| <= size
  {
    assert pages[..|pages|] == pages;
    forall k | 0 <= k < |pages| ensures |pages[k]| <= size {
      assert Served(snapshots, matching, size, pages, k);
    }
    WalkIsInOrder(snapshots, matching, size, pages);
    ConcatIsSorted(pages, |pages|);
    if pages != [] {
      forall x | x in Concat(pages) ensures x in snapshots[|snapshots| - 1] {
        ReturnedArePresent(snapshots, matching, size, pages, |pages|, x);
      }
      SortedIsUnique(Concat(pages), snapshots[|snapshots| - 1]);
    }
  }

  // ---- A fixed index ----

  lemma {:induction false} SortedSameElements(a: seq<Doc>, b: seq<Doc>)
    requires Sorted(a) && Sorted(b) && forall x :: x in a <==> x in b
    ensures a == b
  {
    assert a != [] ==> a[0] in a;
    assert b != [] ==> b[0] in b;
    if a != [] {
      FirstIsLeast(a, b[0]);
      FirstIsLeast(b, a[0]);
      BeforeTotal(SortValues(a[0]), SortValues(b[0]));
      assert a[0] == b[0];
      forall x ensures x in a[1..] <==> x in b[1..] {
        RestExcludesFirst(a, x);
        RestExcludesFirst(b, x);
      }
      SortedSameElements(a[1..], b[1..]);
      assert a == [a[0]] + a[1..] && b == [b[0]] + b[1..];
    }
  }

  lemma FirstIsLeast(a: seq<Doc>, x: Doc)
    requires Sorted(a) && x in a
    ensures x == a[0] || Before(SortValues(a[0]), SortValues(x))
  {
  }

  lemma RestExcludesFirst(a: seq<Doc>, x: Doc)
    requires Sorted(a) && a != []
    ensures x in a[1..] <==> x in a && x != a[0]
  {
    BeforeTotal(SortValues(a[0]), SortValues(a[0]));
    assert a == [a[0]] + a[1..];
  }

  /** The client loop over an index that does not change: all pages from this cursor on, the last one empty. */
  function AllPages(index: seq<Doc>, matching: Doc -> bool, cursor: Option<Cursor>, size: nat): (pages: seq<seq<Doc>>)
    requires UniqueIds(index) && size >= 1
    ensures |pages| >= 1 && pages[|pages| - 1] == []
    ensures forall k :: 0 <= k < |pages| - 1 ==> pages[k] != []
    decreases |After(cursor, Hits(index, matching))|
  {
    var page := Page(index, matching, cursor, size);
    if page == [] then [page]
    else
      RemainingShrinks(index, matching, cursor, size);
      [page] + AllPages(index, matching, Next(page), size)
  }

  /** A match is in the remainder exactly when it is pending after the page. */
  lemma TailIsPending(hits: seq<Doc>, cursor: Option<Cursor>, page: seq<Doc>, tail: seq<Doc>, x: Doc)
    requires Sorted(page + tail) && page != []
    requires forall y :: y in page + tail <==> y in hits && Pending(y, cursor)
    ensures x in tail <==> x in hits && Pending(x, Next(page))
  {
    var ds, last := page + tail, page[|page| - 1];
    assert forall i :: 0 <= i < |page| ==> ds[i] == page[i];
    if x in tail {
      var i :| 0 <= i < |tail| && tail[i] == x;
      assert ds[|page| + i] == x && ds[|page| - 1] == last;
      assert x in ds;
    } else if x in hits && Pending(x, Next(page)) {
      assert last in ds;
      if cursor.Some? { BeforeTransitive(cursor.value, SortValues(last), SortValues(x)); }
      assert x in ds;
      assert Sorted(page);
      NotOnPage(page, x);
    }
  }

  /** What is left after a page is what was left before it, without the page. */
  lemma RemainingShrinks(index: seq<Doc>, matching: Doc -> bool, cursor: Option<Cursor>, size: nat)
    requires UniqueIds(index) && size >= 1
    ensures var page := Page(index, matching, cursor, size);
            page != [] ==> After(cursor, Hits(index, matching)) == page + After(Next(page), Hits(index, matching))
  {
    HitsSorted(index, matching);
    var hits := Hits(index, matching);
    var page := Page(index, matching, cursor, size);
    if page != [] {
      PageLeaves(hits, cursor, page, After(cursor, hits)[|page|..]);
    }
  }

  lemma PageLeaves(hits: seq<Doc>, cursor: Option<Cursor>, page: seq<Doc>, tail: seq<Doc>)
    requires Sorted(hits) && page != [] && After(cursor, hits) == page + tail
    ensures tail == After(Next(page), hits)
  {
    AfterSpec(cursor, hits);
    AfterSpec(Next(page), hits);
    var rest := After(Next(page), hits);
    forall x ensures x in rest <==> x in tail {
      TailIsPending(hits, cursor, page, tail, x);
    }
    assert forall i :: 0 <= i < |tail| ==> tail[i] == (page + tail)[|page| + i];
    SortedSameElements(rest, tail);
  }

  lemma NotOnPage(page: seq<Doc>, x: Doc)
    requires Sorted(page) && page != [] && Pending(x, Next(page))
    ensures x !in page
  {
    forall i | 0 <= i < |page| ensures page[i] != x {
      BeforeTotal(SortValues(page[|page| - 1]), SortValues(x));
      BeforeTotal(SortValues(page[i]), SortValues(x));
      if i < |page| - 1 { BeforeTransitive(SortValues(page[i]), SortValues(page[|page| - 1]), SortValues(x)); }
    }
  }

  lemma {:induction false} ConcatCons(page: seq<Doc>, pages: seq<seq<Doc>>)
    ensures Concat([page] + pages) == page + Concat(pages)
  {
    if pages == [] {
      assert ([page] + pages)[..0] == [];
    } else {
      var n := |pages| - 1;
      assert ([page] + pages)[..n + 1] == [page] + pages[..n];
      ConcatCons(page, pages[..n]);
    }
  }

  lemma {:induction false} AllPagesSpec(index: seq<Doc>, matching: Doc -> bool, cursor: Option<Cursor>, size: nat)
    requires UniqueIds(index) && size >= 1
    ensures Concat(AllPages(index, matching, cursor, size)) == After(cursor, Hits(index, matching))
    decreases |After(cursor, Hits(index, matching))|
  {
    var page := Page(index, matching, cursor, size);
    if page == [] {
      assert AllPages(index, matching, cursor, size)[..0] == [];
    } else {
      RemainingShrinks(index, matching, cursor, size);
      AllPagesSpec(index, matching, Next(page), size);
      ConcatCons(page, AllPages(index, matching, Next(page), size));
    }
  }

  /** A page that is not full leaves nothing, so the next one is empty and the last. */
  lemma ShortPageIsLast(index: seq<Doc>, matching: Doc -> bool, cursor: Option<Cursor>, size: nat)
    requires UniqueIds(index) && size >= 1
    ensures var page := Page(index, matching, cursor, size);
            page != [] && |page| < size ==> AllPages(index, matching, Next(page), size) == [[]]
  {
    RemainingShrinks(index, matching, cursor, size);
  }

  /** Each page is the one its cursor asks for, and only the last non-empty page may be short. */
  lemma {:induction false} AllPagesFollowCursor(index: seq<Doc>, matching: Doc -> bool, cursor: Option<Cursor>, size: nat, k: nat)
    requires UniqueIds(index) && size >= 1 && k < |AllPages(index, matching, cursor, size)|
    ensures var pages := AllPages(index, matching, cursor, size);
            && pages[k] == Page(index, matching, if k == 0 then cursor else Next(pages[k - 1]), size)
            && (k < |pages| - 2 ==> |pages[k]| == size)
    decreases k
  {
    var page := Page(index, matching, cursor, size);
    if page != [] {
      if k > 0 {
        AllPagesFollowCursor(index, matching, Next(page), size, k - 1);
      } else {
        ShortPageIsLast(index, matching, cursor, size);
      }
    }
  }

  lemma FirstPageHasAll(index: seq<Doc>, matching: Doc -> bool)
    requires UniqueIds(index)
    ensures After(None, Hits(index, matching)) == Hits(index, matching) && Sorted(Hits(index, matching))
    ensures forall x :: x in Hits(index, matching) <==> x in index && matching(x)
  {
    HitsSorted(index, matching);
    AfterSpec(None, Hits(index, matching));
    SortedSameElements(After(None, Hits(index, matching)), Hits(index, matching));
  }

  lemma AllPagesWalk(index: seq<Doc>, matching: Doc -> bool, size: nat)
    requires UniqueIds(index) && size >= 1
    ensures var pages := AllPages(index, matching, None, size);
            Walk(seq(|pages|, _ => index), matching, size, pages) && forall k :: 0 <= k < |pages| - 2 ==> |pages[k]| == size
  {
    var pages := AllPages(index, matching, None, size);
    forall k | 0 <= k < |pages| ensures PageAt(index, matching, size, pages, k) {
      AllPagesFollowCursor(index, matching, None, size, k);
    }
    PagesAreWalk(index, matching, size, pages);
  }

  predicate PageAt(index: seq<Doc>, matching: Doc -> bool, size: nat, pages: seq<seq<Doc>>, k: nat)
    requires k < |pages|
  {
    pages[k] == Page(index, matching, CursorBefore(pages, k), size) && (k < |pages| - 2 ==> |pages[k]| == size)
  }

  lemma PagesAreWalk(index: seq<Doc>, matching: Doc -> bool, size: nat, pages: seq<seq<Doc>>)
    requires forall k :: 0 <= k < |pages| ==> PageAt(index, matching, size, pages, k)
    requires forall k :: 0 <= k < |pages| - 1 ==> pages[k] != []
    ensures Walk(seq(|pages|, _ => index), matching, size, pages) && forall k :: 0 <= k < |pages| - 2 ==> |pages[k]| == size
  {
    var snapshots := seq(|pages|, _ => index);
    forall k | 0 <= k < |pages| ensures Served(snapshots, matching, size, pages, k) {
      assert PageAt(index, matching, size, pages, k);
    }
    forall k | 0 <= k < |pages| - 2 ensures |pages[k]| == size {
      assert PageAt(index, matching, size, pages, k);
    }
  }

  /**
   Over an index that does not change, following the cursor terminates: full pages, then at most one
   short page, then the empty one. Together they are the sorted matches, each exactly once.
   */
  lemma FixedIndexWalk(index: seq<Doc>, matching: Doc -> bool, size: nat)
    requires UniqueIds(index) && size >= 1
    ensures var pages := AllPages(index, matching, None, size);
            && Concat(pages) == Hits(index, matching)
            && Walk(seq(|pages|, _ => index), matching, size, pages)
            && (forall k :: 0 <= k < |pages| - 2 ==> |pages[k]| == size)
    ensures Sorted(Hits(index, matching))
    ensures forall x :: x in Hits(index, matching) <==> x in index && matching(x)
  {
    AllPagesSpec(index, matching, None, size);
    FirstPageHasAll(index, matching);
    AllPagesWalk(index, matching, size);
  }
}
