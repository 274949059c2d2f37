/**
 lambda-push-router: for each incident event, read the tenant's device tokens page by page, turn each
 into a dispatch message, and put the messages on the dispatch queue in batches of ten.
 */
module PushRouter {
  import opened Common
  import opened Strings

  datatype TokenRow = TokenRow(
    sk: string, active: bool, role: string, platform: Option<string>, provider: Option<string>, deviceToken: string)

  datatype Event = Event(eventId: string, incidentId: string, tenantId: string)

  datatype Message = Message(
    eventId: string, incidentId: string, tenantId: string, userId: string, tokenId: string,
    platform: string, provider: string, deviceToken: string)

  /** An entry of one SQS batch. */
  datatype Entry = Entry(id: string, body: Message)

  datatype Record = Record(messageId: string, body: Option<Event>)

  // ---- Sort keys ----

  /** sk.split('#', 1): user and device, or the ValueError of unpacking a single part. */
  function SplitKey(sk: string): Option<(string, string)> {
    var i := IndexOf(sk, '#');
    if i < |sk| then Some((sk[..i], sk[i + 1..])) else None
  }

  function JoinKey(userId: string, tokenId: string): string { userId + "#" + tokenId }

  /** Splitting a key and joining the parts gives the key back, whatever the device id contains. */
  lemma SplitThenJoin(sk: string)
    ensures SplitKey(sk).Some? <==> '#' in sk
    ensures SplitKey(sk).Some? ==> JoinKey(SplitKey(sk).value.0, SplitKey(sk).value.1) == sk
  {
  }

  /** Joining and splitting gives the parts back exactly when the user id has no '#'. */
  lemma JoinThenSplitIff(userId: string, tokenId: string)
    ensures SplitKey(JoinKey(userId, tokenId)) == Some((userId, tokenId)) <==> '#' !in userId
  {
    var sk := JoinKey(userId, tokenId);
    assert sk[|userId|] == '#';
    var i := IndexOf(sk, '#');
    assert sk == sk[..i] + ['#'] + sk[i + 1..];
    if '#' !in userId {
      FirstSeparatorUnique(sk[..i], sk[i + 1..], userId, tokenId, '#');
    }
  }

  // ---- Selecting tokens ----

  const ROLES := ["engineer", "admin", "owner"]

  predicate Selected(row: TokenRow) { row.active && row.role in ROLES }

  /** The FilterExpression, applied by DynamoDB to each page it has read. */
  function Select(rows: seq<TokenRow>): seq<TokenRow> {
    if rows == [] then []
    else Select(rows[..|rows| - 1]) + if Selected(rows[|rows| - 1]) then [rows[|rows| - 1]] else []
  }

  lemma {:induction false} SelectConcat(a: seq<TokenRow>, b: seq<TokenRow>)
    ensures Select(a + b) == Select(a) + Select(b)
  {
    if b == [] {
      assert a + b == a;
    } else {
      assert (a + b)[..|a + b| - 1] == a + b[..|b| - 1];
      SelectConcat(a, b[..|b| - 1]);
    }
  }

  /** Exactly the active rows of the three roles are selected. */
  lemma {:induction false} SelectKeepsExactly(rows: seq<TokenRow>, row: TokenRow)
    ensures row in Select(rows) <==>
              row in rows && row.active && (row.role == "engineer" || row.role == "admin" || row.role == "owner")
  {
    if rows != [] {
      SelectKeepsExactly(rows[..|rows| - 1], row);
      assert rows == rows[..|rows| - 1] + [rows[|rows| - 1]];
    }
  }

  function AllRows(pages: seq<seq<TokenRow>>): seq<TokenRow> {
    if pages == [] then [] else AllRows(pages[..|pages| - 1]) + pages[|pages| - 1]
  }

  function ToMessage(e: Event, row: TokenRow): (m: Option<Message>)
    ensures m.Some? <==> '#' in row.sk
  {
    var parts := SplitKey(row.sk);
    if parts.None? then None
    else Some(Message(e.eventId, e.incidentId, e.tenantId, parts.value.0, parts.value.1,
                      if row.platform.Some? then row.platform.value else "unknown",
                      if row.provider.Some? then row.provider.value else "fcm", row.deviceToken))
  }

  predicate AllKeyed(rows: seq<TokenRow>) {
    forall i :: 0 <= i < |rows| ==> '#' in rows[i].sk
  }

  /** One message per row in order, or None when some key has no '#'. */
  function ToMessages(e: Event, rows: seq<TokenRow>): (r: Option<seq<Message>>)
    ensures r.Some? ==> |r.value| == |rows| && forall i :: 0 <= i < |rows| ==> Some(r.value[i]) == ToMessage(e, rows[i])
  {
    if AllKeyed(rows) then Some(seq(|rows|, i requires 0 <= i < |rows| => ToMessage(e, rows[i]).value)) else None
  }

  /** m is for this event and this row, with the row's platform and provider or what stands in for them. */
  predicate NamesRow(e: Event, m: Message, row: TokenRow) {
    && m.eventId == e.eventId && m.incidentId == e.incidentId && m.tenantId == e.tenantId
    && m.userId + "#" + m.tokenId == row.sk && '#' !in m.userId
    && m.deviceToken == row.deviceToken
    && (row.platform.Some? ==> m.platform == row.platform.value) && (row.platform.None? ==> m.platform == "unknown")
    && (row.provider.Some? ==> m.provider == row.provider.value) && (row.provider.None? ==> m.provider == "fcm")
  }

  /** The message of a row names that very row: the dispatcher's key for it is the row's key. */
  lemma MessageNamesItsRow(e: Event, row: TokenRow)
    requires '#' in row.sk
    ensures NamesRow(e, ToMessage(e, row).value, row)
  {
    SplitThenJoin(row.sk);
  }

  // ---- Batches ----

  function Numbered(messages: seq<Message>): (b: seq<Entry>)
    ensures |b| == |messages|
    ensures forall j :: 0 <= j < |b| ==> b[j] == Entry(Decimal(j), messages[j])
  {
    seq(|messages|, j requires 0 <= j < |messages| => Entry(Decimal(j), messages[j]))
  }

  function Batches(messages: seq<Message>): seq<seq<Entry>> {
    if |messages| == 0 then []
    else if |messages| <= 10 then [Numbered(messages)]
    else [Numbered(messages[..10])] + Batches(messages[10..])
  }

  function Bodies(batch: seq<Entry>): (ms: seq<Message>)
    ensures |ms| == |batch| && forall j :: 0 <= j < |ms| ==> ms[j] == batch[j].body
  {
    seq(|batch|, j requires 0 <= j < |batch| => batch[j].body)
  }

  function AllBodies(batches: seq<seq<Entry>>): seq<Message> {
    if batches == [] then [] else Bodies(batches[0]) + AllBodies(batches[1..])
  }

  predicate GoodBatch(batch: seq<Entry>) {
    && 1 <= |batch| <= 10
    && (forall i, j :: 0 <= i < j < |batch| ==> batch[i].id != batch[j].id)
    && (forall j :: 0 <= j < |batch| ==> batch[j].id == [('0' as int + j) as char])
  }

  lemma NumberedIsGood(messages: seq<Message>)
    requires 1 <= |messages| <= 10
    ensures GoodBatch(Numbered(messages)) && Bodies(Numbered(messages)) == messages
  {
    var b := Numbered(messages);
    forall i, j | 0 <= i < j < |b| ensures b[i].id != b[j].id {
      ParsePrinted(i);
      ParsePrinted(j);
    }
  }

  /** The batches partition the messages in order, each holds one to ten entries with distinct ids. */
  lemma {:induction false} BatchesPartition(messages: seq<Message>)
    ensures AllBodies(Batches(messages)) == messages
    ensures forall k :: 0 <= k < |Batches(messages)| ==> GoodBatch(Batches(messages)[k])
    ensures forall k :: 0 <= k < |Batches(messages)| - 1 ==> |Batches(messages)[k]| == 10
  {
    if 1 <= |messages| <= 10 {
      NumberedIsGood(messages);
      assert Batches(messages)[1..] == [];
    } else if |messages| > 10 {
      NumberedIsGood(messages[..10]);
      BatchesPartition(messages[10..]);
      assert Batches(messages)[1..] == Batches(messages[10..]);
      assert messages == messages[..10] + messages[10..];
    }
  }

  // ---- The handler ----

  /** What a record puts on the queue when SQS accepts that many send calls, and whether it is reported failed. */
  function Routed(r: Record, tokens: map<string, seq<seq<TokenRow>>>, accepted: nat): (seq<seq<Entry>>, bool) {
    if r.body.None? then ([], true)
    else
      var e := r.body.value;
      var messages := ToMessages(e, Select(AllRows(if e.tenantId in tokens then tokens[e.tenantId] else [])));
      if messages.None? then ([], true)
      else
        var batches := Batches(messages.value);
        if accepted < |batches| then (batches[..accepted], true) else (batches, false)
  }

  /**
   A record that is not reported failed has put one message per selected token row of its tenant on the
   queue, in the order of the pages, each naming the key of its row, in batches of one to ten.
   */
  lemma SuccessCoversSelection(r: Record, tokens: map<string, seq<seq<TokenRow>>>, accepted: nat)
    requires r.body.Some? && !Routed(r, tokens, accepted).1
    ensures var e, batches := r.body.value, Routed(r, tokens, accepted).0;
            var rows := Select(AllRows(if e.tenantId in tokens then tokens[e.tenantId] else []));
            && |AllBodies(batches)| == |rows|
            && (forall i :: 0 <= i < |rows| ==> NamesRow(e, AllBodies(batches)[i], rows[i]))
            && (forall k :: 0 <= k < |batches| ==> GoodBatch(batches[k]))
  {
    var e := r.body.value;
    var rows := Select(AllRows(if e.tenantId in tokens then tokens[e.tenantId] else []));
    var messages := ToMessages(e, rows).value;
    BatchesPartition(messages);
    forall i | 0 <= i < |rows| ensures NamesRow(e, messages[i], rows[i]) {
      assert Some(messages[i]) == ToMessage(e, rows[i]);
      MessageNamesItsRow(e, rows[i]);
    }
  }

  lemma {:induction false} BatchCount(messages: seq<Message>)
    ensures 10 * |Batches(messages)| >= |messages| && (messages != [] ==> 10 * (|Batches(messages)| - 1) < |messages|)
    ensures messages == [] ==> Batches(messages) == []
  {
    if |messages| > 10 {
      BatchCount(messages[10..]);
    }
  }

  lemma AllBodiesCons(batch: seq<Entry>, batches: seq<seq<Entry>>)
    ensures AllBodies([batch] + batches) == Bodies(batch) + AllBodies(batches)
  {
    assert ([batch] + batches)[1..] == batches;
  }

  /** The first k batches hold the first ten times k messages. */
  lemma {:induction false} FirstBatches(messages: seq<Message>, k: nat)
    requires k <= |Batches(messages)|
    ensures AllBodies(Batches(messages)[..k]) == if 10 * k <= |messages| then messages[..10 * k] else messages
  {
    if k > 0 && |messages| > 10 {
      var first, rest := messages[..10], messages[10..];
      assert Batches(messages)[..k] == [Numbered(first)] + Batches(rest)[..k - 1];
      AllBodiesCons(Numbered(first), Batches(rest)[..k - 1]);
      NumberedIsGood(first);
      FirstBatches(rest, k - 1);
      TakeAfterTen(messages, k);
    } else if k > 0 {
      BatchesPartition(messages);
      assert Batches(messages)[..k] == Batches(messages);
    }
  }

  lemma TakeAfterTen(messages: seq<Message>, k: nat)
    requires |messages| > 10 && k > 0
    ensures messages == messages[..10] + messages[10..]
    ensures 10 * k <= |messages| ==> messages[..10 * k] == messages[..10] + messages[10..][..10 * (k - 1)]
  {
  }

  function SelectedRows(r: Record, tokens: map<string, seq<seq<TokenRow>>>): seq<TokenRow>
    requires r.body.Some?
  {
    var tenant := r.body.value.tenantId;
    Select(AllRows(if tenant in tokens then tokens[tenant] else []))
  }

  /** Unreadable; or some selected key has no '#'; or SQS refuses a send before all rows are covered, ten by ten. */
  predicate MustFail(r: Record, tokens: map<string, seq<seq<TokenRow>>>, accepted: nat) {
    || r.body.None?
    || (exists i :: 0 <= i < |SelectedRows(r, tokens)| && '#' !in SelectedRows(r, tokens)[i].sk)
    || 10 * accepted < |SelectedRows(r, tokens)|
  }

  /** Which records fail, and what those that SQS cuts short have queued: the messages of the first rows. */
  lemma RoutedFailsIff(r: Record, tokens: map<string, seq<seq<TokenRow>>>, accepted: nat)
    ensures Routed(r, tokens, accepted).1 <==> MustFail(r, tokens, accepted)
    ensures r.body.Some? && AllKeyed(SelectedRows(r, tokens)) && MustFail(r, tokens, accepted) ==>
              AllBodies(Routed(r, tokens, accepted).0) == ToMessages(r.body.value, SelectedRows(r, tokens)).value[..10 * accepted]
    ensures r.body.None? || !AllKeyed(SelectedRows(r, tokens)) ==> Routed(r, tokens, accepted).0 == []
  {
    if r.body.Some? && AllKeyed(SelectedRows(r, tokens)) {
      var messages := ToMessages(r.body.value, SelectedRows(r, tokens)).value;
      BatchCount(messages);
      if accepted < |Batches(messages)| { FirstBatches(messages, accepted); }
    }
  }

  type Outcome = (seq<seq<Entry>>, bool)

  /** Per record of an invocation, what `Routed` says. */
  function Outcomes(rs: seq<Record>, tokens: map<string, seq<seq<TokenRow>>>, accepted: seq<nat>): (os: seq<Outcome>)
    requires |rs| == |accepted|
    ensures |os| == |rs| && forall i :: 0 <= i < |rs| ==> os[i] == Routed(rs[i], tokens, accepted[i])
  {
    seq(|rs|, i requires 0 <= i < |rs| => Routed(rs[i], tokens, accepted[i]))
  }

  /** Queue contents added by a whole invocation. */
  function SentAll(os: seq<Outcome>): seq<seq<Entry>> {
    if os == [] then [] else SentAll(os[..|os| - 1]) + os[|os| - 1].0
  }

  /** Message ids an invocation reports as batch item failures. */
  function FailedAll(rs: seq<Record>, os: seq<Outcome>): seq<string>
    requires |rs| == |os|
  {
    if rs == [] then []
    else FailedAll(rs[..|rs| - 1], os[..|rs| - 1]) + if os[|rs| - 1].1 then [rs[|rs| - 1].messageId] else []
  }

  predicate DistinctRecords(rs: seq<Record>) {
    forall i, j :: 0 <= i < j < |rs| ==> rs[i].messageId != rs[j].messageId
  }

  lemma {:induction false} FailuresAreRecords(rs: seq<Record>, os: seq<Outcome>, a: nat) returns (i: nat)
    requires |rs| == |os| && a < |FailedAll(rs, os)|
    ensures i < |rs| && FailedAll(rs, os)[a] == rs[i].messageId && os[i].1
  {
    var n := |rs| - 1;
    if a < |FailedAll(rs[..n], os[..n])| {
      i := FailuresAreRecords(rs[..n], os[..n], a);
    } else {
      i := n;
    }
  }

  /** With distinct message ids, the reported ones are those of the failed records, in record order. */
  lemma {:induction false} FailedIff(rs: seq<Record>, os: seq<Outcome>, i: nat)
    requires |rs| == |os| && i < |rs| && DistinctRecords(rs)
    ensures rs[i].messageId in FailedAll(rs, os) <==> os[i].1
  {
    var n := |rs| - 1;
    var before := FailedAll(rs[..n], os[..n]);
    if i < n {
      assert rs[..n][i] == rs[i] && os[..n][i] == os[i] && rs[i].messageId != rs[n].messageId;
      FailedIff(rs[..n], os[..n], i);
    } else {
      forall a: nat | a < |before| ensures before[a] != rs[n].messageId {
        var j := FailuresAreRecords(rs[..n], os[..n], a);
        assert rs[..n][j] == rs[j];
      }
    }
  }

  lemma {:induction false} FailuresInOrder(rs: seq<Record>, os: seq<Outcome>, a: nat, b: nat)
    requires |rs| == |os| && a < b < |FailedAll(rs, os)|
    ensures exists i, j :: 0 <= i < j < |rs| && FailedAll(rs, os)[a] == rs[i].messageId && FailedAll(rs, os)[b] == rs[j].messageId
  {
    var n := |rs| - 1;
    var before := FailedAll(rs[..n], os[..n]);
    if b < |before| {
      FailuresInOrder(rs[..n], os[..n], a, b);
      var i, j :| 0 <= i < j < n && before[a] == rs[..n][i].messageId && before[b] == rs[..n][j].messageId;
      assert rs[..n][i] == rs[i] && rs[..n][j] == rs[j];
    } else {
      var i := FailuresAreRecords(rs[..n], os[..n], a);
      assert rs[..n][i] == rs[i];
    }
  }

  lemma AllSnoc(rs: seq<Record>, os: seq<Outcome>, i: nat)
    requires |rs| == |os| && i < |rs|
    ensures SentAll(os[..i + 1]) == SentAll(os[..i]) + os[i].0
    ensures FailedAll(rs[..i + 1], os[..i + 1]) == FailedAll(rs[..i], os[..i]) + if os[i].1 then [rs[i].messageId] else []
  {
    assert rs[..i + 1][..i] == rs[..i] && os[..i + 1][..i] == os[..i];
  }

  lemma Associate<T>(a: seq<T>, b: seq<T>, c: seq<T>)
    ensures (a + b) + c == a + (b + c)
  {
  }

  lemma BatchStep(messages: seq<Message>, i: nat)
    requires i < |messages|
    ensures var hi := if i + 10 <= |messages| then i + 10 else |messages|;
            Batches(messages[i..]) == [Numbered(messages[i..hi])] + Batches(messages[hi..])
  {
    var rest := messages[i..];
    if |rest| > 10 {
      assert rest[..10] == messages[i..i + 10] && rest[10..] == messages[i + 10..];
    } else {
      var hi := if i + 10 <= |messages| then i + 10 else |messages|;
      assert messages[i..hi] == rest && messages[hi..] == [];
    }
  }

  class Router {
    var queue: seq<seq<Entry>>
    /** Per tenant, the pages DynamoDB returns for the query; all but the last carry a LastEvaluatedKey. */
    const tokens: map<string, seq<seq<TokenRow>>>

    constructor (tokens: map<string, seq<seq<TokenRow>>>)
      ensures queue == [] && this.tokens == tokens
    {
      queue := [];
      this.tokens := tokens;
    }

    method GetActiveTokensForTenant(tenantId: string) returns (rows: seq<TokenRow>)
      ensures rows == Select(AllRows(if tenantId in tokens then tokens[tenantId] else []))
    {
      var pages := if tenantId in tokens then tokens[tenantId] else [];
      if pages == [] {
        return [];
      }
      rows := Select(pages[0]);
      var k := 1;
      assert pages[..1] == [pages[0]] && pages[..1][..0] == [];
      assert AllRows(pages[..1]) == pages[0];
      while k < |pages|
        invariant 1 <= k <= |pages|
        invariant rows == Select(AllRows(pages[..k]))
      {
        rows := rows + Select(pages[k]);
        SelectConcat(AllRows(pages[..k]), pages[k]);
        assert pages[..k + 1][..k] == pages[..k];
        k := k + 1;
      }
      assert pages[..k] == pages;
    }

    /** Splits every key; one without '#' raises. */
    method FormatTokens(e: Event, rows: seq<TokenRow>) returns (r: Option<seq<Message>>)
      ensures r == ToMessages(e, rows)
    {
      var messages: seq<Message> := [];
      for i := 0 to |rows|
        invariant |messages| == i
        invariant forall k :: 0 <= k < i ==> Some(messages[k]) == ToMessage(e, rows[k])
      {
        var m := ToMessage(e, rows[i]);
        if m.None? {
          return None;
        }
        messages := messages + [m.value];
      }
      assert forall k :: 0 <= k < |rows| ==> ToMessage(e, rows[k]).Some?;
      assert AllKeyed(rows) && messages == ToMessages(e, rows).value;
      return Some(messages);
    }

    method Handler(records: seq<Record>, accepted: seq<nat>) returns (failed: seq<string>)
      requires |records| == |accepted|
      modifies this`queue
      ensures queue == old(queue) + SentAll(Outcomes(records, tokens, accepted))
      ensures failed == FailedAll(records, Outcomes(records, tokens, accepted))
      ensures DistinctRecords(records) ==>
                forall i :: 0 <= i < |records| ==> (records[i].messageId in failed <==> MustFail(records[i], tokens, accepted[i]))
    {
      failed := [];
      ghost var os := Outcomes(records, tokens, accepted);
      for i := 0 to |records|
        invariant queue == old(queue) + SentAll(os[..i])
        invariant failed == FailedAll(records[..i], os[..i])
      {
        AllSnoc(records, os, i);
        var bad, sent := RouteRecord(records[i], accepted[i]);
        Associate(old(queue), SentAll(os[..i]), sent);
        failed := failed + if bad then [records[i].messageId] else [];
      }
      assert records[..|records|] == records && os[..|records|] == os;
      if DistinctRecords(records) {
        forall i | 0 <= i < |records| ensures records[i].messageId in failed <==> MustFail(records[i], tokens, accepted[i]) {
          FailedIff(records, os, i);
          RoutedFailsIff(records[i], tokens, accepted[i]);
        }
      }
    }

    method RouteRecord(record: Record, accepted: nat) returns (bad: bool, ghost sent: seq<seq<Entry>>)
      modifies this`queue
      ensures (sent, bad) == Routed(record, tokens, accepted) && queue == old(queue) + sent
    {
      sent := [];
      if record.body.None? {
        return true, sent;
      }
      var e := record.body.value;
      var rows := GetActiveTokensForTenant(e.tenantId);
      var formatted := FormatTokens(e, rows);
      if formatted.None? {
        return true, sent;
      }
      var messages := formatted.value;
      if messages == [] {
        return false, sent;
      }
      sent := if accepted < |Batches(messages)| then Batches(messages)[..accepted] else Batches(messages);
      bad := SendBatches(messages, accepted);
    }

    /** SQS accepts the first `accepted` send calls and refuses the next one. */
    method SendBatches(messages: seq<Message>, accepted: nat) returns (refused: bool)
      modifies this`queue
      ensures refused <==> accepted < |Batches(messages)|
      ensures queue == old(queue) + if refused then Batches(messages)[..accepted] else Batches(messages)
    {
      var i, calls := 0, 0;
      ghost var sent: seq<seq<Entry>> := [];
      assert messages[0..] == messages;
      while i < |messages|
        invariant 0 <= i <= |messages| && calls == |sent| <= accepted
        invariant queue == old(queue) + sent
        invariant sent + Batches(messages[i..]) == Batches(messages)
      {
        BatchStep(messages, i);
        if calls == accepted {
          assert Batches(messages)[..accepted] == sent;
          return true;
        }
        var hi := if i + 10 <= |messages| then i + 10 else |messages|;
        var batch := Numbered(messages[i..hi]);
        queue := queue + [batch];
        sent := sent + [batch];
        calls := calls + 1;
        i := hi;
      }
      return false;
    }
  }
}
