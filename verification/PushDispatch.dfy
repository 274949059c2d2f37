/**
 lambda-push-dispatch: deliver queued push messages. A conditional put on (event_id, token_id) reserves
 each delivery before the provider is called; SQS may redeliver any message to any invocation.
 */
module PushDispatch {
  import opened Common
  import opened PushRouter

  /** Key of the delivery log: event_id and token_id. */
  type LogKey = (string, string)

  datatype LogStatus = Pending | Sent | TokenInvalid | Failed

  /**
   How the outside world treats one record. PutFails: the conditional put raises another error than the
   failed condition, so nothing is written. PutRetried: it is executed, its reply is lost, and the retry
   meets the row just written. Stopped: an exception once the row is written and before the provider
   request, as when the put's reply is lost for good or the access token cannot be fetched. Raised: one between the request and the end of finalize_delivery.
   Unmarked: rejected, and mark_token_invalid raises.
   */
  datatype Answer = PutFails | PutRetried | Stopped | Delivered | Unregistered | Unmarked | Refused | Raised

  /** `calls` lists the requests sent to a provider; `tokens` maps (tenant_id, sk) to is_active. */
  datatype Tables = Tables(logs: map<LogKey, LogStatus>, tokens: map<(string, string), bool>, calls: seq<LogKey>)

  datatype Queued = Queued(messageId: string, body: Option<Message>)

  function KeyOf(m: Message): LogKey { (m.eventId, m.tokenId) }

  /** What the log says in the end; an exception leaves the reservation as it was put. */
  function StatusFor(a: Answer): LogStatus {
    match a
    case Delivered => Sent
    case Unregistered => TokenInvalid
    case Unmarked => TokenInvalid
    case Refused => Failed
    case _ => Pending
  }

  /** update_item creates the row when it is gone. */
  function Deactivated(t: Tables, m: Message): Tables {
    t.(tokens := t.tokens[(m.tenantId, JoinKey(m.userId, m.tokenId)) := false])
  }

  /** `apnsReady`: the cached APNs key is loaded, without which send_apns raises TypeError. */
  predicate Callable(apnsReady: bool, m: Message) {
    m.provider == "fcm" || (m.provider == "apns" && apnsReady)
  }

  /** Answers with which the provider has been sent the request. */
  predicate Calling(a: Answer) { a != PutFails && a != PutRetried && a != Stopped }

  /** One record of an invocation: the new tables, and whether it is reported as failed. */
  function Process(apnsReady: bool, t: Tables, q: Queued, a: Answer): (Tables, bool) {
    if q.body.None? then (t, true)
    else
      var m := q.body.value;
      if a == PutFails then (t, true)
      else if KeyOf(m) in t.logs then (t, false)
      else if a == PutRetried then (t.(logs := t.logs[KeyOf(m) := Pending]), false)
      else if a == Stopped then (t.(logs := t.logs[KeyOf(m) := Pending]), true)
      else if !Callable(apnsReady, m) then (t.(logs := t.logs[KeyOf(m) := Pending]), m.provider == "apns")
      else
        var done := t.(logs := t.logs[KeyOf(m) := StatusFor(a)], calls := t.calls + [KeyOf(m)]);
        (if a == Unregistered then Deactivated(done, m) else done, a != Delivered && a != Unregistered)
  }

  function ProcessAll(apnsReady: bool, t: Tables, qs: seq<Queued>, answers: seq<Answer>): Tables
    requires |qs| == |answers|
  {
    if qs == [] then t
    else Process(apnsReady, ProcessAll(apnsReady, t, qs[..|qs| - 1], answers[..|qs| - 1]), qs[|qs| - 1], answers[|qs| - 1]).0
  }

  /** batchItemFailures of an invocation, in record order. */
  function Failures(apnsReady: bool, t: Tables, qs: seq<Queued>, answers: seq<Answer>): seq<string>
    requires |qs| == |answers|
  {
    if qs == [] then []
    else
      var n := |qs| - 1;
      Failures(apnsReady, t, qs[..n], answers[..n])
      + if Process(apnsReady, ProcessAll(apnsReady, t, qs[..n], answers[..n]), qs[n], answers[n]).1 then [qs[n].messageId] else []
  }

  // ---- The lambda ----

  class Dispatcher {
    var tables: Tables
    /** Module-level cache; a cold start has none. */
    var apnsKey: Option<string>

    constructor (tables: Tables)
      ensures this.tables == tables && apnsKey.None?
    {
      this.tables := tables;
      apnsKey := None;
    }

    /** None stands for the exception of a put that failed for another reason than its condition. */
    method CheckAndReserveDelivery(key: LogKey, answer: Answer) returns (reserved: Option<bool>)
      modifies this`tables
      ensures reserved.None? <==> answer == PutFails
      ensures reserved.Some? ==> (reserved.value <==> key !in old(tables).logs && answer != PutRetried)
      ensures tables == if reserved.Some? && key !in old(tables).logs
                        then old(tables).(logs := old(tables).logs[key := Pending])
                        else old(tables)
    {
      if answer == PutFails {
        return None;
      }
      if key in tables.logs {
        return Some(false);
      }
      tables := tables.(logs := tables.logs[key := Pending]);
      return Some(answer != PutRetried);
    }

    method FinalizeDelivery(key: LogKey, status: LogStatus)
      modifies this`tables
      ensures tables == old(tables).(logs := old(tables).logs[key := status])
    {
      tables := tables.(logs := tables.logs[key := status]);
    }

    method MarkTokenInvalid(tenantId: string, userId: string, tokenId: string)
      modifies this`tables
      ensures tables == old(tables).(tokens := old(tables).tokens[(tenantId, userId + "#" + tokenId) := false])
    {
      tables := tables.(tokens := tables.tokens[(tenantId, userId + "#" + tokenId) := false]);
    }

    method GetApnsJwt(secret: string)
      modifies this`apnsKey
      ensures apnsKey == Some(if old(apnsKey).Some? then old(apnsKey).value else secret)
    {
      if apnsKey.None? {
        apnsKey := Some(secret);
      }
    }

    /** Reads the bundle id from the cached key before it asks for the token that would load the key. */
    method SendApns(key: LogKey, secret: string, answer: Answer) returns (raised: bool)
      modifies this
      ensures raised <==> old(apnsKey).None? || answer == Stopped
      ensures apnsKey == old(apnsKey)
      ensures tables == if raised then old(tables) else old(tables).(calls := old(tables).calls + [key])
    {
      if apnsKey.None? {
        return true;
      }
      GetApnsJwt(secret);
      if answer == Stopped {
        return true;
      }
      tables := tables.(calls := tables.calls + [key]);
      return false;
    }

    /** Fetches the access token before the request. */
    method SendFcm(key: LogKey, answer: Answer) returns (raised: bool)
      modifies this`tables
      ensures raised <==> answer == Stopped
      ensures tables == if raised then old(tables) else old(tables).(calls := old(tables).calls + [key])
    {
      if answer == Stopped {
        return true;
      }
      tables := tables.(calls := tables.calls + [key]);
      return false;
    }

    method HandleRecord(q: Queued, answer: Answer, secret: string) returns (failed: bool)
      modifies this
      ensures (tables, failed) == Process(old(apnsKey).Some?, old(tables), q, answer)
      ensures apnsKey == old(apnsKey)
    {
      if q.body.None? {
        return true;
      }
      var m := q.body.value;
      var reserved := CheckAndReserveDelivery((m.eventId, m.tokenId), answer);
      if reserved.None? {
        return true;
      }
      if !reserved.value {
        return false;
      }
      var raised := false;
      if m.provider == "fcm" {
        raised := SendFcm((m.eventId, m.tokenId), answer);
      } else if m.provider == "apns" {
        raised := SendApns((m.eventId, m.tokenId), secret, answer);
      } else {
        return answer == Stopped;
      }
      if raised || answer == Raised {
        return true;
      }
      var status := if answer == Delivered then Sent else if answer == Refused then Failed else TokenInvalid;
      FinalizeDelivery((m.eventId, m.tokenId), status);
      assert tables.logs == old(tables).logs[KeyOf(m) := status];
      if answer == Unmarked {
        return true;
      }
      if status == TokenInvalid {
        MarkTokenInvalid(m.tenantId, m.userId, m.tokenId);
      } else if status == Failed {
        return true;
      }
      return false;
    }

    method Handler(records: seq<Queued>, answers: seq<Answer>, secret: string) returns (failed: seq<string>)
      requires |records| == |answers|
      modifies this
      ensures tables == ProcessAll(old(apnsKey).Some?, old(tables), records, answers)
      ensures failed == Failures(old(apnsKey).Some?, old(tables), records, answers)
      ensures DistinctMessages(records) ==>
                forall i :: 0 <= i < |records| ==>
                  (records[i].messageId in failed <==> Reported(old(apnsKey).Some?, old(tables), records, answers, i))
      // a container that started without the APNs key never gets it
      ensures apnsKey == old(apnsKey)
    {
      failed := [];
      for i := 0 to |records|
        invariant tables == ProcessAll(old(apnsKey).Some?, old(tables), records[..i], answers[..i])
        invariant failed == Failures(old(apnsKey).Some?, old(tables), records[..i], answers[..i])
        invariant apnsKey == old(apnsKey)
      {
        var bad := HandleRecord(records[i], answers[i], secret);
        if bad {
          failed := failed + [records[i].messageId];
        }
        assert records[..i + 1][..i] == records[..i] && answers[..i + 1][..i] == answers[..i];
      }
      assert records[..|records|] == records && answers[..|answers|] == answers;
      if DistinctMessages(records) {
        forall i | 0 <= i < |records|
          ensures records[i].messageId in failed <==> Reported(old(apnsKey).Some?, old(tables), records, answers, i)
        {
          ReportedIff(old(apnsKey).Some?, old(tables), records, answers, i);
        }
      }
    }
  }

  // ---- What an invocation reports and logs, record by record ----

  /** When the record's turn comes nobody has written its reservation, neither before the invocation nor in it. */
  predicate NewAtTurn(t: Tables, qs: seq<Queued>, answers: seq<Answer>, i: nat)
    requires |qs| == |answers| && i < |qs|
  {
    && qs[i].body.Some? && (qs[i].body.value.eventId, qs[i].body.value.tokenId) !in t.logs
    && forall j :: 0 <= j < i && qs[j].body.Some? && answers[j] != PutFails ==>
         (qs[j].body.value.eventId, qs[j].body.value.tokenId) != (qs[i].body.value.eventId, qs[i].body.value.tokenId)
  }

  /**
   Unreadable; or the put failed; or new, and the request was never made, for want of the APNs key or by an
   exception, or it raised, was refused, or was rejected with the row left unmarked.
   */
  predicate Reported(apnsReady: bool, t: Tables, qs: seq<Queued>, answers: seq<Answer>, i: nat)
    requires |qs| == |answers| && i < |qs|
  {
    || qs[i].body.None?
    || answers[i] == PutFails
    || (NewAtTurn(t, qs, answers, i) && answers[i] == Stopped)
    || (NewAtTurn(t, qs, answers, i) && qs[i].body.value.provider == "apns" && !apnsReady && answers[i] != PutRetried)
    || (NewAtTurn(t, qs, answers, i) && (qs[i].body.value.provider == "fcm" || (qs[i].body.value.provider == "apns" && apnsReady))
        && (answers[i] == Raised || answers[i] == Refused || answers[i] == Unmarked))
  }

  predicate DistinctMessages(qs: seq<Queued>) {
    forall i, j :: 0 <= i < j < |qs| ==> qs[i].messageId != qs[j].messageId
  }

  /** The log holds exactly the old keys and those of records whose put did not fail. */
  lemma {:induction false} LoggedKeys(apnsReady: bool, t: Tables, qs: seq<Queued>, answers: seq<Answer>, key: LogKey)
    requires |qs| == |answers|
    ensures key in ProcessAll(apnsReady, t, qs, answers).logs <==>
              key in t.logs || exists j :: 0 <= j < |qs| && qs[j].body.Some? && answers[j] != PutFails && KeyOf(qs[j].body.value) == key
  {
    if qs != [] {
      var n := |qs| - 1;
      LoggedKeys(apnsReady, t, qs[..n], answers[..n], key);
      assert forall j :: 0 <= j < n ==> qs[..n][j] == qs[j] && answers[..n][j] == answers[j];
    }
  }

  lemma ReportedStep(apnsReady: bool, t: Tables, qs: seq<Queued>, answers: seq<Answer>)
    requires |qs| == |answers| && qs != []
    ensures var n := |qs| - 1;
            Process(apnsReady, ProcessAll(apnsReady, t, qs[..n], answers[..n]), qs[n], answers[n]).1 <==> Reported(apnsReady, t, qs, answers, n)
    ensures var n := |qs| - 1;
            Failures(apnsReady, t, qs, answers) ==
            Failures(apnsReady, t, qs[..n], answers[..n]) + if Reported(apnsReady, t, qs, answers, n) then [qs[n].messageId] else []
  {
    if qs[|qs| - 1].body.Some? {
      NewIsUnlogged(apnsReady, t, qs, answers);
    }
  }

  /** Every reported id belongs to a record. */
  lemma {:induction false} ReportsAreRecords(apnsReady: bool, t: Tables, qs: seq<Queued>, answers: seq<Answer>, a: nat) returns (i: nat)
    requires |qs| == |answers| && a < |Failures(apnsReady, t, qs, answers)|
    ensures i < |qs| && Failures(apnsReady, t, qs, answers)[a] == qs[i].messageId && Reported(apnsReady, t, qs, answers, i)
  {
    var n := |qs| - 1;
    var before := Failures(apnsReady, t, qs[..n], answers[..n]);
    if a < |before| {
      i := ReportsAreRecords(apnsReady, t, qs[..n], answers[..n], a);
      ReportedPrefix(apnsReady, t, qs, answers, i);
    } else {
      ReportedStep(apnsReady, t, qs, answers);
      i := n;
    }
  }

  lemma ReportedPrefix(apnsReady: bool, t: Tables, qs: seq<Queued>, answers: seq<Answer>, i: nat)
    requires |qs| == |answers| && i < |qs| - 1
    ensures Reported(apnsReady, t, qs[..|qs| - 1], answers[..|qs| - 1], i) <==> Reported(apnsReady, t, qs, answers, i)
  {
    StillNew(t, qs, answers, i);
    assert qs[..|qs| - 1][i] == qs[i] && answers[..|qs| - 1][i] == answers[i];
  }

  /** With distinct message ids, batchItemFailures names a record exactly when it is to be reported. */
  lemma {:induction false} ReportedIff(apnsReady: bool, t: Tables, qs: seq<Queued>, answers: seq<Answer>, i: nat)
    requires |qs| == |answers| && i < |qs| && DistinctMessages(qs)
    ensures qs[i].messageId in Failures(apnsReady, t, qs, answers) <==> Reported(apnsReady, t, qs, answers, i)
  {
    var n := |qs| - 1;
    ReportedStep(apnsReady, t, qs, answers);
    if i < n {
      DistinctBefore(qs, i);
      ReportedIff(apnsReady, t, qs[..n], answers[..n], i);
      ReportedPrefix(apnsReady, t, qs, answers, i);
    } else {
      LastIsNew(apnsReady, t, qs, answers);
    }
  }

  lemma DistinctBefore(qs: seq<Queued>, i: nat)
    requires DistinctMessages(qs) && i < |qs| - 1
    ensures DistinctMessages(qs[..|qs| - 1]) && qs[..|qs| - 1][i] == qs[i] && qs[i].messageId != qs[|qs| - 1].messageId
  {
  }

  lemma LastIsNew(apnsReady: bool, t: Tables, qs: seq<Queued>, answers: seq<Answer>)
    requires |qs| == |answers| && qs != [] && DistinctMessages(qs)
    ensures qs[|qs| - 1].messageId !in Failures(apnsReady, t, qs[..|qs| - 1], answers[..|qs| - 1])
  {
    var n := |qs| - 1;
    var before := Failures(apnsReady, t, qs[..n], answers[..n]);
    forall a: nat | a < |before| ensures before[a] != qs[n].messageId {
      var j := ReportsAreRecords(apnsReady, t, qs[..n], answers[..n], a);
      assert qs[..n][j] == qs[j];
    }
  }

  /** The reports follow the records, each at most once. */
  lemma {:induction false} ReportsInOrder(apnsReady: bool, t: Tables, qs: seq<Queued>, answers: seq<Answer>, a: nat, b: nat)
    requires |qs| == |answers| && a < b < |Failures(apnsReady, t, qs, answers)|
    ensures exists i, j :: 0 <= i < j < |qs| && Failures(apnsReady, t, qs, answers)[a] == qs[i].messageId
                           && Failures(apnsReady, t, qs, answers)[b] == qs[j].messageId
  {
    var n := |qs| - 1;
    var before := Failures(apnsReady, t, qs[..n], answers[..n]);
    if b < |before| {
      ReportsInOrder(apnsReady, t, qs[..n], answers[..n], a, b);
      var i, j :| 0 <= i < j < n && before[a] == qs[..n][i].messageId && before[b] == qs[..n][j].messageId;
      assert qs[..n][i] == qs[i] && qs[..n][j] == qs[j];
    } else {
      var i := ReportsAreRecords(apnsReady, t, qs[..n], answers[..n], a);
      assert qs[..n][i] == qs[i];
    }
  }

  /** The provider's verdict, or that nothing final is known. */
  predicate StatusTells(apnsReady: bool, m: Message, a: Answer, status: LogStatus) {
    var asked := m.provider == "fcm" || (m.provider == "apns" && apnsReady);
    && (status == Sent <==> asked && a == Delivered)
    && (status == TokenInvalid <==> asked && (a == Unregistered || a == Unmarked))
    && (status == Failed <==> asked && a == Refused)
  }

  lemma FirstStatus(apnsReady: bool, t: Tables, q: Queued, a: Answer)
    requires q.body.Some? && KeyOf(q.body.value) !in t.logs && a != PutFails
    ensures var logs := Process(apnsReady, t, q, a).0.logs;
            KeyOf(q.body.value) in logs && StatusTells(apnsReady, q.body.value, a, logs[KeyOf(q.body.value)])
  {
  }

  lemma StatusStays(apnsReady: bool, t: Tables, q: Queued, a: Answer, key: LogKey)
    requires key in t.logs
    ensures key in Process(apnsReady, t, q, a).0.logs && Process(apnsReady, t, q, a).0.logs[key] == t.logs[key]
  {
  }

  /** What the log says in the end of a record that was new at its turn. */
  lemma {:induction false} StatusIs(apnsReady: bool, t: Tables, qs: seq<Queued>, answers: seq<Answer>, i: nat)
    requires |qs| == |answers| && i < |qs| && NewAtTurn(t, qs, answers, i) && answers[i] != PutFails
    ensures var logs, m := ProcessAll(apnsReady, t, qs, answers).logs, qs[i].body.value;
            (m.eventId, m.tokenId) in logs && StatusTells(apnsReady, m, answers[i], logs[(m.eventId, m.tokenId)])
  {
    var n := |qs| - 1;
    var key, before := KeyOf(qs[i].body.value), ProcessAll(apnsReady, t, qs[..n], answers[..n]);
    if i < n {
      StillNew(t, qs, answers, i);
      assert qs[..n][i] == qs[i] && answers[..n][i] == answers[i];
      StatusIs(apnsReady, t, qs[..n], answers[..n], i);
      StatusStays(apnsReady, before, qs[n], answers[n], key);
    } else {
      NewIsUnlogged(apnsReady, t, qs, answers);
      FirstStatus(apnsReady, before, qs[n], answers[n]);
    }
  }

  /** New at its turn, for a provider that is asked. */
  predicate AsksProvider(apnsReady: bool, t: Tables, qs: seq<Queued>, answers: seq<Answer>, i: nat)
    requires |qs| == |answers| && i < |qs|
  {
    && NewAtTurn(t, qs, answers, i)
    && (qs[i].body.value.provider == "fcm" || (qs[i].body.value.provider == "apns" && apnsReady))
  }

  /** The record's device is found to be gone, and this is its token row. */
  predicate Deactivates(apnsReady: bool, t: Tables, qs: seq<Queued>, answers: seq<Answer>, i: nat, row: (string, string))
    requires |qs| == |answers| && i < |qs|
  {
    && AsksProvider(apnsReady, t, qs, answers, i) && answers[i] == Unregistered
    && row == (qs[i].body.value.tenantId, qs[i].body.value.userId + "#" + qs[i].body.value.tokenId)
  }

  /** The record's request leaves the lambda, and this is its log key. */
  predicate Calls(apnsReady: bool, t: Tables, qs: seq<Queued>, answers: seq<Answer>, i: nat, key: LogKey)
    requires |qs| == |answers| && i < |qs|
  {
    && AsksProvider(apnsReady, t, qs, answers, i)
    && (answers[i] == Delivered || answers[i] == Unregistered || answers[i] == Unmarked || answers[i] == Refused || answers[i] == Raised)
    && key == (qs[i].body.value.eventId, qs[i].body.value.tokenId)
  }

  /** The key of the call that the record makes. */
  function CallOf(apnsReady: bool, t: Tables, qs: seq<Queued>, answers: seq<Answer>, i: nat): seq<LogKey>
    requires |qs| == |answers| && i < |qs|
  {
    if qs[i].body.Some? && Calls(apnsReady, t, qs, answers, i, KeyOf(qs[i].body.value)) then [KeyOf(qs[i].body.value)] else []
  }

  lemma LastCall(apnsReady: bool, t: Tables, qs: seq<Queued>, answers: seq<Answer>)
    requires |qs| == |answers| && qs != []
    ensures var n := |qs| - 1;
            ProcessAll(apnsReady, t, qs, answers).calls ==
            ProcessAll(apnsReady, t, qs[..n], answers[..n]).calls + CallOf(apnsReady, t, qs, answers, n)
  {
    if qs[|qs| - 1].body.Some? {
      NewIsUnlogged(apnsReady, t, qs, answers);
    }
  }

  predicate RowKept(t: Tables, r: Tables, row: (string, string)) {
    (row in r.tokens <==> row in t.tokens) && (row in t.tokens ==> r.tokens[row] == t.tokens[row])
  }

  predicate RowEnded(r: Tables, row: (string, string)) { row in r.tokens && !r.tokens[row] }

  lemma LastDeactivation(apnsReady: bool, t: Tables, qs: seq<Queued>, answers: seq<Answer>, row: (string, string))
    requires |qs| == |answers| && qs != []
    ensures var n := |qs| - 1;
            var before, after := ProcessAll(apnsReady, t, qs[..n], answers[..n]), ProcessAll(apnsReady, t, qs, answers);
            if Deactivates(apnsReady, t, qs, answers, n, row) then RowEnded(after, row) else RowKept(before, after, row)
  {
    if qs[|qs| - 1].body.Some? {
      NewIsUnlogged(apnsReady, t, qs, answers);
    }
  }

  lemma EarlierEffects(apnsReady: bool, t: Tables, qs: seq<Queued>, answers: seq<Answer>, i: nat, row: (string, string), key: LogKey)
    requires |qs| == |answers| && i < |qs| - 1
    ensures Deactivates(apnsReady, t, qs[..|qs| - 1], answers[..|qs| - 1], i, row) <==> Deactivates(apnsReady, t, qs, answers, i, row)
    ensures Calls(apnsReady, t, qs[..|qs| - 1], answers[..|qs| - 1], i, key) <==> Calls(apnsReady, t, qs, answers, i, key)
  {
    StillNew(t, qs, answers, i);
    assert qs[..|qs| - 1][i] == qs[i] && answers[..|qs| - 1][i] == answers[i];
  }

  /** A token row ends inactive if one of the records finds its device gone, and is left as it was by all others. */
  lemma {:induction false} DeactivatedIff(apnsReady: bool, t: Tables, qs: seq<Queued>, answers: seq<Answer>, row: (string, string))
    requires |qs| == |answers|
    ensures var r := ProcessAll(apnsReady, t, qs, answers);
            if exists i: nat :: i < |qs| && Deactivates(apnsReady, t, qs, answers, i, row) then RowEnded(r, row) else RowKept(t, r, row)
  {
    if qs != [] {
      var n := |qs| - 1;
      DeactivatedIff(apnsReady, t, qs[..n], answers[..n], row);
      LastDeactivation(apnsReady, t, qs, answers, row);
      forall i: nat | i < n
        ensures Deactivates(apnsReady, t, qs[..n], answers[..n], i, row) <==> Deactivates(apnsReady, t, qs, answers, i, row)
      {
        EarlierEffects(apnsReady, t, qs, answers, i, row, ("", ""));
      }
    }
  }

  /** Exactly the records new at their turn whose provider is asked and answers, or fails to, have sent a request. */
  lemma {:induction false} CalledIff(apnsReady: bool, t: Tables, qs: seq<Queued>, answers: seq<Answer>, key: LogKey)
    requires |qs| == |answers|
    ensures key in ProcessAll(apnsReady, t, qs, answers).calls <==>
              key in t.calls || exists i: nat :: i < |qs| && Calls(apnsReady, t, qs, answers, i, key)
  {
    if qs != [] {
      var n := |qs| - 1;
      CalledIff(apnsReady, t, qs[..n], answers[..n], key);
      LastCall(apnsReady, t, qs, answers);
      forall i: nat | i < n ensures Calls(apnsReady, t, qs[..n], answers[..n], i, key) <==> Calls(apnsReady, t, qs, answers, i, key) {
        EarlierEffects(apnsReady, t, qs, answers, i, ("", ""), key);
      }
    }
  }

  lemma StillNew(t: Tables, qs: seq<Queued>, answers: seq<Answer>, i: nat)
    requires |qs| == |answers| && i < |qs| - 1
    ensures NewAtTurn(t, qs[..|qs| - 1], answers[..|qs| - 1], i) <==> NewAtTurn(t, qs, answers, i)
  {
    var n := |qs| - 1;
    assert forall j :: 0 <= j < n ==> qs[..n][j] == qs[j] && answers[..n][j] == answers[j];
  }

  lemma NewIsUnlogged(apnsReady: bool, t: Tables, qs: seq<Queued>, answers: seq<Answer>)
    requires |qs| == |answers| && qs != [] && qs[|qs| - 1].body.Some?
    ensures var n := |qs| - 1;
            NewAtTurn(t, qs, answers, n) <==> KeyOf(qs[n].body.value) !in ProcessAll(apnsReady, t, qs[..n], answers[..n]).logs
  {
    var n := |qs| - 1;
    LoggedKeys(apnsReady, t, qs[..n], answers[..n], KeyOf(qs[n].body.value));
    assert forall j :: 0 <= j < n ==> qs[..n][j] == qs[j] && answers[..n][j] == answers[j];
  }

  // ---- Any redelivery, any interleaving ----

  datatype Pc =
    | Idle
    | Reserved(m: Message)
    | Called(m: Message, answer: Answer)
    | Finalized(m: Message)

  /** Answers after which finalize_delivery runs to its end. */
  predicate Settles(answer: Answer) { Calling(answer) && answer != Raised }

  datatype World = World(tables: Tables, pcs: map<nat, Pc>) {
    function PcOf(w: nat): Pc { if w in pcs then pcs[w] else Idle }
    function Goto(w: nat, pc: Pc): World { this.(pcs := pcs[w := pc]) }
  }

  datatype Action =
    | Receive(w: nat, m: Message)     // conditional put
    | Send(w: nat, answer: Answer)    // provider request
    | Finish(w: nat)                  // finalize_delivery
    | Invalidate(w: nat)              // mark_token_invalid
    | Crash(w: nat)                   // an exception or a timeout of the lambda

  /** An action that is not enabled changes nothing. Messages may be received any number of times. */
  function Apply(apnsReady: bool, s: World, a: Action): World {
    match a
    case Receive(w, m) =>
      if s.PcOf(w).Idle? && KeyOf(m) !in s.tables.logs then
        s.(tables := s.tables.(logs := s.tables.logs[KeyOf(m) := Pending])).Goto(w, Reserved(m))
      else s
    case Send(w, answer) =>
      var pc := s.PcOf(w);
      if !pc.Reserved? then s
      else if Callable(apnsReady, pc.m) then
        s.(tables := s.tables.(calls := s.tables.calls + [KeyOf(pc.m)])).Goto(w, if Settles(answer) then Called(pc.m, answer) else Idle)
      else s.Goto(w, Idle)
    case Finish(w) =>
      var pc := s.PcOf(w);
      if pc.Called? then
        s.(tables := s.tables.(logs := s.tables.logs[KeyOf(pc.m) := StatusFor(pc.answer)]))
        .Goto(w, if pc.answer == Unregistered then Finalized(pc.m) else Idle)
      else s
    case Invalidate(w) =>
      if s.PcOf(w).Finalized? then s.(tables := Deactivated(s.tables, s.PcOf(w).m)).Goto(w, Idle) else s
    case Crash(w) => s.Goto(w, Idle)
  }

  function Execute(apnsReady: bool, tokens: map<(string, string), bool>, schedule: seq<Action>): World {
    if schedule == [] then World(Tables(map[], tokens, []), map[])
    else Apply(apnsReady, Execute(apnsReady, tokens, schedule[..|schedule| - 1]), schedule[|schedule| - 1])
  }

  function CallsOf(calls: seq<LogKey>, key: LogKey): nat {
    if calls == [] then 0 else CallsOf(calls[..|calls| - 1], key) + if calls[|calls| - 1] == key then 1 else 0
  }

  lemma CallsSnoc(calls: seq<LogKey>, k: LogKey, key: LogKey)
    ensures CallsOf(calls + [k], key) == CallsOf(calls, key) + if k == key then 1 else 0
  {
    assert (calls + [k])[..|calls|] == calls;
  }

  /** A reservation belongs to one worker, and its provider call is still to come. */
  ghost predicate ReservationsHold(s: World) {
    && (forall key :: CallsOf(s.tables.calls, key) <= if key in s.tables.logs then 1 else 0)
    && (forall w :: s.PcOf(w).Reserved? ==> KeyOf(s.PcOf(w).m) in s.tables.logs && CallsOf(s.tables.calls, KeyOf(s.PcOf(w).m)) == 0)
    && (forall v, w :: v != w && s.PcOf(v).Reserved? && s.PcOf(w).Reserved? ==> KeyOf(s.PcOf(v).m) != KeyOf(s.PcOf(w).m))
  }

  lemma ApplyKeepsReservations(apnsReady: bool, s: World, a: Action)
    requires ReservationsHold(s)
    ensures ReservationsHold(Apply(apnsReady, s, a))
  {
    var r := Apply(apnsReady, s, a);
    if a.Send? && s.PcOf(a.w).Reserved? {
      forall key ensures CallsOf(s.tables.calls + [KeyOf(s.PcOf(a.w).m)], key)
                         == CallsOf(s.tables.calls, key) + if KeyOf(s.PcOf(a.w).m) == key then 1 else 0
      {
        CallsSnoc(s.tables.calls, KeyOf(s.PcOf(a.w).m), key);
      }
    }
    forall w | r.PcOf(w).Reserved?
      ensures r.PcOf(w) == s.PcOf(w) || (a.Receive? && a.w == w && r.PcOf(w).m == a.m && KeyOf(a.m) !in s.tables.logs)
    {
    }
  }

  /** Under any redelivery and interleaving the provider is called at most once per event and token. */
  lemma {:induction false} CalledAtMostOnce(apnsReady: bool, tokens: map<(string, string), bool>, schedule: seq<Action>, key: LogKey)
    ensures ReservationsHold(Execute(apnsReady, tokens, schedule))
    ensures CallsOf(Execute(apnsReady, tokens, schedule).tables.calls, key) <= 1
  {
    if schedule != [] {
      CalledAtMostOnce(apnsReady, tokens, schedule[..|schedule| - 1], key);
      ApplyKeepsReservations(apnsReady, Execute(apnsReady, tokens, schedule[..|schedule| - 1]), schedule[|schedule| - 1]);
    }
  }

  /** A worker's delivery is logged, as pending until it is finalized, and its call is counted once made. */
  ghost predicate OwnProgress(s: World, w: nat) {
    var pc := s.PcOf(w);
    !pc.Idle? ==>
      && KeyOf(pc.m) in s.tables.logs
      && (pc.Reserved? || pc.Called? ==> s.tables.logs[KeyOf(pc.m)] == Pending)
      && (pc.Called? ==> Settles(pc.answer) && CallsOf(s.tables.calls, KeyOf(pc.m)) == 1)
      && (pc.Finalized? ==> s.tables.logs[KeyOf(pc.m)] == TokenInvalid)
  }

  predicate Apart(s: World, v: nat, w: nat) {
    !s.PcOf(v).Idle? && !s.PcOf(w).Idle? ==> KeyOf(s.PcOf(v).m) != KeyOf(s.PcOf(w).m)
  }

  ghost predicate WorkInProgress(s: World) {
    && (forall w :: OwnProgress(s, w))
    && (forall v, w :: v != w ==> Apart(s, v, w))
  }

  /** A final status in the log stands for exactly one provider call. */
  ghost predicate FinalMeansCalled(t: Tables) {
    forall key :: key in t.logs && t.logs[key] != Pending ==> CallsOf(t.calls, key) == 1
  }

  ghost predicate LogsTruthful(s: World) {
    ReservationsHold(s) && WorkInProgress(s) && FinalMeansCalled(s.tables)
  }

  lemma OwnStepKeepsProgress(apnsReady: bool, s: World, a: Action)
    requires ReservationsHold(s) && OwnProgress(s, a.w)
    ensures OwnProgress(Apply(apnsReady, s, a), a.w)
  {
    if a.Send? && s.PcOf(a.w).Reserved? {
      CallsSnoc(s.tables.calls, KeyOf(s.PcOf(a.w).m), KeyOf(s.PcOf(a.w).m));
    }
  }

  lemma OthersKeepProgress(apnsReady: bool, s: World, a: Action, w: nat)
    requires w != a.w && OwnProgress(s, w) && OwnProgress(s, a.w) && Apart(s, a.w, w)
    ensures OwnProgress(Apply(apnsReady, s, a), w)
  {
    if a.Send? && s.PcOf(a.w).Reserved? && !s.PcOf(w).Idle? {
      CallsSnoc(s.tables.calls, KeyOf(s.PcOf(a.w).m), KeyOf(s.PcOf(w).m));
    }
    assert Apply(apnsReady, s, a).PcOf(w) == s.PcOf(w);
  }

  lemma StepKeepsApart(apnsReady: bool, s: World, a: Action, w: nat)
    requires w != a.w && OwnProgress(s, w) && OwnProgress(s, a.w) && Apart(s, a.w, w)
    ensures Apart(Apply(apnsReady, s, a), a.w, w) && Apply(apnsReady, s, a).PcOf(w) == s.PcOf(w)
  {
  }

  lemma ApplyKeepsProgress(apnsReady: bool, s: World, a: Action)
    requires LogsTruthful(s)
    ensures WorkInProgress(Apply(apnsReady, s, a))
  {
    var r := Apply(apnsReady, s, a);
    forall w ensures OwnProgress(r, w) {
      assert OwnProgress(s, w) && OwnProgress(s, a.w);
      if w == a.w { OwnStepKeepsProgress(apnsReady, s, a); }
      else { OthersKeepProgress(apnsReady, s, a, w); }
    }
    forall v, w | v != w ensures Apart(r, v, w) {
      assert OwnProgress(s, v) && OwnProgress(s, w) && OwnProgress(s, a.w) && Apart(s, v, w);
      if v != a.w { assert Apart(s, a.w, v); StepKeepsApart(apnsReady, s, a, v); }
      if w != a.w { assert Apart(s, a.w, w); StepKeepsApart(apnsReady, s, a, w); }
    }
  }

  lemma ApplyKeepsFinal(apnsReady: bool, s: World, a: Action)
    requires LogsTruthful(s)
    ensures FinalMeansCalled(Apply(apnsReady, s, a).tables)
  {
    assert OwnProgress(s, a.w);
    if a.Send? && s.PcOf(a.w).Reserved? {
      forall key ensures CallsOf(s.tables.calls + [KeyOf(s.PcOf(a.w).m)], key)
                         == CallsOf(s.tables.calls, key) + if KeyOf(s.PcOf(a.w).m) == key then 1 else 0
      {
        CallsSnoc(s.tables.calls, KeyOf(s.PcOf(a.w).m), key);
      }
    }
  }

  /** In every schedule a log entry that is no longer pending has had exactly one provider call. */
  lemma {:induction false} FinalStatusHasItsCall(apnsReady: bool, tokens: map<(string, string), bool>, schedule: seq<Action>)
    ensures LogsTruthful(Execute(apnsReady, tokens, schedule))
  {
    if schedule != [] {
      var before, a := schedule[..|schedule| - 1], schedule[|schedule| - 1];
      FinalStatusHasItsCall(apnsReady, tokens, before);
      ApplyKeepsReservations(apnsReady, Execute(apnsReady, tokens, before), a);
      ApplyKeepsProgress(apnsReady, Execute(apnsReady, tokens, before), a);
      ApplyKeepsFinal(apnsReady, Execute(apnsReady, tokens, before), a);
    }
  }

  /** Some message for exactly this row has been logged as rejected by the provider. */
  ghost predicate Rejected(t: Tables, row: (string, string)) {
    exists m: Message :: (m.tenantId, JoinKey(m.userId, m.tokenId)) == row && KeyOf(m) in t.logs && t.logs[KeyOf(m)] == TokenInvalid
  }

  ghost predicate Untouched(t: Tables, tokens: map<(string, string), bool>, row: (string, string)) {
    (row in t.tokens <==> row in tokens) && (row in tokens ==> t.tokens[row] == tokens[row])
  }

  lemma RejectionStays(apnsReady: bool, s: World, a: Action, row: (string, string))
    requires LogsTruthful(s) && Rejected(s.tables, row)
    ensures Rejected(Apply(apnsReady, s, a).tables, row)
  {
    var m: Message :| (m.tenantId, JoinKey(m.userId, m.tokenId)) == row && KeyOf(m) in s.tables.logs && s.tables.logs[KeyOf(m)] == TokenInvalid;
    var r := Apply(apnsReady, s, a);
    assert OwnProgress(s, a.w);
    assert KeyOf(m) in r.tables.logs && r.tables.logs[KeyOf(m)] == TokenInvalid;
  }

  /** In every schedule the token table changes only at rows for which a rejection has been logged. */
  lemma {:induction false} DeactivationHasItsLog(apnsReady: bool, tokens: map<(string, string), bool>, schedule: seq<Action>, row: (string, string))
    ensures var t := Execute(apnsReady, tokens, schedule).tables; Untouched(t, tokens, row) || Rejected(t, row)
  {
    if schedule != [] {
      var before, a := schedule[..|schedule| - 1], schedule[|schedule| - 1];
      var s := Execute(apnsReady, tokens, before);
      DeactivationHasItsLog(apnsReady, tokens, before, row);
      FinalStatusHasItsCall(apnsReady, tokens, before);
      if Rejected(s.tables, row) {
        RejectionStays(apnsReady, s, a, row);
      } else if a.Invalidate? && s.PcOf(a.w).Finalized? {
        var m := s.PcOf(a.w).m;
        assert OwnProgress(s, a.w);
        assert (m.tenantId, JoinKey(m.userId, m.tokenId)) == row ==> Rejected(s.tables, row);
      }
    }
  }

  // ---- What is and is not delivered ----

  /** Processing a message a second time changes nothing, whatever is answered then. */
  predicate Skipped(apnsReady: bool, t: Tables, q: Queued) {
    forall later: Answer :: Process(apnsReady, t, q, later).0 == t && (later != PutFails ==> !Process(apnsReady, t, q, later).1)
  }

  /**
   A message is skipped when it is redelivered exactly when its reservation has been written, by this pass
   or before: failures and crashes after that are not retried, a failed put is.
   */
  lemma RedeliveryIsSkippedIff(apnsReady: bool, t: Tables, q: Queued, a: Answer)
    requires q.body.Some?
    ensures Skipped(apnsReady, Process(apnsReady, t, q, a).0, q) <==> KeyOf(q.body.value) in t.logs || a != PutFails
  {
    var once := Process(apnsReady, t, q, a).0;
    var key := KeyOf(q.body.value);
    assert key in once.logs <==> key in t.logs || a != PutFails;
    if key !in once.logs {
      assert key in Process(apnsReady, once, q, Delivered).0.logs;
    }
  }

  predicate ForFcm(qs: seq<Queued>, key: LogKey) {
    exists i :: 0 <= i < |qs| && qs[i].body.Some? && qs[i].body.value.provider == "fcm" && KeyOf(qs[i].body.value) == key
  }

  predicate RowOfFcm(qs: seq<Queued>, row: (string, string)) {
    exists i :: 0 <= i < |qs| && qs[i].body.Some? && qs[i].body.value.provider == "fcm"
                && (qs[i].body.value.tenantId, JoinKey(qs[i].body.value.userId, qs[i].body.value.tokenId)) == row
  }

  /**
   From a cold start, whatever mix of records is processed, every request that leaves the lambda is for an
   FCM record of the queue, and only rows of FCM records are deactivated: APNs is never called.
   */
  lemma {:induction false} OnlyFcmIsCalled(t: Tables, qs: seq<Queued>, answers: seq<Answer>)
    requires |qs| == |answers|
    ensures var r := ProcessAll(false, t, qs, answers);
            && t.calls <= r.calls
            && (forall j :: |t.calls| <= j < |r.calls| ==> ForFcm(qs, r.calls[j]))
            && (forall row :: Untouched(r, t.tokens, row) || RowOfFcm(qs, row))
  {
    if qs != [] {
      var n := |qs| - 1;
      var s, r := ProcessAll(false, t, qs[..n], answers[..n]), ProcessAll(false, t, qs, answers);
      OnlyFcmIsCalled(t, qs[..n], answers[..n]);
      forall j | |t.calls| <= j < |r.calls| ensures ForFcm(qs, r.calls[j]) {
        if j < |s.calls| {
          LongerQueueForFcm(qs, s.calls[j]);
        } else {
          assert KeyOf(qs[n].body.value) == r.calls[j];
        }
      }
      forall row ensures Untouched(r, t.tokens, row) || RowOfFcm(qs, row) {
        if RowOfFcm(qs[..n], row) {
          LongerQueueRowOfFcm(qs, row);
        } else if !Untouched(r, t.tokens, row) {
          assert (qs[n].body.value.tenantId, JoinKey(qs[n].body.value.userId, qs[n].body.value.tokenId)) == row;
        }
      }
    }
  }

  lemma LongerQueueForFcm(qs: seq<Queued>, key: LogKey)
    requires qs != [] && ForFcm(qs[..|qs| - 1], key)
    ensures ForFcm(qs, key)
  {
    var init := qs[..|qs| - 1];
    var i :| 0 <= i < |init| && init[i].body.Some? && init[i].body.value.provider == "fcm" && KeyOf(init[i].body.value) == key;
    assert qs[i] == init[i];
  }

  lemma LongerQueueRowOfFcm(qs: seq<Queued>, row: (string, string))
    requires qs != [] && RowOfFcm(qs[..|qs| - 1], row)
    ensures RowOfFcm(qs, row)
  {
    var init := qs[..|qs| - 1];
    var i :| 0 <= i < |init| && init[i].body.Some? && init[i].body.value.provider == "fcm"
             && (init[i].body.value.tenantId, JoinKey(init[i].body.value.userId, init[i].body.value.tokenId)) == row;
    assert qs[i] == init[i];
  }

  /** A token the provider rejects deactivates exactly the row the router made the message from. */
  lemma InvalidTokenDeactivatesItsRow(apnsReady: bool, t: Tables, e: Event, row: TokenRow, messageId: string)
    requires '#' in row.sk
    requires var m := ToMessage(e, row).value; KeyOf(m) !in t.logs && Callable(apnsReady, m)
    ensures var (r, failed) := Process(apnsReady, t, Queued(messageId, ToMessage(e, row)), Unregistered);
            !failed && r.tokens == t.tokens[(e.tenantId, row.sk) := false]
  {
    MessageNamesItsRow(e, row);
  }

  function TokenIds(qs: seq<Queued>): seq<string>
    requires forall i :: 0 <= i < |qs| ==> qs[i].body.Some?
  {
    seq(|qs|, i requires 0 <= i < |qs| => qs[i].body.value.tokenId)
  }

  predicate Distinct(ids: seq<string>) {
    forall i, j :: 0 <= i < j < |ids| ==> ids[i] != ids[j]
  }

  /** The messages of one fan-out, all callable, of an event not dispatched before. */
  predicate FreshFanOut(t: Tables, eventId: string, qs: seq<Queued>) {
    && (forall i :: 0 <= i < |qs| ==> qs[i].body.Some? && qs[i].body.value.eventId == eventId && qs[i].body.value.provider == "fcm")
    && (forall k :: k in t.logs ==> k.0 != eventId)
  }

  lemma DistinctSnoc(before: seq<string>, id: string)
    ensures Distinct(before + [id]) <==> Distinct(before) && id !in before
  {
    var ids := before + [id];
    if Distinct(ids) {
      forall i, j | 0 <= i < j < |before| ensures before[i] != before[j] {
        assert ids[i] != ids[j];
      }
      forall i | 0 <= i < |before| ensures before[i] != id {
        assert ids[i] != ids[|before|];
      }
    }
  }

  predicate AllCalling(answers: seq<Answer>) {
    forall i :: 0 <= i < |answers| ==> Calling(answers[i])
  }

  /** A fresh fan-out without mishaps logs each device id and calls the provider for it the first time it comes up. */
  ghost predicate FanOutDone(t: Tables, eventId: string, ids: seq<string>, clean: bool, r: Tables) {
    && (clean ==> forall token :: (eventId, token) in r.logs <==> token in ids)
    && |t.calls| <= |r.calls| <= |t.calls| + |ids|
    && (|r.calls| == |t.calls| + |ids| <==> clean && Distinct(ids))
  }

  lemma AllCallingSnoc(answers: seq<Answer>)
    requires answers != []
    ensures AllCalling(answers) <==> AllCalling(answers[..|answers| - 1]) && Calling(answers[|answers| - 1])
  {
    assert forall i :: 0 <= i < |answers| - 1 ==> answers[..|answers| - 1][i] == answers[i];
  }

  lemma {:induction false} FanOutLogs(t: Tables, eventId: string, qs: seq<Queued>, answers: seq<Answer>)
    requires |qs| == |answers| && FreshFanOut(t, eventId, qs)
    ensures FanOutDone(t, eventId, TokenIds(qs), AllCalling(answers), ProcessAll(false, t, qs, answers))
  {
    if qs != [] {
      var n := |qs| - 1;
      FanOutLogs(t, eventId, qs[..n], answers[..n]);
      assert TokenIds(qs) == TokenIds(qs[..n]) + [qs[n].body.value.tokenId];
      AllCallingSnoc(answers);
      DistinctSnoc(TokenIds(qs[..n]), qs[n].body.value.tokenId);
      FanOutStep(t, eventId, TokenIds(qs[..n]), AllCalling(answers[..n]), ProcessAll(false, t, qs[..n], answers[..n]), qs[n], answers[n]);
    }
  }

  lemma FanOutStep(t: Tables, eventId: string, ids: seq<string>, clean: bool, s: Tables, q: Queued, answer: Answer)
    requires FanOutDone(t, eventId, ids, clean, s)
    requires q.body.Some? && q.body.value.eventId == eventId && q.body.value.provider == "fcm"
    requires Distinct(ids + [q.body.value.tokenId]) <==> Distinct(ids) && q.body.value.tokenId !in ids
    ensures FanOutDone(t, eventId, ids + [q.body.value.tokenId], clean && Calling(answer), Process(false, s, q, answer).0)
  {
  }

  /**
   Every device of a fan-out gets its own provider call exactly when every put is written and heard of,
   nothing raises between reservation and request, and no two rows share a device id.
   */
  lemma FanOutReachesAllIff(t: Tables, eventId: string, qs: seq<Queued>, answers: seq<Answer>)
    requires |qs| == |answers| && FreshFanOut(t, eventId, qs)
    ensures |ProcessAll(false, t, qs, answers).calls| == |t.calls| + |qs| <==> AllCalling(answers) && Distinct(TokenIds(qs))
  {
    FanOutLogs(t, eventId, qs, answers);
  }

  // ---- From the router's queue to the provider ----

  /** The dispatcher's records carry exactly what the router queued, in order. */
  predicate Delivers(ms: seq<Message>, qs: seq<Queued>) {
    |qs| == |ms| && forall i :: 0 <= i < |qs| ==> qs[i].body == Some(ms[i])
  }

  /** Messages of FCM rows, in the order of the rows, are a fresh fan-out of their event. */
  lemma RowsMakeFanOut(t: Tables, e: Event, rows: seq<TokenRow>, qs: seq<Queued>)
    requires |qs| == |rows| && forall i :: 0 <= i < |qs| ==> qs[i].body.Some? && NamesRow(e, qs[i].body.value, rows[i])
    requires forall i :: 0 <= i < |rows| ==> rows[i].provider.None? || rows[i].provider.value == "fcm"
    requires forall k :: k in t.logs ==> k.0 != e.eventId
    ensures FreshFanOut(t, e.eventId, qs)
  {
  }

  /**
   Whatever platforms the selected rows of a tenant have: when their provider is FCM or not given, the router
   has succeeded and nobody has dispatched the event yet, every row gets its own provider call exactly when
   no reservation goes wrong, nothing raises before a request, and the device ids are distinct.
   */
  lemma RoutedFanOutReachesAllIff(t: Tables, r: Record, tokens: map<string, seq<seq<TokenRow>>>, accepted: nat,
                                  qs: seq<Queued>, answers: seq<Answer>)
    requires !MustFail(r, tokens, accepted)
    requires forall i :: 0 <= i < |SelectedRows(r, tokens)| ==>
               SelectedRows(r, tokens)[i].provider.None? || SelectedRows(r, tokens)[i].provider.value == "fcm"
    requires Delivers(AllBodies(Routed(r, tokens, accepted).0), qs) && |qs| == |answers|
    requires forall k :: k in t.logs ==> k.0 != r.body.value.eventId
    ensures |qs| == |SelectedRows(r, tokens)|
    ensures forall i :: 0 <= i < |qs| ==> qs[i].body.Some? && NamesRow(r.body.value, qs[i].body.value, SelectedRows(r, tokens)[i])
    ensures |ProcessAll(false, t, qs, answers).calls| == |t.calls| + |SelectedRows(r, tokens)| <==>
              AllCalling(answers) && Distinct(TokenIds(qs))
  {
    RoutedFailsIff(r, tokens, accepted);
    SuccessCoversSelection(r, tokens, accepted);
    RowsMakeFanOut(t, r.body.value, SelectedRows(r, tokens), qs);
    FanOutReachesAllIff(t, r.body.value.eventId, qs, answers);
  }
}
