/**
 IncidentService: looking up the active incident of a fingerprint, recording a duplicate occurrence,
 and persisting a new incident with its analysis, alert deliveries and outbox events.
 Each writing method is one database transaction: it commits as a whole or leaves the tables alone.
 */
module Incidents {
  import opened Common

  /** UUIDs are only compared; uuid4 results are assumed not to repeat. */
  type Id = nat

  datatype Status = Open | Investigating | Resolved | Closed | Draft | Duplicate

  datatype Incident = Incident(
    tenant: Id, fingerprint: string, status: Status, severity: string, confidence: Option<real>,
    isDraft: bool, occurrenceCount: int, occurrences: seq<string>)
  {
    /** The WHERE clause of the lookup and of the partial unique index. */
    predicate Active(t: Id, fp: string) {
      tenant == t && fingerprint == fp && status != Resolved
    }
  }

  datatype Analysis = Analysis(incident: Id, tenant: Id, severity: string)

  datatype Destination = Destination(kind: string, address: string)

  datatype Delivery = Delivery(tenant: Id, incident: Id, destination: Destination, status: string)

  datatype OutboxEvent =
    | Created(tenant: Id, incident: Id, severity: string)
    | Analyzed(tenant: Id, incident: Id, analysis: Id)
    | DuplicateDetected(tenant: Id, incident: Id, count: int, s3Key: string)

  datatype Db = Db(
    incidents: map<Id, Incident>, analyses: map<Id, Analysis>, deliveries: seq<Delivery>, outbox: seq<OutboxEvent>)
  {
    predicate HasActive(t: Id, fp: string) {
      exists id :: id in incidents && incidents[id].Active(t, fp)
    }
  }

  datatype DbError = UniqueViolation | CommitFailed

  // ---- Alert rules ----

  datatype AlertRule = AlertRule(
    tenant: Id, enabled: bool, severityFilter: seq<string>, threshold: Option<real>, destinations: seq<Destination>)
  {
    predicate Matches(t: Id, severity: string, confidence: Option<real>) {
      && tenant == t && enabled
      && severity in severityFilter
      && (confidence.Some? ==> confidence.value >= if threshold.Some? then threshold.value else 0.0)
    }
  }

  const VALID_SEVERITIES := {"critical", "high", "medium", "low"}

  predicate ValidSeverityFilter(filter: seq<string>) {
    forall v :: v in filter ==> v in VALID_SEVERITIES
  }

  /** Deliveries of all earlier rules come first. */
  function Offset(rules: seq<AlertRule>, t: Id, severity: string, confidence: Option<real>, r: nat): nat
    requires r <= |rules|
  {
    if r == 0 then 0
    else Offset(rules, t, severity, confidence, r - 1)
         + if rules[r - 1].Matches(t, severity, confidence) then |rules[r - 1].destinations| else 0
  }

  /** Position p belongs to destination j of the matching rule r. */
  predicate ComesFrom(rules: seq<AlertRule>, t: Id, severity: string, confidence: Option<real>, p: nat, r: nat, j: nat) {
    && r < |rules| && rules[r].Matches(t, severity, confidence)
    && j < |rules[r].destinations| && p == Offset(rules, t, severity, confidence, r) + j
  }

  /** One pending delivery per destination of each of the first upTo rules that match, each at its own position. */
  ghost predicate DeliversOnce(rules: seq<AlertRule>, t: Id, incident: Id, severity: string, confidence: Option<real>,
                               upTo: nat, ds: seq<Delivery>)
    requires upTo <= |rules|
  {
    && |ds| == Offset(rules, t, severity, confidence, upTo)
    && (forall r: nat, j: nat, p: nat :: r < upTo && ComesFrom(rules, t, severity, confidence, p, r, j) ==>
          p < |ds| && ds[p] == Delivery(t, incident, rules[r].destinations[j], "pending"))
  }

  lemma {:induction false} OffsetMonotone(rules: seq<AlertRule>, t: Id, severity: string, confidence: Option<real>, r: nat, q: nat)
    requires r <= q <= |rules|
    ensures Offset(rules, t, severity, confidence, r) <= Offset(rules, t, severity, confidence, q)
    ensures r < q && rules[r].Matches(t, severity, confidence) ==>
              Offset(rules, t, severity, confidence, r) + |rules[r].destinations| <= Offset(rules, t, severity, confidence, q)
  {
    if r < q {
      OffsetMonotone(rules, t, severity, confidence, r, q - 1);
    }
  }

  lemma RuleAppends(rules: seq<AlertRule>, t: Id, incident: Id, severity: string, confidence: Option<real>,
                    i: nat, before: seq<Delivery>, added: seq<Delivery>)
    requires i < |rules| && DeliversOnce(rules, t, incident, severity, confidence, i, before)
    requires rules[i].Matches(t, severity, confidence) && |added| == |rules[i].destinations|
    requires forall k :: 0 <= k < |added| ==> added[k] == Delivery(t, incident, rules[i].destinations[k], "pending")
    ensures DeliversOnce(rules, t, incident, severity, confidence, i + 1, before + added)
  {
    var ds := before + added;
    forall r: nat, j: nat, p: nat | r < i + 1 && ComesFrom(rules, t, severity, confidence, p, r, j)
      ensures p < |ds| && ds[p] == Delivery(t, incident, rules[r].destinations[j], "pending")
    {
      if r < i {
        assert ds[p] == before[p];
      } else {
        assert ds[p] == added[j];
      }
    }
  }

  /** Every delivery stems from one destination of one matching rule. */
  lemma {:induction false} EveryDeliveryHasItsRule(rules: seq<AlertRule>, t: Id, severity: string, confidence: Option<real>, upTo: nat, p: nat)
    requires upTo <= |rules| && p < Offset(rules, t, severity, confidence, upTo)
    ensures exists r: nat, j: nat :: ComesFrom(rules, t, severity, confidence, p, r, j)
  {
    var before := Offset(rules, t, severity, confidence, upTo - 1);
    if p < before {
      EveryDeliveryHasItsRule(rules, t, severity, confidence, upTo - 1, p);
    } else {
      assert ComesFrom(rules, t, severity, confidence, p, upTo - 1, p - before);
    }
  }

  /** Nothing is delivered exactly when no matching rule names a destination. */
  lemma SilentIffNoRuleMatches(rules: seq<AlertRule>, t: Id, incident: Id, severity: string, confidence: Option<real>, ds: seq<Delivery>)
    requires DeliversOnce(rules, t, incident, severity, confidence, |rules|, ds)
    ensures ds == [] <==> forall r :: 0 <= r < |rules| && rules[r].Matches(t, severity, confidence) ==> rules[r].destinations == []
  {
    if ds != [] {
      EveryDeliveryHasItsRule(rules, t, severity, confidence, |rules|, 0);
    }
    forall r | 0 <= r < |rules| && rules[r].Matches(t, severity, confidence) && rules[r].destinations != []
      ensures ds != []
    {
      OffsetMonotone(rules, t, severity, confidence, r, |rules|);
    }
  }

  /** What is delivered, in the words of the rules: who, to which destination, for which rule. */
  lemma DeliveredIff(rules: seq<AlertRule>, t: Id, incident: Id, severity: string, confidence: Option<real>, ds: seq<Delivery>, d: Delivery)
    requires DeliversOnce(rules, t, incident, severity, confidence, |rules|, ds)
    ensures d in ds <==>
              && d.tenant == t && d.incident == incident && d.status == "pending"
              && exists r :: 0 <= r < |rules| && rules[r].tenant == t && rules[r].enabled && severity in rules[r].severityFilter
                   && (confidence.Some? && rules[r].threshold.Some? ==> confidence.value >= rules[r].threshold.value)
                   && (confidence.Some? && rules[r].threshold.None? ==> confidence.value >= 0.0)
                   && d.destination in rules[r].destinations
  {
    if d in ds {
      var p: nat :| p < |ds| && ds[p] == d;
      EveryDeliveryHasItsRule(rules, t, severity, confidence, |rules|, p);
      var r: nat, j: nat :| ComesFrom(rules, t, severity, confidence, p, r, j);
      assert rules[r].Matches(t, severity, confidence) && d.destination == rules[r].destinations[j];
    }
    forall r: nat | r < |rules| && rules[r].Matches(t, severity, confidence) && d.destination in rules[r].destinations
                    && d.tenant == t && d.incident == incident && d.status == "pending"
      ensures d in ds
    {
      var j: nat :| j < |rules[r].destinations| && rules[r].destinations[j] == d.destination;
      OffsetMonotone(rules, t, severity, confidence, r, |rules|);
      assert ComesFrom(rules, t, severity, confidence, Offset(rules, t, severity, confidence, r) + j, r, j);
    }
  }

  /** The deliveries are determined by the rules, position by position. */
  lemma DeliveriesDetermined(rules: seq<AlertRule>, t: Id, incident: Id, severity: string, confidence: Option<real>, a: seq<Delivery>, b: seq<Delivery>)
    requires DeliversOnce(rules, t, incident, severity, confidence, |rules|, a)
    requires DeliversOnce(rules, t, incident, severity, confidence, |rules|, b)
    ensures a == b
  {
    forall p: nat | p < |a| ensures a[p] == b[p] {
      EveryDeliveryHasItsRule(rules, t, severity, confidence, |rules|, p);
      var r: nat, j: nat :| ComesFrom(rules, t, severity, confidence, p, r, j);
    }
  }

  /** A low-confidence incident is filed as "unknown", which no validated filter contains. */
  lemma LowConfidenceIsSilent(rules: seq<AlertRule>, t: Id, incident: Id, agentSeverity: string, eventSeverity: string, severity: string,
                              confidence: Option<real>, ds: seq<Delivery>)
    requires forall r :: 0 <= r < |rules| ==> ValidSeverityFilter(rules[r].severityFilter)
    requires Chosen(true, agentSeverity, eventSeverity, severity)
    requires DeliversOnce(rules, t, incident, severity, confidence, |rules|, ds)
    ensures ds == []
  {
    SilentIffNoRuleMatches(rules, t, incident, "unknown", confidence, ds);
    forall r | 0 <= r < |rules| ensures "unknown" !in rules[r].severityFilter {
      assert forall v :: v in VALID_SEVERITIES ==> v != "unknown" by {
        assert "unknown"[0] == 'u';
      }
      assert ValidSeverityFilter(rules[r].severityFilter);
    }
  }

  // ---- Transactions ----

  /** The severity of a new incident: a draft has none, otherwise the agent's goes before the event's. */
  predicate Chosen(isDraft: bool, agentSeverity: string, eventSeverity: string, severity: string) {
    && (isDraft ==> severity == "unknown")
    && (!isDraft && agentSeverity != "" ==> severity == agentSeverity)
    && (!isDraft && agentSeverity == "" && eventSeverity != "" ==> severity == eventSeverity)
    && (!isDraft && agentSeverity == "" && eventSeverity == "" ==> severity == "unknown")
  }

  /** The database a committed incident leaves behind. */
  ghost predicate Persisted(db: Db, after: Db, tenant: Id, fp: string, s3Key: string, severity: string, confidence: Option<real>,
                            rules: seq<AlertRule>, incidentId: Id, analysisId: Id)
  {
    && after.incidents == db.incidents[incidentId := NewIncident(tenant, fp, severity, confidence, s3Key)]
    && after.analyses == db.analyses[analysisId := Analysis(incidentId, tenant, severity)]
    // a draft publishes like any other incident
    && after.outbox == db.outbox + [Created(tenant, incidentId, severity), Analyzed(tenant, incidentId, analysisId)]
    && |db.deliveries| <= |after.deliveries| && after.deliveries[..|db.deliveries|] == db.deliveries
    && DeliversOnce(rules, tenant, incidentId, severity, confidence, |rules|, after.deliveries[|db.deliveries|..])
  }

  /** With a severity from the agent, or none wanted, the one of the log event has no influence on the database at all. */
  lemma EventSeverityIsFallback(db: Db, a: Db, b: Db, tenant: Id, fp: string, s3Key: string, isDraft: bool, agentSeverity: string,
                                event1: string, event2: string, severity1: string, severity2: string,
                                confidence: Option<real>, rules: seq<AlertRule>, incidentId: Id, analysisId: Id)
    requires isDraft || agentSeverity != ""
    requires Chosen(isDraft, agentSeverity, event1, severity1) && Chosen(isDraft, agentSeverity, event2, severity2)
    requires Persisted(db, a, tenant, fp, s3Key, severity1, confidence, rules, incidentId, analysisId)
    requires Persisted(db, b, tenant, fp, s3Key, severity2, confidence, rules, incidentId, analysisId)
    ensures a == b
  {
    var n := |db.deliveries|;
    DeliveriesDetermined(rules, tenant, incidentId, severity1, confidence, a.deliveries[n..], b.deliveries[n..]);
    assert a.deliveries == a.deliveries[..n] + a.deliveries[n..] && b.deliveries == b.deliveries[..n] + b.deliveries[n..];
  }

  /** UPDATE … SET count = count + 1 … RETURNING, with the outbox row; a deleted row leaves the stale count. */
  function DuplicateRecorded(db: Db, id: Id, snapshot: Incident, s3Key: string): (Db, int) {
    if id in db.incidents then
      var row := db.incidents[id];
      var n := row.occurrenceCount + 1;
      (db.(incidents := db.incidents[id := row.(occurrenceCount := n, occurrences := row.occurrences + [s3Key])],
           outbox := db.outbox + [DuplicateDetected(snapshot.tenant, id, n, s3Key)]), n)
    else
      (db.(outbox := db.outbox + [DuplicateDetected(snapshot.tenant, id, snapshot.occurrenceCount, s3Key)]),
       snapshot.occurrenceCount)
  }

  /** The row persist_new_incident inserts: always open, never a draft. */
  function NewIncident(tenant: Id, fp: string, severity: string, confidence: Option<real>, s3Key: string): Incident {
    Incident(tenant, fp, Open, severity, confidence, false, 1, [s3Key])
  }

  class IncidentService {
    var db: Db
    /** Whether the partial unique index uq_incidents_tenant_fingerprint_active exists. */
    const indexed: bool

    constructor (db: Db, indexed: bool)
      ensures this.db == db && this.indexed == indexed
    {
      this.db := db;
      this.indexed := indexed;
    }

    method FindActiveByFingerprint(tenant: Id, fp: string) returns (found: Option<Id>)
      ensures found.Some? ==> found.value in db.incidents && db.incidents[found.value].tenant == tenant
                              && db.incidents[found.value].fingerprint == fp && db.incidents[found.value].status != Resolved
      ensures found.None? ==> forall id :: id in db.incidents && db.incidents[id].tenant == tenant && db.incidents[id].fingerprint == fp ==>
                                db.incidents[id].status == Resolved
      ensures found.None? <==> !db.HasActive(tenant, fp)
    {
      if db.HasActive(tenant, fp) {
        var id :| id in db.incidents && db.incidents[id].Active(tenant, fp);
        return Some(id);
      }
      return None;
    }

    /** `commits` is false when the database refuses the transaction. */
    method RecordDuplicateOccurrence(id: Id, snapshot: Incident, s3Key: string, commits: bool)
      returns (r: Result<int, DbError>)
      modifies this`db
      ensures r.Ok? <==> commits
      ensures r.Err? ==> db == old(db)
      ensures r.Ok? ==> (db, r.value) == DuplicateRecorded(old(db), id, snapshot, s3Key)
      ensures r.Ok? && id in old(db).incidents ==>
                var was := old(db).incidents[id];
                && db.incidents == old(db).incidents[id := Incident(was.tenant, was.fingerprint, was.status, was.severity, was.confidence,
                                                                    was.isDraft, was.occurrenceCount + 1, was.occurrences + [s3Key])]
                && r.value == was.occurrenceCount + 1
      ensures r.Ok? && id !in old(db).incidents ==> db.incidents == old(db).incidents && r.value == snapshot.occurrenceCount
      ensures r.Ok? ==> db.outbox == old(db).outbox + [DuplicateDetected(snapshot.tenant, id, r.value, s3Key)]
      ensures db.analyses == old(db).analyses && db.deliveries == old(db).deliveries
    {
      var work := db;
      var newCount: int;
      if id in work.incidents {
        var row := work.incidents[id];
        row := row.(occurrenceCount := row.occurrenceCount + 1);
        row := row.(occurrences := row.occurrences + [s3Key]);
        work := work.(incidents := work.incidents[id := row]);
        newCount := row.occurrenceCount;
      } else {
        newCount := snapshot.occurrenceCount;
      }
      work := work.(outbox := work.outbox + [DuplicateDetected(snapshot.tenant, id, newCount, s3Key)]);
      if !commits {
        return Err(CommitFailed);
      }
      db := work;
      return Ok(newCount);
    }

    method PersistNewIncident(tenant: Id, fp: string, s3Key: string, agentSeverity: string, eventSeverity: string,
                              confidence: Option<real>, isDraft: bool, rules: seq<AlertRule>,
                              incidentId: Id, analysisId: Id, commits: bool)
      returns (r: Result<Id, DbError>)
      requires incidentId !in db.incidents && analysisId !in db.analyses
      modifies this`db
      ensures r.Err? ==> db == old(db)
      ensures r.Err? <==> !commits || (indexed && old(db).HasActive(tenant, fp))
      ensures r == Err(UniqueViolation) <==> indexed && old(db).HasActive(tenant, fp)
      ensures r.Ok? ==>
                && r.value == incidentId && incidentId in db.incidents
                && Chosen(isDraft, agentSeverity, eventSeverity, db.incidents[incidentId].severity)
                && Persisted(old(db), db, tenant, fp, s3Key, db.incidents[incidentId].severity, confidence, rules, incidentId, analysisId)
      ensures r.Ok? ==>
                && (!isDraft && agentSeverity != "" ==> db.incidents[incidentId].severity == agentSeverity)
                && (!isDraft && agentSeverity == "" && eventSeverity != "" ==> db.incidents[incidentId].severity == eventSeverity)
                && (isDraft || (agentSeverity == "" && eventSeverity == "") ==> db.incidents[incidentId].severity == "unknown")
      ensures r.Ok? ==>
                var row := db.incidents[incidentId];
                && row.tenant == tenant && row.fingerprint == fp && row.status == Open && !row.isDraft
                && row.confidence == confidence && row.occurrenceCount == 1 && row.occurrences == [s3Key]
    {
      var severity;
      if isDraft {
        severity := "unknown";
      } else {
        severity := if agentSeverity != "" then agentSeverity else if eventSeverity != "" then eventSeverity else "unknown";
      }
      var pending: seq<Delivery> := [];
      for i := 0 to |rules|
        invariant db == old(db)
        invariant DeliversOnce(rules, tenant, incidentId, severity, confidence, i, pending)
      {
        var rule := rules[i];
        if !(rule.tenant == tenant && rule.enabled) { continue; }
        if severity !in rule.severityFilter { continue; }
        var threshold := if rule.threshold.Some? then rule.threshold.value else 0.0;
        if confidence.Some? && confidence.value < threshold { continue; }
        var added: seq<Delivery> := [];
        for j := 0 to |rule.destinations|
          invariant db == old(db) && |added| == j
          invariant forall k :: 0 <= k < j ==> added[k] == Delivery(tenant, incidentId, rule.destinations[k], "pending")
        {
          added := added + [Delivery(tenant, incidentId, rule.destinations[j], "pending")];
        }
        RuleAppends(rules, tenant, incidentId, severity, confidence, i, pending, added);
        pending := pending + added;
      }
      if indexed && db.HasActive(tenant, fp) {
        return Err(UniqueViolation);
      }
      if !commits {
        return Err(CommitFailed);
      }
      var incident := NewIncident(tenant, fp, severity, confidence, s3Key);
      db := Db(db.incidents[incidentId := incident],
               db.analyses[analysisId := Analysis(incidentId, tenant, severity)],
               db.deliveries + pending,
               db.outbox + [Created(tenant, incidentId, severity), Analyzed(tenant, incidentId, analysisId)]);
      assert db.deliveries[|old(db).deliveries|..] == pending;
      return Ok(incidentId);
    }
  }
}
