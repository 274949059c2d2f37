/**
 The deduplication protocol of run_agent: acquire the Redis lock of a fingerprint, look for an active
 incident, record a duplicate or persist a new one, release the lock. Workers interleave at every
 Redis command and transaction; locks expire, Redis and transactions fail, workers are killed, and
 users change or delete incidents at any time.
 */
module DedupProtocol {
  import opened Common
  import opened Incidents

  /** DEDUP_LOCK_TTL_SECONDS */
  const LOCK_TTL := 30.0

  datatype Job = Job(tenant: Id, fingerprint: string, s3Key: string)

  datatype Pc =
    | Idle
    | Holding(job: Job)                              // acquire returned True
    | FoundNone(job: Job)                            // the lookup saw no active incident
    | Found(job: Job, id: Id, snapshot: Incident)    // the lookup returned this row
    | Releasing(job: Job)

  datatype Lease = Lease(owner: nat, expires: real)

  datatype World = World(db: Db, seen: set<Id>, locks: map<string, Lease>, now: real, pcs: map<nat, Pc>)
  {
    function PcOf(w: nat): Pc { if w in pcs then pcs[w] else Idle }

    function Goto(w: nat, pc: Pc): World { this.(pcs := pcs[w := pc]) }

    predicate Locked(fp: string) { fp in locks && now < locks[fp].expires }
  }

  datatype Action =
    | Acquire(w: nat, job: Job)          // SET NX EX: Holding, or back to Idle on contention
    | AcquireFails(w: nat, job: Job)     // RedisError, nothing executed: fail open
    | AcquireUnheard(w: nat, job: Job)   // executed, but the reply is lost: fail open all the same
    | Lookup(w: nat, pick: Id)           // SELECT … LIMIT 1 returns `pick` if anything
    | RecordDuplicate(w: nat)
    | Persist(w: nat, id: Id)            // INSERT under a fresh uuid, subject to the index
    | GiveUp(w: nat)                     // an exception, or a non-actionable result
    | Release(w: nat)                    // DEL, whoever holds the lock now
    | ReleaseFails(w: nat)               // nothing executed; a lost reply is a Release
    | Kill(w: nat)
    | Tick(seconds: real)
    | SetStatus(id: Id, status: Status)
    | DeleteRow(id: Id)

  const START := World(Db(map[], map[], [], []), {}, map[], 0.0, map[])

  // ---- Steps ----

  function InsertRow(s: World, job: Job, id: Id): World {
    var row := NewIncident(job.tenant, job.fingerprint, "unknown", None, job.s3Key);
    s.(db := s.db.(incidents := s.db.incidents[id := row],
                   outbox := s.db.outbox + [Created(job.tenant, id, "unknown"), Analyzed(job.tenant, id, id)]),
       seen := s.seen + {id})
  }

  /** Would moving the row to this status put two rows under one index entry? */
  predicate StatusConflicts(db: Db, id: Id, status: Status)
    requires id in db.incidents
  {
    && status != Resolved
    && exists other :: other in db.incidents && other != id
                       && db.incidents[other].Active(db.incidents[id].tenant, db.incidents[id].fingerprint)
  }

  /** `indexed`: the partial unique index exists. An action that is not enabled changes nothing. */
  function Apply(indexed: bool, s: World, a: Action): World {
    match a
    case Acquire(w, job) =>
      if s.PcOf(w).Idle? && !s.Locked(job.fingerprint) then
        s.(locks := s.locks[job.fingerprint := Lease(w, s.now + LOCK_TTL)]).Goto(w, Holding(job))
      else s
    case AcquireFails(w, job) => if s.PcOf(w).Idle? then s.Goto(w, Holding(job)) else s
    case AcquireUnheard(w, job) =>
      if !s.PcOf(w).Idle? then s
      else if s.Locked(job.fingerprint) then s.Goto(w, Holding(job))
      else s.(locks := s.locks[job.fingerprint := Lease(w, s.now + LOCK_TTL)]).Goto(w, Holding(job))
    case Lookup(w, pick) =>
      var pc := s.PcOf(w);
      if !pc.Holding? then s
      else if !s.db.HasActive(pc.job.tenant, pc.job.fingerprint) then s.Goto(w, FoundNone(pc.job))
      else if pick in s.db.incidents && s.db.incidents[pick].Active(pc.job.tenant, pc.job.fingerprint) then
        s.Goto(w, Found(pc.job, pick, s.db.incidents[pick]))
      else s
    case RecordDuplicate(w) =>
      var pc := s.PcOf(w);
      if pc.Found? then
        s.(db := DuplicateRecorded(s.db, pc.id, pc.snapshot, pc.job.s3Key).0).Goto(w, Releasing(pc.job))
      else s
    case Persist(w, id) =>
      var pc := s.PcOf(w);
      if !pc.FoundNone? || id in s.seen then s
      else if indexed && s.db.HasActive(pc.job.tenant, pc.job.fingerprint) then s.Goto(w, Releasing(pc.job))
      else InsertRow(s, pc.job, id).Goto(w, Releasing(pc.job))
    case GiveUp(w) => if s.PcOf(w).Idle? then s else s.Goto(w, Releasing(s.PcOf(w).job))
    case Release(w) =>
      if s.PcOf(w).Releasing? then s.(locks := s.locks - {s.PcOf(w).job.fingerprint}).Goto(w, Idle) else s
    case ReleaseFails(w) => if s.PcOf(w).Releasing? then s.Goto(w, Idle) else s
    case Kill(w) => s.Goto(w, Idle)
    case Tick(d) => if d >= 0.0 then s.(now := s.now + d) else s
    case SetStatus(id, status) =>
      if id in s.db.incidents && !(indexed && StatusConflicts(s.db, id, status)) then
        s.(db := s.db.(incidents := s.db.incidents[id := s.db.incidents[id].(status := status)]))
      else s
    case DeleteRow(id) => s.(db := s.db.(incidents := s.db.incidents - {id}))
  }

  function Execute(indexed: bool, schedule: seq<Action>): World {
    if schedule == [] then START
    else Apply(indexed, Execute(indexed, schedule[..|schedule| - 1]), schedule[|schedule| - 1])
  }

  // ---- One active incident per fingerprint ----

  ghost predicate UniqueActive(db: Db) {
    forall i, j, t, fp ::
      i in db.incidents && j in db.incidents && db.incidents[i].Active(t, fp) && db.incidents[j].Active(t, fp) ==>
        i == j
  }

  lemma PersistKeepsUnique(s: World, w: nat, id: Id)
    requires UniqueActive(s.db)
    ensures UniqueActive(Apply(true, s, Persist(w, id)).db)
  {
    var pc, r := s.PcOf(w), Apply(true, s, Persist(w, id));
    if r.db.incidents != s.db.incidents {
      InsertKeepsUnique(s.db, r.db, id, NewIncident(pc.job.tenant, pc.job.fingerprint, "unknown", None, pc.job.s3Key));
    }
  }

  lemma InsertKeepsUnique(db: Db, r: Db, id: Id, row: Incident)
    requires UniqueActive(db) && !db.HasActive(row.tenant, row.fingerprint)
    requires r.incidents == db.incidents[id := row]
    ensures UniqueActive(r)
  {
    forall i, j, t, fp |
      i in r.incidents && j in r.incidents && r.incidents[i].Active(t, fp) && r.incidents[j].Active(t, fp)
      ensures i == j
    {
      if i != id && j != id {
        assert r.incidents[i] == db.incidents[i] && r.incidents[j] == db.incidents[j];
      }
    }
  }

  lemma SetStatusKeepsUnique(s: World, id: Id, status: Status)
    requires UniqueActive(s.db)
    ensures UniqueActive(Apply(true, s, SetStatus(id, status)).db)
  {
  }

  lemma OthersKeepUnique(s: World, a: Action)
    requires UniqueActive(s.db) && !a.Persist? && !a.SetStatus?
    ensures UniqueActive(Apply(true, s, a).db)
  {
    var r := Apply(true, s, a);
    assert forall id :: id in r.db.incidents ==> id in s.db.incidents;
    assert forall id, t, fp :: id in r.db.incidents && r.db.incidents[id].Active(t, fp) ==> s.db.incidents[id].Active(t, fp);
  }

  /** With the index, no schedule whatsoever creates two active incidents for one fingerprint. */
  lemma {:induction false} IndexKeepsUnique(schedule: seq<Action>)
    ensures UniqueActive(Execute(true, schedule).db)
  {
    if schedule != [] {
      IndexKeepsUnique(schedule[..|schedule| - 1]);
      var s, a := Execute(true, schedule[..|schedule| - 1]), schedule[|schedule| - 1];
      match a
      case Persist(w, id) => PersistKeepsUnique(s, w, id);
      case SetStatus(id, status) => SetStatusKeepsUnique(s, id, status);
      case _ => OthersKeepUnique(s, a);
    }
  }

  // ---- What the lock alone guarantees ----

  predicate Critical(pc: Pc) {
    !pc.Idle?
  }

  /**
   No fail-open, no lock expiring under its owner, and nobody re-activating a resolved incident.
   Contention, failed releases, kills, give-ups, other status changes and deletions are all allowed.
   */
  ghost predicate Quiet(s: World, a: Action) {
    && !a.AcquireFails? && !a.AcquireUnheard?
    && (a.Tick? && a.seconds >= 0.0 ==> forall w, fp :: Critical(s.PcOf(w)) && s.PcOf(w).job.fingerprint == fp && fp in s.locks ==>
          s.now + a.seconds < s.locks[fp].expires)
    && (a.SetStatus? && a.id in s.db.incidents && s.db.incidents[a.id].status == Resolved ==> a.status == Resolved)
  }

  ghost predicate QuietRun(indexed: bool, schedule: seq<Action>) {
    schedule != [] ==>
      && QuietRun(indexed, schedule[..|schedule| - 1])
      && Quiet(Execute(indexed, schedule[..|schedule| - 1]), schedule[|schedule| - 1])
  }

  /** Every worker in the critical section owns the live lock of its fingerprint. */
  ghost predicate OwnersHold(s: World) {
    forall w :: Critical(s.PcOf(w)) ==>
      s.Locked(s.PcOf(w).job.fingerprint) && s.locks[s.PcOf(w).job.fingerprint].owner == w
  }

  /** A lookup that found nothing stays true until its worker acts on it. */
  ghost predicate LookupsHold(s: World) {
    forall w :: s.PcOf(w).FoundNone? ==> !s.db.HasActive(s.PcOf(w).job.tenant, s.PcOf(w).job.fingerprint)
  }

  ghost predicate LockProtects(s: World) {
    OwnersHold(s) && LookupsHold(s) && UniqueActive(s.db)
  }

  lemma QuietStepKeepsOwners(indexed: bool, s: World, a: Action)
    requires OwnersHold(s) && Quiet(s, a)
    ensures OwnersHold(Apply(indexed, s, a))
  {
    var r := Apply(indexed, s, a);
    forall w | Critical(r.PcOf(w))
      ensures r.Locked(r.PcOf(w).job.fingerprint) && r.locks[r.PcOf(w).job.fingerprint].owner == w
    {
      if Critical(s.PcOf(w)) {
        assert r.PcOf(w).job == s.PcOf(w).job;
      }
    }
  }

  /** A row that is active after the step was active before, unless the step inserted it. */
  lemma ActiveRowsAreOld(indexed: bool, s: World, a: Action, t: Id, fp: string)
    requires Quiet(s, a) && Apply(indexed, s, a).db.HasActive(t, fp)
    ensures || s.db.HasActive(t, fp)
            || (a.Persist? && a.id !in s.seen && s.PcOf(a.w).FoundNone? && s.PcOf(a.w).job.tenant == t && s.PcOf(a.w).job.fingerprint == fp)
  {
    var r := Apply(indexed, s, a);
    var id :| id in r.db.incidents && r.db.incidents[id].Active(t, fp);
    if !(a.Persist? && id == a.id) {
      assert id in s.db.incidents;
    }
  }

  /** A worker that has found nothing had found nothing, or looks now; nobody else may insert its row. */
  lemma StillNothing(indexed: bool, s: World, a: Action, w: nat)
    requires LockProtects(s) && Quiet(s, a) && Apply(indexed, s, a).PcOf(w).FoundNone?
    ensures var job := Apply(indexed, s, a).PcOf(w).job;
            && !s.db.HasActive(job.tenant, job.fingerprint)
            && (a.Persist? && a.id !in s.seen && s.PcOf(a.w).FoundNone? ==> s.PcOf(a.w).job.fingerprint != job.fingerprint)
  {
    var r := Apply(indexed, s, a);
    var job := r.PcOf(w).job;
    if a.Lookup? && a.w == w && s.PcOf(w).Holding? {
      assert s.PcOf(w).job == job;
    } else {
      assert s.PcOf(w) == FoundNone(job);
    }
    if a.Persist? && s.PcOf(a.w).FoundNone? && s.PcOf(w).FoundNone? {
      assert Critical(s.PcOf(w)) && Critical(s.PcOf(a.w));
    }
  }

  lemma QuietStepKeepsLookups(indexed: bool, s: World, a: Action)
    requires LockProtects(s) && Quiet(s, a)
    ensures LookupsHold(Apply(indexed, s, a))
  {
    var r := Apply(indexed, s, a);
    forall w | r.PcOf(w).FoundNone? ensures !r.db.HasActive(r.PcOf(w).job.tenant, r.PcOf(w).job.fingerprint) {
      var job := r.PcOf(w).job;
      StillNothing(indexed, s, a, w);
      if r.db.HasActive(job.tenant, job.fingerprint) {
        ActiveRowsAreOld(indexed, s, a, job.tenant, job.fingerprint);
      }
    }
  }

  lemma QuietStepKeepsUnique(indexed: bool, s: World, a: Action)
    requires LockProtects(s) && Quiet(s, a)
    ensures UniqueActive(Apply(indexed, s, a).db)
  {
  }

  /**
   In a quiet run, with or without the index: at most one worker is between acquire and release of a
   fingerprint, active incidents stay unique, and no insert ever meets another active incident.
   */
  lemma {:induction false} LockAloneSuffices(indexed: bool, schedule: seq<Action>)
    requires QuietRun(indexed, schedule)
    ensures LockProtects(Execute(indexed, schedule))
  {
    if schedule != [] {
      LockAloneSuffices(indexed, schedule[..|schedule| - 1]);
      var s, a := Execute(indexed, schedule[..|schedule| - 1]), schedule[|schedule| - 1];
      QuietStepKeepsOwners(indexed, s, a);
      QuietStepKeepsLookups(indexed, s, a);
      QuietStepKeepsUnique(indexed, s, a);
    }
  }

  /** In a quiet run two workers never handle one fingerprint at once, and every persist inserts its row. */
  lemma QuietRunsNeverCollide(indexed: bool, schedule: seq<Action>, v: nat, w: nat, id: Id)
    requires QuietRun(indexed, schedule)
    ensures var s := Execute(indexed, schedule);
            && (v != w && Critical(s.PcOf(v)) && Critical(s.PcOf(w)) ==>
                  s.PcOf(v).job.fingerprint != s.PcOf(w).job.fingerprint)
            && (s.PcOf(w).FoundNone? && id !in s.seen ==>
                  Apply(indexed, s, Persist(w, id)).db == InsertRow(s, s.PcOf(w).job, id).db)
  {
    LockAloneSuffices(indexed, schedule);
  }

  // ---- Occurrences and their events ----

  /** Counts carried by the duplicate events of one incident, in commit order. */
  function DuplicateCounts(outbox: seq<OutboxEvent>, id: Id): seq<int> {
    if outbox == [] then []
    else
      var e := outbox[|outbox| - 1];
      DuplicateCounts(outbox[..|outbox| - 1], id)
      + if e.DuplicateDetected? && e.incident == id then [e.count] else []
  }

  function DuplicateKeys(outbox: seq<OutboxEvent>, id: Id): seq<string> {
    if outbox == [] then []
    else
      var e := outbox[|outbox| - 1];
      DuplicateKeys(outbox[..|outbox| - 1], id)
      + if e.DuplicateDetected? && e.incident == id then [e.s3Key] else []
  }

  lemma OutboxSnoc(outbox: seq<OutboxEvent>, e: OutboxEvent, id: Id)
    ensures DuplicateCounts(outbox + [e], id) ==
            DuplicateCounts(outbox, id) + if e.DuplicateDetected? && e.incident == id then [e.count] else []
    ensures DuplicateKeys(outbox + [e], id) ==
            DuplicateKeys(outbox, id) + if e.DuplicateDetected? && e.incident == id then [e.s3Key] else []
  {
    assert (outbox + [e])[..|outbox|] == outbox;
  }

  /** The stored occurrences are the first one plus those of the committed events, numbered 2, 3, … */
  ghost predicate Tallied(s: World, id: Id)
    requires id in s.db.incidents
  {
    var row := s.db.incidents[id];
    && row.occurrenceCount == |row.occurrences| >= 1
    && |DuplicateCounts(s.db.outbox, id)| == |row.occurrences| - 1
    && (forall i :: 0 <= i < |DuplicateCounts(s.db.outbox, id)| ==> DuplicateCounts(s.db.outbox, id)[i] == i + 2)
    && DuplicateKeys(s.db.outbox, id) == row.occurrences[1..]
  }

  ghost predicate RowTallied(s: World, id: Id) {
    id in s.db.incidents ==> id in s.seen && Tallied(s, id)
  }

  ghost predicate UnseenIsSilent(s: World, id: Id) {
    id !in s.seen ==> DuplicateCounts(s.db.outbox, id) == [] && DuplicateKeys(s.db.outbox, id) == []
  }

  /** A snapshot, however stale, carries a count whose event is already in the outbox (1 needs none). */
  ghost predicate SnapshotKnown(s: World, w: nat) {
    var pc := s.PcOf(w);
    pc.Found? ==>
      && pc.id in s.seen && pc.snapshot.occurrenceCount >= 1
      && (pc.snapshot.occurrenceCount >= 2 ==> pc.snapshot.occurrenceCount in DuplicateCounts(s.db.outbox, pc.id))
  }

  ghost predicate Consistent(s: World) {
    (forall id :: RowTallied(s, id)) && (forall id :: UnseenIsSilent(s, id)) && (forall w :: SnapshotKnown(s, w))
  }

  lemma InsertKeepsConsistent(s: World, w: nat, id: Id)
    requires Consistent(s) && s.PcOf(w).FoundNone? && id !in s.seen
    ensures Consistent(InsertRow(s, s.PcOf(w).job, id).Goto(w, Releasing(s.PcOf(w).job)))
  {
    var job := s.PcOf(w).job;
    var r := InsertRow(s, job, id).Goto(w, Releasing(job));
    forall i ensures RowTallied(r, i) && UnseenIsSilent(r, i) {
      assert RowTallied(s, i) && UnseenIsSilent(s, i);
      InsertIsSilent(s.db.outbox, Created(job.tenant, id, "unknown"), Analyzed(job.tenant, id, id), i);
    }
    forall v ensures SnapshotKnown(r, v) {
      assert SnapshotKnown(s, v);
      InsertIsSilent(s.db.outbox, Created(job.tenant, id, "unknown"), Analyzed(job.tenant, id, id), if r.PcOf(v).Found? then r.PcOf(v).id else 0);
    }
  }

  /** The events of a new incident are not duplicates. */
  lemma InsertIsSilent(outbox: seq<OutboxEvent>, created: OutboxEvent, analyzed: OutboxEvent, i: Id)
    requires created.Created? && analyzed.Analyzed?
    ensures DuplicateCounts(outbox + [created, analyzed], i) == DuplicateCounts(outbox, i)
    ensures DuplicateKeys(outbox + [created, analyzed], i) == DuplicateKeys(outbox, i)
  {
    OutboxSnoc(outbox, created, i);
    OutboxSnoc(outbox + [created], analyzed, i);
    assert outbox + [created, analyzed] == (outbox + [created]) + [analyzed];
  }

  lemma DuplicateKeepsConsistent(s: World, w: nat)
    requires Consistent(s) && s.PcOf(w).Found?
    ensures Consistent(Apply(true, s, RecordDuplicate(w)))
  {
    var pc := s.PcOf(w);
    var r := Apply(true, s, RecordDuplicate(w));
    var e := DuplicateDetected(pc.snapshot.tenant, pc.id, DuplicateRecorded(s.db, pc.id, pc.snapshot, pc.job.s3Key).1, pc.job.s3Key);
    assert SnapshotKnown(s, w);
    assert r.db.outbox == s.db.outbox + [e];
    forall i ensures RowTallied(r, i) && UnseenIsSilent(r, i) {
      assert RowTallied(s, i) && UnseenIsSilent(s, i);
      OutboxSnoc(s.db.outbox, e, i);
    }
    forall v ensures SnapshotKnown(r, v) {
      assert SnapshotKnown(s, v);
      OutboxSnoc(s.db.outbox, e, if r.PcOf(v).Found? then r.PcOf(v).id else 0);
    }
  }

  /** r writes no event and no occurrence, and its new snapshots are rows of s. */
  ghost predicate OnlyReads(s: World, r: World) {
    && r.db.outbox == s.db.outbox && r.seen == s.seen
    && (forall i :: i in r.db.incidents ==>
          && i in s.db.incidents
          && r.db.incidents[i].occurrenceCount == s.db.incidents[i].occurrenceCount
          && r.db.incidents[i].occurrences == s.db.incidents[i].occurrences)
    && (forall v :: r.PcOf(v).Found? ==>
          || r.PcOf(v) == s.PcOf(v)
          || (r.PcOf(v).id in s.db.incidents && r.PcOf(v).snapshot == s.db.incidents[r.PcOf(v).id]))
  }

  lemma ReadsKeepConsistent(s: World, r: World)
    requires Consistent(s) && OnlyReads(s, r)
    ensures Consistent(r)
  {
    forall i ensures RowTallied(r, i) && UnseenIsSilent(r, i) {
      assert RowTallied(s, i) && UnseenIsSilent(s, i);
    }
    forall v ensures SnapshotKnown(r, v) {
      assert SnapshotKnown(s, v);
      var pc := r.PcOf(v);
      if pc.Found? && s.PcOf(v) != pc {
        assert RowTallied(s, pc.id);
        if pc.snapshot.occurrenceCount >= 2 {
          assert DuplicateCounts(s.db.outbox, pc.id)[pc.snapshot.occurrenceCount - 2] == pc.snapshot.occurrenceCount;
        }
      }
    }
  }

  lemma OthersOnlyRead(indexed: bool, s: World, a: Action)
    requires !(a.RecordDuplicate? && s.PcOf(a.w).Found?)
    requires !(a.Persist? && s.PcOf(a.w).FoundNone? && Apply(indexed, s, a).seen != s.seen)
    ensures OnlyReads(s, Apply(indexed, s, a))
  {
    var r := Apply(indexed, s, a);
    if a.Persist? && s.PcOf(a.w).FoundNone? && a.id !in s.seen {
      assert a.id in s.seen + {a.id};
    }
    assert r.db.outbox == s.db.outbox && r.seen == s.seen;
    forall v | r.PcOf(v).Found?
      ensures r.PcOf(v) == s.PcOf(v)
              || (r.PcOf(v).id in s.db.incidents && r.PcOf(v).snapshot == s.db.incidents[r.PcOf(v).id])
    {
    }
  }

  /** For every schedule: counts, keys and events of each surviving incident agree. */
  lemma {:induction false} OccurrencesMatchEvents(indexed: bool, schedule: seq<Action>)
    ensures Consistent(Execute(indexed, schedule))
  {
    if schedule != [] {
      OccurrencesMatchEvents(indexed, schedule[..|schedule| - 1]);
      var s, a := Execute(indexed, schedule[..|schedule| - 1]), schedule[|schedule| - 1];
      if a.RecordDuplicate? && s.PcOf(a.w).Found? {
        DuplicateKeepsConsistent(s, a.w);
        assert Apply(indexed, s, a) == Apply(true, s, RecordDuplicate(a.w));
      } else if a.Persist? && s.PcOf(a.w).FoundNone? && Apply(indexed, s, a).seen != s.seen {
        InsertKeepsConsistent(s, a.w, a.id);
      } else {
        OthersOnlyRead(indexed, s, a);
        ReadsKeepConsistent(s, Apply(indexed, s, a));
      }
    }
  }

  /**
   The event of a duplicate gets an idempotency key nobody used before exactly when the incident row
   still exists (or its stale count is still the initial 1, the first time that happens).
   */
  lemma KeyIsFreshIffRowExists(indexed: bool, schedule: seq<Action>, w: nat)
    requires Execute(indexed, schedule).PcOf(w).Found?
    ensures var s := Execute(indexed, schedule);
            var pc := s.PcOf(w);
            var used := DuplicateCounts(s.db.outbox, pc.id);
            DuplicateRecorded(s.db, pc.id, pc.snapshot, pc.job.s3Key).1 !in used
            <==> pc.id in s.db.incidents || (pc.snapshot.occurrenceCount == 1 && 1 !in used)
  {
    OccurrencesMatchEvents(indexed, schedule);
    var s := Execute(indexed, schedule);
    assert SnapshotKnown(s, w) && RowTallied(s, s.PcOf(w).id);
  }
}
