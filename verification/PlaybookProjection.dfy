/**
 Playbooks and their embeddings: saves bump a version in the database inside a transaction that also
 writes the outbox event; embedding tasks receive those events late, repeatedly and out of order, and
 write a version-guarded row, with a Redis cache of the last version to skip work.
 */
module PlaybookProjection {
  import opened Common

  type Id = nat

  /** A playbook row, and also the payload of its event and what an embedding was computed from. */
  datatype Row = Row(pattern: string, instructions: string, version: int)

  datatype Event = Event(id: Id, row: Row)

  // ---- Playbook.save and the upsert ----

  datatype SaveError = DoesNotExist

  class PlaybookTable {
    var rows: map<Id, Row>

    constructor ()
      ensures rows == map[]
    {
      rows := map[];
    }
  }

  class Playbook {
    const id: Id
    var pattern: string
    var instructions: string
    var sourceVersion: int
    var adding: bool

    constructor (id: Id, pattern: string, instructions: string)
      ensures this.id == id && adding && sourceVersion == 1
      ensures this.pattern == pattern && this.instructions == instructions
    {
      this.id, this.pattern, this.instructions, sourceVersion, adding := id, pattern, instructions, 1, true;
    }

    /** However stale the instance, an update moves the stored version on by one and takes it over. */
    method Save(table: PlaybookTable) returns (r: Result<(), SaveError>)
      modifies this, table
      ensures r.Err? <==> !old(adding) && id !in old(table.rows)
      ensures r.Err? ==> table.rows == old(table.rows)
      ensures r.Ok? ==>
                var version := if old(adding) then old(sourceVersion) else old(table.rows)[id].version + 1;
                table.rows == old(table.rows)[id := Row(old(pattern), old(instructions), version)]
                && sourceVersion == version && !adding
      ensures pattern == old(pattern) && instructions == old(instructions)
    {
      if !adding {
        if id in table.rows {
          var row := table.rows[id];
          table.rows := table.rows[id := row.(version := row.version + 1)];
        }
        if id !in table.rows {
          return Err(DoesNotExist);
        }
        sourceVersion := table.rows[id].version;
      }
      table.rows := table.rows[id := Row(pattern, instructions, sourceVersion)];
      adding := false;
      return Ok(());
    }
  }

  /** INSERT … ON CONFLICT DO UPDATE … WHERE stored version < new version */
  function Upserted(embeddings: map<Id, Row>, e: Event): map<Id, Row> {
    if e.id in embeddings && embeddings[e.id].version >= e.row.version then embeddings
    else embeddings[e.id := e.row]
  }

  class VectorRepository {
    var embeddings: map<Id, Row>

    constructor ()
      ensures embeddings == map[]
    {
      embeddings := map[];
    }

    method UpsertPlaybookEmbedding(e: Event)
      modifies this
      ensures embeddings == Upserted(old(embeddings), e)
      ensures e.id in embeddings
      ensures embeddings[e.id] ==
              if e.id in old(embeddings) && old(embeddings[e.id].version) >= e.row.version then old(embeddings[e.id]) else e.row
      ensures forall id :: id != e.id ==>
                (id in embeddings <==> id in old(embeddings)) && (id in embeddings ==> embeddings[id] == old(embeddings)[id])
    {
      if e.id !in embeddings {
        embeddings := embeddings[e.id := e.row];
      } else if embeddings[e.id].version < e.row.version {
        embeddings := embeddings[e.id := e.row];
      }
    }
  }

  // ---- Writers and embedding tasks, interleaved ----

  /** A writer's place inside its transaction; from the increment on it holds the row lock. */
  datatype Writer =
    | Outside
    | Incremented(id: Id, pattern: string, instructions: string, work: int)
    | Reloaded(id: Id, pattern: string, instructions: string, version: int)
    | Written(id: Id, row: Row)

  datatype Task = Free | Received(e: Event) | Embedding(e: Event) | Stored(e: Event)

  datatype World = World(
    rows: map<Id, Row>, outbox: seq<Event>, locks: map<Id, nat>, writers: map<nat, Writer>,
    embeddings: map<Id, Row>, cache: map<Id, int>, tasks: map<nat, Task>, processed: set<Event>)
  {
    function WriterOf(w: nat): Writer { if w in writers then writers[w] else Outside }
    function TaskOf(k: nat): Task { if k in tasks then tasks[k] else Free }
    function MoveWriter(w: nat, to: Writer): World { this.(writers := writers[w := to]) }
    function MoveTask(k: nat, to: Task): World { this.(tasks := tasks[k := to]) }
  }

  datatype Action =
    | Create(id: Id, pattern: string, instructions: string)
    | Increment(w: nat, id: Id, pattern: string, instructions: string)
    | Reload(w: nat)
    | Write(w: nat)
    | Commit(w: nat)
    | Rollback(w: nat)
    | Deliver(k: nat, i: nat)        // any event, any number of times
    | CheckCache(k: nat)
    | Store(k: nat)
    | RecordVersion(k: nat)
    | FailTask(k: nat)
    | Forget(id: Id)                 // Redis drops the cached version

  const START := World(map[], [], map[], map[], map[], map[], map[], {})

  /** Writers: statements of the transaction in playbooks/views.py. Disabled actions change nothing. */
  function ApplyWriter(s: World, a: Action): World {
    match a
    case Create(id, p, i) =>
      if id in s.rows then s
      else s.(rows := s.rows[id := Row(p, i, 1)], outbox := s.outbox + [Event(id, Row(p, i, 1))])
    case Increment(w, id, p, i) =>
      if s.WriterOf(w).Outside? && id in s.rows && id !in s.locks then
        s.(locks := s.locks[id := w]).MoveWriter(w, Incremented(id, p, i, s.rows[id].version + 1))
      else s
    case Reload(w) =>
      var t := s.WriterOf(w);
      if t.Incremented? then s.MoveWriter(w, Reloaded(t.id, t.pattern, t.instructions, t.work)) else s
    case Write(w) =>
      var t := s.WriterOf(w);
      if t.Reloaded? then s.MoveWriter(w, Written(t.id, Row(t.pattern, t.instructions, t.version))) else s
    case Commit(w) =>
      var t := s.WriterOf(w);
      if t.Written? then
        s.(rows := s.rows[t.id := t.row], outbox := s.outbox + [Event(t.id, t.row)], locks := s.locks - {t.id})
        .MoveWriter(w, Outside)
      else s
    case Rollback(w) =>
      var t := s.WriterOf(w);
      if t.Outside? then s else s.(locks := s.locks - {t.id}).MoveWriter(w, Outside)
    case _ => s
  }

  /** Tasks: the commands of embed_playbook. */
  function ApplyTask(s: World, a: Action): World {
    match a
    case Deliver(k, i) => if s.TaskOf(k).Free? && i < |s.outbox| then s.MoveTask(k, Received(s.outbox[i])) else s
    case CheckCache(k) =>
      var t := s.TaskOf(k);
      if !t.Received? then s
      else if t.e.id in s.cache && s.cache[t.e.id] >= t.e.row.version then
        s.(processed := s.processed + {t.e}).MoveTask(k, Free)
      else s.MoveTask(k, Embedding(t.e))
    case Store(k) =>
      var t := s.TaskOf(k);
      if t.Embedding? then
        s.(embeddings := Upserted(s.embeddings, t.e), processed := s.processed + {t.e}).MoveTask(k, Stored(t.e))
      else s
    case RecordVersion(k) =>
      var t := s.TaskOf(k);
      if t.Stored? then s.(cache := s.cache[t.e.id := t.e.row.version]).MoveTask(k, Free) else s
    case FailTask(k) => s.MoveTask(k, Free)
    case Forget(id) => s.(cache := s.cache - {id})
    case _ => s
  }

  predicate ByWriter(a: Action) {
    a.Create? || a.Increment? || a.Reload? || a.Write? || a.Commit? || a.Rollback?
  }

  function Apply(s: World, a: Action): World {
    if ByWriter(a) then ApplyWriter(s, a) else ApplyTask(s, a)
  }

  function Execute(schedule: seq<Action>): World {
    if schedule == [] then START else Apply(Execute(schedule[..|schedule| - 1]), schedule[|schedule| - 1])
  }

  // ---- Versions ----

  /** Payloads of one playbook's events in commit order. */
  function Payloads(outbox: seq<Event>, id: Id): seq<Row> {
    if outbox == [] then []
    else Payloads(outbox[..|outbox| - 1], id)
         + if outbox[|outbox| - 1].id == id then [outbox[|outbox| - 1].row] else []
  }

  lemma PayloadsSnoc(outbox: seq<Event>, e: Event, id: Id)
    ensures Payloads(outbox + [e], id) == Payloads(outbox, id) + if e.id == id then [e.row] else []
  {
    assert (outbox + [e])[..|outbox|] == outbox;
  }

  lemma {:induction false} PayloadsComplete(outbox: seq<Event>, id: Id, row: Row)
    ensures row in Payloads(outbox, id) <==> Event(id, row) in outbox
  {
    if outbox != [] {
      PayloadsComplete(outbox[..|outbox| - 1], id, row);
      assert outbox == outbox[..|outbox| - 1] + [outbox[|outbox| - 1]];
    }
  }

  /** Versions run 1, 2, 3, … without gap or repeat, and the last payload is the row as it stands. */
  ghost predicate Consecutive(s: World, id: Id) {
    var ps := Payloads(s.outbox, id);
    && (id !in s.rows ==> ps == [])
    && (id in s.rows ==> ps != [] && ps[|ps| - 1] == s.rows[id])
    && (forall k :: 0 <= k < |ps| ==> ps[k].version == k + 1)
  }

  function PendingVersion(t: Writer): int
    requires !t.Outside?
  {
    match t
    case Incremented(_, _, _, work) => work
    case Reloaded(_, _, _, version) => version
    case Written(_, row) => row.version
  }

  /** Whoever is inside a transaction owns the row lock and is about to write the next version. */
  ghost predicate LockHolds(s: World, w: nat) {
    var t := s.WriterOf(w);
    t.Outside? || (t.id in s.rows && t.id in s.locks && s.locks[t.id] == w && PendingVersion(t) == s.rows[t.id].version + 1)
  }

  ghost predicate LocksHold(s: World) {
    forall w :: LockHolds(s, w)
  }

  ghost predicate Versioned(s: World) {
    LocksHold(s) && forall id :: Consecutive(s, id)
  }

  /** A step of the lock's owner cannot touch the row or the lock of another writer. */
  lemma OthersKeepLocks(s: World, a: Action, w: nat)
    requires ByWriter(a) && (a.Create? || (a.w != w && LockHolds(s, a.w))) && LockHolds(s, w)
    ensures LockHolds(ApplyWriter(s, a), w)
  {
    assert ApplyWriter(s, a).WriterOf(w) == s.WriterOf(w);
  }

  lemma OwnStepKeepsLock(s: World, a: Action)
    requires ByWriter(a) && !a.Create? && LockHolds(s, a.w)
    ensures LockHolds(ApplyWriter(s, a), a.w)
  {
  }

  lemma WriterKeepsLocks(s: World, a: Action)
    requires LocksHold(s) && ByWriter(a)
    ensures LocksHold(ApplyWriter(s, a))
  {
    forall w ensures LockHolds(ApplyWriter(s, a), w) {
      assert LockHolds(s, w);
      if a.Create? || a.w != w {
        assert !a.Create? ==> LockHolds(s, a.w);
        OthersKeepLocks(s, a, w);
      } else {
        OwnStepKeepsLock(s, a);
      }
    }
  }

  /** Committing the next version of a row together with its event keeps every playbook consecutive. */
  lemma CommitKeepsConsecutive(s: World, r: World, e: Event, id: Id)
    requires Consecutive(s, id)
    requires r.outbox == s.outbox + [e] && r.rows == s.rows[e.id := e.row]
    requires e.row.version == if e.id in s.rows then s.rows[e.id].version + 1 else 1
    ensures Consecutive(r, id)
  {
    PayloadsSnoc(s.outbox, e, id);
  }

  lemma WriterKeepsConsecutive(s: World, a: Action, id: Id)
    requires ByWriter(a) && Consecutive(s, id) && (a.Create? || LockHolds(s, a.w))
    ensures Consecutive(ApplyWriter(s, a), id)
  {
    var r := ApplyWriter(s, a);
    if a.Create? && a.id !in s.rows {
      CommitKeepsConsecutive(s, r, Event(a.id, Row(a.pattern, a.instructions, 1)), id);
    } else if a.Commit? && s.WriterOf(a.w).Written? {
      CommitKeepsConsecutive(s, r, Event(s.WriterOf(a.w).id, s.WriterOf(a.w).row), id);
    } else {
      assert r.rows == s.rows && r.outbox == s.outbox;
    }
  }

  lemma WriterKeepsVersions(s: World, a: Action)
    requires Versioned(s) && ByWriter(a)
    ensures Versioned(ApplyWriter(s, a))
  {
    WriterKeepsLocks(s, a);
    forall id ensures Consecutive(ApplyWriter(s, a), id) {
      assert Consecutive(s, id);
      assert !a.Create? ==> LockHolds(s, a.w);
      WriterKeepsConsecutive(s, a, id);
    }
  }

  // ---- Convergence ----

  ghost predicate EmbeddingsProcessed(s: World) {
    && (forall id :: id in s.embeddings ==> Event(id, s.embeddings[id]) in s.processed)
    && (forall e :: e in s.processed ==> e in s.outbox)
    && (forall e :: e in s.processed ==> e.id in s.embeddings && s.embeddings[e.id].version >= e.row.version)
  }

  /** The cached version never runs ahead of the stored row, so skipping on it is safe. */
  ghost predicate CacheBehind(s: World) {
    forall id :: id in s.cache ==> id in s.embeddings && s.embeddings[id].version >= s.cache[id]
  }

  ghost predicate TaskKnown(s: World, k: nat) {
    var t := s.TaskOf(k);
    t.Free? || (t.e in s.outbox && (t.Stored? ==> t.e in s.processed))
  }

  ghost predicate TasksKnown(s: World) {
    forall k :: TaskKnown(s, k)
  }

  ghost predicate TasksConsistent(s: World) {
    EmbeddingsProcessed(s) && CacheBehind(s) && TasksKnown(s)
  }

  lemma TaskKeepsRows(s: World, a: Action)
    requires !ByWriter(a)
    ensures var r := ApplyTask(s, a);
            r.rows == s.rows && r.outbox == s.outbox && r.locks == s.locks && r.writers == s.writers
  {
    match a
    case Deliver(_, _) =>
    case CheckCache(_) =>
    case Store(_) =>
    case RecordVersion(_) =>
    case FailTask(_) =>
    case Forget(_) =>
  }

  lemma TaskKeepsProcessedEvents(s: World, a: Action)
    requires !ByWriter(a)
    ensures s.processed <= ApplyTask(s, a).processed
  {
  }

  lemma TaskKeepsOthers(s: World, a: Action, k: nat)
    requires !ByWriter(a) && (a.Forget? || k != a.k)
    ensures ApplyTask(s, a).TaskOf(k) == s.TaskOf(k)
  {
  }

  lemma OwnStepKeepsKnown(s: World, a: Action)
    requires !ByWriter(a) && !a.Forget? && TaskKnown(s, a.k)
    ensures TaskKnown(ApplyTask(s, a), a.k)
  {
  }

  lemma TaskKeepsKnown(s: World, a: Action)
    requires TasksKnown(s) && !ByWriter(a)
    ensures TasksKnown(ApplyTask(s, a))
  {
    TaskKeepsRows(s, a);
    TaskKeepsProcessedEvents(s, a);
    forall k ensures TaskKnown(ApplyTask(s, a), k) {
      assert TaskKnown(s, k);
      if a.Forget? || a.k != k {
        TaskKeepsOthers(s, a, k);
      } else {
        OwnStepKeepsKnown(s, a);
      }
    }
  }

  lemma TaskKeepsProcessed(s: World, a: Action)
    requires TasksConsistent(s) && !ByWriter(a)
    ensures EmbeddingsProcessed(ApplyTask(s, a))
  {
    if !a.Forget? {
      assert TaskKnown(s, a.k);
    }
  }

  lemma TaskKeepsCacheBehind(s: World, a: Action)
    requires TasksConsistent(s) && !ByWriter(a)
    ensures CacheBehind(ApplyTask(s, a))
  {
    if !a.Forget? {
      assert TaskKnown(s, a.k);
    }
  }

  lemma TaskKeepsConsistent(s: World, a: Action)
    requires TasksConsistent(s) && !ByWriter(a)
    ensures TasksConsistent(ApplyTask(s, a))
  {
    TaskKeepsKnown(s, a);
    TaskKeepsProcessed(s, a);
    TaskKeepsCacheBehind(s, a);
  }

  lemma WriterKeepsEmbeddings(s: World, a: Action)
    requires ByWriter(a)
    ensures var r := ApplyWriter(s, a);
            && s.outbox <= r.outbox && r.tasks == s.tasks && r.processed == s.processed
            && r.embeddings == s.embeddings && r.cache == s.cache
  {
  }

  lemma WriterKeepsConsistent(s: World, a: Action)
    requires TasksConsistent(s) && ByWriter(a)
    ensures TasksConsistent(ApplyWriter(s, a))
  {
    var r := ApplyWriter(s, a);
    WriterKeepsEmbeddings(s, a);
    forall k ensures TaskKnown(r, k) {
      assert TaskKnown(s, k);
    }
  }

  lemma SameRowsKeepVersions(s: World, r: World)
    requires Versioned(s)
    requires r.rows == s.rows && r.outbox == s.outbox && r.locks == s.locks && r.writers == s.writers
    ensures Versioned(r)
  {
    forall id ensures Consecutive(r, id) {
      assert Consecutive(s, id);
    }
    forall w ensures LockHolds(r, w) {
      assert LockHolds(s, w);
    }
  }

  lemma {:induction false} ScheduleInvariants(schedule: seq<Action>)
    ensures Versioned(Execute(schedule)) && TasksConsistent(Execute(schedule))
  {
    if schedule != [] {
      ScheduleInvariants(schedule[..|schedule| - 1]);
      var s, a := Execute(schedule[..|schedule| - 1]), schedule[|schedule| - 1];
      if ByWriter(a) {
        WriterKeepsVersions(s, a);
        WriterKeepsConsistent(s, a);
      } else {
        TaskKeepsConsistent(s, a);
        TaskKeepsRows(s, a);
        SameRowsKeepVersions(s, Apply(s, a));
      }
    }
  }

  /** In every interleaving: consecutive versions, and each event carries the row its transaction left behind. */
  lemma VersionsAreConsecutive(schedule: seq<Action>, id: Id)
    ensures var s := Execute(schedule);
            var ps := Payloads(s.outbox, id);
            && (id in s.rows <==> ps != [])
            && (id in s.rows ==> |ps| == s.rows[id].version && ps[|ps| - 1] == s.rows[id])
            && (forall k :: 0 <= k < |ps| ==> ps[k].version == k + 1)
  {
    ScheduleInvariants(schedule);
    assert Consecutive(Execute(schedule), id);
  }

  /** The stored embedding stems from the highest version processed so far. */
  lemma EmbeddingIsHighestProcessed(schedule: seq<Action>, e: Event)
    requires e in Execute(schedule).processed
    ensures var s := Execute(schedule);
            && e.id in s.embeddings
            && Event(e.id, s.embeddings[e.id]) in s.processed
            && s.embeddings[e.id].version >= e.row.version
  {
    ScheduleInvariants(schedule);
  }

  /** The embedding is that of the row as it stands exactly when the event of that row has been processed, whatever else has. */
  lemma ConvergedIff(schedule: seq<Action>, id: Id)
    requires id in Execute(schedule).rows
    ensures var s := Execute(schedule);
            id in s.embeddings && s.embeddings[id] == s.rows[id] <==> Event(id, s.rows[id]) in s.processed
  {
    ScheduleInvariants(schedule);
    ProcessedConverges(Execute(schedule), id);
  }

  lemma ProcessedConverges(s: World, id: Id)
    requires Consecutive(s, id) && TasksConsistent(s) && id in s.rows
    ensures id in s.embeddings && s.embeddings[id] == s.rows[id] <==> Event(id, s.rows[id]) in s.processed
  {
    if Event(id, s.rows[id]) in s.processed {
      var ps, stored := Payloads(s.outbox, id), s.embeddings[id];
      assert Event(id, stored) in s.outbox;
      PayloadsComplete(s.outbox, id, stored);
      var k :| 0 <= k < |ps| && ps[k] == stored;
      assert stored.version == k + 1 && s.rows[id].version == |ps|;
    }
  }

  /** Once each event of a playbook has been processed at least once, in whatever order, the embedding is that of the row. */
  lemma EmbeddingConverges(schedule: seq<Action>, id: Id)
    requires id in Execute(schedule).rows
    requires forall e :: e in Execute(schedule).outbox && e.id == id ==> e in Execute(schedule).processed
    ensures var s := Execute(schedule); id in s.embeddings && s.embeddings[id] == s.rows[id]
  {
    var s := Execute(schedule);
    ScheduleInvariants(schedule);
    assert Consecutive(s, id);
    PayloadsComplete(s.outbox, id, s.rows[id]);
    ConvergedIff(schedule, id);
  }
}
