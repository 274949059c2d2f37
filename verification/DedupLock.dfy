/**
 The Redis lock of a fingerprint: SET NX EX to acquire, an unconditional DEL to release, and the
 steps of `DedupProtocol` that they implement.
 */
module DedupLock {
  import opened RedisStore
  import opened DedupProtocol
  import opened Incidents
  import opened Common

  function LockKey(fingerprint: string): string { "dedup:lock:" + fingerprint }

  lemma LockKeysDiffer(f: string, g: string)
    ensures LockKey(f) == LockKey(g) <==> f == g
  {
    assert LockKey(f)[11..] == f && LockKey(g)[11..] == g;
  }

  /** How Redis answers a command: it may raise before or after executing it. */
  datatype Reply = Heard | Unheard | NotExecuted

  class DedupLock {
    const redis: Redis<string>

    constructor (redis: Redis<string>)
      ensures this.redis == redis
    {
      this.redis := redis;
    }

    /** An error lets the caller go ahead, whether or not the lock was set. */
    method AcquireDedupLock(fingerprint: string, owner: string, now: real, reply: Reply) returns (acquired: bool)
      modifies redis
      ensures acquired <==> reply != Heard || !Live(old(redis.entries), LockKey(fingerprint), now)
      ensures redis.entries == if reply != NotExecuted && !Live(old(redis.entries), LockKey(fingerprint), now)
                               then old(redis.entries)[LockKey(fingerprint) := Entry(Text(owner), Some(now + 30.0))]
                               else old(redis.entries)
    {
      if reply == NotExecuted {
        return true;
      }
      var (entries, written) := SetNxEx(redis.entries, LockKey(fingerprint), Text(owner), LOCK_TTL, now);
      redis.entries := entries;
      return written || reply == Unheard;
    }

    /** Deletes the key whoever set it; an error is swallowed. */
    method ReleaseDedupLock(fingerprint: string, reply: Reply)
      modifies redis
      ensures redis.entries == if reply != NotExecuted then old(redis.entries) - {LockKey(fingerprint)} else old(redis.entries)
    {
      if reply != NotExecuted {
        redis.entries := Delete(redis.entries, LockKey(fingerprint));
      }
    }
  }

  function AcquireAction(w: nat, job: Job, reply: Reply): Action {
    match reply case Heard => Acquire(w, job) case Unheard => AcquireUnheard(w, job) case NotExecuted => AcquireFails(w, job)
  }

  /** The keys hold exactly the leases of the protocol. */
  ghost predicate Represents(entries: Store<string>, locks: map<string, Lease>) {
    forall fp :: (LockKey(fp) in entries <==> fp in locks)
                 && (fp in locks ==> LockKey(fp) in entries && entries[LockKey(fp)].expires == Some(locks[fp].expires))
  }

  lemma SetRepresents(entries: Store<string>, locks: map<string, Lease>, fingerprint: string, owner: string, lease: Lease)
    requires Represents(entries, locks)
    ensures Represents(entries[LockKey(fingerprint) := Entry(Text(owner), Some(lease.expires))], locks[fingerprint := lease])
  {
    var e, l := entries[LockKey(fingerprint) := Entry(Text(owner), Some(lease.expires))], locks[fingerprint := lease];
    forall fp
      ensures (LockKey(fp) in e <==> fp in l) && (fp in l ==> LockKey(fp) in e && e[LockKey(fp)].expires == Some(l[fp].expires))
    {
      LockKeysDiffer(fp, fingerprint);
      if fp != fingerprint {
        assert (LockKey(fp) in e <==> LockKey(fp) in entries) && (fp in l <==> fp in locks);
      }
    }
  }

  lemma DeleteRepresents(entries: Store<string>, locks: map<string, Lease>, fingerprint: string)
    requires Represents(entries, locks)
    ensures Represents(entries - {LockKey(fingerprint)}, locks - {fingerprint})
  {
    forall fp ensures LockKey(fp) == LockKey(fingerprint) <==> fp == fingerprint {
      LockKeysDiffer(fp, fingerprint);
    }
  }

  lemma AcquireLocks(indexed: bool, s: World, w: nat, job: Job, reply: Reply)
    requires s.PcOf(w).Idle?
    ensures var r, free := Apply(indexed, s, AcquireAction(w, job, reply)), !s.Locked(job.fingerprint);
            && r.PcOf(w) == (if reply != Heard || free then Holding(job) else Idle)
            && r.locks == (if reply != NotExecuted && free then s.locks[job.fingerprint := Lease(w, s.now + LOCK_TTL)] else s.locks)
  {
  }

  /** What AcquireDedupLock does to the keys and answers is the protocol's step, failing Redis included. */
  lemma AcquireIsStep(indexed: bool, entries: Store<string>, after: Store<string>, acquired: bool, s: World, w: nat, job: Job,
                      owner: string, reply: Reply)
    requires Represents(entries, s.locks) && s.PcOf(w).Idle?
    requires acquired <==> reply != Heard || !Live(entries, LockKey(job.fingerprint), s.now)
    requires after == if reply != NotExecuted && !Live(entries, LockKey(job.fingerprint), s.now)
                      then entries[LockKey(job.fingerprint) := Entry(Text(owner), Some(s.now + LOCK_TTL))]
                      else entries
    ensures var r := Apply(indexed, s, AcquireAction(w, job, reply));
            Represents(after, r.locks) && r.PcOf(w) == (if acquired then Holding(job) else Idle)
  {
    assert Live(entries, LockKey(job.fingerprint), s.now) <==> s.Locked(job.fingerprint);
    AcquireLocks(indexed, s, w, job, reply);
    SetRepresents(entries, s.locks, job.fingerprint, owner, Lease(w, s.now + LOCK_TTL));
  }

  lemma ReleaseLocks(indexed: bool, s: World, w: nat, reply: Reply)
    requires s.PcOf(w).Releasing?
    ensures var r := Apply(indexed, s, if reply != NotExecuted then Release(w) else ReleaseFails(w));
            r.PcOf(w) == Idle && r.locks == if reply != NotExecuted then s.locks - {s.PcOf(w).job.fingerprint} else s.locks
  {
  }

  /** So is what ReleaseDedupLock does, although the key may hold another worker's lease by then. */
  lemma ReleaseIsStep(indexed: bool, entries: Store<string>, after: Store<string>, s: World, w: nat, reply: Reply)
    requires Represents(entries, s.locks) && s.PcOf(w).Releasing?
    requires after == if reply != NotExecuted then entries - {LockKey(s.PcOf(w).job.fingerprint)} else entries
    ensures var r := Apply(indexed, s, if reply != NotExecuted then Release(w) else ReleaseFails(w));
            Represents(after, r.locks) && r.PcOf(w).Idle?
  {
    ReleaseLocks(indexed, s, w, reply);
    DeleteRepresents(entries, s.locks, s.PcOf(w).job.fingerprint);
  }

  // ---- Whose lock a release deletes ----

  /** When the worker last got its lock from Redis; None if it went ahead without. */
  function TakenAt(indexed: bool, schedule: seq<Action>, w: nat): Option<real> {
    if schedule == [] then None
    else
      var before, a := schedule[..|schedule| - 1], schedule[|schedule| - 1];
      var s := Execute(indexed, before);
      if a.Acquire? && a.w == w && s.PcOf(w).Idle? && !s.Locked(a.job.fingerprint) then Some(s.now)
      else if (a.AcquireFails? || a.AcquireUnheard?) && a.w == w && s.PcOf(w).Idle? then None
      else TakenAt(indexed, before, w)
  }

  /** The worker got its lock from Redis and its lease has not run out, which it can tell by its own clock. */
  predicate HasLease(indexed: bool, schedule: seq<Action>, w: nat) {
    var t := TakenAt(indexed, schedule, w);
    t.Some? && Execute(indexed, schedule).now < t.value + LOCK_TTL
  }

  /** Nobody has released without a lease so far. */
  predicate ReleasesInTime(indexed: bool, schedule: seq<Action>) {
    schedule != [] ==>
      var before, a := schedule[..|schedule| - 1], schedule[|schedule| - 1];
      ReleasesInTime(indexed, before)
      && (a.Release? && Execute(indexed, before).PcOf(a.w).Releasing? ==> HasLease(indexed, before, a.w))
  }

  /** A release by w would delete the live lock of somebody else. */
  predicate DropsForeign(s: World, w: nat) {
    && s.PcOf(w).Releasing? && s.Locked(s.PcOf(w).job.fingerprint)
    && s.locks[s.PcOf(w).job.fingerprint].owner != w
  }

  /** A worker with a lease still is the owner in Redis. */
  ghost predicate LeaseHeld(indexed: bool, schedule: seq<Action>, w: nat) {
    var s := Execute(indexed, schedule);
    Critical(s.PcOf(w)) && HasLease(indexed, schedule, w) ==>
      s.PcOf(w).job.fingerprint in s.locks
      && s.locks[s.PcOf(w).job.fingerprint] == Lease(w, TakenAt(indexed, schedule, w).value + LOCK_TTL)
  }

  lemma StepKeepsLease(indexed: bool, before: seq<Action>, a: Action, w: nat)
    requires ReleasesInTime(indexed, before) && LeaseHeld(indexed, before, w)
    requires a.Release? && Execute(indexed, before).PcOf(a.w).Releasing? ==>
               HasLease(indexed, before, a.w) && LeaseHeld(indexed, before, a.w)
    ensures LeaseHeld(indexed, before + [a], w)
  {
    var s, r := Execute(indexed, before), Execute(indexed, before + [a]);
    assert (before + [a])[..|before|] == before && r == Apply(indexed, s, a);
    if Critical(r.PcOf(w)) && Critical(s.PcOf(w)) {
      SameJob(indexed, s, a, w);
      if HasLease(indexed, before, w) {
        LiveLockStays(indexed, s, a, s.PcOf(w).job.fingerprint);
      }
    }
  }

  /** Only a release of its fingerprint touches a live lock. */
  lemma LiveLockStays(indexed: bool, s: World, a: Action, fp: string)
    requires s.Locked(fp)
    ensures var r := Apply(indexed, s, a);
            || (fp in r.locks && r.locks[fp] == s.locks[fp])
            || (a.Release? && s.PcOf(a.w).Releasing? && s.PcOf(a.w).job.fingerprint == fp)
  {
  }

  lemma SameJob(indexed: bool, s: World, a: Action, w: nat)
    requires Critical(s.PcOf(w)) && Critical(Apply(indexed, s, a).PcOf(w))
    ensures Apply(indexed, s, a).PcOf(w).job == s.PcOf(w).job
  {
  }

  lemma {:induction false} LeasesHeld(indexed: bool, schedule: seq<Action>, w: nat)
    requires ReleasesInTime(indexed, schedule)
    ensures LeaseHeld(indexed, schedule, w)
  {
    if schedule != [] {
      var before, a := schedule[..|schedule| - 1], schedule[|schedule| - 1];
      LeasesHeld(indexed, before, w);
      if a.Release? {
        LeasesHeld(indexed, before, a.w);
      }
      StepKeepsLease(indexed, before, a, w);
      assert before + [a] == schedule;
    }
  }

  lemma LeaseMeansOwn(indexed: bool, schedule: seq<Action>, w: nat)
    requires ReleasesInTime(indexed, schedule) && HasLease(indexed, schedule, w)
    ensures !DropsForeign(Execute(indexed, schedule), w)
  {
    LeasesHeld(indexed, schedule, w);
  }

  /** A run in which all releases were in time and w is about to delete a foreign lock, its own taken d seconds ago. */
  predicate LateRelease(indexed: bool, schedule: seq<Action>, w: nat, job: Job, d: real) {
    var s := Execute(indexed, schedule);
    && ReleasesInTime(indexed, schedule) && s.PcOf(w) == Releasing(job)
    && TakenAt(indexed, schedule, w) == Some(s.now - d) && DropsForeign(s, w)
  }

  /** The first release out of time can delete a foreign lock exactly when the worker's 30 seconds are up. */
  lemma LateReleaseIff(indexed: bool, job: Job, d: real)
    requires d >= 0.0
    ensures (exists schedule, w :: LateRelease(indexed, schedule, w, job, d)) <==> d >= 30.0
  {
    if d >= LOCK_TTL {
      var schedule := ExpireAndTakeOver(indexed, job, d);
      assert LateRelease(indexed, schedule, 1, job, d);
    } else {
      forall schedule, w ensures !LateRelease(indexed, schedule, w, job, d) {
        if ReleasesInTime(indexed, schedule) && HasLease(indexed, schedule, w) {
          LeaseMeansOwn(indexed, schedule, w);
        }
      }
    }
  }

  lemma Snoc(indexed: bool, schedule: seq<Action>, a: Action)
    requires ReleasesInTime(indexed, schedule) && !a.Release?
    ensures ReleasesInTime(indexed, schedule + [a])
    ensures Execute(indexed, schedule + [a]) == Apply(indexed, Execute(indexed, schedule), a)
    ensures !a.Acquire? && !a.AcquireFails? && !a.AcquireUnheard? ==>
              forall w :: TakenAt(indexed, schedule + [a], w) == TakenAt(indexed, schedule, w)
    ensures a.Acquire? ==> forall w :: w != a.w ==> TakenAt(indexed, schedule + [a], w) == TakenAt(indexed, schedule, w)
  {
    assert (schedule + [a])[..|schedule|] == schedule;
  }

  lemma TakeLock(indexed: bool, job: Job) returns (schedule: seq<Action>)
    ensures ReleasesInTime(indexed, schedule) && TakenAt(indexed, schedule, 1) == Some(0.0)
    ensures var s := Execute(indexed, schedule);
            s.PcOf(1) == Holding(job) && s.PcOf(2) == Idle && s.now == 0.0 && s.locks == map[job.fingerprint := Lease(1, LOCK_TTL)]
  {
    schedule := [] + [Acquire(1, job)];
    Snoc(indexed, [], Acquire(1, job));
    assert schedule[..0] == [];
  }

  lemma HoldOn(indexed: bool, job: Job, d: real) returns (schedule: seq<Action>)
    requires d >= 0.0
    ensures ReleasesInTime(indexed, schedule) && TakenAt(indexed, schedule, 1) == Some(0.0)
    ensures var s := Execute(indexed, schedule);
            s.PcOf(1) == Releasing(job) && s.PcOf(2) == Idle && s.now == d && s.locks == map[job.fingerprint := Lease(1, LOCK_TTL)]
  {
    var a := TakeLock(indexed, job);
    Snoc(indexed, a, GiveUp(1));
    var b := a + [GiveUp(1)];
    assert Execute(indexed, b) == Execute(indexed, a).Goto(1, Releasing(job));
    Snoc(indexed, b, Tick(d));
    schedule := b + [Tick(d)];
  }

  lemma ExpireAndTakeOver(indexed: bool, job: Job, d: real) returns (schedule: seq<Action>)
    requires d >= LOCK_TTL
    ensures LateRelease(indexed, schedule, 1, job, d)
  {
    var c := HoldOn(indexed, job, d);
    Snoc(indexed, c, Acquire(2, job));
    AcquireLocks(indexed, Execute(indexed, c), 2, job, Heard);
    schedule := c + [Acquire(2, job)];
  }

  /** A worker that went ahead without Redis deletes the owner's lock however soon it releases. */
  lemma FailOpenReleaseDrops(indexed: bool, job: Job)
    ensures exists schedule :: ReleasesInTime(indexed, schedule) && TakenAt(indexed, schedule, 2).None?
                               && DropsForeign(Execute(indexed, schedule), 2)
  {
    var a := TakeLock(indexed, job);
    Snoc(indexed, a, AcquireFails(2, job));
    var b := a + [AcquireFails(2, job)];
    assert b[..|a|] == a;
    Snoc(indexed, b, GiveUp(2));
    var c := b + [GiveUp(2)];
    assert DropsForeign(Execute(indexed, c), 2);
  }

  // ---- How long a worker may take ----

  /** A worker past acquire got its lock from Redis no longer than d seconds ago. */
  predicate PromptWorker(indexed: bool, schedule: seq<Action>, w: nat, d: real) {
    Critical(Execute(indexed, schedule).PcOf(w)) ==>
      && TakenAt(indexed, schedule, w).Some?
      && Execute(indexed, schedule).now - TakenAt(indexed, schedule, w).value <= d
  }

  predicate StaysResolved(s: World, a: Action) {
    a.SetStatus? && a.id in s.db.incidents && s.db.incidents[a.id].status == Resolved ==> a.status == Resolved
  }

  /** At no time has a worker taken more than d seconds, or gone ahead without the lock, and nothing was re-activated. */
  ghost predicate Prompt(indexed: bool, schedule: seq<Action>, d: real) {
    && (forall w :: PromptWorker(indexed, schedule, w, d))
    && (schedule != [] ==>
          && Prompt(indexed, schedule[..|schedule| - 1], d)
          && StaysResolved(Execute(indexed, schedule[..|schedule| - 1]), schedule[|schedule| - 1]))
  }

  lemma {:induction false} PromptReleasesInTime(indexed: bool, schedule: seq<Action>, d: real)
    requires Prompt(indexed, schedule, d) && d < LOCK_TTL
    ensures ReleasesInTime(indexed, schedule)
  {
    if schedule != [] {
      var before, a := schedule[..|schedule| - 1], schedule[|schedule| - 1];
      PromptReleasesInTime(indexed, before, d);
      if a.Release? {
        assert PromptWorker(indexed, before, a.w, d);
      }
    }
  }

  /** In a prompt run a step is quiet or has no effect. */
  lemma PromptStepIsQuiet(indexed: bool, before: seq<Action>, a: Action, d: real)
    requires Prompt(indexed, before, d) && ReleasesInTime(indexed, before) && d < LOCK_TTL
    requires StaysResolved(Execute(indexed, before), a)
    requires forall w :: PromptWorker(indexed, before + [a], w, d)
    ensures Quiet(Execute(indexed, before), a) || Apply(indexed, Execute(indexed, before), a) == Execute(indexed, before)
  {
    var s := Execute(indexed, before);
    assert (before + [a])[..|before|] == before;
    if a.AcquireFails? || a.AcquireUnheard? {
      assert PromptWorker(indexed, before + [a], a.w, d);
    } else if a.Tick? && a.seconds >= 0.0 {
      forall w, fp | Critical(s.PcOf(w)) && s.PcOf(w).job.fingerprint == fp && fp in s.locks
        ensures s.now + a.seconds < s.locks[fp].expires
      {
        assert PromptWorker(indexed, before, w, d) && PromptWorker(indexed, before + [a], w, d);
        LeasesHeld(indexed, before, w);
      }
    }
  }

  lemma {:induction false} PromptProtects(indexed: bool, schedule: seq<Action>, d: real)
    requires Prompt(indexed, schedule, d) && d < LOCK_TTL
    ensures LockProtects(Execute(indexed, schedule))
  {
    if schedule != [] {
      var before, a := schedule[..|schedule| - 1], schedule[|schedule| - 1];
      var s := Execute(indexed, before);
      PromptProtects(indexed, before, d);
      PromptReleasesInTime(indexed, before, d);
      assert before + [a] == schedule;
      PromptStepIsQuiet(indexed, before, a, d);
      if Quiet(s, a) {
        QuietStepKeepsOwners(indexed, s, a);
        QuietStepKeepsLookups(indexed, s, a);
        QuietStepKeepsUnique(indexed, s, a);
      }
    }
  }

  lemma PromptSnoc(indexed: bool, before: seq<Action>, a: Action, d: real)
    requires Prompt(indexed, before, d) && StaysResolved(Execute(indexed, before), a)
    requires forall w :: PromptWorker(indexed, before + [a], w, d)
    ensures Prompt(indexed, before + [a], d)
  {
    assert (before + [a])[..|before|] == before;
  }

  lemma ExecuteSnoc(indexed: bool, before: seq<Action>, a: Action)
    ensures Execute(indexed, before + [a]) == Apply(indexed, Execute(indexed, before), a)
    ensures !a.Acquire? && !a.AcquireFails? && !a.AcquireUnheard? ==>
              forall w :: TakenAt(indexed, before + [a], w) == TakenAt(indexed, before, w)
  {
    assert (before + [a])[..|before|] == before;
  }

  lemma AcquireIsPrompt(indexed: bool, before: seq<Action>, w: nat, job: Job, d: real)
    requires Prompt(indexed, before, d) && d >= 0.0
    ensures Prompt(indexed, before + [Acquire(w, job)], d)
  {
    var s, a := Execute(indexed, before), Acquire(w, job);
    ExecuteSnoc(indexed, before, a);
    assert (before + [a])[..|before|] == before;
    forall v ensures PromptWorker(indexed, before + [a], v, d) {
      assert PromptWorker(indexed, before, v, d);
    }
    PromptSnoc(indexed, before, a, d);
  }

  /** Acting on the lock takes no time. */
  lemma WorkIsPrompt(indexed: bool, before: seq<Action>, a: Action, d: real)
    requires Prompt(indexed, before, d) && (a.Lookup? || a.Persist?)
    ensures Prompt(indexed, before + [a], d)
  {
    ExecuteSnoc(indexed, before, a);
    var s, r := Execute(indexed, before), Execute(indexed, before + [a]);
    forall v ensures PromptWorker(indexed, before + [a], v, d) {
      assert PromptWorker(indexed, before, v, d);
      assert r.now == s.now && (Critical(r.PcOf(v)) ==> Critical(s.PcOf(v)));
    }
    PromptSnoc(indexed, before, a, d);
  }

  lemma TwoHolders(job: Job, d: real) returns (schedule: seq<Action>)
    requires d >= LOCK_TTL
    ensures Prompt(false, schedule, d)
    ensures var s := Execute(false, schedule);
            s.PcOf(1) == Holding(job) && s.PcOf(2) == Holding(job) && s.db == START.db && s.seen == {}
  {
    AcquireIsPrompt(false, [], 1, job, d);
    var a := [] + [Acquire(1, job)];
    ExecuteSnoc(false, [], Acquire(1, job));
    assert a[..0] == [] && TakenAt(false, a, 1) == Some(0.0);
    ExecuteSnoc(false, a, Tick(LOCK_TTL));
    var b := a + [Tick(LOCK_TTL)];
    forall w ensures PromptWorker(false, b, w, d) {
    }
    PromptSnoc(false, a, Tick(LOCK_TTL), d);
    AcquireIsPrompt(false, b, 2, job, d);
    ExecuteSnoc(false, b, Acquire(2, job));
    schedule := b + [Acquire(2, job)];
  }

  lemma BothSeeNothing(job: Job, d: real) returns (schedule: seq<Action>)
    requires d >= LOCK_TTL
    ensures Prompt(false, schedule, d)
    ensures var s := Execute(false, schedule);
            s.PcOf(1) == FoundNone(job) && s.PcOf(2) == FoundNone(job) && s.db == START.db && s.seen == {}
  {
    var a := TwoHolders(job, d);
    WorkIsPrompt(false, a, Lookup(1, 0), d);
    ExecuteSnoc(false, a, Lookup(1, 0));
    var b := a + [Lookup(1, 0)];
    WorkIsPrompt(false, b, Lookup(2, 0), d);
    ExecuteSnoc(false, b, Lookup(2, 0));
    schedule := b + [Lookup(2, 0)];
  }

  lemma BothInsert(job: Job, d: real) returns (schedule: seq<Action>)
    requires d >= LOCK_TTL
    ensures Prompt(false, schedule, d) && !UniqueActive(Execute(false, schedule).db)
  {
    var a := BothSeeNothing(job, d);
    WorkIsPrompt(false, a, Persist(1, 1), d);
    ExecuteSnoc(false, a, Persist(1, 1));
    var b := a + [Persist(1, 1)];
    assert Execute(false, b).PcOf(2) == FoundNone(job) && Execute(false, b).seen == {1};
    WorkIsPrompt(false, b, Persist(2, 2), d);
    ExecuteSnoc(false, b, Persist(2, 2));
    schedule := b + [Persist(2, 2)];
    assert Execute(false, schedule).db.incidents[1].Active(job.tenant, job.fingerprint);
    assert Execute(false, schedule).db.incidents[2].Active(job.tenant, job.fingerprint);
  }

  /**
   Without the index, the lock keeps active incidents unique in all runs whose workers take at most d
   seconds, exactly when d is less than the 30 seconds of the lock.
   */
  lemma LockSufficesIff(d: real)
    requires d >= 0.0
    ensures (forall schedule :: Prompt(false, schedule, d) ==> UniqueActive(Execute(false, schedule).db)) <==> d < 30.0
  {
    if d < LOCK_TTL {
      forall schedule | Prompt(false, schedule, d) ensures UniqueActive(Execute(false, schedule).db) {
        PromptProtects(false, schedule, d);
      }
    } else {
      var schedule := BothInsert(Job(1, "", ""), d);
    }
  }
}
