/**
 The Redis-backed breaker with every Redis command, or MULTI/EXEC pipeline, as a step of its own.
 Any number of workers interleave; a worker may fail at any command (Redis error) or be killed.
 */
module AgentBreakerSteps {
  import opened Common
  import opened RedisStore
  import opened AgentBreaker

  /** Where a worker stands inside its current call. `grant` points into the log of lock events. */
  datatype Pc =
    | Idle
    | CheckStart | CheckOpen | CheckMissing | CheckElapsed(openedAt: real) | CheckClaim | CheckHalf
    | CheckSetHalf(grant: nat) | CheckSetZero(grant: nat)
    | SuccessStart | SuccessIncr | SuccessClose | SuccessUnlock | SuccessZero
    | FailureStart | FailureIncr | FailureBuild(reopen: bool) | FailureTrip(reopen: bool, stamp: real)

  datatype LockEvent = Granted(who: nat, at: real) | Deleted

  /** How a check that returned True got its answer. */
  datatype Reason = WhileClosed | TimestampMissing | ByLock(grant: nat) | RedisError | UnknownState

  datatype Answer = Allowed(who: nat, reason: Reason) | Refused(who: nat)

  datatype World = World(
    keys: Store<Key>, now: real, pcs: map<nat, Pc>, locks: seq<LockEvent>, answers: seq<Answer>)
  {
    function PcOf(w: nat): Pc { if w in pcs then pcs[w] else Idle }

    function Goto(w: nat, pc: Pc): World { this.(pcs := pcs[w := pc]) }

    function Done(w: nat): World { this.(pcs := pcs - {w}) }

    function Say(w: nat, a: Answer): World { Done(w).(answers := answers + [a]) }

    function Put(k: Key, v: Value): World { this.(keys := Set(keys, k, v)) }

    function DeleteLock(): World { this.(keys := Delete(keys, ProbeLock), locks := locks + [Deleted]) }
  }

  datatype Action =
    | BeginCheck(w: nat) | BeginSuccess(w: nat) | BeginFailure(w: nat)
    | Advance(w: nat)         // the next command of w's call
    | Fail(w: nat)            // that command raises RedisError instead
    | Unheard(w: nat)         // it is executed, but its reply is lost in a RedisError
    | Kill(w: nat)
    | OperatorReset
    | Tick(elapsed: real)

  const START := World(map[], 0.0, map[], [], [])

  // ---- Commands ----

  /** SET probe_lock NX EX timeout. */
  function Claim(cfg: Config, s: World, w: nat): (World, bool) {
    var (keys, acquired) := SetNxEx(s.keys, ProbeLock, Text("1"), cfg.timeout, s.now);
    if acquired then (s.(keys := keys, locks := s.locks + [Granted(w, s.now)]), true) else (s, false)
  }

  /** The closing pipeline of record_success and reset. */
  function CloseAll(s: World): World
    requires Typed(s.keys)
  {
    s.(keys := ClosePipeline(s.keys), locks := s.locks + [Deleted])
  }

  /** The pipeline of record_failure that opens the circuit; only the one from HALF_OPEN drops the lock. */
  function Trip(s: World, t: real, unlock: bool): World
    requires Typed(s.keys)
  {
    s.(keys := TripPipeline(s.keys, t, unlock), locks := if unlock then s.locks + [Deleted] else s.locks)
  }

  function CheckCommand(cfg: Config, s: World, w: nat): (r: World)
    requires Typed(s.keys)
    ensures Typed(r.keys)
  {
    match s.PcOf(w)
    case CheckStart =>
      var state := StateOf(s.keys);
      if state == CLOSED then s.Say(w, Allowed(w, WhileClosed))
      else if state == OPEN then s.Goto(w, CheckOpen)
      else if state == HALF_OPEN then s.Goto(w, CheckHalf)
      else s.Say(w, Allowed(w, UnknownState))
    case CheckOpen =>
      if OpenedAt in s.keys then s.Goto(w, CheckElapsed(s.keys[OpenedAt].value.at))
      else s.Goto(w, CheckMissing)
    case CheckMissing => s.Put(State, Text(CLOSED)).Say(w, Allowed(w, TimestampMissing))
    case CheckElapsed(t) => if s.now - t >= cfg.timeout then s.Goto(w, CheckClaim) else s.Say(w, Refused(w))
    case CheckClaim =>
      var (r, acquired) := Claim(cfg, s, w);
      if acquired then r.Goto(w, CheckSetHalf(|s.locks|)) else r.Say(w, Refused(w))
    case CheckHalf =>
      var (r, acquired) := Claim(cfg, s, w);
      if acquired then r.Say(w, Allowed(w, ByLock(|s.locks|))) else r.Say(w, Refused(w))
    case CheckSetHalf(g) => s.Put(State, Text(HALF_OPEN)).Goto(w, CheckSetZero(g))
    case CheckSetZero(g) => s.Put(Successes, Number(0)).Say(w, Allowed(w, ByLock(g)))
    case _ => s
  }

  function SuccessCommand(cfg: Config, s: World, w: nat): (r: World)
    requires Typed(s.keys)
    ensures Typed(r.keys)
  {
    match s.PcOf(w)
    case SuccessStart =>
      var state := StateOf(s.keys);
      if state == HALF_OPEN then s.Goto(w, SuccessIncr)
      else if state == CLOSED then s.Goto(w, SuccessZero)
      else s.Done(w)
    case SuccessIncr =>
      var (keys, n) := Incr(s.keys, Successes, s.now);
      s.(keys := keys).Goto(w, if n >= cfg.successThreshold then SuccessClose else SuccessUnlock)
    case SuccessClose => CloseAll(s).Done(w)
    case SuccessUnlock => s.DeleteLock().Done(w)
    case SuccessZero => s.Put(Failures, Number(0)).Done(w)
    case _ => s
  }

  function FailureCommand(cfg: Config, s: World, w: nat): (r: World)
    requires Typed(s.keys)
    ensures Typed(r.keys)
  {
    match s.PcOf(w)
    case FailureStart =>
      var state := StateOf(s.keys);
      if state == OPEN then s.Done(w)
      else if state == HALF_OPEN then s.Goto(w, FailureBuild(true))
      else s.Goto(w, FailureIncr)
    case FailureIncr =>
      var (keys, n) := Incr(s.keys, Failures, s.now);
      var r := s.(keys := keys);
      if n >= cfg.failureThreshold then r.Goto(w, FailureBuild(false)) else r.Done(w)
    case FailureBuild(reopen) => s.Goto(w, FailureTrip(reopen, s.now))
    case FailureTrip(reopen, t) => Trip(s, t, reopen).Done(w)
    case _ => s
  }

  predicate Checking(pc: Pc) {
    pc.CheckStart? || pc.CheckOpen? || pc.CheckMissing? || pc.CheckElapsed? || pc.CheckClaim? || pc.CheckHalf?
    || pc.CheckSetHalf? || pc.CheckSetZero?
  }

  predicate Succeeding(pc: Pc) {
    pc.SuccessStart? || pc.SuccessIncr? || pc.SuccessClose? || pc.SuccessUnlock? || pc.SuccessZero?
  }

  function Command(cfg: Config, s: World, w: nat): (r: World)
    requires Typed(s.keys)
    ensures Typed(r.keys)
  {
    if Checking(s.PcOf(w)) then CheckCommand(cfg, s, w)
    else if Succeeding(s.PcOf(w)) then SuccessCommand(cfg, s, w)
    else FailureCommand(cfg, s, w)
  }

  /** An action that is not enabled leaves the world as it is. */
  function Apply(cfg: Config, s: World, a: Action): (r: World)
    requires Typed(s.keys)
    ensures Typed(r.keys)
  {
    match a
    case BeginCheck(w) => if s.PcOf(w).Idle? then s.Goto(w, CheckStart) else s
    case BeginSuccess(w) => if s.PcOf(w).Idle? then s.Goto(w, SuccessStart) else s
    case BeginFailure(w) => if s.PcOf(w).Idle? then s.Goto(w, FailureStart) else s
    case Advance(w) => Command(cfg, s, w)
    case Unheard(w) =>
      var t := Command(cfg, s, w).(answers := s.answers);
      if Checking(s.PcOf(w)) then t.Say(w, Allowed(w, RedisError)) else t.Done(w)
    case Fail(w) => if Checking(s.PcOf(w)) then s.Say(w, Allowed(w, RedisError)) else s.Done(w)
    case Kill(w) => s.Done(w)
    case OperatorReset => CloseAll(s)
    case Tick(d) => if d >= 0.0 then s.(now := s.now + d) else s
  }

  function Execute(cfg: Config, schedule: seq<Action>): (s: World)
    ensures Typed(s.keys)
  {
    if schedule == [] then START
    else Apply(cfg, Execute(cfg, schedule[..|schedule| - 1]), schedule[|schedule| - 1])
  }

  // ---- Safety of every interleaving ----

  /** Between two grants the lock was deleted or its time to live had run out. */
  predicate Separated(cfg: Config, locks: seq<LockEvent>, i: nat, j: nat)
    requires i < j < |locks| && locks[i].Granted? && locks[j].Granted?
  {
    (exists k :: i < k < j && locks[k].Deleted?) || locks[j].at >= locks[i].at + cfg.timeout
  }

  ghost predicate LockLog(cfg: Config, s: World) {
    && (forall i, j :: 0 <= i < j < |s.locks| && s.locks[i].Granted? && s.locks[j].Granted? ==>
          Separated(cfg, s.locks, i, j))
    && (ProbeLock in s.keys <==> s.locks != [] && s.locks[|s.locks| - 1].Granted?)
    && (ProbeLock in s.keys ==> s.keys[ProbeLock].expires == Some(s.locks[|s.locks| - 1].at + cfg.timeout))
  }

  predicate HoldsGrant(s: World, w: nat) {
    s.PcOf(w).CheckSetHalf? || s.PcOf(w).CheckSetZero?
  }

  predicate LockAnswer(a: Answer) {
    a.Allowed? && a.reason.ByLock?
  }

  ghost predicate GrantsUsedOnce(s: World) {
    && (forall w :: HoldsGrant(s, w) ==> s.PcOf(w).grant < |s.locks| && s.locks[s.PcOf(w).grant].Granted?
                                         && s.locks[s.PcOf(w).grant].who == w)
    && (forall i :: 0 <= i < |s.answers| && LockAnswer(s.answers[i]) ==>
          && s.answers[i].reason.grant < |s.locks| && s.locks[s.answers[i].reason.grant].Granted?
          && s.locks[s.answers[i].reason.grant].who == s.answers[i].who)
    && (forall i, w :: 0 <= i < |s.answers| && LockAnswer(s.answers[i]) && HoldsGrant(s, w) ==>
          s.answers[i].reason.grant != s.PcOf(w).grant)
    && (forall i, j :: 0 <= i < j < |s.answers| && LockAnswer(s.answers[i]) && LockAnswer(s.answers[j]) ==>
          s.answers[i].reason.grant != s.answers[j].reason.grant)
  }

  ghost predicate Safe(cfg: Config, s: World) {
    && Typed(s.keys)
    && (StateOf(s.keys) == OPEN ==> OpenedAt in s.keys)
    && LockLog(cfg, s)
    && GrantsUsedOnce(s)
  }

  lemma SeparatedStays(cfg: Config, locks: seq<LockEvent>, e: LockEvent, i: nat, j: nat)
    requires i < j < |locks| && locks[i].Granted? && locks[j].Granted? && Separated(cfg, locks, i, j)
    ensures Separated(cfg, locks + [e], i, j)
  {
    if exists k :: i < k < j && locks[k].Deleted? {
      var k :| i < k < j && locks[k].Deleted?;
      assert (locks + [e])[k].Deleted?;
    }
  }

  /** What one action does to the lock: nothing, a grant to w on a dead lock, or a deletion. */
  predicate LockEffect(cfg: Config, s: World, r: World, w: nat) {
    || (r.locks == s.locks && (ProbeLock in r.keys <==> ProbeLock in s.keys)
        && (ProbeLock in s.keys ==> r.keys[ProbeLock] == s.keys[ProbeLock]))
    || (r.locks == s.locks + [Granted(w, s.now)] && !Live(s.keys, ProbeLock, s.now)
        && ProbeLock in r.keys && r.keys[ProbeLock].expires == Some(s.now + cfg.timeout))
    || (r.locks == s.locks + [Deleted] && ProbeLock !in r.keys)
  }

  lemma EffectKeepsLog(cfg: Config, s: World, r: World, w: nat)
    requires cfg.Valid() && LockLog(cfg, s) && LockEffect(cfg, s, r, w)
    ensures LockLog(cfg, r)
  {
    var n := |s.locks|;
    if |r.locks| > n {
      var e := r.locks[n];
      forall i, j | 0 <= i < j < n && s.locks[i].Granted? && s.locks[j].Granted?
        ensures Separated(cfg, r.locks, i, j)
      {
        SeparatedStays(cfg, s.locks, e, i, j);
      }
      forall i | 0 <= i < n && s.locks[i].Granted? && e.Granted? ensures Separated(cfg, r.locks, i, n) {
        if s.locks[n - 1].Deleted? {
          assert r.locks[n - 1].Deleted?;
        } else if i < n - 1 {
          SeparatedStays(cfg, s.locks, e, i, n - 1);
          if exists k :: i < k < n - 1 && r.locks[k].Deleted? {
            var k :| i < k < n - 1 && r.locks[k].Deleted?;
          }
        }
      }
    }
  }

  /** Only w moved, no lock answer was given, and w holds a grant only if it already did. */
  ghost predicate Unrelated(s: World, r: World, w: nat) {
    && s.locks <= r.locks
    && (r.answers == s.answers || (exists a :: r.answers == s.answers + [a] && !LockAnswer(a)))
    && (forall v :: v != w ==> r.PcOf(v) == s.PcOf(v))
    && (HoldsGrant(r, w) ==> HoldsGrant(s, w) && r.PcOf(w).grant == s.PcOf(w).grant)
  }

  lemma UnrelatedKeepsGrants(s: World, r: World, w: nat)
    requires GrantsUsedOnce(s) && Unrelated(s, r, w)
    ensures GrantsUsedOnce(r)
  {
    forall v | HoldsGrant(r, v) ensures HoldsGrant(s, v) && r.PcOf(v).grant == s.PcOf(v).grant {
    }
    assert forall i :: 0 <= i < |r.answers| && LockAnswer(r.answers[i]) ==> i < |s.answers| && r.answers[i] == s.answers[i];
  }

  /** w just won the lock, and either keeps the grant for its next commands or answers with it at once. */
  ghost predicate GrantTaken(s: World, r: World, w: nat) {
    && r.locks == s.locks + [Granted(w, s.now)]
    && !HoldsGrant(s, w)
    && (forall v :: v != w ==> r.PcOf(v) == s.PcOf(v))
    && (HoldsGrant(r, w) ==> r.PcOf(w).grant == |s.locks|)
    && r.answers == s.answers + if HoldsGrant(r, w) then [] else [Allowed(w, ByLock(|s.locks|))]
  }

  lemma TakingKeepsGrants(s: World, r: World, w: nat)
    requires GrantsUsedOnce(s) && GrantTaken(s, r, w)
    ensures GrantsUsedOnce(r)
  {
    forall v | HoldsGrant(r, v) && v != w ensures HoldsGrant(s, v) && r.PcOf(v).grant == s.PcOf(v).grant {
    }
    assert forall i :: 0 <= i < |s.answers| ==> r.answers[i] == s.answers[i];
    assert forall i :: 0 <= i < |s.locks| ==> r.locks[i] == s.locks[i];
  }

  /** w answers with the grant it held. */
  ghost predicate GrantSpent(s: World, r: World, w: nat) {
    && r.locks == s.locks
    && HoldsGrant(s, w) && !HoldsGrant(r, w)
    && (forall v :: v != w ==> r.PcOf(v) == s.PcOf(v))
    && r.answers == s.answers + [Allowed(w, ByLock(s.PcOf(w).grant))]
  }

  lemma SpendingKeepsGrants(s: World, r: World, w: nat)
    requires GrantsUsedOnce(s) && GrantSpent(s, r, w)
    ensures GrantsUsedOnce(r)
  {
    forall v | HoldsGrant(r, v) ensures v != w && HoldsGrant(s, v) && r.PcOf(v).grant == s.PcOf(v).grant {
    }
    forall v | HoldsGrant(s, v) && v != w ensures s.PcOf(v).grant != s.PcOf(w).grant {
      assert s.locks[s.PcOf(v).grant].who == v;
    }
    assert forall i :: 0 <= i < |s.answers| ==> r.answers[i] == s.answers[i];
  }

  lemma CheckGrantEffect(cfg: Config, s: World, w: nat)
    requires Typed(s.keys) && Checking(s.PcOf(w))
    ensures var r := CheckCommand(cfg, s, w); Unrelated(s, r, w) || GrantTaken(s, r, w) || GrantSpent(s, r, w)
  {
  }

  lemma CheckKeepsGrants(cfg: Config, s: World, w: nat)
    requires cfg.Valid() && Safe(cfg, s) && Checking(s.PcOf(w))
    ensures GrantsUsedOnce(CheckCommand(cfg, s, w))
  {
    var r := CheckCommand(cfg, s, w);
    CheckGrantEffect(cfg, s, w);
    if Unrelated(s, r, w) {
      UnrelatedKeepsGrants(s, r, w);
    } else if GrantTaken(s, r, w) {
      TakingKeepsGrants(s, r, w);
    } else {
      SpendingKeepsGrants(s, r, w);
    }
  }

  predicate OpenStamped(keys: Store<Key>)
    requires Typed(keys)
  {
    StateOf(keys) == OPEN ==> OpenedAt in keys
  }

  lemma CheckEffect(cfg: Config, s: World, w: nat)
    requires Safe(cfg, s) && Checking(s.PcOf(w))
    ensures var r := CheckCommand(cfg, s, w); LockEffect(cfg, s, r, w) && OpenStamped(r.keys)
  {
  }

  lemma SuccessEffect(cfg: Config, s: World, w: nat)
    requires Safe(cfg, s) && Succeeding(s.PcOf(w))
    ensures var r := SuccessCommand(cfg, s, w);
            LockEffect(cfg, s, r, w) && OpenStamped(r.keys) && Unrelated(s, r, w)
  {
  }

  lemma FailureEffect(cfg: Config, s: World, w: nat)
    requires Safe(cfg, s) && !Checking(s.PcOf(w)) && !Succeeding(s.PcOf(w))
    ensures var r := FailureCommand(cfg, s, w); LockEffect(cfg, s, r, w) && OpenStamped(r.keys)
  {
  }

  lemma FailureIsUnrelated(cfg: Config, s: World, w: nat)
    requires Typed(s.keys) && !Checking(s.PcOf(w)) && !Succeeding(s.PcOf(w))
    ensures Unrelated(s, FailureCommand(cfg, s, w), w)
  {
  }

  lemma CommandEffect(cfg: Config, s: World, w: nat)
    requires Safe(cfg, s)
    ensures var r := Command(cfg, s, w); LockEffect(cfg, s, r, w) && OpenStamped(r.keys)
  {
    if Checking(s.PcOf(w)) { CheckEffect(cfg, s, w); }
    else if Succeeding(s.PcOf(w)) { SuccessEffect(cfg, s, w); }
    else { FailureEffect(cfg, s, w); }
  }

  lemma CommandKeepsGrants(cfg: Config, s: World, w: nat)
    requires cfg.Valid() && Safe(cfg, s)
    ensures GrantsUsedOnce(Command(cfg, s, w))
  {
    if Checking(s.PcOf(w)) {
      CheckKeepsGrants(cfg, s, w);
    } else {
      if Succeeding(s.PcOf(w)) { SuccessEffect(cfg, s, w); }
      else { FailureIsUnrelated(cfg, s, w); }
      UnrelatedKeepsGrants(s, Command(cfg, s, w), w);
    }
  }

  /** A command moves nobody else and never shortens the log of the lock. */
  lemma CommandIsOwn(cfg: Config, s: World, w: nat)
    requires Typed(s.keys)
    ensures var r := Command(cfg, s, w); s.locks <= r.locks && forall v :: v != w ==> r.PcOf(v) == s.PcOf(v)
  {
    if Checking(s.PcOf(w)) { CheckGrantEffect(cfg, s, w); }
    else if !Succeeding(s.PcOf(w)) { FailureIsUnrelated(cfg, s, w); }
  }

  /** A lost reply has the command's effect on the keys, and none of its answers. */
  lemma UnheardEffect(cfg: Config, s: World, w: nat)
    requires Safe(cfg, s)
    ensures var r := Apply(cfg, s, Unheard(w));
            LockEffect(cfg, s, r, w) && OpenStamped(r.keys) && Unrelated(s, r, w)
  {
    CommandEffect(cfg, s, w);
    CommandIsOwn(cfg, s, w);
    var t, r := Command(cfg, s, w), Apply(cfg, s, Unheard(w));
    assert r.keys == t.keys && r.locks == t.locks && r.pcs == t.pcs - {w};
    assert r.answers == if Checking(s.PcOf(w)) then s.answers + [Allowed(w, RedisError)] else s.answers;
  }

  lemma OtherEffect(cfg: Config, s: World, a: Action, w: nat)
    requires Safe(cfg, s) && !a.Advance? && !a.Unheard? && (!a.OperatorReset? && !a.Tick? ==> w == a.w)
    ensures var r := Apply(cfg, s, a);
            LockEffect(cfg, s, r, w) && OpenStamped(r.keys) && Unrelated(s, r, w)
  {
  }

  lemma ApplyKeepsSafe(cfg: Config, s: World, a: Action)
    requires cfg.Valid() && Safe(cfg, s)
    ensures Safe(cfg, Apply(cfg, s, a))
  {
    var r := Apply(cfg, s, a);
    var w := if a.OperatorReset? || a.Tick? then 0 else a.w;
    if a.Advance? {
      CommandEffect(cfg, s, w);
      CommandKeepsGrants(cfg, s, w);
    } else {
      if a.Unheard? { UnheardEffect(cfg, s, w); } else { OtherEffect(cfg, s, a, w); }
      UnrelatedKeepsGrants(s, r, w);
    }
    EffectKeepsLog(cfg, s, r, w);
  }

  lemma {:induction false} ScheduleIsSafe(cfg: Config, schedule: seq<Action>)
    requires cfg.Valid()
    ensures Safe(cfg, Execute(cfg, schedule))
  {
    if schedule != [] {
      ScheduleIsSafe(cfg, schedule[..|schedule| - 1]);
      ApplyKeepsSafe(cfg, Execute(cfg, schedule[..|schedule| - 1]), schedule[|schedule| - 1]);
    }
  }

  /** Whatever the interleaving, OPEN always comes with the timestamp that can end it. */
  lemma OpenHasTimestamp(cfg: Config, schedule: seq<Action>)
    requires cfg.Valid()
    ensures OpenStamped(Execute(cfg, schedule).keys)
  {
    ScheduleIsSafe(cfg, schedule);
  }

  /**
   Two checks let through by the lock used two different grants, each made to the caller itself,
   and between the two grants the lock was deleted or had expired.
   */
  lemma OneAdmissionPerLease(cfg: Config, schedule: seq<Action>, i: nat, j: nat)
    requires cfg.Valid()
    requires i < j < |Execute(cfg, schedule).answers|
    requires LockAnswer(Execute(cfg, schedule).answers[i]) && LockAnswer(Execute(cfg, schedule).answers[j])
    ensures var s := Execute(cfg, schedule);
            var g, h := s.answers[i].reason.grant, s.answers[j].reason.grant;
            && g != h && g < |s.locks| && h < |s.locks|
            && s.locks[g].Granted? && s.locks[g].who == s.answers[i].who
            && s.locks[h].Granted? && s.locks[h].who == s.answers[j].who
            && (if g < h then Separated(cfg, s.locks, g, h) else Separated(cfg, s.locks, h, g))
  {
    ScheduleIsSafe(cfg, schedule);
  }

  // ---- The same calls without interleaving ----

  /** w runs that many commands of its call while nobody else moves. */
  function Alone(cfg: Config, s: World, w: nat, commands: nat): (r: World)
    requires Typed(s.keys)
    ensures Typed(r.keys)
    decreases commands
  {
    if commands == 0 then s else Alone(cfg, Command(cfg, s, w), w, commands - 1)
  }

  lemma {:induction false} AloneIdle(cfg: Config, s: World, w: nat, commands: nat)
    requires Typed(s.keys) && s.PcOf(w).Idle?
    ensures Alone(cfg, s, w, commands) == s
  {
    if commands > 0 {
      AloneIdle(cfg, s, w, commands - 1);
    }
  }

  /** r is s after a check by w was answered and the keys came to mean the outcome's circuit. */
  predicate Answered(cfg: Config, s: World, r: World, w: nat, outcome: (Circuit, bool)) {
    && r.PcOf(w).Idle? && Valid(cfg, r.keys) && Meaning(cfg, r.keys) == outcome.0
    && |r.answers| == |s.answers| + 1 && r.answers[|s.answers|].Allowed? == outcome.1
  }

  /** r is s after a report by w. */
  predicate Reported(cfg: Config, r: World, w: nat, outcome: Circuit) {
    r.PcOf(w).Idle? && Valid(cfg, r.keys) && Meaning(cfg, r.keys) == outcome
  }

  function HalfOpened(keys: Store<Key>, until: real): Store<Key> {
    Set(Set(keys[ProbeLock := Entry(Text("1"), Some(until))], State, Text(HALF_OPEN)), Successes, Number(0))
  }

  lemma HalfOpenedMeans(cfg: Config, keys: Store<Key>, until: real)
    requires cfg.Valid() && Typed(keys)
    ensures Valid(cfg, HalfOpened(keys, until)) && Meaning(cfg, HalfOpened(keys, until)) == HalfOpen(0, Some(until))
  {
  }

  lemma UninterruptedClaim(cfg: Config, s: World, w: nat, commands: nat)
    requires Typed(s.keys) && ProbeLock !in s.keys && s.PcOf(w) == CheckClaim && commands >= 3
    ensures var r := Alone(cfg, s, w, commands);
            && r.PcOf(w).Idle? && r.keys == HalfOpened(s.keys, s.now + cfg.timeout)
            && r.answers == s.answers + [Allowed(w, ByLock(|s.locks|))]
  {
    var s1 := Command(cfg, s, w);
    assert s1.PcOf(w) == CheckSetHalf(|s.locks|);
    var s2 := Command(cfg, s1, w);
    assert s2.PcOf(w) == CheckSetZero(|s.locks|);
    var s3 := Command(cfg, s2, w);
    AloneIdle(cfg, s3, w, commands - 3);
    assert Alone(cfg, s2, w, commands - 2) == s3;
    assert Alone(cfg, s1, w, commands - 1) == s3;
  }

  lemma UninterruptedElapsedCheck(cfg: Config, s: World, w: nat, t: real, commands: nat)
    requires Typed(s.keys) && s.PcOf(w) == CheckElapsed(t) && commands >= 4
    ensures s.now - t < cfg.timeout ==> Alone(cfg, s, w, commands) == s.Say(w, Refused(w))
    ensures s.now - t >= cfg.timeout ==> Alone(cfg, s, w, commands) == Alone(cfg, s.Goto(w, CheckClaim), w, commands - 1)
  {
    if s.now - t < cfg.timeout {
      AloneIdle(cfg, s.Say(w, Refused(w)), w, commands - 1);
    }
  }

  lemma OpenCheckAnswered(cfg: Config, s: World, r: World, w: nat, elapsed: bool)
    requires cfg.Valid() && Valid(cfg, s.keys) && StateOf(s.keys) == OPEN && r.PcOf(w).Idle?
    requires elapsed <==> s.now - s.keys[OpenedAt].value.at >= cfg.timeout
    requires r.keys == if elapsed then HalfOpened(s.keys, s.now + cfg.timeout) else s.keys
    requires exists a: Answer :: r.answers == s.answers + [a] && a.Allowed? == elapsed
    ensures Answered(cfg, s, r, w, Meaning(cfg, s.keys).Check(cfg, s.now))
  {
    HalfOpenedMeans(cfg, s.keys, s.now + cfg.timeout);
  }

  lemma ReadsTimestamp(cfg: Config, s: World, w: nat, commands: nat)
    requires Typed(s.keys) && OpenedAt in s.keys && s.PcOf(w) == CheckOpen && commands >= 1
    ensures Alone(cfg, s, w, commands) == Alone(cfg, s.Goto(w, CheckElapsed(s.keys[OpenedAt].value.at)), w, commands - 1)
  {
    assert Command(cfg, s, w) == s.Goto(w, CheckElapsed(s.keys[OpenedAt].value.at));
  }

  /** What is left of a check that has read OPEN. */
  lemma UninterruptedOpenRead(cfg: Config, s: World, w: nat, commands: nat)
    requires Typed(s.keys) && OpenedAt in s.keys && ProbeLock !in s.keys && s.PcOf(w) == CheckOpen && commands >= 5
    ensures var r, elapsed := Alone(cfg, s, w, commands), s.now - s.keys[OpenedAt].value.at >= cfg.timeout;
            && r.PcOf(w).Idle? && r.keys == (if elapsed then HalfOpened(s.keys, s.now + cfg.timeout) else s.keys)
            && r.answers == s.answers + [if elapsed then Allowed(w, ByLock(|s.locks|)) else Refused(w)]
  {
    var t := s.keys[OpenedAt].value.at;
    var s1 := s.Goto(w, CheckElapsed(t));
    ReadsTimestamp(cfg, s, w, commands);
    UninterruptedElapsedCheck(cfg, s1, w, t, commands - 1);
    if s.now - t >= cfg.timeout {
      UninterruptedClaim(cfg, s1.Goto(w, CheckClaim), w, commands - 2);
    }
  }

  lemma UninterruptedOpenCheck(cfg: Config, s: World, w: nat, commands: nat)
    requires cfg.Valid() && Valid(cfg, s.keys) && StateOf(s.keys) == OPEN && s.PcOf(w) == CheckOpen
    requires commands >= 5
    ensures Answered(cfg, s, Alone(cfg, s, w, commands), w, Meaning(cfg, s.keys).Check(cfg, s.now))
  {
    var t := s.keys[OpenedAt].value.at;
    var r := Alone(cfg, s, w, commands);
    UninterruptedOpenRead(cfg, s, w, commands);
    assert r.answers == s.answers + [r.answers[|s.answers|]];
    OpenCheckAnswered(cfg, s, r, w, s.now - t >= cfg.timeout);
  }

  /** A check whose commands, at most six, run back to back is the atomic step of the abstract circuit. */
  lemma UninterruptedCheck(cfg: Config, s: World, w: nat, commands: nat)
    requires cfg.Valid() && Valid(cfg, s.keys) && s.PcOf(w) == CheckStart && commands >= 6
    ensures Answered(cfg, s, Alone(cfg, s, w, commands), w, Meaning(cfg, s.keys).Check(cfg, s.now))
  {
    var s1 := Command(cfg, s, w);
    assert Alone(cfg, s, w, commands) == Alone(cfg, s1, w, commands - 1);
    if StateOf(s.keys) == CLOSED {
      AloneIdle(cfg, s1, w, commands - 1);
    } else if StateOf(s.keys) == OPEN {
      UninterruptedOpenCheck(cfg, s1, w, commands - 1);
    } else {
      assert s1 == s.Goto(w, CheckHalf);
      UninterruptedHalfCheck(cfg, s1, w, commands - 1);
    }
  }

  lemma UninterruptedHalfCheck(cfg: Config, s: World, w: nat, commands: nat)
    requires cfg.Valid() && Valid(cfg, s.keys) && StateOf(s.keys) == HALF_OPEN && s.PcOf(w) == CheckHalf
    requires commands >= 1
    ensures Answered(cfg, s, Alone(cfg, s, w, commands), w, Meaning(cfg, s.keys).Check(cfg, s.now))
  {
    AloneIdle(cfg, Command(cfg, s, w), w, commands - 1);
  }

  lemma OneCommand(cfg: Config, s: World, w: nat, commands: nat)
    requires Typed(s.keys) && commands >= 1 && Command(cfg, s, w).PcOf(w).Idle?
    ensures Alone(cfg, s, w, commands) == Command(cfg, s, w)
  {
    AloneIdle(cfg, Command(cfg, s, w), w, commands - 1);
  }

  lemma ClosedSuccess(cfg: Config, s: World, w: nat)
    requires cfg.Valid() && Valid(cfg, s.keys) && StateOf(s.keys) == CLOSED && s.PcOf(w) == SuccessStart
    ensures Reported(cfg, Command(cfg, Command(cfg, s, w), w), w, Closed(0))
  {
    assert Command(cfg, s, w) == s.Goto(w, SuccessZero);
  }

  lemma UninterruptedSuccess(cfg: Config, s: World, w: nat, commands: nat)
    requires cfg.Valid() && Valid(cfg, s.keys) && s.PcOf(w) == SuccessStart && commands >= 3
    ensures Reported(cfg, Alone(cfg, s, w, commands), w, Meaning(cfg, s.keys).Success(cfg))
  {
    if StateOf(s.keys) == CLOSED {
      ClosedSuccess(cfg, s, w);
      TwoCommands(cfg, s, w, commands);
    } else if StateOf(s.keys) == OPEN {
      OneCommand(cfg, s, w, commands);
    } else {
      assert Command(cfg, s, w) == s.Goto(w, SuccessIncr);
      UninterruptedProbeSuccess(cfg, s.Goto(w, SuccessIncr), w, commands - 1);
    }
  }

  lemma LastSuccessCommand(cfg: Config, s: World, w: nat)
    requires cfg.Valid() && Typed(s.keys) && StateOf(s.keys) == HALF_OPEN
    requires s.PcOf(w).SuccessClose? || (s.PcOf(w).SuccessUnlock? && 0 <= NumberAt(s.keys, Successes) < cfg.successThreshold)
    ensures Reported(cfg, Command(cfg, s, w), w, if s.PcOf(w).SuccessClose? then Closed(0) else HalfOpen(NumberAt(s.keys, Successes), None))
  {
  }

  lemma CountSuccessCommand(cfg: Config, s: World, w: nat)
    requires cfg.Valid() && Valid(cfg, s.keys) && StateOf(s.keys) == HALF_OPEN && s.PcOf(w) == SuccessIncr
    ensures var s1, n := Command(cfg, s, w), NumberAt(s.keys, Successes) + 1;
            && Typed(s1.keys) && StateOf(s1.keys) == HALF_OPEN && NumberAt(s1.keys, Successes) == n
            && s1.PcOf(w) == if n >= cfg.successThreshold then SuccessClose else SuccessUnlock
  {
  }

  lemma TwoCommands(cfg: Config, s: World, w: nat, commands: nat)
    requires Typed(s.keys) && commands >= 2 && Command(cfg, Command(cfg, s, w), w).PcOf(w).Idle?
    ensures Alone(cfg, s, w, commands) == Command(cfg, Command(cfg, s, w), w)
  {
    var s1 := Command(cfg, s, w);
    AloneIdle(cfg, Command(cfg, s1, w), w, commands - 2);
    assert Alone(cfg, s1, w, commands - 1) == Command(cfg, s1, w);
  }

  lemma UninterruptedProbeSuccess(cfg: Config, s: World, w: nat, commands: nat)
    requires cfg.Valid() && Valid(cfg, s.keys) && StateOf(s.keys) == HALF_OPEN && s.PcOf(w) == SuccessIncr
    requires commands >= 2
    ensures Reported(cfg, Alone(cfg, s, w, commands), w, Meaning(cfg, s.keys).Success(cfg))
  {
    CountSuccessCommand(cfg, s, w);
    LastSuccessCommand(cfg, Command(cfg, s, w), w);
    TwoCommands(cfg, s, w, commands);
  }

  lemma UninterruptedTrip(cfg: Config, s: World, w: nat, commands: nat)
    requires cfg.Valid() && Typed(s.keys) && s.PcOf(w).FailureBuild? && commands >= 2
    requires ProbeLock in s.keys ==> s.PcOf(w).reopen
    ensures Reported(cfg, Alone(cfg, s, w, commands), w, Open(s.now))
  {
    var s1 := Command(cfg, s, w);
    assert s1 == s.Goto(w, FailureTrip(s.PcOf(w).reopen, s.now));
    var s2 := Command(cfg, s1, w);
    AloneIdle(cfg, s2, w, commands - 2);
    assert Alone(cfg, s, w, commands) == Alone(cfg, s1, w, commands - 1) == s2;
  }

  lemma UninterruptedFailure(cfg: Config, s: World, w: nat, commands: nat)
    requires cfg.Valid() && Valid(cfg, s.keys) && s.PcOf(w) == FailureStart && commands >= 4
    ensures Reported(cfg, Alone(cfg, s, w, commands), w, Meaning(cfg, s.keys).Failure(cfg, s.now))
  {
    var s1 := Command(cfg, s, w);
    assert Alone(cfg, s, w, commands) == Alone(cfg, s1, w, commands - 1);
    if StateOf(s.keys) == OPEN {
      AloneIdle(cfg, s1, w, commands - 1);
    } else if StateOf(s.keys) == HALF_OPEN {
      UninterruptedTrip(cfg, s1, w, commands - 1);
    } else {
      var s2 := Command(cfg, s1, w);
      assert Alone(cfg, s1, w, commands - 1) == Alone(cfg, s2, w, commands - 2);
      if s2.PcOf(w).Idle? {
        AloneIdle(cfg, s2, w, commands - 2);
      } else {
        UninterruptedTrip(cfg, s2, w, commands - 2);
      }
    }
  }
}
