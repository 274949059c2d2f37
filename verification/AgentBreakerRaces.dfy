/**
 What interleaving does to the Redis-backed breaker: when a check finds the opening time gone, and when
 a closed circuit stands at its failure threshold.
 */
module AgentBreakerRaces {
  import opened Common
  import opened RedisStore
  import opened AgentBreaker
  import opened AgentBreakerSteps

  // ---- Runs with all their worlds ----

  predicate StepAt(cfg: Config, schedule: seq<Action>, worlds: seq<World>, j: nat)
    requires |worlds| == |schedule| + 1 && j < |schedule|
  {
    Typed(worlds[j].keys) && worlds[j + 1] == Apply(cfg, worlds[j], schedule[j])
  }

  /** worlds[j] is the world after j actions. */
  predicate Trace(cfg: Config, schedule: seq<Action>, worlds: seq<World>) {
    && |worlds| == |schedule| + 1 && worlds[0] == START
    && forall j :: 0 <= j < |schedule| ==> StepAt(cfg, schedule, worlds, j)
  }

  lemma LastStep(cfg: Config, schedule: seq<Action>, worlds: seq<World>, n: nat)
    requires Trace(cfg, schedule, worlds) && 0 < n <= |schedule|
    ensures Typed(worlds[n - 1].keys) && worlds[n] == Apply(cfg, worlds[n - 1], schedule[n - 1]) && Typed(worlds[n].keys)
  {
    assert StepAt(cfg, schedule, worlds, n - 1);
  }

  /** Every schedule has its trace, which ends where `Execute` does. */
  lemma {:induction false} TraceExists(cfg: Config, schedule: seq<Action>) returns (worlds: seq<World>)
    ensures Trace(cfg, schedule, worlds) && worlds[|schedule|] == Execute(cfg, schedule)
  {
    if schedule == [] {
      worlds := [START];
    } else {
      var before := TraceExists(cfg, schedule[..|schedule| - 1]);
      worlds := before + [Execute(cfg, schedule)];
      TraceSnoc(cfg, schedule, before, worlds);
    }
  }

  lemma TraceSnoc(cfg: Config, schedule: seq<Action>, before: seq<World>, worlds: seq<World>)
    requires schedule != [] && Trace(cfg, schedule[..|schedule| - 1], before) && before[|schedule| - 1] == Execute(cfg, schedule[..|schedule| - 1])
    requires worlds == before + [Execute(cfg, schedule)]
    ensures Trace(cfg, schedule, worlds)
  {
    forall j | 0 <= j < |schedule| ensures StepAt(cfg, schedule, worlds, j) {
      if j < |schedule| - 1 {
        assert StepAt(cfg, schedule[..|schedule| - 1], before, j);
        assert worlds[j] == before[j] && worlds[j + 1] == before[j + 1];
      }
    }
  }

  lemma {:induction false} TraceIsSafe(cfg: Config, schedule: seq<Action>, worlds: seq<World>, j: nat)
    requires cfg.Valid() && Trace(cfg, schedule, worlds) && j <= |schedule|
    ensures Safe(cfg, worlds[j])
  {
    if j > 0 {
      TraceIsSafe(cfg, schedule, worlds, j - 1);
      LastStep(cfg, schedule, worlds, j);
      ApplyKeepsSafe(cfg, worlds[j - 1], schedule[j - 1]);
    } else {
      ScheduleIsSafe(cfg, []);
    }
  }

  predicate Executes(a: Action) { a.Advance? || a.Unheard? }

  // ---- When a check finds the opening time gone ----

  /** The closing pipeline of a success, or an operator's reset. */
  predicate ClosingStep(s: World, a: Action) {
    a.OperatorReset? || (Executes(a) && s.PcOf(a.w).SuccessClose?)
  }

  predicate TrippingStep(s: World, a: Action) {
    Executes(a) && s.PcOf(a.w).FailureTrip?
  }

  lemma CommandOnTimestamp(cfg: Config, s: World, w: nat)
    requires Typed(s.keys)
    ensures OpenedAt in Command(cfg, s, w).keys <==>
              s.PcOf(w).FailureTrip? || (OpenedAt in s.keys && !s.PcOf(w).SuccessClose?)
  {
  }

  lemma StepOnTimestamp(cfg: Config, s: World, a: Action)
    requires Typed(s.keys)
    ensures OpenedAt in Apply(cfg, s, a).keys <==> TrippingStep(s, a) || (OpenedAt in s.keys && !ClosingStep(s, a))
  {
    if Executes(a) {
      CommandOnTimestamp(cfg, s, a.w);
      assert Apply(cfg, s, a).keys == Command(cfg, s, a.w).keys;
    }
  }

  /** Action i was w's first GET, which read OPEN; before action n, w has not done its second one. */
  predicate BetweenGets(schedule: seq<Action>, worlds: seq<World>, w: nat, i: nat, n: nat)
    requires |worlds| == |schedule| + 1 && n <= |schedule|
  {
    && i < n && schedule[i] == Advance(w) && worlds[i].PcOf(w) == CheckStart
    && Typed(worlds[i].keys) && StateOf(worlds[i].keys) == OPEN
    && forall j :: i < j <= n ==> worlds[j].PcOf(w) == CheckOpen
  }

  /** Action k closed the circuit, and no failure has opened it again before action n. */
  predicate ClosedAt(schedule: seq<Action>, worlds: seq<World>, k: nat, n: nat)
    requires |worlds| == |schedule| + 1 && n <= |schedule|
  {
    && k < n && ClosingStep(worlds[k], schedule[k])
    && forall j :: k < j < n ==> !TrippingStep(worlds[j], schedule[j])
  }

  lemma OnlyReadingOpens(cfg: Config, s: World, a: Action, w: nat)
    requires Typed(s.keys) && Apply(cfg, s, a).PcOf(w) == CheckOpen && s.PcOf(w) != CheckOpen
    ensures a == Advance(w) && s.PcOf(w) == CheckStart && StateOf(s.keys) == OPEN
  {
    if Executes(a) && a.w != w {
      CommandIsOwn(cfg, s, a.w);
    }
  }

  lemma {:induction false} OpenWasRead(cfg: Config, schedule: seq<Action>, worlds: seq<World>, w: nat, n: nat) returns (i: nat)
    requires Trace(cfg, schedule, worlds) && n <= |schedule| && worlds[n].PcOf(w) == CheckOpen
    ensures BetweenGets(schedule, worlds, w, i, n)
  {
    LastStep(cfg, schedule, worlds, n);
    if worlds[n - 1].PcOf(w) == CheckOpen {
      i := OpenWasRead(cfg, schedule, worlds, w, n - 1);
    } else {
      OnlyReadingOpens(cfg, worlds[n - 1], schedule[n - 1], w);
      i := n - 1;
    }
  }

  /** A time that was there and is gone was deleted by a closing. */
  lemma {:induction false} GoneWasClosed(cfg: Config, schedule: seq<Action>, worlds: seq<World>, i: nat, n: nat) returns (k: nat)
    requires Trace(cfg, schedule, worlds) && i <= n <= |schedule|
    requires OpenedAt in worlds[i].keys && OpenedAt !in worlds[n].keys
    ensures i <= k && ClosedAt(schedule, worlds, k, n)
  {
    LastStep(cfg, schedule, worlds, n);
    StepOnTimestamp(cfg, worlds[n - 1], schedule[n - 1]);
    if OpenedAt in worlds[n - 1].keys {
      k := n - 1;
    } else {
      k := GoneWasClosed(cfg, schedule, worlds, i, n - 1);
    }
  }

  lemma {:induction false} ClosedIsGone(cfg: Config, schedule: seq<Action>, worlds: seq<World>, k: nat, n: nat)
    requires Trace(cfg, schedule, worlds) && n <= |schedule| && ClosedAt(schedule, worlds, k, n)
    ensures OpenedAt !in worlds[n].keys
  {
    LastStep(cfg, schedule, worlds, n);
    StepOnTimestamp(cfg, worlds[n - 1], schedule[n - 1]);
    if k < n - 1 {
      ClosedIsGone(cfg, schedule, worlds, k, n - 1);
    }
  }

  /** The circuit was closed between w's two GETs and not opened again before the second. */
  ghost predicate ClosedBetweenGets(schedule: seq<Action>, worlds: seq<World>, w: nat, n: nat)
    requires |worlds| == |schedule| + 1 && n <= |schedule|
  {
    exists i: nat, k: nat :: i < k && BetweenGets(schedule, worlds, w, i, n) && ClosedAt(schedule, worlds, k, n)
  }

  /**
   A check about to do its second GET finds the opening time missing exactly when a reset or a closing
   pipeline has run since its first GET and no failure has opened the circuit after that.
   */
  lemma MissingTimestampIff(cfg: Config, schedule: seq<Action>, worlds: seq<World>, w: nat, n: nat)
    requires cfg.Valid() && Trace(cfg, schedule, worlds) && n <= |schedule| && worlds[n].PcOf(w) == CheckOpen
    ensures OpenedAt !in worlds[n].keys <==> ClosedBetweenGets(schedule, worlds, w, n)
  {
    if OpenedAt !in worlds[n].keys {
      var i := OpenWasRead(cfg, schedule, worlds, w, n);
      TraceIsSafe(cfg, schedule, worlds, i);
      var k := GoneWasClosed(cfg, schedule, worlds, i, n);
      assert i != k;
    } else {
      forall k: nat ensures !ClosedAt(schedule, worlds, k, n) {
        if ClosedAt(schedule, worlds, k, n) { ClosedIsGone(cfg, schedule, worlds, k, n); }
      }
    }
  }

  /** w is about to close the circuit for want of a timestamp, or has answered so. */
  predicate Missed(s: World, w: nat) {
    s.PcOf(w) == CheckMissing || Allowed(w, TimestampMissing) in s.answers
  }

  /** A command adds at most its own worker's answer. */
  lemma CommandAnswers(cfg: Config, s: World, w: nat)
    requires Typed(s.keys)
    ensures var r := Command(cfg, s, w).answers; r == s.answers || exists a: Answer :: r == s.answers + [a] && a.who == w
  {
  }

  lemma OthersMissNothing(cfg: Config, s: World, a: Action, w: nat)
    requires Typed(s.keys) && Executes(a) && a.w != w && !Missed(s, w)
    ensures !Missed(Apply(cfg, s, a), w)
  {
    CommandIsOwn(cfg, s, a.w);
    CommandAnswers(cfg, s, a.w);
  }

  lemma OwnMiss(cfg: Config, s: World, w: nat)
    requires Typed(s.keys) && Missed(Command(cfg, s, w), w) && !Missed(s, w)
    ensures s.PcOf(w) == CheckOpen && OpenedAt !in s.keys
  {
  }

  lemma UnheardMissesNothing(cfg: Config, s: World, w: nat)
    requires Typed(s.keys) && !Missed(s, w)
    ensures !Missed(Apply(cfg, s, Unheard(w)), w)
  {
  }

  lemma MissedComesFrom(cfg: Config, s: World, a: Action, w: nat)
    requires Typed(s.keys) && Missed(Apply(cfg, s, a), w) && !Missed(s, w)
    ensures a == Advance(w) && s.PcOf(w) == CheckOpen && OpenedAt !in s.keys
  {
    if Executes(a) && a.w != w {
      OthersMissNothing(cfg, s, a, w);
    } else if a.Unheard? {
      UnheardMissesNothing(cfg, s, w);
    } else if a.Advance? {
      OwnMiss(cfg, s, w);
    }
  }

  /** Action m is w's second GET and finds nothing. */
  predicate FindsNothing(schedule: seq<Action>, worlds: seq<World>, w: nat, m: nat)
    requires |worlds| == |schedule| + 1
  {
    m < |schedule| && schedule[m] == Advance(w) && worlds[m].PcOf(w) == CheckOpen && OpenedAt !in worlds[m].keys
  }

  lemma {:induction false} MissedWasFound(cfg: Config, schedule: seq<Action>, worlds: seq<World>, w: nat, n: nat) returns (m: nat)
    requires Trace(cfg, schedule, worlds) && n <= |schedule| && Missed(worlds[n], w)
    ensures m < n && FindsNothing(schedule, worlds, w, m)
  {
    LastStep(cfg, schedule, worlds, n);
    if Missed(worlds[n - 1], w) {
      m := MissedWasFound(cfg, schedule, worlds, w, n - 1);
    } else {
      MissedComesFrom(cfg, worlds[n - 1], schedule[n - 1], w);
      m := n - 1;
    }
  }

  /** Whenever a check has closed the circuit for want of a timestamp, a reset or closing ran between its two GETs. */
  lemma MissingAnswerNeedsClose(cfg: Config, schedule: seq<Action>, worlds: seq<World>, w: nat, n: nat)
    requires cfg.Valid() && Trace(cfg, schedule, worlds) && n <= |schedule|
    requires Allowed(w, TimestampMissing) in worlds[n].answers
    ensures exists m: nat :: m < n && FindsNothing(schedule, worlds, w, m) && ClosedBetweenGets(schedule, worlds, w, m)
  {
    var m := MissedWasFound(cfg, schedule, worlds, w, n);
    MissingTimestampIff(cfg, schedule, worlds, w, m);
  }

  // ---- CLOSED at the threshold ----

  /** Between the INCR that reached the threshold and the pipeline that opens the circuit. */
  predicate AboutToTrip(s: World, w: nat) {
    s.PcOf(w) == FailureBuild(false) || (s.PcOf(w).FailureTrip? && !s.PcOf(w).reopen)
  }

  /**
   A worker that owes the opening pipeline is stopped, the reply to its INCR is lost, or a check closes
   the circuit for want of a timestamp.
   */
  predicate LosesTrip(s: World, a: Action) {
    || ((a.Kill? || a.Fail? || a.Unheard?) && AboutToTrip(s, a.w))
    || (a.Unheard? && s.PcOf(a.w).FailureIncr?)
    || (Executes(a) && s.PcOf(a.w).CheckMissing?)
  }

  predicate AtThreshold(cfg: Config, s: World)
    requires Typed(s.keys)
  {
    StateOf(s.keys) == CLOSED && NumberAt(s.keys, Failures) >= cfg.failureThreshold
  }

  ghost predicate TripsAreDue(cfg: Config, s: World)
    requires Typed(s.keys)
  {
    AtThreshold(cfg, s) ==> exists w :: AboutToTrip(s, w)
  }

  /** What a command can do to a circuit that is, or becomes, closed at the threshold. */
  lemma CommandOnThreshold(cfg: Config, s: World, w: nat)
    requires cfg.Valid() && Typed(s.keys) && AtThreshold(cfg, Command(cfg, s, w)) && !s.PcOf(w).CheckMissing?
    ensures !s.PcOf(w).FailureTrip?
    ensures !AtThreshold(cfg, s) ==> s.PcOf(w).FailureIncr? && AboutToTrip(Command(cfg, s, w), w)
    ensures AboutToTrip(s, w) ==> AboutToTrip(Command(cfg, s, w), w)
  {
    if Checking(s.PcOf(w)) {
      CheckOnThreshold(cfg, s, w);
    }
  }

  lemma CheckOnThreshold(cfg: Config, s: World, w: nat)
    requires cfg.Valid() && Typed(s.keys) && Checking(s.PcOf(w)) && AtThreshold(cfg, CheckCommand(cfg, s, w)) && !s.PcOf(w).CheckMissing?
    ensures AtThreshold(cfg, s)
  {
  }

  lemma ExecutionKeepsTripsDue(cfg: Config, s: World, a: Action)
    requires cfg.Valid() && Typed(s.keys) && TripsAreDue(cfg, s) && Executes(a) && !LosesTrip(s, a)
    ensures TripsAreDue(cfg, Apply(cfg, s, a))
  {
    var t, r := Command(cfg, s, a.w), Apply(cfg, s, a);
    assert r.keys == t.keys;
    if AtThreshold(cfg, r) {
      CommandOnThreshold(cfg, s, a.w);
      CommandIsOwn(cfg, s, a.w);
      var w := a.w;
      if AtThreshold(cfg, s) {
        w :| AboutToTrip(s, w);
      }
      assert AboutToTrip(r, w);
    }
  }

  lemma OthersKeepTripsDue(cfg: Config, s: World, a: Action)
    requires cfg.Valid() && Typed(s.keys) && TripsAreDue(cfg, s) && !Executes(a) && !LosesTrip(s, a)
    ensures TripsAreDue(cfg, Apply(cfg, s, a))
  {
    var r := Apply(cfg, s, a);
    if AtThreshold(cfg, r) && !a.OperatorReset? {
      assert r.keys == s.keys;
      var w :| AboutToTrip(s, w);
      assert AboutToTrip(r, w);
    }
  }

  /** A closed circuit stands at its threshold only while some worker is between INCR and the opening pipeline. */
  lemma {:induction false} ThresholdOnlyInPassing(cfg: Config, schedule: seq<Action>, worlds: seq<World>, n: nat)
    requires cfg.Valid() && Trace(cfg, schedule, worlds) && n <= |schedule|
    requires forall j :: 0 <= j < n ==> !LosesTrip(worlds[j], schedule[j])
    ensures Typed(worlds[n].keys) && TripsAreDue(cfg, worlds[n])
  {
    if n > 0 {
      LastStep(cfg, schedule, worlds, n);
      ThresholdOnlyInPassing(cfg, schedule, worlds, n - 1);
      if Executes(schedule[n - 1]) { ExecutionKeepsTripsDue(cfg, worlds[n - 1], schedule[n - 1]); }
      else { OthersKeepTripsDue(cfg, worlds[n - 1], schedule[n - 1]); }
    }
  }

  /** After INCR a closed circuit stands at its threshold exactly when the worker goes on to open it. */
  lemma CountedBeforeTripped(cfg: Config, s: World, w: nat)
    requires cfg.Valid() && Typed(s.keys) && StateOf(s.keys) == CLOSED && s.PcOf(w) == FailureIncr
    ensures AtThreshold(cfg, Command(cfg, s, w)) <==> AboutToTrip(Command(cfg, s, w), w)
  {
  }

  // ---- When the late SET meets an open circuit ----

  predicate WritesState(s: World, a: Action) {
    ClosingStep(s, a) || TrippingStep(s, a) || (Executes(a) && (s.PcOf(a.w).CheckSetHalf? || s.PcOf(a.w).CheckMissing?))
  }

  lemma CommandOnState(cfg: Config, s: World, w: nat)
    requires Typed(s.keys)
    ensures var r, pc := Command(cfg, s, w), s.PcOf(w);
            StateOf(r.keys) == if pc.FailureTrip? then OPEN else if pc.SuccessClose? || pc.CheckMissing? then CLOSED
                               else if pc.CheckSetHalf? then HALF_OPEN else StateOf(s.keys)
  {
  }

  lemma StepOnState(cfg: Config, s: World, a: Action)
    requires Typed(s.keys)
    ensures var r := Apply(cfg, s, a);
            if WritesState(s, a) then StateOf(r.keys) == OPEN <==> TrippingStep(s, a) else StateOf(r.keys) == StateOf(s.keys)
  {
    assert |OPEN| != |CLOSED| && |OPEN| != |HALF_OPEN|;
    if Executes(a) {
      CommandOnState(cfg, s, a.w);
      assert Apply(cfg, s, a).keys == Command(cfg, s, a.w).keys;
    }
  }

  /** A failure has opened the circuit from action m on, and nothing has written the state since. */
  predicate TrippedSince(schedule: seq<Action>, worlds: seq<World>, m: nat, n: nat)
    requires |worlds| == |schedule| + 1 && n <= |schedule|
  {
    exists k :: m <= k < n && TrippedAt(schedule, worlds, k, n)
  }

  predicate TrippedAt(schedule: seq<Action>, worlds: seq<World>, k: nat, n: nat)
    requires |worlds| == |schedule| + 1 && n <= |schedule|
  {
    k < n && TrippingStep(worlds[k], schedule[k]) && forall j :: k < j < n ==> !WritesState(worlds[j], schedule[j])
  }

  lemma {:induction false} OpenWasTripped(cfg: Config, schedule: seq<Action>, worlds: seq<World>, m: nat, n: nat) returns (k: nat)
    requires Trace(cfg, schedule, worlds) && m <= n <= |schedule| && Typed(worlds[m].keys) && Typed(worlds[n].keys)
    requires StateOf(worlds[m].keys) != OPEN && StateOf(worlds[n].keys) == OPEN
    ensures m <= k && TrippedAt(schedule, worlds, k, n)
  {
    LastStep(cfg, schedule, worlds, n);
    StepOnState(cfg, worlds[n - 1], schedule[n - 1]);
    if WritesState(worlds[n - 1], schedule[n - 1]) {
      k := n - 1;
    } else {
      k := OpenWasTripped(cfg, schedule, worlds, m, n - 1);
    }
  }

  lemma {:induction false} TrippedIsOpen(cfg: Config, schedule: seq<Action>, worlds: seq<World>, k: nat, n: nat)
    requires Trace(cfg, schedule, worlds) && n <= |schedule| && TrippedAt(schedule, worlds, k, n)
    ensures Typed(worlds[n].keys) && StateOf(worlds[n].keys) == OPEN
  {
    LastStep(cfg, schedule, worlds, n);
    StepOnState(cfg, worlds[n - 1], schedule[n - 1]);
    if k < n - 1 {
      TrippedIsOpen(cfg, schedule, worlds, k, n - 1);
    }
  }

  lemma OpenIffTripped(cfg: Config, schedule: seq<Action>, worlds: seq<World>, m: nat, n: nat)
    requires Trace(cfg, schedule, worlds) && m <= n <= |schedule| && Typed(worlds[m].keys) && Typed(worlds[n].keys)
    requires StateOf(worlds[m].keys) != OPEN
    ensures StateOf(worlds[n].keys) == OPEN <==> TrippedSince(schedule, worlds, m, n)
  {
    if StateOf(worlds[n].keys) == OPEN {
      var k := OpenWasTripped(cfg, schedule, worlds, m, n);
    } else {
      forall k | m <= k < n ensures !TrippedAt(schedule, worlds, k, n) {
        if TrippedAt(schedule, worlds, k, n) { TrippedIsOpen(cfg, schedule, worlds, k, n); }
      }
    }
  }

  /**
   A check that found nothing at m and does its SET at n closes an open circuit exactly when a failure
   has opened the circuit in between and nothing has changed the state after that.
   */
  lemma LateSetClosesOpenIff(cfg: Config, schedule: seq<Action>, worlds: seq<World>, w: nat, m: nat, n: nat)
    requires cfg.Valid() && Trace(cfg, schedule, worlds) && m < n < |schedule|
    requires FindsNothing(schedule, worlds, w, m) && schedule[n] == Advance(w) && worlds[n].PcOf(w) == CheckMissing
    ensures Typed(worlds[n].keys) && Typed(worlds[n + 1].keys)
    ensures StateOf(worlds[n].keys) == OPEN && StateOf(worlds[n + 1].keys) == CLOSED <==> TrippedSince(schedule, worlds, m, n)
  {
    NotOpenWithoutTime(cfg, schedule, worlds, m);
    LastStep(cfg, schedule, worlds, n + 1);
    CommandOnState(cfg, worlds[n], w);
    OpenIffTripped(cfg, schedule, worlds, m, n);
  }

  lemma NotOpenWithoutTime(cfg: Config, schedule: seq<Action>, worlds: seq<World>, m: nat)
    requires cfg.Valid() && Trace(cfg, schedule, worlds) && m <= |schedule| && OpenedAt !in worlds[m].keys
    ensures Typed(worlds[m].keys) && StateOf(worlds[m].keys) != OPEN
  {
    TraceIsSafe(cfg, schedule, worlds, m);
  }

  // ---- Runs that get there ----

  lemma Then(cfg: Config, schedule: seq<Action>, a: Action)
    ensures Execute(cfg, schedule + [a]) == Apply(cfg, Execute(cfg, schedule), a)
  {
    assert (schedule + [a])[..|schedule|] == schedule;
  }

  lemma TripStep(cfg: Config, s: World, w: nat, t: real)
    requires Typed(s.keys) && w !in s.pcs
    ensures Apply(cfg, s.Goto(w, FailureTrip(false, t)), Advance(w)) == Trip(s, t, false)
  {
    assert (s.pcs[w := FailureTrip(false, t)]) - {w} == s.pcs;
  }

  lemma IncrStep(cfg: Config, s: World, w: nat, n: nat)
    requires Typed(s.keys) && NumberAt(s.keys, Failures) == n && w !in s.pcs
    ensures Apply(cfg, s.Goto(w, FailureIncr), Advance(w)) ==
            var t := s.Put(Failures, Number(n + 1)); if n + 1 >= cfg.failureThreshold then t.Goto(w, FailureBuild(false)) else t
  {
    assert s.pcs[w := FailureIncr][w := FailureBuild(false)] == s.pcs[w := FailureBuild(false)];
    assert s.pcs[w := FailureIncr] - {w} == s.pcs;
  }

  lemma ReadStep(cfg: Config, s: World, w: nat, from: Pc, to: Pc)
    requires Typed(s.keys)
    requires || (from == FailureStart && to == FailureIncr && StateOf(s.keys) == CLOSED)
             || (from == FailureBuild(false) && to == FailureTrip(false, s.now))
             || (from == CheckStart && to == CheckOpen && StateOf(s.keys) == OPEN)
             || (from == CheckOpen && to == CheckMissing && OpenedAt !in s.keys)
    ensures Apply(cfg, s.Goto(w, from), Advance(w)) == s.Goto(w, to)
  {
    assert s.pcs[w := from][w := to] == s.pcs[w := to];
  }

  /** An idle worker reports a failure, up to and including the INCR. */
  lemma CountFailure(cfg: Config, schedule: seq<Action>, s: World, w: nat, n: nat) returns (all: seq<Action>)
    requires Execute(cfg, schedule) == s && w !in s.pcs && StateOf(s.keys) == CLOSED && NumberAt(s.keys, Failures) == n
    ensures Execute(cfg, all) ==
            var t := s.Put(Failures, Number(n + 1)); if n + 1 >= cfg.failureThreshold then t.Goto(w, FailureBuild(false)) else t
  {
    var a := schedule + [BeginFailure(w)];
    Then(cfg, schedule, BeginFailure(w));
    assert Execute(cfg, a) == s.Goto(w, FailureStart);
    Then(cfg, a, Advance(w));
    ReadStep(cfg, s, w, FailureStart, FailureIncr);
    Then(cfg, a + [Advance(w)], Advance(w));
    IncrStep(cfg, s, w, n);
    all := a + [Advance(w)] + [Advance(w)];
  }

  /** As many failures as reach the threshold: the circuit is still closed. */
  lemma ReachThreshold(cfg: Config, schedule: seq<Action>, s: World, w: nat) returns (all: seq<Action>)
    requires cfg.Valid() && Execute(cfg, schedule) == s && w !in s.pcs && StateOf(s.keys) == CLOSED && NumberAt(s.keys, Failures) == 0
    ensures Execute(cfg, all) == s.Put(Failures, Number(cfg.failureThreshold)).Goto(w, FailureBuild(false))
  {
    all := schedule;
    for n := 0 to cfg.failureThreshold - 1
      invariant Execute(cfg, all) == if n == 0 then s else s.Put(Failures, Number(n))
    {
      all := CountFailure(cfg, all, if n == 0 then s else s.Put(Failures, Number(n)), w, n);
      assert n > 0 ==> s.Put(Failures, Number(n)).Put(Failures, Number(n + 1)) == s.Put(Failures, Number(n + 1));
    }
    var m := cfg.failureThreshold - 1;
    all := CountFailure(cfg, all, if m == 0 then s else s.Put(Failures, Number(m)), w, m);
    assert m > 0 ==> s.Put(Failures, Number(m)).Put(Failures, Number(m + 1)) == s.Put(Failures, Number(m + 1));
  }

  /** For every configuration some run passes through a closed circuit at its threshold. */
  lemma ThresholdIsReached(cfg: Config)
    requires cfg.Valid()
    ensures exists schedule :: AtThreshold(cfg, Execute(cfg, schedule)) && Execute(cfg, schedule).answers == []
  {
    var schedule := ReachThreshold(cfg, [], START, 1);
    assert AtThreshold(cfg, Execute(cfg, schedule));
  }

  function Opened(cfg: Config, s: World): World
    requires Typed(s.keys)
  {
    Trip(s.Put(Failures, Number(cfg.failureThreshold)), s.now, false)
  }

  lemma OpenCircuit(cfg: Config, schedule: seq<Action>, s: World, w: nat) returns (all: seq<Action>)
    requires cfg.Valid() && Execute(cfg, schedule) == s && w !in s.pcs && StateOf(s.keys) == CLOSED && NumberAt(s.keys, Failures) == 0
    ensures Execute(cfg, all) == Opened(cfg, s)
  {
    var t := s.Put(Failures, Number(cfg.failureThreshold));
    var a := ReachThreshold(cfg, schedule, s, w);
    Then(cfg, a, Advance(w));
    ReadStep(cfg, t, w, FailureBuild(false), FailureTrip(false, s.now));
    Then(cfg, a + [Advance(w)], Advance(w));
    TripStep(cfg, t, w, s.now);
    all := a + [Advance(w)] + [Advance(w)];
  }

  /** A check reads OPEN, an operator resets, and the check finds the time gone. */
  lemma MissTimestamp(cfg: Config, schedule: seq<Action>, s: World, w: nat) returns (all: seq<Action>)
    requires Execute(cfg, schedule) == s && w !in s.pcs && StateOf(s.keys) == OPEN
    ensures Execute(cfg, all) == CloseAll(s).Goto(w, CheckMissing)
  {
    var a := schedule + [BeginCheck(w)];
    Then(cfg, schedule, BeginCheck(w));
    assert Execute(cfg, a) == s.Goto(w, CheckStart);
    var b := a + [Advance(w)];
    Then(cfg, a, Advance(w));
    ReadStep(cfg, s, w, CheckStart, CheckOpen);
    all := ResetAndMiss(cfg, b, s, w);
  }

  lemma ResetStep(cfg: Config, s: World, w: nat, pc: Pc)
    requires Typed(s.keys)
    ensures Apply(cfg, s.Goto(w, pc), OperatorReset) == CloseAll(s).Goto(w, pc)
  {
  }

  lemma ResetAndMiss(cfg: Config, schedule: seq<Action>, s: World, w: nat) returns (all: seq<Action>)
    requires Typed(s.keys) && Execute(cfg, schedule) == s.Goto(w, CheckOpen)
    ensures Execute(cfg, all) == CloseAll(s).Goto(w, CheckMissing)
  {
    Then(cfg, schedule, OperatorReset);
    ResetStep(cfg, s, w, CheckOpen);
    Then(cfg, schedule + [OperatorReset], Advance(w));
    ReadStep(cfg, CloseAll(s), w, CheckOpen, CheckMissing);
    all := schedule + [OperatorReset] + [Advance(w)];
  }

  /** A check that has found nothing is left standing while another worker opens the circuit again. */
  lemma CheckLeftBehind(cfg: Config) returns (all: seq<Action>)
    requires cfg.Valid()
    ensures var s := Execute(cfg, all);
            s.PcOf(2) == CheckMissing && s.answers == [] && NumberAt(s.keys, Failures) == cfg.failureThreshold
  {
    var a := OpenCircuit(cfg, [], START, 1);
    var b := MissTimestamp(cfg, a, Opened(cfg, START), 2);
    all := OpenCircuit(cfg, b, CloseAll(Opened(cfg, START)).Goto(2, CheckMissing), 1);
  }

  lemma LateSet(cfg: Config, s: World, w: nat)
    requires cfg.Valid() && Typed(s.keys) && s.PcOf(w) == CheckMissing && NumberAt(s.keys, Failures) == cfg.failureThreshold
    ensures var r := Apply(cfg, s, Advance(w));
            AtThreshold(cfg, r) && r.answers == s.answers + [Allowed(w, TimestampMissing)]
  {
    assert Apply(cfg, s, Advance(w)) == s.Put(State, Text(CLOSED)).Say(w, Allowed(w, TimestampMissing));
  }

  /**
   The atomic invariant "CLOSED has fewer failures than the threshold" is lost between commands, for every
   configuration: a check that found the timestamp gone closes a circuit another worker has opened since.
   */
  lemma StaleCheckClosesOpenCircuit(cfg: Config)
    requires cfg.Valid()
    ensures exists schedule :: AtThreshold(cfg, Execute(cfg, schedule)) && Execute(cfg, schedule).answers == [Allowed(2, TimestampMissing)]
  {
    var c := CheckLeftBehind(cfg);
    Then(cfg, c, Advance(2));
    LateSet(cfg, Execute(cfg, c), 2);
    var all := c + [Advance(2)];
    assert AtThreshold(cfg, Execute(cfg, all)) && Execute(cfg, all).answers == [Allowed(2, TimestampMissing)];
  }
}
