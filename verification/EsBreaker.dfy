/**
 The in-process Elasticsearch circuit breaker. A call has two critical sections with the awaited
 request between them, so calls overlap: `Begin`, then `EndSuccess` or `EndFailure` some time later.
 */
module EsBreaker {
  import opened Common

  datatype State = CLOSED | OPEN | HALF_OPEN

  datatype Config = Config(failureThreshold: int, probeInterval: real)

  datatype Breaker = Breaker(state: State, failures: int, lastFailure: Option<real>) {
    predicate Valid(cfg: Config) {
      && failures >= 0
      && (state == CLOSED ==> failures < cfg.failureThreshold)
      && (state == OPEN ==> lastFailure.Some?)
    }

    predicate Admits(cfg: Config, now: real)
      requires Valid(cfg)
    {
      state == OPEN ==> now - lastFailure.value >= cfg.probeInterval
    }

    function Begin(cfg: Config, now: real): Breaker
      requires Valid(cfg)
    {
      if state == OPEN && Admits(cfg, now) then this.(state := HALF_OPEN) else this
    }

    function Success(): Breaker {
      Breaker(if state == HALF_OPEN then CLOSED else state, 0, lastFailure)
    }

    function Failure(cfg: Config, now: real): Breaker {
      Breaker(if failures + 1 >= cfg.failureThreshold then OPEN else state, failures + 1, Some(now))
    }
  }

  const START := Breaker(CLOSED, 0, None)

  class ElasticsearchCircuitBreaker {
    const cfg: Config
    var state: State
    var failureCount: int
    var lastFailureTime: Option<real>

    function Value(): Breaker
      reads this
    {
      Breaker(state, failureCount, lastFailureTime)
    }

    predicate Valid()
      reads this
    {
      Value().Valid(cfg)
    }

    constructor (failureThreshold: int, probeInterval: real)
      requires failureThreshold >= 1
      ensures cfg == Config(failureThreshold, probeInterval) && Valid() && Value() == START
    {
      cfg := Config(failureThreshold, probeInterval);
      state, failureCount, lastFailureTime := CLOSED, 0, None;
    }

    /** First critical section: false is the fast failure. */
    method Begin(now: real) returns (admitted: bool)
      requires Valid()
      modifies this
      ensures Valid() && Value() == old(Value()).Begin(cfg, now) && admitted == old(Value()).Admits(cfg, now)
    {
      if state == OPEN {
        var elapsed := now - lastFailureTime.value;
        if elapsed >= cfg.probeInterval {
          state := HALF_OPEN;
        } else {
          return false;
        }
      }
      return true;
    }

    method EndSuccess()
      requires Valid() && cfg.failureThreshold >= 1
      modifies this
      ensures Valid() && Value() == old(Value()).Success()
    {
      failureCount := 0;
      if state == HALF_OPEN {
        state := CLOSED;
      }
    }

    method EndFailure(now: real)
      requires Valid()
      modifies this
      ensures Valid() && Value() == old(Value()).Failure(cfg, now)
    {
      failureCount := failureCount + 1;
      lastFailureTime := Some(now);
      if failureCount >= cfg.failureThreshold {
        state := OPEN;
      }
    }
  }

  // ---- Overlapping calls ----

  /** One critical section of call `id`, or its cancellation while it awaits, which has none. */
  datatype Event = Begin(id: nat, at: real) | Succeed(id: nat, at: real) | Fail(id: nat, at: real) | Cancel(id: nat, at: real)

  function Step(cfg: Config, b: Breaker, e: Event): (r: Breaker)
    requires cfg.failureThreshold >= 1 && b.Valid(cfg)
    ensures r.Valid(cfg)
  {
    match e
    case Begin(_, at) => b.Begin(cfg, at)
    case Succeed(_, _) => b.Success()
    case Fail(_, at) => b.Failure(cfg, at)
    case Cancel(_, _) => b
  }

  function Run(cfg: Config, evs: seq<Event>): (b: Breaker)
    requires cfg.failureThreshold >= 1
    ensures b.Valid(cfg)
  {
    if evs == [] then START else Step(cfg, Run(cfg, evs[..|evs| - 1]), evs[|evs| - 1])
  }

  /** Failures that ended after the last success ended. */
  function TrailingFailures(evs: seq<Event>): nat {
    if evs == [] then 0
    else match evs[|evs| - 1]
      case Begin(_, _) => TrailingFailures(evs[..|evs| - 1])
      case Succeed(_, _) => 0
      case Fail(_, _) => TrailingFailures(evs[..|evs| - 1]) + 1
      case Cancel(_, _) => TrailingFailures(evs[..|evs| - 1])
  }

  /** However calls overlap, the counter is the number of consecutive failures, and CLOSED keeps it below the threshold. */
  lemma {:induction false} CounterIsConsecutiveFailures(cfg: Config, evs: seq<Event>)
    requires cfg.failureThreshold >= 1
    ensures Run(cfg, evs).failures == TrailingFailures(evs)
    ensures Run(cfg, evs).state == CLOSED ==> TrailingFailures(evs) < cfg.failureThreshold
  {
    if evs != [] {
      CounterIsConsecutiveFailures(cfg, evs[..|evs| - 1]);
    }
  }

  predicate Ordered(evs: seq<Event>) {
    forall i, j :: 0 <= i < j < |evs| ==> evs[i].at <= evs[j].at
  }

  lemma {:induction false} LastFailureIsLatest(cfg: Config, evs: seq<Event>, i: nat)
    requires cfg.failureThreshold >= 1 && Ordered(evs) && i < |evs| && evs[i].Fail?
    ensures Run(cfg, evs).lastFailure.Some? && Run(cfg, evs).lastFailure.value >= evs[i].at
  {
    if i < |evs| - 1 {
      LastFailureIsLatest(cfg, evs[..|evs| - 1], i);
    }
  }

  /** A request that starts from OPEN starts at least probe_interval after every failure recorded so far. */
  lemma NoEarlyProbe(cfg: Config, evs: seq<Event>, i: nat, now: real)
    requires cfg.failureThreshold >= 1 && Ordered(evs) && i < |evs| && evs[i].Fail?
    requires Run(cfg, evs).state == OPEN && Run(cfg, evs).Admits(cfg, now)
    ensures now >= evs[i].at + cfg.probeInterval
  {
    LastFailureIsLatest(cfg, evs, i);
  }

  /** In any overlap a failed probe reopens the circuit exactly when it completes a full series of failures. */
  lemma FailedProbeReopensIff(cfg: Config, evs: seq<Event>, id: nat, at: real)
    requires cfg.failureThreshold >= 1 && Run(cfg, evs).state == HALF_OPEN
    ensures Run(cfg, evs + [Fail(id, at)]).state == (if TrailingFailures(evs) + 1 >= cfg.failureThreshold then OPEN else HALF_OPEN)
  {
    RunSnoc(cfg, evs, Fail(id, at));
    CounterIsConsecutiveFailures(cfg, evs);
  }

  lemma RunSnoc(cfg: Config, evs: seq<Event>, e: Event)
    requires cfg.failureThreshold >= 1
    ensures Run(cfg, evs + [e]) == Step(cfg, Run(cfg, evs), e)
  {
    assert (evs + [e])[..|evs|] == evs;
  }

  /** Three calls start while CLOSED; two open the circuit, the third succeeds late: the next failed probe does not reopen. */
  lemma LateSuccessDisarmsProbe()
    ensures exists cfg: Config, evs :: cfg.failureThreshold >= 1 && Ordered(evs + [Fail(4, 41.0)])
              && Run(cfg, evs).state == HALF_OPEN && Run(cfg, evs + [Fail(4, 41.0)]).state == HALF_OPEN
  {
    var cfg := Config(2, 30.0);
    RunSnoc(cfg, [], Begin(1, 0.0));
    RunSnoc(cfg, [Begin(1, 0.0)], Begin(2, 0.0));
    var b := [Begin(1, 0.0)] + [Begin(2, 0.0)];
    RunSnoc(cfg, b, Begin(3, 0.0));
    var c := b + [Begin(3, 0.0)];
    assert [] + [Begin(1, 0.0)] == [Begin(1, 0.0)] && Run(cfg, c) == START;
    RunSnoc(cfg, c, Fail(1, 1.0));
    var d := c + [Fail(1, 1.0)];
    RunSnoc(cfg, d, Fail(2, 2.0));
    var e := d + [Fail(2, 2.0)];
    assert Run(cfg, e) == Breaker(OPEN, 2, Some(2.0));
    RunSnoc(cfg, e, Succeed(3, 3.0));
    var f := e + [Succeed(3, 3.0)];
    RunSnoc(cfg, f, Begin(4, 40.0));
    var evs := f + [Begin(4, 40.0)];
    assert Run(cfg, evs) == Breaker(HALF_OPEN, 0, Some(2.0));
    RunSnoc(cfg, evs, Fail(4, 41.0));
    assert Ordered(evs + [Fail(4, 41.0)]);
  }

  // ---- How many probes are in flight ----

  /** evs[i] starts a call while the circuit is not closed. */
  predicate ProbeBegins(cfg: Config, evs: seq<Event>, i: nat)
    requires cfg.failureThreshold >= 1 && i < |evs|
  {
    evs[i].Begin? && Run(cfg, evs[..i]).state != CLOSED && Run(cfg, evs[..i]).Admits(cfg, evs[i].at)
  }

  /** Calls that started as probes and have not ended. */
  function Probes(cfg: Config, evs: seq<Event>): set<nat>
    requires cfg.failureThreshold >= 1
  {
    if evs == [] then {}
    else
      var n := |evs| - 1;
      var before := Probes(cfg, evs[..n]);
      if !evs[n].Begin? then before - {evs[n].id}
      else if ProbeBegins(cfg, evs, n) then before + {evs[n].id}
      else before
  }

  /** HALF_OPEN turns nobody away: whoever begins becomes one more probe. */
  lemma HalfOpenAdmitsAll(cfg: Config, evs: seq<Event>, id: nat, at: real)
    requires cfg.failureThreshold >= 1 && Run(cfg, evs).state == HALF_OPEN
    ensures Run(cfg, evs).Admits(cfg, at) && Run(cfg, evs + [Begin(id, at)]).state == HALF_OPEN
    ensures Probes(cfg, evs + [Begin(id, at)]) == Probes(cfg, evs) + {id}
  {
    RunSnoc(cfg, evs, Begin(id, at));
    assert (evs + [Begin(id, at)])[..|evs|] == evs;
  }

  predicate EndedBetween(evs: seq<Event>, i: nat, j: nat)
    requires i < j <= |evs|
  {
    exists k :: i < k < j && !evs[k].Begin? && evs[k].id == evs[i].id
  }

  /** evs[i] began a probe that is still running at j. */
  predicate RunsAt(cfg: Config, evs: seq<Event>, i: nat, j: nat)
    requires cfg.failureThreshold >= 1 && i < j <= |evs|
  {
    ProbeBegins(cfg, evs, i) && !EndedBetween(evs, i, j)
  }

  lemma {:induction false} ProbesAreRunning(cfg: Config, evs: seq<Event>, m: nat, x: nat)
    requires cfg.failureThreshold >= 1 && m <= |evs|
    ensures x in Probes(cfg, evs[..m]) <==> exists i: nat :: i < m && evs[i].id == x && RunsAt(cfg, evs, i, m)
  {
    if m > 0 {
      ProbesAreRunning(cfg, evs, m - 1, x);
      ProbesPrefix(cfg, evs, m);
      forall i: nat | i < m - 1
        ensures RunsAt(cfg, evs, i, m) <==> RunsAt(cfg, evs, i, m - 1) && (evs[m - 1].Begin? || evs[m - 1].id != evs[i].id)
      {
        OneLonger(cfg, evs, i, m);
      }
      if evs[m - 1].id == x && ProbeBegins(cfg, evs, m - 1) {
        assert !EndedBetween(evs, m - 1, m);
        assert RunsAt(cfg, evs, m - 1, m);
      }
    }
  }

  lemma ProbesPrefix(cfg: Config, evs: seq<Event>, m: nat)
    requires cfg.failureThreshold >= 1 && 0 < m <= |evs|
    ensures Probes(cfg, evs[..m]) ==
            var before := Probes(cfg, evs[..m - 1]);
            if !evs[m - 1].Begin? then before - {evs[m - 1].id}
            else if ProbeBegins(cfg, evs, m - 1) then before + {evs[m - 1].id}
            else before
  {
    assert evs[..m][..m - 1] == evs[..m - 1];
  }

  lemma OneLonger(cfg: Config, evs: seq<Event>, i: nat, m: nat)
    requires cfg.failureThreshold >= 1 && i < m - 1 && m <= |evs|
    ensures RunsAt(cfg, evs, i, m) <==> RunsAt(cfg, evs, i, m - 1) && (evs[m - 1].Begin? || evs[m - 1].id != evs[i].id)
  {
    if EndedBetween(evs, i, m - 1) {
      assert EndedBetween(evs, i, m);
    }
    if EndedBetween(evs, i, m) && !EndedBetween(evs, i, m - 1) {
      var k :| i < k < m && !evs[k].Begin? && evs[k].id == evs[i].id;
      assert k == m - 1;
    }
  }

  predicate OneProbe(cfg: Config, evs: seq<Event>)
    requires cfg.failureThreshold >= 1
  {
    forall m, x, y :: 0 <= m <= |evs| && x in Probes(cfg, evs[..m]) && y in Probes(cfg, evs[..m]) ==> x == y
  }

  /** Every probe ends before another call begins one. */
  predicate ProbesTakeTurns(cfg: Config, evs: seq<Event>)
    requires cfg.failureThreshold >= 1
  {
    forall i: nat, j: nat :: i < j < |evs| && ProbeBegins(cfg, evs, i) && ProbeBegins(cfg, evs, j) && evs[i].id != evs[j].id ==>
      EndedBetween(evs, i, j)
  }

  lemma BothRun(cfg: Config, evs: seq<Event>, i: nat, j: nat)
    requires cfg.failureThreshold >= 1 && i < j < |evs| && RunsAt(cfg, evs, i, j) && ProbeBegins(cfg, evs, j)
    ensures evs[i].id in Probes(cfg, evs[..j + 1]) && evs[j].id in Probes(cfg, evs[..j + 1])
  {
    ProbesAreRunning(cfg, evs, j, evs[i].id);
    ProbesPrefix(cfg, evs, j + 1);
  }

  lemma EndsOnce(evs: seq<Event>, i: nat, j: nat, m: nat)
    requires i < j < m <= |evs| && EndedBetween(evs, i, j)
    ensures EndedBetween(evs, i, m)
  {
  }

  lemma TurnsMeanOne(cfg: Config, evs: seq<Event>, m: nat, x: nat, y: nat)
    requires cfg.failureThreshold >= 1 && ProbesTakeTurns(cfg, evs)
    requires m <= |evs| && x in Probes(cfg, evs[..m]) && y in Probes(cfg, evs[..m])
    ensures x == y
  {
    ProbesAreRunning(cfg, evs, m, x);
    ProbesAreRunning(cfg, evs, m, y);
    var i: nat :| i < m && evs[i].id == x && RunsAt(cfg, evs, i, m);
    var j: nat :| j < m && evs[j].id == y && RunsAt(cfg, evs, j, m);
    if x != y && i < j {
      EndsOnce(evs, i, j, m);
    } else if x != y && j < i {
      EndsOnce(evs, j, i, m);
    }
  }

  /** There is never more than one probe exactly when no call begins, outside CLOSED, between a probe's begin and its end. */
  lemma OneProbeIff(cfg: Config, evs: seq<Event>)
    requires cfg.failureThreshold >= 1
    ensures OneProbe(cfg, evs) <==> ProbesTakeTurns(cfg, evs)
  {
    if ProbesTakeTurns(cfg, evs) {
      forall m, x, y | 0 <= m <= |evs| && x in Probes(cfg, evs[..m]) && y in Probes(cfg, evs[..m]) ensures x == y {
        TurnsMeanOne(cfg, evs, m, x, y);
      }
    } else {
      var i: nat, j: nat :| i < j < |evs| && ProbeBegins(cfg, evs, i) && ProbeBegins(cfg, evs, j)
                            && evs[i].id != evs[j].id && !EndedBetween(evs, i, j);
      BothRun(cfg, evs, i, j);
    }
  }

  /** Two calls that both start after the interval both run as probes. */
  lemma TwoProbesCanRun()
    ensures exists cfg: Config, evs :: cfg.failureThreshold >= 1 && Ordered(evs) && Probes(cfg, evs) == {2, 3}
  {
    var cfg := Config(1, 30.0);
    var b := [Begin(1, 0.0), Fail(1, 0.0)];
    RunSnoc(cfg, [], Begin(1, 0.0));
    RunSnoc(cfg, [Begin(1, 0.0)], Fail(1, 0.0));
    assert [] + [Begin(1, 0.0)] == [Begin(1, 0.0)] && [Begin(1, 0.0)] + [Fail(1, 0.0)] == b;
    assert Run(cfg, b) == Breaker(OPEN, 1, Some(0.0));
    assert b[..1] == [Begin(1, 0.0)] && b[..1][..0] == [];
    assert Probes(cfg, b) == {};
    var c := b + [Begin(2, 30.0)];
    RunSnoc(cfg, b, Begin(2, 30.0));
    assert c[..2] == b && ProbeBegins(cfg, c, 2);
    HalfOpenAdmitsAll(cfg, c, 3, 30.0);
    assert Ordered(c + [Begin(3, 30.0)]);
  }

  // ---- Calls one after another ----

  /** A whole call: when it started, whether the request succeeded, when it ended. */
  datatype Call = Call(started: real, succeeds: bool, ended: real)

  function CallEffect(cfg: Config, b: Breaker, c: Call): (r: Breaker)
    requires cfg.failureThreshold >= 1 && b.Valid(cfg)
    ensures r.Valid(cfg)
  {
    if !b.Admits(cfg, c.started) then b
    else if c.succeeds then b.Begin(cfg, c.started).Success()
    else b.Begin(cfg, c.started).Failure(cfg, c.ended)
  }

  function RunCalls(cfg: Config, calls: seq<Call>): (b: Breaker)
    requires cfg.failureThreshold >= 1
    ensures b.Valid(cfg)
  {
    if calls == [] then START else CallEffect(cfg, RunCalls(cfg, calls[..|calls| - 1]), calls[|calls| - 1])
  }

  /** The documented machine between calls: a probe either closes the circuit or reopens it. */
  datatype Documented = Closed(failures: int) | Open(since: real)

  function DocumentedCall(cfg: Config, d: Documented, c: Call): Documented {
    match d
    case Closed(n) =>
      if c.succeeds then Closed(0) else if n + 1 >= cfg.failureThreshold then Open(c.ended) else Closed(n + 1)
    case Open(t) =>
      if c.started < t + cfg.probeInterval then d else if c.succeeds then Closed(0) else Open(c.ended)
  }

  function DocumentedRun(cfg: Config, calls: seq<Call>): Documented {
    if calls == [] then Closed(0) else DocumentedCall(cfg, DocumentedRun(cfg, calls[..|calls| - 1]), calls[|calls| - 1])
  }

  /** Without overlap the breaker is the documented machine, and never rests in HALF_OPEN. */
  lemma {:induction false} SerialCallsRefineDocumented(cfg: Config, calls: seq<Call>)
    requires cfg.failureThreshold >= 1
    ensures var b := RunCalls(cfg, calls);
            match DocumentedRun(cfg, calls)
            case Closed(n) => b.state == CLOSED && b.failures == n
            case Open(t) => b.state == OPEN && b.lastFailure == Some(t) && b.failures >= cfg.failureThreshold
  {
    if calls != [] {
      SerialCallsRefineDocumented(cfg, calls[..|calls| - 1]);
    }
  }
}
