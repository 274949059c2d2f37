/**
 Whole runs of the Redis-backed breaker when every public call is atomic: any number of callers,
 any order of checks, late reports and resets.
 */
module AgentBreakerRuns {
  import opened Common
  import opened AgentBreaker

  /** One public call, or the end of a request that reports nothing. `who` names the guarded request. */
  datatype Event =
    | Check(who: nat, at: real)
    | Success(who: nat, at: real)
    | Failure(who: nat, at: real)
    | Silence(who: nat, at: real)
    | Reset(at: real)

  function Step(cfg: Config, c: Circuit, e: Event): Circuit {
    match e
    case Check(_, at) => c.Check(cfg, at).0
    case Success(_, _) => c.Success(cfg)
    case Failure(_, at) => c.Failure(cfg, at)
    case Silence(_, _) => c
    case Reset(_) => Closed(0)
  }

  predicate Admitted(cfg: Config, c: Circuit, e: Event) {
    e.Check? && c.Check(cfg, e.at).1
  }

  function RunFrom(cfg: Config, c: Circuit, evs: seq<Event>): Circuit {
    if evs == [] then c
    else Step(cfg, RunFrom(cfg, c, evs[..|evs| - 1]), evs[|evs| - 1])
  }

  /** A fresh Redis holds no key, which reads as closed without failures. */
  function Run(cfg: Config, evs: seq<Event>): Circuit {
    RunFrom(cfg, Closed(0), evs)
  }

  lemma {:induction false} RunFromSplit(cfg: Config, c: Circuit, a: seq<Event>, b: seq<Event>)
    ensures RunFrom(cfg, c, a + b) == RunFrom(cfg, RunFrom(cfg, c, a), b)
  {
    if b == [] {
      assert a + b == a;
    } else {
      var n := |b| - 1;
      assert (a + b)[..|a + b| - 1] == a + b[..n];
      RunFromSplit(cfg, c, a, b[..n]);
    }
  }

  lemma RunSnoc(cfg: Config, c: Circuit, a: seq<Event>, e: Event)
    ensures RunFrom(cfg, c, a + [e]) == Step(cfg, RunFrom(cfg, c, a), e)
  {
    assert (a + [e])[..|a|] == a;
  }

  lemma RunPrefix(cfg: Config, evs: seq<Event>, i: nat, j: nat)
    requires i <= j <= |evs|
    ensures Run(cfg, evs[..j]) == RunFrom(cfg, Run(cfg, evs[..i]), evs[i..j])
  {
    assert evs[..j] == evs[..i] + evs[i..j];
    RunFromSplit(cfg, Closed(0), evs[..i], evs[i..j]);
  }

  // ---- What the state says about the past ----

  /** Failures reported since the last success or reset. */
  function TrailingFailures(evs: seq<Event>): nat {
    if evs == [] then 0
    else
      var before := TrailingFailures(evs[..|evs| - 1]);
      match evs[|evs| - 1]
      case Check(_, _) => before
      case Success(_, _) => 0
      case Failure(_, _) => before + 1
      case Silence(_, _) => before
      case Reset(_) => 0
  }

  function SuccessCount(evs: seq<Event>): nat {
    if evs == [] then 0
    else SuccessCount(evs[..|evs| - 1]) + if evs[|evs| - 1].Success? then 1 else 0
  }

  /** CLOSED holds exactly the number of consecutive failures, and that is below the threshold. */
  lemma {:induction false} ClosedCountsFailures(cfg: Config, evs: seq<Event>)
    requires cfg.Valid()
    ensures Run(cfg, evs).Closed? ==>
              Run(cfg, evs).failures == TrailingFailures(evs) < cfg.failureThreshold
    ensures Run(cfg, evs).HalfOpen? ==> 0 <= Run(cfg, evs).successes < cfg.successThreshold
  {
    if evs != [] {
      ClosedCountsFailures(cfg, evs[..|evs| - 1]);
    }
  }

  /** evs[i] is the failure that opened the circuit, and nothing has moved it since. */
  ghost predicate OpenedBy(cfg: Config, evs: seq<Event>, i: nat) {
    && i < |evs| && evs[i].Failure?
    && !Run(cfg, evs[..i]).Open?
    && (forall j :: i < j <= |evs| ==> Run(cfg, evs[..j]) == Open(evs[i].at))
    && (forall j :: i < j < |evs| ==> !evs[j].Reset? && (evs[j].Check? ==> evs[j].at < evs[i].at + cfg.timeout))
  }

  /** OPEN always stems from one reported failure, whose time it carries. */
  lemma {:induction false} OpenHasOpeningFailure(cfg: Config, evs: seq<Event>)
    requires cfg.Valid() && Run(cfg, evs).Open?
    ensures exists i: nat :: OpenedBy(cfg, evs, i)
  {
    var n := |evs| - 1;
    var before := evs[..n];
    if Run(cfg, before).Open? {
      OpenHasOpeningFailure(cfg, before);
      var i: nat :| OpenedBy(cfg, before, i);
      assert before[..i] == evs[..i];
      forall j | i < j <= |evs| ensures Run(cfg, evs[..j]) == Open(evs[i].at) {
        if j < |evs| { assert evs[..j] == before[..j]; } else { assert evs[..j] == evs; assert before == before[..n]; }
      }
      assert OpenedBy(cfg, evs, i);
    } else {
      assert evs[..n + 1] == evs;
      assert OpenedBy(cfg, evs, n);
    }
  }

  /** evs[i] is the check that moved the circuit from OPEN to HALF_OPEN, which it has been in since. */
  ghost predicate HalfOpenedBy(cfg: Config, evs: seq<Event>, i: nat) {
    && i < |evs| && evs[i].Check?
    && Run(cfg, evs[..i]).Open? && evs[i].at >= Run(cfg, evs[..i]).openedAt + cfg.timeout
    && (forall j :: i < j <= |evs| ==> Run(cfg, evs[..j]).HalfOpen?)
  }

  lemma HalfOpenedStays(cfg: Config, evs: seq<Event>, i: nat)
    requires evs != [] && Run(cfg, evs).HalfOpen? && HalfOpenedBy(cfg, evs[..|evs| - 1], i)
    ensures HalfOpenedBy(cfg, evs, i)
  {
    var before := evs[..|evs| - 1];
    assert before[..i] == evs[..i];
    forall j | i < j <= |evs| ensures Run(cfg, evs[..j]).HalfOpen? {
      if j < |evs| { assert evs[..j] == before[..j]; } else { assert evs[..j] == evs; }
    }
  }

  /** HALF_OPEN counts the successes reported since the circuit was half-opened, after a full timeout. */
  lemma {:induction false} HalfOpenCountsSuccesses(cfg: Config, evs: seq<Event>)
    requires cfg.Valid() && Run(cfg, evs).HalfOpen?
    ensures exists i: nat :: HalfOpenedBy(cfg, evs, i) && Run(cfg, evs).successes == SuccessCount(evs[i + 1..])
  {
    var n := |evs| - 1;
    var before := evs[..n];
    if Run(cfg, before).HalfOpen? {
      HalfOpenCountsSuccesses(cfg, before);
      var i: nat :| HalfOpenedBy(cfg, before, i) && Run(cfg, before).successes == SuccessCount(before[i + 1..]);
      HalfOpenedStays(cfg, evs, i);
      CountOneMore(evs, i);
    } else {
      HalfOpenedLast(cfg, evs);
    }
  }

  lemma CountOneMore(evs: seq<Event>, i: nat)
    requires i + 1 < |evs|
    ensures SuccessCount(evs[i + 1..]) == SuccessCount(evs[..|evs| - 1][i + 1..]) + if evs[|evs| - 1].Success? then 1 else 0
  {
    var tail := evs[i + 1..];
    assert tail[..|tail| - 1] == evs[..|evs| - 1][i + 1..];
  }

  lemma HalfOpenedLast(cfg: Config, evs: seq<Event>)
    requires cfg.Valid() && evs != [] && Run(cfg, evs).HalfOpen? && !Run(cfg, evs[..|evs| - 1]).HalfOpen?
    ensures HalfOpenedBy(cfg, evs, |evs| - 1) && Run(cfg, evs).successes == 0 && SuccessCount(evs[|evs|..]) == 0
  {
    assert evs[..|evs|] == evs;
    assert evs[|evs|..] == [];
  }

  // ---- Blocking ----

  predicate NoneAdmitted(cfg: Config, c: Circuit, evs: seq<Event>) {
    forall i :: 0 <= i < |evs| ==> !Admitted(cfg, RunFrom(cfg, c, evs[..i]), evs[i])
  }

  /** Until the timeout has passed an open circuit admits nothing, and late reports do not extend it. */
  lemma {:induction false} OpenBlocks(cfg: Config, t: real, evs: seq<Event>)
    requires cfg.Valid()
    requires forall i :: 0 <= i < |evs| ==> !evs[i].Reset? && evs[i].at < t + cfg.timeout
    ensures RunFrom(cfg, Open(t), evs) == Open(t)
    ensures NoneAdmitted(cfg, Open(t), evs)
  {
    if evs != [] {
      var n := |evs| - 1;
      OpenBlocks(cfg, t, evs[..n]);
      forall i | 0 <= i < |evs| ensures !Admitted(cfg, RunFrom(cfg, Open(t), evs[..i]), evs[i]) {
        if i < n { assert evs[..n][..i] == evs[..i]; assert evs[..n][i] == evs[i]; }
      }
    }
  }

  predicate Reporting(e: Event) { e.Success? || e.Failure? || e.Reset? }

  /** While the probe lock is live and nothing is reported, every further check is refused. */
  lemma {:induction false} LeaseBlocks(cfg: Config, k: int, until: real, evs: seq<Event>)
    requires forall i :: 0 <= i < |evs| ==> !Reporting(evs[i]) && (evs[i].Check? ==> evs[i].at < until)
    ensures RunFrom(cfg, HalfOpen(k, Some(until)), evs) == HalfOpen(k, Some(until))
  {
    if evs != [] {
      LeaseBlocks(cfg, k, until, evs[..|evs| - 1]);
    }
  }

  predicate Ordered(evs: seq<Event>) {
    forall i, j :: 0 <= i < j < |evs| ==> evs[i].at <= evs[j].at
  }

  /** evs[i] was let through by taking the probe lock. */
  predicate Probe(cfg: Config, evs: seq<Event>, i: nat)
    requires i < |evs|
  {
    Admitted(cfg, Run(cfg, evs[..i]), evs[i]) && !Run(cfg, evs[..i]).Closed?
  }

  /** Between two probes something was reported or reset, or the lock of the first had expired. */
  lemma ProbesAreSeparated(cfg: Config, evs: seq<Event>, i: nat, j: nat)
    requires cfg.Valid() && Ordered(evs) && i < j < |evs|
    requires Probe(cfg, evs, i) && Probe(cfg, evs, j)
    ensures (exists k :: i < k < j && Reporting(evs[k])) || evs[j].at >= evs[i].at + cfg.timeout
  {
    if (forall k :: i < k < j ==> !Reporting(evs[k])) && evs[j].at < evs[i].at + cfg.timeout {
      var after := Run(cfg, evs[..i + 1]);
      assert evs[..i + 1][..i] == evs[..i];
      assert after == HalfOpen(after.successes, Some(evs[i].at + cfg.timeout));
      LeaseBlocks(cfg, after.successes, evs[i].at + cfg.timeout, evs[i + 1..j]);
      RunPrefix(cfg, evs, i + 1, j);
      assert false;
    }
  }

  /**
   The analyzer reports a failure even when its check was refused: that is harmless while the circuit
   is open, and reopens it, restarting the timeout, exactly when another request's probe is running.
   */
  lemma RefusedReportReopensIff(cfg: Config, evs: seq<Event>, who: nat, at: real, later: real)
    requires cfg.Valid() && !Run(cfg, evs).Check(cfg, at).1
    ensures var c := Run(cfg, evs);
            Run(cfg, evs + [Check(who, at)] + [Failure(who, later)]) == if c.Leased(at) then Open(later) else c
  {
    RunSnoc(cfg, Closed(0), evs, Check(who, at));
    RunSnoc(cfg, Closed(0), evs + [Check(who, at)], Failure(who, later));
  }

  // ---- Recovery ----

  /** A round is one check followed by the report that the admitted request succeeded. */
  datatype Round = Round(who: nat, checked: real, reported: real)

  function RoundEvents(rounds: seq<Round>): (evs: seq<Event>)
    ensures |evs| == 2 * |rounds|
  {
    if rounds == [] then []
    else
      var r := rounds[|rounds| - 1];
      RoundEvents(rounds[..|rounds| - 1]) + [Check(r.who, r.checked), Success(r.who, r.reported)]
  }

  predicate ChecksAdmitted(cfg: Config, c: Circuit, evs: seq<Event>) {
    forall i :: 0 <= i < |evs| && evs[i].Check? ==> Admitted(cfg, RunFrom(cfg, c, evs[..i]), evs[i])
  }

  lemma AdmittedSnoc(cfg: Config, c: Circuit, a: seq<Event>, e: Event)
    requires ChecksAdmitted(cfg, c, a)
    requires e.Check? ==> Admitted(cfg, RunFrom(cfg, c, a), e)
    ensures ChecksAdmitted(cfg, c, a + [e])
    ensures RunFrom(cfg, c, a + [e]) == Step(cfg, RunFrom(cfg, c, a), e)
  {
    RunSnoc(cfg, c, a, e);
    forall i | 0 <= i < |a + [e]| && (a + [e])[i].Check?
      ensures Admitted(cfg, RunFrom(cfg, c, (a + [e])[..i]), (a + [e])[i])
    {
      assert (a + [e])[..i] == a[..i];
      if i == |a| { assert a[..i] == a; }
    }
  }

  /** Successes still missing before the circuit closes. */
  function RoundsMissing(cfg: Config, c: Circuit): int {
    match c
    case Closed(_) => 0
    case Open(_) => cfg.successThreshold
    case HalfOpen(k, _) => cfg.successThreshold - k
  }

  /** The open timeout, or the lock left by an earlier probe, has run out. */
  predicate Ready(cfg: Config, c: Circuit, now: real) {
    match c
    case Closed(_) => true
    case Open(t) => now - t >= cfg.timeout
    case HalfOpen(_, _) => !c.Leased(now)
  }

  lemma OneMoreRound(cfg: Config, c: Circuit, evs: seq<Event>, d: Circuit, r: Round)
    requires cfg.Valid() && ChecksAdmitted(cfg, c, evs) && d == RunFrom(cfg, c, evs)
    requires !d.Closed? && (d.HalfOpen? ==> 0 <= d.successes < cfg.successThreshold)
    requires Ready(cfg, d, r.checked)
    ensures ChecksAdmitted(cfg, c, evs + [Check(r.who, r.checked), Success(r.who, r.reported)])
    ensures RunFrom(cfg, c, evs + [Check(r.who, r.checked), Success(r.who, r.reported)]) ==
            if RoundsMissing(cfg, d) == 1 then Closed(0)
            else HalfOpen(cfg.successThreshold - RoundsMissing(cfg, d) + 1, None)
  {
    var check, report := Check(r.who, r.checked), Success(r.who, r.reported);
    AdmittedSnoc(cfg, c, evs, check);
    AdmittedSnoc(cfg, c, evs + [check], report);
    assert evs + [check, report] == evs + [check] + [report];
  }

  /**
   Recovery takes exactly the missing number of successful rounds, all of them admitted:
   one round fewer leaves the circuit half-open, the last one closes it.
   */
  lemma {:induction false} Recovery(cfg: Config, c: Circuit, rounds: seq<Round>)
    requires cfg.Valid() && !c.Closed? && (c.HalfOpen? ==> 0 <= c.successes < cfg.successThreshold)
    requires 1 <= |rounds| <= RoundsMissing(cfg, c)
    requires Ready(cfg, c, rounds[0].checked)
    ensures ChecksAdmitted(cfg, c, RoundEvents(rounds))
    ensures RunFrom(cfg, c, RoundEvents(rounds)) ==
            if |rounds| == RoundsMissing(cfg, c) then Closed(0)
            else HalfOpen(cfg.successThreshold - RoundsMissing(cfg, c) + |rounds|, None)
  {
    var n := |rounds| - 1;
    var first := RoundEvents(rounds[..n]);
    var d := RunFrom(cfg, c, first);
    if n == 0 {
      assert first == [] && d == c;
    } else {
      assert rounds[..n][0] == rounds[0];
      Recovery(cfg, c, rounds[..n]);
      assert d == HalfOpen(cfg.successThreshold - RoundsMissing(cfg, c) + n, None);
    }
    OneMoreRound(cfg, c, first, d, rounds[n]);
  }

  // ---- How many probes are in flight ----

  /** Requests admitted by the probe lock that have neither reported nor ended. */
  function Probes(cfg: Config, evs: seq<Event>): set<nat> {
    if evs == [] then {}
    else
      var n := |evs| - 1;
      var before := Probes(cfg, evs[..n]);
      match evs[n]
      case Check(w, _) => if Probe(cfg, evs, n) then before + {w} else before
      case Success(w, _) => before - {w}
      case Failure(w, _) => before - {w}
      case Silence(w, _) => before - {w}
      case Reset(_) => before
  }

  /**
   While a probe is in flight event n is its own report, somebody's silent end, a check that the live lock
   refuses or that the probe itself makes; no report by anyone else, no check by others after the lock ran
   out, no reset.
   */
  predicate Timely(cfg: Config, evs: seq<Event>, n: nat)
    requires n < |evs|
  {
    var c, probes, e := Run(cfg, evs[..n]), Probes(cfg, evs[..n]), evs[n];
    probes != {} ==>
      && (e.Success? || e.Failure? ==> e.who in probes)
      && (e.Check? ==> c.Leased(e.at) || e.who in probes)
      && !e.Reset?
  }

  /** At most one probe is in flight, and only under a lock in a half-open circuit. */
  predicate Guarded(cfg: Config, evs: seq<Event>) {
    && |Probes(cfg, evs)| <= 1
    && (Probes(cfg, evs) != {} ==> Run(cfg, evs).HalfOpen? && Run(cfg, evs).probeUntil.Some?)
  }

  lemma OneElement(s: set<nat>)
    requires |s| <= 1
    ensures forall x, y :: x in s && y in s ==> x == y
  {
    forall x, y | x in s && y in s ensures x == y {
      assert |s - {x}| == |s| - 1;
    }
  }

  /** From a guarded circuit one event leads to a guarded one exactly when it is timely. */
  lemma GuardedStepIff(cfg: Config, evs: seq<Event>)
    requires cfg.Valid() && evs != [] && Guarded(cfg, evs[..|evs| - 1])
    ensures Guarded(cfg, evs) <==> Timely(cfg, evs, |evs| - 1)
  {
    var n := |evs| - 1;
    if Probes(cfg, evs[..n]) == {} {
      FreeStep(cfg, evs);
    } else {
      var p :| p in Probes(cfg, evs[..n]);
      OneElement(Probes(cfg, evs[..n]));
      assert Probes(cfg, evs[..n]) == {p};
      ClosedCountsFailures(cfg, evs[..n]);
      if evs[n].Check? { ProbedCheck(cfg, evs, p); } else { ProbedReport(cfg, evs, p); }
    }
  }

  lemma FreeStep(cfg: Config, evs: seq<Event>)
    requires cfg.Valid() && evs != [] && Probes(cfg, evs[..|evs| - 1]) == {}
    ensures Guarded(cfg, evs)
  {
    var n := |evs| - 1;
    if evs[n].Check? && Probe(cfg, evs, n) {
      assert Probes(cfg, evs) == {evs[n].who};
    }
  }

  lemma ProbedCheck(cfg: Config, evs: seq<Event>, p: nat)
    requires evs != [] && evs[|evs| - 1].Check? && Probes(cfg, evs[..|evs| - 1]) == {p}
    requires Run(cfg, evs[..|evs| - 1]).HalfOpen? && Run(cfg, evs[..|evs| - 1]).probeUntil.Some?
    ensures Guarded(cfg, evs) <==> Timely(cfg, evs, |evs| - 1)
  {
    var n := |evs| - 1;
    if Probe(cfg, evs, n) && evs[n].who != p {
      assert Probes(cfg, evs) == {p, evs[n].who} && |{p, evs[n].who}| == 2;
    }
  }

  lemma ProbedReport(cfg: Config, evs: seq<Event>, p: nat)
    requires cfg.Valid() && evs != [] && !evs[|evs| - 1].Check? && Probes(cfg, evs[..|evs| - 1]) == {p}
    requires Run(cfg, evs[..|evs| - 1]).HalfOpen? && Run(cfg, evs[..|evs| - 1]).probeUntil.Some?
    requires 0 <= Run(cfg, evs[..|evs| - 1]).successes < cfg.successThreshold
    ensures Guarded(cfg, evs) <==> Timely(cfg, evs, |evs| - 1)
  {
  }

  predicate AlwaysGuarded(cfg: Config, evs: seq<Event>) {
    forall m :: 0 <= m <= |evs| ==> Guarded(cfg, evs[..m])
  }

  predicate AlwaysTimely(cfg: Config, evs: seq<Event>) {
    forall n :: 0 <= n < |evs| ==> Timely(cfg, evs, n)
  }

  lemma AlwaysGuardedSnoc(cfg: Config, evs: seq<Event>)
    requires evs != []
    ensures AlwaysGuarded(cfg, evs) <==> AlwaysGuarded(cfg, evs[..|evs| - 1]) && Guarded(cfg, evs)
  {
    var before := evs[..|evs| - 1];
    assert evs[..|evs|] == evs;
    assert forall m :: 0 <= m <= |before| ==> before[..m] == evs[..m];
  }

  lemma AlwaysTimelySnoc(cfg: Config, evs: seq<Event>)
    requires evs != []
    ensures AlwaysTimely(cfg, evs) <==> AlwaysTimely(cfg, evs[..|evs| - 1]) && Timely(cfg, evs, |evs| - 1)
  {
    var before := evs[..|evs| - 1];
    forall m | 0 <= m < |before| ensures Timely(cfg, before, m) <==> Timely(cfg, evs, m) {
      assert before[..m] == evs[..m];
    }
  }

  /**
   The exact condition for a single, guarded probe throughout a run: every event that meets a probe in
   flight is timely.
   */
  lemma {:induction false} SingleProbeIff(cfg: Config, evs: seq<Event>)
    requires cfg.Valid()
    ensures AlwaysGuarded(cfg, evs) <==> AlwaysTimely(cfg, evs)
  {
    if evs == [] {
      assert Guarded(cfg, evs[..0]);
    } else {
      var before := evs[..|evs| - 1];
      SingleProbeIff(cfg, before);
      AlwaysGuardedSnoc(cfg, evs);
      AlwaysTimelySnoc(cfg, evs);
      if AlwaysGuarded(cfg, before) {
        assert before[..|before|] == before;
        assert Guarded(cfg, before);
        GuardedStepIff(cfg, evs);
      }
    }
  }

  /**
   With probe p in flight, a success reported below the threshold releases the lock for the next
   check: two probes are in flight then exactly when the report was not p's own.
   */
  lemma SecondProbeIffLateReport(cfg: Config, evs: seq<Event>, p: nat, w: nat, x: nat, at: real, later: real)
    requires cfg.Valid() && Probes(cfg, evs) == {p} && x != p
    requires Run(cfg, evs).HalfOpen? && Run(cfg, evs).successes + 1 < cfg.successThreshold
    ensures Probes(cfg, evs + [Success(w, at), Check(x, later)]) == if w == p then {x} else {p, x}
  {
    var mid := evs + [Success(w, at)];
    var all := evs + [Success(w, at), Check(x, later)];
    assert mid[..|evs|] == evs && all[..|evs| + 1] == mid;
    assert Run(cfg, mid) == HalfOpen(Run(cfg, evs).successes + 1, None);
    assert Probe(cfg, all, |evs| + 1);
  }

  /** A request admitted before the circuit opened can report during the half-open phase: two probes run. */
  lemma TwoProbesCanRun()
    ensures exists cfg: Config, evs :: cfg.Valid() && Ordered(evs) && Probes(cfg, evs) == {3, 4}
  {
    var cfg := Config(1, 2, 30.0);
    var a, b := [Check(1, 0.0)], [Check(1, 0.0), Check(2, 0.0)];
    var tripped := b + [Failure(2, 0.0)];
    var evs1 := tripped + [Check(3, 30.0)];
    assert b[..1] == a && tripped[..2] == b && evs1[..3] == tripped;
    assert Run(cfg, a) == Run(cfg, b) == Closed(0);
    assert Run(cfg, tripped) == Open(0.0) && Probes(cfg, tripped) == {};
    assert Run(cfg, evs1) == HalfOpen(0, Some(60.0)) && Probes(cfg, evs1) == {3};
    SecondProbeIffLateReport(cfg, evs1, 3, 1, 4, 31.0, 32.0);
    assert Ordered(evs1 + [Success(1, 31.0), Check(4, 32.0)]);
  }
}
