/**
 The Redis-backed circuit breaker of the agent pipeline: five keys per circuit hold the state that
 all workers share. Each public call is one method here; its contract says that, on a store that
 earlier calls produced, the call is one step of the three-state machine `Circuit`.
 */
module AgentBreaker {
  import opened Common
  import opened RedisStore
  import opened Strings

  datatype Config = Config(failureThreshold: int, successThreshold: int, timeout: real) {
    predicate Valid() {
      failureThreshold >= 1 && successThreshold >= 1 && timeout >= 1.0
    }
  }

  /** The five keys of one circuit; `KeyName` renders them as the source does. */
  datatype Key = State | Failures | Successes | OpenedAt | ProbeLock

  const CLOSED := "CLOSED"
  const OPEN := "OPEN"
  const HALF_OPEN := "HALF_OPEN"

  /**
   What the five keys mean, with the three recording calls as steps.
   `probeUntil` is the expiry of the probe lock, if the lock is set.
   */
  datatype Circuit =
    | Closed(failures: int)
    | Open(openedAt: real)
    | HalfOpen(successes: int, probeUntil: Option<real>)
  {
    predicate Leased(now: real) {
      HalfOpen? && probeUntil.Some? && now < probeUntil.value
    }

    function Check(cfg: Config, now: real): (Circuit, bool) {
      match this
      case Closed(_) => (this, true)
      case Open(t) =>
        if now - t >= cfg.timeout then (HalfOpen(0, Some(now + cfg.timeout)), true) else (this, false)
      case HalfOpen(k, _) =>
        if Leased(now) then (this, false) else (HalfOpen(k, Some(now + cfg.timeout)), true)
    }

    function Success(cfg: Config): Circuit {
      match this
      case Closed(_) => Closed(0)
      case Open(_) => this
      case HalfOpen(k, _) => if k + 1 >= cfg.successThreshold then Closed(0) else HalfOpen(k + 1, None)
    }

    function Failure(cfg: Config, now: real): Circuit {
      match this
      case Closed(n) => if n + 1 >= cfg.failureThreshold then Open(now) else Closed(n + 1)
      case Open(_) => this
      case HalfOpen(_, _) => Open(now)
    }
  }

  // ---- The keys ----

  /** Every key holds the kind of value the code writes to it, and only the lock expires. */
  predicate Typed(s: Store<Key>) {
    && (State in s ==> s[State].value.Text? && s[State].expires.None?)
    && (Failures in s ==> s[Failures].value.Number? && s[Failures].expires.None?)
    && (Successes in s ==> s[Successes].value.Number? && s[Successes].expires.None?)
    && (OpenedAt in s ==> s[OpenedAt].value.Stamp? && s[OpenedAt].expires.None?)
    && (ProbeLock in s ==> s[ProbeLock].expires.Some?)
  }

  /** A missing state key reads as CLOSED. */
  function StateOf(s: Store<Key>): string
    requires Typed(s)
  {
    if State in s then s[State].value.text else CLOSED
  }

  function NumberAt(s: Store<Key>, k: Key): int
    requires k in s ==> s[k].value.Number?
  {
    if k in s then s[k].value.number else 0
  }

  /** The invariant of the stored keys between two calls. */
  predicate Valid(cfg: Config, s: Store<Key>) {
    && Typed(s)
    && StateOf(s) in {CLOSED, OPEN, HALF_OPEN}
    && (StateOf(s) == CLOSED ==> 0 <= NumberAt(s, Failures) < cfg.failureThreshold && OpenedAt !in s)
    && (StateOf(s) == HALF_OPEN ==> 0 <= NumberAt(s, Successes) < cfg.successThreshold)
    && (StateOf(s) == OPEN ==> OpenedAt in s)
    && (StateOf(s) != HALF_OPEN ==> ProbeLock !in s)
  }

  function Meaning(cfg: Config, s: Store<Key>): Circuit
    requires Valid(cfg, s)
  {
    if StateOf(s) == CLOSED then Closed(NumberAt(s, Failures))
    else if StateOf(s) == OPEN then Open(s[OpenedAt].value.at)
    else HalfOpen(NumberAt(s, Successes), if ProbeLock in s then s[ProbeLock].expires else None)
  }

  // ---- Pipelines: each is one MULTI/EXEC, hence one step ----

  function ClosePipeline(s: Store<Key>): (r: Store<Key>)
    requires Typed(s)
    ensures Typed(r) && StateOf(r) == CLOSED && NumberAt(r, Failures) == 0
    ensures OpenedAt !in r && ProbeLock !in r
  {
    var t := Set(Set(Set(s, State, Text(CLOSED)), Failures, Number(0)), Successes, Number(0));
    Delete(Delete(t, OpenedAt), ProbeLock)
  }

  function TripPipeline(s: Store<Key>, now: real, unlock: bool): (r: Store<Key>)
    requires Typed(s)
    ensures Typed(r) && StateOf(r) == OPEN && OpenedAt in r && r[OpenedAt].value == Stamp(now)
    ensures ProbeLock in r <==> !unlock && ProbeLock in s
  {
    var t := Set(Set(Set(s, State, Text(OPEN)), OpenedAt, Stamp(now)), Successes, Number(0));
    if unlock then Delete(t, ProbeLock) else t
  }

  // ---- The breaker ----

  class CircuitBreaker {
    const cfg: Config

    constructor (failureThreshold: int, successThreshold: int, timeout: real)
      requires failureThreshold >= 1 && successThreshold >= 1 && timeout >= 1.0
      ensures cfg == Config(failureThreshold, successThreshold, timeout)
    {
      cfg := Config(failureThreshold, successThreshold, timeout);
    }

    method CanExecute(redis: Redis<Key>, now: real) returns (allowed: bool)
      requires cfg.Valid() && Typed(redis.entries)
      modifies redis
      ensures Typed(redis.entries)
      ensures old(Valid(cfg, redis.entries)) ==>
                && Valid(cfg, redis.entries)
                && (Meaning(cfg, redis.entries), allowed) == old(Meaning(cfg, redis.entries)).Check(cfg, now)
      // an OPEN circuit without its timestamp is let through and marked CLOSED, failures kept
      ensures old(StateOf(redis.entries) == OPEN && OpenedAt !in redis.entries) ==>
                allowed && redis.entries == old(redis.entries)[State := Entry(Text(CLOSED), None)]
      ensures old(StateOf(redis.entries) !in {CLOSED, OPEN, HALF_OPEN}) ==> allowed && redis.entries == old(redis.entries)
    {
      var state := StateOf(redis.entries);
      if state == CLOSED {
        return true;
      }
      if state == OPEN {
        var raw := Get(redis.entries, OpenedAt, now);
        if raw.None? {
          redis.entries := Set(redis.entries, State, Text(CLOSED));
          return true;
        }
        var elapsed := now - raw.value.at;
        if elapsed >= cfg.timeout {
          var (entries, acquired) := SetNxEx(redis.entries, ProbeLock, Text("1"), cfg.timeout, now);
          redis.entries := entries;
          if !acquired {
            return false;
          }
          redis.entries := Set(redis.entries, State, Text(HALF_OPEN));
          redis.entries := Set(redis.entries, Successes, Number(0));
          return true;
        }
        return false;
      }
      if state == HALF_OPEN {
        var (entries, acquired) := SetNxEx(redis.entries, ProbeLock, Text("1"), cfg.timeout, now);
        redis.entries := entries;
        return acquired;
      }
      return true;
    }

    method RecordSuccess(redis: Redis<Key>, now: real)
      requires cfg.Valid() && Typed(redis.entries)
      modifies redis
      ensures Typed(redis.entries)
      ensures old(Valid(cfg, redis.entries)) ==>
                && Valid(cfg, redis.entries)
                && Meaning(cfg, redis.entries) == old(Meaning(cfg, redis.entries)).Success(cfg)
      ensures old(StateOf(redis.entries) !in {CLOSED, HALF_OPEN}) ==> redis.entries == old(redis.entries)
    {
      var state := StateOf(redis.entries);
      if state == HALF_OPEN {
        var (entries, successes) := Incr(redis.entries, Successes, now);
        redis.entries := entries;
        if successes >= cfg.successThreshold {
          redis.entries := ClosePipeline(redis.entries);
        } else {
          redis.entries := Delete(redis.entries, ProbeLock);
        }
      } else if state == CLOSED {
        redis.entries := Set(redis.entries, Failures, Number(0));
      }
    }

    method RecordFailure(redis: Redis<Key>, now: real)
      requires cfg.Valid() && Typed(redis.entries)
      modifies redis
      ensures Typed(redis.entries)
      ensures old(Valid(cfg, redis.entries)) ==>
                && Valid(cfg, redis.entries)
                && Meaning(cfg, redis.entries) == old(Meaning(cfg, redis.entries)).Failure(cfg, now)
      ensures old(StateOf(redis.entries) == OPEN) ==> redis.entries == old(redis.entries)
    {
      var state := StateOf(redis.entries);
      if state == OPEN {
        return;
      }
      if state == HALF_OPEN {
        redis.entries := TripPipeline(redis.entries, now, true);
        return;
      }
      var (entries, failures) := Incr(redis.entries, Failures, now);
      redis.entries := entries;
      if failures >= cfg.failureThreshold {
        redis.entries := TripPipeline(redis.entries, now, false);
      }
    }

    method Reset(redis: Redis<Key>)
      requires cfg.Valid() && Typed(redis.entries)
      modifies redis
      // whatever the keys held before, the circuit is closed with no failures
      ensures Valid(cfg, redis.entries) && Meaning(cfg, redis.entries) == Closed(0)
    {
      redis.entries := ClosePipeline(redis.entries);
    }
  }

  // ---- Key names ----

  function Suffix(k: Key): string {
    match k
    case State => "state"
    case Failures => "failures"
    case Successes => "successes"
    case OpenedAt => "opened_at"
    case ProbeLock => "probe_lock"
  }

  function KeyName(circuit: string, k: Key): string {
    "cb:" + circuit + ":" + Suffix(k)
  }

  /** Circuits never share a key, whatever characters their names contain. */
  lemma KeyNamesDistinct(a: string, j: Key, b: string, k: Key)
    requires KeyName(a, j) == KeyName(b, k)
    ensures a == b && j == k
  {
    assert KeyName(a, j) == ("cb:" + a) + [':'] + Suffix(j);
    assert KeyName(b, k) == ("cb:" + b) + [':'] + Suffix(k);
    LastSeparatorUnique("cb:" + a, Suffix(j), "cb:" + b, Suffix(k), ':');
    assert a == ("cb:" + a)[3..] == ("cb:" + b)[3..] == b;
    assert Suffix(j)[1] == Suffix(k)[1];
  }
}
