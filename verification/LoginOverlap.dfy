/**
 Login requests that overlap: the check of the limits and the counting of a failure are separate
 steps, and any number of requests may have passed the one without having reached the other.
 */
module LoginOverlap {
  import opened Common
  import opened RedisStore
  import opened LoginLimiter
  import opened Strings

  /** Requests that were let through and are still being authenticated. */
  datatype World = World(store: Store<string>, passed: seq<Request>, now: real)

  datatype Action =
    | CheckLimits(r: Request)
    | CountFailure(i: nat)       // the i-th of the passed requests
    | LogIn(i: nat)
    | Abandon(i: nat)
    | Wait(elapsed: real)

  const START := World(map[], [], 0.0)

  function Without(passed: seq<Request>, i: nat): seq<Request>
    requires i < |passed|
  {
    passed[..i] + passed[i + 1..]
  }

  function Apply(s: World, a: Action): (r: World)
    requires Counters(s.store)
    ensures Counters(r.store)
  {
    match a
    case CheckLimits(r) =>
      if Check(s.store, r.email, r.ip, s.now) == Allowed then s.(passed := s.passed + [r]) else s
    case CountFailure(i) =>
      if i < |s.passed| then
        s.(store := AfterFailure(s.store, s.passed[i].email, s.passed[i].ip, s.now), passed := Without(s.passed, i))
      else s
    case LogIn(i) =>
      if i < |s.passed| then
        s.(store := Cleared(s.store, s.passed[i].email, s.passed[i].ip), passed := Without(s.passed, i))
      else s
    case Abandon(i) => if i < |s.passed| then s.(passed := Without(s.passed, i)) else s
    case Wait(d) => if d >= 0.0 then s.(now := s.now + d) else s
  }

  function Execute(schedule: seq<Action>): (s: World)
    ensures Counters(s.store)
  {
    if schedule == [] then START else Apply(Execute(schedule[..|schedule| - 1]), schedule[|schedule| - 1])
  }

  // ---- The three counters alike ----

  /** Passed requests whose failure would move this counter. */
  function Waiting(passed: seq<Request>, kind: Kind, key: string): nat {
    if passed == [] then 0
    else Waiting(passed[..|passed| - 1], kind, key) + if KeyOf(kind, passed[|passed| - 1]) == key then 1 else 0
  }

  lemma WaitingSnoc(passed: seq<Request>, r: Request, kind: Kind, key: string)
    ensures Waiting(passed + [r], kind, key) == Waiting(passed, kind, key) + if KeyOf(kind, r) == key then 1 else 0
  {
    assert (passed + [r])[..|passed|] == passed;
  }

  lemma {:induction false} WaitingConcat(a: seq<Request>, b: seq<Request>, kind: Kind, key: string)
    ensures Waiting(a + b, kind, key) == Waiting(a, kind, key) + Waiting(b, kind, key)
  {
    if b == [] {
      assert a + b == a;
    } else {
      var n := |b| - 1;
      assert a + b == (a + b[..n]) + [b[n]] && b == b[..n] + [b[n]];
      WaitingConcat(a, b[..n], kind, key);
      WaitingSnoc(a + b[..n], b[n], kind, key);
      WaitingSnoc(b[..n], b[n], kind, key);
    }
  }

  lemma WaitingWithout(passed: seq<Request>, i: nat, kind: Kind, key: string)
    requires i < |passed|
    ensures Waiting(passed, kind, key) == Waiting(Without(passed, i), kind, key) + if KeyOf(kind, passed[i]) == key then 1 else 0
  {
    assert passed == (passed[..i] + [passed[i]]) + passed[i + 1..];
    WaitingConcat(passed[..i] + [passed[i]], passed[i + 1..], kind, key);
    WaitingSnoc(passed[..i], passed[i], kind, key);
    WaitingConcat(passed[..i], passed[i + 1..], kind, key);
  }

  /** A failure moves one counter of each kind. */
  lemma CountAfterFailure(s: Store<string>, r: Request, kind: Kind, q: Request, now: real)
    requires Counters(s)
    ensures Count(AfterFailure(s, r.email, r.ip, now), KeyOf(kind, q), now)
            == Count(s, KeyOf(kind, q), now) + if KeyOf(kind, r) == KeyOf(kind, q) then 1 else 0
  {
    CountersGrow(s, r.email, r.ip, now);
    KeysDiffer(q.email, r.ip, q.email, q.ip);
    KeysDiffer(r.email, q.ip, r.email, r.ip);
    KeysDiffer(q.email, q.ip, r.email, r.ip);
    KeysDiffer(r.email, r.ip, q.email, q.ip);
  }

  // ---- The bound ----

  /** At no time more than k requests between check and count of this counter. */
  predicate Overlap(schedule: seq<Action>, kind: Kind, key: string, k: nat) {
    && Waiting(Execute(schedule).passed, kind, key) <= k
    && (schedule != [] ==> Overlap(schedule[..|schedule| - 1], kind, key, k))
  }

  predicate Bounded(s: World, kind: Kind, q: Request, k: nat)
    requires Counters(s.store)
  {
    Count(s.store, KeyOf(kind, q), s.now) + Waiting(s.passed, kind, KeyOf(kind, q)) <= LimitOf(kind) - 1 + k
  }

  lemma ApplyKeepsBounded(s: World, a: Action, kind: Kind, q: Request, k: nat)
    requires Counters(s.store) && Bounded(s, kind, q, k)
    requires Waiting(Apply(s, a).passed, kind, KeyOf(kind, q)) <= k
    ensures Bounded(Apply(s, a), kind, q, k)
  {
    var key := KeyOf(kind, q);
    match a
    case CheckLimits(r) => WaitingSnoc(s.passed, r, kind, key);
    case CountFailure(i) =>
      if i < |s.passed| {
        WaitingWithout(s.passed, i, kind, key);
        CountAfterFailure(s.store, s.passed[i], kind, q, s.now);
      }
    case LogIn(i) => if i < |s.passed| { WaitingWithout(s.passed, i, kind, key); }
    case Abandon(i) => if i < |s.passed| { WaitingWithout(s.passed, i, kind, key); }
    case Wait(_) =>
  }

  /** In every interleaving with at most k overlapping requests a counter stays within k - 1 of its limit. */
  lemma {:induction false} OverlapBound(schedule: seq<Action>, kind: Kind, q: Request, k: nat)
    requires Overlap(schedule, kind, KeyOf(kind, q), k)
    ensures Bounded(Execute(schedule), kind, q, k)
    ensures Count(Execute(schedule).store, KeyOf(kind, q), Execute(schedule).now) <= LimitOf(kind) - 1 + k
  {
    if schedule != [] {
      var n := |schedule| - 1;
      OverlapBound(schedule[..n], kind, q, k);
      ApplyKeepsBounded(Execute(schedule[..n]), schedule[n], kind, q, k);
    }
  }

  // ---- The bound is reached ----

  lemma ExecuteSnoc(schedule: seq<Action>, a: Action)
    ensures Execute(schedule + [a]) == Apply(Execute(schedule), a)
  {
    assert (schedule + [a])[..|schedule|] == schedule;
  }

  lemma OverlapSnoc(schedule: seq<Action>, a: Action, kind: Kind, key: string, k: nat)
    requires Overlap(schedule, kind, key, k) && Waiting(Apply(Execute(schedule), a).passed, kind, key) <= k
    ensures Overlap(schedule + [a], kind, key, k) && Execute(schedule + [a]) == Apply(Execute(schedule), a)
  {
    ExecuteSnoc(schedule, a);
    assert (schedule + [a])[..|schedule|] == schedule;
  }

  /** Requests that share r's counter of this kind; for an address or an e-mail nothing else. */
  function Variant(kind: Kind, r: Request, j: nat): (q: Request)
    ensures KeyOf(kind, q) == KeyOf(kind, r)
  {
    match kind
    case Address => Request(Decimal(j), r.ip)
    case Pair => r
    case Email => Request(r.email, Decimal(j))
  }

  lemma DecimalInjective(i: nat, j: nat)
    requires Decimal(i) == Decimal(j)
    ensures i == j
  {
    ParsePrinted(i);
    ParsePrinted(j);
  }

  lemma NoColonIn(j: nat)
    ensures ':' !in Decimal(j)
  {
    assert !IsDigit(':');
  }

  lemma VariantsDiffer(kind: Kind, r: Request, i: nat, j: nat, other: Kind)
    requires !kind.Pair? && other != kind && i != j
    ensures KeyOf(other, Variant(kind, r, i)) != KeyOf(other, Variant(kind, r, j))
  {
    var p, q := Variant(kind, r, i), Variant(kind, r, j);
    if KeyOf(other, p) == KeyOf(other, q) {
      NoColonIn(i);
      NoColonIn(j);
      if other.Pair? {
        SameTail(p.email, p.ip, q.email, q.ip);
        if kind.Address? { FirstSeparatorUnique(Decimal(i), r.ip, Decimal(j), r.ip, ':'); }
        else { LastSeparatorUnique(r.email, Decimal(i), r.email, Decimal(j), ':'); }
      } else if other.Address? {
        KeysDiffer(p.email, p.ip, q.email, q.ip);
      } else {
        assert p.email == EmailKey(p.email)[15..] && q.email == EmailKey(q.email)[15..];
      }
      DecimalInjective(i, j);
    }
  }

  function Variants(kind: Kind, r: Request, from: nat, n: nat): (qs: seq<Request>)
    ensures |qs| == n
  {
    seq(n, i requires 0 <= i < n => Variant(kind, r, from + i))
  }

  lemma VariantsSnoc(kind: Kind, r: Request, from: nat, n: nat)
    ensures Variants(kind, r, from, n + 1) == Variants(kind, r, from, n) + [Variant(kind, r, from + n)]
  {
  }

  lemma {:induction false} WaitingVariants(kind: Kind, r: Request, from: nat, n: nat)
    ensures Waiting(Variants(kind, r, from, n), kind, KeyOf(kind, r)) == n
  {
    if n > 0 {
      VariantsSnoc(kind, r, from, n - 1);
      WaitingSnoc(Variants(kind, r, from, n - 1), Variant(kind, r, from + (n - 1)), kind, KeyOf(kind, r));
      WaitingVariants(kind, r, from, n - 1);
    }
  }

  /** The other two counters of variant j; those of a pair move along with it. */
  predicate OthersAt(store: Store<string>, now: real, kind: Kind, r: Request, j: nat, c: int)
    requires Counters(store)
  {
    forall other: Kind :: other != kind ==> Count(store, KeyOf(other, Variant(kind, r, j)), now) == if kind.Pair? then c else 0
  }

  /** The counter stands at c, and from variant `from` on the others are untouched. */
  ghost predicate CountersAt(store: Store<string>, now: real, kind: Kind, r: Request, from: nat, c: int)
    requires Counters(store)
  {
    Count(store, KeyOf(kind, r), now) == c && forall j: nat :: from <= j ==> OthersAt(store, now, kind, r, j, c)
  }

  /** n variants have passed, the first of them `from`. */
  ghost predicate Stands(s: World, kind: Kind, r: Request, from: nat, n: nat, c: int)
    requires Counters(s.store)
  {
    s.passed == Variants(kind, r, from, n) && CountersAt(s.store, s.now, kind, r, from, c)
  }

  lemma LowCountersPass(store: Store<string>, now: real, kind: Kind, r: Request, from: nat, j: nat, c: int)
    requires Counters(store) && 0 <= c < LimitOf(kind) && from <= j && CountersAt(store, now, kind, r, from, c)
    ensures var q := Variant(kind, r, j); Check(store, q.email, q.ip, now) == Allowed
  {
    var q := Variant(kind, r, j);
    assert OthersAt(store, now, kind, r, j, c);
    assert Count(store, KeyOf(Address, q), now) < IP_LIMIT;
    assert Count(store, KeyOf(Pair, q), now) < COMBINED_LIMIT;
    assert Count(store, KeyOf(Email, q), now) < EMAIL_LIMIT;
  }

  lemma PassStep(s: World, kind: Kind, r: Request, from: nat, n: nat, c: int)
    requires Counters(s.store) && 0 <= c < LimitOf(kind) && Stands(s, kind, r, from, n, c)
    ensures Stands(Apply(s, CheckLimits(Variant(kind, r, from + n))), kind, r, from, n + 1, c)
  {
    LowCountersPass(s.store, s.now, kind, r, from, from + n, c);
    VariantsSnoc(kind, r, from, n);
  }

  /** The schedules that lead there, one failure per variant, with at most k requests overlapping at any time. */
  ghost function Reaching(kind: Kind, r: Request, from: nat, n: nat, k: nat): iset<seq<Action>> {
    iset schedule: seq<Action> | Overlap(schedule, kind, KeyOf(kind, r), k) && Stands(Execute(schedule), kind, r, from, n, from)
  }

  /** One more variant passes while the counter is below its limit. */
  lemma OneMorePasses(schedule: seq<Action>, kind: Kind, r: Request, from: nat, n: nat, k: nat) returns (all: seq<Action>)
    requires n < k && from < LimitOf(kind) && schedule in Reaching(kind, r, from, n, k)
    ensures all in Reaching(kind, r, from, n + 1, k)
  {
    var a := CheckLimits(Variant(kind, r, from + n));
    PassStep(Execute(schedule), kind, r, from, n, from);
    WaitingVariants(kind, r, from, n + 1);
    OverlapSnoc(schedule, a, kind, KeyOf(kind, r), k);
    all := schedule + [a];
  }

  lemma OthersAfterFailure(store: Store<string>, now: real, kind: Kind, r: Request, from: nat, j: nat, c: int)
    requires Counters(store) && from < j && OthersAt(store, now, kind, r, j, c)
    ensures var q := Variant(kind, r, from); OthersAt(AfterFailure(store, q.email, q.ip, now), now, kind, r, j, c + 1)
  {
    var q := Variant(kind, r, from);
    forall other: Kind | other != kind
      ensures Count(AfterFailure(store, q.email, q.ip, now), KeyOf(other, Variant(kind, r, j)), now) == if kind.Pair? then c + 1 else 0
    {
      CountAfterFailure(store, q, other, Variant(kind, r, j), now);
      if !kind.Pair? { VariantsDiffer(kind, r, from, j, other); }
    }
  }

  lemma CountersAfterFailure(store: Store<string>, now: real, kind: Kind, r: Request, from: nat, c: int, next: nat, one: int)
    requires Counters(store) && CountersAt(store, now, kind, r, from, c) && next == from + 1 && one == c + 1
    ensures var q := Variant(kind, r, from); CountersAt(AfterFailure(store, q.email, q.ip, now), now, kind, r, next, one)
  {
    var q := Variant(kind, r, from);
    var after := AfterFailure(store, q.email, q.ip, now);
    CountAfterFailure(store, q, kind, r, now);
    forall j: nat | next <= j ensures OthersAt(after, now, kind, r, j, one) {
      assert OthersAt(store, now, kind, r, j, c);
      OthersAfterFailure(store, now, kind, r, from, j, c);
    }
  }

  lemma WithoutFirst(kind: Kind, r: Request, from: nat, n: nat)
    requires n > 0
    ensures Without(Variants(kind, r, from, n), 0) == Variants(kind, r, from + 1, n - 1)
    ensures Variants(kind, r, from, n)[0] == Variant(kind, r, from)
  {
  }

  lemma FailStep(s: World, kind: Kind, r: Request, from: nat, n: nat, next: nat, left: nat)
    requires Counters(s.store) && n > 0 && Stands(s, kind, r, from, n, from) && next == from + 1 && left == n - 1
    ensures Stands(Apply(s, CountFailure(0)), kind, r, next, left, next)
    ensures Apply(s, CountFailure(0)).passed == Variants(kind, r, next, left)
  {
    WithoutFirst(kind, r, from, n);
    CountersAfterFailure(s.store, s.now, kind, r, from, from, next, next);
  }

  /** The first of the passed variants fails. */
  lemma OneMoreFails(schedule: seq<Action>, kind: Kind, r: Request, from: nat, n: nat, k: nat)
    returns (all: seq<Action>, next: nat, left: nat)
    requires 0 < n <= k && schedule in Reaching(kind, r, from, n, k)
    ensures next == from + 1 && left == n - 1 && all in Reaching(kind, r, next, left, k)
  {
    next, left := from + 1, n - 1;
    FailStep(Execute(schedule), kind, r, from, n, next, left);
    WaitingVariants(kind, r, next, left);
    OverlapSnoc(schedule, CountFailure(0), kind, KeyOf(kind, r), k);
    all := schedule + [CountFailure(0)];
  }

  lemma NoFailure(kind: Kind, r: Request, k: nat)
    ensures [] in Reaching(kind, r, 0, 0, k)
  {
  }

  lemma FailOneByOne(kind: Kind, r: Request, n: nat, k: nat) returns (schedule: seq<Action>)
    requires n < LimitOf(kind) && k >= 1
    ensures schedule in Reaching(kind, r, n, 0, k)
  {
    schedule := [];
    NoFailure(kind, r, k);
    for c := 0 to n
      invariant schedule in Reaching(kind, r, c, 0, k)
    {
      schedule := OneMorePasses(schedule, kind, r, c, 0, k);
      var next, left;
      schedule, next, left := OneMoreFails(schedule, kind, r, c, 1, k);
    }
  }

  lemma PassTogether(before: seq<Action>, kind: Kind, r: Request, c: nat, k: nat) returns (schedule: seq<Action>)
    requires c < LimitOf(kind) && before in Reaching(kind, r, c, 0, k)
    ensures schedule in Reaching(kind, r, c, k, k)
  {
    schedule := before;
    for n := 0 to k
      invariant schedule in Reaching(kind, r, c, n, k)
    {
      schedule := OneMorePasses(schedule, kind, r, c, n, k);
    }
  }

  lemma FailTogether(before: seq<Action>, kind: Kind, r: Request, c: nat, k: nat)
    returns (schedule: seq<Action>, from: nat, left: nat)
    requires before in Reaching(kind, r, c, k, k)
    ensures from == c + k && left == 0 && schedule in Reaching(kind, r, from, left, k)
  {
    schedule, from, left := before, c, k;
    while left > 0
      invariant from + left == c + k && left <= k
      invariant schedule in Reaching(kind, r, from, left, k)
    {
      schedule, from, left := OneMoreFails(schedule, kind, r, from, left, k);
    }
  }

  /** Failures one by one up to the limit, then k requests that all pass before the first of them fails: the bound is met. */
  lemma BoundIsReached(kind: Kind, r: Request, k: nat) returns (schedule: seq<Action>)
    requires k >= 1
    ensures Overlap(schedule, kind, KeyOf(kind, r), k)
    ensures Count(Execute(schedule).store, KeyOf(kind, r), Execute(schedule).now) == LimitOf(kind) - 1 + k
  {
    var c: nat := LimitOf(kind) - 1;
    schedule := FailOneByOne(kind, r, c, k);
    schedule := PassTogether(schedule, kind, r, c, k);
    var from, left;
    schedule, from, left := FailTogether(schedule, kind, r, c, k);
  }

  predicate WithinLimit(s: World, kind: Kind, r: Request)
    requires Counters(s.store)
  {
    Count(s.store, KeyOf(kind, r), s.now) <= LimitOf(kind)
  }

  /** Each limit holds in all runs with at most k overlapping requests of its counter exactly for k <= 1. */
  lemma LimitIff(kind: Kind, r: Request, k: nat)
    ensures (forall schedule :: Overlap(schedule, kind, KeyOf(kind, r), k) ==> WithinLimit(Execute(schedule), kind, r)) <==> k <= 1
  {
    if k <= 1 {
      forall schedule | Overlap(schedule, kind, KeyOf(kind, r), k) ensures WithinLimit(Execute(schedule), kind, r) {
        OverlapBound(schedule, kind, r, k);
      }
    } else {
      var schedule := BoundIsReached(kind, r, k);
      assert !WithinLimit(Execute(schedule), kind, r);
    }
  }
}
