/**
 The login limiter: three Redis counters per attempt, keyed by client address, by (email, address)
 and by email, each with its own expiry rule. Attempts are served one after another.
 */
module LoginLimiter {
  import opened Common
  import opened RedisStore
  import opened Strings

  const IP_LIMIT := 20
  const COMBINED_LIMIT := 5
  const EMAIL_LIMIT := 50
  const IP_WINDOW := 60.0
  const EMAIL_WINDOW := 900.0

  function IpKey(ip: string): string { "rl:login:ip:" + ip }
  function CombinedKey(email: string, ip: string): string { "rl:login:combined:" + email + ":" + ip }
  function EmailKey(email: string): string { "rl:login:email:" + email }

  lemma KeysDiffer(email: string, ip: string, otherEmail: string, otherIp: string)
    ensures IpKey(ip) != CombinedKey(otherEmail, otherIp) && IpKey(ip) != EmailKey(email)
    ensures CombinedKey(otherEmail, otherIp) != EmailKey(email)
    ensures IpKey(ip) == IpKey(otherIp) ==> ip == otherIp
  {
    assert IpKey(ip)[9] == 'i' && CombinedKey(otherEmail, otherIp)[9] == 'c' && EmailKey(email)[9] == 'e';
    assert ip == IpKey(ip)[12..] && otherIp == IpKey(otherIp)[12..];
  }

  function Pow2(n: nat): nat { if n == 0 then 1 else 2 * Pow2(n - 1) }

  /** _get_backoff_ttl */
  function BackoffTtl(failures: int): int {
    var n := if failures > 1 then failures else 1;
    var ttl := 60 * Pow2(n - 1);
    if ttl < 3600 then ttl else 3600
  }

  lemma {:induction false} Pow2Grows(n: nat)
    requires n >= 6
    ensures Pow2(n) >= 64
  {
    if n > 6 { Pow2Grows(n - 1); } else { assert Pow2(3) == 8; }
  }

  /** The backoff doubles from one minute and meets the one-hour cap exactly from the seventh failure on. */
  lemma BackoffCappedIff(failures: int)
    ensures BackoffTtl(failures) == 3600 <==> failures >= 7
    ensures 1 <= failures <= 5 ==> BackoffTtl(failures) == 60 * Pow2(failures - 1) <= 960
    ensures failures <= 1 ==> BackoffTtl(failures) == 60
    ensures BackoffTtl(2) == 120 && BackoffTtl(3) == 240 && BackoffTtl(4) == 480 && BackoffTtl(5) == 960
  {
    assert Pow2(0) == 1;
    assert Pow2(1) == 2 && Pow2(2) == 4 && Pow2(3) == 8 && Pow2(4) == 16 && Pow2(5) == 32;
    if failures >= 7 { Pow2Grows(failures - 1); }
    else if failures >= 2 { assert failures - 1 in {1, 2, 3, 4, 5}; }
  }

  // ---- Counters ----

  /** Counters come from INCR, so they are positive. */
  predicate Counters(s: Store<string>) {
    forall k :: k in s ==> s[k].value.Number? && s[k].value.number >= 1
  }

  /** int(get(key) or 0) */
  function Count(s: Store<string>, key: string, now: real): int
    requires Counters(s)
  {
    if Live(s, key, now) then s[key].value.number else 0
  }

  datatype Verdict = Allowed | IpBlocked | PairBlocked | EmailBlocked

  function Check(s: Store<string>, email: string, ip: string, now: real): Verdict
    requires Counters(s)
  {
    if Count(s, IpKey(ip), now) >= IP_LIMIT then IpBlocked
    else if Count(s, CombinedKey(email, ip), now) >= COMBINED_LIMIT then PairBlocked
    else if Count(s, EmailKey(email), now) >= EMAIL_LIMIT then EmailBlocked
    else Allowed
  }

  /** A counter whose window starts with its first failure. */
  function FixedWindow(s: Store<string>, key: string, window: real, now: real): Entry
    requires Counters(s)
  {
    if Live(s, key, now) then Entry(Number(s[key].value.number + 1), s[key].expires)
    else Entry(Number(1), Some(now + window))
  }

  /** The three counters after one more failure; the pair's expiry restarts at the backoff of its new count. */
  function AfterFailure(s: Store<string>, email: string, ip: string, now: real): (r: Store<string>)
    requires Counters(s)
    ensures Counters(r)
  {
    var n := Count(s, CombinedKey(email, ip), now) + 1;
    s[IpKey(ip) := FixedWindow(s, IpKey(ip), IP_WINDOW, now)]
     [CombinedKey(email, ip) := Entry(Number(n), Some(now + BackoffTtl(n) as real))]
     [EmailKey(email) := FixedWindow(s, EmailKey(email), EMAIL_WINDOW, now)]
  }

  function Cleared(s: Store<string>, email: string, ip: string): Store<string> {
    s - {IpKey(ip), CombinedKey(email, ip), EmailKey(email)}
  }

  /** The key holds the same entry, or none, in both. */
  predicate SameAt(s: Store<string>, r: Store<string>, key: string) {
    (key in s <==> key in r) && (key in s ==> r[key] == s[key])
  }

  /** One more on a live counter, under its old expiry; otherwise a new counter at 1 with the new expiry. */
  predicate CountedUp(s: Store<string>, r: Store<string>, key: string, now: real, newExpiry: real)
    requires Counters(s)
  {
    && key in r
    && (key in s && (s[key].expires == None || now < s[key].expires.value) ==>
          r[key] == Entry(Number(s[key].value.number + 1), s[key].expires))
    && (key !in s || (s[key].expires != None && s[key].expires.value <= now) ==> r[key] == Entry(Number(1), Some(newExpiry)))
  }

  class CacheManager {
    const redis: Redis<string>

    constructor (redis: Redis<string>)
      ensures this.redis == redis
    {
      this.redis := redis;
    }

    method IsLoginBlocked(email: string, ip: string, now: real) returns (blocked: bool, reason: Verdict)
      requires Counters(redis.entries)
      ensures reason == Check(redis.entries, email, ip, now) && blocked == (reason != Allowed)
      ensures reason == IpBlocked <==> Count(redis.entries, IpKey(ip), now) >= 20
      ensures reason == PairBlocked <==>
                Count(redis.entries, IpKey(ip), now) < 20 && Count(redis.entries, CombinedKey(email, ip), now) >= 5
      ensures reason == EmailBlocked <==>
                && Count(redis.entries, IpKey(ip), now) < 20 && Count(redis.entries, CombinedKey(email, ip), now) < 5
                && Count(redis.entries, EmailKey(email), now) >= 50
    {
      var ipCount := Count(redis.entries, IpKey(ip), now);
      if ipCount >= 20 {
        return true, IpBlocked;
      }
      var combinedCount := Count(redis.entries, CombinedKey(email, ip), now);
      if combinedCount >= 5 {
        return true, PairBlocked;
      }
      var emailCount := Count(redis.entries, EmailKey(email), now);
      if emailCount >= 50 {
        return true, EmailBlocked;
      }
      return false, Allowed;
    }

    /** INCR, and EXPIRE when this created the key. */
    method IncrementWindow(key: string, window: real, now: real)
      requires Counters(redis.entries) && window > 0.0
      modifies redis
      ensures redis.entries == old(redis.entries)[key := FixedWindow(old(redis.entries), key, window, now)]
      ensures Counters(redis.entries)
    {
      var (entries, count) := Incr(redis.entries, key, now);
      redis.entries := entries;
      if count == 1 {
        redis.entries := Expire(redis.entries, key, window, now);
      }
    }

    /** INCR, and EXPIRE with the backoff of the new count every time. */
    method IncrementPair(key: string, now: real) returns (count: int)
      requires Counters(redis.entries)
      modifies redis
      ensures count == old(Count(redis.entries, key, now)) + 1 && Counters(redis.entries)
      ensures redis.entries == old(redis.entries)[key := Entry(Number(count), Some(now + BackoffTtl(count) as real))]
    {
      var (entries, n) := Incr(redis.entries, key, now);
      count := n;
      redis.entries := Expire(entries, key, BackoffTtl(count) as real, now);
    }

    method IncrementLoginFailure(email: string, ip: string, now: real) returns (combinedCount: int)
      requires Counters(redis.entries)
      modifies redis
      ensures Counters(redis.entries) && redis.entries == AfterFailure(old(redis.entries), email, ip, now)
      ensures combinedCount == old(Count(redis.entries, CombinedKey(email, ip), now)) + 1
      ensures CountedUp(old(redis.entries), redis.entries, IpKey(ip), now, now + 60.0)
      ensures CountedUp(old(redis.entries), redis.entries, EmailKey(email), now, now + 900.0)
      ensures CombinedKey(email, ip) in redis.entries
      ensures redis.entries[CombinedKey(email, ip)] ==
              Entry(Number(combinedCount), Some(now + BackoffTtl(combinedCount) as real))
      ensures forall k :: k !in {IpKey(ip), CombinedKey(email, ip), EmailKey(email)} ==> SameAt(old(redis.entries), redis.entries, k)
    {
      KeysDiffer(email, ip, email, ip);
      IncrementWindow(IpKey(ip), 60.0, now);
      combinedCount := IncrementPair(CombinedKey(email, ip), now);
      IncrementWindow(EmailKey(email), 900.0, now);
    }

    method ClearLoginFailures(email: string, ip: string)
      modifies redis
      ensures redis.entries == Cleared(old(redis.entries), email, ip)
      ensures IpKey(ip) !in redis.entries && CombinedKey(email, ip) !in redis.entries && EmailKey(email) !in redis.entries
      ensures forall k :: k !in {IpKey(ip), CombinedKey(email, ip), EmailKey(email)} ==> SameAt(old(redis.entries), redis.entries, k)
      ensures old(Counters(redis.entries)) ==> Counters(redis.entries)
    {
      redis.entries := Delete(redis.entries, IpKey(ip));
      redis.entries := Delete(redis.entries, CombinedKey(email, ip));
      redis.entries := Delete(redis.entries, EmailKey(email));
    }
  }

  // ---- Runs ----

  /** One POST to the login view; `valid` tells whether the credentials check out. */
  datatype Attempt = Attempt(email: string, ip: string, at: real, valid: bool)

  function Serve(s: Store<string>, a: Attempt): (r: Store<string>)
    requires Counters(s)
    ensures Counters(r)
  {
    if Check(s, a.email, a.ip, a.at) != Allowed then s
    else if a.valid then Cleared(s, a.email, a.ip)
    else AfterFailure(s, a.email, a.ip, a.at)
  }

  function RunFrom(s: Store<string>, attempts: seq<Attempt>): (r: Store<string>)
    requires Counters(s)
    ensures Counters(r)
  {
    if attempts == [] then s
    else Serve(RunFrom(s, attempts[..|attempts| - 1]), attempts[|attempts| - 1])
  }

  function Run(attempts: seq<Attempt>): (r: Store<string>)
    ensures Counters(r)
  {
    RunFrom(map[], attempts)
  }

  /**
   Whoever tries what and when, no counter passes its limit: 20 per address, 5 per pair (so the
   one-hour backoff cap is never reached), 50 per email.
   */
  lemma {:induction false} CountersNeverPassLimits(attempts: seq<Attempt>, email: string, ip: string)
    ensures var s := Run(attempts);
            && (IpKey(ip) in s ==> s[IpKey(ip)].value.number <= 20)
            && (CombinedKey(email, ip) in s ==> s[CombinedKey(email, ip)].value.number <= 5)
            && (EmailKey(email) in s ==> s[EmailKey(email)].value.number <= 50)
  {
    if attempts != [] {
      var a := attempts[|attempts| - 1];
      CountersNeverPassLimits(attempts[..|attempts| - 1], email, ip);
      KeysDiffer(a.email, a.ip, email, ip);
      KeysDiffer(email, ip, a.email, a.ip);
      KeysDiffer(email, a.ip, email, ip);
      KeysDiffer(a.email, ip, email, ip);
    }
  }

  /** The counter an admitted failure reaches decides its expiry: the doubling backoff, 960 s at most. */
  lemma PairBackoffNeverCapped(attempts: seq<Attempt>, a: Attempt)
    requires Check(Run(attempts), a.email, a.ip, a.at) == Allowed && !a.valid
    ensures var n := Count(Run(attempts), CombinedKey(a.email, a.ip), a.at) + 1;
            && 1 <= n <= COMBINED_LIMIT
            && Serve(Run(attempts), a)[CombinedKey(a.email, a.ip)] == Entry(Number(n), Some(a.at + (60 * Pow2(n - 1)) as real))
            && 60 * Pow2(n - 1) <= 960
  {
    var n := Count(Run(attempts), CombinedKey(a.email, a.ip), a.at) + 1;
    KeysDiffer(a.email, a.ip, a.email, a.ip);
    BackoffCappedIff(n);
  }

  /** Once a pair stands at five, nothing anyone does lifts its block before the expiry. */
  lemma {:induction false} FiveFailuresBlock(s: Store<string>, email: string, ip: string, until: real, attempts: seq<Attempt>)
    requires Counters(s) && CombinedKey(email, ip) in s
    requires s[CombinedKey(email, ip)] == Entry(Number(COMBINED_LIMIT), Some(until))
    requires forall i :: 0 <= i < |attempts| ==> attempts[i].at < until
    ensures CombinedKey(email, ip) in RunFrom(s, attempts)
    ensures RunFrom(s, attempts)[CombinedKey(email, ip)] == s[CombinedKey(email, ip)]
  {
    if attempts != [] {
      var a := attempts[|attempts| - 1];
      FiveFailuresBlock(s, email, ip, until, attempts[..|attempts| - 1]);
      KeysDiffer(a.email, a.ip, email, ip);
    }
  }

  /** The fifth failure of a pair blocks every later attempt of that pair for the full 960 seconds. */
  lemma FifthFailureBlocks960(before: seq<Attempt>, fifth: Attempt, after: seq<Attempt>, now: real, valid: bool)
    requires Check(Run(before), fifth.email, fifth.ip, fifth.at) == Allowed && !fifth.valid
    requires Count(Run(before), CombinedKey(fifth.email, fifth.ip), fifth.at) == 4
    requires forall i :: 0 <= i < |after| ==> after[i].at < fifth.at + 960.0
    requires now < fifth.at + 960.0
    ensures Check(RunFrom(Serve(Run(before), fifth), after), fifth.email, fifth.ip, now) != Allowed
    ensures var s := RunFrom(Serve(Run(before), fifth), after);
            Serve(s, Attempt(fifth.email, fifth.ip, now, valid)) == s
  {
    var s := Serve(Run(before), fifth);
    PairBackoffNeverCapped(before, fifth);
    assert Pow2(2) == 4 && Pow2(4) == 16;
    FiveFailuresBlock(s, fifth.email, fifth.ip, fifth.at + 960.0, after);
    FullPairIsBlocked(RunFrom(s, after), fifth.email, fifth.ip, fifth.at + 960.0, now);
  }

  lemma FullPairIsBlocked(s: Store<string>, email: string, ip: string, until: real, now: real)
    requires Counters(s) && CombinedKey(email, ip) in s && now < until
    requires s[CombinedKey(email, ip)] == Entry(Number(COMBINED_LIMIT), Some(until))
    ensures Check(s, email, ip, now) != Allowed
  {
  }

  // ---- What the three counters count ----

  datatype Request = Request(email: string, ip: string)
  datatype Kind = Address | Pair | Email

  function KeyOf(kind: Kind, r: Request): string {
    match kind case Address => IpKey(r.ip) case Pair => CombinedKey(r.email, r.ip) case Email => EmailKey(r.email)
  }

  function LimitOf(kind: Kind): int {
    match kind case Address => IP_LIMIT case Pair => COMBINED_LIMIT case Email => EMAIL_LIMIT
  }

  /** The attempt is let through and shares q's counter of this kind. */
  predicate Admitted(before: seq<Attempt>, a: Attempt, kind: Kind, q: Request) {
    Check(Run(before), a.email, a.ip, a.at) == Allowed && KeyOf(kind, Request(a.email, a.ip)) == KeyOf(kind, q)
  }

  /** When a counter of this kind ends that was raised at these times. */
  function ExpiryOf(kind: Kind, times: seq<real>): real
    requires times != []
  {
    match kind
    case Address => times[0] + 60.0
    case Pair => times[|times| - 1] + BackoffTtl(|times|) as real
    case Email => times[0] + 900.0
  }

  /** Times of the admitted failures in the current life of the counter; a login ends it, and so does its expiry. */
  function Series(attempts: seq<Attempt>, kind: Kind, q: Request): seq<real> {
    if attempts == [] then []
    else
      var before, a := attempts[..|attempts| - 1], attempts[|attempts| - 1];
      var times := Series(before, kind, q);
      if !Admitted(before, a, kind, q) then times
      else if a.valid then []
      else Prolonged(kind, times, a.at)
  }

  /** One more failure joins a counter that is still alive and otherwise starts a new one. */
  function Prolonged(kind: Kind, times: seq<real>, at: real): seq<real> {
    if times != [] && at < ExpiryOf(kind, times) then times + [at] else [at]
  }

  /** A failure restarts or continues its own counter of each kind; another key keeps its entry. */
  lemma FailureMovesKey(s: Store<string>, r: Request, kind: Kind, q: Request, now: real)
    requires Counters(s)
    ensures var t := AfterFailure(s, r.email, r.ip, now);
            var key, n := KeyOf(kind, q), Count(s, KeyOf(kind, q), now) + 1;
            if KeyOf(kind, r) != key then SameAt(s, t, key)
            else && key in t
                 && t[key] == if kind.Pair? then Entry(Number(n), Some(now + BackoffTtl(n) as real))
                              else FixedWindow(s, key, if kind.Address? then 60.0 else 900.0, now)
  {
    KeysDiffer(q.email, r.ip, q.email, q.ip);
    KeysDiffer(r.email, q.ip, r.email, r.ip);
    KeysDiffer(q.email, q.ip, r.email, r.ip);
    KeysDiffer(r.email, r.ip, q.email, q.ip);
  }

  /** A login removes its own counter of each kind; another key keeps its entry. */
  lemma LoginMovesKey(s: Store<string>, r: Request, kind: Kind, q: Request)
    ensures var t := Cleared(s, r.email, r.ip);
            if KeyOf(kind, r) == KeyOf(kind, q) then KeyOf(kind, q) !in t else SameAt(s, t, KeyOf(kind, q))
  {
    KeysDiffer(q.email, r.ip, q.email, q.ip);
    KeysDiffer(r.email, q.ip, r.email, r.ip);
    KeysDiffer(q.email, q.ip, r.email, r.ip);
    KeysDiffer(r.email, r.ip, q.email, q.ip);
  }

  /** The stored counter has the size and the expiry of these times. */
  predicate CounterIs(s: Store<string>, kind: Kind, key: string, times: seq<real>) {
    && (key in s <==> times != [])
    && (times != [] ==> s[key] == Entry(Number(|times|), Some(ExpiryOf(kind, times))))
  }

  lemma FailureProlongs(s: Store<string>, r: Request, kind: Kind, q: Request, at: real, times: seq<real>)
    requires Counters(s) && KeyOf(kind, r) == KeyOf(kind, q) && CounterIs(s, kind, KeyOf(kind, q), times)
    ensures CounterIs(AfterFailure(s, r.email, r.ip, at), kind, KeyOf(kind, q), Prolonged(kind, times, at))
  {
    FailureMovesKey(s, r, kind, q, at);
  }

  lemma SameCounter(s: Store<string>, r: Store<string>, kind: Kind, key: string, times: seq<real>)
    requires CounterIs(s, kind, key, times) && SameAt(s, r, key)
    ensures CounterIs(r, kind, key, times)
  {
  }

  /** In every run each counter is the series of its key: so many failures, under the expiry they give it. */
  lemma {:induction false} CounterIsSeries(attempts: seq<Attempt>, kind: Kind, q: Request)
    ensures CounterIs(Run(attempts), kind, KeyOf(kind, q), Series(attempts, kind, q))
  {
    if attempts != [] {
      var before, a := attempts[..|attempts| - 1], attempts[|attempts| - 1];
      var r := Request(a.email, a.ip);
      var s, times := Run(before), Series(before, kind, q);
      CounterIsSeries(before, kind, q);
      if Check(s, a.email, a.ip, a.at) == Allowed {
        if KeyOf(kind, r) == KeyOf(kind, q) && !a.valid {
          FailureProlongs(s, r, kind, q, a.at, times);
        } else {
          FailureMovesKey(s, r, kind, q, a.at);
          LoginMovesKey(s, r, kind, q);
          if KeyOf(kind, r) != KeyOf(kind, q) { SameCounter(s, Serve(s, a), kind, KeyOf(kind, q), times); }
        }
      }
    }
  }

  /** Admitted failures of the key since its last admitted login. */
  function FailuresSinceLogin(attempts: seq<Attempt>, kind: Kind, q: Request): nat {
    if attempts == [] then 0
    else
      var before, a := attempts[..|attempts| - 1], attempts[|attempts| - 1];
      if !Admitted(before, a, kind, q) then FailuresSinceLogin(before, kind, q)
      else if a.valid then 0
      else FailuresSinceLogin(before, kind, q) + 1
  }

  /** No admitted failure of the key found its counter expired, so none restarted it. */
  predicate WindowLives(attempts: seq<Attempt>, kind: Kind, q: Request) {
    attempts != [] ==>
      var before, a := attempts[..|attempts| - 1], attempts[|attempts| - 1];
      && ((Admitted(before, a, kind, q) && a.valid) || WindowLives(before, kind, q))
      && (Admitted(before, a, kind, q) && !a.valid && KeyOf(kind, q) in Run(before) ==> Live(Run(before), KeyOf(kind, q), a.at))
  }

  lemma {:induction false} SeriesSinceLogin(attempts: seq<Attempt>, kind: Kind, q: Request)
    ensures |Series(attempts, kind, q)| <= FailuresSinceLogin(attempts, kind, q)
    ensures |Series(attempts, kind, q)| == FailuresSinceLogin(attempts, kind, q) <==> WindowLives(attempts, kind, q)
  {
    if attempts != [] {
      var before := attempts[..|attempts| - 1];
      SeriesSinceLogin(before, kind, q);
      CounterIsSeries(before, kind, q);
    }
  }

  /**
   A counter never exceeds the number of admitted failures of its key since the last admitted
   login, and equals it exactly while the window of those failures lives.
   */
  lemma CountsFailuresSinceLogin(attempts: seq<Attempt>, kind: Kind, q: Request, now: real)
    ensures Count(Run(attempts), KeyOf(kind, q), now) <= FailuresSinceLogin(attempts, kind, q)
    ensures Count(Run(attempts), KeyOf(kind, q), now) == FailuresSinceLogin(attempts, kind, q)
            <==> WindowLives(attempts, kind, q) && (KeyOf(kind, q) in Run(attempts) ==> Live(Run(attempts), KeyOf(kind, q), now))
  {
    CounterIsSeries(attempts, kind, q);
    SeriesSinceLogin(attempts, kind, q);
  }

  // ---- Failures admitted from one address ----

  predicate AdmittedFailure(s: Store<string>, a: Attempt, ip: string)
    requires Counters(s)
  {
    a.ip == ip && !a.valid && Check(s, a.email, a.ip, a.at) == Allowed
  }

  /** Times of the failures from ip that were let through and counted. */
  function FailureTimes(attempts: seq<Attempt>, ip: string): seq<real> {
    if attempts == [] then []
    else
      var before := attempts[..|attempts| - 1];
      var a := attempts[|attempts| - 1];
      FailureTimes(before, ip) + if AdmittedFailure(Run(before), a, ip) then [a.at] else []
  }

  /** No attempt from ip logged in, so its counter was never deleted. */
  predicate NeverCleared(attempts: seq<Attempt>, ip: string) {
    forall i :: 0 <= i < |attempts| && attempts[i].ip == ip && attempts[i].valid ==>
      Check(Run(attempts[..i]), attempts[i].email, ip, attempts[i].at) != Allowed
  }

  predicate Ordered(attempts: seq<Attempt>) {
    forall i, j :: 0 <= i < j < |attempts| ==> attempts[i].at <= attempts[j].at
  }

  function CountWithin(times: seq<real>, lo: real, hi: real): nat {
    if times == [] then 0
    else CountWithin(times[..|times| - 1], lo, hi) + if lo <= times[|times| - 1] <= hi then 1 else 0
  }

  function Flatten(windows: seq<seq<real>>): seq<real> {
    if windows == [] then [] else Flatten(windows[..|windows| - 1]) + windows[|windows| - 1]
  }

  /** At most 20 failures within 60 s of the first. */
  predicate Life(w: seq<real>) {
    1 <= |w| <= IP_LIMIT && forall k :: 0 <= k < |w| ==> w[0] <= w[k] < w[0] + IP_WINDOW
  }

  /** Windows of one counter life each, disjoint and in order. */
  predicate Lives(windows: seq<seq<real>>) {
    windows != [] ==>
      var before, last := windows[..|windows| - 1], windows[|windows| - 1];
      && Lives(before) && Life(last)
      && (before != [] ==> before[|before| - 1] != [] && before[|before| - 1][0] + IP_WINDOW <= last[0])
  }

  /** The last life began by then. */
  predicate BegunBy(windows: seq<seq<real>>, at: real) {
    windows != [] ==> windows[|windows| - 1] != [] && windows[|windows| - 1][0] <= at
  }

  /** The stored counter of ip is the size and expiry of the last life. */
  ghost predicate CounterIsLife(s: Store<string>, ip: string, windows: seq<seq<real>>)
    requires Counters(s)
  {
    && (IpKey(ip) in s <==> windows != [])
    && (windows != [] ==>
          && windows[|windows| - 1] != []
          && s[IpKey(ip)] == Entry(Number(|windows[|windows| - 1]|), Some(windows[|windows| - 1][0] + IP_WINDOW)))
  }

  lemma FlattenSnoc(windows: seq<seq<real>>, w: seq<real>)
    ensures Flatten(windows + [w]) == Flatten(windows) + w
  {
    assert (windows + [w])[..|windows|] == windows;
  }

  /** The admitted failures of an address fall into lives of its counter. */
  lemma {:induction false} FailuresFormLives(attempts: seq<Attempt>, ip: string) returns (windows: seq<seq<real>>)
    requires Ordered(attempts) && NeverCleared(attempts, ip)
    ensures Lives(windows) && Flatten(windows) == FailureTimes(attempts, ip)
    ensures CounterIsLife(Run(attempts), ip, windows)
    ensures if attempts == [] then windows == [] else BegunBy(windows, attempts[|attempts| - 1].at)
  {
    if attempts == [] {
      return [];
    }
    var n := |attempts| - 1;
    var before, a := attempts[..n], attempts[n];
    forall i | 0 <= i < n && before[i].ip == ip && before[i].valid
      ensures Check(Run(before[..i]), before[i].email, ip, before[i].at) != Allowed
    {
      assert before[..i] == attempts[..i];
    }
    var earlier := FailuresFormLives(before, ip);
    KeysDiffer(a.email, a.ip, a.email, ip);
    KeysDiffer(a.email, ip, a.email, a.ip);
    windows := LifeAfter(Run(before), a, ip, earlier);
  }

  /** Only an admitted failure or a login from ip itself touches the counter of ip. */
  lemma ServeIpCounter(s: Store<string>, a: Attempt, ip: string)
    requires Counters(s)
    requires a.ip == ip && a.valid ==> Check(s, a.email, ip, a.at) != Allowed
    ensures AdmittedFailure(s, a, ip) ==>
              && Count(s, IpKey(ip), a.at) < IP_LIMIT
              && IpKey(ip) in Serve(s, a)
              && Serve(s, a)[IpKey(ip)] == FixedWindow(s, IpKey(ip), IP_WINDOW, a.at)
    ensures !AdmittedFailure(s, a, ip) ==>
              && (IpKey(ip) in Serve(s, a) <==> IpKey(ip) in s)
              && (IpKey(ip) in s ==> Serve(s, a)[IpKey(ip)] == s[IpKey(ip)])
  {
    KeysDiffer(a.email, a.ip, a.email, ip);
    KeysDiffer(a.email, ip, a.email, a.ip);
  }

  lemma LifeAfter(s: Store<string>, a: Attempt, ip: string, earlier: seq<seq<real>>) returns (windows: seq<seq<real>>)
    requires Counters(s) && Lives(earlier) && CounterIsLife(s, ip, earlier)
    requires BegunBy(earlier, a.at)
    requires a.ip == ip && a.valid ==> Check(s, a.email, ip, a.at) != Allowed
    ensures Lives(windows) && CounterIsLife(Serve(s, a), ip, windows)
    ensures Flatten(windows) == Flatten(earlier) + if AdmittedFailure(s, a, ip) then [a.at] else []
    ensures BegunBy(windows, a.at)
  {
    ServeIpCounter(s, a, ip);
    if AdmittedFailure(s, a, ip) {
      windows := LifeAfterFailure(s, Serve(s, a), ip, a.at, earlier);
    } else {
      windows := earlier;
    }
  }

  lemma LifeAfterFailure(s: Store<string>, r: Store<string>, ip: string, at: real, earlier: seq<seq<real>>)
    returns (windows: seq<seq<real>>)
    requires Counters(s) && Counters(r) && Lives(earlier) && CounterIsLife(s, ip, earlier)
    requires BegunBy(earlier, at)
    requires Count(s, IpKey(ip), at) < IP_LIMIT
    requires IpKey(ip) in r && r[IpKey(ip)] == FixedWindow(s, IpKey(ip), IP_WINDOW, at)
    ensures Lives(windows) && CounterIsLife(r, ip, windows)
    ensures Flatten(windows) == Flatten(earlier) + [at]
    ensures BegunBy(windows, at)
  {
    if Live(s, IpKey(ip), at) {
      windows := GrowLastLife(earlier, at);
    } else {
      windows := StartLife(earlier, at);
    }
  }

  lemma SnocLife(before: seq<seq<real>>, w: seq<real>)
    requires Lives(before) && Life(w)
    requires before != [] ==> before[|before| - 1] != [] && before[|before| - 1][0] + IP_WINDOW <= w[0]
    ensures Lives(before + [w]) && Flatten(before + [w]) == Flatten(before) + w
  {
    FlattenSnoc(before, w);
    assert (before + [w])[..|before|] == before;
  }

  lemma StartLife(earlier: seq<seq<real>>, at: real) returns (windows: seq<seq<real>>)
    requires Lives(earlier)
    requires earlier != [] ==> earlier[|earlier| - 1] != [] && earlier[|earlier| - 1][0] + IP_WINDOW <= at
    ensures Lives(windows) && windows != [] && windows[|windows| - 1] == [at]
    ensures Flatten(windows) == Flatten(earlier) + [at]
  {
    windows := earlier + [[at]];
    SnocLife(earlier, [at]);
  }

  lemma GrowLastLife(earlier: seq<seq<real>>, at: real) returns (windows: seq<seq<real>>)
    requires Lives(earlier) && earlier != [] && |earlier[|earlier| - 1]| < IP_LIMIT
    requires earlier[|earlier| - 1] != [] && earlier[|earlier| - 1][0] <= at < earlier[|earlier| - 1][0] + IP_WINDOW
    ensures Lives(windows) && windows != [] && windows[|windows| - 1] == earlier[|earlier| - 1] + [at]
    ensures Flatten(windows) == Flatten(earlier) + [at]
  {
    var before, last := earlier[..|earlier| - 1], earlier[|earlier| - 1];
    windows := before + [last + [at]];
    LongerLife(last, at);
    SnocLife(before, last + [at]);
    assert Flatten(earlier) == Flatten(before) + last;
    assert (Flatten(before) + last) + [at] == Flatten(before) + (last + [at]);
  }

  lemma LongerLife(w: seq<real>, at: real)
    requires Life(w) && |w| < IP_LIMIT && w[0] <= at < w[0] + IP_WINDOW
    ensures Life(w + [at]) && (w + [at])[0] == w[0]
  {
  }

  // ---- Sixty seconds meet at most two lives ----

  lemma {:induction false} CountConcat(a: seq<real>, b: seq<real>, lo: real, hi: real)
    ensures CountWithin(a + b, lo, hi) == CountWithin(a, lo, hi) + CountWithin(b, lo, hi)
  {
    if b == [] {
      assert a + b == a;
    } else {
      assert (a + b)[..|a + b| - 1] == a + b[..|b| - 1];
      CountConcat(a, b[..|b| - 1], lo, hi);
    }
  }

  lemma {:induction false} CountBounds(times: seq<real>, lo: real, hi: real)
    ensures CountWithin(times, lo, hi) <= |times|
    ensures CountWithin(times, lo, hi) > 0 ==> exists i :: 0 <= i < |times| && lo <= times[i] <= hi
  {
    if times != [] {
      var before := times[..|times| - 1];
      CountBounds(before, lo, hi);
      if CountWithin(before, lo, hi) > 0 {
        var i :| 0 <= i < |before| && lo <= before[i] <= hi;
        assert times[i] == before[i];
      }
    }
  }

  /** Lives that ended a whole window before the last life met the interval contribute nothing. */
  lemma {:induction false} EarlyLivesCountNothing(windows: seq<seq<real>>, lo: real, hi: real)
    requires Lives(windows)
    requires windows != [] ==> windows[|windows| - 1] != [] && windows[|windows| - 1][0] + IP_WINDOW <= lo
    ensures CountWithin(Flatten(windows), lo, hi) == 0
  {
    if windows != [] {
      var n := |windows| - 1;
      EarlyLivesCountNothing(windows[..n], lo, hi);
      CountConcat(Flatten(windows[..n]), windows[n], lo, hi);
      CountBounds(windows[n], lo, hi);
    }
  }

  /** The interval reaches at most one life before the one that starts within its length. */
  lemma LastLifeWithin(windows: seq<seq<real>>, lo: real, hi: real)
    requires Lives(windows) && (windows != [] ==> windows[|windows| - 1] != [] && windows[|windows| - 1][0] <= lo)
    ensures CountWithin(Flatten(windows), lo, hi) <= IP_LIMIT
  {
    if windows != [] {
      var n := |windows| - 1;
      CountConcat(Flatten(windows[..n]), windows[n], lo, hi);
      CountBounds(windows[n], lo, hi);
      EarlyLivesCountNothing(windows[..n], lo, hi);
    }
  }

  lemma {:induction false} LivesWithinInterval(windows: seq<seq<real>>, lo: real)
    requires Lives(windows)
    ensures CountWithin(Flatten(windows), lo, lo + 60.0) <= 2 * IP_LIMIT
  {
    if windows != [] {
      var n := |windows| - 1;
      var hi := lo + 60.0;
      CountConcat(Flatten(windows[..n]), windows[n], lo, hi);
      CountBounds(windows[n], lo, hi);
      if CountWithin(windows[n], lo, hi) == 0 {
        LivesWithinInterval(windows[..n], lo);
      } else {
        LastLifeWithin(windows[..n], lo, hi);
      }
    }
  }

  /** Unless someone logs in from it, an address gets at most 40 failures through in any 60 seconds. */
  lemma AtMostFortyPerMinute(attempts: seq<Attempt>, ip: string, lo: real)
    requires Ordered(attempts) && NeverCleared(attempts, ip)
    ensures CountWithin(FailureTimes(attempts, ip), lo, lo + 60.0) <= 40
  {
    var windows := FailuresFormLives(attempts, ip);
    LivesWithinInterval(windows, lo);
  }

  // ---- One more failure ----

  lemma BackoffPositive(n: int)
    ensures BackoffTtl(n) > 0
  {
    if n > 1 { Pow2Positive(n - 1); }
  }

  lemma {:induction false} Pow2Positive(n: nat)
    ensures Pow2(n) > 0
  {
    if n > 0 { Pow2Positive(n - 1); }
  }

  /** A failure raises its own three counters by one, whatever else is stored. */
  lemma CountersGrow(s: Store<string>, email: string, ip: string, now: real)
    requires Counters(s)
    ensures var r := AfterFailure(s, email, ip, now);
            && Count(r, IpKey(ip), now) == Count(s, IpKey(ip), now) + 1
            && Count(r, CombinedKey(email, ip), now) == Count(s, CombinedKey(email, ip), now) + 1
            && Count(r, EmailKey(email), now) == Count(s, EmailKey(email), now) + 1
  {
    KeysDiffer(email, ip, email, ip);
    BackoffPositive(Count(s, CombinedKey(email, ip), now) + 1);
  }

  // ---- Pairs that share a counter ----

  /** Another pair of email and address with the same counter exists exactly when a colon can be read as the separator. */
  lemma SharedCounterIff(email: string, ip: string)
    ensures (exists e: string, i: string :: (e, i) != (email, ip) && CombinedKey(e, i) == CombinedKey(email, ip))
            <==> ':' in email || ':' in ip
  {
    if ':' in email {
      var k := IndexOf(email, ':');
      var p, q := email[..k], email[k + 1..];
      assert email == p + ":" + q;
      SameTail(p, q + ":" + ip, email, ip);
      assert (p, q + ":" + ip) != (email, ip);
    } else if ':' in ip {
      var k := IndexOf(ip, ':');
      var p, q := ip[..k], ip[k + 1..];
      assert ip == p + ":" + q;
      SameTail(email + ":" + p, q, email, ip);
      assert |email + ":" + p| > |email|;
      assert (email + ":" + p, q) != (email, ip);
    } else {
      forall e: string, i: string | CombinedKey(e, i) == CombinedKey(email, ip) ensures (e, i) == (email, ip) {
        SameTail(e, i, email, ip);
        NoThirdPart(e, i, email, ip);
      }
    }
  }

  lemma SameTail(e: string, i: string, email: string, ip: string)
    ensures CombinedKey(e, i) == CombinedKey(email, ip) <==> e + ":" + i == email + ":" + ip
  {
    var lead := "rl:login:combined:";
    assert CombinedKey(e, i) == lead + (e + ":" + i) && CombinedKey(email, ip) == lead + (email + ":" + ip);
    assert CombinedKey(e, i)[|lead|..] == e + ":" + i && CombinedKey(email, ip)[|lead|..] == email + ":" + ip;
  }

  lemma NoThirdPart(e: string, i: string, email: string, ip: string)
    requires ':' !in email && ':' !in ip && e + ":" + i == email + ":" + ip
    ensures e == email && i == ip
  {
    if ':' in e {
      var k := IndexOf(e, ':');
      var p, q := e[..k], e[k + 1..];
      assert e == p + ":" + q;
      assert p + [':'] + (q + ":" + i) == email + [':'] + ip;
      assert (q + ":" + i)[|q|] == ':';
      FirstSeparatorUnique(p, q + ":" + i, email, ip, ':');
    } else {
      FirstSeparatorUnique(e, i, email, ip, ':');
    }
  }
}
