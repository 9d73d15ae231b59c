/** How long serial password guessing on one account takes. */
module GuessingRuns {
  import opened AuthThrottle
  import opened Sets

  datatype Event =
    | Checked(username: string, now: int)
    | Failed(username: string, now: int)
    | Succeeded(username: string, now: int)

  function Step(c: Config, s: State, e: Event): State {
    match e
    case Checked(u, t) => s.(table := AfterCheck(c, s.table, u, t))
    case Failed(u, t) => AfterFailure(c, s, u, t)
    case Succeeded(u, t) => AfterSuccess(s, u)
  }

  /** The guesses at one account in a run: how many failures, and when the last one was. */
  datatype Guesses = Guesses(count: int, last: int)

  function Count(g: Guesses, key: string, es: seq<Event>): Guesses
    decreases |es|
  {
    if es == [] then g
    else if es[0].Failed? && Normalize(es[0].username) == key then Count(Guesses(g.count + 1, es[0].now), key, es[1..])
    else Count(g, key, es[1..])
  }

  /** A serial guessing run at `key`: time does not go back, no guess succeeds, every failure
      follows a check after the previous failure that let it through (`armed`), and no full
      time-to-live passes between a failure and the next check or failure. Events of other
      accounts may come in between without restriction. */
  predicate Guessing(c: Config, s: State, key: string, g: Guesses, now: int, armed: bool, es: seq<Event>)
    decreases |es|
  {
    es == [] ||
    var e, u := es[0], Step(c, s, es[0]);
    && now <= e.now
    && if Normalize(e.username) != key then Guessing(c, u, key, g, e.now, armed, es[1..])
       else
         && e.now - g.last < TtlNs(c)
         && match e
            case Checked(name, t) =>
              Guessing(c, u, key, g, t, armed || !Decide(c, s.table, name, t).throttled, es[1..])
            case Failed(name, t) => armed && Guessing(c, u, key, Guesses(g.count + 1, t), t, false, es[1..])
            case Succeeded(name, t) => false
  }

  /** The sum of the delays after failures a, a + 1, ..., b - 1. */
  function DelaysNs(c: Config, a: int, b: int): int
    decreases b - a
  {
    if b <= a then 0 else DelayFor(c, a) * NS_PER_MS + DelaysNs(c, a + 1, b)
  }

  /** The table still holds the last guess, unless a time-to-live has passed since. */
  predicate Remembered(c: Config, s: State, key: string, g: Guesses, now: int) {
    g.last + TtlNs(c) <= now
    || (key in s.table && s.table[key] == Entry(g.count, g.last, g.last + DelayFor(c, g.count) * NS_PER_MS))
  }

  lemma StepRemembers(c: Config, s: State, key: string, g: Guesses, now: int, e: Event)
    requires IsConfig(c) && key != "" && Remembered(c, s, key, g, now) && now <= e.now && g.count >= 1
    requires Normalize(e.username) == key ==> e.now - g.last < TtlNs(c) && !e.Succeeded?
    ensures Normalize(e.username) == key && e.Failed? ==>
              Remembered(c, Step(c, s, e), key, Guesses(g.count + 1, e.now), e.now)
    ensures !(Normalize(e.username) == key && e.Failed?) ==> Remembered(c, Step(c, s, e), key, g, e.now)
  {
  }

  lemma {:induction false} CountOnlyGrows(g: Guesses, key: string, es: seq<Event>)
    ensures g.count <= Count(g, key, es).count
    decreases |es|
  {
    if es != [] {
      CountOnlyGrows(if es[0].Failed? && Normalize(es[0].username) == key
                     then Guesses(g.count + 1, es[0].now) else g, key, es[1..]);
    }
  }

  /** From the moment one failure has been recorded, every further serial guess costs at
      least the delay of the failure before it, whatever happens to other accounts. */
  lemma {:induction false} GuessingIsSlow(c: Config, s: State, key: string, g: Guesses, now: int, armed: bool,
                                          es: seq<Event>)
    requires IsConfig(c) && key != "" && g.count >= 1 && Remembered(c, s, key, g, now)
    requires Guessing(c, s, key, g, now, armed, es)
    requires armed ==> now >= g.last + DelayFor(c, g.count) * NS_PER_MS
    ensures Count(g, key, es).last - g.last >= DelaysNs(c, g.count, Count(g, key, es).count)
    decreases |es|
  {
    if es != [] {
      var e, u := es[0], Step(c, s, es[0]);
      StepRemembers(c, s, key, g, now, e);
      if Normalize(e.username) != key {
        GuessingIsSlow(c, u, key, g, e.now, armed, es[1..]);
      } else if e.Failed? {
        var h := Guesses(g.count + 1, e.now);
        GuessingIsSlow(c, u, key, h, e.now, false, es[1..]);
        CountOnlyGrows(h, key, es[1..]);
      } else {
        var admitted := !Decide(c, s.table, e.username, e.now).throttled;
        GuessingIsSlow(c, u, key, g, e.now, armed || admitted, es[1..]);
      }
    }
  }

  /** A failure that leaves a record leaves this one. */
  lemma FreshEntry(c: Config, s: State, username: string, now: int)
    requires Normalize(username) != "" && Normalize(username) in AfterFailure(c, s, username, now).table
    ensures var e := AfterFailure(c, s, username, now).table[Normalize(username)];
            e.lastFailure == now && e.nextAllowed == now + DelayFor(c, e.failures) * NS_PER_MS
  {
  }

  // ------------------------------------------------------------- when guesses are recorded

  const EMPTY := State(map[], 0)

  function After(c: Config, s: State, es: seq<Event>): State {
    if es == [] then s else Step(c, After(c, s, es[..|es| - 1]), es[|es| - 1])
  }

  /** What a caller can check before a failure: the account has a record that has not
      expired, or the records that have not expired leave room for one more. */
  predicate HasRoom(c: Config, t: Table, key: string, now: int) {
    key in Pruned(c, t, now) || |Pruned(c, t, now)| < c.maxEntries
  }

  lemma PrunedIsSmaller(c: Config, t: Table, now: int)
    ensures |Pruned(c, t, now)| <= |t|
  {
    SubsetIsSmaller(Pruned(c, t, now).Keys, t.Keys);
  }

  /** A failure is recorded exactly when there is room, whether or not it happens to prune. */
  lemma RecordedExactly(c: Config, s: State, username: string, now: int)
    requires Normalize(username) != ""
    ensures Normalize(username) in AfterFailure(c, s, username, now).table
       <==> HasRoom(c, s.table, Normalize(username), now)
  {
    PrunedIsSmaller(c, s.table, now);
  }

  /** Every record a run leaves counts at least one failure. */
  lemma {:induction false} RecordsCount(c: Config, es: seq<Event>, key: string)
    requires key in After(c, EMPTY, es).table
    ensures After(c, EMPTY, es).table[key].failures >= 1
  {
    if es != [] {
      var fore := es[..|es| - 1];
      RecordAfter(c, After(c, EMPTY, fore), es[|es| - 1], key);
      if key in After(c, EMPTY, fore).table { RecordsCount(c, fore, key); }
    }
  }

  /** How many failures the record of an account counts after a recorded failure. */
  function CountAfter(c: Config, s: State, username: string, now: int): int
    requires Normalize(username) != "" && HasRoom(c, s.table, Normalize(username), now)
  {
    RecordedExactly(c, s, username, now);
    AfterFailure(c, s, username, now).table[Normalize(username)].failures
  }

  /** A whole attack on any account, after any history for which there is room for its
      first failure: n failures in all take at least the delays after failures 1 to n - 1,
      or those after the failures already on record. */
  lemma AttackIsSlow(c: Config, past: seq<Event>, username: string, now: int, es: seq<Event>)
    requires IsConfig(c) && Normalize(username) != ""
    requires HasRoom(c, After(c, EMPTY, past).table, Normalize(username), now)
    requires var s := After(c, EMPTY, past);
             Guessing(c, AfterFailure(c, s, username, now), Normalize(username),
                      Guesses(CountAfter(c, s, username, now), now), now, false, es)
    ensures var s, key := After(c, EMPTY, past), Normalize(username);
            var first := CountAfter(c, s, username, now);
            var end := Count(Guesses(first, now), key, es);
            && first >= 1 && (key !in Pruned(c, s.table, now) ==> first == 1)
            && end.last - now >= DelaysNs(c, first, end.count)
  {
    var s, key := After(c, EMPTY, past), Normalize(username);
    RecordedExactly(c, s, username, now);
    RecordsCount(c, past + [Failed(username, now)], key) by {
      assert (past + [Failed(username, now)])[..|past|] == past;
    }
    if key in s.table { RecordsCount(c, past, key); }
    FreshEntry(c, s, username, now);
    GuessingIsSlow(c, AfterFailure(c, s, username, now), key,
                   Guesses(CountAfter(c, s, username, now), now), now, false, es);
  }

  /** n guesses at one account at one moment, each checked before it fails. */
  function Burst(username: string, now: int, n: nat): seq<Event> {
    if n == 0 then [] else [Checked(username, now), Failed(username, now)] + Burst(username, now, n - 1)
  }

  /** No check of the run is refused. */
  predicate AllAdmitted(c: Config, s: State, es: seq<Event>)
    decreases |es|
  {
    es == [] ||
    (&& (es[0].Checked? ==> !Decide(c, s.table, es[0].username, es[0].now).throttled)
     && AllAdmitted(c, Step(c, s, es[0]), es[1..]))
  }

  lemma NoRoomAfterGuess(c: Config, s: State, username: string, now: int)
    requires Normalize(username) != "" && !HasRoom(c, s.table, Normalize(username), now)
    ensures !Decide(c, s.table, username, now).throttled
    ensures var t := Step(c, s, Checked(username, now));
            !HasRoom(c, Step(c, t, Failed(username, now)).table, Normalize(username), now)
  {
    var key, t := Normalize(username), Step(c, s, Checked(username, now));
    assert Pruned(c, t.table, now) == Pruned(c, s.table, now);
    PrunedIsSmaller(c, t.table, now);
    assert Pruned(c, Pruned(c, s.table, now), now) == Pruned(c, s.table, now);
  }

  /** Without room the throttle fails open: any number of guesses at the account is let
      through, all at the same moment. */
  lemma {:induction false} NoRoomNoDelay(c: Config, s: State, username: string, now: int, n: nat, g: Guesses)
    requires Normalize(username) != "" && !HasRoom(c, s.table, Normalize(username), now)
    ensures AllAdmitted(c, s, Burst(username, now, n))
    ensures Count(g, Normalize(username), Burst(username, now, n))
         == if n == 0 then g else Guesses(g.count + n, now)
    decreases n
  {
    if n > 0 {
      var key, es := Normalize(username), Burst(username, now, n);
      var rest := Burst(username, now, n - 1);
      var t := Step(c, s, es[0]);
      var u := Step(c, t, Failed(username, now));
      NoRoomAfterGuess(c, s, username, now);
      NoRoomNoDelay(c, u, username, now, n - 1, Guesses(g.count + 1, now));
      assert es[1..][0] == Failed(username, now) && es[1..][1..] == rest;
      assert AllAdmitted(c, t, es[1..]);
      assert Count(g, key, es) == Count(g, key, es[1..]) == Count(Guesses(g.count + 1, now), key, rest);
    }
  }

  /** Such a table is reached: with room for one account, one failure of another account
      lets n guesses at "b" through in no time, for every n. */
  lemma FullTableNoDelay(n: nat)
    ensures var c := ConfigFromEnv(Unset, Unset, Unset, Unset, Number(1));
            var s := After(c, EMPTY, [Failed("a", 0)]);
            && !HasRoom(c, s.table, "b", 0)
            && AllAdmitted(c, s, Burst("b", 0, n))
            && Count(Guesses(0, 0), "b", Burst("b", 0, n)) == Guesses(n, 0)
  {
    var c := ConfigFromEnv(Unset, Unset, Unset, Unset, Number(1));
    var es := [Failed("a", 0)];
    assert es[..0] == [];
    var s := After(c, EMPTY, es);
    assert s == Step(c, EMPTY, Failed("a", 0));
    assert Pruned(c, map[], 0) == map[];
    assert s.table.Keys == {"a"};
    assert Pruned(c, s.table, 0) == s.table && |s.table| == |s.table.Keys|;
    NoRoomNoDelay(c, s, "b", 0, n, Guesses(0, 0));
  }

  /** The table holds this last guess at the account. */
  predicate Holds(c: Config, s: State, key: string, g: Guesses) {
    key in s.table && s.table[key] == Entry(g.count, g.last, g.last + DelayFor(c, g.count) * NS_PER_MS)
  }

  function NextTime(c: Config, g: Guesses): int { g.last + DelayFor(c, g.count) * NS_PER_MS }

  /** n guesses, each checked and failed at the first moment it is let through. */
  function Earliest(c: Config, key: string, g: Guesses, n: nat): seq<Event>
    decreases n
  {
    if n == 0 then []
    else
      var t := NextTime(c, g);
      [Checked(key, t), Failed(key, t)] + Earliest(c, key, Guesses(g.count + 1, t), n - 1)
  }

  lemma EarliestGuess(c: Config, s: State, key: string, g: Guesses)
    requires IsConfig(c) && c.maxDelayMs < c.entryTtlMs && 0 < |key| <= 64 && g.count >= 0 && Holds(c, s, key, g)
    ensures var t := NextTime(c, g);
      && g.last <= t < g.last + TtlNs(c)
      && !Decide(c, s.table, key, t).throttled && Step(c, s, Checked(key, t)) == s
      && Holds(c, Step(c, s, Failed(key, t)), key, Guesses(g.count + 1, t))
  {
    DelayGrows(c, 0, g.count);
    if g.count > c.freeAttempts { DelayIsExponential(c, g.count); }
    assert DelayFor(c, g.count) <= c.maxDelayMs;
  }

  lemma OneRound(c: Config, s: State, key: string, g: Guesses, now: int, rest: seq<Event>)
    requires IsConfig(c) && c.maxDelayMs < c.entryTtlMs && 0 < |key| <= 64 && g.count >= 0 && Holds(c, s, key, g)
    requires now <= NextTime(c, g)
    requires var t := NextTime(c, g);
             Guessing(c, Step(c, s, Failed(key, t)), key, Guesses(g.count + 1, t), t, false, rest)
    ensures var t := NextTime(c, g); Guessing(c, s, key, g, now, false, [Checked(key, t), Failed(key, t)] + rest)
  {
    var t := NextTime(c, g);
    var es := [Checked(key, t), Failed(key, t)] + rest;
    EarliestGuess(c, s, key, g);
    assert es[1..] == [Failed(key, t)] + rest && es[1..][0] == Failed(key, t) && es[1..][1..] == rest;
    assert Guessing(c, s, key, g, t, true, es[1..]);
  }

  /** The bound is met: whenever the delays are shorter than the lifetime, guessing as early as
      possible is such a run, and takes just the sum of the delays. */
  lemma {:induction false} BoundIsMet(c: Config, s: State, key: string, g: Guesses, now: int, n: nat)
    requires IsConfig(c) && c.maxDelayMs < c.entryTtlMs && 0 < |key| <= 64 && g.count >= 0 && Holds(c, s, key, g)
    requires now <= NextTime(c, g)
    ensures Guessing(c, s, key, g, now, false, Earliest(c, key, g, n))
    ensures Count(g, key, Earliest(c, key, g, n))
         == Guesses(g.count + n, g.last + DelaysNs(c, g.count, g.count + n))
    decreases n
  {
    if n > 0 {
      var t := NextTime(c, g);
      var h := Guesses(g.count + 1, t);
      EarliestGuess(c, s, key, g);
      var u := Step(c, s, Failed(key, t));
      EarliestGuess(c, u, key, h);
      BoundIsMet(c, u, key, h, t, n - 1);
      OneRound(c, s, key, g, now, Earliest(c, key, h, n - 1));
      CountRound(c, key, g, Earliest(c, key, h, n - 1));
    }
  }

  lemma CountRound(c: Config, key: string, g: Guesses, rest: seq<Event>)
    requires 0 < |key| <= 64
    ensures var t := NextTime(c, g);
            Count(g, key, [Checked(key, t), Failed(key, t)] + rest) == Count(Guesses(g.count + 1, t), key, rest)
  {
    var t := NextTime(c, g);
    var es := [Checked(key, t), Failed(key, t)] + rest;
    assert es[1..][0] == Failed(key, t) && es[1..][1..] == rest;
    assert Count(g, key, es) == Count(g, key, es[1..]);
  }

  // ------------------------------------------------------------------- how it is forgiven

  /** After a success the account is admitted at every time, its next recorded failure is its
      first, and no other account has noticed. */
  lemma SuccessForgives(c: Config, s: State, username: string, now: int)
    requires Normalize(username) != ""
    ensures var t, key := AfterSuccess(s, username), Normalize(username);
      && !Decide(c, t.table, username, now).throttled
      && (key in AfterFailure(c, t, username, now).table ==> AfterFailure(c, t, username, now).table[key].failures == 1)
      && t.lastPrune == s.lastPrune
  {
  }

  lemma SuccessSparesOthers(c: Config, s: State, username: string, other: string, now: int)
    requires Normalize(other) != Normalize(username)
    ensures var t, key := AfterSuccess(s, username), Normalize(other);
      && (key in t.table <==> key in s.table) && (key in s.table ==> t.table[key] == s.table[key])
      && Decide(c, t.table, other, now) == Decide(c, s.table, other, now)
  {
  }

  /** A record as old as its lifetime is as good as none: the account is admitted, and its next
      recorded failure is its first. */
  lemma OldRecordIsForgotten(c: Config, s: State, username: string, now: int)
    requires var key := Normalize(username); key != "" && key in s.table && s.table[key].failures >= 1
    requires now - s.table[Normalize(username)].lastFailure >= c.entryTtlMs * 1_000_000
    ensures var key, t := Normalize(username), AfterFailure(c, s, username, now).table;
      && !Decide(c, s.table, username, now).throttled
      && (key in t && t[key].lastFailure == now && HasRoom(c, s.table, key, now) ==> t[key].failures == 1)
  {
  }

  /** The failures of an account in a run. */
  function FailuresOf(es: seq<Event>, key: string): nat {
    if es == [] then 0
    else
      var e := es[|es| - 1];
      FailuresOf(es[..|es| - 1], key) + if e.Failed? && Normalize(e.username) == key then 1 else 0
  }

  /** Where a record comes from: the last failure of the account, or an earlier step. */
  lemma RecordAfter(c: Config, s: State, e: Event, key: string)
    requires key in Step(c, s, e).table
    ensures var r := Step(c, s, e).table[key];
      if e.Failed? && Normalize(e.username) == key && key != ""
      then && r.lastFailure == e.now && r.nextAllowed == e.now + DelayFor(c, r.failures) * NS_PER_MS
           && (r.failures == 1 || (key in s.table && r.failures == s.table[key].failures + 1))
      else key in s.table && r == s.table[key]
  {
  }

  lemma {:induction false} RecordCountsFailures(c: Config, es: seq<Event>, key: string, now: int)
    requires key in After(c, EMPTY, es).table && forall e <- es :: e.now <= now
    ensures var r := After(c, EMPTY, es).table[key];
      1 <= r.failures <= FailuresOf(es, key) && r.lastFailure <= now
      && r.nextAllowed == r.lastFailure + DelayFor(c, r.failures) * NS_PER_MS
  {
    if es != [] {
      var fore, e := es[..|es| - 1], es[|es| - 1];
      assert e in es;
      RecordAfter(c, After(c, EMPTY, fore), e, key);
      if key in After(c, EMPTY, fore).table { RecordCountsFailures(c, fore, key, now); }
    }
  }

  /** As many failures as there are free attempts leave the account admitted, in every run. */
  lemma FreeAttemptsAreFree(c: Config, es: seq<Event>, username: string, now: int)
    requires FailuresOf(es, Normalize(username)) <= c.freeAttempts && forall e <- es :: e.now <= now
    ensures !Decide(c, After(c, EMPTY, es).table, username, now).throttled
  {
    var key, t := Normalize(username), After(c, EMPTY, es).table;
    if key in t {
      RecordCountsFailures(c, es, key, now);
      FreeAttemptsHaveNoDelay(c, t[key].failures);
    }
  }

  // ----------------------------------------------------------------- the announced wait

  function Shorter(a: int, b: int): int { if a < b then a else b }

  /** After a recorded failure the next attempt is refused for the delay or the
      time-to-live, whichever is shorter: an expired record is forgotten even if its delay
      is not over yet. */
  lemma RefusedFor(c: Config, s: State, username: string, failedAt: int, now: int)
    requires IsConfig(c) && Normalize(username) != "" && failedAt <= now
    requires Normalize(username) in AfterFailure(c, s, username, failedAt).table
    ensures var t := AfterFailure(c, s, username, failedAt).table;
            var delay := DelayFor(c, t[Normalize(username)].failures) * NS_PER_MS;
            Decide(c, t, username, now).throttled <==> now < failedAt + Shorter(delay, TtlNs(c))
  {
    FreshEntry(c, s, username, failedAt);
  }

  /** So the documented waits are all enforced in full exactly when the longest delay is
      not longer than the time-to-live; the environment may configure otherwise. */
  lemma FullWaitsEnforced(c: Config)
    requires IsConfig(c)
    ensures (forall k :: Shorter(DelayFor(c, k) * NS_PER_MS, TtlNs(c)) == DelayFor(c, k) * NS_PER_MS)
       <==> c.maxDelayMs <= c.entryTtlMs
  {
    var k := c.freeAttempts + 32;
    DelayIsExponential(c, k);
    Pow2Of30();
    assert Pow2(31) == 2 * Pow2(30);
    ProductBound(1, Pow2(31), c.baseDelayMs, Pow2(31));
    assert DelayFor(c, k) == c.maxDelayMs;
    if c.maxDelayMs <= c.entryTtlMs {
      forall j
        ensures Shorter(DelayFor(c, j) * NS_PER_MS, TtlNs(c)) == DelayFor(c, j) * NS_PER_MS
      {
        if j > c.freeAttempts { DelayIsExponential(c, j); }
      }
    } else {
      assert Shorter(DelayFor(c, k) * NS_PER_MS, TtlNs(c)) != DelayFor(c, k) * NS_PER_MS;
    }
  }

  /** One such environment: the first failure at a new account has a delay of 2 s and is
      forgotten, with its record, after 1 s. */
  lemma ShortLifetime()
    ensures var c := ConfigFromEnv(Number(0), Number(2000), Number(2000), Number(1000), Unset);
            var t := AfterFailure(c, EMPTY, "a", 0).table;
            && IsConfig(c) && DelayFor(c, 1) == 2000
            && "a" in t && t["a"].nextAllowed == 2000 * NS_PER_MS
            && Decide(c, t, "a", 1000 * NS_PER_MS - 1).throttled
            && !Decide(c, t, "a", 1000 * NS_PER_MS).throttled
  {
    var c := ConfigFromEnv(Number(0), Number(2000), Number(2000), Number(1000), Unset);
    DelayIsExponential(c, 1);
    assert Pow2(0) == 1;
    RecordedExactly(c, EMPTY, "a", 0);
    FreshEntry(c, EMPTY, "a", 0);
  }

  lemma RoundedSeconds(remainNs: int)
    requires remainNs > 0
    ensures RetrySeconds(remainNs) * NS_PER_S >= remainNs
       <==> remainNs % NS_PER_MS == 0 || remainNs / NS_PER_MS % 1000 != 0 || remainNs < NS_PER_MS
    ensures RetrySeconds(remainNs) * NS_PER_S > remainNs - NS_PER_MS
    ensures RetrySeconds(remainNs) == 1 || (RetrySeconds(remainNs) - 1) * NS_PER_S < remainNs
  {
    var ms := remainNs / NS_PER_MS;
    assert remainNs == ms * NS_PER_MS + remainNs % NS_PER_MS;
  }

  /** The whole seconds announced to a refused caller cover the time to `nextAllowed`
      exactly when that has no part below a millisecond, or its milliseconds are not a whole
      number of seconds, or it is below a millisecond altogether: the remaining time is cut
      to milliseconds before it is rounded up. They never miss it by a millisecond, and are
      never a second too many. */
  lemma AnnouncedWaitSuffices(c: Config, t: Table, username: string, now: int)
    requires Decide(c, t, username, now).throttled
    ensures var seconds := Decide(c, t, username, now).retryAfterSeconds;
            var remain := t[Normalize(username)].nextAllowed - now;
            && remain > 0
            && (seconds * NS_PER_S >= remain
                <==> remain % NS_PER_MS == 0 || remain / NS_PER_MS % 1000 != 0 || remain < NS_PER_MS)
            && seconds * NS_PER_S > remain - NS_PER_MS
            && (seconds == 1 || (seconds - 1) * NS_PER_S < remain)
  {
    RoundedSeconds(t[Normalize(username)].nextAllowed - now);
  }

  /** A caller who is told to wait one second and does is refused again: a nanosecond is
      left of the delay. */
  lemma WaitFallsShort()
    ensures var c := ConfigFromEnv(Number(0), Number(2000), Unset, Unset, Unset);
            var t, now := AfterFailure(c, EMPTY, "a", 0).table, NS_PER_S - 1;
            && "a" in t && t["a"].nextAllowed - now == 1_000_000_001
            && Decide(c, t, "a", now) == Decision(true, 1)
            && Decide(c, t, "a", now + NS_PER_S).throttled
  {
    var c := ConfigFromEnv(Number(0), Number(2000), Unset, Unset, Unset);
    DelayIsExponential(c, 1);
    assert Pow2(0) == 1;
    RecordedExactly(c, EMPTY, "a", 0);
    FreshEntry(c, EMPTY, "a", 0);
  }
}
