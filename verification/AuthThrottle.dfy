/** The per-account login back-off: exponential delays after failures, and how much they
    slow down serial guessing. Times are nanoseconds on a steady clock. */
module AuthThrottle {

  const NS_PER_MS := 1_000_000
  const NS_PER_S := 1_000_000_000

  // -------------------------------------------------------------------- configuration

  datatype Config = Config(freeAttempts: int, baseDelayMs: int, maxDelayMs: int, entryTtlMs: int, maxEntries: int)

  const DEFAULTS := Config(5, 1000, 30000, 15 * 60 * 1000, 20000)

  /** An environment variable: unset or not a number, or the number read from it. */
  datatype Env = Unset | Number(value: int)

  function EnvInt(raw: Env, fallback: int): int {
    if raw.Number? && raw.value >= 0 then raw.value else fallback
  }

  function ConfigFromEnv(free: Env, base: Env, max: Env, ttl: Env, entries: Env): (c: Config)
    ensures 0 <= c.freeAttempts <= 1000
    ensures 1 <= c.baseDelayMs <= 3_600_000
    ensures c.baseDelayMs <= c.maxDelayMs <= 86_400_000
    ensures 1000 <= c.entryTtlMs <= 86_400_000
    ensures 1 <= c.maxEntries <= 1_000_000
  {
    var d := DEFAULTS;
    var f := EnvInt(free, d.freeAttempts);
    var c1 := if f <= 1000 then d.(freeAttempts := f) else d;
    var b := EnvInt(base, d.baseDelayMs);
    var c2 := if 1 <= b <= 3600000 then c1.(baseDelayMs := b) else c1;
    var m := EnvInt(max, d.maxDelayMs);
    var c3 := if 1 <= m <= 24 * 3600 * 1000 then c2.(maxDelayMs := m) else c2;
    var c4 := if c3.maxDelayMs < c3.baseDelayMs then c3.(maxDelayMs := c3.baseDelayMs) else c3;
    var t := EnvInt(ttl, d.entryTtlMs);
    var c5 := if 1000 <= t <= 24 * 3600 * 1000 then c4.(entryTtlMs := t) else c4;
    var e := EnvInt(entries, d.maxEntries);
    if 1 <= e <= 1000000 then c5.(maxEntries := e) else c5
  }

  predicate IsConfig(c: Config) {
    && 0 <= c.freeAttempts <= 1000 && 1 <= c.baseDelayMs <= 3_600_000
    && c.baseDelayMs <= c.maxDelayMs <= 86_400_000
    && 1000 <= c.entryTtlMs <= 86_400_000 && 1 <= c.maxEntries <= 1_000_000
  }

  // --------------------------------------------------------------------------- delays

  function Pow2(n: nat): nat { if n == 0 then 1 else 2 * Pow2(n - 1) }

  /** A left shift of a 64-bit signed number, with wrap-around. */
  function Shl64(x: int, n: nat): int {
    var y := (x * Pow2(n)) % 0x1_0000_0000_0000_0000;
    if y < 0x8000_0000_0000_0000 then y else y - 0x1_0000_0000_0000_0000
  }

  function DelayFor(c: Config, failures: int): int {
    if failures <= c.freeAttempts then 0
    else
      var e := failures - c.freeAttempts - 1;
      var e' := if e < 0 then 0 else if e > 30 then 30 else e;
      var delay := Shl64(c.baseDelayMs, e');
      if delay > c.maxDelayMs || delay < 0 then c.maxDelayMs else delay
  }

  lemma {:induction false} Pow2Grows(a: nat, b: nat)
    requires a <= b
    ensures 1 <= Pow2(a) <= Pow2(b)
  {
    if a < b {
      Pow2Grows(a, b - 1);
    } else if a > 0 {
      Pow2Grows(a - 1, b - 1);
    }
  }

  lemma Pow2Of30()
    ensures Pow2(30) == 0x4000_0000
  {
    assert Pow2(10) == 1024;
    assert Pow2(20) == 1024 * 1024 by { assert Pow2(15) == 32 * 1024; }
    assert Pow2(25) == 32 * Pow2(20);
  }

  /** For every configuration the environment can produce, the clamped and shifted delay is
      the documented min(base * 2^(k - free - 1), max), and the shift never overflows. */
  lemma DelayIsExponential(c: Config, k: int)
    requires IsConfig(c) && k > c.freeAttempts
    ensures var full := c.baseDelayMs * Pow2(k - c.freeAttempts - 1);
            DelayFor(c, k) == if full < c.maxDelayMs then full else c.maxDelayMs
    ensures 1 <= DelayFor(c, k) <= c.maxDelayMs
    ensures var e: nat := if k - c.freeAttempts - 1 > 30 then 30 else k - c.freeAttempts - 1;
            Shl64(c.baseDelayMs, e) == c.baseDelayMs * Pow2(e) < 0x8000_0000_0000_0000
  {
    var e: nat := k - c.freeAttempts - 1;
    var e' := if e > 30 then 30 else e;
    Pow2Grows(e', 30);
    Pow2Of30();
    ProductBound(c.baseDelayMs, Pow2(e'), 3_600_000, 0x4000_0000);
    assert Shl64(c.baseDelayMs, e') == c.baseDelayMs * Pow2(e');
    if e > 30 {
      Pow2Grows(30, e);
      ProductBound(1, 0x4000_0000, c.baseDelayMs, Pow2(e));
      ProductBound(1, 0x4000_0000, c.baseDelayMs, Pow2(30));
    }
  }

  lemma ProductBound(a: int, b: int, x: int, y: int)
    requires 1 <= a <= x && 1 <= b <= y
    ensures 1 <= a * b <= x * y
  {
    assert a * b <= x * b <= x * y;
  }

  /** The free attempts have no delay. */
  lemma FreeAttemptsHaveNoDelay(c: Config, k: int)
    ensures k <= c.freeAttempts ==> DelayFor(c, k) == 0
  {
  }

  /** What the environment asks for when it is within the bounds, and the default otherwise. */
  function Asked(raw: Env, lo: int, hi: int, fallback: int): int {
    if raw.Number? && lo <= raw.value <= hi then raw.value else fallback
  }

  /** Each field is what the environment asks for, and the maximum is raised to the base. */
  lemma ConfigByField(free: Env, base: Env, max: Env, ttl: Env, entries: Env)
    ensures var c := ConfigFromEnv(free, base, max, ttl, entries);
      && c.freeAttempts == Asked(free, 0, 1000, 5)
      && c.baseDelayMs == Asked(base, 1, 3_600_000, 1000)
      && c.entryTtlMs == Asked(ttl, 1000, 86_400_000, 900_000)
      && c.maxEntries == Asked(entries, 1, 1_000_000, 20_000)
  {
  }

  lemma MaximumDelayByField(free: Env, base: Env, max: Env, ttl: Env, entries: Env)
    ensures var b, m := Asked(base, 1, 3_600_000, 1000), Asked(max, 1, 86_400_000, 30_000);
            ConfigFromEnv(free, base, max, ttl, entries).maxDelayMs == if m < b then b else m
  {
  }

  /** Later failures never wait less. */
  lemma DelayGrows(c: Config, j: int, k: int)
    requires IsConfig(c) && j <= k
    ensures 0 <= DelayFor(c, j) <= DelayFor(c, k)
  {
    if j > c.freeAttempts {
      DelayIsExponential(c, j);
      DelayIsExponential(c, k);
      Pow2Grows(j - c.freeAttempts - 1, k - c.freeAttempts - 1);
      ProductBound(c.baseDelayMs, Pow2(j - c.freeAttempts - 1), c.baseDelayMs, Pow2(k - c.freeAttempts - 1));
    } else if k > c.freeAttempts {
      DelayIsExponential(c, k);
    }
  }

  // --------------------------------------------------------------------------- the table

  datatype Entry = Entry(failures: int, lastFailure: int, nextAllowed: int)
  type Table = map<string, Entry>
  datatype Decision = Decision(throttled: bool, retryAfterSeconds: nat)

  const KEY_LENGTH := 64

  /** Accounts are told apart by the first 64 characters of their names. */
  function Normalize(username: string): (key: string)
    ensures key <= username && (|username| <= 64 ==> key == username) && (|username| > 64 ==> |key| == 64)
  {
    if |username| <= KEY_LENGTH then username else username[..KEY_LENGTH]
  }

  function TtlNs(c: Config): int { c.entryTtlMs * NS_PER_MS }

  predicate Expired(c: Config, e: Entry, now: int) { now - e.lastFailure >= TtlNs(c) }

  function RetrySeconds(remainNs: int): nat
    requires remainNs > 0
  {
    var remainMs := remainNs / NS_PER_MS;
    if (remainMs + 999) / 1000 < 1 then 1 else (remainMs + 999) / 1000
  }

  function Decide(c: Config, t: Table, username: string, now: int): Decision {
    var k := Normalize(username);
    if k == "" || k !in t || Expired(c, t[k], now) || now >= t[k].nextAllowed then Decision(false, 0)
    else Decision(true, RetrySeconds(t[k].nextAllowed - now))
  }

  function AfterCheck(c: Config, t: Table, username: string, now: int): Table {
    var k := Normalize(username);
    if k in t && k != "" && Expired(c, t[k], now) then t - {k} else t
  }

  function Pruned(c: Config, t: Table, now: int): Table {
    map k | k in t && !Expired(c, t[k], now) :: t[k]
  }

  function NextEntry(c: Config, e: Entry, now: int): Entry {
    var n := if e.failures > 0 && Expired(c, e, now) then 0 else e.failures;
    Entry(n + 1, now, now + DelayFor(c, n + 1) * NS_PER_MS)
  }

  /** The program keeps its state in two static variables: the table, and when it was last pruned. */
  datatype State = State(table: Table, lastPrune: int)

  function AfterFailure(c: Config, s: State, username: string, now: int): State {
    var k := Normalize(username);
    if k == "" then s
    else
      var skip := (now - s.lastPrune) / NS_PER_MS < 1000 && |s.table| < c.maxEntries;
      var p := if skip then s else State(Pruned(c, s.table, now), now);
      if k !in p.table && |p.table| >= c.maxEntries then p
      else
        var e := if k in p.table then p.table[k] else Entry(0, 0, 0);
        p.(table := p.table[k := NextEntry(c, e, now)])
  }

  function AfterSuccess(s: State, username: string): State {
    if Normalize(username) == "" then s else s.(table := s.table - {Normalize(username)})
  }

  class AuthThrottle {
    const cfg: Config
    var entries: Table
    var lastPrune: int

    constructor (c: Config)
      ensures cfg == c && St() == State(map[], 0)
    {
      cfg, entries, lastPrune := c, map[], 0;
    }

    function St(): State
      reads this
    {
      State(entries, lastPrune)
    }

    method Check(username: string, now: int) returns (d: Decision)
      modifies this`entries
      ensures d == Decide(cfg, old(entries), username, now)
      ensures entries == AfterCheck(cfg, old(entries), username, now)
    {
      d := Decision(false, 0);
      var key := Normalize(username);
      if key == "" || key !in entries {
        return;
      }
      var e := entries[key];
      if now - e.lastFailure >= cfg.entryTtlMs * NS_PER_MS {
        entries := entries - {key};
        return;
      }
      if now < e.nextAllowed {
        var remainMs := (e.nextAllowed - now) / NS_PER_MS;
        var seconds := (remainMs + 999) / 1000;
        d := Decision(true, if seconds < 1 then 1 else seconds);
      }
    }

    method PruneIfNeeded(now: int)
      modifies this`entries, this`lastPrune
      ensures St() == if (now - old(lastPrune)) / NS_PER_MS < 1000 && |old(entries)| < cfg.maxEntries
                      then old(St()) else State(Pruned(cfg, old(entries), now), now)
    {
      if (now - lastPrune) / NS_PER_MS < 1000 && |entries| < cfg.maxEntries {
        return;
      }
      lastPrune := now;
      var todo := entries.Keys;
      while todo != {}
        invariant todo <= entries.Keys <= old(entries).Keys && lastPrune == now
        invariant forall k :: k in entries ==> entries[k] == old(entries)[k]
        invariant forall k :: k in old(entries) && k !in todo ==>
                    (k in entries <==> !Expired(cfg, old(entries)[k], now))
        decreases todo
      {
        var k :| k in todo;
        if now - entries[k].lastFailure >= cfg.entryTtlMs * NS_PER_MS {
          entries := entries - {k};
        }
        todo := todo - {k};
      }
      assert entries == Pruned(cfg, old(entries), now);
    }

    method OnFailure(username: string, now: int)
      modifies this`entries, this`lastPrune
      ensures St() == AfterFailure(cfg, old(St()), username, now)
    {
      var key := Normalize(username);
      if key == "" {
        return;
      }
      PruneIfNeeded(now);
      if key !in entries {
        if |entries| >= cfg.maxEntries {
          return;
        }
      }
      var e := if key in entries then entries[key] else Entry(0, 0, 0);
      var failures := e.failures;
      if failures > 0 && now - e.lastFailure >= cfg.entryTtlMs * NS_PER_MS {
        failures := 0;
      }
      failures := failures + 1;
      entries := entries[key := Entry(failures, now, now + DelayFor(cfg, failures) * NS_PER_MS)];
    }

    method OnSuccess(username: string)
      modifies this`entries
      ensures St() == AfterSuccess(old(St()), username)
    {
      var key := Normalize(username);
      if key != "" {
        entries := entries - {key};
      }
    }
  }
}
