/** The bounded table of windows per source address that both IP throttles keep, against
    the full log of recorded events per address. */
module IpTable {
  import opened Window
  import opened Drain
  import opened Sets

  type Ip = i: nat | i < 0x1_0000_0000

  /** Logged events at or above the limit in the window of time ms. */
  predicate OverLimit(log: seq<int>, slotMs: int, limit: nat, ms: int)
    requires slotMs > 0
  {
    LiveCount(log, slotMs, BucketOf(ms, slotMs)) >= limit
  }

  /** What a throttled caller is told, in terms of the log alone: throttled at every moment
      up to a second before the announced wait is over, admitted from then on. */
  ghost predicate WaitIsExact(log: seq<int>, slotMs: int, ms: int, limit: nat, seconds: nat)
    requires slotMs > 0
  {
    && 1 <= seconds <= (SLOTS * slotMs + 999) / 1000
    && (forall t :: ms <= t <= ms + (seconds - 1) * 1000 ==> OverLimit(log, slotMs, limit, t))
    && (forall t :: ms + seconds * 1000 <= t ==> !OverLimit(log, slotMs, limit, t))
  }

  type Logs = map<Ip, seq<int>>

  function LogIn(logs: Logs, ip: Ip): seq<int> { if ip in logs then logs[ip] else [] }

  /** The addresses with an event in the window of time ms. */
  function Live(logs: Logs, slotMs: int, ms: int): set<Ip>
    requires slotMs > 0
  {
    set ip | ip in logs && LiveCount(logs[ip], slotMs, BucketOf(ms, slotMs)) > 0
  }

  /** Whether an event of this address will be recorded, in terms of the logs alone. */
  predicate HasRoom(logs: Logs, slotMs: int, maxEntries: nat, ip: Ip, ms: int)
    requires slotMs > 0
  {
    ip in Live(logs, slotMs, ms) || |Live(logs, slotMs, ms)| < maxEntries
  }

  lemma WaitFromRing(w: Ring, log: seq<int>, slotMs: int, ms: int, limit: nat, seconds: nat)
    requires slotMs > 0 && limit <= CAP && Tracks(w, log, slotMs, BucketOf(ms, slotMs))
    requires RetryIsExact(w, slotMs, ms, limit, seconds)
    ensures WaitIsExact(log, slotMs, ms, limit, seconds)
  {
    forall t | ms <= t
      ensures OverLimit(log, slotMs, limit, t) <==> WindowSum(w, BucketOf(t, slotMs)) >= limit
    {
      BucketMonotone(ms, t, slotMs);
      RingRefinesLog(w, log, slotMs, BucketOf(ms, slotMs), BucketOf(t, slotMs), limit);
    }
  }

  class IpTable {
    const windowMs: int
    const maxEntries: nat
    const slotMs: int
    var entries: map<Ip, Ring>
    var lastPrune: int
    /** Every event ever recorded, per address, and the latest time the table has seen. */
    ghost var logs: Logs
    ghost var clock: int

    ghost function LogOf(ip: Ip): seq<int>
      reads this`logs
    {
      LogIn(logs, ip)
    }

    ghost predicate TracksAt(ip: Ip, now: int)
      requires slotMs > 0
      reads this`entries, this`logs
    {
      if ip in entries then Tracks(entries[ip], LogOf(ip), slotMs, now)
      else LoggedBy(LogOf(ip), slotMs, now) && LiveCount(LogOf(ip), slotMs, now) == 0
    }

    /** Whatever has been pruned or erased, the table still answers like the full logs. */
    ghost predicate Valid()
      reads this`entries, this`logs, this`clock
    {
      && slotMs == SlotDurationMs(windowMs)
      && |entries| <= maxEntries
      && forall ip: Ip :: TracksAt(ip, BucketOf(clock, slotMs))
    }

    constructor (windowMs: int, maxEntries: nat, start: int)
      ensures Valid() && clock == start && logs == map[]
      ensures this.windowMs == windowMs && this.maxEntries == maxEntries
    {
      this.windowMs, this.maxEntries, slotMs := windowMs, maxEntries, SlotDurationMs(windowMs);
      entries, lastPrune, logs, clock := map[], 0, map[], start;
    }

    twostate lemma Later(ms: int)
      requires old(Valid()) && old(clock) <= ms && entries == old(entries) && logs == old(logs)
      ensures forall ip: Ip :: TracksAt(ip, BucketOf(ms, slotMs))
    {
      BucketMonotone(old(clock), ms, slotMs);
      forall ip: Ip
        ensures TracksAt(ip, BucketOf(ms, slotMs))
      {
        assert old(TracksAt(ip, BucketOf(clock, slotMs)));
        if ip in entries {
          TracksLater(entries[ip], LogOf(ip), slotMs, BucketOf(old(clock), slotMs), BucketOf(ms, slotMs));
        } else {
          LiveFalls(LogOf(ip), slotMs, BucketOf(old(clock), slotMs), BucketOf(ms, slotMs));
        }
      }
    }

    lemma LogUntil(ip: Ip, ms: int)
      requires Valid() && clock <= ms
      ensures LoggedBy(LogOf(ip), slotMs, BucketOf(ms, slotMs))
    {
      assert TracksAt(ip, BucketOf(clock, slotMs));
      BucketMonotone(clock, ms, slotMs);
    }

    /** The clock moves on; nothing else changes. */
    ghost method Advance(ms: int)
      requires Valid() && clock <= ms
      modifies this`clock
      ensures Valid() && clock == ms
    {
      clock := ms;
      Later(ms);
    }

    /** Erasing an entry without live events changes no answer. */
    method Erase(ip: Ip)
      requires Valid() && ip in entries && LiveCount(LogOf(ip), slotMs, BucketOf(clock, slotMs)) == 0
      modifies this`entries
      ensures Valid() && entries == old(entries) - {ip}
    {
      label before:
      entries := entries - {ip};
      forall q: Ip
        ensures TracksAt(q, BucketOf(clock, slotMs))
      {
        assert old@before(TracksAt(q, BucketOf(clock, slotMs)));
      }
    }

    method Prune(cur: int)
      requires Valid() && cur == BucketOf(clock, slotMs)
      modifies this`entries
      ensures Valid() && entries.Keys <= old(entries.Keys)
      ensures forall ip :: ip in entries ==> TracksAt(ip, cur) && WindowSum(entries[ip], cur) > 0
    {
      var todo := entries.Keys;
      while todo != {}
        invariant Valid() && todo <= entries.Keys <= old(entries.Keys)
        invariant forall ip :: ip in entries ==> TracksAt(ip, cur)
        invariant forall ip :: ip in entries && ip !in todo ==> WindowSum(entries[ip], cur) > 0
        decreases todo
      {
        var ip :| ip in todo;
        todo := todo - {ip};
        var sum := ComputeWindowSum(entries[ip], cur);
        RingRefinesLog(entries[ip], LogOf(ip), slotMs, cur, cur, 0);
        if sum == 0 {
          Erase(ip);
        }
      }
    }

    /** At most once a second, and whenever the table is full. */
    method PruneIfNeeded(ms: int)
      requires Valid() && clock == ms
      modifies this`entries, this`lastPrune
      ensures Valid() && entries.Keys <= old(entries.Keys)
      ensures |entries| >= maxEntries ==>
                forall ip :: ip in entries ==> LiveCount(LogOf(ip), slotMs, BucketOf(ms, slotMs)) > 0
    {
      if ms - lastPrune < 1000 && |entries| < maxEntries {
        return;
      }
      lastPrune := ms;
      var cur := BucketOf(ms, slotMs);
      Prune(cur);
      forall ip | ip in entries
        ensures LiveCount(LogOf(ip), slotMs, cur) > 0
      {
        assert TracksAt(ip, cur);
        RingRefinesLog(entries[ip], LogOf(ip), slotMs, cur, cur, 0);
      }
    }

    /** The decision is the one the full log of the address would give, whatever has been
        pruned; no log changes. */
    method Check(ip: Ip, limit: int, ms: int) returns (d: Decision)
      requires Valid() && clock <= ms && limit <= CAP
      modifies this`entries, this`clock
      ensures Valid() && clock == ms && entries.Keys <= old(entries.Keys)
      ensures !d.global
      ensures d.throttled <==> limit > 0 && OverLimit(LogOf(ip), slotMs, limit, ms)
      ensures d.throttled ==> WaitIsExact(LogOf(ip), slotMs, ms, limit, d.retryAfterSeconds)
      ensures !d.throttled ==> d == ADMITTED
    {
      Advance(ms);
      var cur := BucketOf(ms, slotMs);
      assert TracksAt(ip, cur);
      if ip !in entries {
        return ADMITTED;
      }
      var sum := ComputeWindowSum(entries[ip], cur);
      RingRefinesLog(entries[ip], LogOf(ip), slotMs, cur, cur, if limit > 0 then limit else 0);
      if sum == 0 {
        Erase(ip);
        return ADMITTED;
      }
      d := Evaluate(entries[ip], limit, windowMs, ms);
      if d.throttled {
        WaitFromRing(entries[ip], LogOf(ip), slotMs, ms, limit, d.retryAfterSeconds);
      }
    }

    /** The live addresses have an entry, and in a full table there are no other entries. */
    lemma LiveIsKept(ms: int)
      requires Valid() && clock == ms
      requires |entries| >= maxEntries ==>
                 forall ip :: ip in entries ==> LiveCount(LogOf(ip), slotMs, BucketOf(ms, slotMs)) > 0
      ensures Live(logs, slotMs, ms) <= entries.Keys && |Live(logs, slotMs, ms)| <= |entries|
      ensures |entries| >= maxEntries ==> Live(logs, slotMs, ms) == entries.Keys
    {
      forall ip | ip in Live(logs, slotMs, ms)
        ensures ip in entries
      {
        assert TracksAt(ip, BucketOf(clock, slotMs));
      }
      SubsetIsSmaller(Live(logs, slotMs, ms), entries.Keys);
      if |entries| >= maxEntries {
        forall ip | ip in entries
          ensures ip in Live(logs, slotMs, ms)
        {
          assert LiveCount(LogOf(ip), slotMs, BucketOf(ms, slotMs)) > 0;
        }
      }
    }

    /** Records one event, unless the address is new and the table is full of addresses
        with a live event. */
    method Record(ip: Ip, ms: int) returns (recorded: bool)
      requires Valid() && clock <= ms
      modifies this
      ensures Valid() && clock == ms
      ensures logs == if recorded then old(logs)[ip := old(LogOf(ip)) + [ms]] else old(logs)
      ensures recorded <==> HasRoom(old(logs), slotMs, maxEntries, ip, ms)
    {
      Advance(ms);
      PruneIfNeeded(ms);
      LiveIsKept(ms);
      var cur := BucketOf(ms, slotMs);
      assert cur == BucketOf(clock, slotMs);
      assert TracksAt(ip, cur);
      if ip !in entries {
        if |entries| >= maxEntries {
          return false;
        }
        FreshTracks(LogOf(ip), slotMs, cur);
        AddEntry(ip, Fresh(), LogOf(ip));
      }
      BumpTracks(entries[ip], LogOf(ip), slotMs, ms);
      AddEntry(ip, Bump(entries[ip], cur), LogOf(ip) + [ms]);
      recorded := true;
    }

    method AddEntry(ip: Ip, w: Ring, ghost log: seq<int>)
      requires Valid() && (ip in entries || |entries| < maxEntries)
      requires Tracks(w, log, slotMs, BucketOf(clock, slotMs))
      modifies this`entries, this`logs
      ensures Valid() && entries == old(entries)[ip := w] && logs == old(logs)[ip := log]
    {
      label before:
      entries := entries[ip := w];
      logs := logs[ip := log];
      forall q: Ip
        ensures TracksAt(q, BucketOf(clock, slotMs))
      {
        assert old@before(TracksAt(q, BucketOf(clock, slotMs)));
      }
    }
  }

  lemma LiveFalls(log: seq<int>, slotMs: int, now: int, later: int)
    requires slotMs > 0 && now <= later && LoggedBy(log, slotMs, now)
    ensures LiveCount(log, slotMs, later) <= LiveCount(log, slotMs, now)
  {
    if later < now + SLOTS {
      CountSplit(log, slotMs, later - SLOTS + 1, now, later);
      CountNone(log, slotMs, now + 1, later);
      CountSplit(log, slotMs, now - SLOTS + 1, later - SLOTS, now);
    } else {
      CountNone(log, slotMs, later - SLOTS + 1, later);
    }
  }
}
