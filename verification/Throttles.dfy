/** The per-address login throttle, the registration throttle, and the place where the
    server registers an account. */
module Throttles {
  import opened Window
  import opened Drain
  import opened IpTable
  import opened Quota
  import opened Registrations

  type CInt = i: int | -0x8000_0000 <= i < 0x8000_0000

  /** Failed logins per source address. */
  class IpThrottle {
    const maxFailures: CInt
    const table: IpTable

    constructor (maxFailures: CInt, windowMs: int, maxEntries: nat, start: int)
      ensures fresh(table) && table.Valid() && table.clock == start && table.logs == map[]
      ensures this.maxFailures == maxFailures && table.windowMs == windowMs && table.maxEntries == maxEntries
    {
      this.maxFailures := maxFailures;
      table := new IpTable(windowMs, maxEntries, start);
    }

    /** Unknown sources are never throttled; the others by their recorded failures: always
        with the limit reached within the last four fifths of the window, never without it
        being reached within the whole. */
    method Check(ip: Ip, ms: int) returns (d: Decision)
      requires table.Valid() && table.clock <= ms
      modifies table
      ensures table.Valid() && table.clock <= ms && table.logs == old(table.logs)
      ensures d.throttled <==> ip != 0 && OverLimit(table.LogOf(ip), table.slotMs, Threshold(maxFailures), ms)
      ensures d.throttled ==>
                WaitIsExact(table.LogOf(ip), table.slotMs, ms, Threshold(maxFailures), d.retryAfterSeconds)
      ensures var log, limit := table.LogOf(ip), Threshold(maxFailures);
        ip != 0 && table.windowMs >= 5 ==>
          && (CountSince(log, ms - 4 * (table.windowMs / 5)) >= limit ==> d.throttled)
          && (CountSince(log, ms - table.windowMs + 1) < limit ==> !d.throttled)
    {
      table.LogUntil(ip, ms);
      if table.windowMs >= 5 {
        WindowInMs(table.LogOf(ip), table.windowMs, ms);
      }
      if ip == 0 {
        return ADMITTED;
      }
      d := table.Check(ip, Threshold(maxFailures), ms);
    }

    /** A failure is recorded, except from an unknown source or from a new address while
        the table is full of addresses with a live failure. */
    method OnFailure(ip: Ip, ms: int) returns (recorded: bool)
      requires table.Valid() && table.clock <= ms
      modifies table
      ensures table.Valid() && table.clock <= ms
      ensures table.logs == if recorded then old(table.logs)[ip := old(table.LogOf(ip)) + [ms]] else old(table.logs)
      ensures recorded <==> ip != 0 && HasRoom(old(table.logs), table.slotMs, table.maxEntries, ip, ms)
    {
      if ip == 0 {
        return false;
      }
      recorded := table.Record(ip, ms);
    }
  }

  /** Registrations per source address and over the whole process. */
  class RegThrottle {
    const ipMax: CInt
    const globalMax: CInt
    const globalWindowMs: int
    const slotMs: int
    const table: IpTable
    var globalWindow: Ring
    ghost var globalLog: seq<int>
    ghost var clock: int

    ghost predicate Valid()
      reads this, table
    {
      && slotMs == SlotDurationMs(globalWindowMs)
      && table.Valid() && table.clock <= clock
      && Tracks(globalWindow, globalLog, slotMs, BucketOf(clock, slotMs))
    }

    constructor (ipMax: CInt, ipWindowMs: int, globalMax: CInt, globalWindowMs: int, maxEntries: nat, start: int)
      ensures Valid() && fresh(table) && clock == start && globalLog == [] && table.logs == map[]
      ensures Settings() == Limits(ipMax, SlotDurationMs(ipWindowMs), globalMax,
                                   SlotDurationMs(globalWindowMs), maxEntries)
      ensures this.globalWindowMs == globalWindowMs && table.windowMs == ipWindowMs
      ensures QuotasKept()
    {
      this.ipMax, this.globalMax, this.globalWindowMs := ipMax, globalMax, globalWindowMs;
      slotMs := SlotDurationMs(globalWindowMs);
      table := new IpTable(ipWindowMs, maxEntries, start);
      globalWindow, globalLog, clock := Fresh(), [], start;
      new;
      FreshTracks([], slotMs, BucketOf(start, slotMs));
    }

    ghost function Settings(): Limits
      reads this
    {
      Limits(ipMax, table.slotMs, globalMax, slotMs, table.maxEntries)
    }

    ghost function Hist(): History
      reads this, table
    {
      History(globalLog, table.logs)
    }

    ghost method Advance(ms: int)
      requires Valid() && clock <= ms
      modifies this`clock
      ensures Valid() && clock == ms
    {
      BucketMonotone(clock, ms, slotMs);
      TracksLater(globalWindow, globalLog, slotMs, BucketOf(clock, slotMs), BucketOf(ms, slotMs));
      clock := ms;
    }

    /** Throttled exactly when one of the two enabled dimensions is over its limit, which it
        is whenever the limit is reached within the last four fifths of its window, and only
        if it is reached within the whole; the announced wait is exact for the dimension that
        is reported. */
    method Check(ip: Ip, ms: int) returns (d: Decision)
      requires Valid() && clock <= ms
      modifies this`clock, table
      ensures Valid() && clock == ms && Hist() == old(Hist())
      ensures d.throttled <==> GloballyOver(Settings(), Hist(), ms) || LocallyOver(Settings(), Hist(), ip, ms)
      ensures d.global <==> GloballyOver(Settings(), Hist(), ms)
      ensures d.global ==> WaitIsExact(globalLog, slotMs, ms, globalMax, d.retryAfterSeconds)
      ensures d.throttled && !d.global ==>
                WaitIsExact(table.LogOf(ip), table.slotMs, ms, ipMax, d.retryAfterSeconds)
      ensures globalMax > 0 && globalWindowMs >= 5 ==>
        && (CountSince(globalLog, ms - 4 * (globalWindowMs / 5)) >= globalMax ==> d.global)
        && (CountSince(globalLog, ms - globalWindowMs + 1) < globalMax ==> !d.global)
      ensures ip != 0 && ipMax > 0 && table.windowMs >= 5 ==>
        && (CountSince(table.LogOf(ip), ms - 4 * (table.windowMs / 5)) >= ipMax ==> d.throttled)
        && (CountSince(table.LogOf(ip), ms - table.windowMs + 1) < ipMax ==> d.throttled == d.global)
    {
      WindowsInMs(ip, ms);
      Advance(ms);
      if globalMax > 0 {
        d := Evaluate(globalWindow, globalMax, globalWindowMs, ms);
        RingRefinesLog(globalWindow, globalLog, slotMs, BucketOf(ms, slotMs), BucketOf(ms, slotMs), globalMax);
        if d.throttled {
          WaitFromRing(globalWindow, globalLog, slotMs, ms, globalMax, d.retryAfterSeconds);
          d := d.(global := true);
          return;
        }
      }
      if ip == 0 || ipMax <= 0 {
        return ADMITTED;
      }
      d := table.Check(ip, ipMax, ms);
    }

    /** An attempt counts globally, and under its address if that is known and has room. */
    method OnAttempt(ip: Ip, ms: int) returns (recorded: bool)
      requires Valid() && clock <= ms
      modifies this, table
      ensures Valid() && clock == ms
      ensures globalLog == if globalMax > 0 then old(globalLog) + [ms] else old(globalLog)
      ensures table.logs == if recorded then old(table.logs)[ip := old(table.LogOf(ip)) + [ms]] else old(table.logs)
      ensures recorded <==>
                ip != 0 && ipMax > 0 && HasRoom(old(table.logs), table.slotMs, table.maxEntries, ip, ms)
      ensures Hist() == AfterAttempt(Settings(), old(Hist()), ip, ms)
    {
      Advance(ms);
      if globalMax > 0 {
        BumpTracks(globalWindow, globalLog, slotMs, ms);
        globalWindow := Bump(globalWindow, BucketOf(ms, slotMs));
        globalLog := globalLog + [ms];
      }
      if ip == 0 || ipMax <= 0 {
        return false;
      }
      recorded := table.Record(ip, ms);
    }

    /** Both quotas hold over the whole history. */
    ghost predicate QuotasKept()
      requires slotMs > 0 && table.slotMs > 0
      reads this, table
    {
      Kept(Settings(), Hist())
    }

    lemma HistIsLogged(ms: int)
      requires Valid() && clock <= ms
      ensures LoggedUntil(Settings(), Hist(), ms)
    {
      BucketMonotone(clock, ms, slotMs);
      forall ip: Ip
        ensures LoggedBy(LogIn(table.logs, ip), table.slotMs, BucketOf(ms, table.slotMs))
      {
        assert table.TracksAt(ip, BucketOf(table.clock, table.slotMs));
        BucketMonotone(table.clock, ms, table.slotMs);
      }
    }

    /** The two windows of time ms, in milliseconds. */
    lemma WindowsInMs(ip: Ip, ms: int)
      requires Valid() && clock <= ms
      ensures globalMax > 0 && globalWindowMs >= 5 ==>
        && (CountSince(globalLog, ms - 4 * (globalWindowMs / 5)) >= globalMax ==> GloballyOver(Settings(), Hist(), ms))
        && (CountSince(globalLog, ms - globalWindowMs + 1) < globalMax ==> !GloballyOver(Settings(), Hist(), ms))
      ensures ip != 0 && ipMax > 0 && table.windowMs >= 5 ==>
        && (CountSince(table.LogOf(ip), ms - 4 * (table.windowMs / 5)) >= ipMax ==>
              LocallyOver(Settings(), Hist(), ip, ms))
        && (CountSince(table.LogOf(ip), ms - table.windowMs + 1) < ipMax ==> !LocallyOver(Settings(), Hist(), ip, ms))
    {
      HistIsLogged(ms);
      if globalWindowMs >= 5 {
        WindowInMs(globalLog, globalWindowMs, ms);
      }
      if table.windowMs >= 5 {
        assert LoggedBy(LogIn(table.logs, ip), table.slotMs, BucketOf(ms, table.slotMs));
        WindowInMs(table.LogOf(ip), table.windowMs, ms);
      }
    }

    /** The server's registration step: check, then the password policy, then record, all
        with one reading of the clock. Every sequence of these steps keeps both quotas. */
    method Register(ip: Ip, ms: int, policyOk: bool) returns (accepted: bool)
      requires Valid() && clock <= ms && QuotasKept()
      modifies this, table
      ensures Valid() && clock == ms && QuotasKept()
      ensures accepted <==> Admits(Settings(), old(Hist()), Request(ip, ms, policyOk))
      ensures accepted ==> policyOk
      ensures globalWindowMs >= 5 && table.windowMs >= 5 && policyOk
              && (globalMax > 0 ==> CountSince(old(globalLog), ms - globalWindowMs + 1) < globalMax)
              && (ip != 0 && ipMax > 0 ==> CountSince(old(table.LogOf(ip)), ms - table.windowMs + 1) < ipMax)
              ==> accepted
      ensures Hist() == AfterRequest(Settings(), old(Hist()), Request(ip, ms, policyOk))
    {
      HistIsLogged(ms);
      RequestKeepsQuotas(Settings(), Hist(), Request(ip, ms, policyOk));
      var d := Check(ip, ms);
      if d.throttled {
        return false;
      }
      if !policyOk {
        return false;
      }
      var _ := OnAttempt(ip, ms);
      return true;
    }
  }

  /** From the start of the process on, for whatever requests come in time order: history
      and decisions are those of the specification, so that everything proved of its runs
      holds here. Both quotas are kept in every window of five slots, the global one over the
      accepted requests, that of an address over those for which there was room. */
  method ServeRegistrations(ipMax: CInt, ipWindowMs: int, globalMax: CInt, globalWindowMs: int, maxEntries: nat,
                            start: int, reqs: seq<Request>)
    returns (r: RegThrottle, accepted: seq<bool>)
    requires forall i :: 0 <= i < |reqs| ==> start <= reqs[i].ms
    requires RequestsInOrder(reqs)
    ensures fresh(r) && r.Valid() && r.QuotasKept()
    ensures r.Settings() == Limits(ipMax, SlotDurationMs(ipWindowMs), globalMax,
                                        SlotDurationMs(globalWindowMs), maxEntries)
    ensures r.Hist() == HistoryOf(r.Settings(), reqs) && accepted == Decisions(r.Settings(), reqs)
    ensures globalMax > 0 ==> r.globalLog == AcceptedTimes(r.Settings(), reqs)
    ensures forall ip: Ip :: r.table.LogOf(ip) == NotedFrom(r.Settings(), reqs, ip)
  {
    r := new RegThrottle(ipMax, ipWindowMs, globalMax, globalWindowMs, maxEntries, start);
    accepted := [];
    ghost var l := r.Settings();
    assert reqs[..0] == [];
    var i := 0;
    while i < |reqs|
      invariant 0 <= i <= |reqs| && fresh(r) && fresh(r.table) && r.Settings() == l
      invariant r.Valid() && r.QuotasKept()
      invariant forall j :: i <= j < |reqs| ==> r.clock <= reqs[j].ms
      invariant r.Hist() == HistoryOf(l, reqs[..i]) && accepted == Decisions(l, reqs[..i])
    {
      assert reqs[..i + 1][..i] == reqs[..i];
      var ok := r.Register(reqs[i].ip, reqs[i].ms, reqs[i].policyOk);
      accepted := accepted + [ok];
      i := i + 1;
    }
    assert reqs[..i] == reqs;
    forall ip: Ip
      ensures r.table.LogOf(ip) == NotedFrom(l, reqs, ip)
      ensures globalMax > 0 ==> r.globalLog == AcceptedTimes(l, reqs)
    {
      LogsAreAccepted(l, reqs, ip);
    }
    LogsAreAccepted(l, reqs, 0);
  }
}
