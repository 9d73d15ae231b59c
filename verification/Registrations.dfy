/** The server's registration discipline over whole runs, as a function of the requests:
    which are accepted, what is recorded of them, and when the quotas hold of the accepted
    ones and not only of the recorded ones. */
module Registrations {
  import opened Window
  import opened IpTable
  import opened Quota
  import opened Sets

  /** The two limits, of which 0 or less is "off", the lengths of the slots, and how many
      addresses the table holds. */
  datatype Limits = Limits(ipMax: int, ipSlotMs: int, globalMax: int, globalSlotMs: int, maxEntries: nat)

  predicate IsLimits(l: Limits) { l.ipSlotMs > 0 && l.globalSlotMs > 0 }

  /** A registration as it reaches the server; `policyOk` says whether the password policy
      accepts it. */
  datatype Request = Request(ip: Ip, ms: int, policyOk: bool)

  /** Everything ever recorded, over all addresses and per address. */
  datatype History = History(all: seq<int>, logs: Logs)

  const EMPTY := History([], map[])

  predicate GloballyOver(l: Limits, h: History, ms: int)
    requires IsLimits(l)
  {
    l.globalMax > 0 && OverLimit(h.all, l.globalSlotMs, l.globalMax, ms)
  }

  predicate LocallyOver(l: Limits, h: History, ip: Ip, ms: int)
    requires IsLimits(l)
  {
    ip != 0 && l.ipMax > 0 && OverLimit(LogIn(h.logs, ip), l.ipSlotMs, l.ipMax, ms)
  }

  predicate Admits(l: Limits, h: History, q: Request)
    requires IsLimits(l)
  {
    q.policyOk && !GloballyOver(l, h, q.ms) && !LocallyOver(l, h, q.ip, q.ms)
  }

  /** Whether an attempt goes on record under its address. */
  predicate Noted(l: Limits, h: History, ip: Ip, ms: int)
    requires IsLimits(l)
  {
    ip != 0 && l.ipMax > 0 && HasRoom(h.logs, l.ipSlotMs, l.maxEntries, ip, ms)
  }

  function AfterAttempt(l: Limits, h: History, ip: Ip, ms: int): History
    requires IsLimits(l)
  {
    History(if l.globalMax > 0 then h.all + [ms] else h.all,
            if Noted(l, h, ip, ms) then h.logs[ip := LogIn(h.logs, ip) + [ms]] else h.logs)
  }

  function AfterRequest(l: Limits, h: History, q: Request): History
    requires IsLimits(l)
  {
    if Admits(l, h, q) then AfterAttempt(l, h, q.ip, q.ms) else h
  }

  function HistoryOf(l: Limits, reqs: seq<Request>): History
    requires IsLimits(l)
  {
    if reqs == [] then EMPTY
    else AfterRequest(l, HistoryOf(l, reqs[..|reqs| - 1]), reqs[|reqs| - 1])
  }

  /** For each request of a run whether it is accepted. */
  function Decisions(l: Limits, reqs: seq<Request>): (d: seq<bool>)
    requires IsLimits(l)
    ensures |d| == |reqs|
  {
    if reqs == [] then []
    else
      var fore, q := reqs[..|reqs| - 1], reqs[|reqs| - 1];
      Decisions(l, fore) + [Admits(l, HistoryOf(l, fore), q)]
  }

  predicate RequestsInOrder(reqs: seq<Request>) {
    forall i, j :: 0 <= i < j < |reqs| ==> reqs[i].ms <= reqs[j].ms
  }

  // -------------------------------------------------------------------- what is accepted

  /** The times of the accepted requests. */
  function AcceptedTimes(l: Limits, reqs: seq<Request>): seq<int>
    requires IsLimits(l)
  {
    if reqs == [] then []
    else
      var fore, q := reqs[..|reqs| - 1], reqs[|reqs| - 1];
      AcceptedTimes(l, fore) + if Admits(l, HistoryOf(l, fore), q) then [q.ms] else []
  }

  /** The times of the accepted requests of one address. */
  function AcceptedFrom(l: Limits, reqs: seq<Request>, ip: Ip): seq<int>
    requires IsLimits(l)
  {
    if reqs == [] then []
    else
      var fore, q := reqs[..|reqs| - 1], reqs[|reqs| - 1];
      AcceptedFrom(l, fore, ip) + if q.ip == ip && Admits(l, HistoryOf(l, fore), q) then [q.ms] else []
  }

  /** Those of them for which there was room when they were accepted. */
  function NotedFrom(l: Limits, reqs: seq<Request>, ip: Ip): seq<int>
    requires IsLimits(l)
  {
    if reqs == [] then []
    else
      var fore, q := reqs[..|reqs| - 1], reqs[|reqs| - 1];
      NotedFrom(l, fore, ip) +
      if q.ip == ip && Admits(l, HistoryOf(l, fore), q) && Noted(l, HistoryOf(l, fore), ip, q.ms) then [q.ms] else []
  }

  /** There was room for every accepted request of the address. */
  predicate AlwaysRoom(l: Limits, reqs: seq<Request>, ip: Ip)
    requires IsLimits(l)
  {
    reqs == [] ||
    var fore, q := reqs[..|reqs| - 1], reqs[|reqs| - 1];
    && AlwaysRoom(l, fore, ip)
    && (q.ip == ip && Admits(l, HistoryOf(l, fore), q) ==> Noted(l, HistoryOf(l, fore), ip, q.ms))
  }

  /** The global log is the log of all accepted requests, and the log of an address that of
      its accepted requests for which there was room. */
  lemma {:induction false} LogsAreAccepted(l: Limits, reqs: seq<Request>, ip: Ip)
    requires IsLimits(l)
    ensures l.globalMax > 0 ==> HistoryOf(l, reqs).all == AcceptedTimes(l, reqs)
    ensures LogIn(HistoryOf(l, reqs).logs, ip) == NotedFrom(l, reqs, ip)
  {
    if reqs != [] {
      LogsAreAccepted(l, reqs[..|reqs| - 1], ip);
    }
  }

  lemma {:induction false} RoomNotesAll(l: Limits, reqs: seq<Request>, ip: Ip)
    requires IsLimits(l)
    ensures AlwaysRoom(l, reqs, ip) ==> NotedFrom(l, reqs, ip) == AcceptedFrom(l, reqs, ip)
  {
    if reqs != [] {
      RoomNotesAll(l, reqs[..|reqs| - 1], ip);
    }
  }

  // ------------------------------------------------------------------------- the quotas

  /** Every window of five slots is within the limit, in both kinds of log. */
  ghost predicate Kept(l: Limits, h: History)
    requires IsLimits(l)
  {
    && (l.globalMax > 0 ==> WithinLimit(h.all, l.globalMax, l.globalSlotMs))
    && (l.ipMax > 0 ==> forall ip: Ip :: WithinLimit(LogIn(h.logs, ip), l.ipMax, l.ipSlotMs))
  }

  ghost predicate LoggedUntil(l: Limits, h: History, ms: int)
    requires IsLimits(l)
  {
    && LoggedBy(h.all, l.globalSlotMs, BucketOf(ms, l.globalSlotMs))
    && forall ip: Ip :: LoggedBy(LogIn(h.logs, ip), l.ipSlotMs, BucketOf(ms, l.ipSlotMs))
  }

  lemma AttemptKeepsLocal(l: Limits, h: History, ip: Ip, ms: int, q: Ip)
    requires IsLimits(l) && l.ipMax > 0 && LoggedUntil(l, h, ms) && !LocallyOver(l, h, ip, ms)
    requires WithinLimit(LogIn(h.logs, q), l.ipMax, l.ipSlotMs)
    ensures WithinLimit(LogIn(AfterAttempt(l, h, ip, ms).logs, q), l.ipMax, l.ipSlotMs)
  {
    if q == ip && Noted(l, h, ip, ms) {
      AdmittedKeepsLimit(LogIn(h.logs, ip), l.ipMax, l.ipSlotMs, ms);
    }
  }

  /** Recording an admitted attempt keeps the quotas. */
  lemma AttemptKeepsQuotas(l: Limits, h: History, ip: Ip, ms: int)
    requires IsLimits(l) && Kept(l, h) && LoggedUntil(l, h, ms)
    requires !GloballyOver(l, h, ms) && !LocallyOver(l, h, ip, ms)
    ensures Kept(l, AfterAttempt(l, h, ip, ms))
  {
    if l.globalMax > 0 {
      AdmittedKeepsLimit(h.all, l.globalMax, l.globalSlotMs, ms);
    }
    forall q: Ip | l.ipMax > 0
      ensures WithinLimit(LogIn(AfterAttempt(l, h, ip, ms).logs, q), l.ipMax, l.ipSlotMs)
    {
      AttemptKeepsLocal(l, h, ip, ms, q);
    }
  }

  lemma RequestKeepsQuotas(l: Limits, h: History, q: Request)
    requires IsLimits(l) && Kept(l, h) && LoggedUntil(l, h, q.ms)
    ensures Kept(l, AfterRequest(l, h, q))
  {
    if Admits(l, h, q) {
      AttemptKeepsQuotas(l, h, q.ip, q.ms);
    }
  }

  lemma AttemptIsLogged(l: Limits, h: History, ip: Ip, ms: int)
    requires IsLimits(l) && LoggedUntil(l, h, ms)
    ensures LoggedUntil(l, AfterAttempt(l, h, ip, ms), ms)
  {
    var g := AfterAttempt(l, h, ip, ms);
    forall q: Ip
      ensures LoggedBy(LogIn(g.logs, q), l.ipSlotMs, BucketOf(ms, l.ipSlotMs))
    {
      assert LoggedBy(LogIn(h.logs, q), l.ipSlotMs, BucketOf(ms, l.ipSlotMs));
    }
  }

  lemma LoggedUntilLater(l: Limits, h: History, ms: int, later: int)
    requires IsLimits(l) && LoggedUntil(l, h, ms) && ms <= later
    ensures LoggedUntil(l, h, later)
  {
    BucketMonotone(ms, later, l.globalSlotMs);
    BucketMonotone(ms, later, l.ipSlotMs);
    forall q: Ip
      ensures LoggedBy(LogIn(h.logs, q), l.ipSlotMs, BucketOf(later, l.ipSlotMs))
    {
      assert LoggedBy(LogIn(h.logs, q), l.ipSlotMs, BucketOf(ms, l.ipSlotMs));
    }
  }

  lemma NothingYet(l: Limits, ms: int)
    requires IsLimits(l)
    ensures Kept(l, EMPTY) && LoggedUntil(l, EMPTY, ms)
  {
    assert forall c :: LiveCount([], l.globalSlotMs, c) == 0;
    assert forall c :: LiveCount([], l.ipSlotMs, c) == 0;
  }

  lemma {:induction false} RunKeepsQuotas(l: Limits, reqs: seq<Request>, ms: int)
    requires IsLimits(l) && RequestsInOrder(reqs) && (reqs != [] ==> reqs[|reqs| - 1].ms <= ms)
    ensures Kept(l, HistoryOf(l, reqs)) && LoggedUntil(l, HistoryOf(l, reqs), ms)
  {
    if reqs == [] {
      NothingYet(l, ms);
    } else {
      var fore, q := reqs[..|reqs| - 1], reqs[|reqs| - 1];
      RunKeepsQuotas(l, fore, q.ms);
      var h := HistoryOf(l, fore);
      RequestKeepsQuotas(l, h, q);
      if Admits(l, h, q) {
        AttemptIsLogged(l, h, q.ip, q.ms);
      }
      LoggedUntilLater(l, HistoryOf(l, reqs), q.ms, ms);
    }
  }

  /** In every run at most `globalMax` requests are accepted in any five slots; and at most
      `ipMax` of an address for whose accepted requests there always was room. */
  lemma AcceptedWithinQuotas(l: Limits, reqs: seq<Request>, ip: Ip)
    requires IsLimits(l) && RequestsInOrder(reqs)
    ensures l.globalMax > 0 ==> WithinLimit(AcceptedTimes(l, reqs), l.globalMax, l.globalSlotMs)
    ensures l.ipMax > 0 && AlwaysRoom(l, reqs, ip) ==> WithinLimit(AcceptedFrom(l, reqs, ip), l.ipMax, l.ipSlotMs)
  {
    RunKeepsQuotas(l, reqs, if reqs == [] then 0 else reqs[|reqs| - 1].ms);
    LogsAreAccepted(l, reqs, ip);
    RoomNotesAll(l, reqs, ip);
  }

  function Addresses(reqs: seq<Request>): set<Ip> { set q | q in reqs :: q.ip }

  lemma {:induction false} LoggedAddresses(l: Limits, reqs: seq<Request>)
    requires IsLimits(l)
    ensures HistoryOf(l, reqs).logs.Keys <= Addresses(reqs)
  {
    if reqs != [] {
      var fore, q := reqs[..|reqs| - 1], reqs[|reqs| - 1];
      LoggedAddresses(l, fore);
      assert q in reqs && forall p :: p in fore ==> p in reqs;
    }
  }

  /** There always is room while no more addresses come than the table holds, so then the
      quota of every known address holds of its accepted requests. */
  lemma {:induction false} FewAddressesHaveRoom(l: Limits, reqs: seq<Request>, ip: Ip)
    requires IsLimits(l) && ip != 0 && l.ipMax > 0 && |Addresses(reqs)| <= l.maxEntries
    ensures AlwaysRoom(l, reqs, ip)
  {
    if reqs != [] {
      var fore, q := reqs[..|reqs| - 1], reqs[|reqs| - 1];
      assert q in reqs && forall p :: p in fore ==> p in reqs;
      SubsetIsSmaller(Addresses(fore), Addresses(reqs));
      FewAddressesHaveRoom(l, fore, ip);
      LoggedAddresses(l, fore);
      var live := Live(HistoryOf(l, fore).logs, l.ipSlotMs, q.ms);
      if q.ip == ip && ip !in live {
        SubsetIsSmaller(live + {ip}, Addresses(reqs));
        assert |live + {ip}| == |live| + 1;
      }
    }
  }

  // --------------------------------------------------------------------- without room

  function Repeated(ip: Ip, ms: int, n: nat): seq<Request> { seq(n, _ => Request(ip, ms, true)) }

  lemma OneMoreRequest(l: Limits, reqs: seq<Request>, q: Request)
    requires IsLimits(l)
    ensures HistoryOf(l, reqs + [q]) == AfterRequest(l, HistoryOf(l, reqs), q)
    ensures AcceptedFrom(l, reqs + [q], q.ip)
         == AcceptedFrom(l, reqs, q.ip) + if Admits(l, HistoryOf(l, reqs), q) then [q.ms] else []
  {
    assert (reqs + [q])[..|reqs|] == reqs;
  }

  /** One request without room: accepted unless the global limit forbids it, and not noted. */
  lemma NoRoomOnce(l: Limits, h: History, ip: Ip, ms: int)
    requires IsLimits(l) && ip != 0 && l.ipMax > 0
    requires !HasRoom(h.logs, l.ipSlotMs, l.maxEntries, ip, ms) && !GloballyOver(l, h, ms)
    ensures var q := Request(ip, ms, true);
      && Admits(l, h, q)
      && AfterRequest(l, h, q) == History(if l.globalMax > 0 then h.all + [ms] else h.all, h.logs)
  {
    assert LiveCount(LogIn(h.logs, ip), l.ipSlotMs, BucketOf(ms, l.ipSlotMs)) == 0 by {
      if ip !in h.logs { assert LiveCount([], l.ipSlotMs, BucketOf(ms, l.ipSlotMs)) == 0; }
    }
  }

  lemma OneMoreTime(a: seq<int>, n: nat, ms: int)
    ensures a + Times(0, ms) == a && a + Times(n + 1, ms) == (a + Times(n, ms)) + [ms]
  {
  }

  lemma OneMoreRepeated(reqs: seq<Request>, ip: Ip, ms: int, n: nat)
    ensures reqs + Repeated(ip, ms, 0) == reqs
    ensures reqs + Repeated(ip, ms, n + 1) == (reqs + Repeated(ip, ms, n)) + [Request(ip, ms, true)]
  {
  }

  /** While other addresses with a live attempt fill the table, the quota of an address
      without one is not enforced: as many requests of it are accepted, at one moment, as
      the global quota lets through. */
  lemma {:induction false} NoRoomNoQuota(l: Limits, reqs: seq<Request>, ip: Ip, ms: int, n: nat)
    requires IsLimits(l) && ip != 0 && l.ipMax > 0
    requires !HasRoom(HistoryOf(l, reqs).logs, l.ipSlotMs, l.maxEntries, ip, ms)
    requires l.globalMax > 0 ==>
               LiveCount(HistoryOf(l, reqs).all, l.globalSlotMs, BucketOf(ms, l.globalSlotMs)) + n <= l.globalMax
    ensures var all := reqs + Repeated(ip, ms, n);
      && HistoryOf(l, all).logs == HistoryOf(l, reqs).logs
      && HistoryOf(l, all).all == HistoryOf(l, reqs).all + (if l.globalMax > 0 then Times(n, ms) else [])
      && AcceptedFrom(l, all, ip) == AcceptedFrom(l, reqs, ip) + Times(n, ms)
    decreases n
  {
    var h, a := HistoryOf(l, reqs), AcceptedFrom(l, reqs, ip);
    if n == 0 {
      OneMoreRepeated(reqs, ip, ms, 0);
      OneMoreTime(h.all, 0, ms);
      OneMoreTime(a, 0, ms);
    } else {
      var fore := reqs + Repeated(ip, ms, n - 1);
      NoRoomNoQuota(l, reqs, ip, ms, n - 1);
      if l.globalMax > 0 {
        LiveTimes(h.all, n - 1, ms, l.globalSlotMs);
      }
      NoRoomOnce(l, HistoryOf(l, fore), ip, ms);
      OneMoreRepeated(reqs, ip, ms, n - 1);
      OneMoreRequest(l, fore, Request(ip, ms, true));
      OneMoreTime(h.all, n - 1, ms);
      OneMoreTime(a, n - 1, ms);
    }
  }

  // ---------------------------------------------------------------- the exact condition

  function UpTo(m: nat): (s: set<Ip>)
    requires m < 0x1_0000_0000
    ensures |s| == m && forall ip: Ip :: ip in s <==> 1 <= ip <= m
  {
    if m == 0 then {} else UpTo(m - 1) + {m}
  }

  /** Addresses 1 to m register, one after the other, at time 0. */
  function Fill(m: nat): (reqs: seq<Request>)
    requires m < 0x1_0000_0000
    ensures |reqs| == m && forall i :: 0 <= i < m ==> reqs[i] == Request(i + 1, 0, true)
  {
    if m == 0 then [] else Fill(m - 1) + [Request(m, 0, true)]
  }

  function FullLogs(m: nat): Logs
    requires m < 0x1_0000_0000
  {
    map ip | ip in UpTo(m) :: [0]
  }

  lemma AllLive(m: nat, slotMs: int)
    requires m < 0x1_0000_0000 && slotMs > 0
    ensures Live(FullLogs(m), slotMs, 0) == UpTo(m)
  {
    var b := BucketOf(0, slotMs);
    assert [] + [0] == [0];
    CountAppend([], 0, slotMs, b - SLOTS + 1, b);
    assert LiveCount([0], slotMs, b) == 1;
  }

  lemma NextFills(l: Limits, m: nat)
    requires IsLimits(l) && l.ipMax > 0 && l.globalMax <= 0 && m < l.maxEntries && m + 1 < 0x1_0000_0000
    ensures AfterRequest(l, History([], FullLogs(m)), Request(m + 1, 0, true)) == History([], FullLogs(m + 1))
  {
    var h, q := History([], FullLogs(m)), Request(m + 1, 0, true);
    AllLive(m, l.ipSlotMs);
    assert LogIn(h.logs, q.ip) == [] && LiveCount([], l.ipSlotMs, BucketOf(0, l.ipSlotMs)) == 0;
    assert Admits(l, h, q) && Noted(l, h, q.ip, 0);
    assert [] + [0] == [0];
    assert h.logs[q.ip := [0]] == FullLogs(m + 1);
  }

  lemma {:induction false} FillHistory(l: Limits, m: nat)
    requires IsLimits(l) && l.ipMax > 0 && l.globalMax <= 0 && m <= l.maxEntries && m < 0x1_0000_0000
    ensures HistoryOf(l, Fill(m)) == History([], FullLogs(m))
  {
    if m == 0 {
      assert FullLogs(0) == map[];
    } else {
      FillHistory(l, m - 1);
      NextFills(l, m - 1);
      assert Fill(m)[..m - 1] == Fill(m - 1);
    }
  }

  lemma {:induction false} NotAsked(l: Limits, reqs: seq<Request>, ip: Ip)
    requires IsLimits(l) && forall q <- reqs :: q.ip != ip
    ensures AcceptedFrom(l, reqs, ip) == []
  {
    if reqs != [] {
      assert reqs[|reqs| - 1] in reqs;
      NotAsked(l, reqs[..|reqs| - 1], ip);
    }
  }

  lemma FullAfterFill(l: Limits, x: Ip)
    requires IsLimits(l) && l.ipMax > 0 && l.globalMax <= 0 && x == l.maxEntries + 1
    ensures var logs := HistoryOf(l, Fill(l.maxEntries)).logs;
            x !in logs && !HasRoom(logs, l.ipSlotMs, l.maxEntries, x, 0)
  {
    FillHistory(l, l.maxEntries);
    AllLive(l.maxEntries, l.ipSlotMs);
  }

  lemma NotInFill(l: Limits, m: nat, x: Ip)
    requires IsLimits(l) && m < x
    ensures AcceptedFrom(l, Fill(m), x) == []
  {
    NotAsked(l, Fill(m), x);
  }

  lemma TimesCount(n: nat, ms: int, slotMs: int)
    requires slotMs > 0
    ensures LiveCount(Times(n, ms), slotMs, BucketOf(ms, slotMs)) == n
  {
    var b := BucketOf(ms, slotMs);
    CountTimes([], n, ms, slotMs, b - SLOTS + 1, b);
    assert [] + Times(n, ms) == Times(n, ms);
  }

  /** Such a table is reached: once as many addresses as it holds have registered, any number
      of requests of one more address are accepted in the same slot. */
  lemma FullTableNoQuota(l: Limits, x: Ip, n: nat)
    requires IsLimits(l) && l.ipMax > 0 && l.globalMax <= 0 && x == l.maxEntries + 1
    ensures var all := Fill(l.maxEntries) + Repeated(x, 0, n);
      && AcceptedFrom(l, all, x) == Times(n, 0)
      && LiveCount(AcceptedFrom(l, all, x), l.ipSlotMs, BucketOf(0, l.ipSlotMs)) == n
      && x !in HistoryOf(l, all).logs
  {
    FullAfterFill(l, x);
    NoRoomNoQuota(l, Fill(l.maxEntries), x, 0, n);
    NotInFill(l, l.maxEntries, x);
    assert [] + Times(n, 0) == Times(n, 0);
    TimesCount(n, 0, l.ipSlotMs);
  }

  /** In numbers: one per address, room for one; address 1 registers once, and then every
      one of n requests of address 2 is accepted. */
  lemma SecondAddressIsFree(slotMs: int, n: nat)
    requires slotMs > 0
    ensures var l := Limits(1, slotMs, 0, slotMs, 1);
            AcceptedFrom(l, [Request(1, 0, true)] + Repeated(2, 0, n), 2) == Times(n, 0)
  {
    FullTableNoQuota(Limits(1, slotMs, 0, slotMs, 1), 2, n);
    assert Fill(1) == [Request(1, 0, true)];
  }

  /** In no run with at most `a` addresses does a known address get more than `ipMax`
      requests accepted in five slots. */
  ghost predicate AddressQuotaHolds(l: Limits, a: nat)
    requires IsLimits(l) && l.ipMax > 0
  {
    forall reqs: seq<Request>, ip: Ip :: RequestsInOrder(reqs) && |Addresses(reqs)| <= a && ip != 0 ==>
      WithinLimit(AcceptedFrom(l, reqs, ip), l.ipMax, l.ipSlotMs)
  }

  lemma AddressesJoin(a: seq<Request>, b: seq<Request>)
    ensures Addresses(a + b) == Addresses(a) + Addresses(b)
  {
  }

  lemma AddressOfOne(q: Request)
    ensures Addresses([q]) == {q.ip}
  {
    assert q in [q];
  }

  lemma {:induction false} AddressesOfFill(m: nat)
    requires m < 0x1_0000_0000
    ensures Addresses(Fill(m)) == UpTo(m)
  {
    if m > 0 {
      AddressesOfFill(m - 1);
      AddressOfOne(Request(m, 0, true));
      AddressesJoin(Fill(m - 1), [Request(m, 0, true)]);
    }
  }

  lemma AddressesOfRepeated(x: Ip, n: nat)
    requires n > 0
    ensures Addresses(Repeated(x, 0, n)) == {x}
  {
    assert Repeated(x, 0, n)[0] in Repeated(x, 0, n);
  }

  lemma FilledAddresses(m: nat, n: nat)
    requires m < 0xFFFF_FFFF && n > 0
    ensures Addresses(Fill(m) + Repeated(m + 1, 0, n)) == UpTo(m + 1)
  {
    AddressesOfFill(m);
    AddressesOfRepeated(m + 1, n);
    AddressesJoin(Fill(m), Repeated(m + 1, 0, n));
  }

  lemma Overfilled(l: Limits, x: Ip, n: nat)
    requires IsLimits(l) && l.ipMax > 0 && l.globalMax <= 0 && x == l.maxEntries + 1 && n > l.ipMax
    ensures var all := Fill(l.maxEntries) + Repeated(x, 0, n);
      && RequestsInOrder(all) && |Addresses(all)| == l.maxEntries + 1
      && !WithinLimit(AcceptedFrom(l, all, x), l.ipMax, l.ipSlotMs)
  {
    FullTableNoQuota(l, x, n);
    FilledAddresses(l.maxEntries, n);
  }

  // The table size is a number the environment sets, at most a million; there are 2^32 - 1
  // known addresses.

  /** Without a global limit, the quota per address holds of the accepted requests, in all
      runs with at most `a` addresses, if and only if the table holds that many. */
  lemma AddressQuotaExactly(l: Limits, a: nat)
    requires IsLimits(l) && l.ipMax > 0 && l.globalMax <= 0 && l.maxEntries < 0xFFFF_FFFF
    ensures AddressQuotaHolds(l, a) <==> a <= l.maxEntries
  {
    if a <= l.maxEntries {
      forall reqs: seq<Request>, ip: Ip | RequestsInOrder(reqs) && |Addresses(reqs)| <= a && ip != 0
        ensures WithinLimit(AcceptedFrom(l, reqs, ip), l.ipMax, l.ipSlotMs)
      {
        FewAddressesHaveRoom(l, reqs, ip);
        AcceptedWithinQuotas(l, reqs, ip);
      }
    } else {
      Overfilled(l, l.maxEntries + 1, l.ipMax + 1);
    }
  }
}
