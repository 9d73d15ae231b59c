/** What the discipline "check, then record" guarantees over whole runs: at most the limit
    in any five consecutive time slots, and the exact length of time this covers. */
module Quota {
  import opened Window
  import opened IpTable

  /** One attempt; `wanted` is false when it fails for reasons of its own after the check,
      so that it is never recorded. */
  datatype Attempt = Attempt(ms: int, wanted: bool)

  predicate InOrder(a: seq<Attempt>) { forall i, j :: 0 <= i < j < |a| ==> a[i].ms <= a[j].ms }

  /** The times recorded when each attempt is checked against the limit first. */
  function Accepted(a: seq<Attempt>, max: nat, slotMs: int): seq<int>
    requires slotMs > 0
  {
    if a == [] then []
    else
      var log, last := Accepted(a[..|a| - 1], max, slotMs), a[|a| - 1];
      if last.wanted && !OverLimit(log, slotMs, max, last.ms) then log + [last.ms] else log
  }

  ghost predicate WithinLimit(log: seq<int>, max: nat, slotMs: int)
    requires slotMs > 0
  {
    forall c :: LiveCount(log, slotMs, c) <= max
  }

  /** Recording an admitted event keeps every window of the log within the limit. */
  lemma AdmittedKeepsLimit(log: seq<int>, max: nat, slotMs: int, ms: int)
    requires slotMs > 0 && LoggedBy(log, slotMs, BucketOf(ms, slotMs))
    requires WithinLimit(log, max, slotMs) && !OverLimit(log, slotMs, max, ms)
    ensures WithinLimit(log + [ms], max, slotMs)
  {
    var b := BucketOf(ms, slotMs);
    forall c
      ensures LiveCount(log + [ms], slotMs, c) <= max
    {
      CountAppend(log, ms, slotMs, c - SLOTS + 1, c);
      if b <= c {
        LiveFalls(log, slotMs, b, c);
      } else {
        assert LiveCount(log, slotMs, c) <= max;
      }
    }
  }

  /** In every run, any five consecutive slots hold at most `max` recorded events. */
  lemma {:induction false} AnyFiveSlots(a: seq<Attempt>, max: nat, slotMs: int, ms: int)
    requires slotMs > 0 && InOrder(a) && (a != [] ==> a[|a| - 1].ms <= ms)
    ensures WithinLimit(Accepted(a, max, slotMs), max, slotMs)
    ensures LoggedBy(Accepted(a, max, slotMs), slotMs, BucketOf(ms, slotMs))
  {
    if a != [] {
      var last := a[|a| - 1].ms;
      AnyFiveSlots(a[..|a| - 1], max, slotMs, last);
      BucketMonotone(last, ms, slotMs);
      var log := Accepted(a[..|a| - 1], max, slotMs);
      if !OverLimit(log, slotMs, max, last) {
        AdmittedKeepsLimit(log, max, slotMs, last);
      }
    } else {
      assert forall c :: LiveCount([], slotMs, c) == 0;
    }
  }

  function CountBetween(log: seq<int>, from: int, to: int): nat {
    if log == [] then 0
    else CountBetween(log[..|log| - 1], from, to) + if from <= log[|log| - 1] <= to then 1 else 0
  }

  lemma {:induction false} CountBetweenBySlots(log: seq<int>, from: int, to: int, slotMs: int, lo: int, hi: int)
    requires slotMs > 0 && lo <= BucketOf(from, slotMs) && BucketOf(to, slotMs) <= hi
    ensures CountBetween(log, from, to) <= CountIn(log, slotMs, lo, hi)
  {
    if log != [] {
      CountBetweenBySlots(log[..|log| - 1], from, to, slotMs, lo, hi);
      var e := log[|log| - 1];
      if from <= e <= to {
        BucketMonotone(from, e, slotMs);
        BucketMonotone(e, to, slotMs);
      }
    }
  }

  lemma {:induction false} CountBetweenAll(log: seq<int>, from: int, to: int)
    requires forall i :: 0 <= i < |log| ==> from <= log[i] <= to
    ensures CountBetween(log, from, to) == |log|
  {
    if log != [] {
      CountBetweenAll(log[..|log| - 1], from, to);
    }
  }

  /** The events of a log in the closed interval of `span` ms that starts at t. */
  function InSpan(log: seq<int>, t: int, span: nat): nat { CountBetween(log, t, t + span) }

  /** In no run are more than `max` events recorded in any closed interval of `span` ms. */
  ghost predicate QuotaHolds(span: nat, max: nat, slotMs: int)
    requires slotMs > 0
  {
    forall a: seq<Attempt>, t: int :: InOrder(a) ==> InSpan(Accepted(a, max, slotMs), t, span) <= max
  }

  lemma QuotaWithinFourSlots(span: nat, max: nat, slotMs: int)
    requires slotMs > 0 && span <= 4 * slotMs
    ensures QuotaHolds(span, max, slotMs)
  {
    forall a: seq<Attempt>, t: int | InOrder(a)
      ensures InSpan(Accepted(a, max, slotMs), t, span) <= max
    {
      var b, log := BucketOf(t, slotMs), Accepted(a, max, slotMs);
      BucketBounds(t, slotMs);
      assert (b + 5) * slotMs == (b + 1) * slotMs + 4 * slotMs;
      BucketOrder(t + span, slotMs, b + 5);
      CountBetweenBySlots(log, t, t + span, slotMs, b, b + 4);
      AnyFiveSlots(a, max, slotMs, if a == [] then 0 else a[|a| - 1].ms);
      assert LiveCount(log, slotMs, b + 4) <= max;
    }
  }

  function Burst(n: nat, ms: int): seq<Attempt> { seq(n, _ => Attempt(ms, true)) }
  function Times(n: nat, ms: int): seq<int> { seq(n, _ => ms) }

  lemma AcceptOne(a: seq<Attempt>, ms: int, max: nat, slotMs: int)
    requires slotMs > 0 && !OverLimit(Accepted(a, max, slotMs), slotMs, max, ms)
    ensures Accepted(a + [Attempt(ms, true)], max, slotMs) == Accepted(a, max, slotMs) + [ms]
  {
    var all := a + [Attempt(ms, true)];
    assert all[..|all| - 1] == a;
  }

  lemma {:induction false} CountTimes(log: seq<int>, n: nat, ms: int, slotMs: int, lo: int, hi: int)
    requires slotMs > 0 && lo <= BucketOf(ms, slotMs) <= hi
    ensures CountIn(log + Times(n, ms), slotMs, lo, hi) == CountIn(log, slotMs, lo, hi) + n
  {
    if n == 0 {
      assert log + Times(0, ms) == log;
    } else {
      CountTimes(log, n - 1, ms, slotMs, lo, hi);
      assert log + Times(n, ms) == (log + Times(n - 1, ms)) + [ms];
      CountAppend(log + Times(n - 1, ms), ms, slotMs, lo, hi);
    }
  }

  lemma LiveTimes(log: seq<int>, n: nat, ms: int, slotMs: int)
    requires slotMs > 0
    ensures LiveCount(log + Times(n, ms), slotMs, BucketOf(ms, slotMs))
         == LiveCount(log, slotMs, BucketOf(ms, slotMs)) + n
  {
    CountTimes(log, n, ms, slotMs, BucketOf(ms, slotMs) - SLOTS + 1, BucketOf(ms, slotMs));
  }

  lemma OneMore(a: seq<Attempt>, log: seq<int>, n: nat, ms: int)
    requires n > 0
    ensures a + Burst(n, ms) == (a + Burst(n - 1, ms)) + [Attempt(ms, true)]
    ensures log + Times(n, ms) == (log + Times(n - 1, ms)) + [ms]
  {
  }

  lemma {:induction false} BurstIsAccepted(a: seq<Attempt>, n: nat, ms: int, max: nat, slotMs: int, log: seq<int>)
    requires slotMs > 0 && log == Accepted(a, max, slotMs)
    requires LiveCount(log, slotMs, BucketOf(ms, slotMs)) + n <= max
    ensures Accepted(a + Burst(n, ms), max, slotMs) == log + Times(n, ms)
    decreases n
  {
    if n == 0 {
      assert a + Burst(0, ms) == a && log + Times(0, ms) == log;
    } else {
      var most := a + Burst(n - 1, ms);
      BurstIsAccepted(a, n - 1, ms, max, slotMs, log);
      LiveTimes(log, n - 1, ms, slotMs);
      OneMore(a, log, n, ms);
      assert !OverLimit(Accepted(most, max, slotMs), slotMs, max, ms);
      AcceptOne(most, ms, max, slotMs);
    }
  }

  /** One millisecond more than four slots already lets twice the limit through: `max`
      attempts at the end of slot 0 and `max` at the start of slot 5. */
  lemma DoubleQuota(max: nat, slotMs: int)
    requires slotMs > 0 && max >= 1
    ensures var a := Burst(max, slotMs - 1) + Burst(max, 5 * slotMs);
      InOrder(a) && InSpan(Accepted(a, max, slotMs), slotMs - 1, 4 * slotMs + 1) == 2 * max
  {
    var early, late := slotMs - 1, 5 * slotMs;
    FirstBurst(max, early, slotMs);
    BurstSlots(slotMs);
    EarlyIsGone(max, slotMs);
    BurstIsAccepted(Burst(max, early), max, late, max, slotMs, Times(max, early));
    BurstsInOrder(max, slotMs);
    CountBetweenAll(Times(max, early) + Times(max, late), early, late);
  }

  lemma BurstsInOrder(n: nat, slotMs: int)
    requires slotMs > 0
    ensures InOrder(Burst(n, slotMs - 1) + Burst(n, 5 * slotMs))
  {
  }

  lemma BurstSlots(slotMs: int)
    requires slotMs > 0
    ensures BucketOf(slotMs - 1, slotMs) == 0 && BucketOf(5 * slotMs, slotMs) == 5
  {
    BucketOrder(slotMs - 1, slotMs, 0);
    BucketOrder(slotMs - 1, slotMs, 1);
    BucketOrder(5 * slotMs, slotMs, 5);
    BucketOrder(5 * slotMs, slotMs, 6);
  }

  lemma EarlyIsGone(n: nat, slotMs: int)
    requires slotMs > 0
    ensures LiveCount(Times(n, slotMs - 1), slotMs, 5) == 0
  {
    BurstSlots(slotMs);
    CountNone(Times(n, slotMs - 1), slotMs, 1, 5);
  }

  lemma FirstBurst(max: nat, ms: int, slotMs: int)
    requires slotMs > 0
    ensures Accepted(Burst(max, ms), max, slotMs) == Times(max, ms)
  {
    assert [] + Burst(max, ms) == Burst(max, ms) && [] + Times(max, ms) == Times(max, ms);
    BurstIsAccepted([], max, ms, max, slotMs, []);
  }

  lemma {:induction false} CountBetweenGrows(log: seq<int>, from: int, to: int, later: int)
    requires to <= later
    ensures CountBetween(log, from, to) <= CountBetween(log, from, later)
  {
    if log != [] {
      CountBetweenGrows(log[..|log| - 1], from, to, later);
    }
  }

  /** The limit holds over every interval of a given length in every run exactly when the
      interval is no longer than four of the five slots. */
  lemma QuotaExactly(span: nat, max: nat, slotMs: int)
    requires slotMs > 0 && max >= 1
    ensures QuotaHolds(span, max, slotMs) <==> span <= 4 * slotMs
  {
    if span <= 4 * slotMs {
      QuotaWithinFourSlots(span, max, slotMs);
    } else {
      DoubleQuota(max, slotMs);
      var a, t := Burst(max, slotMs - 1) + Burst(max, 5 * slotMs), slotMs - 1;
      CountBetweenGrows(Accepted(a, max, slotMs), t, t + (4 * slotMs + 1), t + span);
      assert InSpan(Accepted(a, max, slotMs), t, span) > max;
    }
  }

  // ------------------------------------------------------- in terms of the configured window

  /** The events of a log from a moment on. */
  function CountSince(log: seq<int>, from: int): nat {
    if log == [] then 0
    else CountSince(log[..|log| - 1], from) + if from <= log[|log| - 1] then 1 else 0
  }

  lemma {:induction false} CountSinceBySlots(log: seq<int>, from: int, slotMs: int, lo: int, hi: int)
    requires slotMs > 0 && lo <= BucketOf(from, slotMs) && LoggedBy(log, slotMs, hi)
    ensures CountSince(log, from) <= CountIn(log, slotMs, lo, hi)
  {
    if log != [] {
      var n := |log| - 1;
      assert LoggedBy(log[..n], slotMs, hi);
      CountSinceBySlots(log[..n], from, slotMs, lo, hi);
      if from <= log[n] {
        BucketMonotone(from, log[n], slotMs);
      }
    }
  }

  lemma {:induction false} SlotsBySince(log: seq<int>, from: int, slotMs: int, lo: int, hi: int)
    requires slotMs > 0 && from <= lo * slotMs
    ensures CountIn(log, slotMs, lo, hi) <= CountSince(log, from)
  {
    if log != [] {
      var n := |log| - 1;
      SlotsBySince(log[..n], from, slotMs, lo, hi);
      var b := BucketOf(log[n], slotMs);
      if lo <= b {
        BucketBounds(log[n], slotMs);
        MulMonotone(lo, b, slotMs);
      }
    }
  }

  /** What counts at time ms lies within the configured window, and everything within its
      last four fifths does: an event is forgotten when it is a whole window old, and never
      earlier than after four fifths of it. */
  lemma WindowInMs(log: seq<int>, windowMs: int, ms: int)
    requires windowMs >= 5 && LoggedBy(log, SlotDurationMs(windowMs), BucketOf(ms, SlotDurationMs(windowMs)))
    ensures CountSince(log, ms - 4 * (windowMs / 5))
         <= LiveCount(log, SlotDurationMs(windowMs), BucketOf(ms, SlotDurationMs(windowMs)))
         <= CountSince(log, ms - windowMs + 1)
  {
    var s := SlotDurationMs(windowMs);
    var b := BucketOf(ms, s);
    BucketBounds(ms, s);
    assert (b - 4) * s == b * s - 4 * s && (b + 1) * s == b * s + s;
    BucketOrder(ms - 4 * s, s, b - 4);
    CountSinceBySlots(log, ms - 4 * s, s, b - 4, b);
    SlotsBySince(log, ms - windowMs + 1, s, b - 4, b);
  }

  /** With a window of ten minutes an event counts for eight, and not after ten. */
  lemma TenMinutes(age: nat)
    ensures age <= 480_000 ==> OverLimit([0], SlotDurationMs(600_000), 1, age)
    ensures age >= 600_000 ==> !OverLimit([0], SlotDurationMs(600_000), 1, age)
  {
    var s := SlotDurationMs(600_000);
    BucketMonotone(0, age, s);
    WindowInMs([0], 600_000, age);
    assert CountSince([0], age - 480_000) == if age <= 480_000 then 1 else 0;
    assert CountSince([0], age - 600_000 + 1) == if age < 600_000 then 1 else 0;
  }
}
