/** The sliding window of five equal time slots kept by the two IP throttles, against the
    unbounded log of events it stands for. Times are milliseconds on a steady clock. */
module Window {

  const SLOTS := 5
  const CAP := 0xFFFF_FFFF

  datatype Slot = Slot(bucket: int, count: nat)
  type Ring = seq<Slot>

  predicate IsRing(w: Ring) { |w| == SLOTS && forall k :: 0 <= k < SLOTS ==> w[k].count <= CAP }

  // -------------------------------------------------------------- time slots and indices

  /** Division and remainder as the program's language has them: truncated toward zero. */
  function TruncDiv(a: int, b: int): int
    requires b > 0
  {
    if a >= 0 then a / b else -((-a) / b)
  }

  function TruncMod(a: int, b: int): int
    requires b > 0
  {
    a - TruncDiv(a, b) * b
  }

  function BucketOf(ms: int, slotMs: int): int
    requires slotMs > 0
  {
    if ms < 0 && TruncMod(ms, slotMs) != 0 then TruncDiv(ms, slotMs) - 1 else TruncDiv(ms, slotMs)
  }

  function SlotIndex(bucket: int): (i: nat) {
    var raw := TruncMod(bucket, SLOTS);
    if raw < 0 then raw + SLOTS else raw
  }

  /** The longest slot of which five fit into the window, and at least 1 ms. */
  function SlotDurationMs(windowMs: int): (s: int)
    ensures s >= 1
    ensures windowMs >= 5 ==> 5 * s <= windowMs < 5 * s + 5
  {
    if windowMs / SLOTS < 1 then 1 else windowMs / SLOTS
  }

  lemma MulMonotone(a: int, b: int, s: int)
    requires a <= b && s > 0
    ensures a * s <= b * s
  {
  }

  /** A time slot is a half-open interval, also before time 0. */
  lemma BucketBounds(ms: int, slotMs: int)
    requires slotMs > 0
    ensures BucketOf(ms, slotMs) * slotMs <= ms < (BucketOf(ms, slotMs) + 1) * slotMs
  {
    if ms < 0 {
      var q := (-ms) / slotMs;
      assert -ms == q * slotMs + (-ms) % slotMs;
    }
  }

  /** Slot k begins at time k * slotMs. */
  lemma BucketOrder(t: int, slotMs: int, k: int)
    requires slotMs > 0
    ensures BucketOf(t, slotMs) < k <==> t < k * slotMs
  {
    var b := BucketOf(t, slotMs);
    BucketBounds(t, slotMs);
    if b < k { MulMonotone(b + 1, k, slotMs); } else { MulMonotone(k, b, slotMs); }
  }

  lemma BucketMonotone(s: int, t: int, slotMs: int)
    requires slotMs > 0 && s <= t
    ensures BucketOf(s, slotMs) <= BucketOf(t, slotMs)
  {
    BucketOrder(s, slotMs, BucketOf(t, slotMs) + 1);
    BucketOrder(t, slotMs, BucketOf(t, slotMs) + 1);
  }

  /** The slot index is the residue of the bucket number, also for negative numbers. */
  lemma SlotIndexIsResidue(b: int)
    ensures SlotIndex(b) == b % SLOTS
  {
  }

  // ----------------------------------------------------------------------------- windows

  predicate InWindow(s: Slot, cur: int) { s.bucket <= cur && cur - s.bucket < SLOTS }

  function SumTo(w: Ring, cur: int, n: nat): nat
    requires IsRing(w) && n <= SLOTS
  {
    if n == 0 then 0 else SumTo(w, cur, n - 1) + if InWindow(w[n - 1], cur) then w[n - 1].count else 0
  }

  function WindowSum(w: Ring, cur: int): nat
    requires IsRing(w)
  {
    SumTo(w, cur, SLOTS)
  }

  function Fresh(): (w: Ring)
    ensures IsRing(w)
  {
    [Slot(0, 0), Slot(0, 0), Slot(0, 0), Slot(0, 0), Slot(0, 0)]
  }

  function Bump(w: Ring, cur: int): (v: Ring)
    requires IsRing(w)
    ensures IsRing(v)
  {
    SlotIndexIsResidue(cur);
    var k := SlotIndex(cur);
    var s := if w[k].bucket != cur then Slot(cur, 0) else w[k];
    w[k := if s.count < CAP then s.(count := s.count + 1) else s]
  }

  // --------------------------------------------------------------------- the event log

  /** The logged events whose time slot is one of lo..hi. */
  function CountIn(log: seq<int>, slotMs: int, lo: int, hi: int): nat
    requires slotMs > 0
  {
    if log == [] then 0
    else CountIn(log[..|log| - 1], slotMs, lo, hi)
         + if lo <= BucketOf(log[|log| - 1], slotMs) <= hi then 1 else 0
  }

  /** The events a window at slot `cur` is meant to count. */
  function LiveCount(log: seq<int>, slotMs: int, cur: int): nat
    requires slotMs > 0
  {
    CountIn(log, slotMs, cur - SLOTS + 1, cur)
  }

  predicate LoggedBy(log: seq<int>, slotMs: int, now: int)
    requires slotMs > 0
  {
    forall i :: 0 <= i < |log| ==> BucketOf(log[i], slotMs) <= now
  }

  function Capped(n: nat): nat { if n <= CAP then n else CAP }

  function Held(w: Ring, b: int): nat
    requires IsRing(w)
  {
    if w[b % SLOTS].bucket == b then w[b % SLOTS].count else 0
  }

  predicate WellPlaced(w: Ring, now: int)
    requires IsRing(w)
  {
    forall k :: 0 <= k < SLOTS && w[k].count > 0 ==> w[k].bucket % SLOTS == k && w[k].bucket <= now
  }

  /** The ring holds, for each of the five slots up to `now`, the number of logged events. */
  predicate Tracks(w: Ring, log: seq<int>, slotMs: int, now: int)
    requires slotMs > 0
  {
    && IsRing(w) && WellPlaced(w, now) && LoggedBy(log, slotMs, now)
    && forall b :: now - SLOTS < b <= now ==> Held(w, b) == Capped(CountIn(log, slotMs, b, b))
  }

  lemma {:induction false} CountSplit(log: seq<int>, slotMs: int, lo: int, mid: int, hi: int)
    requires slotMs > 0 && lo <= mid + 1 && mid <= hi
    ensures CountIn(log, slotMs, lo, hi) == CountIn(log, slotMs, lo, mid) + CountIn(log, slotMs, mid + 1, hi)
  {
    if log != [] {
      CountSplit(log[..|log| - 1], slotMs, lo, mid, hi);
    }
  }

  lemma {:induction false} CountNone(log: seq<int>, slotMs: int, lo: int, hi: int)
    requires slotMs > 0
    requires forall i :: 0 <= i < |log| ==> !(lo <= BucketOf(log[i], slotMs) <= hi)
    ensures CountIn(log, slotMs, lo, hi) == 0
  {
    if log != [] {
      CountNone(log[..|log| - 1], slotMs, lo, hi);
    }
  }

  lemma {:induction false} CountAtMost(log: seq<int>, slotMs: int, lo: int, hi: int)
    requires slotMs > 0
    ensures CountIn(log, slotMs, lo, hi) <= |log|
  {
    if log != [] {
      CountAtMost(log[..|log| - 1], slotMs, lo, hi);
    }
  }

  lemma CountAppend(log: seq<int>, ms: int, slotMs: int, lo: int, hi: int)
    requires slotMs > 0
    ensures CountIn(log + [ms], slotMs, lo, hi)
         == CountIn(log, slotMs, lo, hi) + if lo <= BucketOf(ms, slotMs) <= hi then 1 else 0
  {
    assert (log + [ms])[..|log|] == log;
  }

  /** With nothing new, a ring that tracks a log keeps tracking it. */
  lemma TracksLater(w: Ring, log: seq<int>, slotMs: int, now: int, later: int)
    requires slotMs > 0 && now <= later && Tracks(w, log, slotMs, now)
    ensures Tracks(w, log, slotMs, later)
  {
    forall b | later - SLOTS < b <= later
      ensures Held(w, b) == Capped(CountIn(log, slotMs, b, b))
    {
      if now < b {
        CountNone(log, slotMs, b, b);
      }
    }
  }

  lemma BumpTracks(w: Ring, log: seq<int>, slotMs: int, ms: int)
    requires slotMs > 0 && Tracks(w, log, slotMs, BucketOf(ms, slotMs))
    ensures Tracks(Bump(w, BucketOf(ms, slotMs)), log + [ms], slotMs, BucketOf(ms, slotMs))
  {
    var cur := BucketOf(ms, slotMs);
    var v := Bump(w, cur);
    SlotIndexIsResidue(cur);
    forall b | cur - SLOTS < b <= cur
      ensures Held(v, b) == Capped(CountIn(log + [ms], slotMs, b, b))
    {
      CountAppend(log, ms, slotMs, b, b);
      assert Held(w, b) == Capped(CountIn(log, slotMs, b, b));
      if b != cur {
        assert b % SLOTS != cur % SLOTS;
      }
    }
  }

  /** A fresh ring tracks any log without a live event. */
  lemma FreshTracks(log: seq<int>, slotMs: int, now: int)
    requires slotMs > 0 && LoggedBy(log, slotMs, now) && LiveCount(log, slotMs, now) == 0
    ensures Tracks(Fresh(), log, slotMs, now)
  {
    forall b | now - SLOTS < b <= now
      ensures Held(Fresh(), b) == Capped(CountIn(log, slotMs, b, b))
    {
      CountSplit(log, slotMs, now - SLOTS + 1, b - 1, now);
      CountSplit(log, slotMs, b, b, now);
    }
  }

  /** The one bucket of the window at `cur` that belongs in slot k. */
  function LiveBucket(cur: int, k: nat): int
    requires k < SLOTS
  {
    cur - (cur - k) % SLOTS
  }

  lemma LiveBucketIsTheOne(cur: int, k: nat, b: int)
    requires k < SLOTS
    ensures cur - SLOTS < LiveBucket(cur, k) <= cur && LiveBucket(cur, k) % SLOTS == k
    ensures b == LiveBucket(cur, k) <==> cur - SLOTS < b <= cur && b % SLOTS == k
  {
  }

  function Term(w: Ring, cur: int, k: nat): nat
    requires IsRing(w) && k < SLOTS
  {
    if InWindow(w[k], cur) then w[k].count else 0
  }

  lemma TermIsHeld(w: Ring, cur: int, k: nat)
    requires IsRing(w) && WellPlaced(w, cur) && k < SLOTS
    ensures Term(w, cur, k) == Held(w, LiveBucket(cur, k))
  {
    LiveBucketIsTheOne(cur, k, w[k].bucket);
  }

  lemma SumIsTerms(w: Ring, cur: int)
    requires IsRing(w)
    ensures WindowSum(w, cur)
         == Term(w, cur, 0) + Term(w, cur, 1) + Term(w, cur, 2) + Term(w, cur, 3) + Term(w, cur, 4)
  {
    assert SumTo(w, cur, 4) == SumTo(w, cur, 3) + Term(w, cur, 3);
    assert SumTo(w, cur, 2) == SumTo(w, cur, 1) + Term(w, cur, 1);
  }

  function SlotCount(log: seq<int>, slotMs: int, cur: int, k: nat): nat
    requires slotMs > 0 && k < SLOTS
  {
    CountIn(log, slotMs, LiveBucket(cur, k), LiveBucket(cur, k))
  }

  function Hit(b: int, cur: int, k: nat): nat
    requires k < SLOTS
  {
    if b == LiveBucket(cur, k) then 1 else 0
  }

  lemma HitsOnce(b: int, cur: int)
    ensures Hit(b, cur, 0) + Hit(b, cur, 1) + Hit(b, cur, 2) + Hit(b, cur, 3) + Hit(b, cur, 4)
         == if cur - SLOTS < b <= cur then 1 else 0
  {
    LiveBucketIsTheOne(cur, 0, b);
    LiveBucketIsTheOne(cur, 1, b);
    LiveBucketIsTheOne(cur, 2, b);
    LiveBucketIsTheOne(cur, 3, b);
    LiveBucketIsTheOne(cur, 4, b);
  }

  lemma {:induction false} LiveBySlot(log: seq<int>, slotMs: int, cur: int)
    requires slotMs > 0
    ensures LiveCount(log, slotMs, cur)
         == SlotCount(log, slotMs, cur, 0) + SlotCount(log, slotMs, cur, 1) + SlotCount(log, slotMs, cur, 2)
            + SlotCount(log, slotMs, cur, 3) + SlotCount(log, slotMs, cur, 4)
  {
    if log != [] {
      var fore, b := log[..|log| - 1], BucketOf(log[|log| - 1], slotMs);
      LiveBySlot(fore, slotMs, cur);
      HitsOnce(b, cur);
      assert SlotCount(log, slotMs, cur, 0) == SlotCount(fore, slotMs, cur, 0) + Hit(b, cur, 0);
      assert SlotCount(log, slotMs, cur, 1) == SlotCount(fore, slotMs, cur, 1) + Hit(b, cur, 1);
      assert SlotCount(log, slotMs, cur, 2) == SlotCount(fore, slotMs, cur, 2) + Hit(b, cur, 2);
      assert SlotCount(log, slotMs, cur, 3) == SlotCount(fore, slotMs, cur, 3) + Hit(b, cur, 3);
      assert SlotCount(log, slotMs, cur, 4) == SlotCount(fore, slotMs, cur, 4) + Hit(b, cur, 4);
    }
  }

  lemma TermIsSlotCount(w: Ring, log: seq<int>, slotMs: int, cur: int, k: nat)
    requires slotMs > 0 && k < SLOTS && Tracks(w, log, slotMs, cur)
    ensures Term(w, cur, k) == Capped(SlotCount(log, slotMs, cur, k))
    ensures SlotCount(log, slotMs, cur, k) <= |log|
  {
    TermIsHeld(w, cur, k);
    LiveBucketIsTheOne(cur, k, cur);
    CountAtMost(log, slotMs, LiveBucket(cur, k), LiveBucket(cur, k));
  }

  /** The five slots answer every later question like the whole log: exactly while no slot
      is at its 32-bit cap, and "at least `limit`" always, for any limit up to the cap. */
  lemma RingRefinesLog(w: Ring, log: seq<int>, slotMs: int, now: int, cur: int, limit: nat)
    requires slotMs > 0 && now <= cur && Tracks(w, log, slotMs, now)
    ensures |log| <= CAP ==> WindowSum(w, cur) == LiveCount(log, slotMs, cur)
    ensures limit <= CAP ==> (WindowSum(w, cur) >= limit <==> LiveCount(log, slotMs, cur) >= limit)
    ensures WindowSum(w, cur) == 0 <==> LiveCount(log, slotMs, cur) == 0
  {
    TracksLater(w, log, slotMs, now, cur);
    SumIsTerms(w, cur);
    LiveBySlot(log, slotMs, cur);
    TermIsSlotCount(w, log, slotMs, cur, 0);
    TermIsSlotCount(w, log, slotMs, cur, 1);
    TermIsSlotCount(w, log, slotMs, cur, 2);
    TermIsSlotCount(w, log, slotMs, cur, 3);
    TermIsSlotCount(w, log, slotMs, cur, 4);
  }

  predicate Ascending(log: seq<int>) { forall i, j :: 0 <= i < j < |log| ==> log[i] <= log[j] }

  /** The ring after recording a whole log. */
  function RingOf(log: seq<int>, slotMs: int): (w: Ring)
    requires slotMs > 0
    ensures IsRing(w)
  {
    if log == [] then Fresh() else Bump(RingOf(log[..|log| - 1], slotMs), BucketOf(log[|log| - 1], slotMs))
  }

  lemma {:induction false} RingOfTracks(log: seq<int>, slotMs: int, ms: int)
    requires slotMs > 0 && Ascending(log) && (log != [] ==> log[|log| - 1] <= ms)
    ensures Tracks(RingOf(log, slotMs), log, slotMs, BucketOf(ms, slotMs))
  {
    if log == [] {
      FreshTracks(log, slotMs, BucketOf(ms, slotMs));
    } else {
      var n := |log| - 1;
      RingOfTracks(log[..n], slotMs, log[n]);
      BumpTracks(RingOf(log[..n], slotMs), log[..n], slotMs, log[n]);
      assert log[..n] + [log[n]] == log;
      BucketMonotone(log[n], ms, slotMs);
      TracksLater(RingOf(log, slotMs), log, slotMs, BucketOf(log[n], slotMs), BucketOf(ms, slotMs));
    }
  }

  /** For every ascending log and every later time, the recorded ring and the log agree on
      whether a limit has been reached, and on the count itself below the cap. */
  lemma EveryRingRefinesItsLog(log: seq<int>, slotMs: int, ms: int, limit: nat)
    requires slotMs > 0 && Ascending(log) && (log != [] ==> log[|log| - 1] <= ms) && limit <= CAP
    ensures var cur := BucketOf(ms, slotMs);
      && (WindowSum(RingOf(log, slotMs), cur) >= limit <==> LiveCount(log, slotMs, cur) >= limit)
      && (|log| <= CAP ==> WindowSum(RingOf(log, slotMs), cur) == LiveCount(log, slotMs, cur))
  {
    RingOfTracks(log, slotMs, ms);
    RingRefinesLog(RingOf(log, slotMs), log, slotMs, BucketOf(ms, slotMs), BucketOf(ms, slotMs), limit);
  }
}
