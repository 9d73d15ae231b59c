/** When a throttled caller will be admitted again. */
module Drain {
  import opened Window

  function Threshold(limit: int): (n: nat)
    ensures n >= 1 && (limit >= 1 ==> n == limit)
  {
    if limit < 1 then 1 else limit
  }

  /** The counts of the slots whose bucket is later than x, among the first n. */
  function AfterTo(w: Ring, x: int, n: nat): nat
    requires IsRing(w) && n <= SLOTS
  {
    if n == 0 then 0 else AfterTo(w, x, n - 1) + if x < w[n - 1].bucket then w[n - 1].count else 0
  }

  function After(w: Ring, x: int): nat
    requires IsRing(w)
  {
    AfterTo(w, x, SLOTS)
  }

  lemma {:induction false} SumIsAfter(w: Ring, now: int, cur: int, n: nat)
    requires IsRing(w) && WellPlaced(w, now) && now <= cur && n <= SLOTS
    ensures SumTo(w, cur, n) == AfterTo(w, cur - SLOTS, n)
  {
    if n > 0 {
      SumIsAfter(w, now, cur, n - 1);
      if w[n - 1].count > 0 {
        assert w[n - 1].bucket <= now;
      }
    }
  }

  lemma {:induction false} AfterFalls(w: Ring, x: int, y: int, n: nat)
    requires IsRing(w) && x <= y && n <= SLOTS
    ensures AfterTo(w, y, n) <= AfterTo(w, x, n)
  {
    if n > 0 {
      AfterFalls(w, x, y, n - 1);
    }
  }

  /** The slots a sorted list holds, and the same count over the list. */
  function ListAfter(l: seq<Slot>, x: int): nat {
    if l == [] then 0 else ListAfter(l[..|l| - 1], x) + if x < l[|l| - 1].bucket then l[|l| - 1].count else 0
  }

  lemma {:induction false} ListAfterInsert(l: seq<Slot>, j: nat, s: Slot, x: int)
    requires j <= |l|
    ensures ListAfter(l[..j] + [s] + l[j..], x) == ListAfter(l, x) + if x < s.bucket then s.count else 0
  {
    var m := l[..j] + [s] + l[j..];
    if j == |l| {
      assert m[..|m| - 1] == l;
    } else {
      var n := |l| - 1;
      ListAfterInsert(l[..n], j, s, x);
      assert m[..|m| - 1] == l[..n][..j] + [s] + l[..n][j..];
    }
  }

  predicate Sorted(l: seq<Slot>) {
    forall i, j :: 0 <= i < j < |l| ==> l[i].bucket < l[j].bucket
  }

  /** Nothing lies between neighbours of a sorted list. */
  lemma {:induction false} ListAfterConstant(l: seq<Slot>, x: int, y: int)
    requires x <= y && forall i :: 0 <= i < |l| ==> !(x < l[i].bucket <= y)
    ensures ListAfter(l, x) == ListAfter(l, y)
  {
    if l != [] {
      ListAfterConstant(l[..|l| - 1], x, y);
    }
  }

  lemma {:induction false} ListAfterAll(l: seq<Slot>, x: int)
    requires forall i :: 0 <= i < |l| ==> l[i].bucket <= x
    ensures ListAfter(l, x) == 0
  {
    if l != [] {
      ListAfterAll(l[..|l| - 1], x);
    }
  }

  lemma {:induction false} ListAfterDrops(l: seq<Slot>, i: nat)
    requires Sorted(l) && i < |l|
    ensures ListAfter(l, l[i].bucket - 1) == ListAfter(l, l[i].bucket) + l[i].count
  {
    var n := |l| - 1;
    if i == n {
      ListAfterAll(l[..n], l[i].bucket - 1);
      ListAfterAll(l[..n], l[i].bucket);
    } else {
      ListAfterDrops(l[..n], i);
    }
  }

  /** `at` is the exact moment the window falls below the threshold, if nothing is
      recorded from time ms on. */
  ghost predicate DrainsAt(w: Ring, slotMs: int, ms: int, threshold: nat, at: int)
    requires IsRing(w) && slotMs > 0
  {
    && ms < at
    && (forall t :: ms <= t < at ==> WindowSum(w, BucketOf(t, slotMs)) >= threshold)
    && (forall t :: at <= t ==> WindowSum(w, BucketOf(t, slotMs)) < threshold)
  }

  lemma DrainFromSlot(w: Ring, slotMs: int, ms: int, threshold: nat, b: int)
    requires IsRing(w) && slotMs > 0 && WellPlaced(w, BucketOf(ms, slotMs))
    requires b <= BucketOf(ms, slotMs) < b + SLOTS
    requires After(w, b - 1) >= threshold > After(w, b)
    ensures DrainsAt(w, slotMs, ms, threshold, (b + SLOTS) * slotMs)
  {
    var now, at := BucketOf(ms, slotMs), (b + SLOTS) * slotMs;
    BucketOrder(ms, slotMs, b + SLOTS);
    forall t | ms <= t
      ensures WindowSum(w, BucketOf(t, slotMs)) >= threshold <==> t < at
    {
      var c := BucketOf(t, slotMs);
      BucketMonotone(ms, t, slotMs);
      BucketOrder(t, slotMs, b + SLOTS);
      SumIsAfter(w, now, c, SLOTS);
      if c < b + SLOTS {
        AfterFalls(w, c - SLOTS, b - 1, SLOTS);
      } else {
        AfterFalls(w, b, c - SLOTS, SLOTS);
      }
    }
  }

  lemma DrainIsNear(slotMs: int, ms: int, b: int)
    requires slotMs > 0 && b <= BucketOf(ms, slotMs)
    ensures (b + SLOTS) * slotMs - ms <= SLOTS * slotMs
  {
    BucketBounds(ms, slotMs);
    MulMonotone(b, BucketOf(ms, slotMs), slotMs);
    assert (b + SLOTS) * slotMs == b * slotMs + SLOTS * slotMs;
  }

  // ------------------------------------------------------------------ the program's loops

  method ComputeWindowSum(w: Ring, cur: int) returns (total: nat)
    requires IsRing(w)
    ensures total == WindowSum(w, cur)
  {
    total := 0;
    for i := 0 to SLOTS
      invariant total == SumTo(w, cur, i)
    {
      var slot := w[i];
      if slot.bucket <= cur && cur - slot.bucket < SLOTS {
        total := total + slot.count;
      }
    }
  }

  function Inserted(l: seq<Slot>, j: nat, s: Slot): seq<Slot>
    requires j <= |l|
  {
    l[..j] + [s] + l[j..]
  }

  lemma InsertedMembers(l: seq<Slot>, j: nat, s: Slot)
    requires j <= |l|
    ensures forall t :: t in Inserted(l, j, s) <==> t == s || t in l
  {
    var m := Inserted(l, j, s);
    assert l == l[..j] + l[j..];
    forall t | t in l
      ensures t in m
    {
      assert t in l[..j] || t in l[j..];
    }
  }

  lemma InsertedSorted(l: seq<Slot>, j: nat, s: Slot)
    requires Sorted(l) && j <= |l|
    requires j > 0 ==> l[j - 1].bucket < s.bucket
    requires j < |l| ==> l[j].bucket > s.bucket
    ensures Sorted(Inserted(l, j, s))
  {
    var m := Inserted(l, j, s);
    forall p, q | 0 <= p < q < |m|
      ensures m[p].bucket < m[q].bucket
    {
      var p', q' := if p < j then p else p - 1, if q < j then q else q - 1;
      if p != j && q != j {
        assert m[p] == l[p'] && m[q] == l[q'] && p' < q';
      } else if q == j {
        assert m[p] == l[p] && l[p].bucket <= l[j - 1].bucket;
      } else {
        assert m[q] == l[q'] && l[j].bucket <= l[q'].bucket;
      }
    }
  }

  /** One step of the insertion sort; the two parallel arrays of bucket numbers and counts
      are one array of slots here. */
  method Insert(live: array<Slot>, n: nat, s: Slot, ghost l: seq<Slot>) returns (ghost j: nat)
    requires n < live.Length && live[..n] == l && Sorted(l)
    requires forall i :: 0 <= i < n ==> l[i].bucket != s.bucket
    modifies live
    ensures j <= n && live[..n + 1] == Inserted(l, j, s) && Sorted(Inserted(l, j, s))
  {
    assert forall i :: 0 <= i < n ==> live[i] == live[..n][i];
    var k := n;
    while k > 0 && live[k - 1].bucket > s.bucket
      invariant 0 <= k <= n
      invariant forall i :: 0 <= i < k ==> live[i] == l[i]
      invariant forall i :: k < i <= n ==> live[i] == l[i - 1]
      invariant k < n ==> l[k].bucket > s.bucket
    {
      live[k] := live[k - 1];
      k := k - 1;
    }
    live[k] := s;
    j := k;
    assert live[..n + 1] == Inserted(l, j, s);
    InsertedSorted(l, j, s);
  }

  /** `l` is the sorted list of those among the first i slots that count at `cur`. */
  ghost predicate SortedSoFar(l: seq<Slot>, w: Ring, cur: int, i: nat)
    requires IsRing(w) && i <= SLOTS
  {
    && |l| <= i && Sorted(l)
    && (forall s :: s in l ==> InWindow(s, cur) && s.count > 0 && s.bucket % SLOTS < i)
    && (forall x :: cur - SLOTS <= x ==> ListAfter(l, x) == AfterTo(w, x, i))
  }

  lemma SkipSlot(l: seq<Slot>, w: Ring, cur: int, i: nat)
    requires IsRing(w) && WellPlaced(w, cur) && i < SLOTS && SortedSoFar(l, w, cur, i)
    requires w[i].count == 0 || !InWindow(w[i], cur)
    ensures SortedSoFar(l, w, cur, i + 1)
  {
  }

  lemma TakeSlot(l: seq<Slot>, w: Ring, cur: int, i: nat, j: nat)
    requires IsRing(w) && WellPlaced(w, cur) && i < SLOTS && SortedSoFar(l, w, cur, i)
    requires w[i].count > 0 && InWindow(w[i], cur) && j <= |l| && Sorted(Inserted(l, j, w[i]))
    ensures SortedSoFar(Inserted(l, j, w[i]), w, cur, i + 1)
  {
    InsertedMembers(l, j, w[i]);
    forall x | cur - SLOTS <= x
      ensures ListAfter(Inserted(l, j, w[i]), x) == AfterTo(w, x, i + 1)
    {
      ListAfterInsert(l, j, w[i], x);
    }
  }

  lemma SlotIsNew(l: seq<Slot>, w: Ring, cur: int, i: nat)
    requires IsRing(w) && WellPlaced(w, cur) && i < SLOTS && SortedSoFar(l, w, cur, i) && w[i].count > 0
    ensures forall k :: 0 <= k < |l| ==> l[k].bucket != w[i].bucket
  {
    forall k | 0 <= k < |l|
      ensures l[k].bucket != w[i].bucket
    {
      assert l[k] in l && w[i].bucket % SLOTS == i;
    }
  }

  /** The slots that count at `cur`, sorted by age. */
  method SortLiveSlots(w: Ring, cur: int, live: array<Slot>) returns (n: nat, ghost l: seq<Slot>)
    requires IsRing(w) && WellPlaced(w, cur) && live.Length == SLOTS
    modifies live
    ensures n <= SLOTS && live[..n] == l && SortedSoFar(l, w, cur, SLOTS)
  {
    n, l := 0, [];
    for i := 0 to SLOTS
      invariant n <= i && live[..n] == l && SortedSoFar(l, w, cur, i)
    {
      var slot := w[i];
      if slot.count == 0 {
        SkipSlot(l, w, cur, i);
        continue;
      }
      if slot.bucket > cur || cur - slot.bucket >= SLOTS {
        SkipSlot(l, w, cur, i);
        continue;
      }
      SlotIsNew(l, w, cur, i);
      ghost var j := Insert(live, n, slot, l);
      TakeSlot(l, w, cur, i, j);
      l := Inserted(l, j, slot);
      n := n + 1;
    }
  }

  /** The bucket up to which i slots have been taken away. */
  function Before(l: seq<Slot>, i: nat, cur: int): int
    requires i <= |l|
  {
    if i == 0 then cur - SLOTS else l[i - 1].bucket
  }

  lemma DrainStep(l: seq<Slot>, i: nat, cur: int, w: Ring)
    requires i < |l| && IsRing(w) && SortedSoFar(l, w, cur, SLOTS)
    ensures After(w, Before(l, i, cur)) == After(w, l[i].bucket - 1) == After(w, l[i].bucket) + l[i].count
  {
    assert l[i] in l && InWindow(l[i], cur);
    if i > 0 { assert l[i - 1] in l; }
    ListAfterDrops(l, i);
    ListAfterConstant(l, Before(l, i, cur), l[i].bucket - 1);
  }

  /** The admission time is exact, and the fallback after the loop is never reached. */
  method DrainAtMs(w: Ring, slotMs: int, ghost ms: int, cur: int, total: nat, limit: int) returns (at: int)
    requires IsRing(w) && slotMs > 0 && cur == BucketOf(ms, slotMs) && WellPlaced(w, cur)
    requires total == WindowSum(w, cur) && total >= Threshold(limit)
    ensures DrainsAt(w, slotMs, ms, Threshold(limit), at)
    ensures at - ms <= SLOTS * slotMs
  {
    var threshold := Threshold(limit);
    var live := new Slot[SLOTS](i => Slot(0, 0));
    ghost var l;
    var n: nat;
    n, l := SortLiveSlots(w, cur, live);
    SumIsAfter(w, cur, cur, SLOTS);
    var acc := total;
    for i := 0 to n
      invariant acc == After(w, Before(l, i, cur))
      invariant acc >= threshold && live[..n] == l
    {
      assert l[i] == live[..n][i] && l[i] in l && InWindow(l[i], cur);
      DrainStep(l, i, cur, w);
      acc := acc - live[i].count;
      if acc < threshold {
        DrainFromSlot(w, slotMs, ms, threshold, l[i].bucket);
        DrainIsNear(slotMs, ms, l[i].bucket);
        return (live[i].bucket + SLOTS) * slotMs;
      }
    }
    ListAfterAll(l, Before(l, n, cur));
    assert false;
    return (cur + 1) * slotMs;
  }

  datatype Decision = Decision(throttled: bool, retryAfterSeconds: nat, global: bool)

  const ADMITTED := Decision(false, 0, false)

  /** How long a throttled caller is told to wait is the least whole number of seconds, at
      least one, after which it would be admitted; and it never exceeds the window. */
  ghost predicate RetryIsExact(w: Ring, slotMs: int, ms: int, limit: nat, seconds: nat)
    requires IsRing(w) && slotMs > 0
  {
    && 1 <= seconds <= (SLOTS * slotMs + 999) / 1000
    && (forall t :: ms <= t <= ms + (seconds - 1) * 1000 ==> WindowSum(w, BucketOf(t, slotMs)) >= limit)
    && (forall t :: ms + seconds * 1000 <= t ==> WindowSum(w, BucketOf(t, slotMs)) < limit)
  }

  method Evaluate(w: Ring, limit: int, windowMs: int, ms: int) returns (d: Decision)
    requires IsRing(w) && WellPlaced(w, BucketOf(ms, SlotDurationMs(windowMs)))
    ensures !d.global
    ensures d.throttled <==> limit > 0 && WindowSum(w, BucketOf(ms, SlotDurationMs(windowMs))) >= limit
    ensures d.throttled ==> RetryIsExact(w, SlotDurationMs(windowMs), ms, limit, d.retryAfterSeconds)
    ensures !d.throttled ==> d == ADMITTED
  {
    d := ADMITTED;
    if limit <= 0 {
      return;
    }
    var slotMs := SlotDurationMs(windowMs);
    var cur := BucketOf(ms, slotMs);
    var total := ComputeWindowSum(w, cur);
    if total < limit {
      return;
    }
    var drainAt := DrainAtMs(w, slotMs, ms, cur, total, limit);
    var remainMs := drainAt - ms;
    var seconds := (remainMs + 999) / 1000;
    d := Decision(true, if seconds < 1 then 1 else seconds, false);
  }

  /** With the shortest window the configuration allows, "five slots" is "the window". */
  lemma RetryWithinWindow(windowMs: int)
    requires windowMs >= SLOTS
    ensures (SLOTS * SlotDurationMs(windowMs) + 999) / 1000 <= (windowMs + 999) / 1000
  {
  }
}
