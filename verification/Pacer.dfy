/** The request pacer (internal/pacer/pacer.go): slots handed out in call order. Times are
    nanoseconds; next is None until the first call, which is the zero time of the source. */
module Pacing {
  import opened Ints

  function SlotAt(next: Option<int>, now: int): int {
    if next.Some? && now <= next.value then next.value else now
  }

  /** The slots given to calls at these clock readings, cancelled calls included. */
  function Slots(calls: seq<int>, interval: nat): (slots: seq<int>)
    ensures |slots| == |calls|
  {
    if calls == [] then []
    else
      var n := |calls| - 1;
      var before := Slots(calls[..n], interval);
      before + [SlotAt(if n == 0 then None else Some(before[n - 1] + interval), calls[n])]
  }

  lemma SlotsSnoc(calls: seq<int>, interval: nat, now: int)
    ensures var before := Slots(calls, interval);
            Slots(calls + [now], interval)
              == before + [SlotAt(if calls == [] then None else Some(before[|calls| - 1] + interval), now)]
  {
    assert (calls + [now])[..|calls|] == calls;
  }

  class Pacer {
    var next: Option<int>
    const interval: nat
    ghost var calls: seq<int>

    /** next is one interval behind the last slot handed out. */
    ghost predicate Valid()
      reads this
    {
      next == if calls == [] then None else Some(Slots(calls, interval)[|calls| - 1] + interval)
    }

    constructor (interval: nat)
      ensures Valid() && calls == [] && this.interval == interval
    {
      this.interval, next, calls := interval, None, [];
    }

    /** Wait takes its slot under the lock, whether or not the wait is then cancelled. ok is
        false when the context had ended: at once if the slot has passed by the second clock
        reading, else while waiting for it. */
    method Wait(now: int, after: int, endedNow: bool, endsFirst: bool) returns (slot: int, ok: bool)
      requires Valid()
      modifies this
      ensures Valid() && calls == old(calls) + [now]
      ensures Slots(calls, interval) == old(Slots(calls, interval)) + [slot]
      ensures ok <==> if slot <= after then !endedNow else !endsFirst
    {
      hide Slots;
      slot := now;
      if next.Some? && now <= next.value {
        slot := next.value;
      }
      next := Some(slot + interval);
      SlotsSnoc(calls, interval, now);
      calls := calls + [now];
      if slot - after <= 0 {
        return slot, !endedNow;
      }
      ok := !endsFirst;
    }
  }

  // ---- the closed form ----

  /** When call n would go if call i were the last not to have been held up. */
  function Bound(calls: seq<int>, interval: nat, i: nat, n: nat): int
    requires i <= n < |calls|
  {
    calls[i] + (n - i) * interval
  }

  /** Slot n is the greatest of those over all earlier calls. */
  ghost predicate IsGreatestBound(calls: seq<int>, interval: nat, n: nat, slot: int)
    requires n < |calls|
  {
    && (exists i: nat | i <= n :: slot == Bound(calls, interval, i, n))
    && (forall i: nat | i <= n :: Bound(calls, interval, i, n) <= slot)
  }

  lemma SlotsPrefix(calls: seq<int>, interval: nat, n: nat)
    requires n <= |calls|
    ensures Slots(calls[..n], interval) == Slots(calls, interval)[..n]
    decreases |calls| - n
  {
    if n < |calls| {
      SlotsPrefix(calls, interval, n + 1);
      assert calls[..n + 1][..n] == calls[..n];
    } else {
      assert calls[..n] == calls;
    }
  }

  /** A slot is its call's own time or one interval behind the slot before. */
  lemma SlotStep(calls: seq<int>, interval: nat, n: nat)
    requires n < |calls|
    ensures var slots := Slots(calls, interval);
            slots[n] == if n == 0 then calls[0] else Max(calls[n], slots[n - 1] + interval)
  {
    SlotsPrefix(calls, interval, n);
    SlotsPrefix(calls, interval, n + 1);
    assert calls[..n + 1][..n] == calls[..n];
    assert Slots(calls, interval)[n] == Slots(calls[..n + 1], interval)[n];
  }

  lemma BoundMoves(calls: seq<int>, interval: nat, i: nat, n: nat)
    requires i < n < |calls|
    ensures Bound(calls, interval, i, n) == Bound(calls, interval, i, n - 1) + interval
  {
    assert (n - i) * interval == (n - 1 - i) * interval + interval;
  }

  /** The whole history of calls decides slot n: it is the maximum over i <= n of call i's
      time plus n - i intervals. */
  lemma {:induction false} SlotIsGreatestBound(calls: seq<int>, interval: nat, n: nat)
    requires n < |calls|
    ensures IsGreatestBound(calls, interval, n, Slots(calls, interval)[n])
  {
    var slots := Slots(calls, interval);
    SlotStep(calls, interval, n);
    assert Bound(calls, interval, n, n) == calls[n];
    if n > 0 {
      SlotIsGreatestBound(calls, interval, n - 1);
      forall i: nat | i <= n ensures Bound(calls, interval, i, n) <= slots[n] {
        if i < n {
          BoundMoves(calls, interval, i, n);
        }
      }
      if slots[n] != calls[n] {
        var i: nat :| i <= n - 1 && slots[n - 1] == Bound(calls, interval, i, n - 1);
        BoundMoves(calls, interval, i, n);
      }
    }
  }

  /** No slot precedes its call, and slots keep their distance. */
  lemma {:induction false} SlotsApart(calls: seq<int>, interval: nat, i: nat, j: nat)
    requires i <= j < |calls|
    ensures calls[i] <= Slots(calls, interval)[i]
    ensures Slots(calls, interval)[i] + (j - i) * interval <= Slots(calls, interval)[j]
    decreases j - i
  {
    SlotStep(calls, interval, i);
    if i < j {
      SlotsApart(calls, interval, i, j - 1);
      SlotStep(calls, interval, j);
      assert (j - i) * interval == (j - 1 - i) * interval + interval;
    }
  }

  function InWindow(slots: seq<int>, from: int, to: int): set<nat> {
    set i: nat | i < |slots| && from <= slots[i] < to
  }

  lemma {:induction false} Spread(members: set<nat>, low: nat, size: nat)
    requires forall i | i in members :: low <= i < low + size
    ensures |members| <= size
    decreases size
  {
    if members != {} {
      Spread(members - {low + size - 1}, low, size - 1);
    }
  }

  lemma {:induction false} Lowest(members: set<nat>, some: nat) returns (low: nat)
    requires some in members
    ensures low in members && forall i | i in members :: low <= i
    decreases some
  {
    low := some;
    if i :| i in members && i < some {
      low := Lowest(members, i);
    }
  }

  /** The request budget: any half-open window of m intervals holds at most m slots, however
      many calls are made and at whatever times. */
  lemma WindowHoldsAtMost(calls: seq<int>, interval: nat, from: int, m: nat)
    requires 0 < interval
    ensures |InWindow(Slots(calls, interval), from, from + m * interval)| <= m
  {
    var slots := Slots(calls, interval);
    var members := InWindow(slots, from, from + m * interval);
    if members != {} {
      var some :| some in members;
      var low := Lowest(members, some);
      forall i | i in members ensures low <= i < low + m {
        SlotsApart(calls, interval, low, i);
        if low + m <= i {
          Scale(i - low, m, interval);
        }
      }
      Spread(members, low, m);
    }
  }

  lemma Scale(a: nat, b: nat, c: nat)
    requires b <= a
    ensures b * c <= a * c
  {
  }
}
