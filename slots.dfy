/**
 The circular-overwrite discipline of a fixed-capacity replay buffer, stated on
 values. A buffer of capacity `cap` that has received the stores `h` (in order,
 the k-th store written at slot `k % cap`) holds `SlotAfter(h, cap, i, empty)`
 at slot `i`, where `empty` is what the slot held when the buffer was built.
 */
module CircularSlots {

  import opened DivMod

  /** What slot `i` holds after the stores `h`: the last store written there. */
  function SlotAfter<T>(h: seq<T>, cap: nat, i: nat, empty: T): (r: T)
    requires cap > 0
    ensures r == empty || r in h
    decreases |h|
  {
    if |h| == 0 then empty
    else if (|h| - 1) % cap == i then h[|h| - 1]
    else SlotAfter(h[..|h| - 1], cap, i, empty)
  }

  /** The slots of the whole buffer, in slot order. */
  function Slots<T>(h: seq<T>, cap: nat, empty: T): (s: seq<T>)
    requires cap > 0
    ensures |s| == cap
    ensures forall i :: 0 <= i < cap ==> s[i] == SlotAfter(h, cap, i, empty)
  {
    seq(cap, i requires 0 <= i < cap => SlotAfter(h, cap, i, empty))
  }

  /** The number of slots that have been written at least once. */
  function ValidCount(n: nat, cap: nat): (m: nat)
    ensures m <= n && m <= cap && (m == n || m == cap)
  {
    if n < cap then n else cap
  }

  /** The store number of the most recent store that was written at slot `i`. */
  function LastWriteIndex(n: nat, cap: nat, i: nat): (j: nat)
    requires i < cap && i < n
    ensures j < n && j % cap == i
    ensures j + cap >= n
  {
    var q := (n - 1 - i) / cap;
    QuotientBounds(n - 1 - i, cap);
    assert (i + q * cap) % cap == i by { ModOfMultipleShift(i, q, cap); }
    i + q * cap
  }

  lemma QuotientBounds(d: nat, cap: nat)
    requires cap > 0
    ensures (d / cap) * cap <= d < (d / cap) * cap + cap
  {
  }

  lemma ModOfMultipleShift(i: nat, q: nat, cap: nat)
    requires i < cap
    ensures (i + q * cap) % cap == i
  {
    LemmaDivModUnique(i + q * cap, cap, q, i);
  }

  /** Two store numbers less than `cap` apart land in different slots. */
  lemma NearStoresDistinctSlots(a: nat, b: nat, cap: nat)
    requires cap > 0 && a < b < a + cap
    ensures a % cap != b % cap
  {
    var q, r := a / cap, a % cap;
    var d := b - a;
    if r + d < cap {
      LemmaDivModUnique(b, cap, q, r + d);
    } else {
      LemmaDivModUnique(b, cap, q + 1, r + d - cap);
    }
  }

  /** A store only changes the slot it is written at. */
  lemma SlotAfterAppend<T>(h: seq<T>, x: T, cap: nat, i: nat, empty: T)
    requires cap > 0
    ensures SlotAfter(h + [x], cap, i, empty) == if |h| % cap == i then x else SlotAfter(h, cap, i, empty)
  {
    assert (h + [x])[..|h|] == h;
  }

  /**
   Circular overwrite: every one of the last `cap` stores is still present, at
   slot `j % cap`.
   */
  lemma {:induction false} RecentStoreRetained<T>(h: seq<T>, cap: nat, j: nat, empty: T)
    requires cap > 0 && j < |h| && j + cap >= |h|
    ensures SlotAfter(h, cap, j % cap, empty) == h[j]
    decreases |h|
  {
    var n := |h|;
    if j == n - 1 {
    } else {
      NearStoresDistinctSlots(j, n - 1, cap);
      RecentStoreRetained(h[..n - 1], cap, j, empty);
    }
  }

  /** A slot that no store has reached yet still holds its initial value. */
  lemma {:induction false} UnwrittenSlotEmpty<T>(h: seq<T>, cap: nat, i: nat, empty: T)
    requires |h| <= i < cap
    ensures SlotAfter(h, cap, i, empty) == empty
    decreases |h|
  {
    if |h| > 0 {
      assert (|h| - 1) % cap == |h| - 1;
      UnwrittenSlotEmpty(h[..|h| - 1], cap, i, empty);
    }
  }

  /** A written slot holds the most recent store made at that slot. */
  lemma SlotHoldsLastWrite<T>(h: seq<T>, cap: nat, i: nat, empty: T)
    requires i < cap && i < |h|
    ensures SlotAfter(h, cap, i, empty) == h[LastWriteIndex(|h|, cap, i)]
  {
    RecentStoreRetained(h, cap, LastWriteIndex(|h|, cap, i), empty);
  }

  /**
   Once the buffer has wrapped, the oldest retained store (number n - cap) sits
   at slot n % cap; slot i holds the store that many places further on.
   */
  lemma WrappedSlot<T>(h: seq<T>, cap: nat, i: nat, empty: T)
    requires 0 < cap <= |h| && i < cap
    ensures var n, start := |h|, |h| % cap;
            SlotAfter(h, cap, i, empty) == h[if i < start then n - start + i else n - cap - start + i]
  {
    var n, start := |h|, |h| % cap;
    var j := if i < start then n - start + i else n - cap - start + i;
    if i < start {
      LemmaDivModUnique(j, cap, n / cap, i);
    } else {
      LemmaDivModUnique(j, cap, n / cap - 1, i);
    }
    RecentStoreRetained(h, cap, j, empty);
  }

  /** Before the buffer wraps, slot i holds store i. */
  lemma UnwrappedSlots<T>(h: seq<T>, cap: nat, empty: T)
    requires |h| < cap
    ensures Slots(h, cap, empty)[..|h|] == h
  {
    var s := Slots(h, cap, empty);
    forall i | 0 <= i < |h| ensures s[i] == h[i] {
      LemmaDivModUnique(i, cap, 0, i);
      RecentStoreRetained(h, cap, i, empty);
    }
  }

  /** After the buffer wraps, the slots in order are the last `cap` stores rotated by n % cap. */
  lemma WrappedSlots<T>(h: seq<T>, cap: nat, empty: T)
    requires 0 < cap <= |h|
    ensures var w, start := h[|h| - cap..], |h| % cap;
            Slots(h, cap, empty) == w[cap - start..] + w[..cap - start]
  {
    var n, start := |h|, |h| % cap;
    var s, w := Slots(h, cap, empty), h[n - cap..];
    var r := w[cap - start..] + w[..cap - start];
    forall i | 0 <= i < cap ensures s[i] == r[i] {
      WrappedSlot(h, cap, i, empty);
    }
  }

  /**
   The written slots hold exactly the last `ValidCount` stores, each once:
   read in slot order they are a rotation of the most recent stores.
   */
  lemma ValidSlotsAreRecentStores<T>(h: seq<T>, cap: nat, empty: T)
    requires cap > 0
    ensures var m := ValidCount(|h|, cap);
            multiset(Slots(h, cap, empty)[..m]) == multiset(h[|h| - m..])
  {
    var n, m := |h|, ValidCount(|h|, cap);
    if n < cap {
      UnwrappedSlots(h, cap, empty);
      assert h[n - m..] == h;
    } else {
      WrappedSlots(h, cap, empty);
      var w, start := h[n - cap..], n % cap;
      var left, right := w[cap - start..], w[..cap - start];
      assert Slots(h, cap, empty)[..m] == left + right;
      assert w == right + left;
    }
  }

  /**
   A capacity-5 buffer that received seven stores marked 1..7 only ever holds
   marks 3..7 in its written slots.
   */
  lemma SevenStoresIntoFiveSlots()
    ensures forall i :: 0 <= i < 5 ==> SlotAfter([1, 2, 3, 4, 5, 6, 7], 5, i, 0) in {3, 4, 5, 6, 7}
    ensures Slots([1, 2, 3, 4, 5, 6, 7], 5, 0) == [6, 7, 3, 4, 5]
  {
    var h := [1, 2, 3, 4, 5, 6, 7];
    forall i | 0 <= i < 5 ensures SlotAfter(h, 5, i, 0) == [6, 7, 3, 4, 5][i] {
      var j := if i < 2 then i + 5 else i;
      assert j % 5 == i;
      RecentStoreRetained(h, 5, j, 0);
    }
  }
}
