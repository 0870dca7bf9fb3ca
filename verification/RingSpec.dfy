/** What the ring computes, on values: slots addressed modulo the capacity by
    positions that never wrap. */
module RingSpec {
  import opened Words

  /** The slot of a position. */
  function SlotOf(size: nat, position: nat): (a: nat)
    requires size > 0
    ensures a < size
  {
    position % size
  }

  /** How many slots after that of `position`, going round, slot `a` comes. */
  function Distance(size: nat, position: nat, a: nat): (d: nat)
    requires a < size
    ensures d < size
  {
    var i := SlotOf(size, position);
    if a >= i then a - i else a - i + size
  }

  /** The k-th address of the two-segment copy that starts at index `idx`. */
  function SplitIndex(size: nat, idx: nat, k: nat): (a: nat)
    requires idx < size && k < size
    ensures a < size
  {
    if k < size - idx then idx + k else k - (size - idx)
  }

  /** The n elements from position `tail` on. */
  function Live<T>(slots: seq<T>, tail: nat, n: nat): (q: seq<T>)
    requires |slots| > 0
    ensures |q| == n
  {
    seq(n, i requires 0 <= i < n => slots[SlotOf(|slots|, tail + i)])
  }

  lemma LiveAt<T>(slots: seq<T>, tail: nat, n: nat, i: nat)
    requires |slots| > 0 && i < n
    ensures Live(slots, tail, n)[i] == slots[SlotOf(|slots|, tail + i)]
  {
  }

  /** One push after another: each writes the slot of its own position. */
  function PushAll<T>(slots: seq<T>, head: nat, xs: seq<T>): (r: seq<T>)
    requires |slots| > 0
    ensures |r| == |slots|
    decreases |xs|
  {
    if xs == [] then slots
    else PushAll(slots[SlotOf(|slots|, head) := xs[0]], head + 1, xs[1..])
  }

  lemma Next(size: nat, position: nat)
    requires size > 0
    ensures SlotOf(size, position + 1) ==
            if SlotOf(size, position) + 1 == size then 0 else SlotOf(size, position) + 1
  {
    var q, i := position / size, position % size;
    assert position == q * size + i;
    if i + 1 == size {
      assert position + 1 == (q + 1) * size + 0;
      ModUnique(position + 1, size, q + 1, 0);
    } else {
      ModUnique(position + 1, size, q, i + 1);
    }
  }

  /** The two-segment copy visits the slots of consecutive positions. */
  lemma {:induction false} SplitVisitsPositions(size: nat, position: nat, k: nat)
    requires k < size
    ensures SplitIndex(size, SlotOf(size, position), k) == SlotOf(size, position + k)
  {
    if k > 0 {
      SplitVisitsPositions(size, position, k - 1);
      Next(size, position + k - 1);
    }
  }

  /** Positions less than one lap apart have different slots. */
  lemma Apart(size: nat, a: nat, b: nat)
    requires a < b < a + size
    ensures SlotOf(size, a) != SlotOf(size, b)
  {
    ModApart(a, b, size);
  }

  /** Iterated pushes leave in each slot the last element pushed there. */
  lemma {:induction false} PushAllAt<T>(slots: seq<T>, head: nat, xs: seq<T>, a: nat)
    requires a < |slots| && |xs| <= |slots|
    ensures PushAll(slots, head, xs)[a] ==
            var d := Distance(|slots|, head, a);
            if d < |xs| then xs[d] else slots[a]
    decreases |xs|
  {
    if xs != [] {
      var slots' := slots[SlotOf(|slots|, head) := xs[0]];
      Next(|slots|, head);
      PushAllAt(slots', head + 1, xs[1..], a);
    }
  }

  lemma DistanceOf(size: nat, head: nat, position: nat)
    requires size > 0
    requires head <= position < head + size
    ensures Distance(size, head, SlotOf(size, position)) == position - head
  {
    SplitVisitsPositions(size, head, position - head);
  }

  lemma DistanceBehind(size: nat, head: nat, position: nat)
    requires size > 0
    requires position < head <= position + size
    ensures Distance(size, head, SlotOf(size, position)) == position + size - head
  {
    if head < position + size {
      SplitVisitsPositions(size, position, head - position);
    } else {
      ModLaps(position, size, 1);
    }
  }

  /** Pushing into free space appends to the contents and disturbs nothing. */
  lemma PushAppends<T>(slots: seq<T>, tail: nat, head: nat, xs: seq<T>)
    requires |slots| > 0 && tail <= head && head - tail + |xs| <= |slots|
    ensures Live(PushAll(slots, head, xs), tail, head - tail + |xs|) == Live(slots, tail, head - tail) + xs
  {
    var size, r, n := |slots|, PushAll(slots, head, xs), head - tail;
    forall i | 0 <= i < n + |xs|
      ensures Live(r, tail, n + |xs|)[i] == (Live(slots, tail, n) + xs)[i]
    {
      var a := SlotOf(size, tail + i);
      PushAllAt(slots, head, xs, a);
      if i < n {
        DistanceBehind(size, head, tail + i);
      } else {
        DistanceOf(size, head, tail + i);
      }
    }
  }

  /** One bulk push is its elements pushed one by one. */
  lemma {:induction false} PushAllSplit<T>(slots: seq<T>, head: nat, xs: seq<T>, ys: seq<T>)
    requires |slots| > 0
    ensures PushAll(slots, head, xs + ys) == PushAll(PushAll(slots, head, xs), head + |xs|, ys)
    decreases |xs|
  {
    if xs == [] {
      assert xs + ys == ys;
    } else {
      assert (xs + ys)[1..] == xs[1..] + ys;
      PushAllSplit(slots[SlotOf(|slots|, head) := xs[0]], head + 1, xs[1..], ys);
    }
  }

  lemma LiveSplit<T>(slots: seq<T>, tail: nat, n: nat, m: nat)
    requires |slots| > 0 && m <= n
    ensures Live(slots, tail, n)[..m] == Live(slots, tail, m)
    ensures Live(slots, tail, n)[m..] == Live(slots, tail + m, n - m)
  {
    forall i | 0 <= i < n - m
      ensures Live(slots, tail, n)[m..][i] == Live(slots, tail + m, n - m)[i]
    {
      assert tail + (m + i) == (tail + m) + i;
    }
  }
}
