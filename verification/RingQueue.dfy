/** The single-producer/single-consumer ring as one object: an array addressed
    through masked 32-bit counters. Ghost counters that never wrap give each
    method its meaning on the queue contents. */
module RingQueue {
  import opened Wrappers
  import opened Words
  import opened RingSpec

  class Ring<T(0)> {
    const arr: array<T>
    const size: Word
    const mask: Word
    var inIdx: Word
    var outIdx: Word
    ghost var head: nat
    ghost var tail: nat

    ghost predicate Valid()
      reads this
    {
      && IsCapacity(size)
      && mask == size - 1
      && arr.Length == size
      && tail <= head <= tail + size
      && inIdx == Wrap(head)
      && outIdx == Wrap(tail)
    }

    ghost function Contents(): (q: seq<T>)
      requires Valid()
      reads this, arr
      ensures |q| == head - tail
    {
      Live(arr[..], tail, head - tail)
    }

    constructor (capacity: Word)
      requires IsCapacity(capacity)
      ensures Valid() && fresh(arr)
      ensures size == capacity && head == 0 && tail == 0 && Contents() == []
    {
      arr := new T[capacity];
      size, mask := capacity, capacity - 1;
      inIdx, outIdx := 0, 0;
      head, tail := 0, 0;
    }

    /** The words the code computes are the true quantities, wrapped or not. */
    lemma Words32()
      requires Valid()
      ensures 0 < size <= HALF
      ensures Add(Sub(size, inIdx), outIdx) == size - |Contents()|
      ensures Sub(inIdx, outIdx) == |Contents()|
      ensures And(inIdx, mask) == SlotOf(size, head)
      ensures And(outIdx, mask) == SlotOf(size, tail)
    {
      hide IsCapacity, Wrap, And, Add, Sub, Live;
      var _ := CapacityDivides(size);
      FreeSpace(size, head, tail);
      Occupancy(head, tail);
      MaskedIndex(size, head);
      MaskedIndex(size, tail);
    }

    /** The signed result misreports the occupancy of exactly one state: a full
        ring of 2^31 slots. */
    method ReadAvailable() returns (n: int)
      requires Valid()
      ensures n == |Contents()| <==> |Contents()| != HALF
      ensures |Contents()| == HALF ==> n == -HALF
    {
      Words32();
      n := ToInt(Sub(inIdx, outIdx));
    }

    method TryPush(t: T) returns (ok: bool)
      requires Valid()
      modifies this`inIdx, this`head, arr
      ensures Valid()
      ensures ok <==> |old(Contents())| < size
      ensures head == if ok then old(head) + 1 else old(head)
      ensures arr[..] == if ok then PushAll(old(arr[..]), old(head), [t]) else old(arr[..])
      ensures Contents() == if ok then old(Contents()) + [t] else old(Contents())
    {
      Words32();
      if Add(Sub(size, inIdx), outIdx) == 0 {
        return false;
      }
      arr[And(inIdx, size - 1)] := t;
      PushAppends(old(arr[..]), tail, head, [t]);
      Publish(1);
      return true;
    }

    method Pop() returns (r: Option<T>)
      requires Valid()
      modifies this`outIdx, this`tail
      ensures Valid()
      ensures r == if old(Contents()) == [] then None else Some(old(Contents())[0])
      ensures tail == if r.None? then old(tail) else old(tail) + 1
      ensures Contents() == if r.None? then old(Contents()) else old(Contents())[1..]
    {
      Words32();
      if Sub(inIdx, outIdx) == 0 {
        return None;
      }
      r := Some(arr[And(outIdx, size - 1)]);
      Consume(1);
    }

    /** The slot the producer may fill in place; nothing becomes visible yet. */
    method TryReserve() returns (slot: Option<nat>)
      requires Valid()
      ensures slot.None? <==> |Contents()| == size
      ensures slot.Some? ==> slot.value == SlotOf(size, head)
      ensures slot.Some? ==> forall p :: tail <= p < head ==> SlotOf(size, p) != slot.value
    {
      Words32();
      if Add(Sub(size, inIdx), outIdx) == 0 {
        return None;
      }
      slot := Some(And(inIdx, mask));
      forall p | tail <= p < head
        ensures SlotOf(size, p) != slot.value
      {
        Apart(size, p, head);
      }
    }

    /** `in += n`: what the next n slots hold becomes readable. */
    method Publish(n: Word)
      requires Valid()
      requires |Contents()| + n <= size
      modifies this`inIdx, this`head
      ensures Valid()
      ensures head == old(head) + n
      ensures Contents() == Live(arr[..], tail, old(head) - tail + n)
    {
      Advance(head, n);
      inIdx, head := Wrap(inIdx + n), head + n;
    }

    /** Publishes whatever the reserved slot holds by now. */
    method Finish()
      requires Valid()
      requires |Contents()| < size
      modifies this`inIdx, this`head
      ensures Valid()
      ensures head == old(head) + 1
      ensures Contents() == old(Contents()) + [arr[SlotOf(size, old(head))]]
    {
      Publish(1);
    }

    /** How many elements may be read in place, and where the first one is. The
        count comes back as an `int`. */
    method Peek(max: Word) returns (n: int, at: nat)
      requires Valid()
      ensures n == ToInt(Min(max, |Contents()|))
      ensures at == SlotOf(size, tail)
    {
      Words32();
      n := ToInt(Min(max, Sub(inIdx, outIdx)));
      at := And(outIdx, mask);
    }

    method Consume(n: Word)
      requires Valid()
      requires n <= |Contents()|
      modifies this`outIdx, this`tail
      ensures Valid()
      ensures tail == old(tail) + n
      ensures Contents() == old(Contents())[n..]
    {
      LiveSplit(arr[..], tail, head - tail, n);
      Advance(tail, n);
      outIdx, tail := Wrap(outIdx + n), tail + n;
    }

    /** The spin of the waiting calls. `releases` is what the consumer gives back
        between one sample and the next; the spin ends at the first one that is not
        zero, and would not end without one. */
    method AwaitSpace(releases: seq<Word>)
      requires Valid()
      requires |Contents()| == size ==> ReleaseOf(releases).Some? && ReleaseOf(releases).value <= size
      modifies this`outIdx, this`tail
      ensures Valid() && |Contents()| < size
      ensures Contents() == if |old(Contents())| < size then old(Contents())
                            else old(Contents())[ReleaseOf(releases).value..]
    {
      Words32();
      var polls := 0;
      while Add(Sub(size, inIdx), outIdx) == 0
        invariant Valid() && polls <= |releases|
        invariant |old(Contents())| < size ==> polls == 0
        invariant Add(Sub(size, inIdx), outIdx) == 0 ==>
                    Contents() == old(Contents()) && ReleaseOf(releases[polls..]) == ReleaseOf(releases)
        invariant Add(Sub(size, inIdx), outIdx) != 0 ==>
                    |Contents()| < size
                    && Contents() == if |old(Contents())| < size then old(Contents())
                                     else old(Contents())[ReleaseOf(releases).value..]
        decreases |releases| - polls
      {
        Words32();
        Consume(releases[polls]);
        Words32();
        polls := polls + 1;
      }
    }

    method WaitPush(t: T, releases: seq<Word>)
      requires Valid()
      requires |Contents()| == size ==> ReleaseOf(releases).Some? && ReleaseOf(releases).value <= size
      modifies this, arr
      ensures Valid()
      ensures Contents() == (if |old(Contents())| < size then old(Contents())
                             else old(Contents())[ReleaseOf(releases).value..]) + [t]
    {
      AwaitSpace(releases);
      var _ := TryPush(t);
    }

    method Reserve(releases: seq<Word>) returns (slot: nat)
      requires Valid()
      requires |Contents()| == size ==> ReleaseOf(releases).Some? && ReleaseOf(releases).value <= size
      modifies this`outIdx, this`tail
      ensures Valid() && |Contents()| < size
      ensures slot == SlotOf(size, head) && forall p :: tail <= p < head ==> SlotOf(size, p) != slot
      ensures Contents() == if |old(Contents())| < size then old(Contents())
                            else old(Contents())[ReleaseOf(releases).value..]
    {
      AwaitSpace(releases);
      var r := TryReserve();
      slot := r.value;
    }

    /** Bulk push, block-copy worker. A negative `n` arrives as a huge unsigned
        word; the caller owes as many elements as will be copied. */
    method PushBlock(ret: seq<T>, n: int) returns (pushed: int)
      requires Valid()
      requires Min(Wrap(n), size - |Contents()|) <= |ret|
      modifies this`inIdx, this`head, arr
      ensures Valid()
      ensures var len := Min(Wrap(n), size - |old(Contents())|);
              && pushed == ToInt(len)
              && head == old(head) + len
              && arr[..] == PushAll(old(arr[..]), old(head), ret[..len])
              && Contents() == old(Contents()) + ret[..len]
    {
      hide And, IsCapacity, Wrap, SlotOf;
      Words32();
      var len := Min(Wrap(n), Add(Sub(size, inIdx), outIdx));
      if len == 0 {
        return 0;
      }
      var idx := And(inIdx, mask);
      var l := Min(len, size - idx);
      CopyIn(arr, idx, ret[..l]);
      CopyIn(arr, 0, ret[l..len]);
      TwoSegments(old(arr[..]), arr[..], tail, head, ret[..len]);
      Publish(len);
      pushed := ToInt(len);
    }

    /** Bulk push, element-loop worker. */
    method PushEach(ret: seq<T>, n: int) returns (pushed: int)
      requires Valid()
      requires Min(Wrap(n), size - |Contents()|) <= |ret|
      modifies this`inIdx, this`head, arr
      ensures Valid()
      ensures var len := Min(Wrap(n), size - |old(Contents())|);
              && pushed == ToInt(len)
              && head == old(head) + len
              && arr[..] == PushAll(old(arr[..]), old(head), ret[..len])
              && Contents() == old(Contents()) + ret[..len]
    {
      hide And, IsCapacity, Wrap, SlotOf;
      Words32();
      var len := Min(Wrap(n), Add(Sub(size, inIdx), outIdx));
      if len == 0 {
        return 0;
      }
      var idx := And(inIdx, mask);
      var l := Min(len, size - idx);
      MoveIn(arr, idx, ret[..l]);
      MoveIn(arr, 0, ret[l..len]);
      TwoSegments(old(arr[..]), arr[..], tail, head, ret[..len]);
      Publish(len);
      pushed := ToInt(len);
    }

    /** Bulk pop, block-copy worker. */
    method PopBlock(ret: array<T>, n: int) returns (popped: int)
      requires Valid() && ret != arr
      requires Min(Wrap(n), |Contents()|) <= ret.Length
      modifies this`outIdx, this`tail, ret
      ensures Valid()
      ensures var len := Min(Wrap(n), |old(Contents())|);
              && popped == ToInt(len)
              && tail == old(tail) + len
              && ret[..] == old(Contents())[..len] + old(ret[len..])
              && Contents() == old(Contents())[len..]
    {
      hide And, IsCapacity, Wrap, SlotOf;
      Words32();
      var len := Min(Wrap(n), Sub(inIdx, outIdx));
      if len == 0 {
        return 0;
      }
      var idx := And(outIdx, mask);
      var l := Min(len, size - idx);
      CopyIn(ret, 0, arr[idx..idx + l]);
      CopyIn(ret, l, arr[..len - l]);
      GatherSegments(arr[..], tail, head - tail, len, old(ret[..]), ret[..]);
      Consume(len);
      popped := ToInt(len);
    }

    /** Bulk pop, element-loop worker. */
    method PopEach(ret: array<T>, n: int) returns (popped: int)
      requires Valid() && ret != arr
      requires Min(Wrap(n), |Contents()|) <= ret.Length
      modifies this`outIdx, this`tail, ret
      ensures Valid()
      ensures var len := Min(Wrap(n), |old(Contents())|);
              && popped == ToInt(len)
              && tail == old(tail) + len
              && ret[..] == old(Contents())[..len] + old(ret[len..])
              && Contents() == old(Contents())[len..]
    {
      hide And, IsCapacity, Wrap, SlotOf;
      Words32();
      var len := Min(Wrap(n), Sub(inIdx, outIdx));
      if len == 0 {
        return 0;
      }
      var idx := And(outIdx, mask);
      var l := Min(len, size - idx);
      MoveIn(ret, 0, arr[idx..idx + l]);
      MoveIn(ret, l, arr[..len - l]);
      GatherSegments(arr[..], tail, head - tail, len, old(ret[..]), ret[..]);
      Consume(len);
      popped := ToInt(len);
    }
  }

  lemma HalfIsCapacity()
    ensures IsCapacity(HALF)
  {
    Pow2Of32();
    CheckPowerOf2Exact(HALF);
  }

  /** The state that ReadAvailable misreports, reached: the largest capacity is
      accepted, and one bulk push fills it. */
  method FullHalfRing() returns (r: Ring<int>, n: int)
    ensures fresh(r) && r.Valid() && r.size == HALF
    ensures |r.Contents()| == HALF && n == -HALF
  {
    hide IsCapacity, Wrap, PushAll, Live;
    HalfIsCapacity();
    r := new Ring(HALF);
    WrapNear(HALF);
    var pushed := r.PushBlock(seq(HALF, i => 0), HALF);
    n := r.ReadAvailable();
  }

  /** The first release that frees a slot. */
  function ReleaseOf(releases: seq<Word>): (r: Option<Word>)
    ensures r.Some? ==> exists i :: 0 <= i < |releases| && releases[i] == r.value > 0
                                    && forall j :: 0 <= j < i ==> releases[j] == 0
    ensures r.None? <==> forall i :: 0 <= i < |releases| ==> releases[i] == 0
  {
    if releases == [] then None
    else if releases[0] > 0 then Some(releases[0])
    else
      var r := ReleaseOf(releases[1..]);
      assert releases == [releases[0]] + releases[1..];
      r
  }

  /** `memcpy` of `src` to `dst + at`. */
  method CopyIn<T>(dst: array<T>, at: nat, src: seq<T>)
    requires at + |src| <= dst.Length
    modifies dst
    ensures forall k :: 0 <= k < dst.Length ==>
              dst[k] == if at <= k < at + |src| then src[k - at] else old(dst[k])
  {
    forall i | 0 <= i < |src| {
      dst[at + i] := src[i];
    }
  }

  /** The element loop: one assignment per element. */
  method MoveIn<T>(dst: array<T>, at: nat, src: seq<T>)
    requires at + |src| <= dst.Length
    modifies dst
    ensures forall k :: 0 <= k < dst.Length ==>
              dst[k] == if at <= k < at + |src| then src[k - at] else old(dst[k])
  {
    for i := 0 to |src|
      invariant forall k :: 0 <= k < dst.Length ==>
                  dst[k] == if at <= k < at + i then src[k - at] else old(dst[k])
    {
      dst[at + i] := src[i];
    }
  }

  /** Writing xs in two segments, up to the physical end and on from slot 0, is
      pushing its elements one after another. */
  lemma TwoSegments<T>(before: seq<T>, after: seq<T>, tail: nat, head: nat, xs: seq<T>)
    requires |after| == |before| > 0 && tail <= head && head - tail + |xs| <= |before|
    requires var size := |before|; var idx := SlotOf(size, head); var l := Min(|xs|, size - idx);
             forall a :: 0 <= a < size ==>
               after[a] == if a < |xs| - l then xs[l + a]
                           else if idx <= a < idx + l then xs[a - idx] else before[a]
    ensures after == PushAll(before, head, xs)
    ensures Live(after, tail, head - tail + |xs|) == Live(before, tail, head - tail) + xs
  {
    forall a | 0 <= a < |before|
      ensures after[a] == PushAll(before, head, xs)[a]
    {
      PushAllAt(before, head, xs, a);
    }
    PushAppends(before, tail, head, xs);
  }

  /** Reading two segments collects consecutive positions. */
  lemma GatherSegments<T>(slots: seq<T>, tail: nat, n: nat, len: nat, before: seq<T>, after: seq<T>)
    requires len <= n <= |slots| && |slots| > 0 && len <= |before| == |after|
    requires var size := |slots|; var idx := SlotOf(size, tail); var l := Min(len, size - idx);
             forall k :: 0 <= k < |after| ==>
               after[k] == if k < l then slots[idx + k] else if k < len then slots[k - l] else before[k]
    ensures after == Live(slots, tail, n)[..len] + before[len..]
  {
    forall k | 0 <= k < len
      ensures after[k] == Live(slots, tail, n)[k]
    {
      SplitVisitsPositions(|slots|, tail, k);
    }
  }

  /** The two workers cannot be told apart: same answers, same slots, same
      counters, from any state of the ring and for any request. */
  method PushWorkersAgree<T(0)>(a: Ring<T>, b: Ring<T>, ret: seq<T>, n: int) returns (ra: int, rb: int)
    requires a != b && a.arr != b.arr && a.Valid() && b.Valid()
    requires a.size == b.size && a.head == b.head && a.tail == b.tail && a.arr[..] == b.arr[..]
    requires Min(Wrap(n), a.size - |a.Contents()|) <= |ret|
    modifies a, b, a.arr, b.arr
    ensures a.Valid() && b.Valid()
    ensures ra == rb && a.inIdx == b.inIdx && a.outIdx == b.outIdx && a.arr[..] == b.arr[..]
    ensures a.Contents() == b.Contents()
  {
    hide PushAll, IsCapacity, ToInt, Wrap;
    ra := a.PushBlock(ret, n);
    rb := b.PushEach(ret, n);
  }

  method PopWorkersAgree<T(0)>(a: Ring<T>, b: Ring<T>, x: array<T>, y: array<T>, n: int) returns (ra: int, rb: int)
    requires a != b && a.Valid() && b.Valid()
    requires a.size == b.size && a.head == b.head && a.tail == b.tail && a.arr[..] == b.arr[..]
    requires x != y && x != a.arr && x != b.arr && y != a.arr && y != b.arr && x[..] == y[..]
    requires Min(Wrap(n), |a.Contents()|) <= x.Length
    modifies a, b, x, y
    ensures a.Valid() && b.Valid()
    ensures ra == rb && a.inIdx == b.inIdx && a.outIdx == b.outIdx && x[..] == y[..]
    ensures a.Contents() == b.Contents()
  {
    ghost var q := a.Contents();
    assert b.Contents() == q;
    hide Live, IsCapacity, ToInt, Wrap;
    ra := a.PopBlock(x, n);
    assert b.Contents() == q && y[..] == old(x[..]);
    rb := b.PopEach(y, n);
  }
}
