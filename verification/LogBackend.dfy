/** One turn of each background loop on the real objects: a producer's staging of
    an entry, the drainer's copy of one peeked batch into byte buffers, and the
    sink's write and recycling. How the turns interleave is the subject of
    Pipeline; here the buffers are heap objects and the contents are bytes. */
module LogBackend {
  import opened Wrappers
  import opened Words
  import opened RingSpec
  import opened RingQueue
  import opened LogRecords
  import opened SinkBuffers

  /** One iteration of the producer once its ring has room: it fills the reserved
      slot in place and leaves the old argument bytes there. */
  method StageEntry(ring: Ring<Entry>, timestamp: U64) returns (staged: bool)
    requires ring.Valid()
    modifies ring`inIdx, ring`head, ring.arr
    ensures ring.Valid()
    ensures staged <==> |old(ring.Contents())| < ring.size
    ensures !staged ==> ring.Contents() == old(ring.Contents())
    ensures staged ==>
              var args := old(ring.arr[SlotOf(ring.size, ring.head)].argData);
              ring.Contents() == old(ring.Contents()) + [Entry(7, RECORD_BYTES, timestamp, args)]
  {
    var slot := ring.TryReserve();
    staged := slot.Some?;
    if staged {
      var a := slot.value;
      ring.arr[a] := ring.arr[a].(entrySize := ARG_BYTES + 12, fmtId := 7, timestamp := timestamp);
      ring.Finish();
    }
  }

  /** The bytes of a queue of buffers, oldest first. */
  ghost function Flat(bufs: seq<SinkBuffer>): seq<Byte>
    requires forall b <- bufs :: b.Valid()
    reads bufs, set b | b in bufs :: b.data
  {
    if bufs == [] then [] else Flat(bufs[..|bufs| - 1]) + bufs[|bufs| - 1].Bytes()
  }

  lemma {:induction false} FlatFirst(bufs: seq<SinkBuffer>)
    requires bufs != [] && forall b <- bufs :: b.Valid()
    ensures Flat(bufs) == bufs[0].Bytes() + Flat(bufs[1..])
  {
    if |bufs| > 1 {
      var n := |bufs| - 1;
      FlatFirst(bufs[..n]);
      assert bufs[..n][1..] == bufs[1..][..n - 1];
    }
  }

  /** What the drainer has before it: the current buffer and its cursor, the queued
      buffers and theirs, the cached ones, the counters. */
  datatype Desk = Desk(
    cur: SinkBuffer, at: nat, queue: seq<SinkBuffer>, filled: seq<nat>,
    cache: seq<SinkBuffer>, allocNum: nat, passes: nat)

  ghost function Cursors(bufs: seq<SinkBuffer>): (c: seq<nat>)
    reads bufs
    ensures |c| == |bufs|
  {
    if bufs == [] then [] else Cursors(bufs[..|bufs| - 1]) + [bufs[|bufs| - 1].cur]
  }

  lemma CursorsLast(bufs: seq<SinkBuffer>, b: SinkBuffer)
    ensures Cursors(bufs + [b]) == Cursors(bufs) + [b.cur]
  {
    assert (bufs + [b])[..|bufs|] == bufs;
  }

  /** The cursor of a buffer that no further record fits into. */
  function FullAt(bufSize: nat): int {
    (bufSize - 1) / RECORD_BYTES * RECORD_BYTES
  }

  /** The current buffer is queued as it is; the cached buffer stored last takes its
      place, or a new one if none is cached. */
  ghost predicate Swapped(a: Desk, b: Desk) {
    && b.queue == a.queue + [a.cur] && b.filled == a.filled + [a.at]
    && b.at == 0 && b.passes == 0
    && (if a.cache != [] then b.cache + [b.cur] == a.cache && b.allocNum == a.allocNum
        else b.cache == [] && b.allocNum == a.allocNum + 1)
  }

  /** The queued buffers and the current one, in the order they were begun. */
  function Line(d: Desk): (bufs: seq<SinkBuffer>)
    ensures |bufs| == |d.queue| + 1
    ensures forall i :: 0 <= i < |bufs| ==> bufs[i] == if i < |d.queue| then d.queue[i] else d.cur
  {
    d.queue + [d.cur]
  }

  /** `n` records later: each buffer queued since is full, they and the current one
      hold the n records, the cache gave its last buffers before any was allocated. */
  ghost predicate Moved(bufSize: nat, a: Desk, b: Desk, n: nat) {
    && |a.filled| == |a.queue| && |b.filled| == |b.queue|
    && a.queue <= b.queue && a.filled <= b.filled
    && (forall i :: |a.queue| <= i < |b.queue| ==> b.filled[i] == FullAt(bufSize))
    && var h := |b.queue| - |a.queue|;
       && a.at + RECORD_BYTES * n == b.at + FullAt(bufSize) * h
       && (if h == 0 then b.cur == a.cur && b.passes == a.passes else b.queue[|a.queue|] == a.cur && b.passes == 0)
       && b.cache == a.cache[..|a.cache| - Min(h, |a.cache|)]
       && b.allocNum == a.allocNum + h - Min(h, |a.cache|)
       && (forall i :: |a.queue| < i <= |b.queue| && i - |a.queue| <= |a.cache| ==>
             Line(b)[i] == a.cache[|a.cache| - (i - |a.queue|)])
  }

  /** The same at the end of a batch: a buffer is queued if and only if the records do
      not fit into the current one, and the one it ends with is not left empty. */
  ghost predicate Handed(bufSize: nat, a: Desk, b: Desk, n: nat) {
    && Moved(bufSize, a, b, n)
    && (b.queue == a.queue <==> a.at + RECORD_BYTES * n < bufSize)
    && (n > 0 ==> b.at > 0)
    && (n == 0 ==> b == a)
  }

  lemma NothingMoved(bufSize: nat, a: Desk)
    requires bufSize > a.at && |a.filled| == |a.queue|
    ensures Moved(bufSize, a, a, 0) && Handed(bufSize, a, a, 0)
  {
  }

  lemma MovedCopy(bufSize: nat, a: Desk, b: Desk, n: nat)
    requires Moved(bufSize, a, b, n)
    ensures Moved(bufSize, a, b.(at := b.at + RECORD_BYTES), n + 1)
  {
    hide FullAt;
    assert Line(b.(at := b.at + RECORD_BYTES)) == Line(b);
  }

  lemma MovedSwap(bufSize: nat, a: Desk, b: Desk, c: Desk, n: nat)
    requires Moved(bufSize, a, b, n) && Swapped(b, c) && b.at == FullAt(bufSize)
    ensures Moved(bufSize, a, c, n)
  {
    var h, f := |b.queue| - |a.queue|, FullAt(bufSize);
    hide FullAt;
    assert f * (h + 1) == f * h + f;
    forall i | |a.queue| < i <= |c.queue| && i - |a.queue| <= |a.cache|
      ensures Line(c)[i] == a.cache[|a.cache| - (i - |a.queue|)]
    {
      if i <= |b.queue| {
        assert Line(c)[i] == Line(b)[i];
      }
    }
  }

  lemma MovedThen(bufSize: nat, a: Desk, b: Desk, c: Desk, n: nat, m: nat)
    requires Moved(bufSize, a, b, n) && Moved(bufSize, b, c, m)
    ensures Moved(bufSize, a, c, n + m)
  {
    var h, g, f := |b.queue| - |a.queue|, |c.queue| - |b.queue|, FullAt(bufSize);
    hide FullAt;
    assert f * (h + g) == f * h + f * g;
    forall i | |a.queue| <= i < |c.queue|
      ensures c.filled[i] == f
    {
      assert i < |b.queue| ==> c.filled[i] == b.filled[i];
    }
    LineThen(bufSize, a, b, c, n, m);
    hide Line;
  }

  lemma LineThen(bufSize: nat, a: Desk, b: Desk, c: Desk, n: nat, m: nat)
    requires Moved(bufSize, a, b, n) && Moved(bufSize, b, c, m)
    ensures forall i :: |a.queue| < i <= |c.queue| && i - |a.queue| <= |a.cache| ==>
              Line(c)[i] == a.cache[|a.cache| - (i - |a.queue|)]
  {
    hide FullAt;
    forall i | |a.queue| < i <= |c.queue| && i - |a.queue| <= |a.cache|
      ensures Line(c)[i] == a.cache[|a.cache| - (i - |a.queue|)]
    {
      if i <= |b.queue| {
        assert Line(c)[i] == Line(b)[i];
      } else {
        assert Line(c)[i] == b.cache[|b.cache| - (i - |b.queue|)];
      }
    }
  }

  /** What is moved is handed over only if it had to be. */
  lemma MovedHanded(bufSize: nat, a: Desk, b: Desk, n: nat)
    requires a.at < bufSize && b.at < bufSize && Moved(bufSize, a, b, n)
    requires (n > 0 ==> b.at >= RECORD_BYTES) && (n == 0 ==> b == a)
    ensures Handed(bufSize, a, b, n)
  {
    var h, f := |b.queue| - |a.queue|, FullAt(bufSize);
    FullIsFull(bufSize);
    hide FullAt, Line;
    if h > 0 {
      AtLeastOnce(f, h);
    } else {
      assert f * h == 0;
      assert b.queue == a.queue;
    }
  }

  lemma FullIsFull(bufSize: nat)
    requires bufSize > 0
    ensures bufSize - RECORD_BYTES <= FullAt(bufSize) < bufSize
  {
  }

  lemma AtLeastOnce(f: nat, h: nat)
    requires h > 0
    ensures f * h >= f
  {
    assert f * h == f + f * (h - 1);
  }

  lemma HandedThen(bufSize: nat, a: Desk, b: Desk, c: Desk, n: nat, m: nat)
    requires Handed(bufSize, a, b, n) && Handed(bufSize, b, c, m)
    ensures Handed(bufSize, a, c, n + m)
  {
    MovedThen(bufSize, a, b, c, n, m);
    hide FullAt, Moved;
    HandedQueues(bufSize, a, b, n);
    HandedQueues(bufSize, b, c, m);
  }

  lemma LeftSome(bufSize: nat, a: Desk, b: Desk, n: nat)
    requires Handed(bufSize, a, b, n)
    ensures n > 0 ==> b.at > 0
  {
  }

  lemma HandedQueues(bufSize: nat, a: Desk, b: Desk, n: nat)
    requires Handed(bufSize, a, b, n)
    ensures a.queue <= b.queue
    ensures b.queue == a.queue ==> b.at == a.at + RECORD_BYTES * n
  {
  }

  /** The end of a pass: the desk is swapped at the pass after 2000 that found
      something, the pass is counted otherwise. */
  ghost predicate PassEnded(a: Desk, b: Desk, drained: nat) {
    if drained == 0 then b == a
    else if a.passes < 2000 then b == a.(passes := a.passes + 1)
    else Swapped(a, b)
  }

  /** A pass that fits into the current buffer. */
  lemma QuietPass(bufSize: nat, a: Desk, b: Desk, c: Desk, n: nat)
    requires Handed(bufSize, a, b, n) && PassEnded(b, c, n)
    ensures n == 0 ==> c == a
    ensures var d := a.(at := a.at + RECORD_BYTES * n);
            n > 0 && d.at < bufSize ==>
              if d.passes < 2000 then c == d.(passes := d.passes + 1) else Swapped(d, c)
  {
    hide Swapped;
    Roomy(bufSize, a, b, n);
  }

  lemma Roomy(bufSize: nat, a: Desk, b: Desk, n: nat)
    requires Handed(bufSize, a, b, n)
    ensures a.at + RECORD_BYTES * n < bufSize ==> b == a.(at := a.at + RECORD_BYTES * n)
  {
  }

  class Backend {
    const bufSize: nat
    const cacheLimit: nat
    var cur: SinkBuffer
    var sinkQueue: seq<SinkBuffer>
    var cache: seq<SinkBuffer>
    var allocNum: nat
    var nonEmptyPasses: nat
    var file: seq<Byte>
    ghost var entries: seq<Entry>  // all that has been drained, in order

    ghost function Buffers(): set<SinkBuffer>
      reads this
    {
      {cur} + (set b | b in sinkQueue) + (set b | b in cache)
    }

    /** The objects a drainer turn may write: all but what is queued already. */
    ghost function Footprint(): set<object>
      reads this
    {
      {cur, cur.data} + (set b | b in cache) + (set b | b in cache :: b.data)
    }

    ghost predicate Valid()
      reads this, Buffers()
    {
      && bufSize > RECORD_BYTES
      && Arranged(cur, sinkQueue, cache)
      && (forall b, c {:trigger b.data, c.data} :: b in Buffers() && c in Buffers() && b != c ==> b.data != c.data)
      && (forall b :: b in Buffers() ==> b.data.Length == bufSize && b.cur < bufSize && b.cur % RECORD_BYTES == 0)
      && (forall b <- sinkQueue :: b.cur > 0)
      && (forall b <- cache :: b.cur == 0)
    }

    /** Everything drained so far: the file, the queued buffers, the current one. */
    ghost function Drained(): seq<Byte>
      requires Valid()
      reads this, Buffers(), set b | b in Buffers() :: b.data
    {
      file + Flat(sinkQueue) + cur.Bytes()
    }

    ghost function Now(): (d: Desk)
      reads this, Buffers()
      ensures |d.filled| == |d.queue|
    {
      Desk(cur, cur.cur, sinkQueue, Cursors(sinkQueue), cache, allocNum, nonEmptyPasses)
    }

    /** The bytes are those of the entries, and the file ends with a whole record. */
    ghost predicate Accounted()
      requires Valid()
      reads this, Buffers(), set b | b in Buffers() :: b.data
    {
      Drained() == EncodeAll(entries) && |file| % RECORD_BYTES == 0
    }

    /** `main` fills the cache; the drainer starts by taking the last buffer. */
    constructor (bufSize: nat, cacheLimit: nat)
      requires bufSize > RECORD_BYTES && cacheLimit > 0
      ensures Valid() && fresh(Buffers()) && Accounted() && entries == []
      ensures this.bufSize == bufSize && this.cacheLimit == cacheLimit
      ensures |cache| == cacheLimit - 1 && sinkQueue == [] && allocNum == 0 && nonEmptyPasses == 0
    {
      var first := new SinkBuffer(bufSize);
      var bufs: seq<SinkBuffer> := [first];
      while |bufs| < cacheLimit
        invariant 0 < |bufs| <= cacheLimit
        invariant forall b <- bufs :: fresh(b) && fresh(b.data) && b.cur == 0 && b.data.Length == bufSize
        invariant NoDuplicates(bufs)
        invariant forall b, c :: b in bufs && c in bufs && b != c ==> b.data != c.data
      {
        var b := new SinkBuffer(bufSize);
        bufs := bufs + [b];
      }
      this.bufSize, this.cacheLimit := bufSize, cacheLimit;
      cur := bufs[|bufs| - 1];
      cache := bufs[..|bufs| - 1];
      sinkQueue, allocNum, nonEmptyPasses, file, entries := [], 0, 0, [], [];
    }

    /** Queues the current buffer and takes a cached or a new one. */
    method Swap()
      requires Valid()
      requires cur.cur > 0
      modifies this`cur, this`sinkQueue, this`cache, this`allocNum, this`nonEmptyPasses
      ensures Valid() && OwnsNoMore() && Swapped(old(Now()), Now())
      ensures old(cache) == [] ==> fresh(cur) && fresh(cur.data)
      ensures Drained() == old(Drained())
    {
      hide Flat, Arranged, Cursors, Swapped;
      if |cache| != 0 {
        SwapCached();
      } else {
        var b := new SinkBuffer(bufSize);
        SwapNew(b);
      }
    }

    method SwapCached()
      requires Valid()
      requires cur.cur > 0 && cache != []
      modifies this`cur, this`sinkQueue, this`cache, this`nonEmptyPasses
      ensures Valid() && Swapped(old(Now()), Now())
      ensures cache + [cur] == old(cache)
      ensures Drained() == old(Drained())
    {
      hide Flat, Arranged, Cursors;
      FlatLast(sinkQueue, cur);
      CursorsLast(sinkQueue, cur);
      ArrangedCached(cur, sinkQueue, cache);
      sinkQueue, cur, cache, nonEmptyPasses := sinkQueue + [cur], cache[|cache| - 1], cache[..|cache| - 1], 0;
    }

    method SwapNew(b: SinkBuffer)
      requires Valid()
      requires cur.cur > 0 && cache == []
      requires b !in Buffers() && b.cur == 0 && b.data.Length == bufSize
      requires forall c :: c in Buffers() ==> c.data != b.data
      modifies this`cur, this`sinkQueue, this`allocNum, this`nonEmptyPasses
      ensures Valid() && Swapped(old(Now()), Now()) && cur == b
      ensures Drained() == old(Drained())
    {
      hide Flat, Arranged, Cursors;
      FlatLast(sinkQueue, cur);
      CursorsLast(sinkQueue, cur);
      ArrangedNew(cur, sinkQueue, b);
      sinkQueue, cur, allocNum, nonEmptyPasses := sinkQueue + [cur], b, allocNum + 1, 0;
    }

    method CopyEntry(e: Entry)
      requires Valid()
      requires bufSize - cur.cur > RECORD_BYTES
      modifies cur`cur, cur.data
      ensures Valid()
      ensures Now() == old(Now()).(at := old(cur.cur) + RECORD_BYTES)
      ensures Drained() == old(Drained()) + Encode(e)
    {
      hide Flat, Encode, Cursors;
      StoreEntry(cur, e);
      assert cur.Bytes() == old(cur.Bytes()) + Encode(e);
    }

    /** Room for this turn's writes: what the drainer owns or has allocated since. */
    twostate predicate OwnsNoMore()
      reads this, Footprint()
    {
      forall o <- Footprint() :: o in old(Footprint()) || fresh(o)
    }

    /** One pass of the copy loop: the entry fits and is copied, or the buffer is
        full and is swapped. A full buffer holds all the records it can. */
    method CopyOrSwap(e: Entry) returns (copied: bool)
      requires Valid()
      requires e.entrySize == RECORD_BYTES
      modifies this`cur, this`sinkQueue, this`cache, this`allocNum, this`nonEmptyPasses, cur`cur, cur.data
      ensures Valid() && OwnsNoMore()
      ensures copied <==> bufSize - old(cur.cur) > RECORD_BYTES
      ensures copied ==> Drained() == old(Drained()) + Encode(e) && Now() == old(Now()).(at := old(cur.cur) + RECORD_BYTES)
      ensures !copied ==> Drained() == old(Drained()) && Swapped(old(Now()), Now()) && old(cur.cur) == FullAt(bufSize)
                          && cur.cur == 0 && bufSize > RECORD_BYTES
    {
      hide Flat, Encode, Cursors;
      var avail := cur.Avail();
      copied := avail > e.entrySize;
      if copied {
        CopyEntry(e);
      } else {
        Swap();
      }
    }

    /** The state of a walk over q, `done` entries into it, since the desk was `start`
        and the drained bytes `bytes`. */
    ghost predicate Walked(start: Desk, bytes: seq<Byte>, q: seq<Entry>, done: nat)
      requires Valid()
      reads this, Buffers(), set b | b in Buffers() :: b.data
    {
      && done <= |q|
      && Moved(bufSize, start, Now(), done)
      && Drained() == bytes + EncodeAll(q[..done])
      && (if |q| == 0 then Now() == start else done == |q| ==> Now().at >= RECORD_BYTES)
    }

    lemma StartWalk(start: Desk, bytes: seq<Byte>, q: seq<Entry>)
      requires Valid() && start == Now() && bytes == Drained()
      ensures Walked(start, bytes, q, 0)
    {
      hide Drained, EncodeAll, Valid, Now;
      EncodeNone(q);
      InFrontOf();
      NothingMoved(bufSize, start);
      assert bytes + [] == bytes;
    }

    lemma EndWalk(start: Desk, bytes: seq<Byte>, q: seq<Entry>)
      requires Valid() && Walked(start, bytes, q, |q|) && start.at < bufSize
      ensures Handed(bufSize, start, Now(), |q|) && Drained() == bytes + EncodeAll(q)
    {
      hide Drained, EncodeAll, Valid, Now, Moved, Handed;
      assert q[..|q|] == q;
      InFrontOf();
      MovedHanded(bufSize, start, Now(), |q|);
    }

    /** The next entry of the walk is copied, or room is made for it. */
    method CopyNext(e: Entry, ghost start: Desk, ghost bytes: seq<Byte>, ghost q: seq<Entry>, ghost done: nat) returns (copied: bool)
      requires Valid() && done < |q| && e == q[done] && e.entrySize == RECORD_BYTES
      requires Walked(start, bytes, q, done)
      modifies this`cur, this`sinkQueue, this`cache, this`allocNum, this`nonEmptyPasses, cur`cur, cur.data
      ensures Valid() && OwnsNoMore()
      ensures Walked(start, bytes, q, if copied then done + 1 else done)
      ensures !copied ==> bufSize - old(cur.cur) <= RECORD_BYTES < bufSize - cur.cur
    {
      hide Valid, Drained, Encode, EncodeAll, Now, Moved, Swapped, FullAt, OwnsNoMore;
      EncodeNext(q, done);
      InFrontOf();
      ghost var before := Now();
      copied := CopyOrSwap(e);
      InFrontOf();
      if copied {
        assert Drained() == bytes + (EncodeAll(q[..done]) + Encode(q[done]));
        MovedCopy(bufSize, start, before, done);
      } else {
        MovedSwap(bufSize, start, before, Now(), done);
      }
    }

    /** The drainer's walk over n peeked slots, read where they are: on to the next
        slot, or from `end_buf` back to `begin_buf`. */
    method CopyBatch(slots: seq<Entry>, n: nat, first: nat, ghost tail: nat)
      requires Valid()
      requires n <= |slots| && |slots| > 0 && first == SlotOf(|slots|, tail)
      requires forall e <- Live(slots, tail, n) :: e.entrySize == RECORD_BYTES
      modifies this`cur, this`sinkQueue, this`cache, this`allocNum, this`nonEmptyPasses, Footprint()
      ensures Valid() && OwnsNoMore()
      ensures Handed(bufSize, old(Now()), Now(), n)
      ensures Drained() == old(Drained()) + EncodeAll(Live(slots, tail, n))
    {
      hide Valid, Drained, EncodeAll, Live, SlotOf, Now, Walked, Handed;
      ghost var q, start, bytes := Live(slots, tail, n), Now(), Drained();
      ghost var done := 0;
      var count, at := n, first;
      InFrontOf();
      StartWalk(start, bytes, q);
      while count > 0
        invariant 0 <= count == n - done
        invariant at == SlotOf(|slots|, tail + done)
        invariant Valid() && OwnsNoMore() && Walked(start, bytes, q, done)
        decreases count, if bufSize - cur.cur > RECORD_BYTES then 0 else 1
      {
        LiveAt(slots, tail, n, done);
        var copied := CopyNext(slots[at], start, bytes, q, done);
        if copied {
          Next(|slots|, tail + done);
          at := at + 1;
          if at == |slots| {
            at := 0;
          }
          count, done := count - 1, done + 1;
        }
      }
      EndWalk(start, bytes, q);
    }

    lemma InFrontOf()
      requires Valid()
      ensures 0 <= Now().at == cur.cur < bufSize
    {
    }

    /** Peeks a batch and copies it. */
    method CopyPeeked(ring: Ring<Entry>, max: Word) returns (n: nat)
      requires Valid() && ring.Valid()
      requires max < HALF
      requires AllRecords(ring.Contents())
      modifies this`cur, this`sinkQueue, this`cache, this`allocNum, this`nonEmptyPasses, Footprint()
      ensures Valid() && OwnsNoMore()
      ensures n == Min(max, |old(ring.Contents())|)
      ensures Handed(bufSize, old(Now()), Now(), n)
      ensures Drained() == old(Drained()) + EncodeAll(old(ring.Contents())[..n])
    {
      hide Flat, EncodeAll, Live, SlotOf, IsCapacity, Wrap, Arranged, Drained;
      ghost var q, before := ring.Contents(), Drained();
      var at: nat;
      n, at := PeekAt(ring, max);
      assert Drained() == before;
      var slots := ring.arr[..];
      if n > 0 {
        CopyBatch(slots, n, at, ring.tail);
      } else {
        EncodeNone(q);
        assert before + EncodeAll(q[..n]) == before;
      }
    }

    /** The same, counted. */
    method CopyAndCount(ring: Ring<Entry>, max: Word) returns (n: nat)
      requires Valid() && Accounted() && ring.Valid()
      requires max < HALF
      requires AllRecords(ring.Contents())
      modifies this`cur, this`sinkQueue, this`cache, this`allocNum, this`nonEmptyPasses, this`entries, Footprint()
      ensures Valid() && Accounted() && OwnsNoMore()
      ensures n == Min(max, |old(ring.Contents())|)
      ensures Handed(bufSize, old(Now()), Now(), n)
      ensures entries == old(entries) + old(ring.Contents())[..n]
    {
      hide Valid, Drained, EncodeAll, Live, IsCapacity, Wrap, Now, Handed;
      ghost var q := ring.Contents();
      n := CopyPeeked(ring, max);
      Count(q[..n]);
    }

    /** The bytes of q are there already: it joins the entries. */
    ghost method Count(q: seq<Entry>)
      requires Valid() && Drained() == EncodeAll(entries) + EncodeAll(q) && |file| % RECORD_BYTES == 0
      modifies this`entries
      ensures Valid() && Accounted() && entries == old(entries) + q
      ensures Footprint() == old(Footprint()) && Now() == old(Now())
    {
      hide Flat, EncodeAll, Arranged, Cursors;
      EncodeSplit(entries, q);
      entries := entries + q;
    }

    /** `consume`, which the drainer calls only for a batch that is not empty. */
    method Release(ring: Ring<Entry>, n: nat)
      requires Valid() && Accounted() && ring.Valid() && n <= |ring.Contents()|
      modifies ring`outIdx, ring`tail
      ensures Valid() && Accounted() && ring.Valid()
      ensures ring.Contents() == old(ring.Contents())[n..]
    {
      hide Live, IsCapacity, Wrap, Arranged, Flat, EncodeAll;
      if n > 0 {
        ring.Consume(n);
      }
    }

    /** The drainer's turn on one ring. The slots are released only after the whole
        peeked batch is in the buffers. */
    method DrainRing(ring: Ring<Entry>, max: Word) returns (n: nat)
      requires Valid() && Accounted() && ring.Valid()
      requires max < HALF
      requires AllRecords(ring.Contents())
      modifies this`cur, this`sinkQueue, this`cache, this`allocNum, this`nonEmptyPasses, this`entries, Footprint(), ring`outIdx, ring`tail
      ensures Valid() && Accounted() && ring.Valid() && OwnsNoMore()
      ensures n == Min(max, |old(ring.Contents())|)
      ensures Handed(bufSize, old(Now()), Now(), n)
      ensures ring.Contents() == old(ring.Contents())[n..]
      ensures entries == old(entries) + old(ring.Contents())[..n]
    {
      hide Valid, Accounted, Live, IsCapacity, Wrap, AllRecords;
      n := CopyAndCount(ring, max);
      Release(ring, n);
    }

    /** The same, for a ring whose contents are given. */
    method DrainHeld(ring: Ring<Entry>, max: Word, ghost q: seq<Entry>) returns (n: nat)
      requires Valid() && Accounted() && Holds(ring, q) && AllRecords(q)
      requires max < HALF
      modifies this`cur, this`sinkQueue, this`cache, this`allocNum, this`nonEmptyPasses, this`entries, Footprint(), ring`outIdx, ring`tail
      ensures Valid() && Accounted() && OwnsNoMore()
      ensures n == Min(max, |q|) && Holds(ring, Rest(q, max))
      ensures Handed(bufSize, old(Now()), Now(), n)
      ensures entries == old(entries) + q[..n]
    {
      hide Valid, Accounted, Live, IsCapacity, Wrap, AllRecords, OwnsNoMore, Buffers;
      n := DrainRing(ring, max);
    }

    /** How far a pass is that has come to the i-th ring: what the rings held, the
        entries and the desk at its start are given. */
    ghost predicate InPass(
      rings: seq<Ring<Entry>>, qs: seq<seq<Entry>>, max: nat, i: nat, drained: nat, start: seq<Entry>, desk: Desk)
      requires Valid()
      reads this, Buffers(), (set b | b in Buffers() :: b.data), rings, set r | r in rings :: r.arr
    {
      && Accounted()
      && DrainedTo(rings, qs, max, i)
      && Gained(start, entries, qs, max, i, drained)
      && Handed(bufSize, desk, Now(), drained)
    }

    /** The turn on the i-th ring. */
    method DrainNext(
      ring: Ring<Entry>, max: Word, drained: nat,
      ghost rings: seq<Ring<Entry>>, ghost qs: seq<seq<Entry>>, ghost i: nat,
      ghost start: seq<Entry>, ghost desk: Desk)
      returns (total: nat)
      requires Valid() && NoDuplicates(rings)
      requires i < |rings| == |qs| && ring == rings[i] && max < HALF && AllRecords(qs[i])
      requires InPass(rings, qs, max, i, drained, start, desk)
      modifies this`cur, this`sinkQueue, this`cache, this`allocNum, this`nonEmptyPasses, this`entries, Footprint(), ring`outIdx, ring`tail
      ensures Valid() && OwnsNoMore()
      ensures InPass(rings, qs, max, i + 1, total, start, desk)
    {
      hide Valid, Accounted, Live, IsCapacity, Wrap, AllRecords, Min, Gained, Batches, OwnsNoMore, Buffers, Holds, Rest, Now, Handed;
      ghost var mid, before := entries, Now();
      var n := DrainHeld(ring, max, qs[i]);
      HandedThen(bufSize, desk, before, Now(), drained, n);
      GainedNext(start, mid, entries, qs, max, i, drained, n);
      total := drained + n;
    }

    lemma PassBegins(rings: seq<Ring<Entry>>, qs: seq<seq<Entry>>, max: nat)
      requires Valid() && Accounted() && DrainedTo(rings, qs, max, 0)
      ensures InPass(rings, qs, max, 0, 0, entries, Now())
    {
      hide Accounted, DrainedTo, Gained, Handed;
      NothingGained(entries, qs, max);
      InFrontOf();
      NothingMoved(bufSize, Now());
    }

    lemma PassThrough(rings: seq<Ring<Entry>>, qs: seq<seq<Entry>>, max: nat, drained: nat, start: seq<Entry>, desk: Desk)
      requires Valid() && |qs| == |rings| && InPass(rings, qs, max, |rings|, drained, start, desk)
      ensures Accounted() && DrainedTo(rings, qs, max, |rings|)
      ensures entries == start + Batches(qs, max, |rings|) && drained == |entries| - |start|
      ensures Handed(bufSize, desk, Now(), drained)
    {
      hide Valid, Accounted, DrainedTo, Handed, Now;
    }

    /** The loop over the rings, which hold qs at first. */
    method DrainRings(rings: seq<Ring<Entry>>, max: Word, ghost qs: seq<seq<Entry>>) returns (drained: nat)
      requires Valid() && Accounted() && NoDuplicates(rings)
      requires |qs| == |rings| && max < HALF && DrainedTo(rings, qs, max, 0)
      requires forall q <- qs :: AllRecords(q)
      modifies this`cur, this`sinkQueue, this`cache, this`allocNum, this`nonEmptyPasses, this`entries, Footprint(), rings
      ensures Valid() && Accounted() && OwnsNoMore()
      ensures DrainedTo(rings, qs, max, |rings|)
      ensures entries == old(entries) + Batches(qs, max, |rings|) && drained == |entries| - |old(entries)|
      ensures Handed(bufSize, old(Now()), Now(), drained)
    {
      hide Valid, Accounted, DrainedTo, AllRecords, InPass, Batches, NoDuplicates, Now, Handed, Footprint, Buffers;
      ghost var start, desk := entries, Now();
      drained := 0;
      PassBegins(rings, qs, max);
      for i := 0 to |rings|
        invariant Valid() && OwnsNoMore()
        invariant InPass(rings, qs, max, i, drained, start, desk)
      {
        assert qs[i] in qs && AllRecords(qs[i]);
        drained := DrainNext(rings[i], max, drained, rings, qs, i, start, desk);
      }
      PassThrough(rings, qs, max, drained, start, desk);
    }

    /** A pass over rings that hold qs. */
    method DrainPassOf(rings: seq<Ring<Entry>>, max: Word, ghost qs: seq<seq<Entry>>) returns (drained: nat, ghost moved: Desk)
      requires Valid() && Accounted() && NoDuplicates(rings)
      requires |qs| == |rings| && max < HALF && DrainedTo(rings, qs, max, 0)
      requires forall q <- qs :: AllRecords(q)
      modifies this`cur, this`sinkQueue, this`cache, this`allocNum, this`nonEmptyPasses, this`entries, Footprint(), rings
      ensures Valid() && Accounted() && OwnsNoMore()
      ensures DrainedTo(rings, qs, max, |rings|)
      ensures entries == old(entries) + Batches(qs, max, |rings|) && drained == |entries| - |old(entries)|
      ensures Handed(bufSize, old(Now()), moved, drained) && PassEnded(moved, Now(), drained)
    {
      hide Valid, Accounted, DrainedTo, AllRecords, NoDuplicates, Batches, Now, Handed, PassEnded;
      ghost var start := Now();
      drained := DrainRings(rings, max, qs);
      moved := Now();
      InFrontOf();
      LeftSome(bufSize, start, moved, drained);
      EndPass(drained);
    }

    /** One pass of the drainer: every ring in turn, then the end of the pass. What
        the rings give up is what the entries gain, in order, and it is all in the
        buffers as bytes. `moved` is the desk before the end of the pass. */
    method DrainPass(rings: seq<Ring<Entry>>, max: Word) returns (drained: nat, ghost moved: Desk)
      requires Valid() && Accounted() && NoDuplicates(rings)
      requires AllValid(rings) && max < HALF
      requires forall q <- AllContents(rings) :: AllRecords(q)
      modifies this`cur, this`sinkQueue, this`cache, this`allocNum, this`nonEmptyPasses, this`entries, Footprint(), rings
      ensures Valid() && Accounted() && OwnsNoMore()
      ensures DrainedTo(rings, old(AllContents(rings)), max, |rings|)
      ensures entries == old(entries) + Batches(old(AllContents(rings)), max, |rings|)
      ensures drained == |entries| - |old(entries)|
      ensures Handed(bufSize, old(Now()), moved, drained) && PassEnded(moved, Now(), drained)
      ensures drained == 0 ==> Now() == old(Now())
      ensures var d := old(Now()).(at := old(Now()).at + RECORD_BYTES * drained);
              drained > 0 && d.at < bufSize ==>
                if d.passes < 2000 then Now() == d.(passes := d.passes + 1) else Swapped(d, Now())
    {
      hide Valid, Accounted, DrainedTo, AllRecords, AllContents, AllValid, NoDuplicates, Batches, Now, Handed, Swapped, PassEnded, OwnsNoMore;
      ghost var qs, start := AllContents(rings), Now();
      StartOfPass(rings, qs, max);
      drained, moved := DrainPassOf(rings, max, qs);
      QuietPass(bufSize, start, moved, Now(), drained);
    }

    /** The end of a pass over all rings: after more than 2000 passes that found
        something, the buffer is handed over even if it is not full. */
    method EndPass(drained: nat)
      requires Valid() && Accounted()
      requires drained > 0 ==> cur.cur > 0
      modifies this`cur, this`sinkQueue, this`cache, this`allocNum, this`nonEmptyPasses
      ensures Valid() && OwnsNoMore() && Accounted() && Drained() == old(Drained())
      ensures PassEnded(old(Now()), Now(), drained)
    {
      hide Flat, Arranged, Cursors, EncodeAll;
      if drained != 0 {
        nonEmptyPasses := nonEmptyPasses + 1;
        if nonEmptyPasses > 2000 {
          Swap();
        }
      }
    }

    /** The sink's turn: the oldest queued buffer goes to the file, is emptied and
        returns to the cache, or is dropped if the cache is full. */
    method SinkTurn() returns (wrote: bool)
      requires Valid() && Accounted()
      modifies this`sinkQueue, this`cache, this`file, sinkQueue
      ensures Valid() && Accounted()
      ensures wrote <==> old(sinkQueue) != []
      ensures wrote ==> file == old(file) + old(sinkQueue[0].Bytes()) && sinkQueue == old(sinkQueue)[1..]
      ensures !wrote ==> file == old(file)
      ensures cache == if wrote && |old(cache)| < cacheLimit then old(cache) + [old(sinkQueue)[0]] else old(cache)
    {
      hide Flat, Arranged, EncodeAll, Drained, Valid;
      wrote := |sinkQueue| > 0;
      if wrote {
        var b := WriteOldest();
        if |cache| < cacheLimit {
          Recycle(b);
        }
      }
    }

    /** A buffer that is nobody's and could be cached. */
    ghost predicate Spare(b: SinkBuffer)
      reads this, Buffers(), b
    {
      && Arranged(cur, sinkQueue, cache + [b])
      && b.cur == 0 && b.data.Length == bufSize
      && forall c :: c in Buffers() ==> c.data != b.data
    }

    /** The oldest queued buffer is written and emptied, and is nobody's then. */
    method WriteOldest() returns (b: SinkBuffer)
      requires Valid() && Accounted() && sinkQueue != []
      modifies this`sinkQueue, this`file, sinkQueue
      ensures Valid() && Accounted() && b == old(sinkQueue[0]) && Spare(b)
      ensures file == old(file) + old(sinkQueue[0].Bytes()) && sinkQueue == old(sinkQueue)[1..]
    {
      hide Flat, Arranged, EncodeAll, Drained;
      b := Unqueue();
      WriteOut(b);
      EmptyOut(b);
    }

    /** The reset of a buffer that is nobody's. */
    method EmptyOut(b: SinkBuffer)
      requires Valid() && Accounted() && b.Valid() && b !in Buffers()
      modifies b`cur
      ensures Valid() && Accounted() && b.cur == 0
    {
      hide Flat, Arranged, EncodeAll;
      b.Reset();
    }

    /** The write: a buffer taken off the queue goes to the end of the file. */
    method WriteOut(b: SinkBuffer)
      requires Valid() && b.Valid() && b !in Buffers() && b.cur % RECORD_BYTES == 0 && |file| % RECORD_BYTES == 0
      requires file + (b.Bytes() + Flat(sinkQueue)) + cur.Bytes() == EncodeAll(entries)
      modifies this`file
      ensures Valid() && Accounted()
      ensures file == old(file) + b.Bytes()
    {
      hide Flat, Arranged, EncodeAll;
      ghost var bytes, rest := b.Bytes(), Flat(sinkQueue);
      file := file + b.data[..b.cur];
      assert file + rest == old(file) + (bytes + rest);
    }

    /** The section under the mutex: the oldest buffer leaves the queue. */
    method Unqueue() returns (b: SinkBuffer)
      requires Valid() && sinkQueue != []
      modifies this`sinkQueue
      ensures Valid() && b == old(sinkQueue[0]) && sinkQueue == old(sinkQueue)[1..]
      ensures b !in Buffers() && Arranged(cur, sinkQueue, cache + [b])
      ensures b.data.Length == bufSize && b.Valid() && b.cur % RECORD_BYTES == 0
      ensures forall c :: c in Buffers() ==> c.data != b.data
      ensures old(Drained()) == file + (b.Bytes() + Flat(sinkQueue)) + cur.Bytes()
    {
      hide Flat, Arranged;
      FlatFirst(sinkQueue);
      ArrangedTaken(cur, sinkQueue, cache);
      b := sinkQueue[0];
      sinkQueue := sinkQueue[1..];
    }

    /** A spare buffer joins the cache. */
    method Recycle(b: SinkBuffer)
      requires Valid() && Accounted() && Spare(b)
      modifies this`cache
      ensures Valid() && Accounted() && cache == old(cache) + [b]
    {
      hide Flat, Arranged, EncodeAll;
      cache := cache + [b];
    }

    /** What a reader of the file sees: its bytes are those of the first entries
        drained, and decode to exactly their records. */
    lemma FileReadsBack()
      requires Valid() && Accounted()
      ensures var w := |file| / RECORD_BYTES;
              && w <= |entries|
              && file == EncodeAll(entries[..w])
              && DecodeAll(file) == Some(Records(entries[..w]))
    {
      hide Flat, EncodeAll, DecodeAll, Records;
      var w := |file| / RECORD_BYTES;
      assert file == Drained()[..RECORD_BYTES * w];
      EncodePrefix(entries, w);
      DecodeEncode(entries[..w]);
    }
  }

  ghost predicate AllValid(rings: seq<Ring<Entry>>)
    reads rings
  {
    forall r <- rings :: r.Valid()
  }

  ghost predicate Holds(r: Ring<Entry>, q: seq<Entry>)
    reads r, r.arr
  {
    r.Valid() && r.Contents() == q
  }

  /** The first i rings have given up a batch of what they held, the rest nothing. */
  ghost predicate DrainedTo(rings: seq<Ring<Entry>>, qs: seq<seq<Entry>>, max: nat, i: nat)
    reads rings, set r | r in rings :: r.arr
  {
    && |qs| == |rings|
    && forall j :: 0 <= j < |rings| ==> Holds(rings[j], if j < i then Rest(qs[j], max) else qs[j])
  }

  /** What a ring still holds after a batch. */
  function Rest(q: seq<Entry>, max: nat): seq<Entry> {
    q[Min(max, |q|)..]
  }

  lemma StartOfPass(rings: seq<Ring<Entry>>, qs: seq<seq<Entry>>, max: nat)
    requires AllValid(rings) && qs == AllContents(rings)
    ensures DrainedTo(rings, qs, max, 0)
  {
  }

  ghost predicate AllRecords(q: seq<Entry>) {
    forall e <- q :: e.entrySize == RECORD_BYTES
  }

  ghost function AllContents(rings: seq<Ring<Entry>>): (qs: seq<seq<Entry>>)
    requires AllValid(rings)
    reads rings, set r | r in rings :: r.arr
    ensures |qs| == |rings|
    ensures forall i :: 0 <= i < |rings| ==> qs[i] == rings[i].Contents()
  {
    if rings == [] then [] else AllContents(rings[..|rings| - 1]) + [rings[|rings| - 1].Contents()]
  }

  /** A batch from each of the first k rings, in their order. */
  ghost function Batches(qs: seq<seq<Entry>>, max: nat, k: nat): seq<Entry>
    requires k <= |qs|
  {
    if k == 0 then [] else Batches(qs, max, k - 1) + qs[k - 1][..Min(max, |qs[k - 1]|)]
  }

  ghost predicate Gained(before: seq<Entry>, after: seq<Entry>, qs: seq<seq<Entry>>, max: nat, k: nat, n: nat) {
    k <= |qs| && after == before + Batches(qs, max, k) && n == |after| - |before|
  }

  lemma NothingGained(before: seq<Entry>, qs: seq<seq<Entry>>, max: nat)
    ensures Gained(before, before, qs, max, 0, 0)
  {
  }

  lemma GainedNext(
    before: seq<Entry>, mid: seq<Entry>, after: seq<Entry>, qs: seq<seq<Entry>>, max: nat, k: nat, n: nat, m: nat)
    requires k < |qs| && Gained(before, mid, qs, max, k, n)
    requires m == Min(max, |qs[k]|) && after == mid + qs[k][..m]
    ensures Gained(before, after, qs, max, k + 1, n + m)
  {
  }

  /** The stores of one entry: header, then argument bytes. */
  method StoreEntry(b: SinkBuffer, e: Entry)
    requires b.Valid() && b.cur + RECORD_BYTES <= b.data.Length
    modifies b`cur, b.data
    ensures b.Valid() && b.cur == old(b.cur) + RECORD_BYTES
    ensures b.Bytes() == old(b.Bytes()) + Encode(e)
  {
    hide Header;
    b.PutHeader(e.fmtId, e.timestamp);
    b.Append(e.argData);
  }

  /** How many entries may be read in place, and where they are. */
  method PeekAt(ring: Ring<Entry>, max: Word) returns (n: nat, at: nat)
    requires ring.Valid() && max < HALF
    ensures n == Min(max, |ring.Contents()|) <= |ring.arr[..]|
    ensures |ring.arr[..]| > 0 && at == SlotOf(|ring.arr[..]|, ring.tail)
    ensures ring.Contents()[..n] == Live(ring.arr[..], ring.tail, n)
  {
    hide Live, SlotOf, IsCapacity, Wrap;
    ring.Words32();
    n, at := ring.Peek(max);
    LiveSplit(ring.arr[..], ring.tail, |ring.Contents()|, n);
  }

  lemma FlatLast(bufs: seq<SinkBuffer>, b: SinkBuffer)
    requires b.Valid() && forall c <- bufs :: c.Valid()
    ensures Flat(bufs + [b]) == Flat(bufs) + b.Bytes()
  {
    assert (bufs + [b])[..|bufs|] == bufs;
  }

  /** Each buffer is in one place, once. */
  ghost predicate Arranged(c: SinkBuffer, queue: seq<SinkBuffer>, cache: seq<SinkBuffer>) {
    && NoDuplicates(queue) && NoDuplicates(cache)
    && c !in queue && c !in cache
    && (forall b <- queue :: b !in cache)
  }

  lemma ArrangedCached(c: SinkBuffer, queue: seq<SinkBuffer>, cache: seq<SinkBuffer>)
    requires Arranged(c, queue, cache) && cache != []
    ensures Arranged(cache[|cache| - 1], queue + [c], cache[..|cache| - 1])
  {
  }

  lemma ArrangedTaken(c: SinkBuffer, queue: seq<SinkBuffer>, cache: seq<SinkBuffer>)
    requires Arranged(c, queue, cache) && queue != []
    ensures queue[0] !in queue[1..] && queue[0] != c && queue[0] !in cache
    ensures Arranged(c, queue[1..], cache) && Arranged(c, queue[1..], cache + [queue[0]])
  {
  }

  lemma ArrangedNew(c: SinkBuffer, queue: seq<SinkBuffer>, b: SinkBuffer)
    requires Arranged(c, queue, []) && b != c && b !in queue
    ensures Arranged(b, queue + [c], [])
  {
  }

  ghost predicate NoDuplicates<T>(s: seq<T>) {
    forall i, j :: 0 <= i < j < |s| ==> s[i] != s[j]
  }
}
