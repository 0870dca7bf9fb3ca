/** The specification of a bounded queue, one atomic step per operation. */
module Fifo {
  datatype Op<T> = Enqueue(xs: seq<T>) | Dequeue(xs: seq<T>) | Stay

  ghost predicate Step<T>(capacity: nat, q: seq<T>, op: Op<T>, q': seq<T>) {
    match op
    case Enqueue(xs) => |q| + |xs| <= capacity && q' == q + xs
    case Dequeue(xs) => xs <= q && q' == q[|xs|..]
    case Stay => q' == q
  }
}

/** Where each of the two threads stands inside a ring operation. One operation
    samples the other side's index once, touches one slot per step, issues its
    store fence and then publishes its own index. Single, bulk, reserve/finish
    and peek/consume are all instances; the batch is 1 or what the sample allows. */
module RingThreads {
  datatype Producer<T> =
    | PIdle
    | PSampled(free: nat)
    | PWriting(batch: seq<T>, done: nat)
    | PFenced(batch: seq<T>)
  {
    /** The elements this operation will publish. */
    function Batch(): seq<T> {
      if PWriting? || PFenced? then batch else []
    }

    /** Those it has already stored. */
    function Stored(): seq<T> {
      match this
      case PWriting(b, done) => if done <= |b| then b[..done] else b
      case PFenced(b) => b
      case _ => []
    }
  }

  datatype Consumer<T> =
    | CIdle
    | CSampled(avail: nat)
    | CReading(n: nat, got: seq<T>)
    | CFenced(got: seq<T>)
  {
    function Claimed(): nat {
      match this
      case CReading(n, _) => n
      case CFenced(got) => |got|
      case _ => 0
    }

    function Got(): seq<T> {
      if CReading? || CFenced? then got else []
    }
  }

  ghost predicate ProducerOk<T>(p: Producer<T>, free: int) {
    match p
    case PIdle => true
    case PSampled(f) => f == free
    case PWriting(b, done) => done <= |b| && 0 < |b| <= free
    case PFenced(b) => 0 < |b| <= free
  }

  ghost predicate ConsumerOk<T>(c: Consumer<T>, next: seq<T>) {
    match c
    case CIdle => true
    case CSampled(a) => a == |next|
    case CReading(n, got) => |got| <= n && 0 < n <= |next| && got <= next
    case CFenced(got) => 0 < |got| && got <= next
  }
}

/** The two threads interleaved over one memory that shows every store at once.
    A sample of the other index may be old, but never older than the last one. */
module Interleaved {
  import opened Wrappers
  import opened Words
  import opened RingSpec
  import opened RingThreads
  import Fifo

  /** With `exact`, samples are never old: sequential consistency. */
  datatype Config = Config(size: nat, exact: bool)

  /** `seenOut` and `seenIn` are the positions last sampled; `pushed` and `popped`
      are the histories of what was published and released. */
  datatype State<T> = State(
    slots: seq<T>, inIdx: Word, outIdx: Word,
    p: Producer<T>, c: Consumer<T>,
    seenOut: nat, seenIn: nat,
    pushed: seq<T>, popped: seq<T>)

  datatype Label<T> =
    | SampleOut(position: nat) | GiveUpPush | BeginPush(xs: seq<T>) | WriteSlot | FencePush | PublishIn
    | SampleIn(position: nat) | GiveUpPop | BeginPop(n: nat) | ReadSlot | FencePop | PublishOut

  ghost predicate Enabled<T>(cfg: Config, s: State<T>, l: Label<T>) {
    match l
    case SampleOut(t) => s.p.PIdle? && s.seenOut <= t <= |s.popped| && (cfg.exact ==> t == |s.popped|)
    case GiveUpPush => s.p.PSampled?
    case BeginPush(xs) => s.p.PSampled? && 0 < |xs| <= s.p.free
    case WriteSlot => s.p.PWriting? && s.p.done < |s.p.batch| && s.p.done < cfg.size && |s.slots| == cfg.size
    case FencePush => s.p.PWriting? && s.p.done == |s.p.batch|
    case PublishIn => s.p.PFenced?
    case SampleIn(t) => s.c.CIdle? && s.seenIn <= t <= |s.pushed| && (cfg.exact ==> t == |s.pushed|)
    case GiveUpPop => s.c.CSampled?
    case BeginPop(n) => s.c.CSampled? && 0 < n <= s.c.avail
    case ReadSlot => s.c.CReading? && |s.c.got| < s.c.n && |s.c.got| < cfg.size && |s.slots| == cfg.size
    case FencePop => s.c.CReading? && |s.c.got| == s.c.n
    case PublishOut => s.c.CFenced?
  }

  ghost function Step<T>(cfg: Config, s: State<T>, l: Label<T>): State<T>
    requires IsCapacity(cfg.size) && Enabled(cfg, s, l)
  {
    match l
    case SampleOut(t) => s.(p := PSampled(Add(Sub(cfg.size, s.inIdx), Wrap(t))), seenOut := t)
    case GiveUpPush => s.(p := PIdle)
    case BeginPush(xs) => s.(p := PWriting(xs, 0))
    case WriteSlot =>
      var a := SplitIndex(cfg.size, And(s.inIdx, cfg.size - 1), s.p.done);
      s.(slots := s.slots[a := s.p.batch[s.p.done]], p := PWriting(s.p.batch, s.p.done + 1))
    case FencePush => s.(p := PFenced(s.p.batch))
    case PublishIn =>
      s.(inIdx := Wrap(s.inIdx + |s.p.batch|), pushed := s.pushed + s.p.batch, p := PIdle)
    case SampleIn(t) => s.(c := CSampled(Sub(Wrap(t), s.outIdx)), seenIn := t)
    case GiveUpPop => s.(c := CIdle)
    case BeginPop(n) => s.(c := CReading(n, []))
    case ReadSlot =>
      var a := SplitIndex(cfg.size, And(s.outIdx, cfg.size - 1), |s.c.got|);
      s.(c := CReading(s.c.n, s.c.got + [s.slots[a]]))
    case FencePop => s.(c := CFenced(s.c.got))
    case PublishOut =>
      s.(outIdx := Wrap(s.outIdx + |s.c.got|), popped := s.popped + s.c.got, c := CIdle)
  }

  function Init<T>(slots: seq<T>): State<T> {
    State(slots, 0, 0, PIdle, CIdle, 0, 0, [], [])
  }

  ghost predicate Inv<T>(cfg: Config, s: State<T>) {
    && IsCapacity(cfg.size)
    && |s.slots| == cfg.size
    && s.inIdx == Wrap(|s.pushed|)
    && s.outIdx == Wrap(|s.popped|)
    && s.seenOut <= |s.popped| <= s.seenIn <= |s.pushed| <= s.seenOut + cfg.size
    && s.popped <= s.pushed
    && ProducerOk(s.p, s.seenOut + cfg.size - |s.pushed|)
    && ConsumerOk(s.c, s.pushed[|s.popped|..s.seenIn])
    && SlotsHold(cfg.size, s.slots, |s.popped|, s.pushed + s.p.Stored())
  }

  /** Every position from `tail` on that was written is still in its slot. */
  ghost predicate SlotsHold<T>(size: nat, slots: seq<T>, tail: nat, written: seq<T>)
    requires |slots| == size > 0
  {
    forall r :: tail <= r < |written| ==> slots[SlotOf(size, r)] == written[r]
  }

  /** The queue the two histories describe. */
  ghost function Queue<T>(s: State<T>): seq<T>
    requires |s.popped| <= |s.pushed|
  {
    s.pushed[|s.popped|..]
  }

  /** A run is a sequence of labels; None if some label was not enabled. */
  ghost function Exec<T>(cfg: Config, slots: seq<T>, ls: seq<Label<T>>): Option<State<T>>
    requires IsCapacity(cfg.size)
    decreases |ls|
  {
    if ls == [] then Some(Init(slots))
    else
      match Exec(cfg, slots, ls[..|ls| - 1])
      case Some(s) =>
        if Enabled(cfg, s, ls[|ls| - 1]) then Some(Step(cfg, s, ls[|ls| - 1])) else None
      case None => None
  }

  lemma SlotIs(size: nat, position: nat, k: nat)
    requires IsCapacity(size) && k < size
    ensures size > 0
    ensures SplitIndex(size, And(Wrap(position), size - 1), k) == SlotOf(size, position + k)
  {
    MaskedIndex(size, position);
    SplitVisitsPositions(size, position, k);
  }

  lemma WriteKeeps<T>(size: nat, slots: seq<T>, tail: nat, written: seq<T>, x: T)
    requires |slots| == size > 0
    requires SlotsHold(size, slots, tail, written)
    requires tail <= |written| < tail + size
    ensures SlotsHold(size, slots[SlotOf(size, |written|) := x], tail, written + [x])
  {
    forall r | tail <= r < |written|
      ensures SlotOf(size, r) != SlotOf(size, |written|)
    {
      Apart(size, r, |written|);
    }
  }

  lemma InvInit<T>(cfg: Config, slots: seq<T>)
    requires IsCapacity(cfg.size) && |slots| == cfg.size
    ensures Inv(cfg, Init(slots))
  {
    assert Wrap(0) == 0;
  }

  lemma InvWrite<T>(cfg: Config, s: State<T>)
    requires Inv(cfg, s) && Enabled(cfg, s, WriteSlot)
    ensures Inv(cfg, Step(cfg, s, WriteSlot))
  {
    hide IsCapacity, Wrap, And, SplitIndex, SlotOf, SlotsHold;
    var s', x, written := Step(cfg, s, WriteSlot), s.p.batch[s.p.done], s.pushed + s.p.Stored();
    SlotIs(cfg.size, |s.pushed|, s.p.done);
    WriteKeeps(cfg.size, s.slots, |s.popped|, written, x);
    assert s'.pushed + s'.p.Stored() == written + [x];
  }

  lemma InvProducer<T>(cfg: Config, s: State<T>, l: Label<T>)
    requires Inv(cfg, s) && Enabled(cfg, s, l)
    requires l.SampleOut? || l.GiveUpPush? || l.BeginPush? || l.FencePush? || l.PublishIn?
    ensures Inv(cfg, Step(cfg, s, l))
  {
    var s' := Step(cfg, s, l);
    assert s'.pushed + s'.p.Stored() == s.pushed + s.p.Stored();
    if l.SampleOut? {
      var _ := CapacityDivides(cfg.size);
      FreeSpace(cfg.size, |s.pushed|, l.position);
    } else if l.PublishIn? {
      Advance(|s.pushed|, |s.p.batch|);
      assert s'.pushed[|s.popped|..s.seenIn] == s.pushed[|s.popped|..s.seenIn];
    }
  }

  lemma InvRead<T>(cfg: Config, s: State<T>)
    requires Inv(cfg, s) && Enabled(cfg, s, ReadSlot)
    ensures Inv(cfg, Step(cfg, s, ReadSlot))
    ensures var r := |s.popped| + |s.c.got|;
            r < |s.pushed| && Step(cfg, s, ReadSlot).c == CReading(s.c.n, s.c.got + [s.pushed[r]])
  {
    SlotIs(cfg.size, |s.popped|, |s.c.got|);
    var r := |s.popped| + |s.c.got|;
    assert (s.pushed + s.p.Stored())[r] == s.pushed[|s.popped|..s.seenIn][|s.c.got|];
  }

  lemma InvConsumer<T>(cfg: Config, s: State<T>, l: Label<T>)
    requires Inv(cfg, s) && Enabled(cfg, s, l)
    requires l.SampleIn? || l.GiveUpPop? || l.BeginPop? || l.FencePop? || l.PublishOut?
    ensures Inv(cfg, Step(cfg, s, l))
  {
    hide IsCapacity, Wrap, SlotOf;
    var s' := Step(cfg, s, l);
    if l.SampleIn? {
      var _ := CapacityDivides(cfg.size);
      Occupancy(l.position, |s.popped|);
    } else if l.PublishOut? {
      Advance(|s.popped|, |s.c.got|);
      assert s'.popped == s.pushed[..|s'.popped|];
    }
  }

  lemma InvStep<T>(cfg: Config, s: State<T>, l: Label<T>)
    requires Inv(cfg, s) && Enabled(cfg, s, l)
    ensures Inv(cfg, Step(cfg, s, l))
  {
    match l
    case WriteSlot => InvWrite(cfg, s);
    case ReadSlot => InvRead(cfg, s);
    case SampleOut(_) => InvProducer(cfg, s, l);
    case GiveUpPush => InvProducer(cfg, s, l);
    case BeginPush(_) => InvProducer(cfg, s, l);
    case FencePush => InvProducer(cfg, s, l);
    case PublishIn => InvProducer(cfg, s, l);
    case _ => InvConsumer(cfg, s, l);
  }

  /** Every state of every run satisfies the invariant. */
  lemma {:induction false} InvRun<T>(cfg: Config, slots: seq<T>, ls: seq<Label<T>>)
    requires IsCapacity(cfg.size) && |slots| == cfg.size
    requires Exec(cfg, slots, ls).Some?
    ensures Inv(cfg, Exec(cfg, slots, ls).value)
    decreases |ls|
  {
    if ls == [] {
      InvInit(cfg, slots);
    } else {
      InvRun(cfg, slots, ls[..|ls| - 1]);
      InvStep(cfg, Exec(cfg, slots, ls[..|ls| - 1]).value, ls[|ls| - 1]);
    }
  }

  /** What a step does to the queue: the two publications are its only operations. */
  ghost function OpOf<T>(s: State<T>, l: Label<T>): Fifo.Op<T> {
    if l.PublishIn? then Fifo.Enqueue(s.p.Batch())
    else if l.PublishOut? then Fifo.Dequeue(s.c.Got())
    else Fifo.Stay
  }

  /** Refinement of the bounded queue, step by step. */
  lemma RefinesFifo<T>(cfg: Config, s: State<T>, l: Label<T>)
    requires Inv(cfg, s) && Enabled(cfg, s, l)
    ensures Inv(cfg, Step(cfg, s, l))
    ensures Fifo.Step(cfg.size, Queue(s), OpOf(s, l), Queue(Step(cfg, s, l)))
  {
    InvStep(cfg, s, l);
    var s' := Step(cfg, s, l);
    if l.PublishIn? {
      assert Queue(s') == Queue(s) + s.p.batch;
    } else if l.PublishOut? {
      assert s.c.got <= s.pushed[|s.popped|..s.seenIn] <= Queue(s);
      assert Queue(s') == Queue(s)[|s.c.got|..];
    }
  }

  /** What a sample says about the queue at that instant. Free space is never
      overstated; no free space means the queue is full, unless the sample was old. */
  lemma SampleOutMeans<T>(cfg: Config, s: State<T>, t: nat)
    requires Inv(cfg, s) && Enabled(cfg, s, SampleOut(t))
    ensures var free := Step(cfg, s, SampleOut(t)).p.free;
            && free + |Queue(s)| <= cfg.size
            && (free + |Queue(s)| == cfg.size <==> t == |s.popped|)
            && (free == 0 ==> (|Queue(s)| == cfg.size <==> t == |s.popped|))
  {
    InvProducer(cfg, s, SampleOut(t));
  }

  lemma SampleInMeans<T>(cfg: Config, s: State<T>, t: nat)
    requires Inv(cfg, s) && Enabled(cfg, s, SampleIn(t))
    ensures var avail := Step(cfg, s, SampleIn(t)).c.avail;
            && avail <= |Queue(s)|
            && (avail == |Queue(s)| <==> t == |s.pushed|)
            && (avail == 0 ==> (Queue(s) == [] <==> t == |s.pushed|))
  {
    InvConsumer(cfg, s, SampleIn(t));
  }

  /** An old sample stays on the safe side: in every state of every run what the
      producer may still write and what the consumer may still read are within the
      free and the occupied part, and share no slot. */
  lemma SamplesConservative<T>(cfg: Config, slots: seq<T>, ls: seq<Label<T>>)
    requires IsCapacity(cfg.size) && |slots| == cfg.size
    requires Exec(cfg, slots, ls).Some?
    ensures var s := Exec(cfg, slots, ls).value;
            && |s.popped| <= |s.pushed|
            && Reserved(s) + |Queue(s)| <= cfg.size
            && Peeked(s) <= |Queue(s)|
            && forall w, r :: |s.pushed| <= w < |s.pushed| + Reserved(s)
                              && |s.popped| <= r < |s.popped| + Peeked(s)
                              ==> SlotOf(cfg.size, w) != SlotOf(cfg.size, r)
  {
    InvRun(cfg, slots, ls);
    var s := Exec(cfg, slots, ls).value;
    forall w, r | |s.pushed| <= w < |s.pushed| + Reserved(s) && |s.popped| <= r < |s.popped| + Peeked(s)
      ensures SlotOf(cfg.size, w) != SlotOf(cfg.size, r)
    {
      Apart(cfg.size, r, w);
    }
  }

  function Reserved<T>(s: State<T>): nat {
    if s.p.PSampled? then s.p.free else |s.p.Batch()|
  }

  function Peeked<T>(s: State<T>): nat {
    if s.c.CSampled? then s.c.avail else s.c.Claimed()
  }

  /** With samples that are never old, the two sides can only both be refused
      around an empty or a full queue. */
  lemma {:induction false} BothRefused<T>(cfg: Config, slots: seq<T>, ls: seq<Label<T>>)
    requires IsCapacity(cfg.size) && |slots| == cfg.size && cfg.exact
    requires Exec(cfg, slots, ls).Some?
    ensures var s := Exec(cfg, slots, ls).value;
            && |s.popped| <= |s.pushed|
            && (s.p == PSampled(0) && s.c == CSampled(0) ==> |Queue(s)| == 0 || |Queue(s)| == cfg.size)
    decreases |ls|
  {
    InvRun(cfg, slots, ls);
    if ls != [] {
      var l := ls[|ls| - 1];
      var r := Exec(cfg, slots, ls[..|ls| - 1]).value;
      BothRefused(cfg, slots, ls[..|ls| - 1]);
      InvRun(cfg, slots, ls[..|ls| - 1]);
      if l.SampleOut? {
        SampleOutMeans(cfg, r, l.position);
      } else if l.SampleIn? {
        SampleInMeans(cfg, r, l.position);
      }
    }
  }
}
