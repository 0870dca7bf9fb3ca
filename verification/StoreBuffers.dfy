/** The same two threads over a memory where stores land late and out of order.
    A fence only splits a thread's stores into epochs: a store may land once no
    store of an earlier epoch of that thread is pending. Nothing else orders two
    stores, so the model is weaker than the hardware. Loads take effect at once,
    in program order. */
module StoreBuffers {
  import opened Wrappers
  import opened Words
  import opened RingSpec
  import opened RingThreads
  import Interleaved

  /** Without its flag the fence of the producer, or of the consumer, does nothing. */
  datatype Config = Config(size: nat, pFence: bool, cFence: bool) {
    predicate Fenced() {
      pFence && cFence
    }
  }

  datatype SlotStore<T> = SlotStore(addr: nat, value: T, epoch: nat)
  datatype IndexStore = IndexStore(word: Word, epoch: nat)

  /** Memory holds `slots`, `memIn`, `memOut`; `inIdx` and `outIdx` are the values
      their own threads would load back. Pending stores are filed under the
      position, or the count, that they stand for. */
  datatype State<T> = State(
    slots: seq<T>, memIn: Word, memOut: Word,
    inIdx: Word, outIdx: Word,
    p: Producer<T>, c: Consumer<T>,
    pEpoch: nat, cEpoch: nat,
    pendSlots: map<nat, SlotStore<T>>, pendIn: map<nat, IndexStore>, pendOut: map<nat, IndexStore>,
    landedIn: nat, landedOut: nat,
    seenOut: nat, seenIn: nat,
    pushed: seq<T>, popped: seq<T>)

  datatype Label<T> =
    | SampleOut | GiveUpPush | BeginPush(xs: seq<T>) | WriteSlot | FencePush | PublishIn
    | SampleIn | GiveUpPop | BeginPop(n: nat) | ReadSlot | FencePop | PublishOut
    | LandSlot(position: nat) | LandIn(count: nat) | LandOut(count: nat)

  ghost predicate Enabled<T>(cfg: Config, s: State<T>, l: Label<T>) {
    match l
    case SampleOut => s.p.PIdle?
    case GiveUpPush => s.p.PSampled?
    case BeginPush(xs) => s.p.PSampled? && 0 < |xs| <= s.p.free
    case WriteSlot => s.p.PWriting? && s.p.done < |s.p.batch| && s.p.done < cfg.size
    case FencePush => s.p.PWriting? && s.p.done == |s.p.batch|
    case PublishIn => s.p.PFenced?
    case SampleIn => s.c.CIdle?
    case GiveUpPop => s.c.CSampled?
    case BeginPop(n) => s.c.CSampled? && 0 < n <= s.c.avail
    case ReadSlot => s.c.CReading? && |s.c.got| < s.c.n && |s.c.got| < cfg.size && |s.slots| == cfg.size
    case FencePop => s.c.CReading? && |s.c.got| == s.c.n
    case PublishOut => s.c.CFenced?
    case LandSlot(q) =>
      && q in s.pendSlots && s.pendSlots[q].addr < |s.slots|
      && ProducerMayLand(s, s.pendSlots[q].epoch)
    case LandIn(h) => h in s.pendIn && ProducerMayLand(s, s.pendIn[h].epoch)
    case LandOut(t) => t in s.pendOut && forall k :: k in s.pendOut ==> s.pendOut[k].epoch >= s.pendOut[t].epoch
  }

  ghost predicate ProducerMayLand<T>(s: State<T>, epoch: nat) {
    && (forall k :: k in s.pendSlots ==> s.pendSlots[k].epoch >= epoch)
    && (forall k :: k in s.pendIn ==> s.pendIn[k].epoch >= epoch)
  }

  ghost function Step<T>(cfg: Config, s: State<T>, l: Label<T>): State<T>
    requires IsCapacity(cfg.size) && Enabled(cfg, s, l)
  {
    match l
    case SampleOut => s.(p := PSampled(Add(Sub(cfg.size, s.inIdx), s.memOut)), seenOut := s.landedOut)
    case GiveUpPush => s.(p := PIdle)
    case BeginPush(xs) => s.(p := PWriting(xs, 0))
    case WriteSlot =>
      var a := SplitIndex(cfg.size, And(s.inIdx, cfg.size - 1), s.p.done);
      s.(pendSlots := s.pendSlots[|s.pushed| + s.p.done := SlotStore(a, s.p.batch[s.p.done], s.pEpoch)],
         p := PWriting(s.p.batch, s.p.done + 1))
    case FencePush => s.(pEpoch := NextEpoch(cfg.pFence, s.pEpoch), p := PFenced(s.p.batch))
    case PublishIn =>
      var w := Wrap(s.inIdx + |s.p.batch|);
      s.(inIdx := w, pendIn := s.pendIn[|s.pushed| + |s.p.batch| := IndexStore(w, s.pEpoch)],
         pushed := s.pushed + s.p.batch, p := PIdle)
    case SampleIn => s.(c := CSampled(Sub(s.memIn, s.outIdx)), seenIn := s.landedIn)
    case GiveUpPop => s.(c := CIdle)
    case BeginPop(n) => s.(c := CReading(n, []))
    case ReadSlot =>
      var a := SplitIndex(cfg.size, And(s.outIdx, cfg.size - 1), |s.c.got|);
      s.(c := CReading(s.c.n, s.c.got + [s.slots[a]]))
    case FencePop => s.(cEpoch := NextEpoch(cfg.cFence, s.cEpoch), c := CFenced(s.c.got))
    case PublishOut =>
      var w := Wrap(s.outIdx + |s.c.got|);
      s.(outIdx := w, pendOut := s.pendOut[|s.popped| + |s.c.got| := IndexStore(w, s.cEpoch)],
         popped := s.popped + s.c.got, c := CIdle)
    case LandSlot(q) =>
      s.(slots := s.slots[s.pendSlots[q].addr := s.pendSlots[q].value], pendSlots := s.pendSlots - {q})
    case LandIn(h) => s.(memIn := s.pendIn[h].word, landedIn := h, pendIn := s.pendIn - {h})
    case LandOut(t) => s.(memOut := s.pendOut[t].word, landedOut := t, pendOut := s.pendOut - {t})
  }

  function NextEpoch(fenced: bool, e: nat): nat {
    if fenced then e + 1 else e
  }

  function Init<T>(slots: seq<T>): State<T> {
    State(slots, 0, 0, 0, 0, PIdle, CIdle, 0, 0, map[], map[], map[], 0, 0, 0, 0, [], [])
  }

  ghost function Exec<T>(cfg: Config, slots: seq<T>, ls: seq<Label<T>>): Option<State<T>>
    requires IsCapacity(cfg.size)
    decreases |ls|
  {
    if ls == [] then Some(Init(slots))
    else
      match Exec(cfg, slots, ls[..|ls| - 1])
      case Some(s) =>
        if Enabled(cfg, s, ls[|ls| - 1]) then Some(Step(cfg, s, ls[|ls| - 1])) else None
      case None => None
  }

  // ---------- invariant ----------

  ghost function Written<T>(s: State<T>): seq<T> {
    s.pushed + s.p.Stored()
  }

  ghost predicate Inv<T>(cfg: Config, s: State<T>) {
    && IsCapacity(cfg.size)
    && |s.slots| == cfg.size
    && InvCounters(cfg, s)
    && InvIndexStores(s.pendIn, s.landedIn, |s.pushed|, s.pEpoch, s.p.PFenced?)
    && InvIndexStores(s.pendOut, s.landedOut, |s.popped|, s.cEpoch, s.c.CFenced?)
    && InvSlotStores(cfg.size, s.pendSlots, s.pendIn, s.landedIn, Written(s), s.pEpoch, s.p.PFenced?)
    && InvMemory(cfg.size, s.slots, s.pendSlots, s.landedOut, Written(s))
  }

  ghost predicate InvCounters<T>(cfg: Config, s: State<T>) {
    && s.inIdx == Wrap(|s.pushed|)
    && s.outIdx == Wrap(|s.popped|)
    && s.memIn == Wrap(s.landedIn)
    && s.memOut == Wrap(s.landedOut)
    && s.seenOut <= s.landedOut <= |s.popped| <= s.seenIn <= s.landedIn <= |s.pushed| <= s.seenOut + cfg.size
    && s.popped <= s.pushed
    && ProducerOk(s.p, s.seenOut + cfg.size - |s.pushed|)
    && ConsumerOk(s.c, s.pushed[|s.popped|..s.seenIn])
  }

  /** Pending index stores carry the counts they stand for, land in order, and the
      newest count is landed or pending. */
  ghost predicate InvIndexStores(pend: map<nat, IndexStore>, landed: nat, issued: nat, epoch: nat, fenced: bool) {
    && (forall h :: h in pend ==>
          && landed < h <= issued
          && pend[h].word == Wrap(h)
          && pend[h].epoch <= epoch
          && (fenced ==> pend[h].epoch < epoch))
    && (forall h, k :: h in pend && k in pend && h < k ==> pend[h].epoch < pend[k].epoch)
    && (landed == issued || issued in pend)
  }

  /** A pending slot store is one whose count has not landed, and it lies in an
      earlier epoch than any index store that covers it. */
  ghost predicate InvSlotStores<T>(
    size: nat, pend: map<nat, SlotStore<T>>, pendIn: map<nat, IndexStore>,
    landedIn: nat, written: seq<T>, epoch: nat, fenced: bool)
    requires size > 0
  {
    && (forall q :: q in pend ==>
          && landedIn <= q < |written|
          && pend[q].addr == SlotOf(size, q)
          && pend[q].value == written[q]
          && pend[q].epoch <= epoch
          && (fenced ==> pend[q].epoch < epoch))
    && (forall q, h :: q in pend && h in pendIn && q < h ==> pend[q].epoch < pendIn[h].epoch)
  }

  /** Whatever is written and not pending is in its slot. */
  ghost predicate InvMemory<T>(size: nat, slots: seq<T>, pend: map<nat, SlotStore<T>>, from: nat, written: seq<T>)
    requires |slots| == size > 0
  {
    forall q :: from <= q < |written| && q !in pend ==> slots[SlotOf(size, q)] == written[q]
  }

  lemma InvInit<T>(cfg: Config, slots: seq<T>)
    requires IsCapacity(cfg.size) && |slots| == cfg.size
    ensures Inv(cfg, Init(slots))
  {
    assert Wrap(0) == 0;
  }

  lemma IssueIndex(pend: map<nat, IndexStore>, landed: nat, issued: nat, epoch: nat, k: nat, w: Word)
    requires InvIndexStores(pend, landed, issued, epoch, true)
    requires k > 0 && landed <= issued && w == Wrap(issued + k)
    ensures InvIndexStores(pend[issued + k := IndexStore(w, epoch)], landed, issued + k, epoch, false)
  {
  }

  lemma FenceIndex(pend: map<nat, IndexStore>, landed: nat, issued: nat, epoch: nat)
    requires InvIndexStores(pend, landed, issued, epoch, false)
    ensures InvIndexStores(pend, landed, issued, epoch + 1, true)
  {
  }

  /** The store of the oldest epoch is the one of the smallest count. */
  lemma LandIndex(pend: map<nat, IndexStore>, landed: nat, issued: nat, epoch: nat, fenced: bool, h: nat)
    requires InvIndexStores(pend, landed, issued, epoch, fenced)
    requires h in pend && forall k :: k in pend ==> pend[k].epoch >= pend[h].epoch
    ensures landed < h <= issued && pend[h].word == Wrap(h)
    ensures InvIndexStores(pend - {h}, h, issued, epoch, fenced)
  {
    hide Wrap;
    forall k | k in pend - {h}
      ensures h < k
    {
      assert pend[k].epoch >= pend[h].epoch;
    }
  }

  lemma WriteSlotStore<T>(
    size: nat, pend: map<nat, SlotStore<T>>, pendIn: map<nat, IndexStore>,
    landedIn: nat, issued: nat, written: seq<T>, epoch: nat, x: T)
    requires size > 0 && landedIn <= issued <= |written|
    requires InvSlotStores(size, pend, pendIn, landedIn, written, epoch, false)
    requires forall h :: h in pendIn ==> h <= issued
    ensures var q := |written|;
            InvSlotStores(size, pend[q := SlotStore(SlotOf(size, q), x, epoch)], pendIn, landedIn, written + [x], epoch, false)
  {
    hide SlotOf;
  }

  lemma CoversNothing(pend: map<nat, IndexStore>, landed: nat, issued: nat, epoch: nat)
    requires InvIndexStores(pend, landed, issued, epoch, false)
    ensures forall h :: h in pend ==> h <= issued
  {
  }

  lemma WriteMemory<T>(
    size: nat, slots: seq<T>, pend: map<nat, SlotStore<T>>, from: nat, written: seq<T>, x: T, store: SlotStore<T>)
    requires |slots| == size > 0 && InvMemory(size, slots, pend, from, written)
    ensures InvMemory(size, slots, pend[|written| := store], from, written + [x])
  {
    hide SlotOf;
  }

  lemma FenceSlotStores<T>(
    size: nat, pend: map<nat, SlotStore<T>>, pendIn: map<nat, IndexStore>,
    landedIn: nat, written: seq<T>, epoch: nat)
    requires size > 0 && InvSlotStores(size, pend, pendIn, landedIn, written, epoch, false)
    ensures InvSlotStores(size, pend, pendIn, landedIn, written, epoch + 1, true)
  {
    hide SlotOf;
  }

  lemma PublishSlotStores<T>(
    size: nat, pend: map<nat, SlotStore<T>>, pendIn: map<nat, IndexStore>,
    landedIn: nat, written: seq<T>, epoch: nat, w: Word)
    requires size > 0 && InvSlotStores(size, pend, pendIn, landedIn, written, epoch, true)
    ensures InvSlotStores(size, pend, pendIn[|written| := IndexStore(w, epoch)], landedIn, written, epoch, false)
  {
    hide SlotOf;
  }

  /** Once an index store may land, every slot store it covers has landed. */
  lemma LandedSlotStores<T>(
    size: nat, pend: map<nat, SlotStore<T>>, pendIn: map<nat, IndexStore>,
    landedIn: nat, written: seq<T>, epoch: nat, fenced: bool, h: nat)
    requires size > 0 && InvSlotStores(size, pend, pendIn, landedIn, written, epoch, fenced)
    requires h in pendIn && forall q :: q in pend ==> pend[q].epoch >= pendIn[h].epoch
    ensures forall q :: q in pend ==> h <= q
    ensures InvSlotStores(size, pend, pendIn - {h}, h, written, epoch, fenced)
  {
    hide SlotOf;
    forall q | q in pend
      ensures h <= q
    {
      assert pend[q].epoch >= pendIn[h].epoch;
    }
  }

  lemma StoredGrows<T>(pushed: seq<T>, batch: seq<T>, done: nat)
    requires done < |batch|
    ensures pushed + batch[..done + 1] == pushed + batch[..done] + [batch[done]]
  {
  }

  lemma InvWrite<T>(cfg: Config, s: State<T>)
    requires Inv(cfg, s) && Enabled(cfg, s, WriteSlot)
    ensures Inv(cfg, Step(cfg, s, WriteSlot))
  {
    hide InvIndexStores, InvSlotStores, InvMemory, Wrap, SlotOf, And, SplitIndex, IsCapacity;
    var s', x, q := Step(cfg, s, WriteSlot), s.p.batch[s.p.done], |s.pushed| + s.p.done;
    StoredGrows(s.pushed, s.p.batch, s.p.done);
    Interleaved.SlotIs(cfg.size, |s.pushed|, s.p.done);
    assert |Written(s)| == q && Written(s') == Written(s) + [x];
    CoversNothing(s.pendIn, s.landedIn, |s.pushed|, s.pEpoch);
    WriteSlotStore(cfg.size, s.pendSlots, s.pendIn, s.landedIn, |s.pushed|, Written(s), s.pEpoch, x);
    WriteMemory(cfg.size, s.slots, s.pendSlots, s.landedOut, Written(s), x, s'.pendSlots[q]);
  }

  lemma InvSampleOut<T>(cfg: Config, s: State<T>)
    requires Inv(cfg, s) && Enabled(cfg, s, SampleOut)
    ensures Inv(cfg, Step(cfg, s, SampleOut))
    ensures Step(cfg, s, SampleOut).p.free == s.landedOut + cfg.size - |s.pushed|
  {
    hide InvIndexStores, InvSlotStores, InvMemory;
    assert Written(Step(cfg, s, SampleOut)) == Written(s);
    var _ := CapacityDivides(cfg.size);
    FreeSpace(cfg.size, |s.pushed|, s.landedOut);
  }

  lemma SliceKept<T>(xs: seq<T>, ys: seq<T>, a: nat, b: nat)
    requires a <= b <= |xs|
    ensures (xs + ys)[a..b] == xs[a..b]
  {
  }

  lemma InvPublishIn<T>(cfg: Config, s: State<T>)
    requires Inv(cfg, s) && Enabled(cfg, s, PublishIn)
    ensures Inv(cfg, Step(cfg, s, PublishIn))
  {
    hide InvIndexStores, InvSlotStores, InvMemory, Wrap, SlotOf, IsCapacity;
    var s' := Step(cfg, s, PublishIn);
    assert Written(s') == Written(s) == s'.pushed;
    Advance(|s.pushed|, |s.p.batch|);
    IssueIndex(s.pendIn, s.landedIn, |s.pushed|, s.pEpoch, |s.p.batch|, s'.inIdx);
    PublishSlotStores(cfg.size, s.pendSlots, s.pendIn, s.landedIn, Written(s), s.pEpoch, s'.inIdx);
    SliceKept(s.pushed, s.p.batch, |s.popped|, s.seenIn);
  }

  lemma InvProducer<T>(cfg: Config, s: State<T>, l: Label<T>)
    requires cfg.pFence && Inv(cfg, s) && Enabled(cfg, s, l)
    requires l.GiveUpPush? || l.BeginPush? || l.FencePush?
    ensures Inv(cfg, Step(cfg, s, l))
  {
    hide InvIndexStores, InvSlotStores, InvMemory, Wrap, SlotOf, IsCapacity;
    if l.FencePush? {
      assert Written(Step(cfg, s, l)) == Written(s);
      FenceIndex(s.pendIn, s.landedIn, |s.pushed|, s.pEpoch);
      FenceSlotStores(cfg.size, s.pendSlots, s.pendIn, s.landedIn, Written(s), s.pEpoch);
    } else {
      assert s.p.Stored() == Step(cfg, s, l).p.Stored() == [];
    }
  }

  /** The consumer never reads a slot whose store is still pending. */
  lemma InvRead<T>(cfg: Config, s: State<T>)
    requires Inv(cfg, s) && Enabled(cfg, s, ReadSlot)
    ensures var r := |s.popped| + |s.c.got|;
            && r < s.landedIn <= |s.pushed| && r !in s.pendSlots
            && Step(cfg, s, ReadSlot).c == CReading(s.c.n, s.c.got + [s.pushed[r]])
    ensures Inv(cfg, Step(cfg, s, ReadSlot))
  {
    hide InvIndexStores, Wrap;
    Interleaved.SlotIs(cfg.size, |s.popped|, |s.c.got|);
    var r := |s.popped| + |s.c.got|;
    assert Written(s)[r] == s.pushed[|s.popped|..s.seenIn][|s.c.got|];
  }

  lemma InvSampleIn<T>(cfg: Config, s: State<T>)
    requires Inv(cfg, s) && Enabled(cfg, s, SampleIn)
    ensures Step(cfg, s, SampleIn).c.avail == s.landedIn - |s.popped|
    ensures Inv(cfg, Step(cfg, s, SampleIn))
  {
    hide InvIndexStores, InvSlotStores, InvMemory;
    var _ := CapacityDivides(cfg.size);
    Occupancy(s.landedIn, |s.popped|);
  }

  lemma InvPublishOut<T>(cfg: Config, s: State<T>)
    requires Inv(cfg, s) && Enabled(cfg, s, PublishOut)
    ensures Inv(cfg, Step(cfg, s, PublishOut))
  {
    hide InvIndexStores, InvSlotStores, InvMemory, Wrap, IsCapacity;
    var s' := Step(cfg, s, PublishOut);
    Advance(|s.popped|, |s.c.got|);
    IssueIndex(s.pendOut, s.landedOut, |s.popped|, s.cEpoch, |s.c.got|, s'.outIdx);
    assert s'.popped == s.pushed[..|s'.popped|];
  }

  lemma InvConsumer<T>(cfg: Config, s: State<T>, l: Label<T>)
    requires cfg.cFence && Inv(cfg, s) && Enabled(cfg, s, l)
    requires l.GiveUpPop? || l.BeginPop? || l.FencePop?
    ensures Inv(cfg, Step(cfg, s, l))
  {
    hide InvIndexStores, InvSlotStores, InvMemory, Wrap, SlotOf, IsCapacity;
    if l.FencePop? {
      FenceIndex(s.pendOut, s.landedOut, |s.popped|, s.cEpoch);
    }
  }

  /** A slot store lands on no slot that holds another position not yet released. */
  lemma InvLandSlot<T>(cfg: Config, s: State<T>, q: nat)
    requires Inv(cfg, s) && Enabled(cfg, s, LandSlot(q))
    ensures cfg.size > 0
    ensures forall r :: s.landedOut <= r < |Written(s)| && r != q ==> SlotOf(cfg.size, r) != s.pendSlots[q].addr
    ensures Inv(cfg, Step(cfg, s, LandSlot(q)))
  {
    hide InvIndexStores, Wrap;
    forall r | s.landedOut <= r < |Written(s)| && r != q
      ensures SlotOf(cfg.size, r) != SlotOf(cfg.size, q)
    {
      if r < q {
        Apart(cfg.size, r, q);
      } else {
        Apart(cfg.size, q, r);
      }
    }
  }

  /** An index store lands after every slot store it covers. */
  lemma InvLandIn<T>(cfg: Config, s: State<T>, h: nat)
    requires Inv(cfg, s) && Enabled(cfg, s, LandIn(h))
    ensures Inv(cfg, Step(cfg, s, LandIn(h)))
    ensures forall q :: q in s.pendSlots ==> h <= q
  {
    hide InvIndexStores, InvSlotStores, InvMemory, Wrap, SlotOf, IsCapacity;
    LandIndex(s.pendIn, s.landedIn, |s.pushed|, s.pEpoch, s.p.PFenced?, h);
    LandedSlotStores(cfg.size, s.pendSlots, s.pendIn, s.landedIn, Written(s), s.pEpoch, s.p.PFenced?, h);
    assert Written(Step(cfg, s, LandIn(h))) == Written(s);
  }

  lemma InvLandOut<T>(cfg: Config, s: State<T>, t: nat)
    requires Inv(cfg, s) && Enabled(cfg, s, LandOut(t))
    ensures Inv(cfg, Step(cfg, s, LandOut(t)))
  {
    hide InvIndexStores, InvSlotStores, Wrap, SlotOf, IsCapacity;
    LandIndex(s.pendOut, s.landedOut, |s.popped|, s.cEpoch, s.c.CFenced?, t);
  }

  lemma InvStep<T>(cfg: Config, s: State<T>, l: Label<T>)
    requires cfg.Fenced() && Inv(cfg, s) && Enabled(cfg, s, l)
    ensures Inv(cfg, Step(cfg, s, l))
  {
    match l
    case SampleOut => InvSampleOut(cfg, s);
    case WriteSlot => InvWrite(cfg, s);
    case PublishIn => InvPublishIn(cfg, s);
    case SampleIn => InvSampleIn(cfg, s);
    case ReadSlot => InvRead(cfg, s);
    case PublishOut => InvPublishOut(cfg, s);
    case LandSlot(q) => InvLandSlot(cfg, s, q);
    case LandIn(h) => InvLandIn(cfg, s, h);
    case LandOut(t) => InvLandOut(cfg, s, t);
    case GiveUpPop => InvConsumer(cfg, s, l);
    case BeginPop(_) => InvConsumer(cfg, s, l);
    case FencePop => InvConsumer(cfg, s, l);
    case _ => InvProducer(cfg, s, l);
  }

  lemma {:induction false} InvRun<T>(cfg: Config, slots: seq<T>, ls: seq<Label<T>>)
    requires cfg.Fenced() && IsCapacity(cfg.size) && |slots| == cfg.size
    requires Exec(cfg, slots, ls).Some?
    ensures Inv(cfg, Exec(cfg, slots, ls).value)
    decreases |ls|
  {
    if ls == [] {
      InvInit(cfg, slots);
    } else {
      InvRun(cfg, slots, ls[..|ls| - 1]);
      InvStep(cfg, Exec(cfg, slots, ls[..|ls| - 1]).value, ls[|ls| - 1]);
    }
  }

  // ---------- main results ----------

  ghost function Queue<T>(s: State<T>): seq<T>
    requires |s.popped| <= |s.pushed|
  {
    s.pushed[|s.popped|..]
  }

  /** Over every run, however late the stores land: what was popped is a prefix of
      what was pushed, the queue never outgrows the ring, and the elements being
      read are the next ones of the queue. */
  lemma FifoOverStoreBuffers<T>(cfg: Config, slots: seq<T>, ls: seq<Label<T>>)
    requires cfg.Fenced() && IsCapacity(cfg.size) && |slots| == cfg.size
    requires Exec(cfg, slots, ls).Some?
    ensures var s := Exec(cfg, slots, ls).value;
            && s.popped <= s.pushed
            && |Queue(s)| <= cfg.size
            && s.c.Got() <= Queue(s)
  {
    InvRun(cfg, slots, ls);
    var s := Exec(cfg, slots, ls).value;
    assert s.c.Got() <= s.pushed[|s.popped|..s.seenIn] <= Queue(s);
  }

  /** The same threads and histories, with and without buffers. */
  ghost predicate SameThreads<T>(s: State<T>, b: Interleaved.State<T>) {
    && b.inIdx == s.inIdx && b.outIdx == s.outIdx
    && b.p == s.p && b.c == s.c
    && b.seenOut == s.seenOut && b.seenIn == s.seenIn
    && b.pushed == s.pushed && b.popped == s.popped
  }

  ghost predicate Related<T>(cfg: Config, s: State<T>, b: Interleaved.State<T>) {
    Inv(cfg, s) && Interleaved.Inv(Plain(cfg), b) && SameThreads(s, b)
  }

  function Plain(cfg: Config): Interleaved.Config {
    Interleaved.Config(cfg.size, false)
  }

  /** Landing a store is invisible; any other step is the same step there. */
  function Image<T>(s: State<T>, l: Label<T>): Option<Interleaved.Label<T>> {
    match l
    case SampleOut => Some(Interleaved.SampleOut(s.landedOut))
    case GiveUpPush => Some(Interleaved.GiveUpPush)
    case BeginPush(xs) => Some(Interleaved.BeginPush(xs))
    case WriteSlot => Some(Interleaved.WriteSlot)
    case FencePush => Some(Interleaved.FencePush)
    case PublishIn => Some(Interleaved.PublishIn)
    case SampleIn => Some(Interleaved.SampleIn(s.landedIn))
    case GiveUpPop => Some(Interleaved.GiveUpPop)
    case BeginPop(n) => Some(Interleaved.BeginPop(n))
    case ReadSlot => Some(Interleaved.ReadSlot)
    case FencePop => Some(Interleaved.FencePop)
    case PublishOut => Some(Interleaved.PublishOut)
    case LandSlot(_) => None
    case LandIn(_) => None
    case LandOut(_) => None
  }

  ghost predicate Simulates<T>(cfg: Config, s: State<T>, b: Interleaved.State<T>, l: Label<T>)
    requires IsCapacity(cfg.size) && Enabled(cfg, s, l)
  {
    match Image(s, l)
    case None => SameThreads(Step(cfg, s, l), b)
    case Some(m) =>
      Interleaved.Enabled(Plain(cfg), b, m) && SameThreads(Step(cfg, s, l), Interleaved.Step(Plain(cfg), b, m))
  }

  lemma SimulatesLocal<T>(cfg: Config, s: State<T>, b: Interleaved.State<T>, l: Label<T>)
    requires IsCapacity(cfg.size) && SameThreads(s, b) && Enabled(cfg, s, l) && |b.slots| == cfg.size
    requires !l.SampleOut? && !l.SampleIn? && !l.ReadSlot?
    ensures Simulates(cfg, s, b, l)
  {
    hide IsCapacity, Wrap, And;
  }

  lemma SimulatesSample<T>(cfg: Config, s: State<T>, b: Interleaved.State<T>, l: Label<T>)
    requires IsCapacity(cfg.size) && SameThreads(s, b) && Enabled(cfg, s, l) && InvCounters(cfg, s)
    requires l.SampleOut? || l.SampleIn?
    ensures Simulates(cfg, s, b, l)
  {
    hide IsCapacity, Wrap;
  }

  lemma SimulatesRead<T>(cfg: Config, s: State<T>, b: Interleaved.State<T>)
    requires Related(cfg, s, b) && Enabled(cfg, s, ReadSlot) && |b.slots| == cfg.size
    ensures Simulates(cfg, s, b, ReadSlot)
  {
    hide Inv, Interleaved.Inv, Wrap, SplitIndex, And, IsCapacity;
    InvRead(cfg, s);
    Interleaved.InvRead(Plain(cfg), b);
  }

  /** One step over store buffers is no step, or the same step, without them. */
  lemma RefinesInterleaved<T>(cfg: Config, s: State<T>, b: Interleaved.State<T>, l: Label<T>)
    requires cfg.Fenced() && Related(cfg, s, b) && Enabled(cfg, s, l)
    ensures match Image(s, l)
            case None => Related(cfg, Step(cfg, s, l), b)
            case Some(m) =>
              && Interleaved.Enabled(Plain(cfg), b, m)
              && Related(cfg, Step(cfg, s, l), Interleaved.Step(Plain(cfg), b, m))
  {
    InvStep(cfg, s, l);
    if l.ReadSlot? {
      SimulatesRead(cfg, s, b);
    } else if l.SampleOut? || l.SampleIn? {
      SimulatesSample(cfg, s, b, l);
    } else {
      SimulatesLocal(cfg, s, b, l);
    }
    hide Inv, SameThreads, Enabled, Step, Interleaved.Step;
    if Image(s, l).Some? {
      Interleaved.InvStep(Plain(cfg), b, Image(s, l).value);
    }
  }

  /** Every run over store buffers is, histories and answers included, a run of the
      interleaved machine in which some samples are old. */
  lemma {:induction false} RunRefines<T>(cfg: Config, slots: seq<T>, ls: seq<Label<T>>)
    returns (ms: seq<Interleaved.Label<T>>)
    requires cfg.Fenced() && IsCapacity(cfg.size) && |slots| == cfg.size
    requires Exec(cfg, slots, ls).Some?
    ensures Interleaved.Exec(Plain(cfg), slots, ms).Some?
    ensures Related(cfg, Exec(cfg, slots, ls).value, Interleaved.Exec(Plain(cfg), slots, ms).value)
    decreases |ls|
  {
    if ls == [] {
      ms := [];
      InvInit(cfg, slots);
      Interleaved.InvInit(Plain(cfg), slots);
    } else {
      var ks := RunRefines(cfg, slots, ls[..|ls| - 1]);
      var s, b, l := Exec(cfg, slots, ls[..|ls| - 1]).value, Interleaved.Exec(Plain(cfg), slots, ks).value, ls[|ls| - 1];
      RefinesInterleaved(cfg, s, b, l);
      match Image(s, l) {
        case None => ms := ks;
        case Some(m) =>
          ms := ks + [m];
          assert ms[..|ms| - 1] == ks;
      }
    }
  }

  /** What a refusal says. The producer sees a full ring only if no released slot
      has been announced since; the ring is then truly full exactly when every
      release has landed. Likewise for the consumer. */
  lemma RefusalsMean<T>(cfg: Config, s: State<T>)
    requires Inv(cfg, s)
    ensures Enabled(cfg, s, SampleOut) && Step(cfg, s, SampleOut).p.free == 0 ==>
              (|Queue(s)| == cfg.size <==> s.pendOut == map[])
    ensures Enabled(cfg, s, SampleIn) && Step(cfg, s, SampleIn).c.avail == 0 ==>
              (Queue(s) == [] <==> s.pendIn == map[])
  {
    hide IsCapacity, And, Wrap, Add, Sub, InvSlotStores, InvMemory;
    if s.p.PIdle? {
      InvSampleOut(cfg, s);
    }
    if s.c.CIdle? {
      InvSampleIn(cfg, s);
    }
  }

  // ---------- what is possible ----------

  /** The same as the plain machine, with nothing pending. */
  ghost predicate Landed<T>(s: State<T>, b: Interleaved.State<T>) {
    && SameThreads(s, b) && s.slots == b.slots
    && s.pendSlots == map[] && s.pendIn == map[] && s.pendOut == map[]
    && s.landedIn == |s.pushed| && s.landedOut == |s.popped|
  }

  function Exact(cfg: Config): Interleaved.Config {
    Interleaved.Config(cfg.size, true)
  }

  lemma PossibleLocal<T>(cfg: Config, slots: seq<T>, ks: seq<Label<T>>, s: State<T>, b: Interleaved.State<T>, l: Label<T>)
    returns (ls: seq<Label<T>>, t: State<T>)
    requires IsCapacity(cfg.size) && |s.slots| == cfg.size && Exec(cfg, slots, ks) == Some(s) && Landed(s, b)
    requires InvCounters(cfg, s)
    requires Image(s, l).Some? && Interleaved.Enabled(Exact(cfg), b, Image(s, l).value)
    requires !l.WriteSlot? && !l.PublishIn? && !l.PublishOut?
    ensures Exec(cfg, slots, ls) == Some(t) && Landed(t, Interleaved.Step(Exact(cfg), b, Image(s, l).value))
  {
    hide Exec, IsCapacity, Wrap, And;
    ls, t := Extend(cfg, slots, ks, s, l);
  }

  /** A slot store that lands at once. */
  lemma PossibleWrite<T>(cfg: Config, slots: seq<T>, ks: seq<Label<T>>, s: State<T>, b: Interleaved.State<T>)
    returns (ls: seq<Label<T>>, t: State<T>)
    requires IsCapacity(cfg.size) && |s.slots| == cfg.size && Exec(cfg, slots, ks) == Some(s) && Landed(s, b)
    requires Interleaved.Enabled(Exact(cfg), b, Interleaved.WriteSlot)
    ensures Exec(cfg, slots, ls) == Some(t) && Landed(t, Interleaved.Step(Exact(cfg), b, Interleaved.WriteSlot))
  {
    hide Exec, IsCapacity, Wrap;
    ls, t := Extend(cfg, slots, ks, s, WriteSlot);
    var q := |s.pushed| + s.p.done;
    assert t.pendSlots.Keys == {q};
    ls, t := Extend(cfg, slots, ls, t, LandSlot(q));
    assert t.pendSlots == map[];
  }

  /** An index store that lands at once. */
  lemma PossibleIn<T>(cfg: Config, slots: seq<T>, ks: seq<Label<T>>, s: State<T>, b: Interleaved.State<T>)
    returns (ls: seq<Label<T>>, t: State<T>)
    requires IsCapacity(cfg.size) && |s.slots| == cfg.size && Exec(cfg, slots, ks) == Some(s) && Landed(s, b)
    requires Interleaved.Enabled(Exact(cfg), b, Interleaved.PublishIn)
    ensures Exec(cfg, slots, ls) == Some(t) && Landed(t, Interleaved.Step(Exact(cfg), b, Interleaved.PublishIn))
  {
    hide Exec, IsCapacity, Wrap;
    ls, t := Extend(cfg, slots, ks, s, PublishIn);
    assert t.pendIn.Keys == {|t.pushed|};
    ls, t := Extend(cfg, slots, ls, t, LandIn(|t.pushed|));
    assert t.pendIn == map[];
  }

  lemma PossibleOut<T>(cfg: Config, slots: seq<T>, ks: seq<Label<T>>, s: State<T>, b: Interleaved.State<T>)
    returns (ls: seq<Label<T>>, t: State<T>)
    requires IsCapacity(cfg.size) && |s.slots| == cfg.size && Exec(cfg, slots, ks) == Some(s) && Landed(s, b)
    requires Interleaved.Enabled(Exact(cfg), b, Interleaved.PublishOut)
    ensures Exec(cfg, slots, ls) == Some(t) && Landed(t, Interleaved.Step(Exact(cfg), b, Interleaved.PublishOut))
  {
    hide Exec, IsCapacity, Wrap;
    ls, t := Extend(cfg, slots, ks, s, PublishOut);
    assert t.pendOut.Keys == {|t.popped|};
    ls, t := Extend(cfg, slots, ls, t, LandOut(|t.popped|));
    assert t.pendOut == map[];
  }

  lemma {:induction false} Oldest(epochs: map<nat, nat>) returns (k: nat)
    requires epochs != map[]
    ensures k in epochs && forall j :: j in epochs ==> epochs[k] <= epochs[j]
    decreases |epochs|
  {
    var x :| x in epochs;
    var rest := epochs - {x};
    assert forall j :: j in epochs ==> j == x || j in rest;
    if rest == map[] {
      k := x;
    } else {
      assert |rest| == |rest.Keys| < |epochs.Keys| == |epochs|;
      var y := Oldest(rest);
      k := if epochs[x] < epochs[y] then x else y;
    }
  }

  predicate Landing<T>(l: Label<T>) {
    l.LandSlot? || l.LandIn? || l.LandOut?
  }

  function Pending<T>(s: State<T>): nat {
    |s.pendSlots| + |s.pendIn| + |s.pendOut|
  }

  lemma SlotsInRange<T>(cfg: Config, s: State<T>)
    requires Inv(cfg, s)
    ensures forall q :: q in s.pendSlots ==> s.pendSlots[q].addr < |s.slots|
  {
    hide Wrap, InvMemory, InvCounters, InvIndexStores;
  }

  /** Some pending store may land: one of the oldest epoch of its thread. */
  lemma MayLand<T>(cfg: Config, s: State<T>) returns (l: Label<T>)
    requires Inv(cfg, s) && Pending(s) > 0
    ensures Landing(l) && Enabled(cfg, s, l)
  {
    hide IsCapacity, Wrap, InvMemory, InvCounters, InvIndexStores;
    SlotsInRange(cfg, s);
    hide Inv;
    if s.pendOut != map[] {
      var t := OldestIndex(s.pendOut);
      l := LandOut(t);
    } else if s.pendSlots == map[] {
      var h := OldestIndex(s.pendIn);
      l := LandIn(h);
    } else {
      var q := OldestSlot(s.pendSlots);
      l := LandSlot(q);
      if s.pendIn != map[] {
        var h := OldestIndex(s.pendIn);
        if s.pendIn[h].epoch < s.pendSlots[q].epoch {
          l := LandIn(h);
        }
      }
    }
  }

  lemma OldestIndex(pend: map<nat, IndexStore>) returns (h: nat)
    requires pend != map[]
    ensures h in pend && forall k :: k in pend ==> pend[k].epoch >= pend[h].epoch
  {
    var epochs := map k | k in pend :: pend[k].epoch;
    assert epochs.Keys == pend.Keys;
    h := Oldest(epochs);
    assert forall k :: k in pend ==> pend[k].epoch == epochs[k];
  }

  lemma OldestSlot<T>(pend: map<nat, SlotStore<T>>) returns (q: nat)
    requires pend != map[]
    ensures q in pend && forall k :: k in pend ==> pend[k].epoch >= pend[q].epoch
  {
    var epochs := map k | k in pend :: pend[k].epoch;
    assert epochs.Keys == pend.Keys;
    q := Oldest(epochs);
    assert forall k :: k in pend ==> pend[k].epoch == epochs[k];
  }

  lemma LandingStep<T>(cfg: Config, s: State<T>, l: Label<T>)
    requires IsCapacity(cfg.size) && Enabled(cfg, s, l) && Landing(l)
    ensures var s' := Step(cfg, s, l);
            && Pending(s') == Pending(s) - 1
            && s'.p == s.p && s'.c == s.c && s'.pushed == s.pushed && s'.popped == s.popped
  {
    hide IsCapacity, ProducerMayLand, Pending;
    match l {
      case LandSlot(q) => FewerSlots(s, Step(cfg, s, l), q);
      case LandIn(h) => FewerIn(s, Step(cfg, s, l), h);
      case LandOut(t) => FewerOut(s, Step(cfg, s, l), t);
    }
  }

  lemma FewerSlots<T>(s: State<T>, s': State<T>, q: nat)
    requires q in s.pendSlots && s'.pendSlots == s.pendSlots - {q} && s'.pendIn == s.pendIn && s'.pendOut == s.pendOut
    ensures Pending(s') == Pending(s) - 1
  {
    OneFewer(s.pendSlots, q);
  }

  lemma FewerIn<T>(s: State<T>, s': State<T>, h: nat)
    requires h in s.pendIn && s'.pendIn == s.pendIn - {h} && s'.pendSlots == s.pendSlots && s'.pendOut == s.pendOut
    ensures Pending(s') == Pending(s) - 1
  {
    OneFewer(s.pendIn, h);
  }

  lemma FewerOut<T>(s: State<T>, s': State<T>, t: nat)
    requires t in s.pendOut && s'.pendOut == s.pendOut - {t} && s'.pendSlots == s.pendSlots && s'.pendIn == s.pendIn
    ensures Pending(s') == Pending(s) - 1
  {
    OneFewer(s.pendOut, t);
  }

  lemma OneFewer<V>(m: map<nat, V>, k: nat)
    requires k in m
    ensures |m - {k}| == |m| - 1
  {
    assert (m - {k}).Keys == m.Keys - {k};
    assert |m| == |m.Keys| && |m - {k}| == |(m - {k}).Keys|;
  }

  /** Memory shows both counters and every element issued and not yet released. */
  ghost predicate AllVisible<T>(cfg: Config, s: State<T>) {
    && Pending(s) == 0
    && s.memIn == s.inIdx == Wrap(|s.pushed|) && s.memOut == s.outIdx == Wrap(|s.popped|)
    && |s.slots| == cfg.size > 0
    && forall q :: |s.popped| <= q < |Written(s)| ==> s.slots[SlotOf(cfg.size, q)] == Written(s)[q]
  }

  lemma NothingPending<T>(cfg: Config, s: State<T>)
    requires Inv(cfg, s) && Pending(s) == 0
    ensures AllVisible(cfg, s)
  {
    hide Wrap, SlotOf;
    assert s.pendSlots == map[] && s.pendIn == map[] && s.pendOut == map[];
  }

  /** No store is stuck: from any state of any run the pending stores can all land,
      one step each, and then memory shows both counters and every slot as issued. */
  lemma {:induction false} AllLand<T>(cfg: Config, slots: seq<T>, ks: seq<Label<T>>) returns (ms: seq<Label<T>>)
    requires cfg.Fenced() && IsCapacity(cfg.size) && |slots| == cfg.size && Exec(cfg, slots, ks).Some?
    ensures |ms| == Pending(Exec(cfg, slots, ks).value) && (forall i :: 0 <= i < |ms| ==> Landing(ms[i]))
    ensures Exec(cfg, slots, ks + ms).Some?
    ensures var r, s := Exec(cfg, slots, ks).value, Exec(cfg, slots, ks + ms).value;
            && s.p == r.p && s.c == r.c && s.pushed == r.pushed && s.popped == r.popped
            && AllVisible(cfg, s)
    decreases Pending(Exec(cfg, slots, ks).value)
  {
    hide Exec, Inv, AllVisible, Pending, Step, Enabled, IsCapacity;
    InvRun(cfg, slots, ks);
    var r := Exec(cfg, slots, ks).value;
    if Pending(r) == 0 {
      ms := [];
      assert ks + ms == ks;
      NothingPending(cfg, r);
    } else {
      var l := MayLand(cfg, r);
      assert IsCapacity(cfg.size);
      LandingStep(cfg, r, l);
      var ls, t := Extend(cfg, slots, ks, r, l);
      ms := AllLand(cfg, slots, ls);
      assert ks + ([l] + ms) == ls + ms;
      ms := [l] + ms;
    }
  }

  /** The step of the plain machine as one of this machine. */
  function Preimage<T>(m: Interleaved.Label<T>): Label<T> {
    match m
    case SampleOut(_) => SampleOut
    case GiveUpPush => GiveUpPush
    case BeginPush(xs) => BeginPush(xs)
    case WriteSlot => WriteSlot
    case FencePush => FencePush
    case PublishIn => PublishIn
    case SampleIn(_) => SampleIn
    case GiveUpPop => GiveUpPop
    case BeginPop(n) => BeginPop(n)
    case ReadSlot => ReadSlot
    case FencePop => FencePop
    case PublishOut => PublishOut
  }

  /** The converse of refinement: every sequentially consistent run is possible over
      store buffers, so the fences and the late stores take nothing away. */
  lemma {:induction false} SequentialRunsPossible<T>(cfg: Config, slots: seq<T>, ms: seq<Interleaved.Label<T>>)
    returns (ls: seq<Label<T>>)
    requires cfg.Fenced() && IsCapacity(cfg.size) && |slots| == cfg.size
    requires Interleaved.Exec(Exact(cfg), slots, ms).Some?
    ensures Exec(cfg, slots, ls).Some?
    ensures Landed(Exec(cfg, slots, ls).value, Interleaved.Exec(Exact(cfg), slots, ms).value)
    decreases |ms|
  {
    if ms == [] {
      ls := [];
    } else {
      var m, b := ms[|ms| - 1], Interleaved.Exec(Exact(cfg), slots, ms[..|ms| - 1]).value;
      ls := SequentialRunsPossible(cfg, slots, ms[..|ms| - 1]);
      InvRun(cfg, slots, ls);
      Interleaved.InvRun(Exact(cfg), slots, ms[..|ms| - 1]);
      var s := Exec(cfg, slots, ls).value;
      ls := OneMorePossible(cfg, slots, ls, s, b, m);
    }
  }

  lemma OneMorePossible<T>(
    cfg: Config, slots: seq<T>, ks: seq<Label<T>>, s: State<T>, b: Interleaved.State<T>, m: Interleaved.Label<T>)
    returns (ls: seq<Label<T>>)
    requires IsCapacity(cfg.size) && |s.slots| == cfg.size && Exec(cfg, slots, ks) == Some(s) && Landed(s, b)
    requires InvCounters(cfg, s) && Interleaved.Enabled(Exact(cfg), b, m)
    ensures Exec(cfg, slots, ls).Some?
    ensures Landed(Exec(cfg, slots, ls).value, Interleaved.Step(Exact(cfg), b, m))
  {
    hide Exec, IsCapacity, InvCounters, Interleaved.Step;
    var t: State<T>;
    match m {
      case WriteSlot => ls, t := PossibleWrite(cfg, slots, ks, s, b);
      case PublishIn => ls, t := PossibleIn(cfg, slots, ks, s, b);
      case PublishOut => ls, t := PossibleOut(cfg, slots, ks, s, b);
      case _ =>
        assert Image(s, Preimage(m)) == Some(m);
        ls, t := PossibleLocal(cfg, slots, ks, s, b, Preimage(m));
    }
  }

  lemma Start<T>(cfg: Config, slots: seq<T>) returns (ls: seq<Label<T>>, s: State<T>)
    requires IsCapacity(cfg.size)
    ensures s == Init(slots) && Exec(cfg, slots, ls) == Some(s)
  {
    ls, s := [], Init(slots);
  }

  lemma Extend<T>(cfg: Config, slots: seq<T>, ks: seq<Label<T>>, r: State<T>, l: Label<T>)
    returns (ls: seq<Label<T>>, s: State<T>)
    requires IsCapacity(cfg.size) && Exec(cfg, slots, ks) == Some(r) && Enabled(cfg, r, l)
    ensures ls == ks + [l] && s == Step(cfg, r, l) && Exec(cfg, slots, ls) == Some(s)
  {
    ls, s := ks + [l], Step(cfg, r, l);
    assert ls[..|ls| - 1] == ks;
  }

  /** A whole push of one element of which nothing has landed yet. */
  lemma PushRun(cfg: Config, slots: seq<int>, ks: seq<Label<int>>, r: State<int>, x: int)
    returns (ls: seq<Label<int>>, s: State<int>)
    requires IsCapacity(cfg.size) && Exec(cfg, slots, ks) == Some(r)
    requires cfg.size > 0 && r.p.PIdle? && Add(Sub(cfg.size, r.inIdx), r.memOut) > 0
    ensures var w, n, e := Wrap(r.inIdx + 1), |r.pushed|, NextEpoch(cfg.pFence, r.pEpoch);
            s == r.(pendSlots := r.pendSlots[n := SlotStore(And(r.inIdx, cfg.size - 1), x, r.pEpoch)],
                    pendIn := r.pendIn[n + 1 := IndexStore(w, e)],
                    pEpoch := e, inIdx := w, pushed := r.pushed + [x], seenOut := r.landedOut)
    ensures Exec(cfg, slots, ls) == Some(s)
  {
    hide Exec, IsCapacity, Wrap, Add, Sub, And, NextEpoch;
    ls, s := Extend(cfg, slots, ks, r, SampleOut);
    ls, s := Extend(cfg, slots, ls, s, BeginPush([x]));
    ls, s := Extend(cfg, slots, ls, s, WriteSlot);
    ls, s := Extend(cfg, slots, ls, s, FencePush);
    ls, s := Extend(cfg, slots, ls, s, PublishIn);
  }

  /** A pop up to the point where its one element is read. */
  lemma ReadRun(cfg: Config, slots: seq<int>, ks: seq<Label<int>>, r: State<int>)
    returns (ls: seq<Label<int>>, s: State<int>)
    requires IsCapacity(cfg.size) && Exec(cfg, slots, ks) == Some(r)
    requires cfg.size > 0 && r.c.CIdle? && Sub(r.memIn, r.outIdx) > 0 && |r.slots| == cfg.size
    ensures s == r.(c := CReading(1, [r.slots[And(r.outIdx, cfg.size - 1)]]), seenIn := r.landedIn)
    ensures Exec(cfg, slots, ls) == Some(s)
  {
    hide Exec, IsCapacity, Wrap, Sub, And;
    ls, s := Extend(cfg, slots, ks, r, SampleIn);
    ls, s := Extend(cfg, slots, ls, s, BeginPop(1));
    ls, s := Extend(cfg, slots, ls, s, ReadSlot);
    assert s.c.got == [r.slots[And(r.outIdx, cfg.size - 1)]];
  }

  /** The producer's fence is needed: if it does nothing, the consumer's being in
      place, the index of a first push can land before the element, and the consumer
      reads what was in the slot before. (Stores of one thread are kept in order by
      some processors without a fence; here only the fence orders them.) */
  lemma FencesAreNeeded(x: int, y: int)
    returns (ls: seq<Label<int>>, s: State<int>)
    requires x != y
    ensures IsCapacity(2) && Exec(Config(2, false, true), [y, y], ls) == Some(s)
    ensures s.pushed == [x] && s.c.Got() == [y]
  {
    TwoIsCapacity();
    hide Exec, IsCapacity, Wrap, Add, Sub, And;
    var cfg := Config(2, false, true);
    FirstPush();
    ls, s := PushUnfenced(cfg, [y, y], x);
    ls, s := Extend(cfg, [y, y], ls, s, LandIn(1));
    ls, s := ReadRun(cfg, [y, y], ls, s);
  }

  /** A first push whose element and index are pending in one epoch. */
  lemma PushUnfenced(cfg: Config, slots: seq<int>, x: int) returns (ls: seq<Label<int>>, s: State<int>)
    requires cfg == Config(2, false, true) && IsCapacity(2) && |slots| == 2
    ensures Exec(cfg, slots, ls) == Some(s)
    ensures s.c.CIdle? && s.outIdx == 0 && s.slots == slots && s.pushed == [x]
    ensures s.pendIn == map[1 := IndexStore(1, 0)] && s.pendSlots.Keys == {0} && s.pendSlots[0].epoch == 0
  {
    hide Exec, IsCapacity, Wrap, Add, Sub, And;
    FirstPush();
    ls, s := Start(cfg, slots);
    ls, s := PushRun(cfg, slots, ls, s, x);
  }

  lemma TwoIsCapacity()
    ensures IsCapacity(2) && And(0, 1) == 0
  {
  }

  /** The words of a first push into a ring of two. */
  lemma FirstPush()
    ensures Wrap(1) == 1 && Add(Sub(2, 0), 0) == 2 && Sub(1, 0) == 1
  {
    hide Wrap;
    WrapNear(1);
    WrapNear(2);
  }

  /** The consumer's fence is needed too: it is all that keeps its own index stores in
      order. If it does nothing, an old one can land last, and the producer computes
      free space below zero, which wraps. */
  lemma ConsumerFenceIsNeeded(x: int)
    returns (ls: seq<Label<int>>, s: State<int>)
    ensures IsCapacity(2) && Exec(Config(2, true, false), [x, x], ls) == Some(s)
    ensures |s.pushed| - |s.popped| == 2 && s.p == PSampled(MODULUS - 1)
  {
    TwoIsCapacity();
    hide Exec, IsCapacity, Wrap, Add, Sub, And, NextEpoch;
    var cfg, slots := Config(2, true, false), [x, x];
    ls, s := FullRing(cfg, slots, x);
    ls, s := LatePops(cfg, slots, ls, s);
    ls, s := Extend(cfg, slots, ls, s, LandOut(2));
    ls, s := Refill(cfg, slots, ls, s, x);
    ls, s := Extend(cfg, slots, ls, s, LandOut(1));
    ls, s := Extend(cfg, slots, ls, s, SampleOut);
    BelowZero();
  }

  /** Four published, one released, in a ring of two. */
  lemma BelowZero()
    ensures Add(Sub(2, 4), 1) == MODULUS - 1
  {
    hide Wrap;
    WrapNear(-2);
    WrapNear(MODULUS - 1);
  }

  /** Two published and released, with room for two more. */
  lemma RoomForTwo()
    ensures Wrap(3) == 3 && Wrap(4) == 4
    ensures Add(Sub(2, 2), 2) == 2 && Add(Sub(2, 3), 2) == 1
  {
    hide Wrap;
    WrapNear(3);
    WrapNear(4);
    WrapNear(0);
    WrapNear(2);
    WrapNear(-1);
    WrapNear(MODULUS + 1);
  }

  lemma Refill(cfg: Config, slots: seq<int>, ks: seq<Label<int>>, r: State<int>, x: int)
    returns (ls: seq<Label<int>>, s: State<int>)
    requires cfg == Config(2, true, false) && IsCapacity(2) && Exec(cfg, slots, ks) == Some(r)
    requires r.p.PIdle? && r.inIdx == 2 && r.memOut == 2
    ensures Exec(cfg, slots, ls) == Some(s)
    ensures s.p.PIdle? && s.inIdx == 4 && |s.pushed| == |r.pushed| + 2
    ensures s.popped == r.popped && s.pendOut == r.pendOut
  {
    hide Exec, IsCapacity, Wrap, Add, Sub, And, NextEpoch;
    RoomForTwo();
    ls, s := PushRun(cfg, slots, ks, r, x);
    ls, s := PushRun(cfg, slots, ls, s, x);
  }

  /** Two pushes into a ring of two slots, all landed. */
  lemma FullRing(cfg: Config, slots: seq<int>, x: int)
    returns (ls: seq<Label<int>>, s: State<int>)
    requires cfg == Config(2, true, false) && IsCapacity(2) && |slots| == 2
    ensures Exec(cfg, slots, ls) == Some(s)
    ensures s.p.PIdle? && s.c.CIdle? && s.inIdx == 2 && s.memIn == 2 && s.outIdx == 0 && s.memOut == 0
    ensures |s.slots| == 2 && |s.pushed| == 2 && s.popped == [] && s.pendOut == map[] && s.landedIn == 2
  {
    hide Exec, IsCapacity;
    ls, s := Start(cfg, slots);
    ls, s := PushRun(cfg, slots, ls, s, x);
    ls, s := Extend(cfg, slots, ls, s, LandSlot(0));
    ls, s := Extend(cfg, slots, ls, s, LandIn(1));
    ls, s := PushRun(cfg, slots, ls, s, x);
    ls, s := Extend(cfg, slots, ls, s, LandSlot(1));
    ls, s := Extend(cfg, slots, ls, s, LandIn(2));
  }

  /** Two pops whose index stores are both pending, in one epoch. */
  lemma LatePops(cfg: Config, slots: seq<int>, ks: seq<Label<int>>, r: State<int>)
    returns (ls: seq<Label<int>>, s: State<int>)
    requires cfg == Config(2, true, false) && IsCapacity(2) && Exec(cfg, slots, ks) == Some(r)
    requires r.c.CIdle? && r.memIn == 2 && r.outIdx == 0 && |r.slots| == 2 && r.popped == [] && r.pendOut == map[]
    ensures Exec(cfg, slots, ls) == Some(s)
    ensures s.p == r.p && s.c.CIdle? && s.inIdx == r.inIdx && s.memOut == r.memOut && s.pushed == r.pushed && |s.popped| == 2
    ensures s.pendOut == map[1 := IndexStore(1, r.cEpoch), 2 := IndexStore(2, r.cEpoch)]
  {
    hide Exec, IsCapacity;
    ls, s := ReadRun(cfg, slots, ks, r);
    ls, s := Extend(cfg, slots, ls, s, FencePop);
    ls, s := Extend(cfg, slots, ls, s, PublishOut);
    assert s.pendOut == map[1 := IndexStore(1, r.cEpoch)] && |s.popped| == 1;
    ls, s := ReadRun(cfg, slots, ls, s);
    ls, s := Extend(cfg, slots, ls, s, FencePop);
    ls, s := Extend(cfg, slots, ls, s, PublishOut);
  }

  /** Both sides can be refused at once around a queue that is neither empty nor
      full: each has its own index store still pending when it looks at the other's.
      The machine with exact samples never does this (Interleaved.BothRefused), so
      the store fences alone do not make refusals sequentially consistent. */
  lemma RefusalsNotSequential(x: int, y: int)
    returns (ls: seq<Label<int>>, s: State<int>)
    ensures IsCapacity(2) && Exec(Config(2, true, true), [y, y], ls) == Some(s)
    ensures s.p == PSampled(0) && s.c == CSampled(0)
    ensures |s.pushed| == 2 && |s.popped| == 1
  {
    TwoIsCapacity();
    hide Exec, IsCapacity;
    var cfg := Config(2, true, true);
    ls, s := TwoPushes(cfg, [y, y], x);
    ls, s := Extend(cfg, [y, y], ls, s, SampleOut);
    ls, s := ReadRun(cfg, [y, y], ls, s);
    ls, s := RefusedPop(cfg, [y, y], ls, s);
  }

  /** Two pushes into a ring of two slots; only the first one lands. */
  lemma TwoPushes(cfg: Config, slots: seq<int>, x: int)
    returns (ls: seq<Label<int>>, s: State<int>)
    requires cfg == Config(2, true, true) && IsCapacity(2) && |slots| == 2
    ensures Exec(cfg, slots, ls) == Some(s)
    ensures s.p.PIdle? && s.c.CIdle? && s.inIdx == 2 && s.memOut == 0
    ensures s.memIn == 1 && s.outIdx == 0 && |s.slots| == 2
    ensures |s.pushed| == 2 && s.popped == []
  {
    hide Exec, IsCapacity;
    ls, s := Start(cfg, slots);
    ls, s := PushRun(cfg, slots, ls, s, x);
    ls, s := Extend(cfg, slots, ls, s, LandSlot(0));
    ls, s := Extend(cfg, slots, ls, s, LandIn(1));
    ls, s := PushRun(cfg, slots, ls, s, x);
  }

  /** Finishes a pop whose index does not land, and samples again. */
  lemma RefusedPop(cfg: Config, slots: seq<int>, ks: seq<Label<int>>, r: State<int>)
    returns (ls: seq<Label<int>>, s: State<int>)
    requires IsCapacity(cfg.size) && Exec(cfg, slots, ks) == Some(r)
    requires r.c.CReading? && r.c.n == |r.c.got|
    ensures s.p == r.p && s.pushed == r.pushed && s.popped == r.popped + r.c.got
    ensures s.c == CSampled(Sub(r.memIn, Wrap(r.outIdx + r.c.n)))
    ensures Exec(cfg, slots, ls) == Some(s)
  {
    hide Exec, IsCapacity, Wrap, Sub;
    ls, s := Extend(cfg, slots, ks, r, FencePop);
    ls, s := Extend(cfg, slots, ls, s, PublishOut);
    ls, s := Extend(cfg, slots, ls, s, SampleIn);
  }
}
