/** Why a ring may be one atomic queue in Pipeline. Put in its place the interleaved
    ring with its slots, wrapped counters and old samples, used as the producers and
    the drainer use it: each of its steps is a step of Pipeline or none, and what
    the drainer reads from a slot is the entry that Pipeline copies. */
module PipelineRings {
  import opened Wrappers
  import opened Words
  import opened LogRecords
  import opened RingThreads
  import I = Interleaved
  import opened Pipeline

  /** The ring of producer i in state b stands for what Pipeline keeps of it. */
  ghost predicate Stands(cfg: Config, s: State, i: nat, b: I.State<Entry>) {
    && InvRings(cfg, s) && i < cfg.producers
    && b.pushed == s.published[i]
    && |b.popped| == s.consumed[i]
    && (b.p.Batch() != [] ==> Staged(cfg, s, i, b.p.Batch()))
    && match b.c
       case CIdle => !(s.d.DCopy? && s.d.index == i)
       case CSampled(_) => s.d.DPass? && s.d.index == i
       case CReading(n, got) => s.d.DCopy? && s.d.index == i && s.d.n == n && s.d.done == |got|
       case CFenced(got) => s.d.DCopy? && s.d.index == i && s.d.n == s.d.done == |got|
  }

  /** A producer publishes one entry at a time, as `add` fills it in. */
  ghost predicate Staged(cfg: Config, s: State, i: nat, xs: seq<Entry>)
    requires i < |s.published|
  {
    |xs| == 1 && xs[0].fmtId == 7 && xs[0].entrySize == RECORD_BYTES && |s.published[i]| < cfg.quota
  }

  /** How the two threads use the ring: the drainer samples it when its pass comes to
      it, takes no more than a batch, and reads an entry only to copy it. */
  ghost predicate Client(cfg: Config, s: State, i: nat, b: I.State<Entry>, m: I.Label<Entry>)
    requires i < |s.published|
  {
    match m
    case BeginPush(xs) => Staged(cfg, s, i, xs)
    case SampleIn(_) => s.d.DPass? && s.d.index == i
    case GiveUpPop => b.c.CSampled? && b.c.avail == 0
    case BeginPop(n) => b.c.CSampled? && n == Min(cfg.batch, b.c.avail)
    case ReadSlot => Fits(cfg, s)
    case _ => true
  }

  ghost function Image(i: nat, b: I.State<Entry>, m: I.Label<Entry>): Option<Label> {
    match m
    case PublishIn => if |b.p.Batch()| == 1 then Some(Produce(i, b.p.Batch()[0])) else None
    case GiveUpPop => Some(Peek(0))
    case BeginPop(_) => if b.c.CSampled? then Some(Peek(b.c.avail)) else None
    case ReadSlot => Some(Copy)
    case PublishOut => Some(Consume)
    case _ => None
  }

  /** A step of the ring is a step of Pipeline, or invisible there. */
  lemma RingStep(cfg: Config, s: State, i: nat, ring: I.Config, b: I.State<Entry>, m: I.Label<Entry>)
    requires cfg.batch > 0 && ring.size == cfg.ringSize && I.Inv(ring, b) && Stands(cfg, s, i, b)
    requires I.Enabled(ring, b, m) && Client(cfg, s, i, b, m)
    ensures match Image(i, b, m)
            case None => Stands(cfg, s, i, I.Step(ring, b, m))
            case Some(l) => Enabled(cfg, s, l) && Stands(cfg, Step(cfg, s, l), i, I.Step(ring, b, m))
    ensures m.ReadSlot? ==>
              Next(s).Some? && I.Step(ring, b, m).c == CReading(s.d.n, b.c.got + [Next(s).value])
  {
    hide IsCapacity, Wrap, And, I.SlotsHold, Length, Get;
    if Image(i, b, m).Some? {
      RingImage(cfg, s, i, ring, b, m);
    }
    if m.ReadSlot? {
      I.InvRead(ring, b);
    }
  }

  lemma RingImage(cfg: Config, s: State, i: nat, ring: I.Config, b: I.State<Entry>, m: I.Label<Entry>)
    requires cfg.batch > 0 && ring.size == cfg.ringSize && I.Inv(ring, b) && Stands(cfg, s, i, b)
    requires I.Enabled(ring, b, m) && Client(cfg, s, i, b, m) && Image(i, b, m).Some?
    ensures Enabled(cfg, s, Image(i, b, m).value)
    ensures Stands(cfg, Step(cfg, s, Image(i, b, m).value), i, I.Step(ring, b, m))
  {
    hide IsCapacity, Wrap, And, I.SlotsHold, Length, Get;
    var l := Image(i, b, m).value;
    assert Enabled(cfg, s, l);
    RingsStep(cfg, s, l);
  }

  /** A step that is not on this ring leaves it as it stands. */
  lemma OtherStep(cfg: Config, s: State, i: nat, b: I.State<Entry>, l: Label)
    requires cfg.batch > 0 && Stands(cfg, s, i, b) && Enabled(cfg, s, l)
    requires l.Produce? ==> l.i != i
    requires l.Peek? || l.Copy? || l.Consume? ==> s.d.index != i
    ensures Stands(cfg, Step(cfg, s, l), i, b)
  {
    hide InvRings;
    RingsStep(cfg, s, l);
  }

  /** All rings stand at the start. */
  lemma RingsStart(cfg: Config, i: nat, slots: seq<Entry>)
    requires i < cfg.producers
    ensures Stands(cfg, Init(cfg), i, I.Init(slots))
  {
  }
}
