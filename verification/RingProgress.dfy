/** Wait-freedom of the ring: from its sample on, an operation is over after a
    number of its own steps that is fixed when it begins, and the other thread can
    neither add to that number nor stop a step. */
module RingProgress {
  import opened Wrappers
  import opened Words
  import opened RingThreads
  import opened Interleaved

  predicate OfProducer<T>(l: Label<T>) {
    l.SampleOut? || l.GiveUpPush? || l.BeginPush? || l.WriteSlot? || l.FencePush? || l.PublishIn?
  }

  /** Own steps left: the elements still to store, the fence, the publication; after
      the sample, as many as the largest batch it allows would take. */
  function PushLeft<T>(p: Producer<T>): int {
    match p
    case PIdle => 0
    case PSampled(free) => free + 3
    case PWriting(b, done) => |b| - done + 2
    case PFenced(_) => 1
  }

  function PopLeft<T>(c: Consumer<T>): int {
    match c
    case CIdle => 0
    case CSampled(avail) => avail + 3
    case CReading(n, got) => n - |got| + 2
    case CFenced(_) => 1
  }

  /** How many of the steps are the producer's, or the consumer's. */
  function StepsOf<T>(ms: seq<Label<T>>, producer: bool): nat {
    if ms == [] then 0
    else StepsOf(ms[..|ms| - 1], producer) + (if OfProducer(ms[|ms| - 1]) == producer then 1 else 0)
  }

  /** No new operation of the producer begins. */
  predicate SamePush<T>(ms: seq<Label<T>>) {
    forall i :: 0 <= i < |ms| ==> !ms[i].SampleOut?
  }

  predicate SamePop<T>(ms: seq<Label<T>>) {
    forall i :: 0 <= i < |ms| ==> !ms[i].SampleIn?
  }

  /** What one step means for the push under way: an own step brings its end nearer,
      by exactly one once the batch is fixed; one of the other thread changes nothing. */
  ghost predicate PushMoves<T>(s: State<T>, s': State<T>, own: bool) {
    && 0 <= PushLeft(s'.p) <= PushLeft(s.p) - (if own then 1 else 0)
    && (!own ==> s'.p == s.p && s'.pushed == s.pushed)
    && match s.p
       case PIdle => s'.p.PIdle? && s'.pushed == s.pushed
       case PSampled(_) =>
         s'.pushed == s.pushed && (own ==> s'.p.PIdle? || (s'.p.PWriting? && s'.p.done == 0 < |s'.p.batch|))
       case _ =>
         && PushLeft(s'.p) == PushLeft(s.p) - (if own then 1 else 0)
         && (if s'.p.PIdle? then s'.pushed == s.pushed + s.p.Batch()
             else !s'.p.PSampled? && s'.pushed == s.pushed && s'.p.Batch() == s.p.Batch())
  }

  ghost predicate PopMoves<T>(s: State<T>, s': State<T>, own: bool) {
    && 0 <= PopLeft(s'.c) <= PopLeft(s.c) - (if own then 1 else 0)
    && (!own ==> s'.c == s.c && s'.popped == s.popped)
    && match s.c
       case CIdle => s'.c.CIdle? && s'.popped == s.popped
       case CSampled(_) =>
         s'.popped == s.popped && (own ==> s'.c.CIdle? || (s'.c.CReading? && |s'.c.got| == 0 < s'.c.n))
       case _ =>
         && PopLeft(s'.c) == PopLeft(s.c) - (if own then 1 else 0)
         && (if s'.c.CIdle? then |s'.popped| == |s.popped| + s.c.Claimed()
             else !s'.c.CSampled? && s'.popped == s.popped && s'.c.Claimed() == s.c.Claimed())
  }

  lemma PushStep<T>(cfg: Config, s: State<T>, l: Label<T>)
    requires Inv(cfg, s) && Enabled(cfg, s, l) && !l.SampleOut?
    ensures PushMoves(s, Step(cfg, s, l), OfProducer(l))
  {
    hide IsCapacity, Wrap, And, SlotsHold;
  }

  lemma PopStep<T>(cfg: Config, s: State<T>, l: Label<T>)
    requires Inv(cfg, s) && Enabled(cfg, s, l) && !l.SampleIn?
    ensures PopMoves(s, Step(cfg, s, l), !OfProducer(l))
  {
    hide IsCapacity, Wrap, And, SlotsHold;
  }

  /** While something is left an own step is enabled, in whatever state the other
      thread is. */
  lemma PushGoesOn<T>(cfg: Config, s: State<T>) returns (l: Label<T>)
    requires Inv(cfg, s) && !s.p.PIdle?
    ensures PushLeft(s.p) > 0
    ensures OfProducer(l) && !l.SampleOut? && Enabled(cfg, s, l)
  {
    match s.p {
      case PSampled(_) => l := GiveUpPush;
      case PWriting(b, done) => l := if done < |b| then WriteSlot else FencePush;
      case PFenced(_) => l := PublishIn;
    }
  }

  lemma PopGoesOn<T>(cfg: Config, s: State<T>) returns (l: Label<T>)
    requires Inv(cfg, s) && !s.c.CIdle?
    ensures PopLeft(s.c) > 0
    ensures !OfProducer(l) && !l.SampleIn? && Enabled(cfg, s, l)
  {
    match s.c {
      case CSampled(_) => l := GiveUpPop;
      case CReading(n, got) => l := if |got| < n then ReadSlot else FencePop;
      case CFenced(_) => l := PublishOut;
    }
  }

  lemma LastStep<T>(cfg: Config, slots: seq<T>, ks: seq<Label<T>>, l: Label<T>)
    requires IsCapacity(cfg.size) && |slots| == cfg.size && Exec(cfg, slots, ks + [l]).Some?
    ensures Exec(cfg, slots, ks).Some? && Inv(cfg, Exec(cfg, slots, ks).value)
    ensures Enabled(cfg, Exec(cfg, slots, ks).value, l)
    ensures Exec(cfg, slots, ks + [l]) == Some(Step(cfg, Exec(cfg, slots, ks).value, l))
  {
    assert (ks + [l])[..|ks|] == ks;
    InvRun(cfg, slots, ks);
  }

  /** What `own` steps of the producer have led to from r, if no other operation of
      it has begun. Once the batch is chosen they are exactly what was left less what
      still is, |batch| + 3 in all from the sample on, and the last of them publishes
      exactly that batch. */
  ghost predicate PushAfter<T>(r: State<T>, s: State<T>, own: nat) {
    && 0 <= PushLeft(s.p) <= PushLeft(r.p) - own
    && (PushLeft(s.p) == 0 <==> s.p.PIdle?)
    && match r.p
       case PIdle => s.p.PIdle? && s.pushed == r.pushed
       case PSampled(_) =>
         (match s.p
          case PIdle => (own == 1 && s.pushed == r.pushed) || own == |s.pushed| - |r.pushed| + 3 > 3
          case PSampled(_) => own == 0 && s.pushed == r.pushed
          case _ => own + PushLeft(s.p) == |s.p.Batch()| + 3 > 3 && s.pushed == r.pushed)
       case _ =>
         && own == PushLeft(r.p) - PushLeft(s.p)
         && (if s.p.PIdle? then s.pushed == r.pushed + r.p.Batch()
             else !s.p.PSampled? && s.pushed == r.pushed && s.p.Batch() == r.p.Batch())
  }

  ghost predicate PopAfter<T>(r: State<T>, s: State<T>, own: nat) {
    && 0 <= PopLeft(s.c) <= PopLeft(r.c) - own
    && (PopLeft(s.c) == 0 <==> s.c.CIdle?)
    && match r.c
       case CIdle => s.c.CIdle? && s.popped == r.popped
       case CSampled(_) =>
         (match s.c
          case CIdle => (own == 1 && s.popped == r.popped) || own == |s.popped| - |r.popped| + 3 > 3
          case CSampled(_) => own == 0 && s.popped == r.popped
          case _ => own + PopLeft(s.c) == s.c.Claimed() + 3 > 3 && s.popped == r.popped)
       case _ =>
         && own == PopLeft(r.c) - PopLeft(s.c)
         && (if s.c.CIdle? then |s.popped| == |r.popped| + r.c.Claimed()
             else !s.c.CSampled? && s.popped == r.popped && s.c.Claimed() == r.c.Claimed())
  }

  lemma PushAfterNext<T>(cfg: Config, r: State<T>, s: State<T>, s': State<T>, steps: nat, own: bool)
    requires Inv(cfg, s') && PushAfter(r, s, steps) && PushMoves(s, s', own)
    ensures PushAfter(r, s', steps + (if own then 1 else 0))
  {
    hide IsCapacity, Wrap, SlotsHold;
  }

  lemma PopAfterNext<T>(cfg: Config, r: State<T>, s: State<T>, s': State<T>, steps: nat, own: bool)
    requires Inv(cfg, s') && PopAfter(r, s, steps) && PopMoves(s, s', own)
    ensures PopAfter(r, s', steps + (if own then 1 else 0))
  {
    hide IsCapacity, Wrap, SlotsHold;
  }

  lemma NoneYet<T>(cfg: Config, s: State<T>)
    requires Inv(cfg, s)
    ensures PushAfter(s, s, 0) && PopAfter(s, s, 0)
  {
  }

  /** A push is wait-free: take any run and any continuation of it in which the
      producer begins no other operation, the consumer doing as it pleases. The own
      steps are as PushAfter says, and never more than were left. */
  lemma {:induction false} PushIsWaitFree<T>(cfg: Config, slots: seq<T>, ls: seq<Label<T>>, ms: seq<Label<T>>)
    requires IsCapacity(cfg.size) && |slots| == cfg.size
    requires Exec(cfg, slots, ls + ms).Some? && SamePush(ms)
    ensures Exec(cfg, slots, ls).Some?
    ensures PushAfter(Exec(cfg, slots, ls).value, Exec(cfg, slots, ls + ms).value, StepsOf(ms, true))
    decreases |ms|
  {
    hide IsCapacity, PushAfter, PushMoves, Exec, Inv, Enabled, Step;
    InvRun(cfg, slots, ls + ms);
    if ms == [] {
      assert ls + ms == ls;
      NoneYet(cfg, Exec(cfg, slots, ls).value);
    } else {
      var n := |ms| - 1;
      assert ls + ms == (ls + ms[..n]) + [ms[n]];
      LastStep(cfg, slots, ls + ms[..n], ms[n]);
      var r, s := Exec(cfg, slots, ls + ms[..n]).value, Exec(cfg, slots, ls + ms).value;
      PushIsWaitFree(cfg, slots, ls, ms[..n]);
      PushStep(cfg, r, ms[n]);
      PushAfterNext(cfg, Exec(cfg, slots, ls).value, r, s, StepsOf(ms[..n], true), OfProducer(ms[n]));
    }
  }

  lemma {:induction false} PopIsWaitFree<T>(cfg: Config, slots: seq<T>, ls: seq<Label<T>>, ms: seq<Label<T>>)
    requires IsCapacity(cfg.size) && |slots| == cfg.size
    requires Exec(cfg, slots, ls + ms).Some? && SamePop(ms)
    ensures Exec(cfg, slots, ls).Some?
    ensures PopAfter(Exec(cfg, slots, ls).value, Exec(cfg, slots, ls + ms).value, StepsOf(ms, false))
    decreases |ms|
  {
    hide IsCapacity, PopAfter, PopMoves, Exec, Inv, Enabled, Step;
    InvRun(cfg, slots, ls + ms);
    if ms == [] {
      assert ls + ms == ls;
      NoneYet(cfg, Exec(cfg, slots, ls).value);
    } else {
      var n := |ms| - 1;
      assert ls + ms == (ls + ms[..n]) + [ms[n]];
      LastStep(cfg, slots, ls + ms[..n], ms[n]);
      var r, s := Exec(cfg, slots, ls + ms[..n]).value, Exec(cfg, slots, ls + ms).value;
      PopIsWaitFree(cfg, slots, ls, ms[..n]);
      PopStep(cfg, r, ms[n]);
      PopAfterNext(cfg, Exec(cfg, slots, ls).value, r, s, StepsOf(ms[..n], false), !OfProducer(ms[n]));
    }
  }

  // ---------- every operation that the queue allows is possible ----------

  lemma Extend<T>(cfg: Config, slots: seq<T>, ks: seq<Label<T>>, r: State<T>, l: Label<T>)
    returns (ls: seq<Label<T>>, s: State<T>)
    requires IsCapacity(cfg.size) && |slots| == cfg.size
    requires Exec(cfg, slots, ks) == Some(r) && Enabled(cfg, r, l)
    ensures ls == ks + [l] && s == Step(cfg, r, l) && Exec(cfg, slots, ls) == Some(s) && Inv(cfg, s)
  {
    ls, s := ks + [l], Step(cfg, r, l);
    assert ls[..|ls| - 1] == ks;
    InvRun(cfg, slots, ls);
  }

  /** `ls` continues `ks` by steps of one thread only. */
  ghost predicate Alone<T>(ks: seq<Label<T>>, ls: seq<Label<T>>, producer: bool) {
    ks <= ls && forall i :: |ks| <= i < |ls| ==> OfProducer(ls[i]) == producer
  }

  lemma {:induction false} WriteRest<T>(cfg: Config, slots: seq<T>, ks: seq<Label<T>>, r: State<T>)
    returns (ls: seq<Label<T>>, s: State<T>)
    requires IsCapacity(cfg.size) && |slots| == cfg.size && Exec(cfg, slots, ks) == Some(r) && Inv(cfg, r)
    requires r.p.PWriting?
    ensures |ls| == |ks| + |r.p.batch| - r.p.done && Alone(ks, ls, true) && Exec(cfg, slots, ls) == Some(s) && Inv(cfg, s)
    ensures s.p == PWriting(r.p.batch, |r.p.batch|) && s.c == r.c && s.pushed == r.pushed && s.popped == r.popped
    decreases |r.p.batch| - r.p.done
  {
    hide Exec, IsCapacity, Wrap, And, SlotsHold;
    if r.p.done == |r.p.batch| {
      ls, s := ks, r;
    } else {
      ls, s := Extend(cfg, slots, ks, r, WriteSlot);
      ls, s := WriteRest(cfg, slots, ls, s);
    }
  }

  lemma {:induction false} ReadRest<T>(cfg: Config, slots: seq<T>, ks: seq<Label<T>>, r: State<T>)
    returns (ls: seq<Label<T>>, s: State<T>)
    requires IsCapacity(cfg.size) && |slots| == cfg.size && Exec(cfg, slots, ks) == Some(r) && Inv(cfg, r)
    requires r.c.CReading?
    ensures |ls| == |ks| + r.c.n - |r.c.got| && Alone(ks, ls, false) && Exec(cfg, slots, ls) == Some(s) && Inv(cfg, s)
    ensures s.c.CReading? && |s.c.got| == s.c.n == r.c.n && s.p == r.p && s.pushed == r.pushed && s.popped == r.popped
    decreases r.c.n - |r.c.got|
  {
    hide Exec, IsCapacity, Wrap, And, SlotsHold;
    if |r.c.got| == r.c.n {
      ls, s := ks, r;
    } else {
      ls, s := Extend(cfg, slots, ks, r, ReadSlot);
      ls, s := ReadRest(cfg, slots, ls, s);
    }
  }

  /** Nothing is refused that fits: from any state of any run, whatever the consumer
      is in the middle of, an idle producer can push any batch that fits into the
      free part of the queue, in |xs| + 4 steps of its own. */
  lemma PushPossible<T>(cfg: Config, slots: seq<T>, ks: seq<Label<T>>, xs: seq<T>) returns (ls: seq<Label<T>>)
    requires IsCapacity(cfg.size) && |slots| == cfg.size && Exec(cfg, slots, ks).Some?
    requires var r := Exec(cfg, slots, ks).value;
             r.p.PIdle? && 0 < |xs| && |r.popped| <= |r.pushed| && |Queue(r)| + |xs| <= cfg.size
    ensures Exec(cfg, slots, ls).Some? && |ls| == |ks| + |xs| + 4 && Alone(ks, ls, true)
    ensures var r, s := Exec(cfg, slots, ks).value, Exec(cfg, slots, ls).value;
            s.p.PIdle? && s.c == r.c && s.popped == r.popped && s.pushed == r.pushed + xs
  {
    hide Exec, IsCapacity, Wrap, And, SlotsHold;
    InvRun(cfg, slots, ks);
    var s := Exec(cfg, slots, ks).value;
    SampleOutMeans(cfg, s, |s.popped|);
    ls, s := Extend(cfg, slots, ks, s, SampleOut(|s.popped|));
    ls, s := Extend(cfg, slots, ls, s, BeginPush(xs));
    ls, s := WriteRest(cfg, slots, ls, s);
    ls, s := Extend(cfg, slots, ls, s, FencePush);
    ls, s := Extend(cfg, slots, ls, s, PublishIn);
  }

  /** And any number of elements that are there can be popped, the oldest ones. */
  lemma PopPossible<T>(cfg: Config, slots: seq<T>, ks: seq<Label<T>>, n: nat) returns (ls: seq<Label<T>>)
    requires IsCapacity(cfg.size) && |slots| == cfg.size && Exec(cfg, slots, ks).Some?
    requires var r := Exec(cfg, slots, ks).value;
             r.c.CIdle? && |r.popped| <= |r.pushed| && 0 < n <= |Queue(r)|
    ensures Exec(cfg, slots, ls).Some? && |ls| == |ks| + n + 4 && Alone(ks, ls, false)
    ensures var r, s := Exec(cfg, slots, ks).value, Exec(cfg, slots, ls).value;
            s.c.CIdle? && s.p == r.p && s.pushed == r.pushed && s.popped == r.popped + Queue(r)[..n]
  {
    hide Exec, IsCapacity, Wrap, And, SlotsHold;
    InvRun(cfg, slots, ks);
    var r := Exec(cfg, slots, ks).value;
    var s := r;
    SampleInMeans(cfg, s, |s.pushed|);
    ls, s := Extend(cfg, slots, ks, s, SampleIn(|s.pushed|));
    ls, s := Extend(cfg, slots, ls, s, BeginPop(n));
    ls, s := ReadRest(cfg, slots, ls, s);
    ls, s := Extend(cfg, slots, ls, s, FencePop);
    ls, s := Extend(cfg, slots, ls, s, PublishOut);
    assert s.popped == r.pushed[..|r.popped| + n] == r.popped + Queue(r)[..n];
  }
}
