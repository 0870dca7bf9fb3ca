/** How runs of the pipeline go on and end: the copy loop, the drainer's way out,
    and what the file has then. Main results speak of every run of a
    configuration and decide by the configuration alone. */
module PipelineRuns {
  import opened Wrappers
  import opened Words
  import opened LogRecords
  import opened Pipeline

  lemma Extend(cfg: Config, ks: seq<Label>, r: State, l: Label) returns (ls: seq<Label>, s: State)
    requires Exec(cfg, ks) == Some(r) && Enabled(cfg, r, l)
    ensures ls == ks + [l] && s == Step(cfg, r, l) && Exec(cfg, ls) == Some(s)
  {
    ls, s := ks + [l], Step(cfg, r, l);
    assert ls[..|ls| - 1] == ks;
  }

  lemma LastStep(cfg: Config, ks: seq<Label>, l: Label)
    requires Exec(cfg, ks + [l]).Some?
    ensures Exec(cfg, ks).Some? && Enabled(cfg, Exec(cfg, ks).value, l)
    ensures Exec(cfg, ks + [l]) == Some(Step(cfg, Exec(cfg, ks).value, l))
  {
    assert (ks + [l])[..|ks|] == ks;
  }

  // ---------- the copy loop ----------

  /** Twice the entries left, less one if the next one fits. */
  function LoopRank(cfg: Config, s: State): int
    requires s.d.DCopy?
  {
    2 * (s.d.n - s.d.done) - (if Fits(cfg, s) then 1 else 0)
  }

  lemma RankBounds(cfg: Config, s: State)
    requires s.d.DCopy? && InvRings(cfg, s)
    ensures 0 <= LoopRank(cfg, s) <= 2 * s.d.n
  {
  }

  predicate InLoop(l: Label) {
    l.Copy? || l.SwapFull?
  }

  function LoopSteps(ms: seq<Label>): nat {
    if ms == [] then 0 else LoopSteps(ms[..|ms| - 1]) + (if InLoop(ms[|ms| - 1]) then 1 else 0)
  }

  /** The run `ls + ms` is in the copy loop from `ls` on. */
  ghost predicate Stays(cfg: Config, ls: seq<Label>, ms: seq<Label>) {
    forall k :: 0 <= k <= |ms| ==> InCopy(cfg, ls + ms[..k])
  }

  predicate InCopy(cfg: Config, ls: seq<Label>) {
    Exec(cfg, ls).Some? && Exec(cfg, ls).value.d.DCopy?
  }

  lemma RankStep(cfg: Config, ks: seq<Label>, s: State, l: Label)
    requires Proper(cfg) && Exec(cfg, ks) == Some(s) && s.d.DCopy?
    requires Enabled(cfg, s, l) && Step(cfg, s, l).d.DCopy?
    ensures LoopRank(cfg, Step(cfg, s, l)) + (if InLoop(l) then 1 else 0) <= LoopRank(cfg, s)
  {
    hide Exec, InvOwned, InvFill, InvSizes, InvPasses, InvCount, InvStream;
    InvRun(cfg, ks);
    if InLoop(l) {
      CopyLoopEnds(cfg, ks, l);
    } else {
      OwnedApart(cfg, s);
      OthersKeepFit(cfg, s, l);
    }
  }

  lemma OthersKeepFit(cfg: Config, s: State, l: Label)
    requires s.d.DCopy? && NoAliases(s) && InvRings(cfg, s)
    requires Enabled(cfg, s, l) && Step(cfg, s, l).d.DCopy? && !InLoop(l)
    ensures Step(cfg, s, l).d == s.d
    ensures Fits(cfg, Step(cfg, s, l)) == Fits(cfg, s)
  {
  }

  /** As long as the drainer stays in the loop its own steps use up the rank. */
  lemma {:induction false} LoopBound(cfg: Config, ls: seq<Label>, ms: seq<Label>)
    requires Proper(cfg) && Stays(cfg, ls, ms)
    ensures InCopy(cfg, ls) && InCopy(cfg, ls + ms)
    ensures LoopRank(cfg, Exec(cfg, ls + ms).value) + LoopSteps(ms) <= LoopRank(cfg, Exec(cfg, ls).value)
    decreases |ms|
  {
    hide Exec, Proper, LoopRank;
    assert ls + ms[..0] == ls && ms[..|ms|] == ms;
    assert InCopy(cfg, ls + ms[..0]) && InCopy(cfg, ls + ms[..|ms|]);
    if ms != [] {
      var n := |ms| - 1;
      assert forall k :: 0 <= k <= n ==> ms[..n][..k] == ms[..k];
      assert Stays(cfg, ls, ms[..n]);
      LoopBound(cfg, ls, ms[..n]);
      assert ls + ms == (ls + ms[..n]) + [ms[n]];
      LastStep(cfg, ls + ms[..n], ms[n]);
      RankStep(cfg, ls + ms[..n], Exec(cfg, ls + ms[..n]).value, ms[n]);
    }
  }

  /** With buffers of at most one record nothing ever fits: every run that enters the
      loop finds it can only swap. */
  lemma {:induction false} NothingFits(cfg: Config, ls: seq<Label>)
    requires cfg.batch > 0 && cfg.bufSize <= RECORD_BYTES && Exec(cfg, ls).Some?
    ensures var s := Exec(cfg, ls).value;
            && InvRings(cfg, s)
            && !Enabled(cfg, s, Copy)
            && (s.d.DCopy? ==> s.d.done == 0 < s.d.n && Enabled(cfg, s, SwapFull) && !Enabled(cfg, s, Consume))
    decreases |ls|
  {
    if ls != [] {
      var ks := ls[..|ls| - 1];
      NothingFits(cfg, ks);
      RingsStep(cfg, Exec(cfg, ks).value, ls[|ls| - 1]);
    }
  }

  /** It never leaves it again, whatever the other threads do. */
  lemma {:induction false} CopyLoopEndless(cfg: Config, ls: seq<Label>, ms: seq<Label>)
    requires cfg.batch > 0 && cfg.bufSize <= RECORD_BYTES
    requires InCopy(cfg, ls) && Exec(cfg, ls + ms).Some?
    ensures var r, s := Exec(cfg, ls).value, Exec(cfg, ls + ms).value;
            s.d == r.d && s.j == r.j && s.consumed == r.consumed
    decreases |ms|
  {
    if ms == [] {
      assert ls + ms == ls;
    } else {
      var ks := ls + ms[..|ms| - 1];
      assert ls + ms == ks + [ms[|ms| - 1]];
      LastStep(cfg, ks, ms[|ms| - 1]);
      hide Exec, InvRings;
      CopyLoopEndless(cfg, ls, ms[..|ms| - 1]);
      NothingFits(cfg, ks);
    }
  }

  /** And it swaps as often as it is scheduled. */
  lemma {:induction false} SwapsForEver(cfg: Config, ls: seq<Label>, times: nat) returns (ms: seq<Label>)
    requires cfg.batch > 0 && cfg.bufSize <= RECORD_BYTES && InCopy(cfg, ls)
    ensures Stays(cfg, ls, ms) && LoopSteps(ms) == times
  {
    if times == 0 {
      ms := [];
      assert ls + ms == ls;
    } else {
      var ns := SwapsForEver(cfg, ls, times - 1);
      assert ns[..|ns|] == ns;
      assert InCopy(cfg, ls + ns[..|ns|]);
      NothingFits(cfg, ls + ns);
      var js, s := Extend(cfg, ls + ns, Exec(cfg, ls + ns).value, SwapFull);
      ms := ns + [SwapFull];
      assert ls + ms == js && ms[..|ns|] == ns;
      forall k | 0 <= k <= |ms|
        ensures InCopy(cfg, ls + ms[..k])
      {
        assert k <= |ns| ==> ms[..k] == ns[..k];
        assert k == |ms| ==> ms[..k] == ms;
      }
    }
  }

  /** A run that enters the loop, for any size of the buffers. */
  lemma EntersCopyLoop(cfg: Config) returns (ls: seq<Label>)
    requires cfg.producers > 0 && cfg.quota > 0 && cfg.ringSize > 0 && cfg.batch > 0 && cfg.cacheLimit > 0
    ensures InCopy(cfg, ls)
  {
    hide Exec;
    var s: State;
    ls, s := Begin(cfg);
    assert cfg.producers * cfg.quota > 0;
    ls, s := Extend(cfg, ls, s, Produce(0, AnEntry()));
    ls, s := Extend(cfg, ls, s, Head);
    ls, s := Extend(cfg, ls, s, Peek(1));
  }

  function AnEntry(): Entry {
    Entry(7, RECORD_BYTES, 0, [0, 0, 0, 0])
  }

  lemma Begin(cfg: Config) returns (ls: seq<Label>, s: State)
    requires cfg.cacheLimit > 0
    ensures Exec(cfg, ls) == Some(s)
    ensures s.d.DHead? && s.k.STest? && s.out == [] && s.sinkQ == [] && s.passes == 0 && s.j == 0 && !s.exiting
    ensures s.published == Init(cfg).published && s.consumed == Init(cfg).consumed
  {
    assert Exec(cfg, []) == Some(Init(cfg));
    ls, s := Extend(cfg, [], Init(cfg), Start);
  }

  /** The loop ends if and only if a buffer can hold more than a record: then, in
      every schedule, within two steps of the drainer per entry of the batch. */
  lemma CopyLoopEndsIff(cfg: Config, ls: seq<Label>)
    requires cfg.batch > 0 && cfg.cacheLimit > 0 && InCopy(cfg, ls)
    ensures (forall ms :: Stays(cfg, ls, ms) ==> LoopSteps(ms) <= 2 * Exec(cfg, ls).value.d.n)
            <==> cfg.bufSize > RECORD_BYTES
  {
    hide Exec, LoopRank, InvRings, InvOwned, InvFill, InvSizes, InvPasses, InvCount, InvStream, Stays, LoopSteps;
    var n := Exec(cfg, ls).value.d.n;
    if cfg.bufSize > RECORD_BYTES {
      InvRun(cfg, ls);
      RankBounds(cfg, Exec(cfg, ls).value);
      forall ms | Stays(cfg, ls, ms)
        ensures LoopSteps(ms) <= 2 * n
      {
        LoopBound(cfg, ls, ms);
        InvRun(cfg, ls + ms);
        RankBounds(cfg, Exec(cfg, ls + ms).value);
      }
    } else {
      var ms := SwapsForEver(cfg, ls, 2 * n + 1);
    }
  }

  // ---------- the way out ----------

  /** What the drainer and the producers leave alone; buffers may have been queued. */
  predicate SinkIdle(r: State, s: State) {
    s.k == r.k && s.out == r.out && r.sinkQ <= s.sinkQ
  }

  /** The rest of a batch, copied and released. */
  lemma {:induction false} CopyOut(cfg: Config, ks: seq<Label>, r: State) returns (ls: seq<Label>, s: State)
    requires Proper(cfg) && Exec(cfg, ks) == Some(r) && r.d.DCopy?
    ensures Exec(cfg, ls) == Some(s) && ks <= ls && SinkIdle(r, s)
    ensures s.d == DPass(r.d.index + 1, r.d.per + r.d.n) && s.j == r.j && s.exiting == r.exiting
    ensures s.sinkQ == r.sinkQ ==> s.passes == r.passes
    decreases r.d.n - r.d.done, if Fits(cfg, r) then 0 else 1
  {
    hide Exec, InvOwned, InvFill, InvSizes, InvPasses, InvCount, InvStream;
    InvRun(cfg, ks);
    if r.d.done == r.d.n {
      ls, s := Extend(cfg, ks, r, Consume);
    } else {
      var l := if Fits(cfg, r) then Copy else SwapFull;
      CopyLoopEnds(cfg, ks, l);
      ls, s := Extend(cfg, ks, r, l);
      ls, s := CopyOut(cfg, ls, s);
    }
  }

  /** Rings passed over because they look empty. */
  lemma {:induction false} SkipTo(cfg: Config, ks: seq<Label>, r: State, target: nat) returns (ls: seq<Label>, s: State)
    requires Proper(cfg) && Exec(cfg, ks) == Some(r) && r.d.DPass? && r.d.index <= target <= cfg.producers
    ensures Exec(cfg, ls) == Some(s) && ks <= ls
    ensures s == r.(d := DPass(target, r.d.per))
    decreases cfg.producers - r.d.index
  {
    hide Exec, InvOwned, InvFill, InvSizes, InvPasses, InvCount, InvStream;
    if r.d.index == target {
      ls, s := ks, r;
    } else {
      InvRun(cfg, ks);
      ls, s := Extend(cfg, ks, r, Peek(0));
      ls, s := SkipTo(cfg, ls, s, target);
    }
  }

  lemma FinishPass(cfg: Config, ks: seq<Label>, r: State) returns (ls: seq<Label>, s: State)
    requires Proper(cfg) && Exec(cfg, ks) == Some(r) && r.d.DPass?
    ensures Exec(cfg, ls) == Some(s) && ks <= ls && SinkIdle(r, s)
    ensures s.d.DHead? && s.j == r.j + r.d.per && s.exiting == r.exiting
    ensures s.sinkQ == r.sinkQ ==> s.passes == r.passes + (if r.d.per > 0 then 1 else 0)
  {
    hide Exec, InvOwned, InvFill, InvSizes, InvPasses, InvCount, InvStream;
    InvRun(cfg, ks);
    ls, s := SkipTo(cfg, ks, r, cfg.producers);
    ls, s := Extend(cfg, ls, s, EndPass);
    if s.d.DFlush? {
      ls, s := Extend(cfg, ls, s, Flush);
    }
  }

  /** Below the total some ring has given less than its quota. */
  lemma Unfinished(cfg: Config, s: State) returns (i: nat)
    requires InvRings(cfg, s) && InvCount(cfg, s) && s.d.DHead? && s.j < cfg.producers * cfg.quota
    ensures i < cfg.producers && s.consumed[i] < cfg.quota
  {
    if k :| 0 <= k < cfg.producers && s.consumed[k] < cfg.quota {
      i := k;
    } else {
      SumOfQuotas(s.consumed, cfg.quota);
      assert false;
    }
  }

  lemma {:induction false} SumOfQuotas(c: seq<nat>, q: nat)
    requires forall i :: 0 <= i < |c| ==> c[i] >= q
    ensures Sum(c) >= |c| * q
  {
    if c != [] {
      SumOfQuotas(c[..|c| - 1], q);
      assert |c| * q == (|c| - 1) * q + q;
    }
  }

  /** One pass that takes one entry, staged for it if none is there. */
  lemma Round(cfg: Config, ks: seq<Label>, r: State) returns (ls: seq<Label>, s: State)
    requires Proper(cfg) && cfg.ringSize > 0 && Exec(cfg, ks) == Some(r)
    requires r.d.DHead? && r.j < cfg.producers * cfg.quota
    ensures Exec(cfg, ls) == Some(s) && ks <= ls && SinkIdle(r, s)
    ensures s.d.DHead? && s.j == r.j + 1 && s.exiting == r.exiting
    ensures s.sinkQ == r.sinkQ ==> s.passes == r.passes + 1
  {
    hide Exec, InvOwned, InvFill, InvSizes, InvPasses, InvStream, Sum;
    InvRun(cfg, ks);
    var i := Unfinished(cfg, r);
    ls, s := ks, r;
    if |r.published[i]| == r.consumed[i] {
      ls, s := Extend(cfg, ls, s, Produce(i, AnEntry()));
    }
    ls, s := Extend(cfg, ls, s, Head);
    ls, s := SkipTo(cfg, ls, s, i);
    ls, s := Extend(cfg, ls, s, Peek(1));
    ls, s := CopyOut(cfg, ls, s);
    ls, s := FinishPass(cfg, ls, s);
  }

  /** From the head of its loop the drainer can always get everything there is to come. */
  lemma {:induction false} DrainAll(cfg: Config, ks: seq<Label>, r: State) returns (ls: seq<Label>, s: State)
    requires Proper(cfg) && cfg.ringSize > 0 && Exec(cfg, ks) == Some(r) && r.d.DHead?
    ensures Exec(cfg, ls) == Some(s) && ks <= ls && SinkIdle(r, s)
    ensures s.d.DHead? && s.j == cfg.producers * cfg.quota && s.exiting == r.exiting
    ensures s.sinkQ == r.sinkQ ==> s.passes - r.passes == s.j - r.j
    decreases cfg.producers * cfg.quota - r.j
  {
    hide Exec;
    if r.j < cfg.producers * cfg.quota {
      ls, s := Round(cfg, ks, r);
      ls, s := DrainAll(cfg, ls, s);
    } else {
      PassProgress(cfg, ks);
      ls, s := ks, r;
    }
  }

  /** From wherever it is, the drainer can leave. */
  lemma DrainerLeaves(cfg: Config, ks: seq<Label>, r: State) returns (ls: seq<Label>, s: State)
    requires Proper(cfg) && cfg.ringSize > 0 && Exec(cfg, ks) == Some(r)
    ensures Exec(cfg, ls) == Some(s) && ks <= ls && SinkIdle(r, s)
    ensures s.d.DExited? && s.exiting
  {
    hide Exec, InvOwned, InvFill, InvPasses, InvStream, InvCount;
    InvRun(cfg, ks);
    ls, s := ks, r;
    if s.d.DStart? {
      ls, s := Extend(cfg, ls, s, Start);
    } else if s.d.DCopy? {
      ls, s := CopyOut(cfg, ls, s);
    } else if s.d.DFlush? {
      ls, s := Extend(cfg, ls, s, Flush);
    }
    if s.d.DPass? {
      ls, s := FinishPass(cfg, ls, s);
    }
    ls, s := ExitFromHead(cfg, ls, s);
  }

  lemma ExitFromHead(cfg: Config, ks: seq<Label>, r: State) returns (ls: seq<Label>, s: State)
    requires Proper(cfg) && cfg.ringSize > 0 && Exec(cfg, ks) == Some(r)
    requires r.d.DHead? || r.d.DDone? || r.d.DExited?
    ensures Exec(cfg, ls) == Some(s) && ks <= ls && SinkIdle(r, s)
    ensures s.d.DExited? && s.exiting
  {
    hide Exec;
    ls, s := ks, r;
    if s.d.DHead? {
      ls, s := DrainAll(cfg, ls, s);
      ls, s := Extend(cfg, ls, s, Head);
    }
    if s.d.DDone? {
      ls, s := Extend(cfg, ls, s, SetExit);
    }
    ExitingWhenGone(cfg, ls);
  }

  lemma {:induction false} ExitingWhenGone(cfg: Config, ls: seq<Label>)
    requires Exec(cfg, ls).Some?
    ensures Exec(cfg, ls).value.d.DExited? ==> Exec(cfg, ls).value.exiting
    decreases |ls|
  {
    if ls != [] {
      ExitingWhenGone(cfg, ls[..|ls| - 1]);
    }
  }

  /** The sink's turn, brought to its end. */
  lemma {:induction false} SinkHome(cfg: Config, ks: seq<Label>, r: State) returns (ls: seq<Label>, s: State)
    requires Proper(cfg) && Exec(cfg, ks) == Some(r) && !r.k.SExit?
    ensures Exec(cfg, ls) == Some(s) && ks <= ls
    ensures s.k.STest? && r.out <= s.out
    decreases SinkStage(r.k)
  {
    hide Exec, InvRings, InvOwned, InvFill, InvPasses, InvStream, InvCount;
    InvRun(cfg, ks);
    if r.k.STest? {
      ls, s := ks, r;
    } else {
      ls, s := Extend(cfg, ks, r, SinkLabel(r.k));
      ls, s := SinkHome(cfg, ls, s);
    }
  }

  function SinkStage(k: Sink): nat {
    match k
    case SCheck => 6
    case STake => 5
    case SWrite(_) => 4
    case SReset(_) => 3
    case SSize(_) => 2
    case SStore(_) => 1
    case SDelete(_) => 1
    case _ => 0
  }

  function SinkLabel(k: Sink): Label {
    match k
    case SCheck => Check
    case STake => Take
    case SWrite(_) => Write
    case SReset(_) => Reset
    case SSize(_) => Size
    case SStore(_) => Store
    case SDelete(_) => Delete
    case _ => Test
  }

  /** How many steps of its own the sink is away from its test with an empty queue:
      seven for each buffer, less what is done of the turn under way. */
  function SinkWork(s: State): int {
    7 * |s.sinkQ| +
    match s.k
    case SCheck => if s.sinkQ == [] then 1 else -1
    case STake => -2
    case SWrite(_) => 4
    case SReset(_) => 3
    case SSize(_) => 2
    case SStore(_) => 1
    case SDelete(_) => 1
    case _ => 0
  }

  predicate OfSink(l: Label) {
    l.Test? || l.Check? || l.Take? || l.Write? || l.Reset? || l.Size? || l.Store? || l.Delete?
  }

  /** The buffers that are still to come before the test of the cache's size, or have
      just passed it. */
  function Returning(s: State): nat {
    |s.sinkQ| + (if s.k.SWrite? || s.k.SReset? || s.k.SSize? || s.k.SStore? then 1 else 0)
  }

  /** What a step of the sink leaves alone: everything of the drainer's. */
  predicate DrainerIdle(r: State, s: State) {
    && s.published == r.published && s.consumed == r.consumed
    && s.d == r.d && s.cur == r.cur && s.j == r.j && s.passes == r.passes
    && s.allocNum == r.allocNum && s.nextId == r.nextId && s.exiting == r.exiting
    && Flat(s.heap, Current(s.d, s.cur)) == Flat(r.heap, Current(r.d, r.cur))
  }

  lemma SinkStep(cfg: Config, s: State)
    requires InvSizes(cfg, s) && NoAliases(s) && !s.exiting && !s.k.SExit? && (s.sinkQ != [] || !s.k.STest?)
    ensures Enabled(cfg, s, SinkLabel(s.k))
    ensures var s' := Step(cfg, s, SinkLabel(s.k));
            && SinkWork(s') == SinkWork(s) - 1 && SinkWork(s) > 0
            && DrainerIdle(s, s') && !s'.k.SExit?
            && Min(cfg.cacheLimit, |s'.cache| + Returning(s')) == Min(cfg.cacheLimit, |s.cache| + Returning(s))
            && s.cache <= s'.cache
  {
    hide Flat;
    var s' := Step(cfg, s, SinkLabel(s.k));
    assert forall b <- Current(s.d, s.cur) :: Get(s.heap, b) == Get(s'.heap, b);
    FlatSame(s.heap, s'.heap, Current(s.d, s.cur));
  }

  /** The sink serves its queue. From any state of any run in which it is not told to
      leave, exactly that many steps of the sink alone bring it back to its test with
      nothing queued. It has then written what it held and what was queued, in order,
      and recycled as many buffers as the cache had room for. */
  lemma SinkServes(cfg: Config, ks: seq<Label>) returns (ms: seq<Label>)
    requires Proper(cfg) && Exec(cfg, ks).Some?
    requires !Exec(cfg, ks).value.exiting && !Exec(cfg, ks).value.k.SExit?
    ensures |ms| == SinkWork(Exec(cfg, ks).value) && (forall i :: 0 <= i < |ms| ==> OfSink(ms[i]))
    ensures Exec(cfg, ks + ms).Some?
    ensures var r, s := Exec(cfg, ks).value, Exec(cfg, ks + ms).value;
            && s.k.STest? && s.sinkQ == []
            && s.out == r.out + (if r.k.SWrite? then Get(r.heap, r.k.b) else []) + Flat(r.heap, r.sinkQ)
            && r.cache <= s.cache && |s.cache| == Min(cfg.cacheLimit, |r.cache| + Returning(r))
            && DrainerIdle(r, s)
  {
    hide Exec, Flat, Stream, DrainerIdle, SinkWork;
    var s: State;
    ms, s := Serve(cfg, ks, Exec(cfg, ks).value);
    Served(Exec(cfg, ks).value, s);
  }

  lemma {:induction false} Serve(cfg: Config, ks: seq<Label>, r: State) returns (ms: seq<Label>, s: State)
    requires Proper(cfg) && Exec(cfg, ks) == Some(r) && !r.exiting && !r.k.SExit?
    ensures |ms| == SinkWork(r) && (forall i :: 0 <= i < |ms| ==> OfSink(ms[i]))
    ensures Exec(cfg, ks + ms) == Some(s)
    ensures s.k.STest? && s.sinkQ == [] && DrainerIdle(r, s) && Stream(s) == Stream(r)
    ensures r.cache <= s.cache && |s.cache| == Min(cfg.cacheLimit, |r.cache| + Returning(r))
    decreases SinkWork(r)
  {
    hide Exec, InvRings, InvOwned, InvFill, InvPasses, InvStream, InvCount, Stream, Flat, NoAliases;
    InvRun(cfg, ks);
    OwnedApart(cfg, r);
    if r.sinkQ == [] && r.k.STest? {
      ms, s := [], r;
      assert ks + ms == ks;
    } else {
      SinkStep(cfg, r);
      StreamStep(cfg, r, SinkLabel(r.k));
      var ls, t := Extend(cfg, ks, r, SinkLabel(r.k));
      hide Step, Enabled;
      ms, s := Serve(cfg, ls, t);
      assert ks + ([SinkLabel(r.k)] + ms) == ls + ms;
      ms := [SinkLabel(r.k)] + ms;
    }
  }

  lemma Served(r: State, s: State)
    requires s.k.STest? && s.sinkQ == [] && DrainerIdle(r, s) && Stream(s) == Stream(r)
    ensures s.out == r.out + (if r.k.SWrite? then Get(r.heap, r.k.b) else []) + Flat(r.heap, r.sinkQ)
  {
    FlatNone(s.heap);
    hide Flat;
    var written := r.out + (if r.k.SWrite? then Get(r.heap, r.k.b) else []) + Flat(r.heap, r.sinkQ);
    var rest := Flat(r.heap, Current(r.d, r.cur));
    assert s.out + rest == written + rest;
    assert s.out == (s.out + rest)[..|s.out|] && written == (written + rest)[..|written|];
  }

  /** No dead end: every run of any configuration can be continued until both
      background threads are gone, without another write if the sink is at its test. */
  lemma CanFinish(cfg: Config, ks: seq<Label>) returns (ls: seq<Label>)
    requires Proper(cfg) && cfg.ringSize > 0 && Exec(cfg, ks).Some?
    ensures ks <= ls && Finished(cfg, ls)
    ensures Exec(cfg, ks).value.k.STest? ==> Exec(cfg, ls).value.out == Exec(cfg, ks).value.out
  {
    hide Exec;
    var s := Exec(cfg, ks).value;
    ls := ks;
    if !s.k.SExit? {
      if !s.k.STest? {
        ls, s := SinkHome(cfg, ls, s);
      }
      ls, s := DrainerLeaves(cfg, ls, s);
      ls, s := Extend(cfg, ls, s, Test);
    }
  }

  /** Both background threads are gone. */
  predicate Finished(cfg: Config, ls: seq<Label>) {
    Exec(cfg, ls).Some? && Exec(cfg, ls).value.k.SExit?
  }

  // ---------- handing a buffer over ----------

  lemma {:induction false} CoversCount(p: multiset<nat>, live: set<nat>)
    requires Covers(p, live)
    ensures |p| == |live|
    decreases |live|
  {
    if live == {} {
      assert p == multiset{};
    } else {
      var b :| b in live;
      assert p[b] == 1;
      CoversLess(p, p - multiset{b}, live, b);
      CoversCount(p - multiset{b}, live - {b});
    }
  }

  /** In every run, handing a buffer over queues it last and takes the cached buffer
      that was stored last, empty; only if none is cached, that is if every live
      buffer is current, queued or with the sink, a new one is allocated. */
  lemma HandsOver(cfg: Config, ks: seq<Label>, l: Label)
    requires Proper(cfg) && Exec(cfg, ks).Some? && (l.SwapFull? || l.Flush?)
    requires Enabled(cfg, Exec(cfg, ks).value, l)
    ensures var r := Exec(cfg, ks).value; var s := Step(cfg, r, l);
            && s.sinkQ == r.sinkQ + [r.cur] && s.passes == 0 && Get(s.heap, s.cur) == []
            && (if r.cache != [] then s.cache + [s.cur] == r.cache && s.heap == r.heap && s.allocNum == r.allocNum
                else
                  && s.cache == [] && s.cur !in r.heap && s.heap == r.heap[s.cur := []] && s.allocNum == r.allocNum + 1
                  && |r.heap| == 1 + |r.sinkQ| + |Held(r.k)|)
  {
    hide Exec, InvRings, InvPasses, InvStream, InvCount, Held;
    InvRun(cfg, ks);
    var r := Exec(cfg, ks).value;
    OwnedApart(cfg, r);
    assert |r.heap| == |r.heap.Keys|;
    CoversCount(Places(r), r.heap.Keys);
    hide Covers;
  }

  // ---------- what reaches the file ----------

  /** The tail of the log is lost, decided by the configuration: the file is complete
      at the end of every run if and only if there is nothing to log at all. */
  lemma TailLost(cfg: Config)
    requires Proper(cfg) && cfg.ringSize > 0
    ensures (forall ls :: Finished(cfg, ls) ==> Exec(cfg, ls).value.out == Stream(Exec(cfg, ls).value))
            <==> cfg.producers * cfg.quota == 0
  {
    hide Exec, Stream;
    if cfg.producers * cfg.quota == 0 {
      forall ls | Finished(cfg, ls)
        ensures Exec(cfg, ls).value.out == Stream(Exec(cfg, ls).value)
      {
        FileComplete(cfg, ls);
        NothingToWrite(Exec(cfg, ls).value);
      }
    } else {
      assert Exec(cfg, []) == Some(Init(cfg)) by { ExecNone(cfg); }
      var ls := CanFinish(cfg, []);
      FileComplete(cfg, ls);
    }
  }

  lemma ExecNone(cfg: Config)
    ensures Exec(cfg, []) == Some(Init(cfg))
  {
  }

  lemma NothingToWrite(s: State)
    requires |Stream(s)| == 0
    ensures s.out == Stream(s)
  {
    hide Flat;
    assert |s.out| <= |Stream(s)|;
  }

  /** The smallest loss: one entry, logged, drained, and never written. */
  lemma OneEntryLost(e: Entry) returns (ls: seq<Label>, s: State)
    requires e.fmtId == 7 && e.entrySize == RECORD_BYTES
    ensures ls == [Produce(0, e), Start, Head, Peek(1), Copy, Consume, EndPass, Head, SetExit, Test]
    ensures Exec(Config(1, 1, 1, 1, 64, 1), ls) == Some(s)
    ensures s.k.SExit? && s.j == 1 && s.published == [[e]] && s.out == []
  {
    hide Exec;
    var cfg := Config(1, 1, 1, 1, 64, 1);
    ls, s := OneEntryPeeked(cfg, e);
    ls, s := Extend(cfg, ls, s, Copy);
    assert s.d == DCopy(0, 0, 1, 1);
    ls, s := Extend(cfg, ls, s, Consume);
    ls, s := Extend(cfg, ls, s, EndPass);
    ls, s := Extend(cfg, ls, s, Head);
    ls, s := Extend(cfg, ls, s, SetExit);
    ls, s := Extend(cfg, ls, s, Test);
  }

  lemma InitOne(cfg: Config)
    requires cfg == Config(1, 1, 1, 1, 64, 1)
    ensures Init(cfg) == State([[]], [0], map[0 := []], 1, [], [0], 0, 0, DStart, 0, 0, 0, STest, [], false)
  {
    assert Init(cfg).published == [[]] && Init(cfg).consumed == [0];
    assert FirstIds(0) == [];
    assert EmptyBuffers(0) == map[];
  }

  lemma OneEntryPeeked(cfg: Config, e: Entry) returns (ls: seq<Label>, s: State)
    requires cfg == Config(1, 1, 1, 1, 64, 1) && e.fmtId == 7 && e.entrySize == RECORD_BYTES
    ensures ls == [Produce(0, e), Start, Head, Peek(1)] && Exec(cfg, ls) == Some(s)
    ensures s.d == DCopy(0, 0, 1, 0) && s.k.STest? && !s.exiting && s.j == 0 && s.passes == 0
    ensures s.published == [[e]] && s.consumed == [0] && s.out == [] && Get(s.heap, s.cur) == []
  {
    hide Exec;
    ExecNone(cfg);
    InitOne(cfg);
    hide Init, Fits, Next;
    ls, s := Extend(cfg, [], Init(cfg), Produce(0, e));
    assert s.published[0] == [] + [e] == [e];
    assert s.published == [[e]];
    ls, s := Extend(cfg, ls, s, Start);
    ls, s := Extend(cfg, ls, s, Head);
    ls, s := Extend(cfg, ls, s, Peek(1));
  }

  /** What is drained is at most the total, and one less while an entry is left. */
  lemma DrainedBound(cfg: Config, s: State)
    requires InvRings(cfg, s)
    ensures Drained(s) <= cfg.producers * cfg.quota
    ensures Next(s).Some? ==> Drained(s) < cfg.producers * cfg.quota
  {
    if s.d.DCopy? {
      var c := s.consumed[s.d.index := s.consumed[s.d.index] + s.d.n];
      SumUpdate(s.consumed, s.d.index, s.d.n);
      SumFull(c, cfg.quota);
    } else {
      SumFull(s.consumed, cfg.quota);
    }
  }

  /** A small log never leaves the current buffer. */
  lemma NoSwap(cfg: Config, s: State)
    requires Inv(cfg, s) && RECORD_BYTES * cfg.producers * cfg.quota < cfg.bufSize
    requires cfg.producers * cfg.quota <= FLUSH_AFTER
    ensures !Enabled(cfg, s, SwapFull) && !Enabled(cfg, s, Flush)
  {
    hide InvOwned, InvSizes, InvCount, Flat, Sum;
    DrainedBound(cfg, s);
    if !s.d.DStart? {
      CurrentInStream(s);
    }
    assert RECORD_BYTES * cfg.producers * cfg.quota == RECORD_BYTES * (cfg.producers * cfg.quota);
  }

  lemma CurrentInStream(s: State)
    requires !s.d.DStart?
    ensures |Get(s.heap, s.cur)| <= |Stream(s)|
  {
    FlatOne(s.heap, s.cur);
  }

  lemma {:induction false} NothingWritten(cfg: Config, ls: seq<Label>)
    requires Proper(cfg) && Exec(cfg, ls).Some?
    requires RECORD_BYTES * cfg.producers * cfg.quota < cfg.bufSize
    requires cfg.producers * cfg.quota <= FLUSH_AFTER
    ensures var s := Exec(cfg, ls).value; s.out == [] && s.sinkQ == [] && Held(s.k) == [] && !s.k.STake?
    decreases |ls|
  {
    if ls != [] {
      var ks := ls[..|ls| - 1];
      NothingWritten(cfg, ks);
      InvRun(cfg, ks);
      NoSwap(cfg, Exec(cfg, ks).value);
      hide Inv;
      StillNothing(cfg, Exec(cfg, ks).value, ls[|ls| - 1]);
    }
  }

  lemma StillNothing(cfg: Config, s: State, l: Label)
    requires Enabled(cfg, s, l) && !l.SwapFull? && !l.Flush?
    requires s.out == [] && s.sinkQ == [] && Held(s.k) == [] && !s.k.STake?
    ensures var s' := Step(cfg, s, l); s'.out == [] && s'.sinkQ == [] && Held(s'.k) == [] && !s'.k.STake?
  {
  }

  lemma FlatNone(heap: map<nat, seq<Rec>>)
    ensures Flat(heap, []) == []
  {
  }

  /** With everything drained and nothing queued, the current buffer holds it all. */
  lemma AllInCurrent(cfg: Config, s: State)
    requires Inv(cfg, s) && s.d.DHead? && s.j == cfg.producers * cfg.quota
    requires s.out == [] && s.sinkQ == [] && s.k.STest?
    ensures Length(Get(s.heap, s.cur)) == RECORD_BYTES * cfg.producers * cfg.quota < cfg.bufSize
    ensures s.passes <= FLUSH_AFTER
  {
    hide InvRings, InvSizes, InvOwned, Sum, Flat;
    FlatOne(s.heap, s.cur);
    FlatNone(s.heap);
    assert Stream(s) == Get(s.heap, s.cur);
    hide Stream;
    assert |Get(s.heap, s.cur)| == Drained(s) == s.j;
    assert RECORD_BYTES * cfg.producers * cfg.quota == RECORD_BYTES * (cfg.producers * cfg.quota);
  }

  /** Otherwise some run writes. */
  lemma SomethingWritten(cfg: Config) returns (ls: seq<Label>)
    requires Proper(cfg) && cfg.ringSize > 0
    requires RECORD_BYTES * cfg.producers * cfg.quota >= cfg.bufSize || cfg.producers * cfg.quota > FLUSH_AFTER
    ensures Exec(cfg, ls).Some? && Exec(cfg, ls).value.out != []
  {
    hide Exec, InvRings, InvOwned, InvSizes, InvPasses, InvStream, InvCount;
    var s: State;
    ls, s := Begin(cfg);
    ls, s := DrainAll(cfg, ls, s);
    InvRun(cfg, ls);
    if s.sinkQ == [] {
      AllInCurrent(cfg, s);
      assert false;
    }
    var queued := s.sinkQ[0];
    assert Get(s.heap, queued) != [];
    ls, s := Extend(cfg, ls, s, Test);
    ls, s := Extend(cfg, ls, s, Check);
    ls, s := Extend(cfg, ls, s, Take);
    ls, s := Extend(cfg, ls, s, Write);
  }

  /** When a log reaches the file at all: some run writes something if and only if
      the whole log fills a buffer or needs more passes than one buffer may see. */
  lemma WritesIff(cfg: Config)
    requires Proper(cfg) && cfg.ringSize > 0
    ensures (exists ls :: Exec(cfg, ls).Some? && Exec(cfg, ls).value.out != [])
            <==> 16 * cfg.producers * cfg.quota >= cfg.bufSize || cfg.producers * cfg.quota > 2000
  {
    if RECORD_BYTES * cfg.producers * cfg.quota >= cfg.bufSize || cfg.producers * cfg.quota > FLUSH_AFTER {
      var ls := SomethingWritten(cfg);
    } else if ls :| Exec(cfg, ls).Some? && Exec(cfg, ls).value.out != [] {
      NothingWritten(cfg, ls);
    }
  }
}
