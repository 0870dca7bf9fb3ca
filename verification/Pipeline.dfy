/** The whole log pipeline as interleaved steps: producers with their rings, the
    drainer, the sink. Each ring is a bounded queue here; PipelineRings puts the
    ring with its slots and counters in its place. Each section under the mutex is one step; the two sizes that the sink reads
    without the mutex are steps of their own. Buffers are addressed by identifier,
    so that aliasing is a property to prove. */
module Pipeline {
  import opened Wrappers
  import opened LogRecords

  const FLUSH_AFTER: nat := 2000

  datatype Config = Config(
    producers: nat, quota: nat, ringSize: nat, batch: nat, bufSize: nat, cacheLimit: nat)

  /** A record, and the producer it came from. */
  datatype Rec = Rec(src: nat, entry: Entry)

  /** Where the drainer stands: in a pass, `per` entries have been drained so far. */
  datatype Drainer =
    | DStart
    | DHead
    | DPass(index: nat, per: nat)
    | DCopy(index: nat, per: nat, n: nat, done: nat)
    | DFlush
    | DDone
    | DExited

  datatype Sink =
    | STest
    | SCheck
    | STake
    | SWrite(b: nat)
    | SReset(b: nat)
    | SSize(b: nat)
    | SStore(b: nat)
    | SDelete(b: nat)
    | SExit

  /** `heap` holds the live buffers; `published` and `consumed` describe the rings;
      `deleted` counts the buffers the sink has freed. */
  datatype State = State(
    published: seq<seq<Entry>>, consumed: seq<nat>,
    heap: map<nat, seq<Rec>>, nextId: nat,
    sinkQ: seq<nat>, cache: seq<nat>, allocNum: nat, deleted: nat,
    d: Drainer, cur: nat, j: nat, passes: nat,
    k: Sink, out: seq<Rec>, exiting: bool)

  datatype Label =
    | Produce(i: nat, e: Entry)
    | Start | Head | Peek(seen: nat) | Copy | SwapFull | Consume | EndPass | Flush | SetExit
    | Test | Check | Take | Write | Reset | Size | Store | Delete

  function Get(heap: map<nat, seq<Rec>>, b: nat): seq<Rec> {
    if b in heap then heap[b] else []
  }

  function Length(rs: seq<Rec>): nat {
    RECORD_BYTES * |rs|
  }

  /** The entry the drainer is about to copy. */
  function Next(s: State): Option<Entry> {
    if s.d.DCopy? && s.d.done < s.d.n && s.d.index < |s.published| && s.d.index < |s.consumed|
       && s.consumed[s.d.index] + s.d.done < |s.published[s.d.index]|
    then Some(s.published[s.d.index][s.consumed[s.d.index] + s.d.done])
    else None
  }

  /** `avail() > entrySize` */
  predicate Fits(cfg: Config, s: State) {
    Next(s).Some? && cfg.bufSize - Length(Get(s.heap, s.cur)) > Next(s).value.entrySize
  }

  predicate Enabled(cfg: Config, s: State, l: Label) {
    match l
    case Produce(i, e) =>
      && i < |s.published| && i < |s.consumed| && |s.published[i]| < cfg.quota
      && |s.published[i]| < s.consumed[i] + cfg.ringSize
      && e.fmtId == 7 && e.entrySize == RECORD_BYTES
    case Start => s.d.DStart? && s.cache != []
    case Head => s.d.DHead?
    case Peek(seen) =>
      && s.d.DPass? && s.d.index < cfg.producers && s.d.index < |s.published| && s.d.index < |s.consumed|
      && s.consumed[s.d.index] + seen <= |s.published[s.d.index]|
    case Copy => Fits(cfg, s)
    case SwapFull => Next(s).Some? && !Fits(cfg, s)
    case Consume => s.d.DCopy? && s.d.done == s.d.n && s.d.index < |s.consumed|
    case EndPass => s.d.DPass? && s.d.index >= cfg.producers
    case Flush => s.d.DFlush?
    case SetExit => s.d.DDone?
    case Test => s.k.STest?
    case Check => s.k.SCheck?
    case Take => s.k.STake? && s.sinkQ != []
    case Write => s.k.SWrite?
    case Reset => s.k.SReset?
    case Size => s.k.SSize?
    case Store => s.k.SStore?
    case Delete => s.k.SDelete?
  }

  /** Queues the current buffer, takes the last cached one or allocates. */
  function Swap(s: State): State {
    if s.cache != [] then
      s.(sinkQ := s.sinkQ + [s.cur], cur := s.cache[|s.cache| - 1], cache := s.cache[..|s.cache| - 1], passes := 0)
    else
      s.(sinkQ := s.sinkQ + [s.cur], cur := s.nextId, heap := s.heap[s.nextId := []], nextId := s.nextId + 1,
         allocNum := s.allocNum + 1, passes := 0)
  }

  function Step(cfg: Config, s: State, l: Label): State
    requires Enabled(cfg, s, l)
  {
    match l
    case Produce(i, e) => s.(published := s.published[i := s.published[i] + [e]])
    case Start => s.(cur := s.cache[|s.cache| - 1], cache := s.cache[..|s.cache| - 1], d := DHead)
    case Head => s.(d := if s.j < cfg.producers * cfg.quota then DPass(0, 0) else DDone)
    case Peek(seen) =>
      var n := if cfg.batch < seen then cfg.batch else seen;
      s.(d := if n == 0 then DPass(s.d.index + 1, s.d.per) else DCopy(s.d.index, s.d.per, n, 0))
    case Copy =>
      s.(heap := s.heap[s.cur := Get(s.heap, s.cur) + [Rec(s.d.index, Next(s).value)]], d := s.d.(done := s.d.done + 1))
    case SwapFull => Swap(s)
    case Consume =>
      s.(consumed := s.consumed[s.d.index := s.consumed[s.d.index] + s.d.n],
         d := DPass(s.d.index + 1, s.d.per + s.d.n))
    case EndPass =>
      if s.d.per == 0 then s.(d := DHead)
      else
        s.(j := s.j + s.d.per, passes := s.passes + 1, d := if s.passes + 1 > FLUSH_AFTER then DFlush else DHead)
    case Flush => Swap(s).(d := DHead)
    case SetExit => s.(exiting := true, d := DExited)
    case Test => s.(k := if s.exiting then SExit else SCheck)
    case Check => s.(k := if |s.sinkQ| > 0 then STake else STest)
    case Take => s.(k := SWrite(s.sinkQ[0]), sinkQ := s.sinkQ[1..])
    case Write => s.(out := s.out + Get(s.heap, s.k.b), k := SReset(s.k.b))
    case Reset => s.(heap := s.heap[s.k.b := []], k := SSize(s.k.b))
    case Size => s.(k := if |s.cache| >= cfg.cacheLimit then SDelete(s.k.b) else SStore(s.k.b))
    case Store => s.(cache := s.cache + [s.k.b], k := STest)
    case Delete => s.(heap := s.heap - {s.k.b}, deleted := s.deleted + 1, k := STest)
  }

  function EmptyBuffers(n: nat): (h: map<nat, seq<Rec>>)
    ensures |h| == n
    ensures forall b: nat :: b in h <==> b < n
    ensures forall b: nat :: b in h ==> h[b] == []
  {
    if n == 0 then map[] else EmptyBuffers(n - 1)[n - 1 := []]
  }

  function FirstIds(n: nat): (ids: seq<nat>)
    ensures |ids| == n
  {
    if n == 0 then [] else FirstIds(n - 1) + [n - 1]
  }

  /** `main`: cacheLimit empty buffers, empty rings. */
  function Init(cfg: Config): State {
    State(seq(cfg.producers, i => []), seq(cfg.producers, i => 0),
          EmptyBuffers(cfg.cacheLimit), cfg.cacheLimit,
          [], FirstIds(cfg.cacheLimit), 0, 0,
          DStart, 0, 0, 0, STest, [], false)
  }

  function Exec(cfg: Config, ls: seq<Label>): Option<State>
    decreases |ls|
  {
    if ls == [] then Some(Init(cfg))
    else
      match Exec(cfg, ls[..|ls| - 1])
      case Some(s) => if Enabled(cfg, s, ls[|ls| - 1]) then Some(Step(cfg, s, ls[|ls| - 1])) else None
      case None => None
  }

  // ---------- what has been drained ----------

  function Flat(heap: map<nat, seq<Rec>>, ids: seq<nat>): seq<Rec> {
    if ids == [] then [] else Get(heap, ids[0]) + Flat(heap, ids[1..])
  }

  /** The identifiers the drainer and the sink hold. */
  function Current(d: Drainer, cur: nat): seq<nat> {
    if d.DStart? then [] else [cur]
  }

  function Held(k: Sink): seq<nat> {
    match k
    case SWrite(b) => [b]
    case SReset(b) => [b]
    case SSize(b) => [b]
    case SStore(b) => [b]
    case SDelete(b) => [b]
    case _ => []
  }

  /** Everything drained, oldest first: the file, a buffer held but not written yet,
      the sink queue, the current buffer. */
  function Stream(s: State): seq<Rec> {
    s.out + (if s.k.SWrite? then Get(s.heap, s.k.b) else []) + Flat(s.heap, s.sinkQ) + Flat(s.heap, Current(s.d, s.cur))
  }

  /** One producer's share of a stream. */
  function From(rs: seq<Rec>, i: nat): seq<Entry> {
    if rs == [] then []
    else if rs[|rs| - 1].src == i then From(rs[..|rs| - 1], i) + [rs[|rs| - 1].entry]
    else From(rs[..|rs| - 1], i)
  }

  /** How many entries of a ring are in the stream, counting a batch part-way. */
  function Taken(s: State, i: nat): nat
    requires i < |s.consumed|
  {
    s.consumed[i] + (if s.d.DCopy? && s.d.index == i then s.d.done else 0)
  }

  lemma {:induction false} FlatPush(heap: map<nat, seq<Rec>>, ids: seq<nat>, b: nat)
    ensures Flat(heap, ids + [b]) == Flat(heap, ids) + Get(heap, b)
  {
    if ids == [] {
      assert ids + [b] == [b];
    } else {
      FlatPush(heap, ids[1..], b);
      assert (ids + [b])[0] == ids[0] && (ids + [b])[1..] == ids[1..] + [b];
    }
  }

  lemma {:induction false} FlatSame(h: map<nat, seq<Rec>>, h': map<nat, seq<Rec>>, ids: seq<nat>)
    requires forall b <- ids :: Get(h, b) == Get(h', b)
    ensures Flat(h, ids) == Flat(h', ids)
  {
    if ids != [] {
      FlatSame(h, h', ids[1..]);
    }
  }

  // ---------- invariants ----------

  /** The side conditions under which the loops make progress. */
  predicate Proper(cfg: Config) {
    cfg.bufSize > RECORD_BYTES && cfg.cacheLimit > 0 && cfg.batch > 0
  }

  predicate InvRings(cfg: Config, s: State) {
    && |s.published| == |s.consumed| == cfg.producers
    && (forall i :: 0 <= i < cfg.producers ==>
          s.consumed[i] <= |s.published[i]| <= cfg.quota && |s.published[i]| <= s.consumed[i] + cfg.ringSize)
    && (forall i, q :: 0 <= i < cfg.producers && 0 <= q < |s.published[i]| ==> s.published[i][q].entrySize == RECORD_BYTES)
    && (s.d.DPass? ==> s.d.index <= cfg.producers)
    && (s.d.DCopy? ==>
          && s.d.index < cfg.producers
          && s.d.done <= s.d.n && 0 < s.d.n <= cfg.batch
          && s.consumed[s.d.index] + s.d.n <= |s.published[s.d.index]|)
  }

  /** Each live buffer is in exactly one place: with the drainer, in the sink queue,
      with the sink, or in the cache. */
  ghost predicate InvOwned(cfg: Config, s: State) {
    && Covers(Places(s), s.heap.Keys)
    && (forall b :: b in s.heap ==> b < s.nextId)
    && |s.heap| + s.deleted == cfg.cacheLimit + s.allocNum
  }

  ghost predicate Covers(places: multiset<nat>, live: set<nat>) {
    forall b: nat :: places[b] == if b in live then 1 else 0
  }

  function Places(s: State): multiset<nat> {
    multiset(Current(s.d, s.cur)) + multiset(s.sinkQ) + multiset(Held(s.k)) + multiset(s.cache)
  }

  /** What the buffers hold, by place; the cursor stays before the end. */
  predicate InvFill(cfg: Config, s: State) {
    && (forall b :: b in s.heap ==> Length(s.heap[b]) < cfg.bufSize)
    && (forall b <- s.cache :: Get(s.heap, b) == [])
    && (forall b <- s.sinkQ :: Get(s.heap, b) != [])
    && (s.k.SSize? || s.k.SStore? || s.k.SDelete? ==> Get(s.heap, s.k.b) == [])
  }

  /** The sizes read outside the mutex are still good when they are used. */
  predicate InvSizes(cfg: Config, s: State) {
    && |s.cache| <= cfg.cacheLimit
    && (s.k.SStore? ==> |s.cache| < cfg.cacheLimit)
    && (s.k.STake? ==> s.sinkQ != [])
    && (s.d.DStart? ==> s.sinkQ == [] && Held(s.k) == [] && |s.cache| == cfg.cacheLimit)
    && (s.exiting ==> s.d.DExited?)
    && (s.k.SExit? ==> s.exiting)
  }

  /** The current buffer holds a record for each non-empty pass since it was taken. */
  predicate InvPasses(s: State) {
    var n := |Get(s.heap, s.cur)|;
    match s.d
    case DStart => s.passes == 0
    case DPass(_, per) => s.passes <= FLUSH_AFTER && (if per > 0 then n > s.passes else AtHead(n, s.passes))
    case DCopy(_, _, m, done) => s.passes <= FLUSH_AFTER && n >= s.passes && (done == m ==> n > s.passes)
    case DFlush => n >= s.passes == FLUSH_AFTER + 1
    case _ => s.passes <= FLUSH_AFTER && AtHead(n, s.passes)
  }

  predicate AtHead(records: nat, passes: nat) {
    records >= passes && (passes == 0 ==> records == 0)
  }

  /** `j` counts what all rings have released, up to the pass under way. */
  predicate InvCount(cfg: Config, s: State) {
    && Sum(s.consumed) == s.j + (if s.d.DPass? || s.d.DCopy? then s.d.per else 0)
    && (s.d.DDone? || s.d.DExited? ==> s.j >= cfg.producers * cfg.quota)
  }

  function Sum(c: seq<nat>): nat {
    if c == [] then 0 else Sum(c[..|c| - 1]) + c[|c| - 1]
  }

  /** Each producer's share of the stream is what was taken from its ring, in order. */
  ghost predicate InvStream(cfg: Config, s: State)
    requires |s.published| == |s.consumed| == cfg.producers
  {
    && (forall i :: 0 <= i < cfg.producers ==>
          Taken(s, i) <= |s.published[i]| && From(Stream(s), i) == s.published[i][..Taken(s, i)])
    && |Stream(s)| == Drained(s)
  }

  ghost predicate Inv(cfg: Config, s: State) {
    && Proper(cfg)
    && InvRings(cfg, s)
    && InvOwned(cfg, s)
    && InvFill(cfg, s)
    && InvSizes(cfg, s)
    && InvPasses(s)
    && InvCount(cfg, s)
    && InvStream(cfg, s)
  }

  lemma RingsStep(cfg: Config, s: State, l: Label)
    requires InvRings(cfg, s) && Enabled(cfg, s, l)
    requires cfg.batch > 0
    ensures InvRings(cfg, Step(cfg, s, l))
  {
    if l.Produce? {
      RingsProduce(cfg, s, l.i, l.e);
    } else if l.Consume? {
      RingsConsume(cfg, s);
    } else {
      assert Step(cfg, s, l).published == s.published && Step(cfg, s, l).consumed == s.consumed;
    }
  }

  lemma RingsProduce(cfg: Config, s: State, i: nat, e: Entry)
    requires InvRings(cfg, s) && Enabled(cfg, s, Produce(i, e))
    ensures InvRings(cfg, Step(cfg, s, Produce(i, e)))
  {
  }

  lemma RingsConsume(cfg: Config, s: State)
    requires InvRings(cfg, s) && Enabled(cfg, s, Consume)
    ensures InvRings(cfg, Step(cfg, s, Consume))
  {
  }

  lemma SizesStep(cfg: Config, s: State, l: Label)
    requires InvSizes(cfg, s) && Enabled(cfg, s, l)
    ensures InvSizes(cfg, Step(cfg, s, l))
  {
  }

  /** No aliasing: what one thread holds is nobody else's, and nothing dangles. */
  ghost predicate NoAliases(s: State) {
    && (forall b <- s.sinkQ :: b in s.heap && b !in s.cache)
    && (forall b <- s.cache :: b in s.heap)
    && (forall b <- Held(s.k) :: b in s.heap && b !in s.sinkQ && b !in s.cache && b !in Current(s.d, s.cur))
    && (forall b <- Current(s.d, s.cur) :: b in s.heap && b !in s.sinkQ && b !in s.cache)
    && (s.sinkQ != [] ==> s.sinkQ[0] !in s.sinkQ[1..])
    && s.nextId !in s.heap
  }

  lemma OnePlace(c: seq<nat>, q: seq<nat>, h: seq<nat>, k: seq<nat>, live: bool, b: nat)
    requires multiset(c)[b] + multiset(q)[b] + multiset(h)[b] + multiset(k)[b] == if live then 1 else 0
    ensures b in c || b in q || b in h || b in k ==> live
    ensures b in c ==> b !in q && b !in h && b !in k
    ensures b in q ==> b !in h && b !in k
    ensures b in h ==> b !in k
    ensures q != [] && b == q[0] ==> b !in q[1..]
  {
    if q != [] {
      assert q == [q[0]] + q[1..];
    }
    assert b in multiset(c) <==> b in c;
    assert b in multiset(h) <==> b in h;
    assert b in multiset(k) <==> b in k;
  }

  lemma OwnedApart(cfg: Config, s: State)
    requires InvOwned(cfg, s)
    ensures NoAliases(s)
  {
    hide Current, Held;
    forall b: nat
      ensures b in Current(s.d, s.cur) || b in s.sinkQ || b in Held(s.k) || b in s.cache ==> b in s.heap
      ensures b in Current(s.d, s.cur) ==> b !in s.sinkQ && b !in Held(s.k) && b !in s.cache
      ensures b in s.sinkQ ==> b !in Held(s.k) && b !in s.cache
      ensures b in Held(s.k) ==> b !in s.cache
      ensures s.sinkQ != [] && b == s.sinkQ[0] ==> b !in s.sinkQ[1..]
    {
      assert Places(s)[b] == if b in s.heap.Keys then 1 else 0;
      OnePlace(Current(s.d, s.cur), s.sinkQ, Held(s.k), s.cache, b in s.heap, b);
    }
  }

  lemma MultisetPush(s: seq<nat>, b: nat)
    ensures multiset(s + [b]) == multiset(s) + multiset{b}
  {
  }

  lemma MultisetLast(s: seq<nat>)
    requires s != []
    ensures multiset(s) == multiset(s[..|s| - 1]) + multiset{s[|s| - 1]}
  {
    assert s == s[..|s| - 1] + [s[|s| - 1]];
  }

  lemma MultisetFirst(s: seq<nat>)
    requires s != []
    ensures multiset(s) == multiset{s[0]} + multiset(s[1..])
  {
    assert s == [s[0]] + s[1..];
  }

  lemma Rotate(c: nat, q: multiset<nat>, h: multiset<nat>, k: multiset<nat>, n: nat)
    ensures multiset{n} + (q + multiset{c}) + h + k == multiset{c} + q + h + (k + multiset{n})
    ensures multiset{c} + q + h + (k + multiset{n}) == multiset{c} + q + h + k + multiset{n}
  {
  }

  lemma PlacesOfSwap(s: State, s': State)
    requires !s.d.DStart? && !s'.d.DStart? && s'.k == s.k
    requires s'.cur == Swap(s).cur && s'.sinkQ == Swap(s).sinkQ && s'.cache == Swap(s).cache
    ensures Places(s') == Places(s) + (if s.cache == [] then multiset{s.nextId} else multiset{})
  {
    hide Held;
    MultisetPush(s.sinkQ, s.cur);
    Rotate(s.cur, multiset(s.sinkQ), multiset(Held(s.k)), multiset(s'.cache), s'.cur);
    if s.cache != [] {
      MultisetLast(s.cache);
      assert Places(s') == Places(s);
    } else {
      assert s'.cache == s.cache;
    }
  }

  lemma PlacesOfTake(s: State, s': State)
    requires s.k.STake? && s.sinkQ != [] && s' == s.(k := SWrite(s.sinkQ[0]), sinkQ := s.sinkQ[1..])
    ensures Places(s') == Places(s)
  {
    hide Current;
    MultisetFirst(s.sinkQ);
  }

  lemma PlacesOfStart(s: State, s': State)
    requires s.d.DStart? && s.cache != [] && s'.d.DHead? && s'.k == s.k && s'.sinkQ == s.sinkQ
    requires s'.cur == s.cache[|s.cache| - 1] && s'.cache == s.cache[..|s.cache| - 1]
    ensures Places(s') == Places(s)
  {
    hide Held;
    MultisetLast(s.cache);
  }

  lemma PlacesOfStore(s: State, s': State)
    requires s.k.SStore? || s.k.SDelete?
    requires s' == s.(k := STest, cache := if s.k.SStore? then s.cache + [s.k.b] else s.cache, heap := s'.heap, deleted := s'.deleted)
    ensures Places(s') + (if s.k.SDelete? then multiset{s.k.b} else multiset{}) == Places(s)
  {
    hide Current;
    MultisetPush(s.cache, s.k.b);
  }

  /** The places hold the same buffers after each step, but for a new and a freed one. */
  lemma PlacesStep(cfg: Config, s: State, l: Label)
    requires InvSizes(cfg, s) && Enabled(cfg, s, l)
    ensures var s' := Step(cfg, s, l);
            if l.Delete? then Places(s') + multiset{s.k.b} == Places(s)
            else if (l.SwapFull? || l.Flush?) && s.cache == [] then Places(s') == Places(s) + multiset{s.nextId}
            else Places(s') == Places(s)
  {
    hide InvSizes, Places;
    var s' := Step(cfg, s, l);
    if l.SwapFull? || l.Flush? {
      PlacesOfSwap(s, s');
    } else if l.Start? {
      PlacesOfStart(s, s');
    } else if l.Take? {
      PlacesOfTake(s, s');
    } else if l.Store? || l.Delete? {
      PlacesOfStore(s, s');
    } else {
      PlacesOfRest(cfg, s, l);
    }
  }

  lemma PlacesOfRest(cfg: Config, s: State, l: Label)
    requires Enabled(cfg, s, l)
    requires !l.SwapFull? && !l.Flush? && !l.Start? && !l.Take? && !l.Store? && !l.Delete?
    ensures Places(Step(cfg, s, l)) == Places(s)
  {
    var s' := Step(cfg, s, l);
    assert Current(s'.d, s'.cur) == Current(s.d, s.cur) && s'.sinkQ == s.sinkQ;
    assert Held(s'.k) == Held(s.k) && s'.cache == s.cache;
  }

  lemma CoversMore(p: multiset<nat>, live: set<nat>, b: nat)
    requires Covers(p, live) && b !in live
    ensures Covers(p + multiset{b}, live + {b})
  {
  }

  lemma CoversLess(p: multiset<nat>, p': multiset<nat>, live: set<nat>, b: nat)
    requires Covers(p, live) && p' + multiset{b} == p
    ensures Covers(p', live - {b})
  {
    forall c: nat
      ensures p'[c] == if c in live - {b} then 1 else 0
    {
      assert p[c] == p'[c] + multiset{b}[c];
    }
  }

  /** Only a swap without a cached buffer allocates, only the sink frees. */
  lemma LiveStep(cfg: Config, s: State, l: Label)
    requires NoAliases(s) && Enabled(cfg, s, l) && InvSizes(cfg, s)
    ensures l.Delete? ==> s.k.SDelete?
    ensures var s' := Step(cfg, s, l);
            if l.Delete? then s'.heap.Keys == s.heap.Keys - {s.k.b} && s.k.b in s.heap
            else if (l.SwapFull? || l.Flush?) && s.cache == [] then s'.heap.Keys == s.heap.Keys + {s.nextId}
            else s'.heap.Keys == s.heap.Keys
    ensures var s', grew := Step(cfg, s, l), (l.SwapFull? || l.Flush?) && s.cache == [];
            && s'.deleted == s.deleted + (if l.Delete? then 1 else 0)
            && s'.allocNum == s.allocNum + (if grew then 1 else 0)
            && s'.nextId == s.nextId + (if grew then 1 else 0)
  {
  }

  lemma OwnedStep(cfg: Config, s: State, l: Label)
    requires InvOwned(cfg, s) && InvSizes(cfg, s) && NoAliases(s) && Enabled(cfg, s, l)
    ensures InvOwned(cfg, Step(cfg, s, l))
  {
    hide Places, InvSizes, Covers, Step, Enabled, NoAliases;
    PlacesStep(cfg, s, l);
    LiveStep(cfg, s, l);
    var s', live := Step(cfg, s, l), s.heap.Keys;
    assert |s'.heap| == |s'.heap.Keys| && |s.heap| == |live|;
    if l.Delete? {
      CoversLess(Places(s), Places(s'), live, s.k.b);
    } else if (l.SwapFull? || l.Flush?) && s.cache == [] {
      assert s.nextId !in live;
      CoversMore(Places(s), live, s.nextId);
    }
  }

  lemma FillOfSwap(cfg: Config, s: State)
    requires Proper(cfg) && NoAliases(s) && InvFill(cfg, s) && Get(s.heap, s.cur) != []
    ensures InvFill(cfg, Swap(s))
    ensures Get(Swap(s).heap, Swap(s).cur) == []
  {
  }

  lemma FillStep(cfg: Config, s: State, l: Label)
    requires Proper(cfg) && InvRings(cfg, s) && NoAliases(s) && InvFill(cfg, s) && InvPasses(s) && Enabled(cfg, s, l)
    ensures InvFill(cfg, Step(cfg, s, l))
  {
    if l.SwapFull? || l.Flush? {
      assert Get(s.heap, s.cur) != [];
      FillOfSwap(cfg, s);
    } else if l.Copy? {
      FillOfCopy(cfg, s);
    } else if l.Write? || l.Reset? || l.Take? || l.Size? || l.Store? || l.Delete? {
      FillOfSink(cfg, s, l);
    }
  }

  lemma FillOfCopy(cfg: Config, s: State)
    requires InvRings(cfg, s) && NoAliases(s) && InvFill(cfg, s) && Enabled(cfg, s, Copy)
    ensures InvFill(cfg, Step(cfg, s, Copy))
  {
  }

  lemma FillOfSink(cfg: Config, s: State, l: Label)
    requires Proper(cfg) && NoAliases(s) && InvFill(cfg, s) && Enabled(cfg, s, l)
    requires l.Write? || l.Reset? || l.Take? || l.Size? || l.Store? || l.Delete?
    ensures InvFill(cfg, Step(cfg, s, l))
  {
  }

  lemma PassesStep(cfg: Config, s: State, l: Label)
    requires Proper(cfg) && InvRings(cfg, s) && NoAliases(s) && InvFill(cfg, s) && InvPasses(s) && Enabled(cfg, s, l)
    ensures InvPasses(Step(cfg, s, l))
  {
    if l.SwapFull? || l.Flush? {
      PassesOfSwap(cfg, s, l);
    } else if l.Produce? || l.Test? || l.Check? || l.Take? || l.Write? || l.Reset? || l.Size? || l.Store? || l.Delete? {
      hide InvRings, InvFill;
      PassesOfOthers(cfg, s, l);
    } else {
      hide NoAliases, InvFill;
      PassesOfDrainer(cfg, s, l);
    }
  }

  lemma PassesOfSwap(cfg: Config, s: State, l: Label)
    requires Proper(cfg) && NoAliases(s) && InvFill(cfg, s) && InvPasses(s) && InvRings(cfg, s)
    requires Enabled(cfg, s, l) && (l.SwapFull? || l.Flush?)
    ensures InvPasses(Step(cfg, s, l))
  {
    assert Get(s.heap, s.cur) != [];
    FillOfSwap(cfg, s);
    hide NoAliases, InvFill, InvRings;
  }

  /** The producers and the sink leave the current buffer alone. */
  lemma PassesOfOthers(cfg: Config, s: State, l: Label)
    requires NoAliases(s) && InvPasses(s) && Enabled(cfg, s, l)
    requires l.Produce? || l.Test? || l.Check? || l.Take? || l.Write? || l.Reset? || l.Size? || l.Store? || l.Delete?
    ensures InvPasses(Step(cfg, s, l))
  {
    assert s.d.DStart? || Get(Step(cfg, s, l).heap, s.cur) == Get(s.heap, s.cur);
    hide NoAliases;
  }

  lemma PassesOfDrainer(cfg: Config, s: State, l: Label)
    requires InvRings(cfg, s) && InvPasses(s) && Enabled(cfg, s, l)
    requires l.Start? ==> forall b <- s.cache :: Get(s.heap, b) == []
    requires l.Start? || l.Head? || l.Peek? || l.Copy? || l.Consume? || l.EndPass? || l.SetExit?
    ensures InvPasses(Step(cfg, s, l))
  {
  }

  lemma {:induction false} SumUpdate(c: seq<nat>, i: nat, n: nat)
    requires i < |c|
    ensures Sum(c[i := c[i] + n]) == Sum(c) + n
  {
    var k := |c| - 1;
    var c' := c[i := c[i] + n];
    if i < k {
      SumUpdate(c[..k], i, n);
      assert c'[..k] == c[..k][i := c[i] + n];
    } else {
      assert c'[..k] == c[..k];
    }
  }

  /** If no term exceeds q and the sum reaches |c| * q, every term is q. */
  lemma {:induction false} SumFull(c: seq<nat>, q: nat)
    requires forall i :: 0 <= i < |c| ==> c[i] <= q
    ensures Sum(c) <= |c| * q
    ensures Sum(c) >= |c| * q ==> forall i :: 0 <= i < |c| ==> c[i] == q
  {
    if c != [] {
      var k := |c| - 1;
      SumFull(c[..k], q);
      assert |c| * q == k * q + q;
    }
  }

  lemma CountStep(cfg: Config, s: State, l: Label)
    requires InvRings(cfg, s) && InvCount(cfg, s) && Enabled(cfg, s, l)
    ensures InvCount(cfg, Step(cfg, s, l))
  {
    hide Sum, Length, Get;
    if l.Consume? {
      SumUpdate(s.consumed, s.d.index, s.d.n);
    }
  }

  // ---------- conservation ----------

  lemma FlatOne(heap: map<nat, seq<Rec>>, b: nat)
    ensures Flat(heap, [b]) == Get(heap, b)
  {
    assert Flat(heap, []) == [];
  }

  lemma StreamOfSwap(s: State, s': State)
    requires NoAliases(s) && !s.d.DStart? && !s'.d.DStart?
    requires forall b <- s.cache :: Get(s.heap, b) == []
    requires s' == Swap(s).(d := s'.d)
    ensures Stream(s') == Stream(s)
  {
    hide Flat;
    SwapHeap(s);
    FlatPush(s.heap, s.sinkQ, s.cur);
    FlatSame(s.heap, s'.heap, s'.sinkQ);
    FlatOne(s.heap, s.cur);
    FlatOne(s'.heap, s'.cur);
    hide Swap, NoAliases;
    assert Flat(s'.heap, s'.sinkQ) + [] == Flat(s.heap, s.sinkQ) + Get(s.heap, s.cur);
  }

  lemma SwapHeap(s: State)
    requires NoAliases(s) && !s.d.DStart?
    requires forall b <- s.cache :: Get(s.heap, b) == []
    ensures var s' := Swap(s);
            && s'.sinkQ == s.sinkQ + [s.cur] && s'.out == s.out && s'.k == s.k
            && Get(s'.heap, s'.cur) == []
            && (forall b <- s'.sinkQ :: Get(s'.heap, b) == Get(s.heap, b))
            && (s.k.SWrite? ==> Get(s'.heap, s.k.b) == Get(s.heap, s.k.b))
  {
  }

  lemma StreamOfCopy(s: State, s': State, r: Rec)
    requires NoAliases(s) && !s.d.DStart? && !s'.d.DStart? && s'.k == s.k && s'.out == s.out
    requires s'.cur == s.cur && s'.sinkQ == s.sinkQ && s'.heap == s.heap[s.cur := Get(s.heap, s.cur) + [r]]
    ensures Stream(s') == Stream(s) + [r]
  {
    FlatSame(s.heap, s'.heap, s.sinkQ);
    FlatOne(s.heap, s.cur);
    FlatOne(s'.heap, s'.cur);
    hide Flat;
  }

  lemma StreamOfTake(s: State, s': State)
    requires s.k.STake? && s.sinkQ != [] && s' == s.(k := SWrite(s.sinkQ[0]), sinkQ := s.sinkQ[1..])
    ensures Stream(s') == Stream(s)
  {
  }

  lemma StreamOfHeap(s: State, s': State)
    requires NoAliases(s) && !s.k.SWrite? && !s'.k.SWrite?
    requires s.k.SReset? || s.k.SDelete?
    requires s'.out == s.out && s'.sinkQ == s.sinkQ && s'.d == s.d && s'.cur == s.cur
    requires forall b :: b != s.k.b ==> Get(s'.heap, b) == Get(s.heap, b)
    ensures Stream(s') == Stream(s)
  {
    FlatSame(s.heap, s'.heap, s.sinkQ);
    FlatSame(s.heap, s'.heap, Current(s.d, s.cur));
  }

  /** Conservation: a copy adds its record at the end of the stream, and no other
      step of any thread adds, drops, repeats or moves a record. */
  lemma StreamStep(cfg: Config, s: State, l: Label)
    requires NoAliases(s) && InvFill(cfg, s) && Enabled(cfg, s, l)
    ensures Stream(Step(cfg, s, l)) ==
            if l.Copy? then Stream(s) + [Rec(s.d.index, Next(s).value)] else Stream(s)
  {
    hide Flat, NoAliases;
    assert forall b <- s.cache :: Get(s.heap, b) == [];
    hide InvFill;
    var s' := Step(cfg, s, l);
    match l
    case SwapFull => StreamOfSwap(s, s');
    case Flush => StreamOfSwap(s, s');
    case Copy => StreamOfCopy(s, s', Rec(s.d.index, Next(s).value));
    case Take => StreamOfTake(s, s');
    case Reset => StreamOfHeap(s, s');
    case Delete => StreamOfHeap(s, s');
    case Start => StreamOfStart(s, s');
    case _ =>
  }

  lemma StreamOfStart(s: State, s': State)
    requires NoAliases(s) && s.d.DStart? && s.cache != [] && forall b <- s.cache :: Get(s.heap, b) == []
    requires s' == s.(cur := s.cache[|s.cache| - 1], cache := s.cache[..|s.cache| - 1], d := DHead)
    ensures Stream(s') == Stream(s)
  {
    FlatOne(s'.heap, s'.cur);
  }

  lemma FromPush(rs: seq<Rec>, r: Rec, i: nat)
    ensures From(rs + [r], i) == From(rs, i) + (if r.src == i then [r.entry] else [])
  {
    assert (rs + [r])[..|rs|] == rs;
  }

  lemma InvStreamCopy(cfg: Config, s: State, s': State)
    requires InvRings(cfg, s) && InvStream(cfg, s) && Next(s).Some?
    requires s'.published == s.published && s'.consumed == s.consumed && s'.d == s.d.(done := s.d.done + 1)
    requires Stream(s') == Stream(s) + [Rec(s.d.index, Next(s).value)]
    ensures InvStream(cfg, s')
  {
    hide Stream;
    forall i | 0 <= i < cfg.producers
      ensures Taken(s', i) <= |s.published[i]| && From(Stream(s'), i) == s.published[i][..Taken(s', i)]
    {
      FromPush(Stream(s), Rec(s.d.index, Next(s).value), i);
    }
  }

  lemma TakenKept(cfg: Config, s: State, l: Label)
    requires InvRings(cfg, s) && Enabled(cfg, s, l) && !l.Copy?
    ensures var s' := Step(cfg, s, l);
            && |s'.published| == |s'.consumed| == cfg.producers
            && (forall i :: 0 <= i < cfg.producers ==> Taken(s', i) == Taken(s, i) && s.published[i] <= s'.published[i])
            && Drained(s') == Drained(s)
  {
    hide Sum, Length, Get, Swap;
    if l.Consume? {
      SumUpdate(s.consumed, s.d.index, s.d.n);
    } else if l.Produce? {
      assert Step(cfg, s, l).consumed == s.consumed && Step(cfg, s, l).d == s.d;
    } else {
      KeepsRings(cfg, s, l);
      hide Step, Enabled;
    }
  }

  lemma KeepsRings(cfg: Config, s: State, l: Label)
    requires Enabled(cfg, s, l) && !l.Copy? && !l.Consume? && !l.Produce?
    ensures var s' := Step(cfg, s, l);
            && s'.published == s.published && s'.consumed == s.consumed
            && (s'.d.DCopy? ==> if s.d.DCopy? then s'.d == s.d else s'.d.done == 0)
            && (s.d.DCopy? ==> s'.d.DCopy?)
  {
  }

  function Drained(s: State): nat {
    Sum(s.consumed) + (if s.d.DCopy? then s.d.done else 0)
  }

  lemma InvStreamKept(cfg: Config, s: State, s': State)
    requires |s.published| == |s.consumed| == |s'.published| == |s'.consumed| == cfg.producers
    requires InvStream(cfg, s)
    requires forall i :: 0 <= i < cfg.producers ==> Taken(s', i) == Taken(s, i) && s.published[i] <= s'.published[i]
    requires Drained(s') == Drained(s) && Stream(s') == Stream(s)
    ensures InvStream(cfg, s')
  {
    hide Stream, Taken, Drained;
  }

  lemma InvStreamStep(cfg: Config, s: State, l: Label)
    requires InvRings(cfg, s) && InvStream(cfg, s) && NoAliases(s) && InvFill(cfg, s) && Enabled(cfg, s, l)
    ensures |Step(cfg, s, l).published| == |Step(cfg, s, l).consumed| == cfg.producers
    ensures InvStream(cfg, Step(cfg, s, l))
  {
    StreamStep(cfg, s, l);
    if l.Copy? {
      hide InvStream, Stream;
      InvStreamCopy(cfg, s, Step(cfg, s, l));
    } else {
      hide InvStream, Stream, Step;
      TakenKept(cfg, s, l);
      InvStreamKept(cfg, s, Step(cfg, s, l));
    }
  }

  lemma InvStep(cfg: Config, s: State, l: Label)
    requires Inv(cfg, s) && Enabled(cfg, s, l)
    ensures NoAliases(s) && Inv(cfg, Step(cfg, s, l))
  {
    hide InvRings, InvOwned, InvFill, InvSizes, InvPasses, InvCount, InvStream, NoAliases, Step, Enabled;
    OwnedApart(cfg, s);
    RingsStep(cfg, s, l);
    SizesStep(cfg, s, l);
    OwnedStep(cfg, s, l);
    FillStep(cfg, s, l);
    PassesStep(cfg, s, l);
    CountStep(cfg, s, l);
    InvStreamStep(cfg, s, l);
  }

  lemma {:induction false} SumZero(n: nat)
    ensures Sum(seq(n, i => 0)) == 0
  {
    if n > 0 {
      SumZero(n - 1);
      assert seq(n, i => 0)[..n - 1] == seq(n - 1, i => 0);
    }
  }

  lemma {:induction false} CoversInit(n: nat)
    ensures Covers(multiset(FirstIds(n)), EmptyBuffers(n).Keys)
  {
    hide Covers, FirstIds, EmptyBuffers;
    if n == 0 {
      OneMoreBuffer(0);
      CoversNone();
    } else {
      CoversInit(n - 1);
      OneMoreBuffer(n - 1);
      CoversNext(FirstIds(n - 1), EmptyBuffers(n - 1), n - 1);
    }
  }

  lemma OneMoreBuffer(n: nat)
    ensures FirstIds(0) == [] && EmptyBuffers(0).Keys == {}
    ensures FirstIds(n + 1) == FirstIds(n) + [n] && EmptyBuffers(n + 1) == EmptyBuffers(n)[n := []]
  {
  }

  lemma CoversNone()
    ensures Covers(multiset([]), {})
  {
  }

  lemma CoversNext(ids: seq<nat>, heap: map<nat, seq<Rec>>, b: nat)
    requires Covers(multiset(ids), heap.Keys) && b !in heap
    ensures Covers(multiset(ids + [b]), heap[b := []].Keys)
  {
    hide Covers;
    MultisetPush(ids, b);
    CoversMore(multiset(ids), heap.Keys, b);
    assert heap[b := []].Keys == heap.Keys + {b};
  }

  lemma OwnedInit(cfg: Config)
    ensures InvOwned(cfg, Init(cfg))
  {
    var s := Init(cfg);
    CoversInit(cfg.cacheLimit);
    assert Places(s) == multiset(s.cache);
    hide Covers, Places;
    assert |s.heap| == cfg.cacheLimit;
  }

  lemma InvInit(cfg: Config)
    requires Proper(cfg)
    ensures Inv(cfg, Init(cfg))
  {
    OwnedInit(cfg);
    SumZero(cfg.producers);
    var s := Init(cfg);
    hide InvOwned;
    assert Flat(s.heap, []) == [];
    assert Stream(s) == [];
  }

  lemma {:induction false} InvRun(cfg: Config, ls: seq<Label>)
    requires Proper(cfg) && Exec(cfg, ls).Some?
    ensures Inv(cfg, Exec(cfg, ls).value)
    decreases |ls|
  {
    if ls == [] {
      InvInit(cfg);
    } else {
      InvRun(cfg, ls[..|ls| - 1]);
      InvStep(cfg, Exec(cfg, ls[..|ls| - 1]).value, ls[|ls| - 1]);
    }
  }

  // ---------- main results ----------

  /** At every moment of every run the drained records are a merge of prefixes of
      what each producer published: nothing lost, repeated or out of a producer's
      order, also part-way through a batch whose slots are not released yet. */
  lemma NothingLost(cfg: Config, ls: seq<Label>)
    requires Proper(cfg) && Exec(cfg, ls).Some?
    ensures var s := Exec(cfg, ls).value;
            && |s.published| == |s.consumed| == cfg.producers
            && (forall i :: 0 <= i < cfg.producers ==>
                  && s.consumed[i] <= Taken(s, i) <= |s.published[i]| <= cfg.quota
                  && From(Stream(s), i) == s.published[i][..Taken(s, i)])
            && |Stream(s)| == Drained(s)
  {
    InvRun(cfg, ls);
  }

  /** Each live buffer is in exactly one place, cached ones are empty, queued ones
      are not, the cache keeps to its limit, and none is leaked: live and freed
      together are the initial and the allocated ones. */
  lemma BuffersAccounted(cfg: Config, ls: seq<Label>)
    requires Proper(cfg) && Exec(cfg, ls).Some?
    ensures var s := Exec(cfg, ls).value;
            && NoAliases(s)
            && Covers(Places(s), s.heap.Keys)
            && |s.heap| + s.deleted == cfg.cacheLimit + s.allocNum
            && |s.cache| <= cfg.cacheLimit
            && (forall b <- s.cache :: Get(s.heap, b) == [])
            && (forall b <- s.sinkQ :: Get(s.heap, b) != [])
            && (forall b :: b in s.heap ==> Length(s.heap[b]) < cfg.bufSize)
  {
    InvRun(cfg, ls);
    OwnedApart(cfg, Exec(cfg, ls).value);
  }

  /** The sizes read outside the mutex are acted on safely: the sink never takes
      from an empty queue, never overfills the cache, and the drainer's first buffer
      is there. */
  lemma ChecksHold(cfg: Config, ls: seq<Label>)
    requires Proper(cfg) && Exec(cfg, ls).Some?
    ensures var s := Exec(cfg, ls).value;
            && (s.k.STake? ==> Enabled(cfg, s, Take))
            && (s.d.DStart? ==> Enabled(cfg, s, Start))
            && (s.k.SStore? ==> |Step(cfg, s, Store).cache| <= cfg.cacheLimit)
  {
    hide Exec, InvRings, InvOwned, InvFill, InvPasses, InvCount, InvStream;
    InvRun(cfg, ls);
  }

  /** At the head of the outer loop the current buffer holds at least 16 bytes for
      each non-empty pass since it was taken, so neither the swap of a full buffer
      nor the forced flush ever queues an empty one. */
  lemma NoEmptyHandover(cfg: Config, ls: seq<Label>)
    requires Proper(cfg) && Exec(cfg, ls).Some?
    ensures var s := Exec(cfg, ls).value;
            && (s.d.DHead? ==> s.passes <= FLUSH_AFTER && Length(Get(s.heap, s.cur)) >= RECORD_BYTES * s.passes)
            && (Enabled(cfg, s, SwapFull) || Enabled(cfg, s, Flush) ==> Get(s.heap, s.cur) != [])
  {
    hide Exec, InvOwned, InvFill, InvSizes, InvCount, InvStream;
    InvRun(cfg, ls);
  }

  /** A buffer handed over because it is full holds all the whole records that leave
      the cursor short of the end: SIZE/16 - 1 when SIZE is a multiple of 16. */
  lemma FullBuffer(cfg: Config, ls: seq<Label>)
    requires Proper(cfg) && Exec(cfg, ls).Some?
    requires Enabled(cfg, Exec(cfg, ls).value, SwapFull)
    ensures var s := Exec(cfg, ls).value;
            && s.cur in s.heap
            && |s.heap[s.cur]| == (cfg.bufSize - 1) / RECORD_BYTES > 0
            && (cfg.bufSize % RECORD_BYTES == 0 ==> |s.heap[s.cur]| == cfg.bufSize / RECORD_BYTES - 1)
  {
    InvRun(cfg, ls);
    OwnedApart(cfg, Exec(cfg, ls).value);
  }

  /** The copy loop ends: each of its steps decreases the pair (entries left, buffer
      full), in that order. */
  lemma CopyLoopEnds(cfg: Config, ls: seq<Label>, l: Label)
    requires Proper(cfg) && Exec(cfg, ls).Some? && (l.Copy? || l.SwapFull?)
    requires Enabled(cfg, Exec(cfg, ls).value, l)
    ensures var s := Exec(cfg, ls).value; var s' := Step(cfg, s, l);
            s'.d.DCopy? && s'.d.done <= s'.d.n == s.d.n
            && (s'.d.done > s.d.done
                || (s'.d.done == s.d.done && !Fits(cfg, s) && Fits(cfg, s')))
  {
    hide Exec, InvOwned, InvSizes, InvCount, InvStream;
    InvRun(cfg, ls);
    var s := Exec(cfg, ls).value;
    OwnedApart(cfg, s);
    if l.SwapFull? {
      FillOfSwap(cfg, s);
    }
  }

  /** A pass that saw a non-empty ring strictly increases j; j is always what the
      rings have released and never more than what was published. */
  lemma PassProgress(cfg: Config, ls: seq<Label>)
    requires Proper(cfg) && Exec(cfg, ls).Some?
    ensures var s := Exec(cfg, ls).value;
            && s.j <= Sum(s.consumed) <= cfg.producers * cfg.quota
            && (s.d.DHead? || s.d.DDone? || s.d.DExited? ==> s.j == Sum(s.consumed))
            && (s.d.DCopy? ==> s.d.n > 0)
            && (Enabled(cfg, s, EndPass) && s.d.per > 0 ==> Step(cfg, s, EndPass).j == Sum(s.consumed) > s.j)
  {
    hide Exec, InvOwned, InvFill, InvSizes, InvPasses, InvStream, Sum;
    InvRun(cfg, ls);
    SumFull(Exec(cfg, ls).value.consumed, cfg.quota);
  }

  /** When the drainer leaves its loop every producer has published its whole quota,
      every ring is empty, and every record is in the stream. */
  lemma ExactDrain(cfg: Config, ls: seq<Label>)
    requires Proper(cfg) && Exec(cfg, ls).Some?
    requires var d := Exec(cfg, ls).value.d; d.DDone? || d.DExited?
    ensures var s := Exec(cfg, ls).value;
            && |s.published| == |s.consumed| == cfg.producers
            && s.j == cfg.producers * cfg.quota == |Stream(s)|
            && (forall i :: 0 <= i < cfg.producers ==>
                  s.consumed[i] == |s.published[i]| == cfg.quota && From(Stream(s), i) == s.published[i])
  {
    hide Exec, InvOwned, InvFill, InvSizes, InvPasses, Sum, Stream;
    InvRun(cfg, ls);
    SumFull(Exec(cfg, ls).value.consumed, cfg.quota);
  }

  /** What reaches the file. When both threads are gone, the last buffer of the
      drainer has been written by nobody: the file is complete if and only if the
      last non-empty pass flushed that buffer and the sink had emptied its queue. */
  lemma FileComplete(cfg: Config, ls: seq<Label>)
    requires Proper(cfg) && Exec(cfg, ls).Some?
    requires Exec(cfg, ls).value.k.SExit?
    ensures var s := Exec(cfg, ls).value;
            && s.d.DExited?
            && Stream(s) == s.out + Flat(s.heap, s.sinkQ) + Get(s.heap, s.cur)
            && |Stream(s)| == cfg.producers * cfg.quota
            && (s.out == Stream(s) <==> s.passes == 0 && s.sinkQ == [])
  {
    hide Exec, InvOwned, InvRings, InvCount, InvStream, Stream, Sum;
    InvRun(cfg, ls);
    ExactDrain(cfg, ls);
    var s := Exec(cfg, ls).value;
    LeftBehind(s);
    if s.sinkQ != [] {
      assert Get(s.heap, s.sinkQ[0]) != [];
    }
  }

  lemma {:induction false} FromSplit(a: seq<Rec>, b: seq<Rec>, i: nat)
    ensures From(a + b, i) == From(a, i) + From(b, i)
  {
    hide From;
    if b == [] {
      assert a + b == a;
      FromNone(i);
    } else {
      var n := |b| - 1;
      assert b == b[..n] + [b[n]];
      assert a + b == (a + b[..n]) + [b[n]];
      FromSplit(a, b[..n], i);
      FromPush(a + b[..n], b[n], i);
      FromPush(b[..n], b[n], i);
    }
  }

  lemma FromNone(i: nat)
    ensures From([], i) == []
  {
  }

  lemma FileHoldsPrefixes(cfg: Config, s: State)
    requires |s.published| == |s.consumed| == cfg.producers && InvStream(cfg, s)
    ensures forall i :: 0 <= i < cfg.producers ==> From(s.out, i) <= s.published[i]
  {
    hide From, Flat;
    var rest := (if s.k.SWrite? then Get(s.heap, s.k.b) else []) + Flat(s.heap, s.sinkQ) + Flat(s.heap, Current(s.d, s.cur));
    assert Stream(s) == s.out + rest;
    forall i | 0 <= i < cfg.producers
      ensures From(s.out, i) <= s.published[i]
    {
      FromSplit(s.out, rest, i);
    }
  }

  lemma LeftBehind(s: State)
    requires s.k.SExit? && s.d.DExited?
    ensures Stream(s) == s.out + Flat(s.heap, s.sinkQ) + Get(s.heap, s.cur)
    ensures s.sinkQ == [] ==> Flat(s.heap, s.sinkQ) == []
    ensures s.sinkQ != [] ==> |Flat(s.heap, s.sinkQ)| >= |Get(s.heap, s.sinkQ[0])|
  {
    FlatOne(s.heap, s.cur);
  }
}
