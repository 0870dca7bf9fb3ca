/** The bytes of the pipeline. Beside each run of Pipeline runs what its steps do to
    memory and to the file: the drainer stores a header and the argument bytes at the
    cursor, the sink appends a whole block and moves its cursor back. */
module PipelineBytes {
  import opened Wrappers
  import opened LogRecords
  import opened Pipeline

  /** The bytes up to the cursor of each live buffer, and those of the file. */
  datatype Memory = Memory(heap: map<nat, seq<Byte>>, file: seq<Byte>)

  function BytesAt(heap: map<nat, seq<Byte>>, b: nat): seq<Byte> {
    if b in heap then heap[b] else []
  }

  function Store(m: Memory, s: State, l: Label): Memory {
    match l
    case Copy =>
      if Next(s).None? then m
      else
        var e := Next(s).value;
        m.(heap := m.heap[s.cur := BytesAt(m.heap, s.cur) + Header(e.fmtId, e.timestamp) + e.argData])
    case SwapFull => if s.cache == [] then m.(heap := m.heap[s.nextId := []]) else m
    case Flush => if s.cache == [] then m.(heap := m.heap[s.nextId := []]) else m
    case Write => if s.k.SWrite? then m.(file := m.file + BytesAt(m.heap, s.k.b)) else m
    case Reset => if s.k.SReset? then m.(heap := m.heap[s.k.b := []]) else m
    case Delete => if s.k.SDelete? then m.(heap := m.heap - {s.k.b}) else m
    case _ => m
  }

  function NoBytes(n: nat): (h: map<nat, seq<Byte>>)
    ensures forall b: nat :: b in h <==> b < n
    ensures forall b: nat :: b in h ==> h[b] == []
  {
    if n == 0 then map[] else NoBytes(n - 1)[n - 1 := []]
  }

  /** Memory after a run. */
  function MemoryOf(cfg: Config, ls: seq<Label>): Memory
    requires Exec(cfg, ls).Some?
    decreases |ls|
  {
    if ls == [] then Memory(NoBytes(cfg.cacheLimit), [])
    else
      var n := |ls| - 1;
      Store(MemoryOf(cfg, ls[..n]), Exec(cfg, ls[..n]).value, ls[n])
  }

  function Entries(rs: seq<Rec>): (es: seq<Entry>)
    ensures |es| == |rs|
    ensures forall i :: 0 <= i < |rs| ==> es[i] == rs[i].entry
  {
    seq(|rs|, i requires 0 <= i < |rs| => rs[i].entry)
  }

  /** Memory holds the encoding of the records, buffer by buffer. */
  ghost predicate Agrees(m: Memory, s: State) {
    && m.heap.Keys == s.heap.Keys
    && (forall b :: b in s.heap ==> BytesAt(m.heap, b) == EncodeAll(Entries(Get(s.heap, b))))
    && m.file == EncodeAll(Entries(s.out))
  }

  lemma EntriesSplit(a: seq<Rec>, b: seq<Rec>)
    ensures Entries(a + b) == Entries(a) + Entries(b)
  {
  }

  lemma CopiedBytes(rs: seq<Rec>, r: Rec)
    ensures EncodeAll(Entries(rs + [r])) == EncodeAll(Entries(rs)) + Header(r.entry.fmtId, r.entry.timestamp) + r.entry.argData
  {
    EntriesSplit(rs, [r]);
    assert Entries([r]) == [r.entry];
    EncodeNext(Entries(rs) + [r.entry], |rs|);
    assert (Entries(rs) + [r.entry])[..|rs|] == Entries(rs);
    assert (Entries(rs) + [r.entry])[..|rs| + 1] == Entries(rs) + [r.entry];
  }

  lemma WrittenBytes(out: seq<Rec>, rs: seq<Rec>)
    ensures EncodeAll(Entries(out + rs)) == EncodeAll(Entries(out)) + EncodeAll(Entries(rs))
  {
    EntriesSplit(out, rs);
    EncodeSplit(Entries(out), Entries(rs));
  }

  lemma NoRecords()
    ensures EncodeAll(Entries([])) == []
  {
  }

  lemma AgreesStep(cfg: Config, s: State, l: Label, m: Memory)
    requires NoAliases(s) && Enabled(cfg, s, l) && InvSizes(cfg, s) && Agrees(m, s)
    ensures Agrees(Store(m, s, l), Step(cfg, s, l))
  {
    hide EncodeAll, Entries, InvSizes, Header;
    NoRecords();
    LiveStep(cfg, s, l);
    if l.Copy? {
      CopiedBytes(Get(s.heap, s.cur), Rec(s.d.index, Next(s).value));
    } else if l.SwapFull? || l.Flush? {
      AgreesOfSwap(s, m);
    } else {
      hide NoAliases;
      AgreesOfOthers(cfg, s, l, m);
    }
  }

  lemma AgreesOfSwap(s: State, m: Memory)
    requires s.nextId !in s.heap && Agrees(m, s)
    ensures Agrees(if s.cache == [] then m.(heap := m.heap[s.nextId := []]) else m, Swap(s))
  {
    hide EncodeAll, Entries;
    NoRecords();
  }

  lemma AgreesOfOthers(cfg: Config, s: State, l: Label, m: Memory)
    requires Enabled(cfg, s, l) && Agrees(m, s) && !l.Copy? && !l.SwapFull? && !l.Flush?
    requires l.Reset? || l.Delete? ==> s.k.b in s.heap
    ensures Agrees(Store(m, s, l), Step(cfg, s, l))
  {
    hide EncodeAll, Entries;
    NoRecords();
    if l.Write? {
      WrittenBytes(s.out, Get(s.heap, s.k.b));
    }
  }

  /** The fit test reads the cursor: bytes and records give it the same room. */
  lemma {:induction false} MemoryAgrees(cfg: Config, ls: seq<Label>)
    requires Proper(cfg) && Exec(cfg, ls).Some?
    ensures var s, m := Exec(cfg, ls).value, MemoryOf(cfg, ls);
            && Agrees(m, s)
            && |BytesAt(m.heap, s.cur)| == Length(Get(s.heap, s.cur))
    decreases |ls|
  {
    if ls == [] {
      NoRecords();
    } else {
      hide EncodeAll, Entries, Inv, NoAliases, InvSizes, Step, Enabled, Store;
      var n := |ls| - 1;
      var s := Exec(cfg, ls[..n]).value;
      MemoryAgrees(cfg, ls[..n]);
      InvRun(cfg, ls[..n]);
      OwnedApart(cfg, s);
      AgreesStep(cfg, s, ls[n], MemoryOf(cfg, ls[..n]));
    }
  }

  /** What a reader of the file sees, at any moment of any run: its bytes decode to
      whole records, 16 bytes each, and those of each producer are the first ones it
      published, in its order. */
  lemma FileReadsBack(cfg: Config, ls: seq<Label>)
    requires Proper(cfg) && Exec(cfg, ls).Some?
    ensures var s, file := Exec(cfg, ls).value, MemoryOf(cfg, ls).file;
            && |s.published| == cfg.producers
            && |file| == Length(s.out)
            && DecodeAll(file) == Some(Records(Entries(s.out)))
            && forall i :: 0 <= i < cfg.producers ==> From(s.out, i) <= s.published[i]
  {
    hide Exec, InvOwned, InvFill, InvSizes, InvPasses, InvCount, InvStream, DecodeAll, EncodeAll, From;
    InvRun(cfg, ls);
    MemoryAgrees(cfg, ls);
    var s := Exec(cfg, ls).value;
    DecodeEncode(Entries(s.out));
    FileHoldsPrefixes(cfg, s);
  }
}
