/** Log entries as the producers stage them, and the 16-byte records the drainer
    writes for them. Words are little-endian, as on the x86 machines the code
    stores them on through casted pointers. */
module LogRecords {
  import opened Wrappers
  import opened Words

  type Byte = b: nat | b < 256
  type U64 = n: nat | n < 0x1_0000_0000_0000_0000
  type Arg = a: seq<Byte> | |a| == ARG_BYTES witness [0, 0, 0, 0]

  const ARG_BYTES: nat := 4
  const HEADER_BYTES: nat := 12
  const RECORD_BYTES: nat := 16

  /** `UncompressedEntry`; `dyMem` is never used. */
  datatype Entry = Entry(fmtId: Word, entrySize: Word, timestamp: U64, argData: Arg)

  /** What a record in the file carries. */
  datatype Record = Record(fmtId: Word, timestamp: U64, argData: Arg)

  function RecordOf(e: Entry): Record {
    Record(e.fmtId, e.timestamp, e.argData)
  }

  function LittleEndian(n: nat, width: nat): (b: seq<Byte>)
    ensures |b| == width
  {
    if width == 0 then [] else [n % 256] + LittleEndian(n / 256, width - 1)
  }

  function FromLittleEndian(b: seq<Byte>): (n: nat)
    ensures n < Pow2(8 * |b|)
  {
    if b == [] then 0
    else
      var rest := FromLittleEndian(b[1..]);
      assert Pow2(8 * |b|) == 256 * Pow2(8 * |b| - 8) by { Pow2Sum(8, 8 * |b| - 8); }
      b[0] + 256 * rest
  }

  function Header(fmtId: Word, timestamp: U64): (b: seq<Byte>)
    ensures |b| == HEADER_BYTES
  {
    LittleEndian(fmtId, 4) + LittleEndian(timestamp, 8)
  }

  function Encode(e: Entry): (b: seq<Byte>)
    ensures |b| == RECORD_BYTES
  {
    Header(e.fmtId, e.timestamp) + e.argData
  }

  function EncodeAll(es: seq<Entry>): (b: seq<Byte>)
    ensures |b| == RECORD_BYTES * |es|
  {
    if es == [] then [] else EncodeAll(es[..|es| - 1]) + Encode(es[|es| - 1])
  }

  function Decode(b: seq<Byte>): Record
    requires |b| == RECORD_BYTES
  {
    Powers();
    Record(FromLittleEndian(b[..4]), FromLittleEndian(b[4..12]), b[12..])
  }

  /** Reads a file back; None if it is not made of whole records. */
  function DecodeAll(b: seq<Byte>): Option<seq<Record>>
    decreases |b|
  {
    if b == [] then Some([])
    else if |b| < RECORD_BYTES then None
    else
      match DecodeAll(b[..|b| - RECORD_BYTES])
      case None => None
      case Some(rs) => Some(rs + [Decode(b[|b| - RECORD_BYTES..])])
  }

  function Records(es: seq<Entry>): (rs: seq<Record>)
    ensures |rs| == |es|
    ensures forall i :: 0 <= i < |es| ==> rs[i] == Record(es[i].fmtId, es[i].timestamp, es[i].argData)
  {
    seq(|es|, i requires 0 <= i < |es| => RecordOf(es[i]))
  }

  /** Byte k of a stored word: its k-th digit to the base 256, lowest first. */
  lemma {:induction false} LittleEndianAt(n: nat, width: nat, k: nat)
    requires k < width
    ensures LittleEndian(n, width)[k] == n / Pow2(8 * k) % 256
  {
    if k > 0 {
      LittleEndianAt(n / 256, width - 1, k - 1);
      Pow2Sum(8, 8 * (k - 1));
      assert Pow2(8 * k) == 256 * Pow2(8 * (k - 1));
      DivTwice(n, Pow2(8 * (k - 1)));
    }
  }

  lemma DivTwice(n: nat, p: nat)
    requires p > 0
    ensures n / 256 / p == n / (256 * p)
  {
    var q, r := n / 256 / p, n / 256 % p;
    assert n / 256 == q * p + r;
    assert n == q * (256 * p) + (256 * r + n % 256);
    ModUnique(n, 256 * p, q, 256 * r + n % 256);
  }

  /** The layout of a record in the file: format at 0, timestamp at 4, argument bytes
      at 12, the words with their lowest byte first. */
  lemma EncodeLayout(e: Entry)
    ensures forall k :: 0 <= k < 4 ==> Encode(e)[k] == e.fmtId / Pow2(8 * k) % 256
    ensures forall k :: 0 <= k < 8 ==> Encode(e)[4 + k] == e.timestamp / Pow2(8 * k) % 256
    ensures forall k :: 0 <= k < ARG_BYTES ==> Encode(e)[12 + k] == e.argData[k]
  {
    HeaderLayout(e.fmtId, e.timestamp);
    hide Header;
  }

  lemma HeaderLayout(fmtId: Word, timestamp: U64)
    ensures forall k :: 0 <= k < 4 ==> Header(fmtId, timestamp)[k] == fmtId / Pow2(8 * k) % 256
    ensures forall k :: 0 <= k < 8 ==> Header(fmtId, timestamp)[4 + k] == timestamp / Pow2(8 * k) % 256
  {
    hide LittleEndian;
    forall k | 0 <= k < 4
      ensures Header(fmtId, timestamp)[k] == fmtId / Pow2(8 * k) % 256
    {
      LittleEndianAt(fmtId, 4, k);
    }
    forall k | 0 <= k < 8
      ensures Header(fmtId, timestamp)[4 + k] == timestamp / Pow2(8 * k) % 256
    {
      LittleEndianAt(timestamp, 8, k);
    }
  }

  lemma Powers()
    ensures Pow2(32) == MODULUS && Pow2(64) == 0x1_0000_0000_0000_0000
  {
    Pow2Of32();
    Pow2Sum(32, 32);
  }

  lemma {:induction false} WordRoundTrip(n: nat, width: nat)
    requires n < Pow2(8 * width)
    ensures FromLittleEndian(LittleEndian(n, width)) == n
  {
    if width > 0 {
      Pow2Sum(8, 8 * width - 8);
      assert Pow2(8) == 256;
      assert n / 256 < Pow2(8 * (width - 1));
      WordRoundTrip(n / 256, width - 1);
    }
  }

  lemma DecodeOne(e: Entry)
    ensures Decode(Encode(e)) == RecordOf(e)
  {
    Powers();
    WordRoundTrip(e.fmtId, 4);
    WordRoundTrip(e.timestamp, 8);
    hide LittleEndian, FromLittleEndian;
    assert Encode(e)[..4] == LittleEndian(e.fmtId, 4);
    assert Encode(e)[4..12] == LittleEndian(e.timestamp, 8);
    assert Encode(e)[12..] == e.argData;
  }

  /** Nothing is lost in the bytes: reading them back gives the records. */
  lemma {:induction false} DecodeEncode(es: seq<Entry>)
    ensures DecodeAll(EncodeAll(es)) == Some(Records(es))
  {
    hide DecodeAll, EncodeAll, Encode, Records;
    if es == [] {
      NothingEncoded();
    } else {
      var n := |es| - 1;
      DecodeEncode(es[..n]);
      DecodeLast(EncodeAll(es[..n]), es[n]);
      EncodeNext(es, n);
      assert es[..n + 1] == es;
      assert Records(es) == Records(es[..n]) + [RecordOf(es[n])];
    }
  }

  lemma NothingEncoded()
    ensures EncodeAll([]) == [] && DecodeAll([]) == Some([]) && Records([]) == []
  {
  }

  /** A record more at the end of a file. */
  lemma DecodeLast(b: seq<Byte>, e: Entry)
    ensures DecodeAll(b + Encode(e)) ==
            match DecodeAll(b)
            case None => None
            case Some(rs) => Some(rs + [RecordOf(e)])
  {
    DecodeOne(e);
    hide Encode, Decode;
    var c := b + Encode(e);
    assert c[..|c| - RECORD_BYTES] == b;
    assert c[|c| - RECORD_BYTES..] == Encode(e);
  }

  lemma EncodeNone(es: seq<Entry>)
    ensures EncodeAll(es[..0]) == []
  {
  }

  lemma EncodeNext(es: seq<Entry>, k: nat)
    requires k < |es|
    ensures EncodeAll(es[..k + 1]) == EncodeAll(es[..k]) + Encode(es[k])
  {
    assert es[..k + 1][..k] == es[..k];
  }

  lemma {:induction false} EncodeSplit(es: seq<Entry>, fs: seq<Entry>)
    ensures EncodeAll(es + fs) == EncodeAll(es) + EncodeAll(fs)
  {
    hide Encode;
    if fs == [] {
      assert es + fs == es;
    } else {
      var n := |fs| - 1;
      assert (es + fs)[..|es| + n] == es + fs[..n];
      EncodeSplit(es, fs[..n]);
    }
  }

  lemma EncodePrefix(es: seq<Entry>, k: nat)
    requires RECORD_BYTES * k <= |EncodeAll(es)|
    ensures k <= |es| && EncodeAll(es)[..RECORD_BYTES * k] == EncodeAll(es[..k])
  {
    hide EncodeAll;
    EncodeSplit(es[..k], es[k..]);
    assert es[..k] + es[k..] == es;
  }
}
