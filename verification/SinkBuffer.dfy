/** The byte buffer between the drainer and the file: a fixed block and a cursor. */
module SinkBuffers {
  import opened Words
  import opened LogRecords

  class SinkBuffer {
    const data: array<Byte>
    var cur: nat

    ghost predicate Valid()
      reads this
    {
      cur <= data.Length
    }

    /** The bytes up to the cursor. */
    ghost function Bytes(): seq<Byte>
      requires Valid()
      reads this, data
    {
      data[..cur]
    }

    constructor (size: nat)
      ensures Valid() && fresh(data)
      ensures data.Length == size && cur == 0
    {
      data := new Byte[size];
      cur := 0;
    }

    method Avail() returns (n: nat)
      requires Valid()
      ensures cur + n == data.Length
    {
      n := data.Length - cur;
    }

    method Length() returns (n: nat)
      requires Valid()
      ensures n == |Bytes()|
    {
      n := cur;
    }

    /** Copies without a check of its own: room is the caller's duty. */
    method Append(buf: seq<Byte>)
      requires Valid()
      requires cur + |buf| <= data.Length
      modifies this`cur, data
      ensures Valid() && cur == old(cur) + |buf|
      ensures Bytes() == old(Bytes()) + buf
    {
      forall i | 0 <= i < |buf| {
        data[cur + i] := buf[i];
      }
      cur := cur + |buf|;
    }

    /** Stores the two header words at the cursor, then moves it. */
    method PutHeader(fmtId: Word, timestamp: U64)
      requires Valid()
      requires cur + HEADER_BYTES <= data.Length
      modifies this`cur, data
      ensures Valid() && cur == old(cur) + HEADER_BYTES
      ensures Bytes() == old(Bytes()) + Header(fmtId, timestamp)
      ensures forall k :: 0 <= k < 4 ==> Bytes()[old(cur) + k] == fmtId / Pow2(8 * k) % 256
      ensures forall k :: 0 <= k < 8 ==> Bytes()[old(cur) + 4 + k] == timestamp / Pow2(8 * k) % 256
    {
      HeaderLayout(fmtId, timestamp);
      hide Header;
      var h := Header(fmtId, timestamp);
      forall i | 0 <= i < HEADER_BYTES {
        data[cur + i] := h[i];
      }
      Add(HEADER_BYTES);
    }

    method Add(len: nat)
      requires Valid()
      requires cur + len <= data.Length
      modifies this`cur
      ensures Valid() && cur == old(cur) + len
      ensures Bytes() == old(Bytes()) + data[old(cur)..old(cur) + len]
    {
      cur := cur + len;
    }

    method Reset()
      requires Valid()
      modifies this`cur
      ensures Valid() && cur == 0
      ensures Bytes() == []
    {
      cur := 0;
    }
  }
}
