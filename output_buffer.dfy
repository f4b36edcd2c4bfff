/**
 * The write side of the framing layer: an append-only byte vector with
 * network-order scalar writers (ISphOutputBuffer), the stack of deferred
 * length slots ("measured blobs", CachedOutputBuffer_c), the multi-chunk
 * buffer for scatter-gather sending (SmartOutputBuffer_t) and the API request
 * header guard (ReqLenCalc).
 */
module OutputBuffers {
  import opened Wire

  // -----------------------------------------------------------------------
  // Specification of the measured-length slots.
  // -----------------------------------------------------------------------

  /** Overwrite `b` in place at offset `off` (WriteT over sphUnalignedWrite). */
  function Patch(s: seq<Byte>, off: nat, b: seq<Byte>): (r: seq<Byte>)
    requires off + |b| <= |s|
    ensures |r| == |s|
    ensures r[off..off + |b|] == b
    ensures forall k :: 0 <= k < |s| && !(off <= k < off + |b|) ==> r[k] == s[k]
  {
    s[..off] + b + s[off + |b|..]
  }

  /** What a committed slot at `pos` holds in a buffer of `len` bytes:
      the number of bytes after the 4-byte slot, as an `int` in network order. */
  function SlotBytes(len: int, pos: int): (r: seq<Byte>)
    ensures |r| == 4
    ensures 0 <= len - pos - 4 < 0x8000_0000 ==> IntOf(r) == len - pos - 4
  {
    IntRoundTrip(ToInt32(len - pos - 4));
    IntBytes(ToInt32(len - pos - 4))
  }

  /** Every pending slot lies inside the buffer, and a later slot starts
      after the end of an earlier one (the stack grows with the buffer). */
  ghost predicate SlotsOk(buf: seq<Byte>, blobs: seq<nat>)
  {
    && (forall i :: 0 <= i < |blobs| ==> blobs[i] + 4 <= |buf|)
    && (forall i, j :: 0 <= i < j < |blobs| ==> blobs[i] + 4 <= blobs[j])
  }

  /** Byte `k` belongs to one of the pending slots. */
  ghost predicate InSlot(k: int, blobs: seq<nat>)
  {
    exists i :: 0 <= i < |blobs| && blobs[i] <= k < blobs[i] + 4
  }

  /** The buffer after the top slot is committed (CommitMeasuredLength). */
  function CommitTop(buf: seq<Byte>, blobs: seq<nat>): (r: seq<Byte>)
    requires SlotsOk(buf, blobs) && blobs != []
    ensures |r| == |buf|
    ensures SlotsOk(r, blobs[..|blobs| - 1])
  {
    var pos := blobs[|blobs| - 1];
    Patch(buf, pos, SlotBytes(|buf|, pos))
  }

  /** The buffer after every pending slot is committed, top first
      (CommitAllMeasuredLengths). */
  function CommitAll(buf: seq<Byte>, blobs: seq<nat>): (r: seq<Byte>)
    requires SlotsOk(buf, blobs)
    ensures |r| == |buf|
    decreases |blobs|
  {
    if blobs == [] then buf else CommitAll(CommitTop(buf, blobs), blobs[..|blobs| - 1])
  }

  /** Committing all pending slots leaves, in every slot, the number of bytes
      that follow it in the buffer, and touches no byte outside the slots. */
  lemma {:induction false} CommitAllFillsSlots(buf: seq<Byte>, blobs: seq<nat>)
    requires SlotsOk(buf, blobs)
    ensures |CommitAll(buf, blobs)| == |buf|
    ensures forall i :: 0 <= i < |blobs| ==>
              CommitAll(buf, blobs)[blobs[i]..blobs[i] + 4] == SlotBytes(|buf|, blobs[i])
    ensures forall k :: 0 <= k < |buf| && !InSlot(k, blobs) ==> CommitAll(buf, blobs)[k] == buf[k]
    decreases |blobs|
  {
    if blobs != [] {
      var n := |blobs|;
      var top, init := blobs[n - 1], blobs[..n - 1];
      var b1 := CommitTop(buf, blobs);
      var r := CommitAll(buf, blobs);
      assert r == CommitAll(b1, init);
      CommitAllFillsSlots(b1, init);
      forall k | top <= k < top + 4
        ensures r[k] == b1[k]
      {
        TopOutsideInit(buf, blobs, k);
      }
      assert r[top..top + 4] == b1[top..top + 4];
      forall i | 0 <= i < n
        ensures r[blobs[i]..blobs[i] + 4] == SlotBytes(|buf|, blobs[i])
      {
        if i < n - 1 {
          assert blobs[i] == init[i];
        }
      }
      forall k | 0 <= k < |buf| && !InSlot(k, blobs)
        ensures r[k] == buf[k]
      {
        OutsideAllSlots(blobs, k);
      }
    }
  }

  /** The bytes of the top slot lie outside every slot below it. */
  lemma TopOutsideInit(buf: seq<Byte>, blobs: seq<nat>, k: int)
    requires SlotsOk(buf, blobs) && blobs != []
    requires blobs[|blobs| - 1] <= k < blobs[|blobs| - 1] + 4
    ensures !InSlot(k, blobs[..|blobs| - 1])
  {
    var init := blobs[..|blobs| - 1];
    forall i | 0 <= i < |init| ensures !(init[i] <= k < init[i] + 4) {
      assert init[i] == blobs[i];
    }
  }

  /** A byte outside all slots is outside the top one and the ones below. */
  lemma OutsideAllSlots(blobs: seq<nat>, k: int)
    requires blobs != [] && !InSlot(k, blobs)
    ensures !(blobs[|blobs| - 1] <= k < blobs[|blobs| - 1] + 4)
    ensures !InSlot(k, blobs[..|blobs| - 1])
  {
    var init := blobs[..|blobs| - 1];
    assert !(blobs[|blobs| - 1] <= k < blobs[|blobs| - 1] + 4);
    forall i | 0 <= i < |init| ensures !(init[i] <= k < init[i] + 4) {
      assert init[i] == blobs[i];
    }
  }

  /** Total of the lengths of a list of chunks. */
  function SumLengths(chunks: seq<seq<Byte>>): nat
  {
    if chunks == [] then 0 else SumLengths(chunks[..|chunks| - 1]) + |chunks[|chunks| - 1]|
  }

  /** The chunks laid end to end, as they go out on the wire. */
  function Concat(chunks: seq<seq<Byte>>): (r: seq<Byte>)
    ensures |r| == SumLengths(chunks)
  {
    if chunks == [] then [] else Concat(chunks[..|chunks| - 1]) + chunks[|chunks| - 1]
  }

  /** Raw element bytes of an array, element after element. */
  function Flatten(elems: seq<seq<Byte>>): seq<Byte>
  {
    if elems == [] then [] else elems[0] + Flatten(elems[1..])
  }

  lemma FlattenLength(elems: seq<seq<Byte>>, size: nat)
    requires forall e :: e in elems ==> |e| == size
    ensures |Flatten(elems)| == |elems| * size
  {
    FlattenLengthAt(elems, size);
  }

  lemma {:induction false} FlattenLengthAt(elems: seq<seq<Byte>>, size: nat)
    requires forall i :: 0 <= i < |elems| ==> |elems[i]| == size
    ensures |Flatten(elems)| == |elems| * size
  {
    if elems != [] {
      var rest := elems[1..];
      assert forall i :: 0 <= i < |rest| ==> rest[i] == elems[i + 1];
      FlattenLengthAt(rest, size);
      assert |Flatten(elems)| == size + |rest| * size;
      assert |elems| * size == (|rest| + 1) * size == |rest| * size + size;
    }
  }

  // -----------------------------------------------------------------------
  // ISphOutputBuffer + CachedOutputBuffer_c.
  // -----------------------------------------------------------------------

  /** A byte vector with a stack of pending length slots. The base class
      ISphOutputBuffer is the same buffer with the stack never used. */
  class CachedOutputBuffer {
    var buf: seq<Byte>
    /** m_dBlobs: offsets of the reserved slots, innermost last. */
    var blobs: seq<nat>

    ghost predicate Valid()
      reads this
    {
      SlotsOk(buf, blobs)
    }

    constructor ()
      ensures Valid() && buf == [] && blobs == []
    {
      buf := [];
      blobs := [];
    }

    /** Bytes written so far (GetSentCount). */
    function GetSentCount(): (n: nat)
      reads this
      ensures n == |buf|
    {
      |buf|
    }

    function BlobsEmpty(): (r: bool)
      reads this
      ensures r <==> blobs == []
    {
      |blobs| == 0
    }

    /** SendT: grow the vector by sizeof(T) and write the value's bytes there. */
    method SendT(bytes: seq<Byte>)
      requires Valid()
      modifies this
      ensures Valid() && blobs == old(blobs)
      ensures buf == old(buf) + bytes
    {
      buf := buf + bytes;
    }

    method SendByte(b: Byte)
      requires Valid()
      modifies this
      ensures Valid() && blobs == old(blobs)
      ensures buf == old(buf) + [b]
    {
      SendT([b]);
    }

    /** SendWord: exactly 2 bytes, big-endian. */
    method SendWord(w: Word)
      requires Valid()
      modifies this
      ensures Valid() && blobs == old(blobs)
      ensures buf == old(buf) + WordBytes(w)
      ensures |buf| == |old(buf)| + 2
    {
      SendT(WordBytes(w));
    }

    /** SendDword: exactly 4 bytes, big-endian. */
    method SendDword(d: Dword)
      requires Valid()
      modifies this
      ensures Valid() && blobs == old(blobs)
      ensures buf == old(buf) + DwordBytes(d)
      ensures |buf| == |old(buf)| + 4
    {
      SendT(DwordBytes(d));
    }

    /** SendInt: the `int` bit pattern, 4 bytes big-endian. */
    method SendInt(i: Int32)
      requires Valid()
      modifies this
      ensures Valid() && blobs == old(blobs)
      ensures buf == old(buf) + IntBytes(i)
      ensures |buf| == |old(buf)| + 4
    {
      SendT(IntBytes(i));
    }

    /** SendAsDword: the value clamped to [0, UINT_MAX], then SendDword. */
    method SendAsDword(v: Int64)
      requires Valid()
      modifies this
      ensures Valid() && blobs == old(blobs)
      ensures buf == old(buf) + DwordBytes(ClampToDword(v))
    {
      var d := if v < 0 then 0 else if v > DWORD_MAX then DWORD_MAX else v;
      SendDword(d);
    }

    /** SendLSBDword: four single bytes, least significant first. */
    method SendLSBDword(v: Dword)
      requires Valid()
      modifies this
      ensures Valid() && blobs == old(blobs)
      ensures buf == old(buf) + LsbDwordBytes(v)
    {
      SendByte(v % 0x100);
      SendByte((v / 0x100) % 0x100);
      SendByte((v / 0x1_0000) % 0x100);
      SendByte((v / 0x100_0000) % 0x100);
    }

    /** SendUint64(uint64_t): high dword, then low dword, each in network order. */
    method SendUint64(q: Qword)
      requires Valid()
      modifies this
      ensures Valid() && blobs == old(blobs)
      ensures buf == old(buf) + QwordBytes(q)
    {
      SendT(DwordBytes(q / TWO32));
      SendT(DwordBytes(q % TWO32));
    }

    /** SendUint64(int64_t): the value reinterpreted as uint64_t. */
    method SendInt64(i: Int64)
      requires Valid()
      modifies this
      ensures Valid() && blobs == old(blobs)
      ensures buf == old(buf) + QwordBytes(Int64Bits(i))
    {
      SendUint64(i % TWO64);
    }

    /** SendBytes: raw payload, no length prefix. */
    method SendBytes(bytes: seq<Byte>)
      requires Valid()
      modifies this
      ensures Valid() && blobs == old(blobs)
      ensures buf == old(buf) + bytes
    {
      buf := buf + bytes;
    }

    /** SendString: `int` length (0 for a null string), then the bytes.
        The argument is a C string, so its length is that of a NUL-free run. */
    method SendString(s: seq<Byte>, isNull: bool)
      requires Valid()
      requires isNull ==> s == []
      requires forall k :: 0 <= k < |s| ==> s[k] != 0
      modifies this
      ensures Valid() && blobs == old(blobs)
      ensures buf == old(buf) + IntBytes(ToInt32(|s|)) + s
    {
      var len := if isNull then 0 else |s|;
      SendInt(ToInt32(len));
      SendBytes(s);
    }

    /** SendArray<T>: the element count as `int`, then the raw element bytes. */
    method SendArray(elems: seq<seq<Byte>>)
      requires Valid()
      modifies this
      ensures Valid() && blobs == old(blobs)
      ensures buf == old(buf) + IntBytes(ToInt32(|elems|)) + Flatten(elems)
    {
      SendInt(ToInt32(|elems|));
      if |elems| != 0 {
        SendBytes(Flatten(elems));
      }
    }

    /** WriteInt: overwrite 4 bytes at `off` with an `int` in network order. */
    method WriteInt(off: nat, i: Int32)
      requires Valid() && off + 4 <= |buf|
      modifies this
      ensures Valid() && blobs == old(blobs)
      ensures buf == Patch(old(buf), off, IntBytes(i))
    {
      buf := Patch(buf, off, IntBytes(i));
    }

    /** Reserve a zero `int` slot, push its offset, return the offset. */
    method StartMeasureLength() returns (pos: nat)
      requires Valid()
      modifies this
      ensures Valid()
      ensures pos == |old(buf)|
      ensures buf == old(buf) + [0, 0, 0, 0]
      ensures blobs == old(blobs) + [pos]
    {
      pos := |buf|;
      SendInt(0);
      blobs := blobs + [pos];
    }

    /** Pop the innermost slot and write into it the number of bytes after it.
        With no slot pending (a flush already committed it) nothing happens. */
    method CommitMeasuredLength(stored: int)
      requires Valid()
      requires blobs != [] ==> stored == -1 || stored == blobs[|blobs| - 1]
      modifies this
      ensures Valid()
      ensures old(blobs) == [] ==> buf == old(buf) && blobs == []
      ensures old(blobs) != [] ==>
                && blobs == old(blobs)[..|old(blobs)| - 1]
                && buf == CommitTop(old(buf), old(blobs))
                && var pos := old(blobs)[|old(blobs)| - 1];
                   buf[pos..pos + 4] == SlotBytes(|buf|, pos)
    {
      if |blobs| == 0 {
        return;
      }
      var pos := blobs[|blobs| - 1];
      blobs := blobs[..|blobs| - 1];
      var len := |buf| - pos - 4;
      WriteInt(pos, ToInt32(len));
    }

    /** Commit every pending slot, innermost first, leaving the stack empty. */
    method CommitAllMeasuredLengths()
      requires Valid()
      modifies this
      ensures Valid() && blobs == []
      ensures buf == CommitAll(old(buf), old(blobs))
    {
      while |blobs| != 0
        invariant Valid()
        invariant CommitAll(buf, blobs) == CommitAll(old(buf), old(blobs))
        decreases |blobs|
      {
        var pos := blobs[|blobs| - 1];
        ghost var before, stack := buf, blobs;
        blobs := blobs[..|blobs| - 1];
        var len := |buf| - pos - 4;
        WriteInt(pos, ToInt32(len));
        assert buf == CommitTop(before, stack);
      }
    }

    /** Flush: commit what is pending (the base Flush sends nothing). */
    method Flush()
      requires Valid()
      modifies this
      ensures Valid() && blobs == []
      ensures buf == CommitAll(old(buf), old(blobs))
    {
      CommitAllMeasuredLengths();
    }

    /** SwapData: commit what is pending, then exchange the bytes with `rhs`. */
    method SwapData(rhs: seq<Byte>) returns (mine: seq<Byte>)
      requires Valid()
      modifies this
      ensures Valid() && blobs == []
      ensures mine == CommitAll(old(buf), old(blobs))
      ensures buf == rhs
    {
      CommitAllMeasuredLengths();
      mine := buf;
      buf := rhs;
    }

    /** m_dBuf.Reset(): empty the byte vector and leave the pending slots as
        they are; the slots stay consistent only when none is pending. */
    method ResetBytes()
      modifies this
      ensures buf == [] && blobs == old(blobs)
      ensures Valid() <==> blobs == []
    {
      buf := [];
      if blobs != [] {
        assert !(blobs[0] + 4 <= |buf|);
      }
    }
  }

  // -----------------------------------------------------------------------
  // ReqLenCalc (APICommand_t): command word, version word, measured length.
  // -----------------------------------------------------------------------

  class ReqLenCalc {
    const out: CachedOutputBuffer
    const pos: nat

    /** The guard's constructor: header words, then a slot for the body length. */
    constructor (out: CachedOutputBuffer, command: Word, version: Word)
      requires out.Valid()
      modifies out
      ensures this.out == out && out.Valid()
      ensures pos == |old(out.buf)| + 4
      ensures out.buf == old(out.buf) + WordBytes(command) + WordBytes(version) + [0, 0, 0, 0]
      ensures out.blobs == old(out.blobs) + [pos]
    {
      this.out := out;
      out.SendWord(command);
      out.SendWord(version);
      var p := out.StartMeasureLength();
      this.pos := p;
    }

    /** The guard's destructor: commit the slot it opened. */
    method Close()
      requires out.Valid()
      requires out.blobs != [] ==> out.blobs[|out.blobs| - 1] == pos
      modifies out
      ensures out.Valid()
      ensures old(out.blobs) != [] ==>
                && out.blobs == old(out.blobs)[..|old(out.blobs)| - 1]
                && out.buf == CommitTop(old(out.buf), old(out.blobs))
      ensures old(out.blobs) == [] ==> out.buf == old(out.buf) && out.blobs == []
    {
      out.CommitMeasuredLength(pos);
    }
  }

  /** A request built inside one guard: the header carries command, version
      and the exact length of the body written in the guard's scope. */
  lemma RequestHeaderHoldsBodyLength(prefix: seq<Byte>, blobs: seq<nat>, command: Word, version: Word,
                                     body: seq<Byte>)
    requires SlotsOk(prefix, blobs) && |body| < 0x8000_0000
    ensures SlotsOk(prefix + WordBytes(command) + WordBytes(version) + [0, 0, 0, 0] + body,
                    blobs + [|prefix| + 4])
    ensures CommitTop(prefix + WordBytes(command) + WordBytes(version) + [0, 0, 0, 0] + body,
                      blobs + [|prefix| + 4])
            == prefix + WordBytes(command) + WordBytes(version) + IntBytes(|body|) + body
  {
    var head := prefix + WordBytes(command) + WordBytes(version);
    var full := head + [0, 0, 0, 0] + body;
    var stack := blobs + [|prefix| + 4];
    assert SlotsOk(full, stack) by {
      forall i, j | 0 <= i < j < |stack| ensures stack[i] + 4 <= stack[j] {
        if j == |stack| - 1 {
          assert stack[i] == blobs[i];
        }
      }
    }
    var r := CommitTop(full, stack);
    assert SlotBytes(|full|, |head|) == IntBytes(|body|);
    assert r == full[..|head|] + IntBytes(|body|) + full[|head| + 4..];
    assert full[..|head|] == head;
    assert full[|head| + 4..] == body;
  }

  /** Building one API request on a fresh buffer yields exactly
      command, version, body length and body. */
  method EncodeRequest(command: Word, version: Word, body: seq<Byte>) returns (wire: seq<Byte>)
    requires |body| < 0x8000_0000
    ensures wire == WordBytes(command) + WordBytes(version) + IntBytes(|body|) + body
    ensures |wire| == |body| + 8
  {
    var out := new CachedOutputBuffer();
    var guard := new ReqLenCalc(out, command, version);
    assert out.blobs == [4] && guard.pos == 4;
    out.SendBytes(body);
    RequestHeaderHoldsBodyLength([], [], command, version, body);
    assert out.buf == [] + WordBytes(command) + WordBytes(version) + [0, 0, 0, 0] + body;
    guard.Close();
    wire := out.buf;
  }

  // -----------------------------------------------------------------------
  // SmartOutputBuffer_t: sealed chunks plus the active buffer.
  // -----------------------------------------------------------------------

  class SmartOutputBuffer {
    /** The active cached buffer (the inherited part of SmartOutputBuffer_t). */
    const active: CachedOutputBuffer
    /** m_dChunks: sealed buffers, oldest first. */
    var chunks: seq<seq<Byte>>

    ghost predicate Valid()
      reads this, active
    {
      active.Valid()
    }

    constructor ()
      ensures Valid() && fresh(active)
      ensures chunks == [] && active.buf == [] && active.blobs == []
    {
      active := new CachedOutputBuffer();
      chunks := [];
    }

    /** Bytes held: all sealed chunks plus the active buffer. */
    function GetSentCount(): (n: nat)
      reads this, active
      ensures n == |Concat(chunks) + active.buf|
    {
      SumLengths(chunks) + |active.buf|
    }

    /** Commit pending slots, seal the active bytes as a new chunk, start empty. */
    method StartNewChunk()
      requires Valid()
      modifies this, active
      ensures Valid()
      ensures chunks == old(chunks) + [CommitAll(old(active.buf), old(active.blobs))]
      ensures active.buf == [] && active.blobs == []
      ensures GetSentCount() == old(GetSentCount())
    {
      active.CommitAllMeasuredLengths();
      var sealed := active.SwapData([]);
      chunks := chunks + [sealed];
      assert chunks[..|chunks| - 1] == old(chunks);
    }

    /** GetIOVec: one entry per sealed chunk, then the active bytes when there
        are any; returns the total size. */
    method GetIOVec() returns (iov: seq<seq<Byte>>, size: nat)
      requires Valid()
      ensures iov == chunks + (if active.buf == [] then [] else [active.buf])
      ensures Concat(iov) == Concat(chunks) + active.buf
      ensures size == |Concat(iov)| == GetSentCount()
    {
      iov := [];
      size := 0;
      var i := 0;
      while i < |chunks|
        invariant 0 <= i <= |chunks|
        invariant iov == chunks[..i]
        invariant size == SumLengths(iov)
      {
        assert chunks[..i + 1][..i] == chunks[..i];
        iov := iov + [chunks[i]];
        size := size + |chunks[i]|;
        i := i + 1;
      }
      assert chunks[..i] == chunks;
      if |active.buf| != 0 {
        assert (iov + [active.buf])[..|iov|] == iov;
        iov := iov + [active.buf];
        size := size + |active.buf|;
      }
    }

    /** Release every chunk and empty the active byte vector. The open length
        slots are not cleared: a slot still open afterwards points past the
        emptied buffer, so committing it later would patch bytes that are no
        longer there. */
    method Reset()
      requires Valid()
      modifies this, active
      ensures chunks == [] && active.buf == [] && active.blobs == old(active.blobs)
      ensures Valid() <==> old(active.blobs) == []
      ensures GetSentCount() == 0
    {
      chunks := [];
      active.ResetBytes();
    }
  }
}
