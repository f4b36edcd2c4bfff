/**
 * The read side of the framing layer (InputBuffer_c): a cursor over an
 * immutable byte range with a sticky error flag. A read that does not fit
 * raises the flag and yields zero or empty; once raised, every later read
 * fails without moving the cursor.
 */
module InputBuffers {
  import opened Wire
  import opened OutputBuffers

  /** The big-endian dword stored at `off`. */
  function DwordAt(data: seq<Byte>, off: nat): Dword
    requires off + 4 <= |data|
  {
    DwordOf(data[off..off + 4])
  }

  /** The 64-bit value (high dword first) stored at `off`. */
  function QwordAt(data: seq<Byte>, off: nat): Qword
    requires off + 8 <= |data|
  {
    QwordOf(data[off..off + 8])
  }

  /** Consecutive `size`-byte elements of `bytes`, a short tail dropped
      (the inverse of Flatten). */
  function Split(bytes: seq<Byte>, size: nat): (elems: seq<seq<Byte>>)
    requires size > 0
    ensures forall e :: e in elems ==> |e| == size
    decreases |bytes|
  {
    if |bytes| < size then [] else [bytes[..size]] + Split(bytes[size..], size)
  }

  lemma {:induction false} SplitFlatten(elems: seq<seq<Byte>>, size: nat)
    requires size > 0
    requires forall e :: e in elems ==> |e| == size
    ensures Split(Flatten(elems), size) == elems
  {
    if elems != [] {
      forall e | e in elems[1..] ensures |e| == size {
        assert e in elems;
      }
      SplitFlatten(elems[1..], size);
      var f := Flatten(elems);
      assert f == elems[0] + Flatten(elems[1..]);
      assert f[..size] == elems[0];
      assert f[size..] == Flatten(elems[1..]);
      assert elems == [elems[0]] + elems[1..];
    }
  }

  class InputBuffer {
    /** The readable bytes from m_pBuf: m_iLen of them, or none when the
        buffer starts in error. */
    const data: seq<Byte>
    /** m_iLen, the declared length, kept even when it is negative or the
        pointer is null. */
    const len: int
    /** g_iMaxPacketSize, the configured bound on a declared length. */
    const maxPacket: int
    /** m_pCur - m_pBuf. */
    var cur: nat
    /** m_bError. */
    var error: bool

    /** The declared length describes the readable bytes unless the buffer
        started in error, and the flag is sticky. */
    ghost predicate Valid()
      reads this
    {
      cur <= |data| && (len == |data| || error)
    }

    /** InputBuffer_c(const BYTE*, int): an error from the start when the
        pointer is null or the length is negative (nothing is then readable),
        with the length kept as given. */
    constructor FromPointer(mem: seq<Byte>, isNull: bool, len: Int32, maxPacket: int)
      requires !isNull && len >= 0 ==> len <= |mem|
      ensures Valid() && cur == 0 && this.maxPacket == maxPacket && this.len == len
      ensures error <==> isNull || len < 0
      ensures data == if isNull || len < 0 then [] else mem[..len]
    {
      data := if isNull || len < 0 then [] else mem[..len];
      this.len := len;
      this.maxPacket := maxPacket;
      cur := 0;
      error := isNull || len < 0;
    }

    /** InputBuffer_c(const VecTraits_T<BYTE>&): an empty vector is an error. */
    constructor (vec: seq<Byte>, maxPacket: int)
      ensures Valid() && cur == 0 && data == vec && len == |vec| && this.maxPacket == maxPacket
      ensures error <==> vec == []
    {
      data := vec;
      len := |vec|;
      this.maxPacket := maxPacket;
      cur := 0;
      error := |vec| == 0;
    }

    /** Bytes left between the cursor and the declared end: the readable
        bytes after the cursor whenever the buffer did not start in error. */
    function HasBytes(): (n: int)
      reads this
      requires Valid()
      ensures len == |data| ==> n >= 0 && n + cur == |data|
    {
      len - cur
    }

    function GetError(): (e: bool)
      reads this
      ensures e == error
    {
      error
    }

    /** The declared length: the number of readable bytes whenever the
        buffer did not start in error. */
    function GetLength(): (n: int)
      reads this
      requires Valid()
      ensures !error ==> n == |data|
    {
      len
    }

    /** GetT<T>: read sizeof(T) raw bytes, or raise the flag, return zeros
        and leave the cursor where it is. */
    method GetT(size: nat) returns (bytes: seq<Byte>)
      requires Valid()
      modifies this
      ensures Valid() && |bytes| == size
      ensures !old(error) && old(cur) + size <= |data| ==>
                && bytes == data[old(cur)..old(cur) + size]
                && cur == old(cur) + size && !error
      ensures old(error) || old(cur) + size > |data| ==>
                && bytes == seq(size, _ => 0)
                && cur == old(cur) && error
    {
      if error || cur + size > |data| {
        error := true;
        return seq(size, _ => 0);
      }
      bytes := data[cur..cur + size];
      cur := cur + size;
    }

    method GetByte() returns (b: Byte)
      requires Valid()
      modifies this
      ensures Valid() && HasBytes() <= old(HasBytes())
      ensures !old(error) && old(cur) < |data| ==> b == data[old(cur)] && cur == old(cur) + 1 && !error
      ensures old(error) || old(cur) == |data| ==> b == 0 && cur == old(cur) && error
    {
      var bytes := GetT(1);
      b := bytes[0];
    }

    /** GetWord: ntohs of two bytes. */
    method GetWord() returns (w: Word)
      requires Valid()
      modifies this
      ensures Valid() && HasBytes() <= old(HasBytes())
      ensures !old(error) && old(cur) + 2 <= |data| ==>
                w == WordOf(data[old(cur)..old(cur) + 2]) && cur == old(cur) + 2 && !error
      ensures old(error) || old(cur) + 2 > |data| ==> w == 0 && cur == old(cur) && error
    {
      var bytes := GetT(2);
      w := WordOf(bytes);
    }

    /** GetDword: ntohl of four bytes. */
    method GetDword() returns (d: Dword)
      requires Valid()
      modifies this
      ensures Valid() && HasBytes() <= old(HasBytes())
      ensures !old(error) && old(cur) + 4 <= |data| ==>
                d == DwordAt(data, old(cur)) && cur == old(cur) + 4 && !error
      ensures old(error) || old(cur) + 4 > |data| ==> d == 0 && cur == old(cur) && error
    {
      var bytes := GetT(4);
      d := DwordOf(bytes);
    }

    /** GetInt: ntohl of four bytes read as `int`. */
    method GetInt() returns (i: Int32)
      requires Valid()
      modifies this
      ensures Valid() && HasBytes() <= old(HasBytes())
      ensures !old(error) && old(cur) + 4 <= |data| ==>
                i == IntOf(data[old(cur)..old(cur) + 4]) && cur == old(cur) + 4 && !error
      ensures old(error) || old(cur) + 4 > |data| ==> i == 0 && cur == old(cur) && error
    {
      var bytes := GetT(4);
      i := IntOf(bytes);
    }

    /** GetLSBDword: four single-byte reads, least significant first (the four
        calls taken left to right). A short range is consumed up to its end. */
    method GetLSBDword() returns (d: Dword)
      requires Valid()
      modifies this
      ensures Valid() && HasBytes() <= old(HasBytes())
      ensures !old(error) && old(cur) + 4 <= |data| ==>
                d == LsbDwordOf(data[old(cur)..old(cur) + 4]) && cur == old(cur) + 4 && !error
      ensures old(error) ==> cur == old(cur) && error && d == 0
      ensures !old(error) && old(cur) + 4 > |data| ==> cur == |data| && error
    {
      var b0 := GetByte();
      var b1 := GetByte();
      var b2 := GetByte();
      var b3 := GetByte();
      d := (b0 as int) + (b1 as int) * 0x100 + (b2 as int) * 0x1_0000 + (b3 as int) * 0x100_0000;
    }

    /** GetUint64: high dword, then low dword. If only the high dword fits,
        it is consumed and the result is that dword shifted up. */
    method GetUint64() returns (q: Qword)
      requires Valid()
      modifies this
      ensures Valid() && HasBytes() <= old(HasBytes())
      ensures !old(error) && old(cur) + 8 <= |data| ==>
                q == QwordAt(data, old(cur)) && cur == old(cur) + 8 && !error
      ensures old(error) || old(cur) + 4 > |data| ==> q == 0 && cur == old(cur) && error
      ensures !old(error) && old(cur) + 4 <= |data| < old(cur) + 8 ==>
                q == DwordAt(data, old(cur)) * TWO32 && cur == old(cur) + 4 && error
    {
      var hi := GetDword();
      var lo := GetDword();
      q := hi * TWO32 + lo;
      if !old(error) && old(cur) + 8 <= |data| {
        assert data[old(cur)..old(cur) + 8][..4] == data[old(cur)..old(cur) + 4];
        assert data[old(cur)..old(cur) + 8][4..] == data[old(cur) + 4..old(cur) + 8];
      }
    }

    /** The shared length check of the string decoders: not in error, length
        within [0, g_iMaxPacketSize], and the bytes present after `at`. */
    predicate LengthFits(at: nat, len: int)
      reads this
    {
      !error && 0 <= len <= maxPacket && at + len <= |data|
    }

    /** GetString: an `int` length, then that many bytes. */
    method GetString() returns (s: seq<Byte>)
      requires Valid()
      modifies this
      ensures Valid() && HasBytes() <= old(HasBytes())
      ensures var c := old(cur);
              var hdr := !old(error) && c + 4 <= |data|;
              var len := if hdr then IntOf(data[c..c + 4]) else 0;
              var ok := hdr && 0 <= len <= maxPacket && c + 4 + len <= |data|;
              && (ok ==> s == data[c + 4..c + 4 + len] && cur == c + 4 + len && !error)
              && (!ok ==> s == [] && error && cur == (if hdr then c + 4 else c))
    {
      var len := GetInt();
      if !LengthFits(cur, len) {
        error := true;
        return [];
      }
      s := data[cur..cur + len];
      cur := cur + len;
    }

    /** GetRawString: exactly `len` bytes, no length prefix. */
    method GetRawString(len: Int32) returns (s: seq<Byte>)
      requires Valid()
      modifies this
      ensures Valid() && HasBytes() <= old(HasBytes())
      ensures var ok := !old(error) && 0 <= len <= maxPacket && old(cur) + len <= |data|;
              && (ok ==> s == data[old(cur)..old(cur) + len] && cur == old(cur) + len && !error)
              && (!ok ==> s == [] && error && cur == old(cur))
    {
      if !LengthFits(cur, len) {
        error := true;
        return [];
      }
      s := data[cur..cur + len];
      cur := cur + len;
    }

    /** GetBytes: copy exactly `len` bytes out, or fail. */
    method GetBytes(len: Int32) returns (ok: bool, bytes: seq<Byte>)
      requires Valid() && len > 0
      modifies this
      ensures Valid() && HasBytes() <= old(HasBytes())
      ensures ok <==> !old(error) && old(cur) + len <= |data|
      ensures ok ==> bytes == data[old(cur)..old(cur) + len] && cur == old(cur) + len && !error
      ensures !ok ==> bytes == [] && error && cur == old(cur)
    {
      if error || cur + len > |data| {
        error := true;
        return false, [];
      }
      bytes := data[cur..cur + len];
      cur := cur + len;
      ok := true;
    }

    /** GetString(CSphVector<BYTE>&): an `int` length, then that many bytes
        appended to `dst`; a zero length succeeds and appends nothing. */
    method GetStringInto(dst: seq<Byte>) returns (ok: bool, res: seq<Byte>)
      requires Valid()
      modifies this
      ensures Valid() && HasBytes() <= old(HasBytes())
      ensures var c := old(cur);
              var hdr := !old(error) && c + 4 <= |data|;
              var len := if hdr then IntOf(data[c..c + 4]) else 0;
              && (ok <==> hdr && 0 <= len <= maxPacket && c + 4 + len <= |data|)
              && (ok ==> res == dst + data[c + 4..c + 4 + len] && cur == c + 4 + len && !error)
              && (!ok ==> res == dst && error && cur == (if hdr then c + 4 else c))
    {
      var len := GetInt();
      if !LengthFits(cur, len) {
        error := true;
        return false, dst;
      }
      if len == 0 {
        assert data[cur..cur] == [];
        return true, dst;
      }
      var bytes;
      ok, bytes := GetBytes(len);
      res := dst + bytes;
    }

    /** GetBytesZerocopy: the offset of `len` bytes inside the buffer, which
        the caller reads in place. */
    method GetBytesZerocopy(len: Int32) returns (ok: bool, at: nat)
      requires Valid() && len > 0
      modifies this
      ensures Valid() && HasBytes() <= old(HasBytes())
      ensures ok <==> !old(error) && old(cur) + len <= |data|
      ensures ok ==> at == old(cur) && cur == old(cur) + len && !error
      ensures !ok ==> error && cur == old(cur)
    {
      if error || cur + len > |data| {
        error := true;
        return false, 0;
      }
      at := cur;
      cur := cur + len;
      ok := true;
    }

    /** GetDwords: an `int` count in [0, iMax], then that many dwords.
        A count out of range fails before `dst` is touched; a short buffer
        empties it. `got` is the count as read. */
    method GetDwords(dst: seq<Dword>, max: Int32) returns (ok: bool, got: Int32, vals: seq<Dword>)
      requires Valid()
      modifies this
      ensures Valid() && HasBytes() <= old(HasBytes())
      ensures var c := old(cur);
              var hdr := !old(error) && c + 4 <= |data|;
              && got == (if hdr then IntOf(data[c..c + 4]) else 0)
              && (ok <==> hdr && 0 <= got <= max && c + 4 + 4 * got <= |data|)
              && (ok ==> && |vals| == got && cur == c + 4 + 4 * got
                         && forall i :: 0 <= i < got ==> vals[i] == DwordAt(data, c + 4 + 4 * i))
              && (!ok ==> error && vals == (if got < 0 || got > max then dst else []))
    {
      ghost var c := cur;
      ghost var hdr := !error && c + 4 <= |data|;
      got := GetInt();
      if got < 0 || got > max {
        error := true;
        return false, got, dst;
      }
      vals := [];
      var i := 0;
      while i < got
        invariant Valid() && 0 <= i <= got
        invariant old(cur) <= cur
        invariant !error ==> hdr && cur == c + 4 + 4 * i && |vals| == i
        invariant !error ==> forall j :: 0 <= j < i ==> vals[j] == DwordAt(data, c + 4 + 4 * j)
        invariant error ==> !hdr || c + 4 + 4 * got > |data|
      {
        var d := GetDword();
        vals := vals + [d];
        i := i + 1;
      }
      if error {
        vals := [];
      }
      ok := !error;
    }

    /** GetQwords: as GetDwords, with 64-bit elements. */
    method GetQwords(dst: seq<Qword>, max: Int32) returns (ok: bool, got: Int32, vals: seq<Qword>)
      requires Valid()
      modifies this
      ensures Valid() && HasBytes() <= old(HasBytes())
      ensures var c := old(cur);
              var hdr := !old(error) && c + 4 <= |data|;
              && got == (if hdr then IntOf(data[c..c + 4]) else 0)
              && (ok <==> hdr && 0 <= got <= max && c + 4 + 8 * got <= |data|)
              && (ok ==> && |vals| == got && cur == c + 4 + 8 * got
                         && forall i :: 0 <= i < got ==> vals[i] == QwordAt(data, c + 4 + 8 * i))
              && (!ok ==> error && vals == (if got < 0 || got > max then dst else []))
    {
      ghost var c := cur;
      ghost var hdr := !error && c + 4 <= |data|;
      got := GetInt();
      if got < 0 || got > max {
        error := true;
        return false, got, dst;
      }
      vals := [];
      var i := 0;
      while i < got
        invariant Valid() && 0 <= i <= got
        invariant old(cur) <= cur
        invariant !error ==> hdr && cur == c + 4 + 8 * i && |vals| == i
        invariant !error ==> forall j :: 0 <= j < i ==> vals[j] == QwordAt(data, c + 4 + 8 * j)
        invariant error ==> !hdr || c + 4 + 8 * got > |data|
      {
        var q := GetUint64();
        vals := vals + [q];
        i := i + 1;
      }
      if error {
        vals := [];
      }
      ok := !error;
    }
  }

  /** GetArray<T> over an input buffer: an `int` count (zero leaves `dst` as it
      was), then count * sizeof(T) raw bytes split into elements. A byte size
      that is not a positive `int` is a decoding error. */
  method GetArray(input: InputBuffer, size: nat, dst: seq<seq<Byte>>) returns (elems: seq<seq<Byte>>)
    requires input.Valid() && size > 0
    modifies input
    ensures input.Valid() && input.HasBytes() <= old(input.HasBytes())
    ensures var c := old(input.cur);
            var data := input.data;
            var hdr := !old(input.error) && c + 4 <= |data|;
            var count := if hdr then IntOf(data[c..c + 4]) else 0;
            var n := count * size;
            && (count == 0 ==> elems == dst && input.error == !hdr)
            && (hdr && count == 0 ==> input.cur == c + 4)
            && (0 < count && n < 0x8000_0000 && c + 4 + n <= |data| ==>
                  && elems == Split(data[c + 4..c + 4 + n], size)
                  && input.cur == c + 4 + n && !input.error)
            && (count < 0 || n >= 0x8000_0000 || c + 4 + n > |data| ==> input.error)
  {
    ghost var c := input.cur;
    var count := input.GetInt();
    var n := count * size;
    if count == 0 {
      return dst;
    }
    if count < 0 || n >= 0x8000_0000 {
      input.error := true;
      return [];
    }
    MulAtLeast(count, size);
    var ok, bytes := input.GetBytes(n);
    if ok {
      elems := Split(bytes, size);
    } else {
      elems := seq(count, _ => seq(size, _ => 0));
    }
  }

  /** A buffer built from a null pointer or a negative length reports the
      declared length as given, through GetLength and HasBytes alike (a
      negative count, or a positive one with nothing behind it), while every
      read fails. */
  method BrokenPointerKeepsLength(mem: seq<Byte>, isNull: bool, len: Int32, maxPacket: int)
    returns (length: int, left: int, b: Byte, failed: bool)
    requires !isNull && len >= 0 ==> len <= |mem|
    requires isNull || len < 0
    ensures length == len && left == len
    ensures b == 0 && failed
  {
    var input := new InputBuffer.FromPointer(mem, isNull, len, maxPacket);
    length := input.GetLength();
    b := input.GetByte();
    left := input.HasBytes();
    failed := input.GetError();
  }
}
