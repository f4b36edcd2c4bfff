/**
 * Whole-buffer round trips: what one side of the framing layer writes, the
 * other side reads back unchanged, with the error flag clear and nothing
 * left over. Each client builds its own fresh buffers.
 */
module RoundTrips {
  import opened Wire
  import opened OutputBuffers
  import opened InputBuffers

  /** Every scalar writer is undone by the matching reader, in sequence. */
  method ScalarsRoundTrip(w: Word, d: Dword, i: Int32, q: Qword, l: Dword, maxPacket: int)
    returns (w': Word, d': Dword, i': Int32, q': Qword, l': Dword, failed: bool, left: nat)
    ensures w' == w && d' == d && i' == i && q' == q && l' == l
    ensures !failed && left == 0
  {
    var out := new CachedOutputBuffer();
    out.SendWord(w);
    out.SendDword(d);
    out.SendInt(i);
    out.SendUint64(q);
    out.SendLSBDword(l);
    var data := out.buf;
    assert data == WordBytes(w) + DwordBytes(d) + IntBytes(i) + QwordBytes(q) + LsbDwordBytes(l);
    assert data[0..2] == WordBytes(w);
    assert data[2..6] == DwordBytes(d);
    assert data[6..10] == IntBytes(i);
    assert data[10..18] == QwordBytes(q);
    assert data[18..22] == LsbDwordBytes(l);
    WordRoundTrip(w);
    DwordRoundTrip(d);
    IntRoundTrip(i);
    QwordRoundTrip(q);
    LsbDwordRoundTrip(l);

    var input := new InputBuffer(data, maxPacket);
    w' := input.GetWord();
    d' := input.GetDword();
    i' := input.GetInt();
    q' := input.GetUint64();
    l' := input.GetLSBDword();
    failed := input.GetError();
    left := input.HasBytes();
  }

  /** SendString then GetString, for a string within the packet bound. */
  method StringRoundTrip(s: seq<Byte>, maxPacket: int) returns (r: seq<Byte>, failed: bool, left: nat)
    requires |s| <= maxPacket && |s| < 0x8000_0000
    requires forall k :: 0 <= k < |s| ==> s[k] != 0
    ensures r == s && !failed && left == 0
  {
    var out := new CachedOutputBuffer();
    out.SendString(s, false);
    var data := out.buf;
    assert data[..4] == IntBytes(|s|);
    assert data[4..4 + |s|] == s;
    IntRoundTrip(|s|);

    var input := new InputBuffer(data, maxPacket);
    r := input.GetString();
    failed := input.GetError();
    left := input.HasBytes();
  }

  /** A string longer than g_iMaxPacketSize is refused by the reader even
      though the writer sends it: the error is raised after the length. */
  method OversizedStringRefused(s: seq<Byte>, maxPacket: int) returns (r: seq<Byte>, failed: bool, left: nat)
    requires maxPacket < |s| < 0x8000_0000
    requires forall k :: 0 <= k < |s| ==> s[k] != 0
    ensures r == [] && failed && left == |s|
  {
    var out := new CachedOutputBuffer();
    out.SendString(s, false);
    var data := out.buf;
    assert data[..4] == IntBytes(|s|);
    IntRoundTrip(|s|);

    var input := new InputBuffer(data, maxPacket);
    r := input.GetString();
    failed := input.GetError();
    left := input.HasBytes();
  }

  /** SendArray then GetArray, for fixed-size elements. */
  method ArrayRoundTrip(elems: seq<seq<Byte>>, size: nat, maxPacket: int)
    returns (r: seq<seq<Byte>>, failed: bool, left: nat)
    requires size > 0 && forall e :: e in elems ==> |e| == size
    requires |elems| * size < 0x8000_0000
    ensures r == elems && !failed && left == 0
  {
    var out := new CachedOutputBuffer();
    ArrayCountFits(elems, size);
    out.SendArray(elems);
    var data := out.buf;
    ArrayWire(elems, size, data);
    var input := new InputBuffer(data, maxPacket);
    assert input.cur == 0 && !input.error && 4 <= |input.data|;
    assert IntOf(input.data[0..4]) == |elems|;
    r := GetArray(input, size, []);
    if |elems| > 0 {
      assert r == Split(data[4..4 + |elems| * size], size);
    }
    failed := input.GetError();
    left := input.HasBytes();
  }

  lemma ArrayCountFits(elems: seq<seq<Byte>>, size: nat)
    requires size > 0 && |elems| * size < 0x8000_0000
    ensures ToInt32(|elems|) == |elems|
  {
    if elems != [] {
      MulAtLeast(|elems|, size);
    }
  }

  /** The bytes SendArray writes: the count, then the elements back to back. */
  lemma ArrayWire(elems: seq<seq<Byte>>, size: nat, data: seq<Byte>)
    requires size > 0 && forall e :: e in elems ==> |e| == size
    requires |elems| * size < 0x8000_0000
    requires data == [] + IntBytes(ToInt32(|elems|)) + Flatten(elems)
    ensures |data| == 4 + |elems| * size
    ensures IntOf(data[0..4]) == |elems|
    ensures |elems| > 0 ==> Split(data[4..4 + |elems| * size], size) == elems
  {
    ArrayCountFits(elems, size);
    FlattenLength(elems, size);
    assert data[..4] == IntBytes(|elems|);
    assert data[4..4 + |elems| * size] == Flatten(elems);
    IntRoundTrip(|elems|);
    SplitFlatten(elems, size);
  }

  /** A request framed by ReqLenCalc is read back as its command, version,
      body length and body. */
  method RequestRoundTrip(command: Word, version: Word, body: seq<Byte>, maxPacket: int)
    returns (cmd: Word, ver: Word, len: Int32, rest: seq<Byte>, failed: bool)
    requires |body| < 0x8000_0000
    ensures cmd == command && ver == version && len == |body| && !failed
    ensures rest == body
  {
    var data := EncodeRequest(command, version, body);
    assert data[0..2] == WordBytes(command);
    assert data[2..4] == WordBytes(version);
    assert data[4..8] == IntBytes(|body|);
    assert data[8..] == body;
    WordRoundTrip(command);
    WordRoundTrip(version);
    IntRoundTrip(|body|);

    var input := new InputBuffer(data, maxPacket);
    cmd := input.GetWord();
    ver := input.GetWord();
    len := input.GetInt();
    rest := input.data[input.cur..];
    failed := input.GetError();
  }
}
