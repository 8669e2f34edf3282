/** lib/messageProcessing.js: JSON text framed by a 4-byte little-endian byte
    length (`jsonStr2Buffer`), the streaming decoder that reassembles frames
    split across reads and keeps the unfinished one per connection
    (`readJson` and its `instanceMap`), and buffer concatenation
    (`concatBufferAndroid`). The payload of a frame is handed to the handler
    as bytes; `JSON.parse` is not modelled. */
module MessageProcessing {
  import opened Wrappers
  import opened JsonValue

  type Byte = b: int | 0 <= b < 256

  const TWO_32: int := 0x1_0000_0000

  // ---------------------------------------------------------------------
  // Encoding
  // ---------------------------------------------------------------------

  /** The UTF-8 bytes of one code point. */
  function Utf8Char(c: char): (r: seq<Byte>)
    ensures 1 <= |r| <= 4
  {
    var cp := c as int;
    if cp < 0x80 then [cp]
    else if cp < 0x800 then [0xC0 + cp / 64, 0x80 + cp % 64]
    else if cp < 0x10000 then [0xE0 + cp / 4096, 0x80 + (cp / 64) % 64, 0x80 + cp % 64]
    else [0xF0 + cp / 262144, 0x80 + (cp / 4096) % 64, 0x80 + (cp / 64) % 64, 0x80 + cp % 64]
  }

  /** `Buffer.from(s, 'utf8')`: the UTF-8 encoding of a string. */
  function Utf8(s: string): (r: seq<Byte>)
    ensures |r| >= |s|
    decreases |s|
  {
    if s == [] then [] else Utf8(s[..|s| - 1]) + Utf8Char(s[|s| - 1])
  }

  /** `writeUInt32LE(n, 0)`: n as four bytes, least significant first. */
  function Le32(n: nat): (r: seq<Byte>)
    requires n < TWO_32
    ensures |r| == 4
  {
    [n % 256, (n / 256) % 256, (n / 65536) % 256, n / 16777216]
  }

  /** `readUInt32LE`: the number four bytes hold, least significant first. */
  function Le32Value(b: seq<Byte>): (n: nat)
    requires |b| == 4
    ensures n < TWO_32
  {
    b[0] as int + 256 * (b[1] as int) + 65536 * (b[2] as int) + 16777216 * (b[3] as int)
  }

  lemma Le32RoundTrip(n: nat)
    requires n < TWO_32
    ensures Le32Value(Le32(n)) == n
  {
    var b := Le32(n);
    assert n == n % 256 + 256 * (n / 256);
    assert n / 256 == (n / 256) % 256 + 256 * (n / 65536);
    assert n / 65536 == (n / 65536) % 256 + 256 * (n / 16777216);
  }

  /** A payload behind its 4-byte little-endian length prefix. */
  function Packet(p: seq<Byte>): (r: seq<Byte>)
    requires |p| < TWO_32
    ensures |r| == 4 + |p|
    ensures Le32Value(r[..4]) == |p| && r[4..] == p
  {
    Le32RoundTrip(|p|);
    assert (Le32(|p|) + p)[..4] == Le32(|p|);
    Le32(|p|) + p
  }

  /** The frame for a JSON text: the packet of its UTF-8 bytes. */
  function Frame(s: string): seq<Byte>
    requires |Utf8(s)| < TWO_32
  {
    Packet(Utf8(s))
  }

  /** `jsonStr2Buffer(jsonString)`: a fresh buffer holding the frame. A text
      whose byte length does not fit the 32-bit prefix makes
      `writeUInt32LE` throw. */
  method JsonStr2Buffer(jsonString: string) returns (r: Result<array<Byte>>)
    ensures r.Throws? <==> |Utf8(jsonString)| >= TWO_32
    ensures r.Ok? ==> fresh(r.value) && r.value[..] == Frame(jsonString)
  {
    var bytes := Utf8(jsonString);
    var strByteLen := |bytes|;
    if strByteLen >= TWO_32 {
      return Throws("RangeError");
    }
    var buf := new Byte[4 + strByteLen];
    var prefix := Le32(strByteLen);
    buf[0], buf[1], buf[2], buf[3] := prefix[0], prefix[1], prefix[2], prefix[3];
    for i := 0 to strByteLen
      invariant buf[..4] == prefix
      invariant buf[4..4 + i] == bytes[..i]
    {
      buf[4 + i] := bytes[i];
      assert buf[4..4 + i + 1] == buf[4..4 + i] + [buf[4 + i]];
    }
    assert buf[..] == buf[..4] + buf[4..4 + strByteLen];
    return Ok(buf);
  }

  // ---------------------------------------------------------------------
  // Decoding
  // ---------------------------------------------------------------------

  /** An unfinished frame saved for a connection: how many bytes it still
      lacks and the bytes read so far. */
  datatype Partial = Partial(restLen: nat, part: seq<Byte>)

  /** The outcome of one `readJson` call: the payloads handed to the handler,
      the unfinished frame left for the next call, and whether
      `readUInt32LE` threw because fewer than four bytes remained for a
      length prefix. */
  datatype ReadResult = ReadResult(calls: seq<seq<Byte>>, saved: Option<Partial>, threw: bool)

  /** The number of bytes of a frame body available from `off`: all `len`
      when they are there, the rest of the buffer otherwise. */
  function Available(buf: seq<Byte>, off: nat, len: nat): (n: nat)
    requires off <= |buf|
    ensures n <= len && off + n <= |buf|
    ensures n == len || off + n == |buf|
  {
    if off + len < |buf| then len else |buf| - off
  }

  /** What one pass of the loop body reads: the frame length, how many of
      its bytes are there, the bytes gathered and the offset after them; or
      the failure to read a length prefix. */
  datatype Pass = Pass(len: nat, n: nat, acc: seq<Byte>, next: nat) | HeaderMissing

  /** One pass of the loop body of `readJson` at offset `off`: the rest of a
      saved frame, or a new length prefix and as much of its body as there is. */
  function Body(buf: seq<Byte>, saved: Option<Partial>, off: nat): (p: Pass)
    requires off <= |buf|
    ensures p.Pass? ==> p.n <= p.len && p.next <= |buf| && (p.n == p.len || p.next == |buf|)
    ensures p.Pass? && saved.None? ==> p.next >= off + 4
    ensures p.Pass? && saved.Some? ==> p.next == off + p.n
    ensures p.HeaderMissing? <==> saved.None? && off + 4 > |buf|
  {
    if saved.Some? then
      var len := saved.value.restLen;
      var n := Available(buf, off, len);
      Pass(len, n, saved.value.part + buf[off..off + n], off + n)
    else if off + 4 > |buf| then HeaderMissing
    else
      var len := Le32Value(buf[off..off + 4]);
      var n := Available(buf, off + 4, len);
      Pass(len, n, buf[off + 4..off + 4 + n], off + 4 + n)
  }

  /** The `for (;;)` loop of `readJson` from offset `off`, with `saved` the
      entry of `instanceMap` for this connection: an unfinished frame is
      saved and ends the call, a finished one goes to the handler, and the
      call ends when the buffer is used up. */
  function ReadLoop(buf: seq<Byte>, saved: Option<Partial>, off: nat, calls: seq<seq<Byte>>): (r: ReadResult)
    requires off <= |buf|
    ensures r.threw ==> r.saved.None?
    decreases |buf| - off, if saved.Some? then 1 else 0
  {
    var p := Body(buf, saved, off);
    if p.HeaderMissing? then ReadResult(calls, None, true)
    else if p.n < p.len then ReadResult(calls, Some(Partial(p.len - p.n, p.acc)), false)
    else if p.next >= |buf| then ReadResult(calls + [p.acc], None, false)
    else ReadLoop(buf, None, p.next, calls + [p.acc])
  }

  /** Handler calls already made are never taken back: the loop only
      appends to the list of payloads handed over. */
  lemma {:induction false} ReadLoopExtends(buf: seq<Byte>, saved: Option<Partial>, off: nat, calls: seq<seq<Byte>>)
    requires off <= |buf|
    ensures calls <= ReadLoop(buf, saved, off, calls).calls
    decreases |buf| - off, if saved.Some? then 1 else 0
  {
    var p := Body(buf, saved, off);
    if p.Pass? && p.n >= p.len && p.next < |buf| {
      ReadLoopExtends(buf, None, p.next, calls + [p.acc]);
    }
  }

  /** `readJson` on a buffer given what was saved for the connection. A
      fresh connection given fewer than four bytes throws in
      `readUInt32LE`; a saved frame that the buffer still does not complete
      is saved again with the buffer appended. */
  function ReadJsonSpec(saved: Option<Partial>, buf: seq<Byte>): (r: ReadResult)
    ensures saved.None? && |buf| < 4 ==> r == ReadResult([], None, true)
    ensures saved.Some? && |buf| < saved.value.restLen ==>
              r == ReadResult([], Some(Partial(saved.value.restLen - |buf|, saved.value.part + buf)), false)
  {
    assert buf[0..0 + |buf|] == buf;
    ReadLoop(buf, saved, 0, [])
  }

  /** Payloads short enough for a 32-bit length prefix. */
  predicate Fits(ps: seq<seq<Byte>>) {
    forall i :: 0 <= i < |ps| ==> |ps[i]| < TWO_32
  }

  /** Several packets back to back. */
  function Packets(ps: seq<seq<Byte>>): seq<Byte>
    requires Fits(ps)
  {
    if ps == [] then [] else Packet(ps[0]) + Packets(ps[1..])
  }

  /** The payloads a list of texts is encoded to. */
  function Payloads(ss: seq<string>): (r: seq<seq<Byte>>)
    ensures |r| == |ss| && forall i :: 0 <= i < |ss| ==> r[i] == Utf8(ss[i])
  {
    seq(|ss|, i requires 0 <= i < |ss| => Utf8(ss[i]))
  }

  /** The frames of several texts back to back. */
  function Frames(ss: seq<string>): seq<Byte>
    requires forall i :: 0 <= i < |ss| ==> |Utf8(ss[i])| < TWO_32
  {
    Packets(Payloads(ss))
  }

  /** One complete packet at `off` is handed to the handler, and reading
      goes on after it unless the buffer ends there. */
  lemma ReadOnePacket(buf: seq<Byte>, off: nat, p: seq<Byte>, calls: seq<seq<Byte>>)
    requires |p| < TWO_32
    requires off + |Packet(p)| <= |buf| && buf[off..off + |Packet(p)|] == Packet(p)
    ensures var next := off + |Packet(p)|;
            ReadLoop(buf, None, off, calls) ==
              if next >= |buf| then ReadResult(calls + [p], None, false)
              else ReadLoop(buf, None, next, calls + [p])
  {
    var f := Packet(p);
    assert buf[off..off + 4] == f[..4];
    assert buf[off + 4..off + |f|] == f[4..];
  }

  /** A packet that ends the buffer: its payload is the last handler call. */
  lemma ReadLastPacket(buf: seq<Byte>, off: nat, p: seq<Byte>, calls: seq<seq<Byte>>)
    requires |p| < TWO_32
    requires off <= |buf| && buf[off..] == Packet(p)
    ensures ReadLoop(buf, None, off, calls) == ReadResult(calls + [p], None, false)
  {
    assert buf[off..off + |Packet(p)|] == buf[off..];
    ReadOnePacket(buf, off, p, calls);
  }

  /** A packet followed by more bytes: its payload goes to the handler and
      reading resumes right after it. */
  lemma ReadPacketThenMore(buf: seq<Byte>, off: nat, p: seq<Byte>, more: seq<Byte>, calls: seq<seq<Byte>>)
    requires |p| < TWO_32
    requires off <= |buf| && buf[off..] == Packet(p) + more && more != []
    ensures off + |Packet(p)| < |buf| && buf[off + |Packet(p)|..] == more
    ensures ReadLoop(buf, None, off, calls) == ReadLoop(buf, None, off + |Packet(p)|, calls + [p])
  {
    SliceSplit(buf, off, Packet(p), more);
    ReadOnePacket(buf, off, p, calls);
  }

  lemma SliceSplit(buf: seq<Byte>, off: nat, x: seq<Byte>, y: seq<Byte>)
    requires off <= |buf| && buf[off..] == x + y
    ensures off + |x| <= |buf| && buf[off..off + |x|] == x && buf[off + |x|..] == y
  {
    assert buf[off..off + |x|] == buf[off..][..|x|];
    assert buf[off + |x|..] == buf[off..][|x|..];
  }

  /** Reading from `off` on, where the rest of the buffer is exactly a list of
      packets, hands each payload to the handler in order and keeps nothing. */
  lemma {:induction false} ReadPacketsAt(buf: seq<Byte>, off: nat, ps: seq<seq<Byte>>, calls: seq<seq<Byte>>)
    requires Fits(ps) && ps != []
    requires off <= |buf| && buf[off..] == Packets(ps)
    ensures ReadLoop(buf, None, off, calls) == ReadResult(calls + ps, None, false)
    decreases |ps|
  {
    if |ps| == 1 {
      assert Packets(ps) == Packet(ps[0]) + Packets([]);
      ReadLastPacket(buf, off, ps[0], calls);
      assert ps == [ps[0]];
    } else {
      var next := AfterFirstPacket(buf, off, ps);
      ReadPacketsAt(buf, next, ps[1..], calls + [ps[0]]);
      ReadFirstThenRest(buf, off, ps, calls);
    }
  }

  /** Where the packets after the first one start. */
  lemma AfterFirstPacket(buf: seq<Byte>, off: nat, ps: seq<seq<Byte>>) returns (next: nat)
    requires Fits(ps) && |ps| >= 2
    requires off <= |buf| && buf[off..] == Packets(ps)
    ensures next == off + |Packet(ps[0])| < |buf| && buf[next..] == Packets(ps[1..])
    ensures buf[off..] == Packet(ps[0]) + Packets(ps[1..]) && Packets(ps[1..]) != []
  {
    assert Packets(ps[1..]) == Packet(ps[1]) + Packets(ps[2..]);
    SliceSplit(buf, off, Packet(ps[0]), Packets(ps[1..]));
    next := off + |Packet(ps[0])|;
  }

  /** The step of ReadPacketsAt: the first payload followed by what reading
      the remaining packets yields. */
  lemma ReadFirstThenRest(buf: seq<Byte>, off: nat, ps: seq<seq<Byte>>, calls: seq<seq<Byte>>)
    requires Fits(ps) && |ps| >= 2
    requires off <= |buf| && buf[off..] == Packet(ps[0]) + Packets(ps[1..]) && Packets(ps[1..]) != []
    requires ReadLoop(buf, None, off + |Packet(ps[0])|, calls + [ps[0]]) ==
             ReadResult(calls + [ps[0]] + ps[1..], None, false)
    ensures ReadLoop(buf, None, off, calls) == ReadResult(calls + ps, None, false)
  {
    ReadPacketThenMore(buf, off, ps[0], Packets(ps[1..]), calls);
    assert calls + [ps[0]] + ps[1..] == calls + ps by { assert ps == [ps[0]] + ps[1..]; }
  }

  /** Round trip: a fresh connection reading one frame hands its payload to
      the handler exactly once and keeps nothing. */
  lemma FrameRoundTrip(s: string)
    requires |Utf8(s)| < TWO_32
    ensures ReadJsonSpec(None, Frame(s)) == ReadResult([Utf8(s)], None, false)
  {
    ReadLastPacket(Frame(s), 0, Utf8(s), []);
  }

  /** Several complete frames in one buffer: one handler call per frame, in
      order, and nothing kept. */
  lemma FramesBackToBack(ss: seq<string>)
    requires forall i :: 0 <= i < |ss| ==> |Utf8(ss[i])| < TWO_32
    requires ss != []
    ensures ReadJsonSpec(None, Frames(ss)) == ReadResult(Payloads(ss), None, false)
  {
    ReadPacketsAt(Frames(ss), 0, Payloads(ss), []);
    assert [] + Payloads(ss) == Payloads(ss);
  }

  /** A frame whose body is cut after k bytes: the first read hands nothing
      over and keeps the k bytes and the missing count; the next read of the
      remainder completes the frame and keeps nothing. */
  lemma SplitFrame(s: string, k: nat)
    requires |Utf8(s)| < TWO_32
    requires 4 <= k < |Frame(s)|
    ensures ReadJsonSpec(None, Frame(s)[..k]) ==
            ReadResult([], Some(Partial(|Frame(s)| - k, Utf8(s)[..k - 4])), false)
    ensures ReadJsonSpec(Some(Partial(|Frame(s)| - k, Utf8(s)[..k - 4])), Frame(s)[k..]) ==
            ReadResult([Utf8(s)], None, false)
  {
    SplitPacketHead(Utf8(s), k);
    SplitPacketTail(Utf8(s), k);
  }

  /** The first buffer: a header and the start of the payload, saved. */
  lemma SplitPacketHead(p: seq<Byte>, k: nat)
    requires |p| < TWO_32
    requires 4 <= k < |Packet(p)|
    ensures ReadJsonSpec(None, Packet(p)[..k]) ==
            ReadResult([], Some(Partial(|Packet(p)| - k, p[..k - 4])), false)
  {
    var f := Packet(p);
    var head := f[..k];
    assert head[0..4] == f[..4];
    assert head[4..4 + (k - 4)] == p[..k - 4];
  }

  /** The second buffer: the rest of the payload, completing the frame. */
  lemma SplitPacketTail(p: seq<Byte>, k: nat)
    requires |p| < TWO_32
    requires 4 <= k < |Packet(p)|
    ensures ReadJsonSpec(Some(Partial(|Packet(p)| - k, p[..k - 4])), Packet(p)[k..]) ==
            ReadResult([p], None, false)
  {
    var tail := Packet(p)[k..];
    assert tail[0..|tail|] == tail;
    assert p[..k - 4] + tail == p;
  }

  lemma UpdateAgrees(m1: map<string, Partial>, m2: map<string, Partial>, k: string, v: Partial)
    requires m1 - {k} == m2 - {k}
    ensures m1[k := v] == m2[k := v]
  {
    assert forall x :: x != k ==> (x in m1 <==> x in m1 - {k});
    assert forall x :: x != k ==> (x in m2 <==> x in m2 - {k});
  }

  /** One reader per process: the unfinished frame of each connection. */
  class FrameReader {
    var instanceMap: map<string, Partial>

    constructor()
      ensures instanceMap == map[]
    {
      instanceMap := map[];
    }

    /** The result for connection `instance` stored back into the map. */
    static function Store(m: map<string, Partial>, instance: string, saved: Option<Partial>): map<string, Partial> {
      if saved.Some? then m[instance := saved.value] else m - {instance}
    }

    /** `readJson(instance, buffer, objectHandler)`; the handler calls are
        returned in order. An `instance` that is not a string throws before
        anything changes. */
    method ReadJson(instance: Json, buffer: array<Byte>) returns (calls: seq<seq<Byte>>, threw: bool)
      modifies this
      ensures !instance.JStr? ==> threw && calls == [] && instanceMap == old(instanceMap)
      ensures instance.JStr? ==>
                var r := ReadJsonSpec(if instance.s in old(instanceMap) then Some(old(instanceMap)[instance.s]) else None, buffer[..]);
                calls == r.calls && threw == r.threw && instanceMap == Store(old(instanceMap), instance.s, r.saved)
    {
      if !instance.JStr? {
        return [], true;
      }
      var key := instance.s;
      ghost var goal := ReadJsonSpec(if key in instanceMap then Some(instanceMap[key]) else None, buffer[..]);
      ghost var others := instanceMap - {key};
      calls := [];
      var offset := 0;
      while true
        invariant offset <= buffer.Length
        invariant instanceMap - {key} == others
        invariant ReadLoop(buffer[..], if key in instanceMap then Some(instanceMap[key]) else None, offset, calls) == goal
        decreases buffer.Length - offset, if key in instanceMap then 1 else 0
      {
        var saved := if key in instanceMap then Some(instanceMap[key]) else None;
        var pass := ReadPass(buffer, saved, offset);
        instanceMap := instanceMap - {key};
        if pass.HeaderMissing? {
          return calls, true;
        }
        offset := pass.next;
        if pass.n < pass.len {
          UpdateAgrees(instanceMap, old(instanceMap), key, Partial(pass.len - pass.n, pass.acc));
          instanceMap := instanceMap[key := Partial(pass.len - pass.n, pass.acc)];
          return calls, false;
        }
        calls := calls + [pass.acc];
        if offset >= buffer.Length {
          return calls, false;
        }
      }
    }

    /** The loop body of `readJson` up to the length check: the rest of the
        saved frame, or a length prefix and as much of the body as there is. */
    static method ReadPass(buffer: array<Byte>, saved: Option<Partial>, offset: nat) returns (pass: Pass)
      requires offset <= buffer.Length
      ensures pass == Body(buffer[..], saved, offset)
    {
      if saved.Some? {
        var len := saved.value.restLen;
        var readByteLen := if offset + len < buffer.Length then len else buffer.Length - offset;
        return Pass(len, readByteLen, saved.value.part + buffer[offset..offset + readByteLen], offset + readByteLen);
      }
      if offset + 4 > buffer.Length {
        return HeaderMissing;
      }
      var len := buffer[offset] as int + 256 * (buffer[offset + 1] as int) + 65536 * (buffer[offset + 2] as int)
                 + 16777216 * (buffer[offset + 3] as int);
      assert len == Le32Value(buffer[..][offset..offset + 4]);
      var start := offset + 4;
      var readByteLen := if start + len < buffer.Length then len else buffer.Length - start;
      var accumulator := buffer[start..start + readByteLen];
      return Pass(len, readByteLen, accumulator, start + readByteLen);
    }
  }

  // ---------------------------------------------------------------------
  // concatBufferAndroid
  // ---------------------------------------------------------------------

  /** The bytes held by each buffer of a list. */
  function Contents(list: seq<array<Byte>>): (r: seq<seq<Byte>>)
    reads set i | 0 <= i < |list| :: list[i]
    ensures |r| == |list| && forall i :: 0 <= i < |list| ==> r[i] == list[i][..]
  {
    seq(|list|, i reads set i | 0 <= i < |list| :: list[i] requires 0 <= i < |list| => list[i][..])
  }

  /** Byte strings one after the other. */
  function Concat(data: seq<seq<Byte>>): seq<Byte> {
    if data == [] then [] else Concat(data[..|data| - 1]) + data[|data| - 1]
  }

  /** `concatBufferAndroid(list)`, where `None` stands for an argument that
      is not an array. A single buffer is returned itself, not copied. */
  method ConcatBuffers(list: Option<seq<array<Byte>>>) returns (r: Result<array<Byte>>)
    ensures list.None? <==> r.Throws?
    ensures list.Some? && |list.value| == 0 ==> r.Ok? && fresh(r.value) && r.value.Length == 0
    ensures list.Some? && |list.value| == 1 ==> r == Ok(list.value[0])
    ensures list.Some? && |list.value| >= 2 ==> r.Ok? && fresh(r.value) && r.value[..] == Concat(Contents(list.value))
  {
    if list.None? {
      return Throws("Usage: Buffer.concat(list, [length])");
    }
    var bufs := list.value;
    if |bufs| == 0 {
      var empty := new Byte[0];
      return Ok(empty);
    } else if |bufs| == 1 {
      return Ok(bufs[0]);
    }
    ghost var data := Contents(bufs);
    var length := TotalLength(bufs);
    var buffer := new Byte[length];
    var pos := 0;
    for i := 0 to |bufs|
      invariant pos == |Concat(data[..i])| <= length
      invariant buffer[..pos] == Concat(data[..i])
    {
      assert data[..i + 1][..i] == data[..i];
      ConcatPrefixLength(data, i + 1);
      CopyAt(buffer, pos, bufs[i]);
      pos := pos + bufs[i].Length;
    }
    assert data[..|bufs|] == data;
    assert buffer[..] == buffer[..pos];
    return Ok(buffer);
  }

  /** The first loop of `concatBufferAndroid`: the sum of the lengths. */
  method TotalLength(bufs: seq<array<Byte>>) returns (length: nat)
    ensures length == |Concat(Contents(bufs))|
  {
    ghost var data := Contents(bufs);
    length := 0;
    for i := 0 to |bufs|
      invariant length == |Concat(data[..i])|
    {
      assert data[..i + 1][..i] == data[..i];
      length := length + bufs[i].Length;
    }
    assert data[..|bufs|] == data;
  }

  /** `buf.copy(buffer, pos)`: buf's bytes written at pos, earlier bytes kept. */
  method CopyAt(buffer: array<Byte>, pos: nat, buf: array<Byte>)
    requires buffer != buf && pos + buf.Length <= buffer.Length
    modifies buffer
    ensures buffer[..pos + buf.Length] == old(buffer[..pos]) + buf[..]
  {
    for j := 0 to buf.Length
      invariant buffer[..pos] == old(buffer[..pos])
      invariant buffer[pos..pos + j] == buf[..j]
    {
      buffer[pos + j] := buf[j];
      assert buffer[pos..pos + j + 1] == buffer[pos..pos + j] + [buffer[pos + j]];
    }
    assert buffer[..pos + buf.Length] == buffer[..pos] + buffer[pos..pos + buf.Length];
  }

  /** A prefix of the list concatenates to no more bytes than the whole list. */
  lemma {:induction false} ConcatPrefixLength(data: seq<seq<Byte>>, i: nat)
    requires i <= |data|
    ensures |Concat(data[..i])| <= |Concat(data)|
    decreases |data| - i
  {
    if i < |data| {
      ConcatPrefixLength(data, i + 1);
      assert data[..i + 1][..i] == data[..i];
    } else {
      assert data[..i] == data;
    }
  }
}
