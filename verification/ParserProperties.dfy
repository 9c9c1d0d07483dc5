/** What the frame parser guarantees: round trips under any splitting, exact error
    detection, resynchronisation, and that nothing is dispatched that was not sent. */
module ParserProperties {
  import opened Bytes
  import opened Wire
  import opened Parsing

  // ---- One frame ----

  lemma {:induction false} RunOne(p: ParserState, buf: ChunkBuf, b: byte)
    ensures Run(p, buf, [b]) == Step(p, buf, b)
  {
    assert [b][1..] == [];
  }

  lemma {:induction false} RunTwo(p: ParserState, buf: ChunkBuf, a: byte, b: byte)
    ensures var s := Step(p, buf, a);
            var t := Step(s.p, s.buf, b);
            Run(p, buf, [a, b]) == t.(out := s.out + t.out)
  {
    var s := Step(p, buf, a);
    RunOne(s.p, s.buf, b);
    assert [a, b][1..] == [b];
  }

  /** The checksum takes in a block byte by byte. */
  lemma {:induction false} ChecksumHead(c: byte, data: seq<byte>)
    requires data != []
    ensures XorByte(XorByte(c, data[0]), XorAll(data[1..])) == XorByte(c, XorAll(data))
  {
    XorAssoc(c as int, data[0] as int, XorAll(data[1..]) as int);
  }

  lemma {:induction false} OnePayloadByte(p: ParserState, buf: ChunkBuf, b: byte)
    requires p.st == Payload
    ensures var s := Step(p, buf, b);
            && s.out == [] && s.buf == buf && s.p.typ == p.typ && s.p.need == p.need && s.p.got == p.got + 1
            && s.p.payload[..p.got + 1] == p.payload[..p.got] + [b]
            && s.p.csum == XorByte(p.csum, b) && s.p.st == if p.got + 1 == p.need then Csum else Payload
  {
  }

  lemma {:induction false} RunPayload(p: ParserState, buf: ChunkBuf, data: seq<byte>)
    requires p.st == Payload && p.got + |data| == p.need
    ensures var r := Run(p, buf, data);
            && r.out == [] && r.buf == buf && r.p.st == Csum && r.p.typ == p.typ && r.p.need == p.need
            && r.p.payload[..p.need] == p.payload[..p.got] + data
            && r.p.csum == XorByte(p.csum, XorAll(data))
    decreases |data|
  {
    var s := Step(p, buf, data[0]);
    OnePayloadByte(p, buf, data[0]);
    ChecksumHead(p.csum, data);
    if |data| == 1 {
      XorZero(s.p.csum as int);
      assert data == [data[0]] && Run(s.p, s.buf, data[1..]) == s;
    } else {
      RunPayload(s.p, s.buf, data[1..]);
      assert p.payload[..p.got] + data == s.p.payload[..p.got + 1] + data[1..];
    }
  }

  lemma {:induction false} OneChunkByte(p: ParserState, buf: ChunkBuf, b: byte)
    requires p.st == OtaData
    ensures var s := Step(p, buf, b);
            && s.out == [] && s.p.typ == p.typ && s.p.olen == p.olen && s.p.ogot == p.ogot + 1
            && s.buf[..p.ogot + 1] == buf[..p.ogot] + [b]
            && s.p.csum == XorByte(p.csum, b) && s.p.st == if p.ogot + 1 == p.olen then OtaCsum else OtaData
  {
  }

  lemma {:induction false} RunChunk(p: ParserState, buf: ChunkBuf, data: seq<byte>)
    requires p.st == OtaData && p.ogot + |data| == p.olen
    ensures var r := Run(p, buf, data);
            && r.out == [] && r.p.st == OtaCsum && r.p.typ == p.typ && r.p.olen == p.olen
            && r.buf[..p.olen] == buf[..p.ogot] + data
            && r.p.csum == XorByte(p.csum, XorAll(data))
    decreases |data|
  {
    var s := Step(p, buf, data[0]);
    OneChunkByte(p, buf, data[0]);
    ChecksumHead(p.csum, data);
    if |data| == 1 {
      XorZero(s.p.csum as int);
      assert data == [data[0]] && Run(s.p, s.buf, data[1..]) == s;
    } else {
      RunChunk(s.p, s.buf, data[1..]);
      assert buf[..p.ogot] + data == s.buf[..p.ogot + 1] + data[1..];
    }
  }

  /** The parser's state just before the checksum byte. */
  predicate AwaitsChecksum(r: Stepped, m: Msg) {
    && r.out == [] && r.p.typ == m.typ
    && r.p.csum == XorByte(m.typ, XorAll(Header(m.typ, |m.data|) + m.data))
    && (if m.typ == OTA_DATA then r.p.st == OtaCsum && r.buf[..r.p.olen] == m.data
        else r.p.st == Csum && r.p.payload[..r.p.need] == m.data)
  }

  lemma {:induction false} RunToChecksum(p: ParserState, buf: ChunkBuf, m: Msg)
    requires p.st == Sync && WellFormed(m)
    ensures AwaitsChecksum(Run(p, buf, [SYNC, m.typ] + Header(m.typ, |m.data|) + m.data), m)
  {
    var head := Header(m.typ, |m.data|);
    var r1 := RunTypeByte(p, buf, m.typ);
    var r2 := Run(r1.p, r1.buf, head);
    RunConcat(p, buf, [SYNC, m.typ], head);
    RunConcat(p, buf, [SYNC, m.typ] + head, m.data);
    XorAllConcat(head, m.data);
    XorAssoc(m.typ as int, XorAll(head) as int, XorAll(m.data) as int);
    RunHeader(r1.p, r1.buf, m);
    if m.typ == OTA_DATA {
      RunChunk(r2.p, r2.buf, m.data);
    } else if m.data == [] {
      XorZero(XorByte(m.typ, XorAll(head)) as int);
    } else {
      RunPayload(r2.p, r2.buf, m.data);
    }
  }

  lemma {:induction false} RunTypeByte(p: ParserState, buf: ChunkBuf, typ: byte) returns (r: Stepped)
    requires p.st == Sync
    ensures r == Run(p, buf, [SYNC, typ])
    ensures r.out == [] && r.buf == buf && r.p == OnType(p.(st := Type), typ)
  {
    r := Run(p, buf, [SYNC, typ]);
    RunTwo(p, buf, SYNC, typ);
  }

  lemma {:induction false} RunHeader(p: ParserState, buf: ChunkBuf, m: Msg)
    requires WellFormed(m) && p.typ == m.typ && p.csum == m.typ && p.got == 0
    requires p.st == (if Prefixed(m.typ) then Len else if m.typ == OTA_DATA then OtaL0 else Payload)
    requires p.st == Payload ==> p.need == |m.data|
    ensures var r := Run(p, buf, Header(m.typ, |m.data|));
            && r.out == [] && r.buf == buf && r.p.typ == m.typ && r.p.payload == p.payload
            && r.p.csum == XorByte(m.typ, XorAll(Header(m.typ, |m.data|)))
            && (if m.typ == OTA_DATA then r.p.st == OtaData && r.p.ogot == 0 && r.p.olen == |m.data|
                else r.p.got == 0 && r.p.need == |m.data| && r.p.st == if m.data == [] then Csum else Payload)
  {
    XorZero(m.typ as int);
    if Prefixed(m.typ) {
      RunLengthByte(p, buf, |m.data|);
    } else if m.typ == OTA_DATA {
      RunChunkHeader(p, buf, |m.data|);
    }
  }

  lemma {:induction false} RunLengthByte(p: ParserState, buf: ChunkBuf, n: nat)
    requires p.st == Len && n <= MAX_PAYLOAD
    ensures Run(p, buf, [LowByte(n)])
         == Stepped(p.(need := n, csum := XorByte(p.csum, XorAll([LowByte(n)])),
                       st := if n == 0 then Csum else Payload), buf, [])
  {
    var b := LowByte(n);
    assert b as int == n;
    assert XorAll([b]) == b by {
      XorZero(b as int);
      assert [b][1..] == [];
    }
    RunOne(p, buf, b);
    assert OnLen(p, b) == p.(need := n, csum := XorByte(p.csum, b), st := if n == 0 then Csum else Payload);
  }

  lemma {:induction false} RunChunkHeader(p: ParserState, buf: ChunkBuf, n: nat)
    requires p.st == OtaL0 && p.csum == OTA_DATA && 0 < n <= MAX_CHUNK
    ensures var r := Run(p, buf, Le16(n));
            && r.out == [] && r.buf == buf
            && r.p == p.(olen := n, csum := XorByte(OTA_DATA, XorAll(Le16(n))), ogot := 0, st := OtaData)
  {
    var h := Le16(n);
    Le16Inverse(n);
    XorZero(h[1] as int);
    XorAssoc(OTA_DATA as int, h[0] as int, h[1] as int);
    RunTwo(p, buf, h[0], h[1]);
    assert h == [h[0], h[1]] && h[1..] == [h[1]];
  }

  /** A frame whose type and length arrive intact, with any data and checksum bytes:
      it is dispatched exactly when the checksum fits, and the parser is back in sync. */
  lemma {:induction false} RunBody(p: ParserState, buf: ChunkBuf, m: Msg, c: byte)
    requires p.st == Sync && WellFormed(m)
    ensures var head := Header(m.typ, |m.data|);
            var r := Run(p, buf, [SYNC, m.typ] + head + m.data + [c]);
            && r.p.st == Sync
            && r.out == if c == XorByte(m.typ, XorAll(head + m.data)) then [m] else []
  {
    var front := [SYNC, m.typ] + Header(m.typ, |m.data|) + m.data;
    RunToChecksum(p, buf, m);
    RunConcat(p, buf, front, [c]);
    assert [c][1..] == [];
  }

  lemma {:induction false} FrameRoundTrip(p: ParserState, buf: ChunkBuf, m: Msg)
    requires p.st == Sync && WellFormed(m)
    ensures var r := Run(p, buf, Encode(m)); r.p.st == Sync && r.out == [m]
  {
    var head := Header(m.typ, |m.data|);
    var c := XorByte(m.typ, XorAll(head + m.data));
    RunBody(p, buf, m, c);
    assert Encode(m) == [SYNC, m.typ] + head + m.data + [c];
  }

  // ---- Streams of frames ----

  predicate AllWellFormed(ms: seq<Msg>) {
    forall i :: 0 <= i < |ms| ==> WellFormed(ms[i])
  }

  /** Every list of well-formed messages, cut into reads anywhere, is dispatched exactly. */
  lemma {:induction false} StreamRoundTrip(p: ParserState, buf: ChunkBuf, ms: seq<Msg>, pieces: seq<seq<byte>>)
    requires p.st == Sync && AllWellFormed(ms) && Flatten(pieces) == EncodeAll(ms)
    ensures var r := RunPieces(p, buf, pieces); r.p.st == Sync && r.out == ms
  {
    RunPiecesIsRun(p, buf, pieces);
    RunFrames(p, buf, ms);
  }

  lemma {:induction false} RunFrames(p: ParserState, buf: ChunkBuf, ms: seq<Msg>)
    requires p.st == Sync && AllWellFormed(ms)
    ensures var r := Run(p, buf, EncodeAll(ms)); r.p.st == Sync && r.out == ms
    decreases |ms|
  {
    if ms != [] {
      var r := Run(p, buf, Encode(ms[0]));
      FrameRoundTrip(p, buf, ms[0]);
      RunFrames(r.p, r.buf, ms[1..]);
      RunConcat(p, buf, Encode(ms[0]), EncodeAll(ms[1..]));
    }
  }

  /** Part of a stream of frames dispatches part of its messages. */
  lemma {:induction false} PartialTraffic(p: ParserState, buf: ChunkBuf, ms: seq<Msg>, bytes: seq<byte>)
    requires p.st == Sync && AllWellFormed(ms) && bytes <= EncodeAll(ms)
    ensures Run(p, buf, bytes).out <= ms
  {
    var rest := EncodeAll(ms)[|bytes|..];
    assert bytes + rest == EncodeAll(ms);
    RunFrames(p, buf, ms);
    RunConcat(p, buf, bytes, rest);
  }

  // ---- A lossy link ----

  /** What the link does to one frame: delivers it, drops it, or hits its data and
      checksum bytes with error masks. */
  datatype Fate = Intact | Lost | Hit(masks: seq<byte>, csumMask: byte)

  predicate Fits(f: Fate, m: Msg) {
    f.Hit? ==> |f.masks| == |m.data|
  }

  /** The masks cancel out, so the checksum cannot see them. */
  predicate Undetected(f: Fate)
    requires f.Hit?
  {
    XorByte(XorAll(f.masks), f.csumMask) == 0
  }

  function Delivered(m: Msg, f: Fate): seq<byte>
    requires Fits(f, m)
  {
    match f
    case Intact => Encode(m)
    case Lost => []
    case Hit(masks, csumMask) =>
      var head := Header(m.typ, |m.data|);
      var csum := XorByte(m.typ, XorAll(head + m.data));
      [SYNC, m.typ] + head + Masked(m.data, masks) + [XorByte(csum, csumMask)]
  }

  function Survivor(m: Msg, f: Fate): seq<Msg>
    requires Fits(f, m)
  {
    match f
    case Intact => [m]
    case Lost => []
    case Hit(masks, _) => if Undetected(f) then [Msg(m.typ, Masked(m.data, masks))] else []
  }

  /** A damaged frame is dispatched if and only if its error masks XOR to zero; either
      way the parser is in sync at the frame's end. */
  lemma {:induction false} ChecksumExact(p: ParserState, buf: ChunkBuf, m: Msg, f: Fate)
    requires p.st == Sync && WellFormed(m) && Fits(f, m)
    ensures var r := Run(p, buf, Delivered(m, f)); r.p.st == Sync && r.out == Survivor(m, f)
  {
    match f
    case Intact => FrameRoundTrip(p, buf, m);
    case Lost =>
    case Hit(masks, csumMask) =>
      var head, bad := Header(m.typ, |m.data|), Masked(m.data, masks);
      var csum := XorByte(m.typ, XorAll(head + m.data));
      RunBody(p, buf, Msg(m.typ, bad), XorByte(csum, csumMask));
      MaskedChecksum(m.typ, head, m.data, masks);
      MasksCancel(csum, csumMask, XorAll(masks));
  }

  lemma {:induction false} MaskedChecksum(typ: byte, head: seq<byte>, data: seq<byte>, masks: seq<byte>)
    requires |data| == |masks|
    ensures XorByte(typ, XorAll(head + Masked(data, masks)))
         == XorByte(XorByte(typ, XorAll(head + data)), XorAll(masks))
  {
    XorAllConcat(head, data);
    XorAllConcat(head, Masked(data, masks));
    XorAllMasked(data, masks);
    XorAssoc(XorAll(head) as int, XorAll(data) as int, XorAll(masks) as int);
    XorAssoc(typ as int, XorAll(head + data) as int, XorAll(masks) as int);
  }

  lemma {:induction false} MasksCancel(c: byte, a: byte, b: byte)
    ensures XorByte(c, a) == XorByte(c, b) <==> XorByte(b, a) == 0
  {
    XorSame(XorByte(c, a) as int, XorByte(c, b) as int);
    XorSwap(c, a, c, b);
    XorSame(c as int, c as int);
    XorZero(XorByte(a, b) as int);
    XorComm(a as int, b as int);
  }

  predicate AllFit(fs: seq<Fate>, ms: seq<Msg>) {
    |fs| == |ms| && forall i :: 0 <= i < |ms| ==> Fits(fs[i], ms[i])
  }

  function DeliveredAll(ms: seq<Msg>, fs: seq<Fate>): seq<byte>
    requires AllFit(fs, ms)
  {
    if ms == [] then [] else Delivered(ms[0], fs[0]) + DeliveredAll(ms[1..], fs[1..])
  }

  function Survivors(ms: seq<Msg>, fs: seq<Fate>): seq<Msg>
    requires AllFit(fs, ms)
  {
    if ms == [] then [] else Survivor(ms[0], fs[0]) + Survivors(ms[1..], fs[1..])
  }

  /** Damage to one frame never spreads to its neighbours. */
  lemma {:induction false} LossyStream(p: ParserState, buf: ChunkBuf, ms: seq<Msg>, fs: seq<Fate>)
    requires p.st == Sync && AllWellFormed(ms) && AllFit(fs, ms)
    ensures var r := Run(p, buf, DeliveredAll(ms, fs)); r.p.st == Sync && r.out == Survivors(ms, fs)
    decreases |ms|
  {
    if ms != [] {
      var r := Run(p, buf, Delivered(ms[0], fs[0]));
      ChecksumExact(p, buf, ms[0], fs[0]);
      LossyStream(r.p, r.buf, ms[1..], fs[1..]);
      RunConcat(p, buf, Delivered(ms[0], fs[0]), DeliveredAll(ms[1..], fs[1..]));
    }
  }

  // ---- Nothing is dispatched that was not received ----

  /** The bytes of the current frame consumed so far. */
  function Partial(p: ParserState, buf: ChunkBuf): seq<byte> {
    match p.st
    case Sync => []
    case Type => [SYNC]
    case Len => [SYNC, p.typ]
    case Payload => [SYNC, p.typ] + (if Prefixed(p.typ) then [LowByte(p.need)] else []) + p.payload[..p.got]
    case Csum => [SYNC, p.typ] + (if Prefixed(p.typ) then [LowByte(p.need)] else []) + p.payload[..p.got]
    case OtaL0 => [SYNC, p.typ]
    case OtaL1 => [SYNC, p.typ, LowByte(p.olen)]
    case OtaData => [SYNC, p.typ] + Le16(p.olen) + buf[..p.ogot]
    case OtaCsum => [SYNC, p.typ] + Le16(p.olen) + buf[..p.ogot]
  }

  /** The running checksum covers exactly the consumed bytes after the sync byte. */
  predicate ChecksumTracks(p: ParserState, buf: ChunkBuf) {
    p.st != Sync && p.st != Type ==> p.csum == XorAll(Partial(p, buf)[1..])
  }

  lemma {:induction false} StepExtends(p: ParserState, buf: ChunkBuf, b: byte)
    ensures var s := Step(p, buf, b);
            s.p.st != Sync ==> s.out == [] && Partial(s.p, s.buf) == Partial(p, buf) + [b]
  {
    match p.st
    case Payload => PayloadExtends(p, buf, b);
    case OtaL1 => ChunkExtends(p, buf, b);
    case OtaData => ChunkExtends(p, buf, b);
    case _ =>
  }

  lemma {:induction false} PayloadExtends(p: ParserState, buf: ChunkBuf, b: byte)
    requires p.st == Payload
    ensures var s := Step(p, buf, b); s.out == [] && Partial(s.p, s.buf) == Partial(p, buf) + [b]
  {
    OnePayloadByte(p, buf, b);
  }

  lemma {:induction false} ChunkExtends(p: ParserState, buf: ChunkBuf, b: byte)
    requires p.st == OtaL1 || p.st == OtaData
    ensures var s := Step(p, buf, b);
            s.p.st != Sync ==> s.out == [] && Partial(s.p, s.buf) == Partial(p, buf) + [b]
  {
    if p.st == OtaL1 {
      assert Step(p, buf, b).buf[..0] == [];
    } else {
      OneChunkByte(p, buf, b);
    }
  }

  lemma {:induction false} StepDispatches(p: ParserState, buf: ChunkBuf, b: byte)
    requires ChecksumTracks(p, buf) && Step(p, buf, b).out != []
    ensures var s := Step(p, buf, b);
            && s.p.st == Sync && |s.out| == 1 && WellFormed(s.out[0]) && Encode(s.out[0]) == Partial(p, buf) + [b]
  {
    if p.st == Csum {
      ReportDispatched(p, buf, b);
    } else {
      ChunkDispatched(p, buf, b);
    }
  }

  lemma {:induction false} ReportDispatched(p: ParserState, buf: ChunkBuf, b: byte)
    requires p.st == Csum && ChecksumTracks(p, buf) && b == p.csum
    ensures var m := Msg(p.typ, p.payload[..p.need]);
            WellFormed(m) && Encode(m) == Partial(p, buf) + [b]
  {
    var m := Msg(p.typ, p.payload[..p.need]);
    var head := Header(m.typ, |m.data|);
    assert Partial(p, buf) == [SYNC, p.typ] + head + m.data;
    FrameFromParts(m, Partial(p, buf), b);
  }

  /** What the running checksum covers is what the frame's checksum covers. */
  lemma {:induction false} FrameFromParts(m: Msg, front: seq<byte>, b: byte)
    requires front == [SYNC, m.typ] + Header(m.typ, |m.data|) + m.data && b == XorAll(front[1..])
    ensures Encode(m) == front + [b]
  {
    var head := Header(m.typ, |m.data|);
    assert front[1..] == [m.typ] + (head + m.data) by { Parts([SYNC], [m.typ], head, m.data); }
    XorAllCons(m.typ, head + m.data);
    Parts([SYNC], [m.typ], head, m.data);
  }

  lemma {:induction false} Parts(a: seq<byte>, b: seq<byte>, c: seq<byte>, d: seq<byte>)
    requires |a| == |b| == 1
    ensures [a[0], b[0]] + c + d == [a[0], b[0]] + (c + d)
    ensures ([a[0], b[0]] + c + d)[1..] == b + (c + d)
  {
  }

  lemma {:induction false} ChunkDispatched(p: ParserState, buf: ChunkBuf, b: byte)
    requires p.st == OtaCsum && ChecksumTracks(p, buf) && b == p.csum
    ensures var m := Msg(OTA_DATA, buf[..p.olen]);
            WellFormed(m) && Encode(m) == Partial(p, buf) + [b]
  {
    var m := Msg(OTA_DATA, buf[..p.olen]);
    assert Partial(p, buf) == [SYNC, p.typ] + Header(m.typ, |m.data|) + m.data;
    FrameFromParts(m, Partial(p, buf), b);
  }

  lemma {:induction false} ChecksumStep(p: ParserState, buf: ChunkBuf, b: byte)
    requires ChecksumTracks(p, buf)
    ensures var s := Step(p, buf, b); ChecksumTracks(s.p, s.buf)
  {
    var s := Step(p, buf, b);
    if s.p.st != Sync && p.st != Sync {
      StepExtends(p, buf, b);
      ChecksumTakes(p, buf, b);
      var front := Partial(p, buf);
      Behind(front, b);
      XorAllAppend(front[1..], b);
      if p.st == Type { XorZero(b as int); }
    }
  }

  lemma {:induction false} ChecksumTakes(p: ParserState, buf: ChunkBuf, b: byte)
    requires Step(p, buf, b).p.st != Sync && p.st != Sync
    ensures Step(p, buf, b).p.csum == if p.st == Type then b else XorByte(p.csum, b)
  {
  }

  lemma {:induction false} Behind(front: seq<byte>, b: byte)
    requires front != []
    ensures (front + [b])[1..] == front[1..] + [b]
  {
  }

  /** Messages laid out in a stream with arbitrary bytes between them. */
  function Weave(gaps: seq<seq<byte>>, ms: seq<Msg>): seq<byte>
    requires |gaps| == |ms| + 1
  {
    if ms == [] then gaps[0] else gaps[0] + Encode(ms[0]) + Weave(gaps[1..], ms[1..])
  }

  lemma {:induction false} Decompose(p: ParserState, buf: ChunkBuf, bytes: seq<byte>) returns (gaps: seq<seq<byte>>)
    requires ChecksumTracks(p, buf)
    ensures var out := Run(p, buf, bytes).out;
            && AllWellFormed(out) && |gaps| == |out| + 1
            && Partial(p, buf) + bytes == Weave(gaps, out)
    decreases |bytes|
  {
    if bytes == [] {
      gaps := [Partial(p, buf)];
    } else {
      var b, tail := bytes[0], bytes[1..];
      var s := Step(p, buf, b);
      ChecksumStep(p, buf, b);
      var rest := Decompose(s.p, s.buf, tail);
      gaps := WeaveStep(p, buf, b, tail, rest, Run(s.p, s.buf, tail).out);
      assert Partial(p, buf) + bytes == Partial(p, buf) + [b] + tail;
    }
  }

  lemma {:induction false} WeaveStep(p: ParserState, buf: ChunkBuf, b: byte, bytes: seq<byte>, rest: seq<seq<byte>>,
                                     later: seq<Msg>)
    returns (gaps: seq<seq<byte>>)
    requires ChecksumTracks(p, buf) && AllWellFormed(later) && |rest| == |later| + 1
    requires var s := Step(p, buf, b); Partial(s.p, s.buf) + bytes == Weave(rest, later)
    ensures var out := Step(p, buf, b).out + later;
            && AllWellFormed(out) && |gaps| == |out| + 1
            && Partial(p, buf) + [b] + bytes == Weave(gaps, out)
  {
    var s := Step(p, buf, b);
    if s.p.st != Sync {
      StepExtends(p, buf, b);
      assert s.out + later == later;
      gaps := rest;
    } else {
      assert Partial(s.p, s.buf) + bytes == bytes;
      if s.out != [] {
        StepDispatches(p, buf, b);
        assert s.out + later == [s.out[0]] + later;
        gaps := WeaveFront(s.out[0], rest, later);
      } else {
        assert s.out + later == later;
        gaps := WeaveGarbage(Partial(p, buf) + [b], rest, later);
      }
    }
  }

  lemma {:induction false} WeaveFront(m: Msg, gaps: seq<seq<byte>>, ms: seq<Msg>) returns (r: seq<seq<byte>>)
    requires |gaps| == |ms| + 1
    ensures |r| == |ms| + 2 && Weave(r, [m] + ms) == Encode(m) + Weave(gaps, ms)
  {
    r := [[]] + gaps;
    assert r[1..] == gaps && ([m] + ms)[1..] == ms;
  }

  lemma {:induction false} WeaveGarbage(g: seq<byte>, gaps: seq<seq<byte>>, ms: seq<Msg>) returns (r: seq<seq<byte>>)
    requires |gaps| == |ms| + 1
    ensures |r| == |ms| + 1 && Weave(r, ms) == g + Weave(gaps, ms)
  {
    r := [g + gaps[0]] + gaps[1..];
    assert r[1..] == gaps[1..];
    if ms != [] {
      assert g + gaps[0] + Encode(ms[0]) + Weave(gaps[1..], ms[1..])
          == g + (gaps[0] + Encode(ms[0]) + Weave(gaps[1..], ms[1..]));
    }
  }

  /** Whatever the bytes, the dispatched messages are well formed and their frames occur
      in the stream, whole, in this order and without overlapping. */
  lemma {:induction false} NothingForged(p: ParserState, buf: ChunkBuf, bytes: seq<byte>)
    requires p.st == Sync
    ensures var out := Run(p, buf, bytes).out;
            && AllWellFormed(out)
            && |EncodeAll(out)| <= |bytes|
            && exists gaps | |gaps| == |out| + 1 :: bytes == Weave(gaps, out)
  {
    var gaps := Decompose(p, buf, bytes);
    assert Partial(p, buf) + bytes == bytes;
    WeaveLength(gaps, Run(p, buf, bytes).out);
  }

  lemma {:induction false} WeaveLength(gaps: seq<seq<byte>>, ms: seq<Msg>)
    requires |gaps| == |ms| + 1
    ensures |Weave(gaps, ms)| >= |EncodeAll(ms)|
    decreases |ms|
  {
    if ms != [] {
      WeaveLength(gaps[1..], ms[1..]);
    }
  }
}
