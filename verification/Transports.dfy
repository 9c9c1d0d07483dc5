/** Several transports at once: every transport has its own parser, and all of them
    stream OTA chunks into the same buffer. */
module Transports {
  import opened Bytes
  import opened Wire
  import opened Parsing
  import opened ParserProperties

  datatype Device = Device(ps: seq<ParserState>, buf: ChunkBuf)
  datatype Input = Input(t: nat, b: byte)
  datatype Output = Output(t: nat, m: Msg)
  datatype Result = Result(d: Device, out: seq<Output>)

  function Tag(t: nat, ms: seq<Msg>): seq<Output> {
    seq(|ms|, i requires 0 <= i < |ms| => Output(t, ms[i]))
  }

  predicate Known(d: Device, ins: seq<Input>) {
    forall i :: 0 <= i < |ins| ==> ins[i].t < |d.ps|
  }

  /** One byte on one transport. */
  function Next(d: Device, i: Input): (r: Result)
    requires i.t < |d.ps|
    ensures |r.d.ps| == |d.ps|
  {
    var s := Step(d.ps[i.t], d.buf, i.b);
    Result(Device(d.ps[i.t := s.p], s.buf), Tag(i.t, s.out))
  }

  /** Bytes arrive on the transports in any interleaving. */
  function Feed(d: Device, ins: seq<Input>): (r: Result)
    requires Known(d, ins)
    ensures |r.d.ps| == |d.ps|
    decreases |ins|
  {
    if ins == [] then Result(d, [])
    else
      var s := Next(d, ins[0]);
      var r := Feed(s.d, ins[1..]);
      r.(out := s.out + r.out)
  }

  function BytesOf(ins: seq<Input>, t: nat): seq<byte> {
    if ins == [] then []
    else (if ins[0].t == t then [ins[0].b] else []) + BytesOf(ins[1..], t)
  }

  lemma {:induction false} BytesOfHead(ins: seq<Input>, t: nat)
    requires ins != []
    ensures ins[0].t == t ==> BytesOf(ins, t) != [] && BytesOf(ins, t)[0] == ins[0].b
    ensures ins[0].t == t ==> BytesOf(ins, t)[1..] == BytesOf(ins[1..], t)
    ensures ins[0].t != t ==> BytesOf(ins, t) == BytesOf(ins[1..], t)
  {
  }

  function MsgsOf(out: seq<Output>, t: nat): seq<Msg> {
    if out == [] then []
    else (if out[0].t == t then [out[0].m] else []) + MsgsOf(out[1..], t)
  }

  lemma {:induction false} MsgsOfConcat(a: seq<Output>, b: seq<Output>, t: nat)
    ensures MsgsOf(a + b, t) == MsgsOf(a, t) + MsgsOf(b, t)
  {
    if a == [] {
      assert a + b == b;
    } else {
      var first := if a[0].t == t then [a[0].m] else [];
      assert (a + b)[0] == a[0] && (a + b)[1..] == a[1..] + b;
      MsgsOfConcat(a[1..], b, t);
      assert MsgsOf(a + b, t) == first + MsgsOf(a[1..] + b, t);
      assert first + (MsgsOf(a[1..], t) + MsgsOf(b, t)) == first + MsgsOf(a[1..], t) + MsgsOf(b, t);
    }
  }

  lemma {:induction false} MsgsOfTag(t: nat, ms: seq<Msg>, u: nat)
    ensures MsgsOf(Tag(t, ms), u) == if t == u then ms else []
  {
    if ms != [] {
      assert Tag(t, ms)[1..] == Tag(t, ms[1..]);
      MsgsOfTag(t, ms[1..], u);
    }
  }

  predicate Streaming(p: ParserState) {
    p.st == OtaData || p.st == OtaCsum
  }

  /** At most one parser is using the shared buffer. */
  predicate Exclusive(ps: seq<ParserState>) {
    forall i, j :: 0 <= i < j < |ps| ==> !(Streaming(ps[i]) && Streaming(ps[j]))
  }

  predicate AlwaysExclusive(d: Device, ins: seq<Input>)
    requires Known(d, ins)
  {
    forall k :: 0 <= k <= |ins| ==> Exclusive(Feed(d, ins[..k]).d.ps)
  }

  /** The received part of a chunk is the same in both buffers. */
  predicate SameChunk(p: ParserState, b1: ChunkBuf, b2: ChunkBuf) {
    Streaming(p) ==> b1[..p.ogot] == b2[..p.ogot]
  }

  lemma {:induction false} SameChunkStep(p: ParserState, b1: ChunkBuf, b2: ChunkBuf, b: byte)
    requires SameChunk(p, b1, b2)
    ensures var s1, s2 := Step(p, b1, b), Step(p, b2, b);
            s1.p == s2.p && s1.out == s2.out && SameChunk(s1.p, s1.buf, s2.buf)
  {
    if p.st == OtaData {
      assert b1[p.ogot := b][..p.ogot + 1] == b1[..p.ogot] + [b];
      assert b2[p.ogot := b][..p.ogot + 1] == b2[..p.ogot] + [b];
    }
  }

  /** Another transport's byte overwrites, with a different one, a byte that this transport has
      already received. */
  predicate Clobbers(p: ParserState, other: ParserState, buf: ChunkBuf, b: byte) {
    Streaming(p) && other.st == OtaData && other.ogot < p.ogot && b != buf[other.ogot]
  }

  /** Nothing else another transport receives can touch this one's chunk. */
  lemma {:induction false} OtherStep(p: ParserState, other: ParserState, shared: ChunkBuf, own: ChunkBuf, b: byte)
    requires SameChunk(p, shared, own)
    ensures SameChunk(p, Step(other, shared, b).buf, own) <==> !Clobbers(p, other, shared, b)
  {
    if Streaming(p) && other.st == OtaData && other.ogot < p.ogot {
      var k := other.ogot;
      assert shared[..p.ogot][k] == own[..p.ogot][k];
      assert shared[k := b][..p.ogot][k] == b;
      if b == shared[k] { assert shared[k := b] == shared; }
    } else if other.st == OtaData && Streaming(p) {
      assert shared[other.ogot := b][..p.ogot] == shared[..p.ogot];
    }
  }

  /** No byte for another transport ever does that to transport t. */
  predicate NeverClobbered(d: Device, ins: seq<Input>, t: nat)
    requires Known(d, ins) && t < |d.ps|
    decreases |ins|
  {
    ins == [] ||
    (&& (ins[0].t != t ==> !Clobbers(d.ps[t], d.ps[ins[0].t], d.buf, ins[0].b))
     && NeverClobbered(Next(d, ins[0]).d, ins[1..], t))
  }

  /** At every moment, what transport t has received of its chunk is what it would have
      received alone. */
  predicate AlwaysSameChunk(d: Device, ins: seq<Input>, t: nat, own: ChunkBuf)
    requires Known(d, ins) && t < |d.ps|
    decreases |ins|
  {
    && SameChunk(d.ps[t], d.buf, own)
    && (ins != [] ==> AlwaysSameChunk(Next(d, ins[0]).d, ins[1..], t, OwnNext(d, ins[0], t, own)))
  }

  /** The buffer of a transport on its own. */
  function OwnNext(d: Device, i: Input, t: nat, own: ChunkBuf): ChunkBuf
    requires t < |d.ps|
  {
    if i.t == t then Step(d.ps[t], own, i.b).buf else own
  }

  lemma {:induction false} SameChunkNext(d: Device, i: Input, t: nat, own: ChunkBuf)
    requires t < |d.ps| && i.t < |d.ps| && SameChunk(d.ps[t], d.buf, own)
    ensures var d' := Next(d, i).d;
            SameChunk(d'.ps[t], d'.buf, OwnNext(d, i, t, own))
            <==> i.t == t || !Clobbers(d.ps[t], d.ps[i.t], d.buf, i.b)
  {
    if i.t == t {
      SameChunkStep(d.ps[t], d.buf, own, i.b);
    } else {
      OtherStep(d.ps[t], d.ps[i.t], d.buf, own, i.b);
    }
  }

  /** The exact condition under which sharing the buffer does no harm. */
  lemma {:induction false} ChunkIntactIff(d: Device, ins: seq<Input>, t: nat, own: ChunkBuf)
    requires Known(d, ins) && t < |d.ps| && SameChunk(d.ps[t], d.buf, own)
    ensures AlwaysSameChunk(d, ins, t, own) <==> NeverClobbered(d, ins, t)
    decreases |ins|
  {
    if ins != [] {
      var d', own' := Next(d, ins[0]).d, OwnNext(d, ins[0], t, own);
      SameChunkNext(d, ins[0], t, own);
      if SameChunk(d'.ps[t], d'.buf, own') {
        ChunkIntactIff(d', ins[1..], t, own');
      }
    }
  }

  /** Each transport dispatches what its own bytes say, whatever the others receive, as long
      as none of them clobbers its chunk. */
  lemma {:induction false} NonInterference(d: Device, ins: seq<Input>, t: nat, own: ChunkBuf)
    requires Known(d, ins) && t < |d.ps| && SameChunk(d.ps[t], d.buf, own) && NeverClobbered(d, ins, t)
    ensures var r := Feed(d, ins);
            var solo := Run(d.ps[t], own, BytesOf(ins, t));
            r.d.ps[t] == solo.p && MsgsOf(r.out, t) == solo.out
    decreases |ins|
  {
    if ins != [] {
      var u := ins[0].t;
      var s := Step(d.ps[u], d.buf, ins[0].b);
      var d', own' := Next(d, ins[0]).d, OwnNext(d, ins[0], t, own);
      var later := Feed(d', ins[1..]).out;
      BytesOfHead(ins, t);
      SameChunkNext(d, ins[0], t, own);
      NonInterference(d', ins[1..], t, own');
      MsgsOfConcat(Tag(u, s.out), later, t);
      MsgsOfTag(u, s.out, t);
      if u == t { SameChunkStep(d.ps[t], d.buf, own, ins[0].b); }
    }
  }

  /** The byte that hands over a chunk. */
  predicate Completes(p: ParserState, b: byte) {
    p.st == OtaCsum && b == p.csum
  }

  /** Whenever transport t hands over a chunk, the shared buffer holds what its own would. */
  predicate HandsOverOwn(d: Device, ins: seq<Input>, t: nat, own: ChunkBuf)
    requires Known(d, ins) && t < |d.ps|
    decreases |ins|
  {
    ins == [] ||
    (&& (ins[0].t == t && Completes(d.ps[t], ins[0].b) ==> d.buf[..d.ps[t].olen] == own[..d.ps[t].olen])
     && HandsOverOwn(Next(d, ins[0]).d, ins[1..], t, OwnNext(d, ins[0], t, own)))
  }

  lemma {:induction false} SameDispatch(p: ParserState, b1: ChunkBuf, b2: ChunkBuf, b: byte)
    ensures var s1, s2 := Step(p, b1, b), Step(p, b2, b);
            && s1.p == s2.p && |s1.out| == |s2.out| <= 1
            && (s1.out == s2.out <==> (Completes(p, b) ==> b1[..p.olen] == b2[..p.olen]))
  {
    if Completes(p, b) {
      assert [Msg(p.typ, b1[..p.olen])][0].data == b1[..p.olen];
      assert [Msg(p.typ, b2[..p.olen])][0].data == b2[..p.olen];
    }
  }

  lemma {:induction false} SameParts(a: seq<Msg>, b: seq<Msg>, c: seq<Msg>, d: seq<Msg>)
    requires |a| == |c|
    ensures a + b == c + d <==> a == c && b == d
  {
    assert (a + b)[..|a|] == a && (a + b)[|a|..] == b && (c + d)[..|c|] == c && (c + d)[|c|..] == d;
  }

  /** The exact condition for equal dispatch: a transport dispatches what its own bytes say if
      and only if, at every checksum that fits, the bytes last written below the chunk's length
      are its own. A chunk spoiled and restored, or one that is rejected, does no harm. */
  lemma {:induction false} DispatchesOwnIff(d: Device, ins: seq<Input>, t: nat, own: ChunkBuf)
    requires Known(d, ins) && t < |d.ps|
    ensures MsgsOf(Feed(d, ins).out, t) == Run(d.ps[t], own, BytesOf(ins, t)).out <==> HandsOverOwn(d, ins, t, own)
    decreases |ins|
  {
    if ins != [] {
      var u := ins[0].t;
      var s, solo := Step(d.ps[u], d.buf, ins[0].b), Step(d.ps[t], own, ins[0].b);
      var d', own' := Next(d, ins[0]).d, OwnNext(d, ins[0], t, own);
      var later := Feed(d', ins[1..]).out;
      BytesOfHead(ins, t);
      DispatchesOwnIff(d', ins[1..], t, own');
      MsgsOfConcat(Tag(u, s.out), later, t);
      MsgsOfTag(u, s.out, t);
      if u == t {
        SameDispatch(d.ps[t], d.buf, own, ins[0].b);
        SameParts(s.out, MsgsOf(later, t), solo.out, Run(solo.p, solo.buf, BytesOf(ins[1..], t)).out);
      } else {
        assert [] + MsgsOf(later, t) == MsgsOf(later, t);
      }
    }
  }

  /** What an input byte writes to the chunk buffer. */
  predicate WritesAt(d: Device, i: Input, k: nat)
    requires i.t < |d.ps|
  {
    d.ps[i.t].st == OtaData && d.ps[i.t].ogot == k
  }

  /** The last byte written at an index, by any transport. */
  function LastWrite(d: Device, ins: seq<Input>, k: nat, was: byte): byte
    requires Known(d, ins)
    decreases |ins|
  {
    if ins == [] then was
    else LastWrite(Next(d, ins[0]).d, ins[1..], k, if WritesAt(d, ins[0], k) then ins[0].b else was)
  }

  /** The shared buffer holds at each index the byte written there last. */
  lemma {:induction false} BufferIsLastWrites(d: Device, ins: seq<Input>, k: nat)
    requires Known(d, ins) && k < MAX_CHUNK
    ensures Feed(d, ins).d.buf[k] == LastWrite(d, ins, k, d.buf[k])
    decreases |ins|
  {
    if ins != [] {
      BufferIsLastWrites(Next(d, ins[0]).d, ins[1..], k);
    }
  }

  /** In particular when at most one transport at a time streams a chunk. */
  lemma {:induction false} ExclusiveNeverClobbers(d: Device, ins: seq<Input>, t: nat)
    requires Known(d, ins) && AlwaysExclusive(d, ins) && t < |d.ps|
    ensures NeverClobbered(d, ins, t)
    decreases |ins|
  {
    if ins != [] {
      assert Exclusive(d.ps) by { assert ins[..0] == []; }
      ExclusiveTail(d, ins);
      ExclusiveNeverClobbers(Next(d, ins[0]).d, ins[1..], t);
    }
  }

  lemma {:induction false} ExclusiveTail(d: Device, ins: seq<Input>)
    requires Known(d, ins) && AlwaysExclusive(d, ins) && ins != []
    ensures AlwaysExclusive(Next(d, ins[0]).d, ins[1..])
  {
    var d' := Next(d, ins[0]).d;
    forall k | 0 <= k <= |ins[1..]| ensures Exclusive(Feed(d', ins[1..][..k]).d.ps) {
      assert ins[..k + 1][1..] == ins[1..][..k] && ins[..k + 1][0] == ins[0];
      assert Exclusive(Feed(d, ins[..k + 1]).d.ps);
    }
  }

  // ---- Without the proviso ----

  function OnTransport(t: nat, bytes: seq<byte>): seq<Input> {
    seq(|bytes|, i requires 0 <= i < |bytes| => Input(t, bytes[i]))
  }

  /** One transport's bytes, followed by anything. */
  lemma {:induction false} FeedOne(d: Device, t: nat, bytes: seq<byte>, rest: seq<Input>)
    requires t < |d.ps| && Known(d, rest) && Known(d, OnTransport(t, bytes) + rest)
    ensures var s := Run(d.ps[t], d.buf, bytes);
            var later := Feed(Device(d.ps[t := s.p], s.buf), rest);
            Feed(d, OnTransport(t, bytes) + rest) == Result(later.d, Tag(t, s.out) + later.out)
    decreases |bytes|
  {
    var ins := OnTransport(t, bytes) + rest;
    if bytes == [] {
      assert d.ps[t := d.ps[t]] == d.ps && ins == rest;
      assert Tag(t, []) + Feed(d, rest).out == Feed(d, rest).out;
    } else {
      assert ins[0] == Input(t, bytes[0]) && ins[1..] == OnTransport(t, bytes[1..]) + rest;
      var s, d' := Step(d.ps[t], d.buf, bytes[0]), Next(d, ins[0]).d;
      var run := Run(s.p, s.buf, bytes[1..]);
      FeedOne(d', t, bytes[1..], rest);
      assert d'.ps[t := run.p] == d.ps[t := run.p];
      TagConcat(t, s.out, run.out, Feed(Device(d.ps[t := run.p], run.buf), rest).out);
    }
  }

  lemma {:induction false} TagConcat(t: nat, a: seq<Msg>, b: seq<Msg>, rest: seq<Output>)
    ensures Tag(t, a) + (Tag(t, b) + rest) == Tag(t, a + b) + rest
  {
  }

  function Front(chunk: seq<byte>): seq<byte> {
    [SYNC, OTA_DATA] + Le16(|chunk|) + chunk
  }

  function Checksum(chunk: seq<byte>): byte {
    XorByte(OTA_DATA, XorAll(Le16(|chunk|) + chunk))
  }

  /** Two transports streaming chunks of one length at once: the first one's checksum
      passes, and the chunk it hands over is the second one's. */
  lemma {:induction false} SharedBufferRace(d: Device, a: seq<byte>, b: seq<byte>)
    requires |d.ps| >= 2 && d.ps[0].st == Sync && d.ps[1].st == Sync
    requires 0 < |a| == |b| <= MAX_CHUNK
    ensures var ins := OnTransport(0, Front(a)) + OnTransport(1, Front(b)) + OnTransport(0, [Checksum(a)]);
            Known(d, ins) && MsgsOf(Feed(d, ins).out, 0) == [Msg(OTA_DATA, b)]
  {
    var r1 := Run(d.ps[0], d.buf, Front(a));
    var r2 := Run(d.ps[1], r1.buf, Front(b));
    RunToChecksum(d.ps[0], d.buf, Msg(OTA_DATA, a));
    RunToChecksum(d.ps[1], r1.buf, Msg(OTA_DATA, b));
    FeedInTurn(d, Front(a), Front(b), [Checksum(a)]);
    RunOne(r1.p, r2.buf, Checksum(a));
    assert r1.p.olen == |a| == |b| == r2.p.olen;
  }

  /** One transport, another one, and the first again. */
  lemma {:induction false} FeedInTurn(d: Device, a: seq<byte>, b: seq<byte>, c: seq<byte>)
    requires |d.ps| >= 2
    ensures var ins := OnTransport(0, a) + OnTransport(1, b) + OnTransport(0, c);
            var r1 := Run(d.ps[0], d.buf, a);
            var r2 := Run(d.ps[1], r1.buf, b);
            Known(d, ins) && MsgsOf(Feed(d, ins).out, 0) == r1.out + Run(r1.p, r2.buf, c).out
  {
    var r1 := Run(d.ps[0], d.buf, a);
    var d1 := Device(d.ps[0 := r1.p], r1.buf);
    var rest := OnTransport(1, b) + OnTransport(0, c);
    assert OnTransport(0, a) + OnTransport(1, b) + OnTransport(0, c) == OnTransport(0, a) + rest;
    FeedOne(d, 0, a, rest);
    FeedTwo(d1, b, c);
    MsgsOfConcat(Tag(0, r1.out), Feed(d1, rest).out, 0);
    MsgsOfTag(0, r1.out, 0);
  }

  lemma {:induction false} FeedTwo(d: Device, b: seq<byte>, c: seq<byte>)
    requires |d.ps| >= 2
    ensures var ins := OnTransport(1, b) + OnTransport(0, c);
            var r := Run(d.ps[1], d.buf, b);
            Known(d, ins) && MsgsOf(Feed(d, ins).out, 0) == Run(d.ps[0], r.buf, c).out
  {
    var r := Run(d.ps[1], d.buf, b);
    var d1 := Device(d.ps[1 := r.p], r.buf);
    var last := OnTransport(0, c);
    FeedOne(d, 1, b, last);
    assert last == last + [];
    FeedOne(d1, 0, c, []);
    MsgsOfConcat(Tag(1, r.out), Feed(d1, last).out, 0);
    MsgsOfTag(1, r.out, 0);
    assert Tag(0, Run(d1.ps[0], r.buf, c).out) + [] == Tag(0, Run(d1.ps[0], r.buf, c).out);
    MsgsOfTag(0, Run(d1.ps[0], r.buf, c).out, 0);
  }

  // ---- HID traffic beside an OTA transfer ----

  lemma {:induction false} StepIgnoresBuffer(p: ParserState, b1: ChunkBuf, b2: ChunkBuf, b: byte)
    ensures Step(p, b1, b).p == Step(p, b2, b).p
  {
  }

  /** A parser's state depends on its own transport's bytes only. */
  lemma {:induction false} StateIsOwn(d: Device, ins: seq<Input>, t: nat, own: ChunkBuf)
    requires Known(d, ins) && t < |d.ps|
    ensures Feed(d, ins).d.ps[t] == Run(d.ps[t], own, BytesOf(ins, t)).p
    decreases |ins|
  {
    if ins != [] {
      var u := ins[0].t;
      var s := Step(d.ps[u], d.buf, ins[0].b);
      var d' := Next(d, ins[0]).d;
      BytesOfHead(ins, t);
      if u == t {
        StepIgnoresBuffer(d.ps[t], d.buf, own, ins[0].b);
        StateIsOwn(d', ins[1..], t, Step(d.ps[t], own, ins[0].b).buf);
      } else {
        StateIsOwn(d', ins[1..], t, own);
      }
    }
  }

  predicate NoChunks(ms: seq<Msg>) {
    forall i :: 0 <= i < |ms| ==> ms[i].typ != OTA_DATA
  }

  /** Strictly inside a frame the parser is out of sync and has dispatched nothing. */
  lemma {:induction false} FrameInterior(p: ParserState, buf: ChunkBuf, m: Msg, k: nat)
    requires p.st == Sync && WellFormed(m) && 0 < k < |Encode(m)|
    ensures var r := Run(p, buf, Encode(m)[..k]); r.p.st != Sync && r.out == []
  {
    var f := Encode(m);
    var r := Run(p, buf, f[..k]);
    var later := Run(r.p, r.buf, f[k..]).out;
    FrameRoundTrip(p, buf, m);
    assert f == f[..k] + f[k..];
    RunConcat(p, buf, f[..k], f[k..]);
    assert r.out + later == [m] && EncodeAll([m]) == f + [];
    NothingForged(p, buf, f[..k]);
    assert r.out == [] && later == [m] by {
      assert r.out != [m];
    }
    if r.p.st == Sync {
      NothingForged(r.p, r.buf, f[k..]);
      assert false;
    }
  }

  lemma {:induction false} RunLast(p: ParserState, buf: ChunkBuf, f: seq<byte>, k: nat)
    requires 0 < k <= |f|
    ensures var r := Run(p, buf, f[..k - 1]); Run(p, buf, f[..k]).p == Step(r.p, r.buf, f[k - 1]).p
  {
    var r := Run(p, buf, f[..k - 1]);
    assert f[..k] == f[..k - 1] + [f[k - 1]];
    RunConcat(p, buf, f[..k - 1], [f[k - 1]]);
    RunOne(r.p, r.buf, f[k - 1]);
  }

  lemma {:induction false} ShortStep(p: ParserState, buf: ChunkBuf, b: byte)
    requires p.st in {Len, Payload, Csum}
    ensures Step(p, buf, b).p.st in {Sync, Payload, Csum}
  {
  }

  lemma {:induction false} FrameNeverStreams(p: ParserState, buf: ChunkBuf, m: Msg, k: nat)
    requires p.st == Sync && WellFormed(m) && m.typ != OTA_DATA && k <= |Encode(m)|
    ensures var r := Run(p, buf, Encode(m)[..k]);
            !Streaming(r.p) && (2 <= k < |Encode(m)| ==> r.p.st in {Len, Payload, Csum})
    decreases k
  {
    var f := Encode(m);
    if k == |f| {
      assert f[..k] == f;
      FrameRoundTrip(p, buf, m);
    } else if k == 1 {
      assert f[..1] == [SYNC];
      RunOne(p, buf, SYNC);
    } else if k == 2 {
      assert f[..2] == [SYNC, m.typ];
      var _ := RunTypeByte(p, buf, m.typ);
    } else if k > 2 {
      FrameNeverStreams(p, buf, m, k - 1);
      FrameInterior(p, buf, m, k);
      var r := Run(p, buf, f[..k - 1]);
      RunLast(p, buf, f, k);
      ShortStep(r.p, r.buf, f[k - 1]);
    }
  }

  lemma {:induction false} NeverStreams(p: ParserState, buf: ChunkBuf, ms: seq<Msg>, k: nat)
    requires p.st == Sync && AllWellFormed(ms) && NoChunks(ms) && k <= |EncodeAll(ms)|
    ensures !Streaming(Run(p, buf, EncodeAll(ms)[..k]).p)
    decreases |ms|
  {
    if ms != [] {
      var f, all := Encode(ms[0]), EncodeAll(ms);
      if k <= |f| {
        assert all[..k] == f[..k];
        FrameNeverStreams(p, buf, ms[0], k);
      } else {
        var r := Run(p, buf, f);
        FrameRoundTrip(p, buf, ms[0]);
        NeverStreams(r.p, r.buf, ms[1..], k - |f|);
        assert all[..k] == f + EncodeAll(ms[1..])[..k - |f|];
        RunConcat(p, buf, f, EncodeAll(ms[1..])[..k - |f|]);
      }
    }
  }

  lemma {:induction false} BytesOfPrefix(ins: seq<Input>, k: nat, t: nat)
    requires k <= |ins|
    ensures BytesOf(ins[..k], t) <= BytesOf(ins, t)
  {
    if k > 0 {
      assert ins[..k][1..] == ins[1..][..k - 1];
      BytesOfPrefix(ins[1..], k - 1, t);
    }
  }

  /** While one transport alone receives chunks, every transport dispatches exactly what its
      own bytes say. What the dispatched messages then do to an update is another matter: see
      OtaTraffic. */
  lemma {:induction false} DispatchBesideOta(d: Device, ins: seq<Input>, ota: nat, traffic: seq<seq<Msg>>, t: nat,
                                             own: ChunkBuf)
    requires Known(d, ins) && ota < |d.ps| == |traffic| && t < |d.ps|
    requires forall i :: 0 <= i < |d.ps| ==> d.ps[i].st == Sync
    requires forall i :: 0 <= i < |d.ps| && i != ota ==>
               AllWellFormed(traffic[i]) && NoChunks(traffic[i]) && BytesOf(ins, i) <= EncodeAll(traffic[i])
    ensures MsgsOf(Feed(d, ins).out, t) == Run(d.ps[t], own, BytesOf(ins, t)).out
  {
    forall k | 0 <= k <= |ins| ensures Exclusive(Feed(d, ins[..k]).d.ps) {
      forall i | 0 <= i < |d.ps| && i != ota ensures !Streaming(Feed(d, ins[..k]).d.ps[i]) {
        var seen := BytesOf(ins[..k], i);
        BytesOfPrefix(ins, k, i);
        assert seen == EncodeAll(traffic[i])[..|seen|];
        StateIsOwn(d, ins[..k], i, own);
        NeverStreams(d.ps[i], own, traffic[i], |seen|);
      }
    }
    ExclusiveNeverClobbers(d, ins, t);
    NonInterference(d, ins, t, own);
  }
}
