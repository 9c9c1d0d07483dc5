/** The firmware's frame parser: one `parser_t` per transport, fed one byte at a
    time, all of them streaming OTA chunks into one shared buffer. */
module Parsing {
  import opened Bytes
  import opened Wire

  datatype State = Sync | Type | Len | Payload | Csum | OtaL0 | OtaL1 | OtaData | OtaCsum

  datatype PState = PState(
    st: State, typ: byte, payload: seq<byte>, need: nat, got: nat, csum: byte, olen: nat, ogot: nat)

  /** What every reachable parser satisfies; it keeps each index inside its array
      and each field inside its C type. */
  predicate Valid(p: PState) {
    && |p.payload| == MAX_PAYLOAD && p.need < 256 && p.got <= MAX_PAYLOAD && p.olen < TWO16 && p.ogot <= MAX_CHUNK
    && match p.st
       case Sync => true
       case Type => true
       case Len => Prefixed(p.typ) && p.got == 0
       case Payload => p.got < p.need <= MAX_PAYLOAD && (Prefixed(p.typ) || 0 < p.need == PayloadLen(p.typ))
       case Csum => p.got == p.need <= MAX_PAYLOAD && (Prefixed(p.typ) || 0 < p.need == PayloadLen(p.typ))
       case OtaL0 => p.typ == OTA_DATA
       case OtaL1 => p.typ == OTA_DATA && p.olen < 256
       case OtaData => p.typ == OTA_DATA && p.ogot < p.olen <= MAX_CHUNK
       case OtaCsum => p.typ == OTA_DATA && 0 < p.ogot == p.olen <= MAX_CHUNK
  }

  const FRESH := PState(Sync, 0, Zeros(MAX_PAYLOAD), 0, 0, 0, 0, 0)

  type ParserState = p: PState | Valid(p) witness FRESH
  type ChunkBuf = s: seq<byte> | |s| == MAX_CHUNK witness Zeros(MAX_CHUNK)

  /** Effect of one byte: the parser, the shared buffer and the message dispatched, if any. */
  datatype Stepped = Stepped(p: ParserState, buf: ChunkBuf, out: seq<Msg>)

  function OnType(p: ParserState, b: byte): ParserState {
    var q := p.(typ := b, csum := b, got := 0);
    if Prefixed(b) then q.(st := Len)
    else if b == OTA_DATA then q.(st := OtaL0)
    else if PayloadLen(b) == 0 then q.(need := 0, st := Sync)
    else q.(need := PayloadLen(b), st := Payload)
  }

  function OnLen(p: ParserState, b: byte): ParserState
    requires p.st == Len
  {
    var n := b as int;
    p.(need := n, csum := XorByte(p.csum, b), st := if n > MAX_PAYLOAD then Sync else if n == 0 then Csum else Payload)
  }

  function OnPayload(p: ParserState, b: byte): ParserState
    requires p.st == Payload
  {
    var q := p.(payload := p.payload[p.got := b], got := p.got + 1, csum := XorByte(p.csum, b));
    if q.got == q.need then q.(st := Csum) else q
  }

  /** `olen |= b << 8` adds, because the halves do not overlap. */
  function OnOtaL1(p: ParserState, b: byte): ParserState
    requires p.st == OtaL1
  {
    var n := p.olen + 256 * (b as int);
    p.(olen := n, csum := XorByte(p.csum, b), ogot := 0, st := if n == 0 || n > MAX_CHUNK then Sync else OtaData)
  }

  function OnOtaData(p: ParserState, b: byte): ParserState
    requires p.st == OtaData
  {
    var q := p.(ogot := p.ogot + 1, csum := XorByte(p.csum, b));
    if q.ogot == q.olen then q.(st := OtaCsum) else q
  }

  function Step(p: ParserState, buf: ChunkBuf, b: byte): Stepped {
    match p.st
    case Sync => Stepped(if b == SYNC then p.(st := Type) else p, buf, [])
    case Type => Stepped(OnType(p, b), buf, [])
    case Len => Stepped(OnLen(p, b), buf, [])
    case Payload => Stepped(OnPayload(p, b), buf, [])
    case Csum => Stepped(p.(st := Sync), buf, if b == p.csum then [Msg(p.typ, p.payload[..p.need])] else [])
    case OtaL0 => Stepped(p.(olen := b as int, csum := XorByte(p.csum, b), st := OtaL1), buf, [])
    case OtaL1 => Stepped(OnOtaL1(p, b), buf, [])
    case OtaData => Stepped(OnOtaData(p, b), buf[p.ogot := b], [])
    case OtaCsum => Stepped(p.(st := Sync), buf, if b == p.csum then [Msg(p.typ, buf[..p.olen])] else [])
  }

  function Run(p: ParserState, buf: ChunkBuf, bytes: seq<byte>): Stepped
    decreases |bytes|
  {
    if bytes == [] then Stepped(p, buf, [])
    else
      var s := Step(p, buf, bytes[0]);
      var r := Run(s.p, s.buf, bytes[1..]);
      r.(out := s.out + r.out)
  }

  lemma {:induction false} Regroup(a: seq<Msg>, b: seq<Msg>, c: seq<Msg>)
    ensures a + (b + c) == a + b + c
  {
  }

  lemma {:induction false} RunConcat(p: ParserState, buf: ChunkBuf, a: seq<byte>, b: seq<byte>)
    ensures var r := Run(p, buf, a);
            var s := Run(r.p, r.buf, b);
            Run(p, buf, a + b) == s.(out := r.out + s.out)
    decreases |a|
  {
    if a == [] {
      assert a + b == b;
    } else {
      assert (a + b)[1..] == a[1..] + b;
      var s := Step(p, buf, a[0]);
      var r := Run(s.p, s.buf, a[1..]);
      RunConcat(s.p, s.buf, a[1..], b);
      Regroup(s.out, r.out, Run(r.p, r.buf, b).out);
    }
  }

  /** A transport's read loop: reads arrive in pieces, each fed byte by byte. */
  function RunPieces(p: ParserState, buf: ChunkBuf, pieces: seq<seq<byte>>): Stepped
    decreases |pieces|
  {
    if pieces == [] then Stepped(p, buf, [])
    else
      var s := Run(p, buf, pieces[0]);
      var r := RunPieces(s.p, s.buf, pieces[1..]);
      r.(out := s.out + r.out)
  }

  /** How the link cuts the stream into reads does not matter. */
  lemma {:induction false} RunPiecesIsRun(p: ParserState, buf: ChunkBuf, pieces: seq<seq<byte>>)
    ensures RunPieces(p, buf, pieces) == Run(p, buf, Flatten(pieces))
    decreases |pieces|
  {
    if pieces != [] {
      var s := Run(p, buf, pieces[0]);
      RunPiecesIsRun(s.p, s.buf, pieces[1..]);
      RunConcat(p, buf, pieces[0], Flatten(pieces[1..]));
    }
  }

  /** `parser_t` and `feed`, updating the fields and both buffers in place. */
  class Parser {
    var st: State
    var typ: byte
    const payload: array<byte>
    var need: nat
    var got: nat
    var csum: byte
    var olen: nat
    var ogot: nat

    ghost function Abs(): PState
      reads this, payload
    {
      PState(st, typ, payload[..], need, got, csum, olen, ogot)
    }

    constructor ()
      ensures fresh(payload) && Valid(Abs()) && Abs().st == Sync
    {
      st, typ, need, got, csum, olen, ogot := Sync, 0, 0, 0, 0, 0, 0;
      payload := new byte[MAX_PAYLOAD];
    }

    method Feed(b: byte, otaBuf: array<byte>) returns (out: seq<Msg>)
      requires Valid(Abs()) && otaBuf.Length == MAX_CHUNK && otaBuf != payload
      modifies this, payload, otaBuf
      ensures Valid(Abs())
      ensures Stepped(Abs(), otaBuf[..], out) == Step(old(Abs()), old(otaBuf[..]), b)
    {
      out := [];
      match st {
        case Sync =>
          if b == SYNC { st := Type; }
        case Type =>
          typ, csum, got := b, b, 0;
          if Prefixed(b) {
            st := Len;
          } else if b == OTA_DATA {
            st := OtaL0;
          } else {
            need := PayloadLen(b);
            st := if need == 0 then Sync else Payload;
          }
        case Len =>
          need, csum := b as int, XorByte(csum, b);
          if need > payload.Length {
            st := Sync;
          } else {
            st := if need == 0 then Csum else Payload;
          }
        case Payload =>
          payload[got] := b;
          got, csum := got + 1, XorByte(csum, b);
          if got == need { st := Csum; }
        case Csum =>
          if b == csum { out := [Msg(typ, payload[..need])]; }
          st := Sync;
        case _ =>
          out := FeedOta(b, otaBuf);
      }
    }

    /** The four states that stream an OTA chunk. */
    method FeedOta(b: byte, otaBuf: array<byte>) returns (out: seq<Msg>)
      requires Valid(Abs()) && otaBuf.Length == MAX_CHUNK && otaBuf != payload
      requires st in {OtaL0, OtaL1, OtaData, OtaCsum}
      modifies this, otaBuf
      ensures Valid(Abs())
      ensures Stepped(Abs(), otaBuf[..], out) == Step(old(Abs()), old(otaBuf[..]), b)
    {
      out := [];
      match st {
        case OtaL0 =>
          olen, csum, st := b as int, XorByte(csum, b), OtaL1;
        case OtaL1 =>
          olen, csum, ogot := olen + 256 * (b as int), XorByte(csum, b), 0;
          st := if olen == 0 || olen > otaBuf.Length then Sync else OtaData;
        case OtaData =>
          otaBuf[ogot] := b;
          ogot, csum := ogot + 1, XorByte(csum, b);
          if ogot == olen { st := OtaCsum; }
        case OtaCsum =>
          if b == csum { out := [Msg(typ, otaBuf[..olen])]; }
          st := Sync;
      }
    }

    /** One read of a transport task: `for (i < n) feed(&p, buf[i])`. */
    method FeedAll(bytes: seq<byte>, otaBuf: array<byte>) returns (out: seq<Msg>)
      requires Valid(Abs()) && otaBuf.Length == MAX_CHUNK && otaBuf != payload
      modifies this, payload, otaBuf
      ensures Valid(Abs())
      ensures Stepped(Abs(), otaBuf[..], out) == Run(old(Abs()), old(otaBuf[..]), bytes)
    {
      out := [];
      for i := 0 to |bytes|
        invariant Valid(Abs())
        invariant Stepped(Abs(), otaBuf[..], out) == Run(old(Abs()), old(otaBuf[..]), bytes[..i])
      {
        RunConcat(old(Abs()), old(otaBuf[..]), bytes[..i], [bytes[i]]);
        assert bytes[..i + 1] == bytes[..i] + [bytes[i]];
        var o := Feed(bytes[i], otaBuf);
        out := out + o;
      }
      assert bytes[..|bytes|] == bytes;
    }
  }
}
