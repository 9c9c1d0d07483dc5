/** A transfer over several connections: the daemon may redial between two frames, and the
    firmware starts a fresh parser for each connection. */
module OtaLinks {
  import opened Bytes
  import opened Wire
  import opened Parsing
  import opened ParserProperties
  import opened OtaUpdate
  import opened OtaLoss

  /** A connection: the messages written to it, and the bytes of theirs that arrived. */
  datatype Conn = Conn(sent: seq<Msg>, got: seq<byte>)

  /** Each connection delivers the first bytes of what was written to it. */
  predicate Plausible(conns: seq<Conn>) {
    forall i :: 0 <= i < |conns| ==> AllWellFormed(conns[i].sent) && conns[i].got <= EncodeAll(conns[i].sent)
  }

  predicate Delivered(conn: Conn) {
    conn.got == EncodeAll(conn.sent)
  }

  predicate AllDelivered(conns: seq<Conn>) {
    forall i :: 0 <= i < |conns| ==> Delivered(conns[i])
  }

  function AllSent(conns: seq<Conn>): seq<Msg> {
    if conns == [] then [] else conns[0].sent + AllSent(conns[1..])
  }

  /** What the firmware dispatches, one connection after the other, each to a fresh parser;
      the chunk buffer is left as it was. */
  function Dispatched(buf: ChunkBuf, conns: seq<Conn>): seq<Msg>
    decreases |conns|
  {
    if conns == [] then []
    else
      var r := Run(FRESH, buf, conns[0].got);
      r.out + Dispatched(r.buf, conns[1..])
  }

  /** One connection dispatches its first messages, and all of them exactly if all its bytes
      arrived. */
  lemma {:induction false} OneConn(buf: ChunkBuf, conn: Conn) returns (n: nat)
    requires AllWellFormed(conn.sent) && conn.got <= EncodeAll(conn.sent)
    ensures n <= |conn.sent| && Run(FRESH, buf, conn.got).out == conn.sent[..n]
    ensures n == |conn.sent| <==> Delivered(conn)
  {
    var out := Run(FRESH, buf, conn.got).out;
    n := |out|;
    PartialTraffic(FRESH, buf, conn.sent, conn.got);
    RunFrames(FRESH, buf, conn.sent);
    NothingForged(FRESH, buf, conn.got);
    if n == |conn.sent| {
      assert out == conn.sent;
      assert |EncodeAll(conn.sent)| <= |conn.got|;
    }
  }

  /** Which messages arrived, over all connections. */
  lemma {:induction false} WhatArrives(buf: ChunkBuf, conns: seq<Conn>) returns (keep: seq<bool>)
    requires Plausible(conns)
    ensures |keep| == |AllSent(conns)| && Dispatched(buf, conns) == Arrived(AllSent(conns), keep)
    ensures false in keep <==> !AllDelivered(conns)
    decreases |conns|
  {
    if conns == [] {
      keep := [];
    } else {
      var conn, rest := conns[0], conns[1..];
      var n := OneConn(buf, conn);
      var more := WhatArrives(Run(FRESH, buf, conn.got).buf, rest);
      keep := FirstOnly(|conn.sent|, n) + more;
      FirstConn(conn, AllSent(rest), n, more);
      assert AllDelivered(conns) <==> Delivered(conn) && AllDelivered(rest) by {
        DeliveredCons(conn, rest);
        assert conns == [conn] + rest;
      }
    }
  }

  lemma {:induction false} FirstConn(conn: Conn, later: seq<Msg>, n: nat, more: seq<bool>)
    requires n <= |conn.sent| && |more| == |later|
    ensures var keep := FirstOnly(|conn.sent|, n) + more;
            && Arrived(conn.sent + later, keep) == conn.sent[..n] + Arrived(later, more)
            && (false in keep <==> n < |conn.sent| || false in more)
  {
    var first := FirstOnly(|conn.sent|, n);
    FirstArrive(conn.sent, n);
    ArrivedConcat(conn.sent, first, later, more);
    FirstMisses(|conn.sent|, n);
    MissesConcat(first, more);
  }

  lemma {:induction false} MissesConcat(a: seq<bool>, b: seq<bool>)
    ensures false in a + b <==> false in a || false in b
  {
  }

  lemma {:induction false} DeliveredCons(conn: Conn, rest: seq<Conn>)
    ensures AllDelivered([conn] + rest) <==> Delivered(conn) && AllDelivered(rest)
  {
    var conns := [conn] + rest;
    assert conns[0] == conn && forall i :: 0 <= i < |rest| ==> conns[i + 1] == rest[i];
  }

  lemma {:induction false} FirstMisses(len: nat, n: nat)
    requires n <= len
    ensures false in FirstOnly(len, n) <==> n < len
  {
    if n < len {
      assert FirstOnly(len, n)[n] == false;
    }
  }

  /** Over any number of connections, whatever the driver returns: with anything missing the
      boot slot stays, if no update was running before. */
  lemma {:induction false} MissingIsSafe(buf: ChunkBuf, conns: seq<Conn>, o: Ota, token: seq<byte>, image: seq<byte>,
                                         fs: seq<Outcome>)
    requires Plausible(conns) && AllSent(conns) == Transfer(token, image) && !AllDelivered(conns)
    requires !o.active && 0 < |image| < TWO32 && |fs| == |Dispatched(buf, conns)|
    ensures Switches(OnMsgs(o, token, Dispatched(buf, conns), fs).log) == Switches(o.log)
  {
    var keep := WhatArrives(buf, conns);
    LossIsSafe(o, token, image, keep, fs);
  }

  /** With a driver that agrees, it switches if and only if every connection delivered every
      byte written to it. */
  lemma {:induction false} SwitchesIffAllDelivered(buf: ChunkBuf, conns: seq<Conn>, o: Ota, token: seq<byte>,
                                                   image: seq<byte>, fs: seq<Outcome>)
    requires Plausible(conns) && AllSent(conns) == Transfer(token, image)
    requires !o.active && |token| <= 123 && 0 < |image| < TWO32
    requires |fs| == |Dispatched(buf, conns)| && AllFine(fs)
    ensures Switches(OnMsgs(o, token, Dispatched(buf, conns), fs).log)
         == Switches(o.log) + if AllDelivered(conns) then 1 else 0
  {
    var keep := WhatArrives(buf, conns);
    if AllDelivered(conns) {
      AllArrive(Transfer(token, image), keep);
      TransferApplied(o, token, image, fs);
    } else {
      LossIsSafe(o, token, image, keep, fs);
    }
  }
}
