/** A parser that is not where the sender thinks it is: left inside a frame, or given noise. */
module Resynchronisation {
  import opened Bytes
  import opened Wire
  import opened Parsing
  import opened ParserProperties

  const RESYNC := 1028

  /** How many more bytes the current frame can last. In OtaL1 the low half of the length is
      known, and the high half can be at most what keeps the length within MAX_CHUNK. */
  function Rank(p: ParserState): (n: nat)
    ensures n <= RESYNC && (n == 0 <==> p.st == Sync)
  {
    match p.st
    case Sync => 0
    case Type => RESYNC
    case Len => MAX_PAYLOAD + 2
    case Payload => p.need - p.got + 1
    case Csum => 1
    case OtaL0 => MAX_CHUNK + 3
    case OtaL1 => (if p.olen == 0 then MAX_CHUNK else p.olen + 768) + 2
    case OtaData => p.olen - p.ogot + 1
    case OtaCsum => 1
  }

  lemma {:induction false} RankDecreases(p: ParserState, buf: ChunkBuf, b: byte)
    ensures var s := Step(p, buf, b);
            && (p.st != Sync ==> Rank(s.p) < Rank(p))
            && (s.out != [] ==> s.p.st == Sync && p.st != Sync && |s.out| == 1)
  {
  }

  predicate SyncFree(g: seq<byte>) {
    forall i :: 0 <= i < |g| ==> g[i] != SYNC
  }

  // ---- A gap without sync bytes ----

  /** From any state, enough bytes without a sync byte end the current frame, dispatching at
      most once, and never when there was no frame to end. */
  lemma {:induction false} Resync(p: ParserState, buf: ChunkBuf, g: seq<byte>)
    requires SyncFree(g) && |g| >= Rank(p)
    ensures var r := Run(p, buf, g);
            r.p.st == Sync && |r.out| <= 1 && (p.st == Sync ==> r.out == [])
    decreases |g|
  {
    if g != [] {
      var s := Step(p, buf, g[0]);
      RankDecreases(p, buf, g[0]);
      Resync(s.p, s.buf, g[1..]);
    }
  }

  /** The byte that keeps the current frame going for longest. */
  function Stall(p: ParserState): byte {
    match p.st
    case Type => OTA_DATA
    case Len => MAX_PAYLOAD as byte
    case OtaL1 => if p.olen == 0 then 4 else 3
    case _ => 0
  }

  lemma {:induction false} StallStep(p: ParserState, buf: ChunkBuf)
    requires Rank(p) > 1
    ensures Stall(p) != SYNC && Rank(Step(p, buf, Stall(p)).p) == Rank(p) - 1
  {
  }

  lemma {:induction false} StallFor(p: ParserState, buf: ChunkBuf, n: nat) returns (g: seq<byte>)
    requires n < Rank(p)
    ensures SyncFree(g) && |g| == n && Run(p, buf, g).p.st != Sync
    decreases n
  {
    if n == 0 {
      g := [];
    } else {
      var b := Stall(p);
      var s := Step(p, buf, b);
      StallStep(p, buf);
      var rest := StallFor(s.p, s.buf, n - 1);
      g := [b] + rest;
      assert g[1..] == rest;
    }
  }

  /** How long a gap must be, exactly, from any state. */
  lemma {:induction false} GapIsExact(p: ParserState, buf: ChunkBuf, n: nat)
    ensures (forall g | SyncFree(g) && |g| == n :: Run(p, buf, g).p.st == Sync) <==> n >= Rank(p)
  {
    if n >= Rank(p) {
      forall g | SyncFree(g) && |g| == n ensures Run(p, buf, g).p.st == Sync {
        Resync(p, buf, g);
      }
    } else {
      var g := StallFor(p, buf, n);
      assert SyncFree(g) && |g| == n && Run(p, buf, g).p.st != Sync;
    }
  }

  /** After a gap of RESYNC such bytes every frame list is parsed exactly again. */
  lemma {:induction false} ResyncThenExact(p: ParserState, buf: ChunkBuf, g: seq<byte>, ms: seq<Msg>)
    requires SyncFree(g) && |g| >= RESYNC && AllWellFormed(ms)
    ensures var r := Run(p, buf, g + EncodeAll(ms));
            && r.p.st == Sync && |ms| <= |r.out| <= |ms| + 1 && r.out[|r.out| - |ms|..] == ms
  {
    var r := Run(p, buf, g);
    Resync(p, buf, g);
    RunFrames(r.p, r.buf, ms);
    RunConcat(p, buf, g, EncodeAll(ms));
  }

  /** RESYNC - 1 such bytes need not be enough. */
  lemma {:induction false} ResyncIsTight(buf: ChunkBuf)
    ensures exists p: ParserState, g ::
              SyncFree(g) && |g| == RESYNC - 1 && Run(p, buf, g).p.st != Sync
  {
    var p: ParserState := FRESH.(st := Type);
    var g := StallFor(p, buf, RESYNC - 1);
  }

  // ---- Noise that ends in sync bytes ----

  function Syncs(k: nat): (s: seq<byte>)
    ensures |s| == k
  {
    seq(k, _ => SYNC)
  }

  lemma {:induction false} RunSyncs(p: ParserState, buf: ChunkBuf, k: nat)
    requires p.st == Sync
    ensures var r := Run(p, buf, Syncs(k)); r.out == [] && r.p.st == if k % 2 == 0 then Sync else Type
    decreases k
  {
    if k == 1 {
      assert Syncs(1) == [SYNC];
      RunOne(p, buf, SYNC);
    } else if k >= 2 {
      var r := Run(p, buf, [SYNC, SYNC]);
      var _ := RunTypeByte(p, buf, SYNC);
      assert Syncs(k) == [SYNC, SYNC] + Syncs(k - 2);
      RunConcat(p, buf, [SYNC, SYNC], Syncs(k - 2));
      RunSyncs(r.p, r.buf, k - 2);
    }
  }

  /** Noise that ends the current frame, if there is one, and itself ends in sync bytes: the
      frames after it are parsed exactly if and only if the number of those sync bytes is
      even. An odd one is taken for a frame start, and the next frame's own sync byte for its
      type. */
  lemma {:induction false} NoiseEndingInSyncs(p: ParserState, buf: ChunkBuf, g: seq<byte>, k: nat, ms: seq<Msg>)
    requires SyncFree(g) && |g| >= Rank(p) && AllWellFormed(ms) && ms != []
    ensures Run(p, buf, g + Syncs(k) + EncodeAll(ms)).out == Run(p, buf, g).out + ms <==> k % 2 == 0
  {
    var r := Run(p, buf, g);
    Resync(p, buf, g);
    AfterSyncs(r.p, r.buf, k, ms);
    RunConcat(p, buf, g, Syncs(k) + EncodeAll(ms));
    assert g + Syncs(k) + EncodeAll(ms) == g + (Syncs(k) + EncodeAll(ms));
    SameRest(r.out, Run(r.p, r.buf, Syncs(k) + EncodeAll(ms)).out, ms);
  }

  lemma {:induction false} AfterSyncs(p: ParserState, buf: ChunkBuf, k: nat, ms: seq<Msg>)
    requires p.st == Sync && AllWellFormed(ms) && ms != []
    ensures Run(p, buf, Syncs(k) + EncodeAll(ms)).out == ms <==> k % 2 == 0
  {
    var r := Run(p, buf, Syncs(k));
    RunSyncs(p, buf, k);
    RunConcat(p, buf, Syncs(k), EncodeAll(ms));
    if k % 2 == 0 {
      RunFrames(r.p, r.buf, ms);
    } else {
      SyncTakenForType(r.p, r.buf, ms);
    }
  }

  lemma {:induction false} SameRest<T>(a: seq<T>, b: seq<T>, c: seq<T>)
    ensures a + b == a + c <==> b == c
  {
    assert (a + b)[|a|..] == b && (a + c)[|a|..] == c;
  }

  lemma {:induction false} SyncTakenForType(p: ParserState, buf: ChunkBuf, ms: seq<Msg>)
    requires p.st == Type && ms != []
    ensures Run(p, buf, EncodeAll(ms)).out != ms
  {
    var all := EncodeAll(ms);
    assert all[0] == SYNC;
    var s := Step(p, buf, SYNC);
    assert s.p.st == Sync && s.out == [];
    NothingForged(s.p, s.buf, all[1..]);
    var later := Run(s.p, s.buf, all[1..]).out;
    assert [] + later == later;
    assert Run(p, buf, all).out == later;
  }

  // ---- Left inside a frame ----

  /** A message too long for the bytes cannot be among those dispatched. */
  lemma {:induction false} TooShortFor(p: ParserState, buf: ChunkBuf, bytes: seq<byte>, m: Msg)
    requires p.st == Sync && |bytes| < |Encode(m)|
    ensures m !in Run(p, buf, bytes).out
  {
    var out := Run(p, buf, bytes).out;
    NothingForged(p, buf, bytes);
    if m in out { AmongFrames(out, m); }
  }

  lemma {:induction false} AmongFrames(ms: seq<Msg>, m: Msg)
    requires m in ms
    ensures |Encode(m)| <= |EncodeAll(ms)|
    decreases |ms|
  {
    if ms[0] != m {
      AmongFrames(ms[1..], m);
    }
  }

  /** A parser inside a frame cannot dispatch a message of another type from no more bytes
      than that message's frame: what it dispatches first is its own frame. */
  lemma {:induction false} OwnFrameFirst(p: ParserState, buf: ChunkBuf, bytes: seq<byte>, m: Msg)
    requires p.st != Sync && p.st != Type && p.typ != m.typ && |bytes| <= |Encode(m)|
    ensures m !in Run(p, buf, bytes).out
    decreases |bytes|
  {
    if bytes != [] {
      var s := Step(p, buf, bytes[0]);
      StepKeepsType(p, buf, bytes[0]);
      if s.p.st == Sync {
        TooShortFor(s.p, s.buf, bytes[1..], m);
      } else {
        OwnFrameFirst(s.p, s.buf, bytes[1..], m);
      }
    }
  }

  lemma {:induction false} StepKeepsType(p: ParserState, buf: ChunkBuf, b: byte)
    requires p.st != Sync && p.st != Type
    ensures var s := Step(p, buf, b);
            && s.p.typ == p.typ && s.p.st != Type
            && (s.p.st != Sync ==> s.out == [])
            && forall m :: m in s.out ==> m.typ == p.typ
  {
  }

  /** A parser anywhere but in sync loses or mistakes some frame. */
  lemma {:induction false} SomeFrameLost(p: ParserState, buf: ChunkBuf) returns (ms: seq<Msg>)
    requires p.st != Sync
    ensures AllWellFormed(ms) && Run(p, buf, EncodeAll(ms)).out != ms
  {
    var m := if p.typ == KEYBOARD then Msg(MOUSE, Zeros(6)) else Msg(KEYBOARD, Zeros(8));
    ms := [m];
    assert EncodeAll([m]) == Encode(m) + [] == Encode(m);
    if p.st == Type {
      SyncTakenForType(p, buf, ms);
    } else {
      OwnFrameFirst(p, buf, Encode(m), m);
    }
  }

  /** Exactly a parser in sync reads every list of frames right. */
  lemma {:induction false} ExactIffInSync(p: ParserState, buf: ChunkBuf)
    ensures (forall ms | AllWellFormed(ms) :: Run(p, buf, EncodeAll(ms)).out == ms) <==> p.st == Sync
  {
    if p.st == Sync {
      forall ms | AllWellFormed(ms) ensures Run(p, buf, EncodeAll(ms)).out == ms {
        RunFrames(p, buf, ms);
      }
    } else {
      var ms := SomeFrameLost(p, buf);
      assert AllWellFormed(ms) && Run(p, buf, EncodeAll(ms)).out != ms;
    }
  }

  // ---- Recovery from frames alone ----

  /** A frame with no sync byte behind its own. */
  predicate Plain(m: Msg) {
    SyncFree(Encode(m)[1..])
  }

  predicate AllPlain(ms: seq<Msg>) {
    forall i :: 0 <= i < |ms| ==> Plain(ms[i])
  }

  /** Bytes without a sync byte use up the current frame. */
  lemma {:induction false} Drain(p: ParserState, buf: ChunkBuf, g: seq<byte>)
    requires SyncFree(g)
    ensures var r := Run(p, buf, g); r.p.st == Sync || Rank(r.p) + |g| <= Rank(p)
    decreases |g|
  {
    if g != [] {
      var s := Step(p, buf, g[0]);
      RankDecreases(p, buf, g[0]);
      Drain(s.p, s.buf, g[1..]);
    }
  }

  /** So does a plain frame, whose first byte may also bring the parser to sync. */
  lemma {:induction false} DrainFrame(p: ParserState, buf: ChunkBuf, m: Msg)
    requires p.st != Sync && Plain(m)
    ensures var r := Run(p, buf, Encode(m)); r.p.st == Sync || Rank(r.p) + |Encode(m)| <= Rank(p)
  {
    var s := Step(p, buf, Encode(m)[0]);
    RankDecreases(p, buf, Encode(m)[0]);
    Drain(s.p, s.buf, Encode(m)[1..]);
  }

  /** Enough plain frames, with no gap anywhere, bring any parser back to sync. */
  lemma {:induction false} FramesDrain(p: ParserState, buf: ChunkBuf, ms: seq<Msg>)
    requires AllWellFormed(ms) && AllPlain(ms) && |EncodeAll(ms)| >= Rank(p)
    ensures Run(p, buf, EncodeAll(ms)).p.st == Sync
    decreases |ms|
  {
    if p.st == Sync {
      RunFrames(p, buf, ms);
    } else {
      var r := Run(p, buf, Encode(ms[0]));
      DrainFrame(p, buf, ms[0]);
      FramesDrain(r.p, r.buf, ms[1..]);
      RunConcat(p, buf, Encode(ms[0]), EncodeAll(ms[1..]));
    }
  }

  /** Self-synchronisation: a parser left anywhere loses some of the first frames, and reads
      all later ones right, whatever they hold. */
  lemma {:induction false} SelfSynchronises(p: ParserState, buf: ChunkBuf, ms: seq<Msg>, later: seq<Msg>)
    requires AllWellFormed(ms) && AllPlain(ms) && |EncodeAll(ms)| >= Rank(p) && AllWellFormed(later)
    ensures var r := Run(p, buf, EncodeAll(ms) + EncodeAll(later));
            r.p.st == Sync && r.out == Run(p, buf, EncodeAll(ms)).out + later
  {
    var r := Run(p, buf, EncodeAll(ms));
    FramesDrain(p, buf, ms);
    RunFrames(r.p, r.buf, later);
    RunConcat(p, buf, EncodeAll(ms), EncodeAll(later));
  }
}
