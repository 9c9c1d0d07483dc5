/** A firmware update over an imperfect link: frames lost or damaged, a transfer broken off,
    and when the boot slot switches all the same. */
module OtaLoss {
  import opened Bytes
  import opened Wire
  import opened Parsing
  import opened ParserProperties
  import opened OtaUpdate

  /** Damage is detected: no frame is hit by masks the checksum cannot see. */
  predicate Detected(fs: seq<Fate>) {
    forall i :: 0 <= i < |fs| ==> fs[i].Hit? ==> !Undetected(fs[i])
  }

  predicate AllIntact(fs: seq<Fate>) {
    forall i :: 0 <= i < |fs| ==> fs[i].Intact?
  }

  function Arrived(ms: seq<Msg>, keep: seq<bool>): seq<Msg>
    requires |keep| == |ms|
  {
    if ms == [] then [] else (if keep[0] then [ms[0]] else []) + Arrived(ms[1..], keep[1..])
  }

  function Kept(fs: seq<Fate>): seq<bool> {
    seq(|fs|, i requires 0 <= i < |fs| => fs[i].Intact?)
  }

  lemma {:induction false} SurvivorsArrive(ms: seq<Msg>, fs: seq<Fate>)
    requires AllFit(fs, ms) && Detected(fs)
    ensures Survivors(ms, fs) == Arrived(ms, Kept(fs))
    decreases |ms|
  {
    if ms != [] {
      assert Kept(fs)[1..] == Kept(fs[1..]);
      SurvivorsArrive(ms[1..], fs[1..]);
    }
  }

  lemma {:induction false} ArrivedConcat(a: seq<Msg>, ka: seq<bool>, b: seq<Msg>, kb: seq<bool>)
    requires |ka| == |a| && |kb| == |b|
    ensures Arrived(a + b, ka + kb) == Arrived(a, ka) + Arrived(b, kb)
  {
    if a == [] {
      assert a + b == b && ka + kb == kb;
    } else {
      var first := if ka[0] then [a[0]] else [];
      assert Arrived(a + b, ka + kb) == first + Arrived(a[1..] + b, ka[1..] + kb) by {
        assert (a + b)[1..] == a[1..] + b && (ka + kb)[1..] == ka[1..] + kb;
      }
      ArrivedConcat(a[1..], ka[1..], b, kb);
      assert first + (Arrived(a[1..], ka[1..]) + Arrived(b, kb)) == first + Arrived(a[1..], ka[1..]) + Arrived(b, kb);
    }
  }

  lemma {:induction false} FineParts(fs: seq<Outcome>, i: nat, j: nat)
    requires AllFine(fs) && i <= j <= |fs|
    ensures AllFine(fs[..i]) && AllFine(fs[i..j]) && AllFine(fs[j..])
  {
  }

  /** Messages that arrive from three stretches of a transfer are handled in three steps. */
  lemma {:induction false} ArrivedInThree(o: Ota, token: seq<byte>, begin: Msg, chunks: seq<Msg>, end: Msg,
                                          keep: seq<bool>, fs: seq<Outcome>)
    returns (f0: seq<Outcome>, f1: seq<Outcome>, f2: seq<Outcome>)
    requires |keep| == |chunks| + 2 && |fs| == |Arrived([begin] + chunks + [end], keep)|
    ensures var n := |chunks|;
            var a1 := Arrived(chunks, keep[1..1 + n]);
            && |f0| == (if keep[0] then 1 else 0) && |f1| == |a1| && |f2| == (if keep[1 + n] then 1 else 0)
            && var o1 := if keep[0] then OnMsg(o, token, begin, f0[0]) else o;
               var o2 := OnMsgs(o1, token, a1, f1);
               OnMsgs(o, token, Arrived([begin] + chunks + [end], keep), fs)
               == if keep[1 + n] then OnMsg(o2, token, end, f2[0]) else o2
    ensures AllFine(fs) ==> AllFine(f0) && AllFine(f1) && AllFine(f2)
  {
    var n := |chunks|;
    var k0, k1, k2 := keep[..1], keep[1..1 + n], keep[1 + n..];
    assert keep == k0 + k1 + k2;
    ArrivedConcat([begin] + chunks, k0 + k1, [end], k2);
    ArrivedConcat([begin], k0, chunks, k1);
    var a0, a1, a2 := Arrived([begin], k0), Arrived(chunks, k1), Arrived([end], k2);
    f0, f1, f2 := fs[..|a0|], fs[|a0|..|a0| + |a1|], fs[|a0| + |a1|..];
    assert fs == f0 + f1 + f2;
    if AllFine(fs) {
      FineParts(fs, |a0|, |a0| + |a1|);
    }
    OnMsgsConcat(o, token, a0 + a1, f0 + f1, a2, f2);
    OnMsgsConcat(o, token, a0, f0, a1, f1);
    MaybeOne(o, token, begin, k0, f0);
    MaybeOne(OnMsgs(OnMsgs(o, token, a0, f0), token, a1, f1), token, end, k2, f2);
  }

  lemma {:induction false} MaybeOne(o: Ota, token: seq<byte>, m: Msg, keep: seq<bool>, fs: seq<Outcome>)
    requires |keep| == 1 && |fs| == |Arrived([m], keep)|
    ensures |fs| == if keep[0] then 1 else 0
    ensures OnMsgs(o, token, Arrived([m], keep), fs) == if keep[0] then OnMsg(o, token, m, fs[0]) else o
  {
    assert [m][1..] == [] && keep[1..] == [];
  }

  lemma {:induction false} AllArrive(ms: seq<Msg>, keep: seq<bool>)
    requires |keep| == |ms| && false !in keep
    ensures Arrived(ms, keep) == ms
  {
    if ms != [] {
      AllArrive(ms[1..], keep[1..]);
    }
  }

  // ---- Any message may be missing ----

  /** Chunks only ever add to the counter; any missing one leaves it short for good. */
  lemma {:induction false} SomeChunks(o: Ota, token: seq<byte>, data: seq<byte>, keep: seq<bool>, fs: seq<Outcome>)
    requires |keep| == |ChunkMsgs(data)| && |fs| == |Arrived(ChunkMsgs(data), keep)|
    requires CounterTracks(o) && (o.active ==> o.written + |data| < TWO32)
    ensures var o' := OnMsgs(o, token, Arrived(ChunkMsgs(data), keep), fs);
            && CounterTracks(o') && Switches(o'.log) == Switches(o.log)
            && (!o.active ==> o' == o)
            && (o'.active && o.active ==> o'.written <= o.written + |data|)
            && (o'.active && o.active && false in keep ==> o'.written < o.written + |data|)
    decreases |data|
  {
    if data != [] {
      var ms, n := ChunkMsgs(data), Min(MAX_CHUNK, |data|);
      assert ms[1..] == ChunkMsgs(data[n..]) && ms[0] == Msg(OTA_DATA, data[..n]);
      if keep[0] {
        var rest := Arrived(ms[1..], keep[1..]);
        assert Arrived(ms, keep)[1..] == rest;
        SwitchesExactly(o, token, ms[0], fs[0]);
        SomeChunks(OnMsg(o, token, ms[0], fs[0]), token, data[n..], keep[1..], fs[1..]);
      } else {
        assert Arrived(ms, keep) == Arrived(ms[1..], keep[1..]);
        SomeChunks(o, token, data[n..], keep[1..], fs);
      }
    }
  }

  lemma {:induction false} BeginResets(o: Ota, token: seq<byte>, size: nat, f: Outcome)
    requires CounterTracks(o) && (!o.active || |token| < 256)
    ensures var o1 := OnMsg(o, token, BeginMsg(token, size), f);
            CounterTracks(o1) && Switches(o1.log) == Switches(o.log) && (o1.active ==> o1.written == 0)
  {
    var p := BeginMsg(token, size).data;
    BeginKeeps(o, token, p, f);
    assert |token| < 256 ==> p[0] as int == |token| && p[1..1 + |token|] == token;
  }

  /** The counter is short of the size in the END, so nothing switches. */
  lemma {:induction false} EndRefused(o: Ota, token: seq<byte>, size: nat, f: Outcome)
    requires CounterTracks(o) && size < TWO32 && (o.active ==> o.written != size)
    ensures Switches(OnMsg(o, token, EndMsg(size), f).log) == Switches(o.log)
  {
    EndSwitchesExactly(o, EndMsg(size).data, f);
    Le32Inverse(size);
  }

  /** A transfer with any message missing switches nothing, whatever the driver returns, if
      its BEGIN arrives or no update was running before. */
  lemma {:induction false} LossIsSafe(o: Ota, token: seq<byte>, image: seq<byte>, keep: seq<bool>, fs: seq<Outcome>)
    requires CounterTracks(o) && 0 < |image| < TWO32
    requires |keep| == |Transfer(token, image)| && false in keep
    requires !o.active || (keep[0] && |token| < 256)
    requires |fs| == |Arrived(Transfer(token, image), keep)|
    ensures Switches(OnMsgs(o, token, Arrived(Transfer(token, image), keep), fs).log) == Switches(o.log)
  {
    var begin, chunks, end, n := BeginMsg(token, |image|), ChunkMsgs(image), EndMsg(|image|), |ChunkMsgs(image)|;
    var f0, f1, f2 := ArrivedInThree(o, token, begin, chunks, end, keep, fs);
    var k1 := keep[1..1 + n];
    var o1 := if keep[0] then OnMsg(o, token, begin, f0[0]) else o;
    if keep[0] { BeginResets(o, token, |image|, f0[0]); }
    SomeChunks(o1, token, image, k1, f1);
    if keep[1 + n] {
      assert keep[0] ==> false in k1 by { assert keep == [keep[0]] + k1 + [keep[1 + n]]; }
      EndRefused(OnMsgs(o1, token, Arrived(chunks, k1), f1), token, |image|, f2[0]);
    }
  }

  /** The part of the image whose chunks arrived. */
  function KeptData(image: seq<byte>, keep: seq<bool>): seq<byte>
    requires |keep| == |ChunkMsgs(image)|
  {
    DataOf(Arrived(ChunkMsgs(image), keep))
  }

  lemma {:induction false} KeptDataFull(image: seq<byte>, keep: seq<bool>)
    requires |keep| == |ChunkMsgs(image)|
    ensures |KeptData(image, keep)| <= |image|
    ensures |KeptData(image, keep)| == |image| <==> false !in keep
    decreases |image|
  {
    if image != [] {
      var n := Min(MAX_CHUNK, |image|);
      var ms, rest := ChunkMsgs(image), image[n..];
      assert ms[1..] == ChunkMsgs(rest) && keep == [keep[0]] + keep[1..];
      KeptDataFull(rest, keep[1..]);
      var later := Arrived(ms[1..], keep[1..]);
      if keep[0] {
        assert Arrived(ms, keep)[1..] == later;
      } else {
        assert Arrived(ms, keep) == later;
      }
    }
  }

  /** Whether a transfer of which only some messages arrive switches the boot slot. All of
      them do; or the BEGIN is lost, an update left over from before takes the chunks, and
      its bytes and theirs happen to add up to the size in the END. */
  predicate SwitchesAnyway(o: Ota, image: seq<byte>, keep: seq<bool>)
    requires |keep| == |ChunkMsgs(image)| + 2
  {
    var n := |keep| - 1;
    keep[n] &&
    (false !in keep ||
     (!keep[0] && o.active && (o.written + |KeptData(image, keep[1..n])|) % TWO32 == |image|))
  }

  /** The exact law of losses, from any state the firmware can be in, with a driver that
      agrees: whether the slot switches, and what is in it. */
  lemma {:induction false} LossExactly(o: Ota, token: seq<byte>, image: seq<byte>, keep: seq<bool>, fs: seq<Outcome>)
    requires CounterTracks(o) && |token| <= 123 && 0 < |image| < TWO32
    requires |keep| == |ChunkMsgs(image)| + 2
    requires |fs| == |Arrived(Transfer(token, image), keep)| && AllFine(fs)
    ensures var o' := OnMsgs(o, token, Arrived(Transfer(token, image), keep), fs);
            && Switches(o'.log) == Switches(o.log) + (if SwitchesAnyway(o, image, keep) then 1 else 0)
            && Image(o'.log) == (if keep[0] then [] else Image(o.log))
                                + (if keep[0] || o.active then KeptData(image, keep[1..|keep| - 1]) else [])
  {
    var o2 := BeforeEnd(o, token, image, keep, fs);
    WhenItSwitches(o, image, keep);
    EndSettles(o2, image);
  }

  lemma {:induction false} WhenItSwitches(o: Ota, image: seq<byte>, keep: seq<bool>)
    requires |image| < TWO32 && |keep| == |ChunkMsgs(image)| + 2
    ensures var n, before := |keep| - 1, if keep[0] then 0 else o.written;
            SwitchesAnyway(o, image, keep) <==>
              keep[n] && (keep[0] || o.active) && (before + |KeptData(image, keep[1..n])|) % TWO32 == |image|
  {
    var k1 := keep[1..|keep| - 1];
    KeptDataFull(image, k1);
    assert keep == [keep[0]] + k1 + [keep[|keep| - 1]];
  }

  /** The run up to the END, and the END. */
  lemma {:induction false} BeforeEnd(o: Ota, token: seq<byte>, image: seq<byte>, keep: seq<bool>, fs: seq<Outcome>)
    returns (o2: Ota)
    requires CounterTracks(o) && |token| <= 123 && |image| < TWO32
    requires |keep| == |ChunkMsgs(image)| + 2
    requires |fs| == |Arrived(Transfer(token, image), keep)| && AllFine(fs)
    ensures var kept := KeptData(image, keep[1..|keep| - 1]);
            && CounterTracks(o2) && Switches(o2.log) == Switches(o.log) && o2.active == (keep[0] || o.active)
            && (o2.active ==> o2.written == ((if keep[0] then 0 else o.written) + |kept|) % TWO32)
            && Image(o2.log) == (if keep[0] then [] else Image(o.log)) + if o2.active then kept else []
    ensures OnMsgs(o, token, Arrived(Transfer(token, image), keep), fs)
         == if keep[|keep| - 1] then OnMsg(o2, token, EndMsg(|image|), FINE) else o2
  {
    var f1 := Stages(o, token, image, keep, fs);
    var k1 := keep[1..|keep| - 1];
    var o1 := if keep[0] then OnMsg(o, token, BeginMsg(token, |image|), FINE) else o;
    o2 := OnMsgs(o1, token, Arrived(ChunkMsgs(image), k1), f1);
    UpToEnd(o, token, image, keep[0], k1, f1);
  }

  lemma {:induction false} Stages(o: Ota, token: seq<byte>, image: seq<byte>, keep: seq<bool>, fs: seq<Outcome>)
    returns (f1: seq<Outcome>)
    requires |keep| == |ChunkMsgs(image)| + 2
    requires |fs| == |Arrived(Transfer(token, image), keep)| && AllFine(fs)
    ensures var arrived := Arrived(ChunkMsgs(image), keep[1..|keep| - 1]);
            && |f1| == |arrived| && AllFine(f1)
            && var o1 := if keep[0] then OnMsg(o, token, BeginMsg(token, |image|), FINE) else o;
               var o2 := OnMsgs(o1, token, arrived, f1);
               OnMsgs(o, token, Arrived(Transfer(token, image), keep), fs)
               == if keep[|keep| - 1] then OnMsg(o2, token, EndMsg(|image|), FINE) else o2
  {
    var f0, f, f2 := ArrivedInThree(o, token, BeginMsg(token, |image|), ChunkMsgs(image), EndMsg(|image|), keep, fs);
    f1 := f;
    assert keep[0] ==> f0[0] == FINE;
    assert keep[|keep| - 1] ==> f2[0] == FINE;
  }

  /** The state when the END is due. */
  lemma {:induction false} UpToEnd(o: Ota, token: seq<byte>, image: seq<byte>, begun: bool, keep: seq<bool>,
                                   fs: seq<Outcome>)
    requires CounterTracks(o) && |token| <= 123 && |image| < TWO32 && |keep| == |ChunkMsgs(image)|
    requires |fs| == |Arrived(ChunkMsgs(image), keep)| && AllFine(fs)
    ensures var o1 := if begun then OnMsg(o, token, BeginMsg(token, |image|), FINE) else o;
            var o2 := OnMsgs(o1, token, Arrived(ChunkMsgs(image), keep), fs);
            && CounterTracks(o2) && Switches(o2.log) == Switches(o.log) && o2.active == (begun || o.active)
            && (o2.active ==> o2.written == ((if begun then 0 else o.written) + |KeptData(image, keep)|) % TWO32)
            && Image(o2.log) == (if begun then [] else Image(o.log)) + if o2.active then KeptData(image, keep) else []
  {
    var o1 := if begun then OnMsg(o, token, BeginMsg(token, |image|), FINE) else o;
    if begun { BegunEmpty(o, token, |image|); }
    KeptChunks(o1, token, image, keep, fs);
  }

  lemma {:induction false} KeptChunks(o: Ota, token: seq<byte>, image: seq<byte>, keep: seq<bool>, fs: seq<Outcome>)
    requires CounterTracks(o) && |keep| == |ChunkMsgs(image)|
    requires |fs| == |Arrived(ChunkMsgs(image), keep)| && AllFine(fs)
    ensures var o' := OnMsgs(o, token, Arrived(ChunkMsgs(image), keep), fs);
            && CounterTracks(o') && Switches(o'.log) == Switches(o.log) && o'.active == o.active
            && (o.active ==> o'.written == (o.written + |KeptData(image, keep)|) % TWO32)
            && Image(o'.log) == Image(o.log) + if o.active then KeptData(image, keep) else []
  {
    var ms := Arrived(ChunkMsgs(image), keep);
    ArrivedChunks(image, keep);
    if o.active {
      DataWritten(o, token, ms, fs);
      ImageOfWrites(o.log, ms);
      WritesSwitchNothing(o.log, ms);
      assert (o.written + |DataOf(ms)|) % TWO32 == (|Image(o.log)| + |DataOf(ms)|) % TWO32 by {
        ModAdd(|Image(o.log)|, |DataOf(ms)|);
      }
    } else {
      DataIgnored(o, token, ms, fs);
    }
  }

  lemma {:induction false} ArrivedChunks(image: seq<byte>, keep: seq<bool>)
    requires |keep| == |ChunkMsgs(image)|
    ensures forall i :: 0 <= i < |Arrived(ChunkMsgs(image), keep)| ==> Arrived(ChunkMsgs(image), keep)[i].typ == OTA_DATA
  {
    var ms := Arrived(ChunkMsgs(image), keep);
    ChunksWellFormed(image);
    ArrivedAmong(ChunkMsgs(image), keep);
    forall i | 0 <= i < |ms| ensures ms[i].typ == OTA_DATA {
      assert ms[i] in ms;
    }
  }

  lemma {:induction false} ArrivedAmong(ms: seq<Msg>, keep: seq<bool>)
    requires |keep| == |ms|
    ensures forall m :: m in Arrived(ms, keep) ==> m in ms
    decreases |ms|
  {
    if ms != [] {
      ArrivedAmong(ms[1..], keep[1..]);
    }
  }

  lemma {:induction false} DataIgnored(o: Ota, token: seq<byte>, ms: seq<Msg>, fs: seq<Outcome>)
    requires !o.active && |fs| == |ms| && forall i :: 0 <= i < |ms| ==> ms[i].typ == OTA_DATA
    ensures OnMsgs(o, token, ms, fs) == o
    decreases |ms|
  {
    if ms != [] {
      DataIgnored(o, token, ms[1..], fs[1..]);
    }
  }

  /** It does happen. One transfer is broken off after its first chunk, and of the next the
      BEGIN and the first chunk are lost: the slot switches once, and holds half of either
      image. */
  lemma {:induction false} MixedImage(token: seq<byte>, a: seq<byte>, b: seq<byte>)
    requires |token| <= 123 && |a| == |b| == 2 * MAX_CHUNK
    ensures |Transfer(token, a)| == |Transfer(token, b)| == 4
    ensures var first := Arrived(Transfer(token, a), [true, true, false, false]);
            var second := Arrived(Transfer(token, b), [false, false, true, true]);
            && |first| == |second| == 2
            && var o := OnMsgs(Ota(false, 0, []), token, first + second, [FINE, FINE] + [FINE, FINE]);
               Switches(o.log) == 1 && Image(o.log) == a[..MAX_CHUNK] + b[MAX_CHUNK..]
  {
    HalfKept(a);
    HalfKept(b);
    var first := Arrived(Transfer(token, a), [true, true, false, false]);
    var second := Arrived(Transfer(token, b), [false, false, true, true]);
    TwoArrive(BeginMsg(token, |a|), ChunkMsgs(a)[0], ChunkMsgs(a)[1], EndMsg(|a|));
    TwoArrive(BeginMsg(token, |b|), ChunkMsgs(b)[0], ChunkMsgs(b)[1], EndMsg(|b|));
    assert Transfer(token, a) == [BeginMsg(token, |a|), ChunkMsgs(a)[0], ChunkMsgs(a)[1], EndMsg(|a|)];
    assert Transfer(token, b) == [BeginMsg(token, |b|), ChunkMsgs(b)[0], ChunkMsgs(b)[1], EndMsg(|b|)];
    var o1 := BrokenOff(token, a, [true, true, false, false], [FINE, FINE]);
    Completed(o1, token, a, b, [false, false, true, true], [FINE, FINE]);
    OnMsgsConcat(Ota(false, 0, []), token, first, [FINE, FINE], second, [FINE, FINE]);
  }

  lemma {:induction false} ArrivedCons(m: Msg, ms: seq<Msg>, k: bool, keep: seq<bool>)
    requires |keep| == |ms|
    ensures Arrived([m] + ms, [k] + keep) == (if k then [m] else []) + Arrived(ms, keep)
  {
    assert ([m] + ms)[1..] == ms && ([k] + keep)[1..] == keep;
  }

  lemma {:induction false} ArrivedPair(a: Msg, b: Msg, k: bool)
    ensures Arrived([a, b], [k, k]) == if k then [a, b] else []
  {
    ArrivedCons(a, [b], k, [k]);
    ArrivedOne(b, k);
    assert [a] + [b] == [a, b] && [k] + [k] == [k, k];
  }

  lemma {:induction false} TwoArrive(a: Msg, b: Msg, c: Msg, d: Msg)
    ensures Arrived([a, b, c, d], [true, true, false, false]) == [a, b]
    ensures Arrived([a, b, c, d], [false, false, true, true]) == [c, d]
  {
    assert [a, b] + [c, d] == [a, b, c, d];
    assert [true, true] + [false, false] == [true, true, false, false];
    assert [false, false] + [true, true] == [false, false, true, true];
    ArrivedConcat([a, b], [true, true], [c, d], [false, false]);
    ArrivedConcat([a, b], [false, false], [c, d], [true, true]);
    ArrivedPair(a, b, true);
    ArrivedPair(a, b, false);
    ArrivedPair(c, d, true);
    ArrivedPair(c, d, false);
  }

  lemma {:induction false} BrokenOff(token: seq<byte>, a: seq<byte>, keep: seq<bool>, fs: seq<Outcome>) returns (o1: Ota)
    requires |token| <= 123 && |a| == 2 * MAX_CHUNK
    requires |ChunkMsgs(a)| == 2 && keep == [true, true, false, false]
    requires |fs| == |Arrived(Transfer(token, a), keep)| && AllFine(fs)
    ensures o1 == OnMsgs(Ota(false, 0, []), token, Arrived(Transfer(token, a), keep), fs)
    ensures o1.active && o1.written == MAX_CHUNK && Image(o1.log) == a[..MAX_CHUNK] && Switches(o1.log) == 0
    ensures CounterTracks(o1)
  {
    o1 := BeforeEnd(Ota(false, 0, []), token, a, keep, fs);
    assert keep[1..3] == [true, false];
    HalfKept(a);
  }

  lemma {:induction false} Completed(o1: Ota, token: seq<byte>, a: seq<byte>, b: seq<byte>, keep: seq<bool>,
                                     gs: seq<Outcome>)
    requires |token| <= 123 && |a| == |b| == 2 * MAX_CHUNK
    requires |ChunkMsgs(b)| == 2 && keep == [false, false, true, true]
    requires o1.active && o1.written == MAX_CHUNK && Image(o1.log) == a[..MAX_CHUNK] && CounterTracks(o1)
    requires |gs| == |Arrived(Transfer(token, b), keep)| && AllFine(gs)
    ensures var o2 := OnMsgs(o1, token, Arrived(Transfer(token, b), keep), gs);
            Switches(o2.log) == Switches(o1.log) + 1 && Image(o2.log) == a[..MAX_CHUNK] + b[MAX_CHUNK..]
  {
    assert keep[1..3] == [false, true];
    HalfKept(b);
    LossExactly(o1, token, b, keep, gs);
  }

  lemma {:induction false} HalfKept(image: seq<byte>)
    requires |image| == 2 * MAX_CHUNK
    ensures |ChunkMsgs(image)| == 2
    ensures KeptData(image, [true, false]) == image[..MAX_CHUNK]
    ensures KeptData(image, [false, true]) == image[MAX_CHUNK..]
  {
    var a, b := image[..MAX_CHUNK], image[MAX_CHUNK..];
    OneChunk(b);
    assert ChunkMsgs(image) == [Msg(OTA_DATA, a)] + ChunkMsgs(b);
    assert ChunkMsgs(image) == [Msg(OTA_DATA, a), Msg(OTA_DATA, b)];
    KeepOne(Msg(OTA_DATA, a), Msg(OTA_DATA, b));
  }

  lemma {:induction false} OneChunk(data: seq<byte>)
    requires |data| == MAX_CHUNK
    ensures ChunkMsgs(data) == [Msg(OTA_DATA, data)]
  {
    assert data[..|data|] == data && data[|data|..] == [];
    assert ChunkMsgs([]) == [];
  }

  lemma {:induction false} KeepOne(a: Msg, b: Msg)
    ensures DataOf(Arrived([a, b], [true, false])) == a.data
    ensures DataOf(Arrived([a, b], [false, true])) == b.data
  {
    ArrivedCons(a, [b], true, [false]);
    ArrivedCons(a, [b], false, [true]);
    assert [a] + [b] == [a, b] && [true] + [false] == [true, false] && [false] + [true] == [false, true];
    ArrivedOne(b, false);
    ArrivedOne(b, true);
    assert [a] + [] == [a] && [] + [b] == [b];
    DataOfOne(a);
    DataOfOne(b);
  }

  lemma {:induction false} ArrivedOne(m: Msg, keep: bool)
    ensures Arrived([m], [keep]) == if keep then [m] else []
  {
    assert [m][1..] == [] && [keep][1..] == [];
  }

  lemma {:induction false} DataOfOne(m: Msg)
    ensures DataOf([m]) == m.data
  {
    assert [m][1..] == [] && m.data + [] == m.data;
  }

  // ---- On the wire ----

  /** Frames delivered, dropped or detectably damaged in any combination: the boot slot
      switches exactly as the law of losses says. */
  lemma {:induction false} SwitchesUnderLoss(p: ParserState, buf: ChunkBuf, o: Ota, token: seq<byte>, image: seq<byte>,
                                             fates: seq<Fate>, fs: seq<Outcome>)
    requires p.st == Sync && CounterTracks(o) && |token| <= 123 && 0 < |image| < TWO32
    requires AllFit(fates, Transfer(token, image)) && Detected(fates)
    requires |fs| == |Run(p, buf, DeliveredAll(Transfer(token, image), fates)).out| && AllFine(fs)
    ensures var out := Run(p, buf, DeliveredAll(Transfer(token, image), fates)).out;
            Switches(OnMsgs(o, token, out, fs).log)
            == Switches(o.log) + if SwitchesAnyway(o, image, Kept(fates)) then 1 else 0
  {
    TransferWellFormed(token, image);
    LossyStream(p, buf, Transfer(token, image), fates);
    SurvivorsArrive(Transfer(token, image), fates);
    LossExactly(o, token, image, Kept(fates), fs);
  }

  /** With no update left over, it switches if and only if every single frame arrived intact. */
  lemma {:induction false} SwitchesIffNothingLost(p: ParserState, buf: ChunkBuf, o: Ota, token: seq<byte>, image: seq<byte>,
                                                  fates: seq<Fate>, fs: seq<Outcome>)
    requires p.st == Sync && !o.active && |token| <= 123 && 0 < |image| < TWO32
    requires AllFit(fates, Transfer(token, image)) && Detected(fates)
    requires |fs| == |Run(p, buf, DeliveredAll(Transfer(token, image), fates)).out| && AllFine(fs)
    ensures var out := Run(p, buf, DeliveredAll(Transfer(token, image), fates)).out;
            Switches(OnMsgs(o, token, out, fs).log) == Switches(o.log) + if AllIntact(fates) then 1 else 0
  {
    SwitchesUnderLoss(p, buf, o, token, image, fates, fs);
    var keep, n := Kept(fates), |fates| - 1;
    if !AllIntact(fates) {
      var i :| 0 <= i < |fates| && !fates[i].Intact?;
      assert keep[i] == false;
    }
    assert AllIntact(fates) ==> keep[n];
  }

  // ---- A transfer broken off ----

  /** The link carries only a proper part of the transfer's bytes, torn anywhere, even inside
      a frame: nothing switches, whatever the driver returns, whatever was going on before, and
      whatever the token. (With a token too long for any frame no update can have been running.) */
  lemma {:induction false} InterruptedIsSafe(p: ParserState, buf: ChunkBuf, o: Ota, token: seq<byte>, image: seq<byte>,
                                             pieces: seq<seq<byte>>, fs: seq<Outcome>)
    requires p.st == Sync && CounterTracks(o) && (o.active ==> |token| <= 123) && 0 < |image| < TWO32
    requires Flatten(pieces) < EncodeAll(Transfer(token, image)) && |fs| == |RunPieces(p, buf, pieces).out|
    ensures Switches(OnMsgs(o, token, RunPieces(p, buf, pieces).out, fs).log) == Switches(o.log)
  {
    var out := RunPieces(p, buf, pieces).out;
    RunPiecesIsRun(p, buf, pieces);
    if |token| <= 123 {
      var n := OutOfPart(p, buf, token, image, Flatten(pieces));
      FirstMissRest(o, token, image, n, fs);
    } else {
      NothingForged(p, buf, Flatten(pieces));
      LongTokenNeverBegins(o, token, out, fs);
    }
  }

  lemma {:induction false} FirstMissRest(o: Ota, token: seq<byte>, image: seq<byte>, n: nat, fs: seq<Outcome>)
    requires CounterTracks(o) && |token| <= 123 && 0 < |image| < TWO32
    requires |fs| == n < |Transfer(token, image)|
    ensures Switches(OnMsgs(o, token, Transfer(token, image)[..n], fs).log) == Switches(o.log)
  {
    var ms := Transfer(token, image);
    FirstArrive(ms, n);
    if n > 0 {
      assert FirstOnly(|ms|, n)[n] == false && FirstOnly(|ms|, n)[0];
      LossIsSafe(o, token, image, FirstOnly(|ms|, n), fs);
    }
  }

  /** Part of the bytes dispatches the first messages and not all of them. */
  lemma {:induction false} OutOfPart(p: ParserState, buf: ChunkBuf, token: seq<byte>, image: seq<byte>, bytes: seq<byte>)
    returns (n: nat)
    requires p.st == Sync && |token| <= 123 && bytes < EncodeAll(Transfer(token, image))
    ensures n < |Transfer(token, image)| && Run(p, buf, bytes).out == Transfer(token, image)[..n]
  {
    var ms, out := Transfer(token, image), Run(p, buf, bytes).out;
    TransferWellFormed(token, image);
    PartialTraffic(p, buf, ms, bytes);
    NothingForged(p, buf, bytes);
    assert |EncodeAll(out)| <= |bytes| < |EncodeAll(ms)|;
    assert out != ms;
    n := |out|;
  }

  function FirstOnly(len: nat, n: nat): seq<bool> {
    seq(len, i => i < n)
  }

  lemma {:induction false} FirstArrive(ms: seq<Msg>, n: nat)
    requires n <= |ms|
    ensures Arrived(ms, FirstOnly(|ms|, n)) == ms[..n]
  {
    if ms != [] {
      var rest := ms[1..];
      if n == 0 {
        assert FirstOnly(|ms|, 0)[1..] == FirstOnly(|rest|, 0);
        FirstArrive(rest, 0);
      } else {
        assert FirstOnly(|ms|, n)[1..] == FirstOnly(|rest|, n - 1);
        FirstArrive(rest, n - 1);
        assert ms[..n] == [ms[0]] + rest[..n - 1];
      }
    }
  }

  /** Of all the ways a run of the daemon can stop, exactly the complete one with a token that
      fits switches the boot slot, whatever was going on before. */
  lemma {:induction false} TransferWorksIff(p: ParserState, buf: ChunkBuf, o: Ota, token: seq<byte>, image: seq<byte>,
                                            pieces: seq<seq<byte>>, fs: seq<Outcome>)
    requires p.st == Sync && CounterTracks(o) && (o.active ==> |token| <= 123) && 0 < |image| < TWO32
    requires Flatten(pieces) <= EncodeAll(Transfer(token, image))
    requires |fs| == |RunPieces(p, buf, pieces).out| && AllFine(fs)
    ensures Switches(OnMsgs(o, token, RunPieces(p, buf, pieces).out, fs).log) == Switches(o.log) + 1 <==>
              |token| <= 123 && Flatten(pieces) == EncodeAll(Transfer(token, image))
  {
    if Flatten(pieces) != EncodeAll(Transfer(token, image)) {
      InterruptedIsSafe(p, buf, o, token, image, pieces, fs);
    } else if |token| <= 123 {
      TransferWellFormed(token, image);
      StreamRoundTrip(p, buf, Transfer(token, image), pieces);
      TransferApplied(o, token, image, fs);
    } else {
      RunPiecesIsRun(p, buf, pieces);
      NothingForged(p, buf, Flatten(pieces));
      LongTokenNeverBegins(o, token, RunPieces(p, buf, pieces).out, fs);
    }
  }

  /** A transfer made with another token than the board's, whole or in part, does nothing. */
  lemma {:induction false} OtherTokenDoesNothing(p: ParserState, buf: ChunkBuf, o: Ota, token: seq<byte>, other: seq<byte>,
                                                 image: seq<byte>, pieces: seq<seq<byte>>, fs: seq<Outcome>)
    requires p.st == Sync && !o.active && |other| <= 123 && other != token
    requires Flatten(pieces) <= EncodeAll(Transfer(other, image)) && |fs| == |RunPieces(p, buf, pieces).out|
    ensures var o' := OnMsgs(o, token, RunPieces(p, buf, pieces).out, fs); !o'.active && o'.log == o.log
  {
    var ms, out := Transfer(other, image), RunPieces(p, buf, pieces).out;
    RunPiecesIsRun(p, buf, pieces);
    TransferWellFormed(other, image);
    PartialTraffic(p, buf, ms, Flatten(pieces));
    forall i | 0 <= i < |out| && out[i].typ == OTA_BEGIN ensures !Presents(token, out[i].data) {
      assert out[i] == ms[i];
      ChunksWellFormed(image);
      if Presents(token, BeginMsg(other, |image|).data) {
        PresentsOne(token, other, |image|);
        assert false;
      }
    }
    NothingWithoutToken(o, token, out, fs);
  }

  /** The payload begins with one token only. */
  lemma {:induction false} PresentsOne(token: seq<byte>, other: seq<byte>, size: nat)
    requires |other| < 256 && Presents(token, BeginMsg(other, size).data)
    ensures other == token
  {
    var p := BeginMsg(other, size).data;
    var n: nat, rest :| n < TWO32 && p == BeginMsg(token, n).data + rest;
    assert p[0] as int == |token| == |other|;
    assert p[1..1 + |token|] == token && p[1..1 + |other|] == other;
  }
}
