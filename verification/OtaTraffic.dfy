/** An update among other messages: reports change nothing, a restart ends it, and frames on
    other transports leave it alone. */
module OtaTraffic {
  import opened Bytes
  import opened Wire
  import opened Parsing
  import opened ParserProperties
  import opened Transports
  import opened OtaUpdate

  function OtaPart(ms: seq<Msg>): seq<Msg> {
    if ms == [] then [] else (if IsOta(ms[0]) then [ms[0]] else []) + OtaPart(ms[1..])
  }

  /** The outcomes that belong to those messages. */
  function OtaOutcomes(ms: seq<Msg>, fs: seq<Outcome>): (r: seq<Outcome>)
    requires |fs| == |ms|
    ensures |r| == |OtaPart(ms)|
  {
    if ms == [] then [] else (if IsOta(ms[0]) then [fs[0]] else []) + OtaOutcomes(ms[1..], fs[1..])
  }

  /** Reports and rejected credentials between the messages of a transfer change nothing. */
  lemma {:induction false} OtherTrafficIsIgnored(o: Ota, token: seq<byte>, ms: seq<Msg>, fs: seq<Outcome>)
    requires |fs| == |ms| && NoRestart(ms)
    ensures OnMsgs(o, token, ms, fs) == OnMsgs(o, token, OtaPart(ms), OtaOutcomes(ms, fs))
    decreases |ms|
  {
    if ms != [] {
      OtherTrafficIsIgnored(OnMsg(o, token, ms[0], fs[0]), token, ms[1..], fs[1..]);
      if IsOta(ms[0]) {
        assert OtaPart(ms)[1..] == OtaPart(ms[1..]) && OtaOutcomes(ms, fs)[1..] == OtaOutcomes(ms[1..], fs[1..]);
      } else {
        assert OtaPart(ms) == OtaPart(ms[1..]) && OtaOutcomes(ms, fs) == OtaOutcomes(ms[1..], fs[1..]);
      }
    }
  }

  lemma {:induction false} OutcomesFine(ms: seq<Msg>, fs: seq<Outcome>)
    requires |fs| == |ms| && AllFine(fs)
    ensures AllFine(OtaOutcomes(ms, fs))
    decreases |ms|
  {
    if ms != [] {
      OutcomesFine(ms[1..], fs[1..]);
    }
  }

  // ---- Restarts ----

  /** The board restarts between a BEGIN and an END after it. */
  predicate RestartsDuring(ms: seq<Msg>) {
    exists i, j, k :: 0 <= i < j < k < |ms| && ms[i].typ == OTA_BEGIN && Restarts(ms[j]) && ms[k].typ == OTA_END
  }

  lemma {:induction false} OtaPartConcat(a: seq<Msg>, b: seq<Msg>)
    ensures OtaPart(a + b) == OtaPart(a) + OtaPart(b)
  {
    if a == [] {
      assert a + b == b;
    } else {
      var first := if IsOta(a[0]) then [a[0]] else [];
      assert (a + b)[0] == a[0] && (a + b)[1..] == a[1..] + b;
      OtaPartConcat(a[1..], b);
      assert first + (OtaPart(a[1..]) + OtaPart(b)) == first + OtaPart(a[1..]) + OtaPart(b);
    }
  }

  lemma {:induction false} OtaPartOf(ms: seq<Msg>)
    ensures forall m :: m in OtaPart(ms) <==> m in ms && IsOta(m)
  {
    if ms != [] {
      OtaPartOf(ms[1..]);
      assert ms == [ms[0]] + ms[1..];
    }
  }

  /** Where the first OTA message is. */
  lemma {:induction false} FirstOta(ms: seq<Msg>, first: Msg, rest: seq<Msg>) returns (i: nat)
    requires OtaPart(ms) == [first] + rest
    ensures i < |ms| && ms[i] == first && OtaPart(ms[..i]) == [] && OtaPart(ms[i + 1..]) == rest
    decreases |ms|
  {
    if IsOta(ms[0]) {
      i := 0;
      assert OtaPart(ms)[0] == ms[0] && OtaPart(ms)[1..] == OtaPart(ms[1..]);
    } else {
      assert OtaPart(ms) == OtaPart(ms[1..]);
      var k := FirstOta(ms[1..], first, rest);
      i := k + 1;
      assert ms[..i][1..] == ms[1..][..k] && ms[1..][k + 1..] == ms[i + 1..];
    }
  }

  /** Where the last OTA message is. */
  lemma {:induction false} LastOta(ms: seq<Msg>, front: seq<Msg>, last: Msg) returns (i: nat)
    requires OtaPart(ms) == front + [last]
    ensures i < |ms| && ms[i] == last && OtaPart(ms[..i]) == front && OtaPart(ms[i + 1..]) == []
    decreases |ms|
  {
    var n := |ms| - 1;
    var before, m := ms[..n], ms[n];
    assert ms == before + [m];
    OtaPartConcat(before, [m]);
    assert OtaPart([m]) == if IsOta(m) then [m] else [] by { assert [m][1..] == []; }
    if IsOta(m) {
      i := n;
      assert OtaPart(before) == (OtaPart(before) + [m])[..|front|];
    } else {
      assert OtaPart(before) + [] == OtaPart(before);
      i := LastOta(before, front, last);
      assert before[..i] == ms[..i] && ms[i + 1..] == before[i + 1..] + [m];
      OtaPartConcat(before[i + 1..], [m]);
    }
  }

  /** Without a BEGIN nothing revives an update, and without an END nothing switches. */
  lemma {:induction false} StaysDown(o: Ota, token: seq<byte>, ms: seq<Msg>, fs: seq<Outcome>)
    requires !o.active && |fs| == |ms| && forall i :: 0 <= i < |ms| ==> ms[i].typ != OTA_BEGIN
    ensures var o' := OnMsgs(o, token, ms, fs); !o'.active && o'.log == o.log
  {
    NothingWithoutToken(o, token, ms, fs);
  }

  lemma {:induction false} NoEndNoSwitch(o: Ota, token: seq<byte>, ms: seq<Msg>, fs: seq<Outcome>)
    requires CounterTracks(o) && |fs| == |ms| && forall i :: 0 <= i < |ms| ==> ms[i].typ != OTA_END
    ensures var o' := OnMsgs(o, token, ms, fs); CounterTracks(o') && Switches(o'.log) == Switches(o.log)
    decreases |ms|
  {
    if ms != [] {
      SwitchesExactly(o, token, ms[0], fs[0]);
      NoEndNoSwitch(OnMsg(o, token, ms[0], fs[0]), token, ms[1..], fs[1..]);
    }
  }

  /** A restart among messages without a BEGIN leaves no update running. */
  lemma {:induction false} RestartKills(o: Ota, token: seq<byte>, ms: seq<Msg>, fs: seq<Outcome>)
    requires |fs| == |ms| && !NoRestart(ms) && forall i :: 0 <= i < |ms| ==> ms[i].typ != OTA_BEGIN
    ensures !OnMsgs(o, token, ms, fs).active
    decreases |ms|
  {
    var o1 := OnMsg(o, token, ms[0], fs[0]);
    if Restarts(ms[0]) {
      StaysDown(o1, token, ms[1..], fs[1..]);
    } else {
      var i :| 0 <= i < |ms| && Restarts(ms[i]);
      assert ms[1..][i - 1] == ms[i];
      RestartKills(o1, token, ms[1..], fs[1..]);
    }
  }

  /** Messages that are no part of an update only ever end it. */
  lemma {:induction false} NoOtaKeepsLog(o: Ota, token: seq<byte>, ms: seq<Msg>, fs: seq<Outcome>)
    requires CounterTracks(o) && |fs| == |ms| && forall i :: 0 <= i < |ms| ==> !IsOta(ms[i])
    ensures var o' := OnMsgs(o, token, ms, fs); CounterTracks(o') && o'.log == o.log
    decreases |ms|
  {
    if ms != [] {
      NoOtaKeepsLog(OnMsg(o, token, ms[0], fs[0]), token, ms[1..], fs[1..]);
    }
  }

  lemma {:induction false} OnlyOther(ms: seq<Msg>)
    requires OtaPart(ms) == []
    ensures forall i :: 0 <= i < |ms| ==> !IsOta(ms[i])
  {
    OtaPartOf(ms);
    forall i | 0 <= i < |ms| ensures !IsOta(ms[i]) {
      assert ms[i] in ms;
    }
  }

  lemma {:induction false} OnlyData(ms: seq<Msg>, image: seq<byte>)
    requires OtaPart(ms) == ChunkMsgs(image)
    ensures forall i :: 0 <= i < |ms| ==> ms[i].typ != OTA_BEGIN && ms[i].typ != OTA_END
  {
    OtaPartOf(ms);
    ChunksWellFormed(image);
    forall i | 0 <= i < |ms| ensures ms[i].typ != OTA_BEGIN && ms[i].typ != OTA_END {
      assert ms[i] in ms;
      if IsOta(ms[i]) {
        var k :| 0 <= k < |ChunkMsgs(image)| && ChunkMsgs(image)[k] == ms[i];
      }
    }
  }

  /** From an accepted BEGIN to the END: the chunks arrive in full, or a restart came. */
  lemma {:induction false} MiddleOf(o: Ota, token: seq<byte>, image: seq<byte>, ms: seq<Msg>, fs: seq<Outcome>)
    requires o.active && o.written == 0 && Image(o.log) == [] && |image| < TWO32
    requires OtaPart(ms) == ChunkMsgs(image) && |fs| == |ms| && AllFine(fs)
    ensures var o' := OnMsgs(o, token, ms, fs);
            && CounterTracks(o') && Switches(o'.log) == Switches(o.log) && o'.active == NoRestart(ms)
            && (NoRestart(ms) ==> o'.written == |image| && Image(o'.log) == image)
  {
    OnlyData(ms, image);
    NoEndNoSwitch(o, token, ms, fs);
    if NoRestart(ms) {
      OtherTrafficIsIgnored(o, token, ms, fs);
      OutcomesFine(ms, fs);
      ChunksWritten(o, token, image, OtaOutcomes(ms, fs));
      ImageOfWrites(o.log, ChunkMsgs(image));
      ChunksCarryImage(image);
      assert [] + image == image;
    } else {
      RestartKills(o, token, ms, fs);
    }
  }

  /** A whole transfer with other messages before, between and after its own. */
  lemma {:induction false} TransferAmong(o: Ota, token: seq<byte>, image: seq<byte>,
                                         pre: seq<Msg>, mid: seq<Msg>, post: seq<Msg>, fs: seq<Outcome>)
    requires CounterTracks(o) && |token| <= 123 && 0 < |image| < TWO32
    requires OtaPart(pre) == OtaPart(post) == [] && OtaPart(mid) == ChunkMsgs(image)
    requires |fs| == |pre| + |mid| + |post| + 2 && AllFine(fs)
    ensures var o' := OnMsgs(o, token, pre + ([BeginMsg(token, |image|)] + (mid + ([EndMsg(|image|)] + post))), fs);
            && Switches(o'.log) == Switches(o.log) + (if NoRestart(mid) then 1 else 0)
            && (NoRestart(mid) ==> Image(o'.log) == image)
  {
    var begin, end := BeginMsg(token, |image|), EndMsg(|image|);
    var o1, o2, o3 := InFive(o, token, pre, begin, mid, end, post, fs);
    OnlyOther(pre);
    OnlyOther(post);
    NoOtaKeepsLog(o, token, pre, fs[..|pre|]);
    BegunEmpty(o1, token, |image|);
    MiddleOf(o2, token, image, mid, fs[|pre| + 1..|pre| + 1 + |mid|]);
    EndSettles(o3, image);
    NoOtaKeepsLog(OnEnd(o3, end.data, FINE), token, post, fs[|pre| + |mid| + 2..]);
  }

  lemma {:induction false} InFive(o: Ota, token: seq<byte>, pre: seq<Msg>, a: Msg, mid: seq<Msg>, b: Msg, post: seq<Msg>,
                                  fs: seq<Outcome>) returns (o1: Ota, o2: Ota, o3: Ota)
    requires |fs| == |pre| + |mid| + |post| + 2 && AllFine(fs)
    ensures var p, m := |pre|, |mid|;
            && o1 == OnMsgs(o, token, pre, fs[..p]) && o2 == OnMsg(o1, token, a, FINE)
            && o3 == OnMsgs(o2, token, mid, fs[p + 1..p + 1 + m])
            && OnMsgs(o, token, pre + ([a] + (mid + ([b] + post))), fs)
               == OnMsgs(OnMsg(o3, token, b, FINE), token, post, fs[p + m + 2..])
  {
    var p, m := |pre|, |mid|;
    var f0, f1, f2 := fs[..p], fs[p + 1..p + 1 + m], fs[p + m + 2..];
    assert fs == f0 + ([FINE] + (f1 + ([FINE] + f2)));
    o1 := OnMsgs(o, token, pre, f0);
    o2 := OnMsg(o1, token, a, FINE);
    o3 := OnMsgs(o2, token, mid, f1);
    OnMsgsCons(o3, token, b, FINE, post, f2);
    OnMsgsConcat(o2, token, mid, f1, [b] + post, [FINE] + f2);
    OnMsgsCons(o1, token, a, FINE, mid + ([b] + post), f1 + ([FINE] + f2));
    OnMsgsConcat(o, token, pre, f0, [a] + (mid + ([b] + post)), [FINE] + (f1 + ([FINE] + f2)));
  }

  lemma {:induction false} OnMsgsCons(o: Ota, token: seq<byte>, m: Msg, f: Outcome, ms: seq<Msg>, fs: seq<Outcome>)
    requires |fs| == |ms|
    ensures OnMsgs(o, token, [m] + ms, [f] + fs) == OnMsgs(OnMsg(o, token, m, f), token, ms, fs)
  {
    assert ([m] + ms)[1..] == ms && ([f] + fs)[1..] == fs;
  }

  /** A transfer among any other messages switches the boot slot, with the image in it, if and
      only if the board does not restart between its BEGIN and its END. */
  lemma {:induction false} SwitchesIffNoRestart(o: Ota, token: seq<byte>, image: seq<byte>, ms: seq<Msg>, fs: seq<Outcome>)
    requires CounterTracks(o) && |token| <= 123 && 0 < |image| < TWO32
    requires OtaPart(ms) == Transfer(token, image) && |fs| == |ms| && AllFine(fs)
    ensures var o' := OnMsgs(o, token, ms, fs);
            && Switches(o'.log) == Switches(o.log) + (if RestartsDuring(ms) then 0 else 1)
            && (!RestartsDuring(ms) ==> Image(o'.log) == image)
  {
    var pre, mid, post := Around(token, image, ms);
    TransferAmong(o, token, image, pre, mid, post, fs);
    OnlyOther(pre);
    OnlyOther(post);
    OnlyData(mid, image);
    RestartLies(ms, pre, BeginMsg(token, |image|), mid, EndMsg(|image|), post);
  }

  /** What lies before, between and after the BEGIN and the END. */
  lemma {:induction false} Around(token: seq<byte>, image: seq<byte>, ms: seq<Msg>)
    returns (pre: seq<Msg>, mid: seq<Msg>, post: seq<Msg>)
    requires OtaPart(ms) == Transfer(token, image)
    ensures OtaPart(pre) == OtaPart(post) == [] && OtaPart(mid) == ChunkMsgs(image)
    ensures ms == pre + ([BeginMsg(token, |image|)] + (mid + ([EndMsg(|image|)] + post)))
  {
    var begin, end := BeginMsg(token, |image|), EndMsg(|image|);
    assert OtaPart(ms) == [begin] + (ChunkMsgs(image) + [end]);
    var i := FirstOta(ms, begin, ChunkMsgs(image) + [end]);
    var rest := ms[i + 1..];
    var k := LastOta(rest, ChunkMsgs(image), end);
    pre, mid, post := ms[..i], rest[..k], rest[k + 1..];
    assert rest == mid + ([end] + post) && ms == pre + ([begin] + rest);
  }

  /** With one BEGIN and one END the restart lies between them. */
  lemma {:induction false} RestartLies(ms: seq<Msg>, pre: seq<Msg>, begin: Msg, mid: seq<Msg>, end: Msg, post: seq<Msg>)
    requires ms == pre + ([begin] + (mid + ([end] + post))) && begin.typ == OTA_BEGIN && end.typ == OTA_END
    requires forall i :: 0 <= i < |pre| ==> pre[i].typ != OTA_BEGIN
    requires forall i :: 0 <= i < |mid| ==> mid[i].typ != OTA_BEGIN && mid[i].typ != OTA_END
    requires forall i :: 0 <= i < |post| ==> post[i].typ != OTA_END
    ensures RestartsDuring(ms) <==> !NoRestart(mid)
  {
    var b, e := |pre|, |pre| + 1 + |mid|;
    assert ms[b] == begin && ms[e] == end;
    assert forall i :: b < i < e ==> ms[i] == mid[i - b - 1];
    assert forall i :: 0 <= i < b ==> ms[i] == pre[i];
    assert forall i :: e < i < |ms| ==> ms[i] == post[i - e - 1];
    if !NoRestart(mid) {
      var j :| 0 <= j < |mid| && Restarts(mid[j]);
      assert ms[b + 1 + j] == mid[j];
    }
  }

  // ---- Other transports ----

  /** The messages in the order the firmware executes them, whatever transport they came on. */
  function InOrder(out: seq<Output>): (ms: seq<Msg>)
    ensures |ms| == |out|
  {
    seq(|out|, i requires 0 <= i < |out| => out[i].m)
  }

  lemma {:induction false} InMsgsOf(out: seq<Output>, i: nat)
    requires i < |out|
    ensures out[i].m in MsgsOf(out, out[i].t)
  {
    if i > 0 {
      InMsgsOf(out[1..], i - 1);
    }
  }

  lemma {:induction false} OnlyKnownTransports(d: Device, ins: seq<Input>)
    requires Known(d, ins)
    ensures forall i :: 0 <= i < |Feed(d, ins).out| ==> Feed(d, ins).out[i].t < |d.ps|
    decreases |ins|
  {
    if ins != [] {
      OnlyKnownTransports(Next(d, ins[0]).d, ins[1..]);
    }
  }

  lemma {:induction false} OtaMessagesComeFrom(out: seq<Output>, ota: nat)
    requires forall i :: 0 <= i < |out| ==> (out[i].t == ota <==> IsOta(out[i].m))
    ensures OtaPart(InOrder(out)) == MsgsOf(out, ota)
  {
    if out != [] {
      assert InOrder(out)[1..] == InOrder(out[1..]);
      OtaMessagesComeFrom(out[1..], ota);
    }
  }

  /** Reports and rejected credentials. */
  predicate Harmless(m: Msg) {
    !IsOta(m) && !Restarts(m)
  }

  predicate HarmlessElsewhere(d: Device, ins: seq<Input>, ota: nat, traffic: seq<seq<Msg>>)
    requires |traffic| == |d.ps|
  {
    forall i :: 0 <= i < |d.ps| && i != ota ==>
      && AllWellFormed(traffic[i]) && BytesOf(ins, i) <= EncodeAll(traffic[i])
      && forall j :: 0 <= j < |traffic[i]| ==> Harmless(traffic[i][j])
  }

  /** In any interleaving of the transfer's bytes with harmless frames on the other transports,
      the update goes through: the image is in the slot and the boot slot has switched once. */
  lemma {:induction false} UpdateBesideHid(d: Device, ins: seq<Input>, ota: nat, traffic: seq<seq<Msg>>,
                        o: Ota, token: seq<byte>, image: seq<byte>, fs: seq<Outcome>)
    requires Known(d, ins) && ota < |d.ps| == |traffic| && HarmlessElsewhere(d, ins, ota, traffic)
    requires forall i :: 0 <= i < |d.ps| ==> d.ps[i].st == Sync
    requires CounterTracks(o) && |token| <= 123 && 0 < |image| < TWO32
    requires BytesOf(ins, ota) == EncodeAll(Transfer(token, image))
    requires |fs| == |Feed(d, ins).out| && AllFine(fs)
    ensures var o' := OnMsgs(o, token, InOrder(Feed(d, ins).out), fs);
            Image(o'.log) == image && Switches(o'.log) == Switches(o.log) + 1
  {
    var out := Feed(d, ins).out;
    TransferWellFormed(token, image);
    RunFrames(d.ps[ota], d.buf, Transfer(token, image));
    DispatchBesideOta(d, ins, ota, traffic, ota, d.buf);
    OnlyKnownTransports(d, ins);
    forall i | 0 <= i < |out|
      ensures out[i].t == ota <==> IsOta(out[i].m)
      ensures !Restarts(InOrder(out)[i])
    {
      InMsgsOf(out, i);
      MessageOrigin(d, ins, ota, traffic, token, image, out[i].t);
    }
    OtaMessagesComeFrom(out, ota);
    SwitchesIffNoRestart(o, token, image, InOrder(out), fs);
  }

  lemma {:induction false} MessageOrigin(d: Device, ins: seq<Input>, ota: nat, traffic: seq<seq<Msg>>,
                                         token: seq<byte>, image: seq<byte>, t: nat)
    requires Known(d, ins) && ota < |d.ps| == |traffic| && HarmlessElsewhere(d, ins, ota, traffic)
    requires forall i :: 0 <= i < |d.ps| ==> d.ps[i].st == Sync
    requires t < |d.ps| && MsgsOf(Feed(d, ins).out, ota) == Transfer(token, image)
    ensures forall m :: m in MsgsOf(Feed(d, ins).out, t) ==> if t == ota then IsOta(m) else Harmless(m)
  {
    if t == ota {
      TransferIsOta(token, image);
    } else {
      DispatchBesideOta(d, ins, ota, traffic, t, d.buf);
      PartialTraffic(d.ps[t], d.buf, traffic[t], BytesOf(ins, t));
      assert forall m :: m in MsgsOf(Feed(d, ins).out, t) ==> m in traffic[t];
    }
  }

  lemma {:induction false} TransferIsOta(token: seq<byte>, image: seq<byte>)
    ensures forall m :: m in Transfer(token, image) ==> IsOta(m)
  {
    ChunksWellFormed(image);
  }
}
