/** Firmware update: the daemon's transfer (ota.go) and the firmware's begin, write and
    end handlers, which decide whether the boot slot switches. */
module OtaUpdate {
  import opened Bytes
  import opened Wire
  import opened Parsing
  import opened ParserProperties
  import Credentials

  // ---- The firmware side ----

  /** Calls made to the flash driver, each with its outcome. */
  datatype FlashOp =
    | Begin(size: nat, ok: bool)
    | Write(data: seq<byte>, ok: bool)
    | Abort
    | End(ok: bool)
    | SetBoot(ok: bool)

  /** Outcomes of the driver calls one message may cause. */
  datatype Outcome = Outcome(slot: bool, begin: bool, write: bool, end: bool, setBoot: bool)

  const FINE := Outcome(true, true, true, true, true)

  /** `g_ota_active`, `g_ota_written` (32 bits) and the log of driver calls. */
  datatype Ota = Ota(active: bool, written: nat, log: seq<FlashOp>)

  function OnBegin(o: Ota, token: seq<byte>, p: seq<byte>, f: Outcome): Ota {
    if |p| < 1 then o
    else
      var tl := p[0] as int;
      if 1 + tl + 4 > |p| then o
      else if tl != |token| || p[1..1 + tl] != token then o
      else
        var size := FromLe32(p[1 + tl..]);
        var o' := if o.active then o.(active := false, log := o.log + [Abort]) else o;
        if !f.slot then o'
        else if !f.begin then o'.(log := o'.log + [Begin(size, false)])
        else Ota(true, 0, o'.log + [Begin(size, true)])
  }

  function OnWrite(o: Ota, data: seq<byte>, f: Outcome): Ota {
    if !o.active then o
    else if !f.write then o.(active := false, log := o.log + [Write(data, false), Abort])
    else o.(written := (o.written + |data|) % TWO32, log := o.log + [Write(data, true)])
  }

  function OnEnd(o: Ota, p: seq<byte>, f: Outcome): Ota {
    if !o.active then o
    else if |p| >= 4 && FromLe32(p) != o.written then o.(active := false, log := o.log + [Abort])
    else if !f.end then o.(active := false, log := o.log + [End(false)])
    else if !f.setBoot then o.(active := false, log := o.log + [End(true), SetBoot(false)])
    else Ota(false, 0, o.log + [End(true), SetBoot(true)]) // reboots
  }

  predicate IsOta(m: Msg) {
    m.typ in {OTA_BEGIN, OTA_DATA, OTA_END}
  }

  /** A control message always restarts the board, and so do accepted credentials. */
  predicate Restarts(m: Msg) {
    m.typ == CONTROL || (m.typ == CONFIG && Credentials.ApplyConfig(m.data) != Credentials.Ignored)
  }

  predicate NoRestart(ms: seq<Msg>) {
    forall i :: 0 <= i < |ms| ==> !Restarts(ms[i])
  }

  /** What a dispatched message does to the update. A restart forgets it; the other messages
      leave it alone. */
  function OnMsg(o: Ota, token: seq<byte>, m: Msg, f: Outcome): Ota {
    if m.typ == OTA_BEGIN then OnBegin(o, token, m.data, f)
    else if m.typ == OTA_DATA then OnWrite(o, m.data, f)
    else if m.typ == OTA_END then OnEnd(o, m.data, f)
    else if Restarts(m) then Ota(false, 0, o.log)
    else o
  }

  function OnMsgs(o: Ota, token: seq<byte>, ms: seq<Msg>, fs: seq<Outcome>): Ota
    requires |fs| == |ms|
    decreases |ms|
  {
    if ms == [] then o else OnMsgs(OnMsg(o, token, ms[0], fs[0]), token, ms[1..], fs[1..])
  }

  lemma {:induction false} OnMsgsConcat(o: Ota, token: seq<byte>, a: seq<Msg>, fa: seq<Outcome>,
                                        b: seq<Msg>, fb: seq<Outcome>)
    requires |fa| == |a| && |fb| == |b|
    ensures OnMsgs(o, token, a + b, fa + fb) == OnMsgs(OnMsgs(o, token, a, fa), token, b, fb)
    decreases |a|
  {
    if a == [] {
      assert a + b == b && fa + fb == fb;
    } else {
      assert (a + b)[1..] == a[1..] + b && (fa + fb)[1..] == fa[1..] + fb;
      OnMsgsConcat(OnMsg(o, token, a[0], fa[0]), token, a[1..], fa[1..], b, fb);
    }
  }

  /** The globals and handlers of the firmware, updated in place. */
  class Updater {
    const token: seq<byte>
    var active: bool
    var written: nat
    ghost var log: seq<FlashOp>

    constructor (token: seq<byte>)
      ensures this.token == token && Abs() == Ota(false, 0, [])
    {
      this.token := token;
      active, written, log := false, 0, [];
    }

    ghost function Abs(): Ota
      reads this
    {
      Ota(active, written, log)
    }

    method BeginUpdate(p: seq<byte>, f: Outcome)
      modifies this
      ensures Abs() == OnBegin(old(Abs()), token, p, f)
    {
      if |p| < 1 { return; }
      var tl := p[0] as int;
      if 1 + tl + 4 > |p| { return; }
      if tl != |token| || p[1..1 + tl] != token { return; }
      ghost var size := FromLe32(p[1 + tl..]);
      if active {
        log := log + [Abort];
        active := false;
      }
      if !f.slot { return; }
      log := log + [Begin(size, f.begin)];
      if !f.begin { return; }
      active := true;
      written := 0;
    }

    method WriteChunk(data: seq<byte>, f: Outcome)
      modifies this
      ensures Abs() == OnWrite(old(Abs()), data, f)
    {
      if !active { return; }
      log := log + [Write(data, f.write)];
      if !f.write {
        log := log + [Abort];
        assert log == old(log) + [Write(data, false), Abort];
        active := false;
        return;
      }
      written := (written + |data|) % TWO32;
    }

    method EndUpdate(p: seq<byte>, f: Outcome)
      modifies this
      ensures Abs() == OnEnd(old(Abs()), p, f)
    {
      if !active { return; }
      if |p| >= 4 {
        var total := FromLe32(p);
        if total != written {
          log := log + [Abort];
          active := false;
          return;
        }
      }
      log := log + [End(f.end)];
      active := false;
      if !f.end { return; }
      log := log + [SetBoot(f.setBoot)];
      assert log == old(log) + [End(true), SetBoot(f.setBoot)];
      if !f.setBoot { return; }
      written := 0;
    }
  }

  // ---- What the log says ----

  /** How often the boot slot was switched. */
  function Switches(log: seq<FlashOp>): nat {
    if log == [] then 0 else Switches(log[..|log| - 1]) + if log[|log| - 1] == SetBoot(true) then 1 else 0
  }

  /** The bytes written to the slot since the last accepted begin. */
  function Image(log: seq<FlashOp>): seq<byte> {
    if log == [] then []
    else
      match log[|log| - 1]
      case Begin(_, ok) => if ok then [] else Image(log[..|log| - 1])
      case Write(data, ok) => Image(log[..|log| - 1]) + if ok then data else []
      case _ => Image(log[..|log| - 1])
  }

  lemma {:induction false} LogAppend(log: seq<FlashOp>, op: FlashOp)
    ensures Switches(log + [op]) == Switches(log) + if op == SetBoot(true) then 1 else 0
    ensures op.Abort? || op.End? || op.SetBoot? ==> Image(log + [op]) == Image(log)
    ensures op.Begin? ==> Image(log + [op]) == if op.ok then [] else Image(log)
    ensures op.Write? ==> Image(log + [op]) == Image(log) + if op.ok then op.data else []
  {
    assert (log + [op])[..|log|] == log;
  }

  lemma {:induction false} LogAppendTwo(log: seq<FlashOp>, a: FlashOp, b: FlashOp)
    ensures log + [a, b] == log + [a] + [b]
  {
  }

  /** While an update runs, the counter is the number of bytes in the slot, modulo 2^32. */
  predicate CounterTracks(o: Ota) {
    o.active ==> o.written == |Image(o.log)| % TWO32
  }

  /** The invariant of every run, whatever is received and whatever the driver returns:
      a message switches the boot slot exactly when it is an END that finds an update
      running, whose size field (when the payload has one) is the number of bytes in the
      slot, and the driver agrees. */
  lemma {:induction false} SwitchesExactly(o: Ota, token: seq<byte>, m: Msg, f: Outcome)
    requires CounterTracks(o)
    ensures var o' := OnMsg(o, token, m, f);
            && CounterTracks(o')
            && Switches(o.log) <= Switches(o'.log) <= Switches(o.log) + 1
            && (Switches(o'.log) == Switches(o.log) + 1 <==>
                  && m.typ == OTA_END && o.active && f.end && f.setBoot
                  && (|m.data| < 4 || FromLe32(m.data) == |Image(o.log)| % TWO32))
  {
    if m.typ == OTA_BEGIN {
      BeginKeeps(o, token, m.data, f);
    } else if m.typ == OTA_DATA {
      WriteKeeps(o, m.data, f);
    } else if m.typ == OTA_END {
      EndSwitchesExactly(o, m.data, f);
    }
  }

  lemma {:induction false} WriteKeeps(o: Ota, data: seq<byte>, f: Outcome)
    requires CounterTracks(o)
    ensures var o' := OnWrite(o, data, f); CounterTracks(o') && Switches(o'.log) == Switches(o.log)
  {
    LogAppend(o.log, Write(data, f.write));
    if !f.write {
      LogAppendTwo(o.log, Write(data, false), Abort);
      LogAppend(o.log + [Write(data, false)], Abort);
    } else {
      ModAdd(|Image(o.log)|, |data|);
    }
  }

  lemma {:induction false} EndSwitchesExactly(o: Ota, p: seq<byte>, f: Outcome)
    requires CounterTracks(o)
    ensures var o' := OnEnd(o, p, f);
            && CounterTracks(o')
            && Switches(o.log) <= Switches(o'.log) <= Switches(o.log) + 1
            && (Switches(o'.log) == Switches(o.log) + 1 <==>
                  && o.active && f.end && f.setBoot
                  && (|p| < 4 || FromLe32(p) == |Image(o.log)| % TWO32))
  {
    LogAppend(o.log, Abort);
    LogAppend(o.log, End(f.end));
    LogAppend(o.log + [End(true)], SetBoot(f.setBoot));
    LogAppendTwo(o.log, End(true), SetBoot(f.setBoot));
  }

  lemma {:induction false} BeginKeeps(o: Ota, token: seq<byte>, p: seq<byte>, f: Outcome)
    requires CounterTracks(o)
    ensures var o' := OnBegin(o, token, p, f); CounterTracks(o') && Switches(o'.log) == Switches(o.log)
  {
    if |p| >= 1 && 1 + p[0] as int + 4 <= |p| {
      var size := FromLe32(p[1 + p[0] as int..]);
      var log := if o.active then o.log + [Abort] else o.log;
      LogAppend(o.log, Abort);
      LogAppend(log, Begin(size, f.begin));
    }
  }

  lemma {:induction false} ModAdd(a: nat, b: nat)
    ensures (a % TWO32 + b) % TWO32 == (a + b) % TWO32
  {
  }

  /** An END without a size field skips the comparison: it switches after no byte at all. */
  lemma {:induction false} ShortEndSkipsTheCheck(o: Ota, token: seq<byte>, size: nat)
    requires CounterTracks(o) && |token| <= 123 && 0 < size < TWO32
    ensures var ms := [BeginMsg(token, size), Msg(OTA_END, [])];
            && AllWellFormed(ms)
            && Switches(OnMsgs(o, token, ms, [FINE, FINE]).log) == Switches(o.log) + 1
  {
    var o1 := OnMsg(o, token, BeginMsg(token, size), FINE);
    var last := Msg(OTA_END, []);
    SwitchesExactly(o, token, BeginMsg(token, size), FINE);
    SwitchesExactly(o1, token, last, FINE);
    BeginAccepted(o, token, size);
    assert OnMsgs(o1, token, [last], [FINE]) == OnMsg(o1, token, last, FINE) by {
      assert [last][1..] == [] && [FINE][1..] == [];
    }
    var ms := [BeginMsg(token, size), last];
    assert ms[1..] == [last] && [FINE, FINE][1..] == [FINE];
  }

  // ---- The daemon side ----

  function ChunkMsgs(data: seq<byte>): seq<Msg>
    decreases |data|
  {
    if data == [] then []
    else
      var n := Min(MAX_CHUNK, |data|);
      [Msg(OTA_DATA, data[..n])] + ChunkMsgs(data[n..])
  }

  /** The messages of one transfer. */
  function Transfer(token: seq<byte>, image: seq<byte>): seq<Msg> {
    [BeginMsg(token, |image|)] + ChunkMsgs(image) + [EndMsg(|image|)]
  }

  function Frames(ms: seq<Msg>): seq<seq<byte>> {
    seq(|ms|, i requires 0 <= i < |ms| => Encode(ms[i]))
  }

  lemma {:induction false} FramesFlatten(ms: seq<Msg>)
    ensures Flatten(Frames(ms)) == EncodeAll(ms)
  {
    if ms != [] {
      assert Frames(ms)[1..] == Frames(ms[1..]);
      FramesFlatten(ms[1..]);
    }
  }

  /** runOTA on a link that is up or not, accepts that many writes and lets the one after
      them put `part` bytes of its frame out before it fails: the frames written, what the
      failing write left of the next one, and whether all were written. */
  method RunOta(image: seq<byte>, token: seq<byte>, alive: bool, accepted: nat, part: nat)
    returns (sent: seq<seq<byte>>, torn: seq<byte>, ok: bool)
    ensures var all := Frames(Transfer(token, image));
            if image == [] || !alive then sent == [] && torn == [] && !ok
            else if accepted < |all| then
              sent == all[..accepted] && torn == FirstBytes(all[accepted], part) && !ok
            else sent == all && torn == [] && ok
  {
    sent, torn, ok := [], [], false;
    if image == [] || !alive { return; }

    ghost var ms := Transfer(token, image);
    FirstFrame(token, image);
    var frame := OtaBeginFrame(token, |image|);
    if accepted == 0 { return sent, FirstBytes(frame, part), false; }
    sent := [frame];

    var off := 0;
    while off < |image|
      invariant 0 <= off <= |image|
      invariant 1 <= |sent| <= accepted
      invariant AtChunk(ms, sent, image, off)
    {
      var stop := Min(off + MAX_CHUNK, |image|);
      NextChunk(ms, sent, image, off);
      frame := OtaDataFrame(image[off..stop]);
      if |sent| >= accepted { return sent, FirstBytes(frame, part), false; }
      sent := sent + [frame];
      off := stop;
    }
    LastFrame(ms, sent, image);
    frame := OtaEndFrame(|image|);
    if |sent| >= accepted { return sent, FirstBytes(frame, part), false; }
    sent, ok := sent + [frame], true;
  }

  /** The first frames of the transfer have been sent, and the chunk at `off` is next. */
  ghost predicate AtChunk(ms: seq<Msg>, sent: seq<seq<byte>>, image: seq<byte>, off: nat)
    requires off <= |image|
  {
    && |sent| < |ms| && sent == Frames(ms)[..|sent|]
    && ms[|sent|..] == ChunkMsgs(image[off..]) + [EndMsg(|image|)]
  }

  function FirstBytes(s: seq<byte>, n: nat): seq<byte> {
    s[..Min(n, |s|)]
  }

  /** Whatever happens, the link has carried the first bytes of the transfer's frames, and
      all of them only if every write got its whole frame out. */
  lemma {:induction false} SentIsPrefix(ms: seq<Msg>, n: nat, part: nat)
    requires n < |ms|
    ensures var bytes := Flatten(Frames(ms)[..n]) + FirstBytes(Frames(ms)[n], part);
            && bytes <= EncodeAll(ms)
            && (bytes == EncodeAll(ms) <==> n == |ms| - 1 && part >= |Frames(ms)[n]|)
  {
    var before, frame, later := Flatten(Frames(ms)[..n]), Frames(ms)[n], Flatten(Frames(ms)[n + 1..]);
    FramesFlatten(ms);
    FlattenAround(Frames(ms), n);
    LaterFrames(ms, n);
    PrefixWithin(frame, later, Min(part, |frame|));
    PrefixBeyond(before, FirstBytes(frame, part), frame + later);
  }

  lemma {:induction false} FlattenAround(frames: seq<seq<byte>>, n: nat)
    requires n < |frames|
    ensures Flatten(frames) == Flatten(frames[..n]) + (frames[n] + Flatten(frames[n + 1..]))
  {
    assert frames == frames[..n] + frames[n..] && frames[n..][1..] == frames[n + 1..];
    FlattenConcat(frames[..n], frames[n..]);
  }

  lemma {:induction false} LaterFrames(ms: seq<Msg>, n: nat)
    requires n < |ms|
    ensures Flatten(Frames(ms)[n + 1..]) == [] <==> n == |ms| - 1
  {
    var later := Frames(ms)[n + 1..];
    if later != [] {
      assert later[0] == Encode(ms[n + 1]);
    }
  }

  lemma {:induction false} PrefixWithin(first: seq<byte>, rest: seq<byte>, k: nat)
    requires k <= |first|
    ensures first[..k] <= first + rest
    ensures first[..k] == first + rest <==> rest == [] && k == |first|
  {
    assert (first + rest)[..k] == first[..k];
  }

  lemma {:induction false} PrefixBeyond(first: seq<byte>, a: seq<byte>, b: seq<byte>)
    requires a <= b
    ensures first + a <= first + b
    ensures first + a == first + b <==> a == b
  {
    assert (first + a)[|first|..] == a && (first + b)[|first|..] == b;
  }

  lemma {:induction false} NextFrame(ms: seq<Msg>, n: nat, m: Msg, rest: seq<Msg>)
    requires n < |ms| && ms[n..] == [m] + rest
    ensures Frames(ms)[..n + 1] == Frames(ms)[..n] + [Encode(m)] && ms[n + 1..] == rest
    ensures Frames(ms)[n] == Encode(m) && (n + 1 < |ms| <==> rest != [])
  {
    assert ms[n] == ms[n..][0] && ms[n + 1..] == ms[n..][1..];
  }

  lemma {:induction false} FirstFrame(token: seq<byte>, image: seq<byte>)
    ensures var ms, frame := Transfer(token, image), Encode(BeginMsg(token, |image|));
            |ms| > 0 && Frames(ms)[0] == frame && AtChunk(ms, [frame], image, 0)
  {
    var ms, rest := Transfer(token, image), ChunkMsgs(image) + [EndMsg(|image|)];
    assert ms[0..] == [BeginMsg(token, |image|)] + rest;
    NextFrame(ms, 0, BeginMsg(token, |image|), rest);
    assert image[0..] == image;
  }

  lemma {:induction false} NextChunk(ms: seq<Msg>, sent: seq<seq<byte>>, image: seq<byte>, off: nat)
    requires off < |image| && AtChunk(ms, sent, image, off)
    ensures var stop := Min(off + MAX_CHUNK, |image|);
            var frame := Encode(Msg(OTA_DATA, image[off..stop]));
            Frames(ms)[|sent|] == frame && AtChunk(ms, sent + [frame], image, stop)
  {
    var stop := Min(off + MAX_CHUNK, |image|);
    FirstChunk(image, off);
    NextFrame(ms, |sent|, Msg(OTA_DATA, image[off..stop]), ChunkMsgs(image[stop..]) + [EndMsg(|image|)]);
  }

  lemma {:induction false} LastFrame(ms: seq<Msg>, sent: seq<seq<byte>>, image: seq<byte>)
    requires AtChunk(ms, sent, image, |image|)
    ensures var frame := Encode(EndMsg(|image|));
            |sent| == |ms| - 1 && Frames(ms)[|sent|] == frame && sent + [frame] == Frames(ms)
  {
    NextFrame(ms, |sent|, EndMsg(|image|), []);
    assert Frames(ms)[..|ms|] == Frames(ms);
  }

  lemma {:induction false} FirstChunk(image: seq<byte>, off: nat)
    requires off < |image|
    ensures var stop := Min(off + MAX_CHUNK, |image|);
            ChunkMsgs(image[off..]) == [Msg(OTA_DATA, image[off..stop])] + ChunkMsgs(image[stop..])
  {
    var stop := Min(off + MAX_CHUNK, |image|);
    assert image[off..][..stop - off] == image[off..stop] && image[off..][stop - off..] == image[stop..];
  }

  lemma {:induction false} ChunksWellFormed(data: seq<byte>)
    ensures AllWellFormed(ChunkMsgs(data))
    ensures forall i :: 0 <= i < |ChunkMsgs(data)| ==> ChunkMsgs(data)[i].typ == OTA_DATA
    decreases |data|
  {
    if data != [] {
      ChunksWellFormed(data[Min(MAX_CHUNK, |data|)..]);
    }
  }

  // ---- End to end ----

  predicate AllFine(fs: seq<Outcome>) {
    forall i :: 0 <= i < |fs| ==> fs[i] == FINE
  }

  lemma {:induction false} BeginAccepted(o: Ota, token: seq<byte>, size: nat)
    requires |token| < 256 && size < TWO32
    ensures OnBegin(o, token, BeginMsg(token, size).data, FINE)
         == Ota(true, 0, o.log + (if o.active then [Abort] else []) + [Begin(size, true)])
  {
    var p := BeginMsg(token, size).data;
    assert p[1..1 + |token|] == token && p[1 + |token|..] == Le32(size);
    Le32Inverse(size);
    assert o.log + [] == o.log;
  }

  function Writes(ms: seq<Msg>): seq<FlashOp> {
    seq(|ms|, i requires 0 <= i < |ms| => Write(ms[i].data, true))
  }

  /** Data messages to a running update, all of them written. */
  lemma {:induction false} DataWritten(o: Ota, token: seq<byte>, ms: seq<Msg>, fs: seq<Outcome>)
    requires o.active && o.written < TWO32 && |fs| == |ms| && AllFine(fs)
    requires forall i :: 0 <= i < |ms| ==> ms[i].typ == OTA_DATA
    ensures OnMsgs(o, token, ms, fs) == Ota(true, (o.written + |DataOf(ms)|) % TWO32, o.log + Writes(ms))
    decreases |ms|
  {
    if ms == [] {
      assert o.log + Writes([]) == o.log;
    } else {
      var op, n := Write(ms[0].data, true), |ms[0].data|;
      var o1 := Ota(true, (o.written + n) % TWO32, o.log + [op]);
      assert OnMsg(o, token, ms[0], fs[0]) == o1;
      DataWritten(o1, token, ms[1..], fs[1..]);
      ModAdd(o.written + n, |DataOf(ms[1..])|);
      assert o.log + [op] + Writes(ms[1..]) == o.log + Writes(ms);
    }
  }

  lemma {:induction false} ChunksWritten(o: Ota, token: seq<byte>, data: seq<byte>, fs: seq<Outcome>)
    requires o.active && o.written + |data| < TWO32
    requires |fs| == |ChunkMsgs(data)| && AllFine(fs)
    ensures OnMsgs(o, token, ChunkMsgs(data), fs)
         == Ota(true, o.written + |data|, o.log + Writes(ChunkMsgs(data)))
  {
    ChunksWellFormed(data);
    ChunksCarryImage(data);
    DataWritten(o, token, ChunkMsgs(data), fs);
  }

  function DataOf(ms: seq<Msg>): seq<byte> {
    if ms == [] then [] else ms[0].data + DataOf(ms[1..])
  }

  lemma {:induction false} ChunksCarryImage(data: seq<byte>)
    ensures DataOf(ChunkMsgs(data)) == data
    decreases |data|
  {
    if data != [] {
      var n := Min(MAX_CHUNK, |data|);
      ChunksCarryImage(data[n..]);
      assert ChunkMsgs(data)[1..] == ChunkMsgs(data[n..]);
    }
  }

  lemma {:induction false} ImageOfWrites(log: seq<FlashOp>, ms: seq<Msg>)
    ensures Image(log + Writes(ms)) == Image(log) + DataOf(ms)
    decreases |ms|
  {
    if ms == [] {
      assert log + Writes(ms) == log;
    } else {
      var rest, log1 := ms[1..], log + [Write(ms[0].data, true)];
      assert log + Writes(ms) == log1 + Writes(rest);
      ImageOfWrites(log1, rest);
      assert Image(log1) == Image(log) + ms[0].data by { LogAppend(log, Write(ms[0].data, true)); }
      ConcatAssoc(Image(log), ms[0].data, DataOf(rest));
    }
  }

  lemma {:induction false} ConcatAssoc(a: seq<byte>, b: seq<byte>, c: seq<byte>)
    ensures a + b + c == a + (b + c)
  {
  }

  lemma {:induction false} TransferApplied(o: Ota, token: seq<byte>, image: seq<byte>, fs: seq<Outcome>)
    requires CounterTracks(o) && |token| <= 123 && 0 < |image| < TWO32
    requires |fs| == |Transfer(token, image)| && AllFine(fs)
    ensures var o' := OnMsgs(o, token, Transfer(token, image), fs);
            && o'.log == o.log + (if o.active then [Abort] else [])
                         + [Begin(|image|, true)] + Writes(ChunkMsgs(image)) + [End(true), SetBoot(true)]
            && Image(o'.log) == image && !o'.active
            && Switches(o'.log) == Switches(o.log) + 1
  {
    var o1 := OnBegin(o, token, BeginMsg(token, |image|).data, FINE);
    BegunEmpty(o, token, |image|);
    ChunksThenEnd(o1, image);
    RunInThree(o, token, BeginMsg(token, |image|), image, EndMsg(|image|), fs);
  }

  /** An accepted first message, the chunks of an image, and a last message. */
  lemma {:induction false} RunInThree(o: Ota, token: seq<byte>, a: Msg, image: seq<byte>, b: Msg, fs: seq<Outcome>)
    requires |fs| == |ChunkMsgs(image)| + 2 && AllFine(fs) && |image| < TWO32
    requires var o1 := OnMsg(o, token, a, FINE); o1.active && o1.written == 0
    ensures var o2 := Ota(true, |image|, OnMsg(o, token, a, FINE).log + Writes(ChunkMsgs(image)));
            OnMsgs(o, token, [a] + ChunkMsgs(image) + [b], fs) == OnMsg(o2, token, b, FINE)
  {
    var ms, n := ChunkMsgs(image), |ChunkMsgs(image)|;
    var o1 := OnMsg(o, token, a, FINE);
    ChunksWritten(o1, token, image, fs[1..1 + n]);
    var o2, last := OnMsgs(o1, token, ms, fs[1..1 + n]), fs[1 + n..];
    assert last == [FINE] && fs[1..] == fs[1..1 + n] + last && ([a] + ms + [b])[1..] == ms + [b];
    OnMsgsConcat(o1, token, ms, fs[1..1 + n], [b], last);
    assert OnMsgs(o2, token, [b], last) == OnMsg(o2, token, b, last[0]) by {
      assert [b][1..] == [] && last[1..] == [];
    }
  }

  lemma {:induction false} BegunEmpty(o: Ota, token: seq<byte>, size: nat)
    requires CounterTracks(o) && |token| <= 123 && size < TWO32
    ensures var o1 := OnBegin(o, token, BeginMsg(token, size).data, FINE);
            && o1 == Ota(true, 0, o.log + (if o.active then [Abort] else []) + [Begin(size, true)])
            && Image(o1.log) == [] && Switches(o1.log) == Switches(o.log)
  {
    BeginAccepted(o, token, size);
    BeginKeeps(o, token, BeginMsg(token, size).data, FINE);
    LogAppend(o.log + (if o.active then [Abort] else []), Begin(size, true));
  }

  /** From an accepted begin on: the chunks fill the slot and the END switches to it. */
  lemma {:induction false} ChunksThenEnd(o1: Ota, image: seq<byte>)
    requires o1.active && o1.written == 0 && Image(o1.log) == [] && |image| < TWO32
    ensures var o2 := Ota(true, |image|, o1.log + Writes(ChunkMsgs(image)));
            var o3 := OnEnd(o2, EndMsg(|image|).data, FINE);
            && o3.log == o1.log + Writes(ChunkMsgs(image)) + [End(true), SetBoot(true)]
            && Image(o3.log) == image && !o3.active && Switches(o3.log) == Switches(o1.log) + 1
  {
    var log := o1.log + Writes(ChunkMsgs(image));
    ImageOfWrites(o1.log, ChunkMsgs(image));
    ChunksCarryImage(image);
    WritesSwitchNothing(o1.log, ChunkMsgs(image));
    Le32Inverse(|image|);
    assert [] + image == image;
    LogAppend(log, End(true));
    LogAppend(log + [End(true)], SetBoot(true));
    LogAppendTwo(log, End(true), SetBoot(true));
  }

  lemma {:induction false} WritesSwitchNothing(log: seq<FlashOp>, ms: seq<Msg>)
    ensures Switches(log + Writes(ms)) == Switches(log)
    decreases |ms|
  {
    if ms == [] {
      assert log + Writes(ms) == log;
    } else {
      var rest, log1 := ms[1..], log + [Write(ms[0].data, true)];
      assert log + Writes(ms) == log1 + Writes(rest);
      assert Switches(log1) == Switches(log) by { LogAppend(log, Write(ms[0].data, true)); }
      WritesSwitchNothing(log1, rest);
    }
  }

  lemma {:induction false} EndSettles(o: Ota, image: seq<byte>)
    requires CounterTracks(o) && |image| < TWO32
    ensures var o' := OnEnd(o, EndMsg(|image|).data, FINE);
            && Switches(o'.log) == Switches(o.log) + (if o.active && o.written == |image| then 1 else 0)
            && Image(o'.log) == Image(o.log)
  {
    Le32Inverse(|image|);
    EndSwitchesExactly(o, EndMsg(|image|).data, FINE);
    LogAppend(o.log, Abort);
    LogAppend(o.log, End(true));
    LogAppend(o.log + [End(true)], SetBoot(true));
    LogAppendTwo(o.log, End(true), SetBoot(true));
  }

  /** The whole path: what runOTA writes, cut anywhere and fed to a parser in sync, makes
      exactly these driver calls, leaves the image in the slot and switches to it. */
  lemma {:induction false} EndToEnd(p: ParserState, buf: ChunkBuf, o: Ota, token: seq<byte>, image: seq<byte>,
                 pieces: seq<seq<byte>>, fs: seq<Outcome>)
    requires p.st == Sync && CounterTracks(o) && |token| <= 123 && 0 < |image| < TWO32
    requires Flatten(pieces) == Flatten(Frames(Transfer(token, image)))
    requires |fs| == |Transfer(token, image)| && AllFine(fs)
    ensures var r := RunPieces(p, buf, pieces);
            && r.p.st == Sync && |r.out| == |fs|
            && var o' := OnMsgs(o, token, r.out, fs);
               && o'.log == o.log + (if o.active then [Abort] else [])
                            + [Begin(|image|, true)] + Writes(ChunkMsgs(image)) + [End(true), SetBoot(true)]
               && Image(o'.log) == image
               && Switches(o'.log) == Switches(o.log) + 1
  {
    TransferWellFormed(token, image);
    FramesFlatten(Transfer(token, image));
    StreamRoundTrip(p, buf, Transfer(token, image), pieces);
    TransferApplied(o, token, image, fs);
  }

  lemma {:induction false} TransferWellFormed(token: seq<byte>, image: seq<byte>)
    requires |token| <= 123
    ensures AllWellFormed(Transfer(token, image))
  {
    ChunksWellFormed(image);
  }

  /** A BEGIN payload that starts the way the daemon builds one for this token. */
  ghost predicate Presents(token: seq<byte>, p: seq<byte>) {
    |token| < 256 && exists size: nat, rest ::
      size < TWO32 && p == BeginMsg(token, size).data + rest
  }

  /** A BEGIN touches the update exactly when it presents the token. */
  lemma {:induction false} TokenGate(o: Ota, token: seq<byte>, p: seq<byte>)
    ensures OnBegin(o, token, p, FINE) != o <==> Presents(token, p)
    ensures !Presents(token, p) ==> forall f :: OnBegin(o, token, p, f) == o
  {
    if Presents(token, p) {
      var size: nat, rest :| size < TWO32 && p == BeginMsg(token, size).data + rest;
      assert p[1..1 + |token|] == token;
      assert OnBegin(o, token, p, FINE).log[|OnBegin(o, token, p, FINE).log| - 1].Begin?;
      assert |OnBegin(o, token, p, FINE).log| > |o.log|;
    }
    if |p| >= 1 && 1 + |token| + 4 <= |p| && p[0] as int == |token| && p[1..1 + |token|] == token {
      BeginSplits(token, p);
    }
  }

  lemma {:induction false} BeginSplits(token: seq<byte>, p: seq<byte>)
    requires 1 + |token| + 4 <= |p| && p[0] as int == |token| && p[1..1 + |token|] == token
    ensures Presents(token, p)
  {
    var n := 1 + |token|;
    var size, rest := FromLe32(p[n..n + 4]), p[n + 4..];
    Le32Of(p[n..n + 4]);
    assert p == [p[0]] + token + p[n..n + 4] + rest;
    assert p == BeginMsg(token, size).data + rest;
  }

  /** Whatever else arrives, without a BEGIN that presents the token no update starts:
      nothing is written and nothing switches. */
  lemma {:induction false} NothingWithoutToken(o: Ota, token: seq<byte>, ms: seq<Msg>, fs: seq<Outcome>)
    requires !o.active && |fs| == |ms|
    requires forall i :: 0 <= i < |ms| && ms[i].typ == OTA_BEGIN ==> !Presents(token, ms[i].data)
    ensures var o' := OnMsgs(o, token, ms, fs); !o'.active && o'.log == o.log
    decreases |ms|
  {
    if ms != [] {
      TokenGate(o, token, ms[0].data);
      NothingWithoutToken(OnMsg(o, token, ms[0], fs[0]), token, ms[1..], fs[1..]);
    }
  }

  /** A token of 124 bytes or more cannot be presented in any frame, so then no update ever
      starts, whatever arrives. */
  lemma {:induction false} LongTokenNeverBegins(o: Ota, token: seq<byte>, ms: seq<Msg>, fs: seq<Outcome>)
    requires !o.active && |token| > 123 && AllWellFormed(ms) && |fs| == |ms|
    ensures var o' := OnMsgs(o, token, ms, fs); !o'.active && o'.log == o.log
  {
    forall i | 0 <= i < |ms| && ms[i].typ == OTA_BEGIN ensures !Presents(token, ms[i].data) {
      assert |ms[i].data| <= MAX_PAYLOAD;
    }
    NothingWithoutToken(o, token, ms, fs);
  }
}
