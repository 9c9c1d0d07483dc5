/** What the update handlers ask of the flash driver, message by message and over runs. */
module OtaDriver {
  import opened Bytes
  import opened Wire
  import opened OtaUpdate
  import Credentials

  // ---- The driver's protocol ----

  /** By the log alone: an update handle is open. */
  predicate HandleOpen(log: seq<FlashOp>) {
    log != [] &&
    match log[|log| - 1]
    case Begin(_, ok) => ok
    case Write(_, _) => HandleOpen(log[..|log| - 1])
    case Abort => false
    case End(_) => false
    case SetBoot(_) => false
  }

  /** The driver's protocol: a handle is opened only when none is open, is used only while it is
      open, and the boot slot is set only right after an image was accepted. */
  predicate Legal(log: seq<FlashOp>) {
    log == [] ||
    var before := log[..|log| - 1];
    && Legal(before)
    && match log[|log| - 1]
       case Begin(_, _) => !HandleOpen(before)
       case Write(_, _) => HandleOpen(before)
       case Abort => HandleOpen(before)
       case End(_) => HandleOpen(before)
       case SetBoot(_) => before != [] && before[|before| - 1] == End(true)
  }

  /** The protocol has been kept, and an update runs exactly while the handle is open. */
  predicate InProtocol(o: Ota) {
    Legal(o.log) && o.active == HandleOpen(o.log)
  }

  lemma {:induction false} LegalAppend(log: seq<FlashOp>, op: FlashOp)
    ensures HandleOpen(log + [op]) <==> (if op.Begin? then op.ok else op.Write? && HandleOpen(log))
    ensures Legal(log + [op]) <==>
              Legal(log) && (if op.Begin? then !HandleOpen(log)
                             else if op.SetBoot? then log != [] && log[|log| - 1] == End(true)
                             else HandleOpen(log))
  {
    assert (log + [op])[..|log|] == log;
  }

  lemma {:induction false} BeginInProtocol(o: Ota, token: seq<byte>, p: seq<byte>, f: Outcome)
    requires InProtocol(o)
    ensures InProtocol(OnBegin(o, token, p, f))
  {
    if |p| >= 1 && 1 + p[0] as int + 4 <= |p| {
      var log := if o.active then o.log + [Abort] else o.log;
      LegalAppend(o.log, Abort);
      LegalAppend(log, Begin(FromLe32(p[1 + p[0] as int..]), f.begin));
    }
  }

  lemma {:induction false} WriteInProtocol(o: Ota, data: seq<byte>, f: Outcome)
    requires InProtocol(o)
    ensures InProtocol(OnWrite(o, data, f))
  {
    LegalAppend(o.log, Write(data, f.write));
    LegalAppend(o.log + [Write(data, false)], Abort);
    LogAppendTwo(o.log, Write(data, false), Abort);
  }

  lemma {:induction false} EndInProtocol(o: Ota, p: seq<byte>, f: Outcome)
    requires InProtocol(o)
    ensures InProtocol(OnEnd(o, p, f))
  {
    LegalAppend(o.log, Abort);
    LegalAppend(o.log, End(f.end));
    LegalAppend(o.log + [End(true)], SetBoot(f.setBoot));
    LogAppendTwo(o.log, End(true), SetBoot(f.setBoot));
  }

  lemma {:induction false} MessageInProtocol(o: Ota, token: seq<byte>, m: Msg, f: Outcome)
    requires InProtocol(o) && !Restarts(m)
    ensures InProtocol(OnMsg(o, token, m, f))
  {
    BeginInProtocol(o, token, m.data, f);
    WriteInProtocol(o, m.data, f);
    EndInProtocol(o, m.data, f);
  }

  /** Over every run between two restarts, whatever arrives and whatever the driver returns: the
      protocol is kept, and an update runs exactly while a handle is open. */
  lemma {:induction false} ProtocolKept(o: Ota, token: seq<byte>, ms: seq<Msg>, fs: seq<Outcome>)
    requires InProtocol(o) && |fs| == |ms| && NoRestart(ms)
    ensures InProtocol(OnMsgs(o, token, ms, fs))
    decreases |ms|
  {
    if ms != [] {
      MessageInProtocol(o, token, ms[0], fs[0]);
      ProtocolKept(OnMsg(o, token, ms[0], fs[0]), token, ms[1..], fs[1..]);
    }
  }

  // ---- Message by message ----

  /** The size field matches the bytes in the slot, or there is none. */
  predicate SizeFits(o: Ota, p: seq<byte>) {
    |p| < 4 || FromLe32(p) == |Image(o.log)| % TWO32
  }

  /** A BEGIN that presents the token ends a running update first; then one runs exactly if the
      driver finds a slot and begins, with the size of the payload and an empty image. */
  lemma {:induction false} BeginCalls(o: Ota, token: seq<byte>, size: nat, rest: seq<byte>, f: Outcome)
    requires |token| < 256 && size < TWO32
    ensures var o' := OnMsg(o, token, Msg(OTA_BEGIN, BeginMsg(token, size).data + rest), f);
            && o'.log == o.log + (if o.active then [Abort] else []) + (if f.slot then [Begin(size, f.begin)] else [])
            && o'.active == (f.slot && f.begin)
            && (o'.active ==> o'.written == 0 && Image(o'.log) == [])
  {
    var p := BeginMsg(token, size).data + rest;
    var log := o.log + if o.active then [Abort] else [];
    assert p[0] as int == |token| && p[1..1 + |token|] == token;
    assert p[1 + |token|..] == Le32(size) + rest;
    SizeRead(size, rest);
    LogAppend(log, Begin(size, true));
    assert o.log + [] == o.log && log + [] == log;
  }

  lemma {:induction false} SizeRead(size: nat, rest: seq<byte>)
    requires size < TWO32
    ensures FromLe32(Le32(size) + rest) == size
  {
    Le32Inverse(size);
  }

  /** A chunk for a running update is written; a refusal ends the update. */
  lemma {:induction false} DataCalls(o: Ota, token: seq<byte>, data: seq<byte>, f: Outcome)
    requires o.active
    ensures var o' := OnMsg(o, token, Msg(OTA_DATA, data), f);
            && o'.log == o.log + [Write(data, f.write)] + (if f.write then [] else [Abort])
            && o'.active == f.write
  {
    LogAppendTwo(o.log, Write(data, false), Abort);
    assert o.log + [Write(data, true)] + [] == o.log + [Write(data, true)];
  }

  /** An END for a running update ends it in every case: aborted if the size does not fit,
      else validated, and switched to if the image was accepted. */
  lemma {:induction false} EndCalls(o: Ota, token: seq<byte>, p: seq<byte>, f: Outcome)
    requires o.active && CounterTracks(o)
    ensures var o' := OnMsg(o, token, Msg(OTA_END, p), f);
            && o'.log == o.log + (if !SizeFits(o, p) then [Abort]
                                  else if !f.end then [End(false)] else [End(true), SetBoot(f.setBoot)])
            && !o'.active
  {
  }

  /** Every other message makes no call: chunks and ENDs without an update, BEGINs without the
      token, and all that is not about updates. It ends an update exactly by a restart. */
  lemma {:induction false} NoCalls(o: Ota, token: seq<byte>, m: Msg, f: Outcome)
    requires if m.typ == OTA_BEGIN then !Presents(token, m.data) else IsOta(m) ==> !o.active
    ensures var o' := OnMsg(o, token, m, f); o'.log == o.log && o'.active == (o.active && !Restarts(m))
  {
    if m.typ == OTA_BEGIN {
      TokenGate(o, token, m.data);
    }
  }

  /** A call that fails ends the update. */
  lemma {:induction false} FailureEnds(o: Ota, token: seq<byte>, m: Msg, f: Outcome)
    ensures var o' := OnMsg(o, token, m, f);
            && o.log <= o'.log
            && (o'.active ==> forall i :: |o.log| <= i < |o'.log| ==> !Failed(o'.log[i]))
  {
    var o' := OnMsg(o, token, m, f);
    if m.typ == OTA_BEGIN {
      TokenGate(o, token, m.data);
      if Presents(token, m.data) {
        var size: nat, rest :| size < TWO32 && m.data == BeginMsg(token, size).data + rest;
        BeginCalls(o, token, size, rest, f);
      }
    }
  }

  predicate Failed(op: FlashOp) {
    match op
    case Begin(_, ok) => !ok
    case Write(_, ok) => !ok
    case Abort => false
    case End(ok) => !ok
    case SetBoot(ok) => !ok
  }

  /** After an END, whatever it found, no update runs and nothing is called until a BEGIN
      presents the token: an END sent twice switches once. */
  lemma {:induction false} OverAfterEnd(o: Ota, token: seq<byte>, m: Msg, f: Outcome, ms: seq<Msg>, fs: seq<Outcome>)
    requires m.typ == OTA_END && |fs| == |ms|
    requires forall i :: 0 <= i < |ms| && ms[i].typ == OTA_BEGIN ==> !Presents(token, ms[i].data)
    ensures var o1 := OnMsg(o, token, m, f);
            var o2 := OnMsgs(o1, token, ms, fs);
            !o1.active && !o2.active && o2.log == o1.log
  {
    NothingWithoutToken(OnMsg(o, token, m, f), token, ms, fs);
  }

  /** The messages that restart the board. */
  lemma {:induction false} RestartsExactly(m: Msg)
    ensures Restarts(m) <==>
              m.typ == CONTROL
              || (m.typ == CONFIG && exists ssid, pass, rest ::
                    |ssid| <= Credentials.MAX_SSID && |pass| <= Credentials.MAX_PASS
                    && m.data == Credentials.Packed(ssid, pass) + rest)
  {
    Credentials.AcceptsExactly(m.data);
  }
}
