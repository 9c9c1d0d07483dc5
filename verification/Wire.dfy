/** The wire protocol's sending side (sink.go, ota.go, main.go): one frame is
    sync, type, payload, checksum. */
module Wire {
  import opened Bytes

  const SYNC: byte := 0xAB
  const KEYBOARD: byte := 1
  const MOUSE: byte := 2
  const CONTROL: byte := 3
  const CONFIG: byte := 4
  const OTA_BEGIN: byte := 5
  const OTA_DATA: byte := 6
  const OTA_END: byte := 7

  const MAX_PAYLOAD := 128
  const MAX_CHUNK := 1024

  /** A message as the firmware dispatches it: the type and the bytes its handler sees. */
  datatype Msg = Msg(typ: byte, data: seq<byte>)

  /** Types whose payload carries an 8-bit length prefix. */
  predicate Prefixed(typ: byte) {
    typ == CONFIG || typ == OTA_BEGIN || typ == OTA_END
  }

  /** The fixed payload length of a type, 0 when it has none. */
  function PayloadLen(typ: byte): nat {
    if typ == KEYBOARD then 8
    else if typ == MOUSE then 6
    else if typ == CONTROL then 1
    else 0
  }

  /** The messages the firmware has room for. */
  predicate WellFormed(m: Msg) {
    if Prefixed(m.typ) then |m.data| <= MAX_PAYLOAD
    else if m.typ == OTA_DATA then 0 < |m.data| <= MAX_CHUNK
    else 0 < |m.data| == PayloadLen(m.typ)
  }

  /** The length field between the type and the data. */
  function Header(typ: byte, n: nat): seq<byte> {
    if Prefixed(typ) then [LowByte(n)]
    else if typ == OTA_DATA then Le16(n)
    else []
  }

  function FrameOf(typ: byte, payload: seq<byte>): seq<byte> {
    [SYNC, typ] + payload + [XorByte(typ, XorAll(payload))]
  }

  function Encode(m: Msg): seq<byte> {
    FrameOf(m.typ, Header(m.typ, |m.data|) + m.data)
  }

  function EncodeAll(ms: seq<Msg>): seq<byte> {
    if ms == [] then [] else Encode(ms[0]) + EncodeAll(ms[1..])
  }

  /** sink.go's frame: the checksum is accumulated byte by byte. */
  method Frame(typ: byte, payload: seq<byte>) returns (buf: seq<byte>)
    ensures buf == FrameOf(typ, payload)
  {
    buf := [SYNC, typ];
    var csum := typ;
    XorZero(typ as int);
    for i := 0 to |payload|
      invariant csum == XorByte(typ, XorAll(payload[..i]))
    {
      XorAllConcat(payload[..i], [payload[i]]);
      XorZero(payload[i] as int);
      XorAssoc(typ as int, XorAll(payload[..i]) as int, payload[i] as int);
      assert payload[..i + 1] == payload[..i] + [payload[i]];
      csum := XorByte(csum, payload[i]);
    }
    assert payload[..|payload|] == payload;
    buf := buf + payload;
    buf := buf + [csum];
  }

  // ---- The messages behind the senders' frame builders ----

  function MouseData(buttons: byte, dx: int, dy: int, wheel: int): (s: seq<byte>)
    ensures |s| == 6
  {
    [buttons] + Le16(dx % TWO16) + Le16(dy % TWO16) + [LowByte(wheel)]
  }

  method KeyboardFrame(rep: seq<byte>) returns (buf: seq<byte>)
    requires |rep| == 8
    ensures WellFormed(Msg(KEYBOARD, rep)) && buf == Encode(Msg(KEYBOARD, rep))
  {
    buf := Frame(KEYBOARD, rep);
    assert [] + rep == rep;
  }

  /** The frame that setRadios sends. */
  method ControlFrame(cmd: byte) returns (buf: seq<byte>)
    ensures WellFormed(Msg(CONTROL, [cmd])) && buf == Encode(Msg(CONTROL, [cmd]))
  {
    buf := Frame(CONTROL, [cmd]);
    assert [] + [cmd] == [cmd];
  }

  method MouseFrame(buttons: byte, dx: int, dy: int, wheel: int) returns (buf: seq<byte>)
    requires FitsIn(dx, TWO16) && FitsIn(dy, TWO16) && FitsIn(wheel, 256)
    ensures var m := Msg(MOUSE, MouseData(buttons, dx, dy, wheel)); WellFormed(m) && buf == Encode(m)
  {
    var data := MouseData(buttons, dx, dy, wheel);
    buf := Frame(MOUSE, data);
    assert [] + data == data;
  }

  function MouseOf(data: seq<byte>): (byte, int, int, int)
    requires |data| == 6
  {
    (data[0],
     Signed(FromLe16(data[1], data[2]), TWO16),
     Signed(FromLe16(data[3], data[4]), TWO16),
     Signed(data[5] as int, 256))
  }

  /** The target reads back the signed deltas the sender was given. */
  lemma {:induction false} MouseRoundTrip(buttons: byte, dx: int, dy: int, wheel: int)
    requires FitsIn(dx, TWO16) && FitsIn(dy, TWO16) && FitsIn(wheel, 256)
    ensures MouseOf(MouseData(buttons, dx, dy, wheel)) == (buttons, dx, dy, wheel)
  {
    Le16Inverse(dx % TWO16);
    Le16Inverse(dy % TWO16);
    SignedInverse(dx, TWO16);
    SignedInverse(dy, TWO16);
    SignedInverse(wheel, 256);
    var d := MouseData(buttons, dx, dy, wheel);
    assert d[1] == Le16(dx % TWO16)[0] && d[2] == Le16(dx % TWO16)[1];
    assert d[3] == Le16(dy % TWO16)[0] && d[4] == Le16(dy % TWO16)[1];
  }

  function BeginMsg(token: seq<byte>, size: nat): Msg {
    Msg(OTA_BEGIN, [LowByte(|token|)] + token + Le32(size))
  }

  function EndMsg(size: nat): Msg {
    Msg(OTA_END, Le32(size))
  }

  method OtaBeginFrame(token: seq<byte>, size: nat) returns (buf: seq<byte>)
    ensures buf == Encode(BeginMsg(token, size))
  {
    var inner := [LowByte(|token|)];
    inner := inner + token;
    inner := inner + Le32(size);
    buf := Frame(OTA_BEGIN, [LowByte(|inner|)] + inner);
  }

  method OtaDataFrame(chunk: seq<byte>) returns (buf: seq<byte>)
    ensures buf == Encode(Msg(OTA_DATA, chunk))
  {
    var payload := Le16(|chunk|);
    payload := payload + chunk;
    buf := Frame(OTA_DATA, payload);
  }

  method OtaEndFrame(size: nat) returns (buf: seq<byte>)
    ensures buf == Encode(EndMsg(size))
  {
    var inner := Le32(size);
    buf := Frame(OTA_END, [LowByte(|inner|)] + inner);
  }
}
