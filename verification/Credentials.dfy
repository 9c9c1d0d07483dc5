/** Wi-Fi credentials: packed by the daemon (setWifiCreds), unpacked and stored by the
    firmware (apply_config). */
module Credentials {
  import opened Bytes
  import opened Wire
  import opened Parsing
  import opened ParserProperties

  const MAX_SSID := 32
  const MAX_PASS := 63

  function Packed(ssid: seq<byte>, pass: seq<byte>): seq<byte> {
    [LowByte(|ssid|)] + ssid + [LowByte(|pass|)] + pass
  }

  datatype Sent = TooLong | Frame(bytes: seq<byte>)

  method SetWifiCreds(ssid: seq<byte>, pass: seq<byte>) returns (sent: Sent)
    ensures sent == if |ssid| > MAX_SSID || |pass| > MAX_PASS then TooLong
                    else Frame(Encode(Msg(CONFIG, Packed(ssid, pass))))
  {
    if |ssid| > MAX_SSID || |pass| > MAX_PASS {
      return TooLong;
    }
    var data := [LowByte(|ssid|)];
    data := data + ssid;
    data := data + [LowByte(|pass|)];
    data := data + pass;
    var frame := Wire.Frame(CONFIG, [LowByte(|data|)] + data);
    return Frame(frame);
  }

  datatype Stored = Ignored | Saved(ssid: seq<byte>, pass: seq<byte>)

  /** A C string: the bytes before the first NUL. */
  function CString(s: seq<byte>): seq<byte> {
    if s == [] || s[0] == 0 then [] else [s[0]] + CString(s[1..])
  }

  /** apply_config: copies both strings into zeroed buffers and stores them as C strings. */
  function ApplyConfig(p: seq<byte>): Stored {
    if |p| < 2 then Ignored
    else
      var sl := p[0] as int;
      if 1 + sl + 1 > |p| then Ignored
      else
        var pl := p[1 + sl] as int;
        if 1 + sl + 1 + pl > |p| || sl > MAX_SSID || pl > MAX_PASS then Ignored
        else
          var ssid := p[1..1 + sl] + Zeros(MAX_SSID + 1 - sl);
          var pass := p[2 + sl..2 + sl + pl] + Zeros(MAX_PASS + 1 - pl);
          Saved(CString(ssid), CString(pass))
  }

  lemma {:induction false} CStringPadded(s: seq<byte>, n: nat)
    ensures CString(s + Zeros(n)) == CString(s)
    ensures CString(s) == s <==> 0 !in s
  {
    if s == [] {
      assert s + Zeros(n) == Zeros(n);
    } else {
      assert (s + Zeros(n))[1..] == s[1..] + Zeros(n);
      CStringPadded(s[1..], n);
    }
  }

  lemma {:induction false} PackedParts(ssid: seq<byte>, pass: seq<byte>, rest: seq<byte>)
    requires |ssid| < 256 && |pass| < 256
    ensures var p, sl, pl := Packed(ssid, pass) + rest, |ssid|, |pass|;
            && |p| == 2 + sl + pl + |rest| && p[0] as int == sl && p[1 + sl] as int == pl
            && p[1..1 + sl] == ssid && p[2 + sl..2 + sl + pl] == pass
  {
  }

  lemma {:induction false} Unpack(ssid: seq<byte>, pass: seq<byte>, rest: seq<byte>)
    requires |ssid| <= MAX_SSID && |pass| <= MAX_PASS
    ensures ApplyConfig(Packed(ssid, pass) + rest) == Saved(CString(ssid), CString(pass))
  {
    var p := Packed(ssid, pass) + rest;
    PackedParts(ssid, pass, rest);
    CStringPadded(ssid, MAX_SSID + 1 - |ssid|);
    CStringPadded(pass, MAX_PASS + 1 - |pass|);
    AppliesTo(p, ssid, pass);
  }

  /** What apply_config stores when both lengths are in range and fit the payload. */
  lemma {:induction false} AppliesTo(p: seq<byte>, ssid: seq<byte>, pass: seq<byte>)
    requires |ssid| <= MAX_SSID && |pass| <= MAX_PASS && 2 + |ssid| + |pass| <= |p|
    requires p[0] as int == |ssid| && p[1 + |ssid|] as int == |pass|
    requires p[1..1 + |ssid|] == ssid && p[2 + |ssid|..2 + |ssid| + |pass|] == pass
    ensures ApplyConfig(p) == Saved(CString(ssid + Zeros(MAX_SSID + 1 - |ssid|)),
                                    CString(pass + Zeros(MAX_PASS + 1 - |pass|)))
  {
  }

  /** The firmware accepts exactly the payloads that start with a packed pair in range, and
      stores that pair, each string up to its first NUL. */
  lemma {:induction false} AcceptsExactly(p: seq<byte>)
    ensures ApplyConfig(p) != Ignored <==>
            exists ssid, pass, rest ::
              |ssid| <= MAX_SSID && |pass| <= MAX_PASS && p == Packed(ssid, pass) + rest
  {
    if ssid, pass, rest :| |ssid| <= MAX_SSID && |pass| <= MAX_PASS && p == Packed(ssid, pass) + rest {
      Unpack(ssid, pass, rest);
    } else if ApplyConfig(p) != Ignored {
      var ssid, pass, rest := Split(p);
      assert false;
    }
  }

  lemma {:induction false} Split(p: seq<byte>) returns (ssid: seq<byte>, pass: seq<byte>, rest: seq<byte>)
    requires ApplyConfig(p) != Ignored
    ensures |ssid| <= MAX_SSID && |pass| <= MAX_PASS && p == Packed(ssid, pass) + rest
  {
    var sl := p[0] as int;
    var pl := p[1 + sl] as int;
    ssid, pass, rest := p[1..1 + sl], p[2 + sl..2 + sl + pl], p[2 + sl + pl..];
    assert p == [p[0]] + ssid + [p[1 + sl]] + pass + rest;
  }

  /** Over the wire the board stores both strings byte for byte, if and only if neither
      holds a NUL (a command-line argument cannot). */
  lemma {:induction false} CredentialsRoundTrip(p: ParserState, buf: ChunkBuf, ssid: seq<byte>, pass: seq<byte>)
    requires p.st == Sync && |ssid| <= MAX_SSID && |pass| <= MAX_PASS
    ensures var r := Run(p, buf, Encode(Msg(CONFIG, Packed(ssid, pass))));
            && r.p.st == Sync && r.out == [Msg(CONFIG, Packed(ssid, pass))]
            && (ApplyConfig(r.out[0].data) == Saved(ssid, pass) <==> 0 !in ssid && 0 !in pass)
  {
    FrameRoundTrip(p, buf, Msg(CONFIG, Packed(ssid, pass)));
    Unpack(ssid, pass, []);
    assert Packed(ssid, pass) + [] == Packed(ssid, pass);
    CStringPadded(ssid, 0);
    CStringPadded(pass, 0);
  }
}
