/**
  What the decoder computes, stated against an independent whole-buffer
  reading of the FT1.2 frame format, and the properties of the
  encoder/decoder pair that follow from it: round trip, incompleteness
  of prefixes, independence from how the input is split into calls,
  and the way the two length octets are (not) used.
 */
module CodecTheory {
  import opened Octets
  import opened LinkFrame
  import opened FrameCodec

  /** The verdict of reading a whole buffer at once. */
  datatype Reading =
    | Pending
    | Malformed
    | Mismatch
    | Accepted(ctrl: byte, addr: byte, payload: seq<byte>)
  {
    function Err(): FrameParseErr
    {
      match this
      case Pending => NeedMoreData
      case Malformed => BadFormat
      case Mismatch => CheckError
      case Accepted(_, _, _) => NoError
    }
  }

  /** The last two octets of a frame: the end marker decides first, then the checksum. */
  function Conclude(endByte: byte, cs: byte, ctrl: byte, addr: byte, payload: seq<byte>): Reading
  {
    if endByte != 0x16 then Malformed
    else if Checksum(ctrl, addr, payload) == cs then Accepted(ctrl, addr, payload)
    else Mismatch
  }

  /**
    Reference reading of a buffer that starts at a frame boundary. A
    variable frame's payload length is taken from the first length octet
    alone; a declared length of 2 or less never ends the payload.
   */
  function ReadFrame(d: seq<byte>): Reading
  {
    if |d| == 0 then Pending
    else if d[0] == 0x10 then
      if |d| < 5 then Pending else Conclude(d[4], d[3], d[1], d[2], [])
    else if d[0] == 0x68 then
      if |d| < 4 then Pending
      else if d[3] != 0x68 then Malformed
      else if d[1] <= 2 || |d| < d[1] as int + 6 then Pending
      else
        var n: int := d[1] - 2;
        Conclude(d[7 + n], d[6 + n], d[4], d[5], d[6..6 + n])
    else Malformed
  }

  /** The decoder's outcome agrees with a reading: same verdict, same fields on success. */
  predicate Agrees(c: Codec, rd: Reading)
  {
    && c.err == rd.Err()
    && (rd.Accepted? ==> c.ctrlDomain == rd.ctrl && c.address == rd.addr && c.asdu == rd.payload)
  }

  // ---------------------------------------------------------------------
  // Running the byte loop

  /** Feeding from position i consumes d[i] and goes on from i + 1, unless done or exhausted. */
  lemma FeedFrom(c: Codec, d: seq<byte>, i: nat)
    requires i <= |d|
    ensures Feed(c, d[i..]) == if i == |d| || c.state == Done then c else Feed(Step(c, d[i]), d[i + 1..])
  {
    if i < |d| {
      assert d[i..][1..] == d[i + 1..];
    }
  }

  /** Feeding a concatenation is feeding the parts one after the other. */
  lemma {:induction false} FeedAppend(c: Codec, a: seq<byte>, b: seq<byte>)
    ensures Feed(c, a + b) == Feed(Feed(c, a), b)
    decreases |a|
  {
    if |a| == 0 {
      assert a + b == b;
    } else if c.state != Done {
      assert (a + b)[1..] == a[1..] + b;
      FeedAppend(Step(c, a[0]), a[1..], b);
    }
  }

  /**
    In the payload state the decoder appends every octet and leaves for
    the checksum state exactly when the payload has grown to the first
    length octet minus 2; if that count is already reached or passed, it
    never leaves.
   */
  lemma {:induction false} AsduRun(c: Codec, s: seq<byte>)
    requires c.state == Asdu
    ensures var m := c.length0 - |c.asdu| - 2;
      if 1 <= m <= |s| then Feed(c, s) == Feed(c.(asdu := c.asdu + s[..m], state := Cs), s[m..])
      else Feed(c, s) == c.(asdu := c.asdu + s)
    decreases |s|
  {
    var m := c.length0 - |c.asdu| - 2;
    if |s| == 0 {
      assert c.asdu + s == c.asdu;
      return;
    }
    var payload := c.asdu + [s[0]];
    var c' := Step(c, s[0]);
    assert Feed(c, s) == Feed(c', s[1..]);
    if m == 1 {
      assert c' == c.(asdu := payload, state := Cs);
      assert s[..1] == [s[0]];
      assert s[1..] == s[m..];
    } else {
      assert c' == c.(asdu := payload);
      AsduRun(c', s[1..]);
      assert c'.length0 - |c'.asdu| - 2 == m - 1;
      if 1 <= m <= |s| {
        assert payload + s[1..][..m - 1] == c.asdu + s[..m];
        assert s[1..][m - 1..] == s[m..];
      } else {
        assert payload + s[1..] == c.asdu + s;
      }
    }
  }

  /** Finishing a decode call: the checksum check on the state the loop stopped in. */
  lemma FinishAgrees(fed: Codec, rd: Reading)
    requires fed.state == Done
    requires fed.err == (if rd.Malformed? then BadFormat else NoError)
    requires !rd.Pending?
    requires rd.Accepted? || rd.Mismatch? ==>
      (rd.Accepted? <==> Checksum(fed.ctrlDomain, fed.address, fed.asdu) == fed.cs)
    requires rd.Accepted? ==> fed.ctrlDomain == rd.ctrl && fed.address == rd.addr && fed.asdu == rd.payload
    ensures Agrees(if fed.err == NoError && CalculateCs(fed) != fed.cs then fed.(err := CheckError) else fed, rd)
  {
  }

  lemma FixedFrameAgrees(d: seq<byte>)
    requires |d| > 0 && d[0] == 0x10
    ensures Agrees(Decode(Init, d), ReadFrame(d))
  {
    assert d[0..] == d;
    FeedFrom(Init, d, 0);
    var c1 := Init.(isFixedFrame := true, state := CtrlDomain);
    FeedFrom(c1, d, 1);
    if |d| == 1 { return; }
    var c2 := c1.(ctrlDomain := d[1], state := AddressOffset0);
    FeedFrom(c2, d, 2);
    if |d| == 2 { return; }
    var c3 := c2.(address := d[2], state := Cs);
    assert Step(c2, d[2]) == c3;
    var t := d[3..];
    ChecksumEndRun(c3, t);
    if |t| < 2 { return; }
    assert t[0] == d[3] && t[1] == d[4];
    FinishAgrees(Feed(Init, d), ReadFrame(d));
  }

  /** The state a fresh decoder reaches after the six header octets 0x68 L L' 0x68 C A. */
  function AfterHeader(d: seq<byte>): Codec
    requires |d| >= 6
  {
    Init.(length0 := d[1], length1 := d[2], ctrlDomain := d[4], address := d[5], state := Asdu)
  }

  /** Fewer than four octets after 0x68, or a bad repeated start octet. */
  lemma VariableHeaderAgrees(d: seq<byte>)
    requires |d| > 0 && d[0] == 0x68
    requires |d| < 6 || d[3] != 0x68
    ensures Agrees(Decode(Init, d), ReadFrame(d))
  {
    assert d[0..] == d;
    FeedFrom(Init, d, 0);
    var c1 := Init.(isFixedFrame := false, state := LengthOffset0);
    FeedFrom(c1, d, 1);
    if |d| == 1 { return; }
    var c2 := c1.(length0 := d[1], state := LengthOffset1);
    FeedFrom(c2, d, 2);
    if |d| == 2 { return; }
    var c3 := c2.(length1 := d[2], state := Second68);
    FeedFrom(c3, d, 3);
    if |d| == 3 { return; }
    if d[3] != 0x68 {
      FeedFrom(c3.(err := BadFormat, state := Done), d, 4);
      return;
    }
    var c4 := c3.(state := CtrlDomain);
    FeedFrom(c4, d, 4);
    if |d| == 4 { return; }
    FeedFrom(c4.(ctrlDomain := d[4], state := AddressOffset0), d, 5);
  }

  /** A well-marked header leaves the decoder collecting user data. */
  lemma VariableHeaderRun(d: seq<byte>)
    requires |d| >= 6 && d[0] == 0x68 && d[3] == 0x68
    ensures Feed(Init, d) == Feed(AfterHeader(d), d[6..])
  {
    assert d[0..] == d;
    FeedFrom(Init, d, 0);
    var c1 := Init.(isFixedFrame := false, state := LengthOffset0);
    FeedFrom(c1, d, 1);
    var c2 := c1.(length0 := d[1], state := LengthOffset1);
    FeedFrom(c2, d, 2);
    var c3 := c2.(length1 := d[2], state := Second68);
    FeedFrom(c3, d, 3);
    var c4 := c3.(state := CtrlDomain);
    FeedFrom(c4, d, 4);
    var c5 := c4.(ctrlDomain := d[4], state := AddressOffset0);
    FeedFrom(c5, d, 5);
    assert Step(c5, d[5]) == AfterHeader(d);
  }

  /** The decoder state once the payload of a well-marked variable frame is complete. */
  function AfterPayload(d: seq<byte>): Codec
    requires |d| >= 6 && 1 <= d[1] as int - 2 <= |d| - 6
  {
    AfterHeader(d).(asdu := d[6..d[1] as int + 4], state := Cs)
  }

  /** From the checksum state: the checksum octet is stored, then the end octet gives the verdict. */
  lemma ChecksumEndRun(c: Codec, t: seq<byte>)
    requires c.state == Cs && c.err == NeedMoreData
    ensures |t| < 2 ==> Feed(c, t).err == NeedMoreData
    ensures |t| >= 2 ==>
      (Feed(c, t) == c.(cs := t[0], err := if t[1] == 0x16 then NoError else BadFormat, state := Done))
  {
    if |t| > 0 {
      var c' := c.(cs := t[0], state := End);
      assert Feed(c, t) == Feed(c', t[1..]);
      if |t| > 1 {
        assert Feed(c', t[1..]) == Feed(Step(c', t[1]), t[2..]);
      }
    }
  }

  /** The checksum octet, then the end marker. */
  lemma ChecksumEndAgrees(d: seq<byte>)
    requires |d| >= 6 && d[0] == 0x68 && d[3] == 0x68
    requires 1 <= d[1] as int - 2 <= |d| - 6
    requires Feed(Init, d) == Feed(AfterPayload(d), d[d[1] as int + 4..])
    ensures Agrees(Decode(Init, d), ReadFrame(d))
  {
    var m: int := d[1] as int - 2;
    var c7 := AfterPayload(d);
    var t := d[6 + m..];
    ChecksumEndRun(c7, t);
    if |t| < 2 {
      assert ReadFrame(d) == Pending;
      return;
    }
    var rd := Conclude(d[7 + m], d[6 + m], d[4], d[5], d[6..6 + m]);
    assert ReadFrame(d) == rd;
    assert t[0] == d[6 + m] && t[1] == d[7 + m];
    FinishAgrees(Feed(Init, d), rd);
  }

  /** After the header: the payload, then the checksum octet and the end marker. */
  lemma VariableTailAgrees(d: seq<byte>)
    requires |d| >= 6 && d[0] == 0x68 && d[3] == 0x68
    ensures Agrees(Decode(Init, d), ReadFrame(d))
  {
    var c6 := AfterHeader(d);
    VariableHeaderRun(d);
    var m: int := d[1] as int - 2;
    AsduRun(c6, d[6..]);
    if !(1 <= m <= |d| - 6) {
      return;
    }
    assert d[6..][..m] == d[6..6 + m];
    assert d[6..][m..] == d[6 + m..];
    assert c6.(asdu := c6.asdu + d[6..][..m], state := Cs) == AfterPayload(d);
    ChecksumEndAgrees(d);
  }

  /**
    Main theorem: a fresh decoder given any buffer in one call reaches
    the reference verdict, and on success holds the reference fields.
   */
  lemma DecodeMatchesReadFrame(d: seq<byte>)
    ensures Agrees(Decode(Init, d), ReadFrame(d))
  {
    if |d| == 0 {
    } else if d[0] == 0x10 {
      FixedFrameAgrees(d);
    } else if d[0] == 0x68 {
      if |d| < 6 || d[3] != 0x68 {
        VariableHeaderAgrees(d);
      } else {
        VariableTailAgrees(d);
      }
    } else {
      assert d[0..] == d;
      FeedFrom(Init, d, 0);
      FeedFrom(Init.(err := BadFormat, state := Done), d, 1);
    }
  }
}
