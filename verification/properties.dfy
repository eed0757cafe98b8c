/**
  Properties of the encoder and decoder together: the round trip, the
  structural rejections, the end-marker/checksum classification, the
  incremental behaviour across calls, and the use of the length octets.
 */
module CodecProperties {
  import opened Octets
  import opened LinkFrame
  import opened FrameCodec
  import opened CodecTheory

  /** The largest user-data length whose length octet 2 + n still fits in 8 bits. */
  const MaxAsdu := 253

  /** The reference reader accepts every encoded frame whose length octet does not wrap. */
  lemma EncodeReadsBack(f: LinkLayerFrame)
    requires |f.asdu| <= MaxAsdu
    ensures ReadFrame(Encode(f)) == Accepted(f.c as int, f.a % 256, f.asdu)
  {
    var d := Encode(f);
    var n := |f.asdu|;
    if n == 0 {
      assert Conclude(d[4], d[3], d[1], d[2], []) == Accepted(f.c as int, f.a % 256, f.asdu);
    } else {
      assert d[1] == n + 2;
      assert d[6..6 + n] == f.asdu;
      assert Conclude(d[7 + n], d[6 + n], d[4], d[5], f.asdu) == Accepted(f.c as int, f.a % 256, f.asdu);
    }
  }

  /**
    Round trip: a fresh decoder fed an encoded frame succeeds and rebuilds
    its control field and user data, but the rebuilt address is always 3;
    the address octet that was parsed is A's low octet.
   */
  lemma RoundTrip(f: LinkLayerFrame)
    requires |f.asdu| <= MaxAsdu
    ensures var r := Decode(Init, Encode(f));
      && r.err == NoError
      && r.state == Done
      && r.address == f.a % 256
      && var g := ToLinkLayerFrame(r);
      && g.c == f.c
      && g.asdu == f.asdu
      && (HasAsdu(g) <==> |f.asdu| > 0)
      && g.a == 3
  {
    EncodeReadsBack(f);
    DecodeMatchesReadFrame(Encode(f));
    ControlRoundTrip(f.c);
  }

  /** Every strict prefix of an encoded frame leaves a fresh decoder waiting for more data. */
  lemma StrictPrefixNeedsMoreData(f: LinkLayerFrame, k: nat)
    requires |f.asdu| <= MaxAsdu
    requires k < |Encode(f)|
    ensures Decode(Init, Encode(f)[..k]).err == NeedMoreData
    ensures Decode(Init, Encode(f)[..k]).state != Done
  {
    var d := Encode(f)[..k];
    assert ReadFrame(d) == Pending;
    DecodeMatchesReadFrame(d);
  }

  /**
    A first octet other than 0x10 and 0x68 is a format error on the spot:
    the decoder is done after that one octet and ignores the rest.
   */
  lemma BadStartByte(b: byte, rest: seq<byte>)
    requires b != 0x10 && b != 0x68
    ensures Feed(Init, [b]).state == Done
    ensures Decode(Init, [b] + rest) == Decode(Init, [b])
    ensures Decode(Init, [b] + rest).err == BadFormat
  {
    FeedAppend(Init, [b], rest);
  }

  /** A variable frame whose fourth octet is not 0x68 is a format error. */
  lemma BadSecondStart(d: seq<byte>)
    requires |d| >= 4 && d[0] == 0x68 && d[3] != 0x68
    ensures Decode(Init, d).err == BadFormat
  {
    DecodeMatchesReadFrame(d);
  }

  /** The classification the last two octets of an encoded frame decide, once header and user data are in place. */
  predicate ClassifiedByTail(f: LinkLayerFrame, cs: byte, endByte: byte, err: FrameParseErr)
  {
    && (endByte != 0x16 ==> err == BadFormat)
    && (endByte == 0x16 ==>
         (err == NoError <==> cs == Checksum(f.c as int, f.a % 256, f.asdu))
         && (err != NoError ==> err == CheckError))
  }

  lemma FixedTailClassification(f: LinkLayerFrame, cs: byte, endByte: byte)
    requires !HasAsdu(f)
    ensures var e := Encode(f);
      ClassifiedByTail(f, cs, endByte, Decode(Init, e[..3] + [cs, endByte]).err)
  {
    var e := Encode(f);
    var d := e[..3] + [cs, endByte];
    assert ReadFrame(d) == Conclude(endByte, cs, f.c as int, f.a % 256, f.asdu);
    DecodeMatchesReadFrame(d);
  }

  lemma VariableTailClassification(f: LinkLayerFrame, cs: byte, endByte: byte)
    requires HasAsdu(f) && |f.asdu| <= MaxAsdu
    ensures var e := Encode(f);
      ClassifiedByTail(f, cs, endByte, Decode(Init, e[..|e| - 2] + [cs, endByte]).err)
  {
    var e := Encode(f);
    var n := |f.asdu|;
    var d := e[..|e| - 2] + [cs, endByte];
    assert d[6..6 + n] == f.asdu;
    assert d[1] == n + 2 && d[3] == 0x68 && d[4] == f.c as int && d[5] == f.a % 256;
    assert ReadFrame(d) == Conclude(endByte, cs, f.c as int, f.a % 256, f.asdu);
    DecodeMatchesReadFrame(d);
  }

  /**
    With the header and user data of an encoded frame, the last two octets
    decide alone: a wrong end marker is a format error whatever the
    checksum octet; a right one succeeds exactly when the checksum octet
    matches, and is a checksum error otherwise.
   */
  lemma TerminalClassification(f: LinkLayerFrame, cs: byte, endByte: byte)
    requires |f.asdu| <= MaxAsdu
    ensures var e := Encode(f);
      var err := Decode(Init, e[..|e| - 2] + [cs, endByte]).err;
      && (endByte != 0x16 ==> err == BadFormat)
      && (endByte == 0x16 ==>
           (err == NoError <==> cs == Checksum(f.c as int, f.a % 256, f.asdu))
           && (err != NoError ==> err == CheckError))
  {
    if HasAsdu(f) {
      VariableTailClassification(f, cs, endByte);
    } else {
      FixedTailClassification(f, cs, endByte);
    }
  }

  /** Replacing only the checksum octet of an encoded frame by a wrong value gives a checksum error. */
  lemma ChecksumSensitivity(f: LinkLayerFrame, cs: byte)
    requires |f.asdu| <= MaxAsdu
    requires cs != Checksum(f.c as int, f.a % 256, f.asdu)
    ensures var e := Encode(f); Decode(Init, e[|e| - 2 := cs]).err == CheckError
  {
    var e := Encode(f);
    assert e[|e| - 2 := cs] == e[..|e| - 2] + [cs, 0x16];
    TerminalClassification(f, cs, 0x16);
  }

  // ---------------------------------------------------------------------
  // Incremental decoding

  /** Two successive calls act as one call on the concatenated input. */
  lemma DecodeSplit(c: Codec, a: seq<byte>, b: seq<byte>)
    requires WellPhased(c)
    ensures Decode(Decode(c, a), b) == Decode(c, a + b)
  {
    FeedAppend(c, a, b);
  }

  function Concat(chunks: seq<seq<byte>>): seq<byte>
  {
    if |chunks| == 0 then [] else chunks[0] + Concat(chunks[1..])
  }

  /** One `decode` call per chunk, in order. */
  function DecodeAll(c: Codec, chunks: seq<seq<byte>>): Codec
    decreases |chunks|
  {
    if |chunks| == 0 then c else DecodeAll(Decode(c, chunks[0]), chunks[1..])
  }

  /** However the input is split across calls, the decoder ends in the same state. */
  lemma {:induction false} ChunkingInvariance(c: Codec, chunks: seq<seq<byte>>)
    requires Consistent(c)
    ensures DecodeAll(c, chunks) == Decode(c, Concat(chunks))
    decreases |chunks|
  {
    if |chunks| == 0 {
      assert Feed(c, []) == c;
    } else {
      ChunkingInvariance(Decode(c, chunks[0]), chunks[1..]);
      DecodeSplit(c, chunks[0], Concat(chunks[1..]));
    }
  }

  /** Once a call has ended at `Done`, later calls change nothing. */
  lemma DoneAbsorbs(c: Codec, d: seq<byte>)
    requires Consistent(c) && c.state == Done
    ensures Decode(c, d) == c
  {
  }

  /** After any sequence of calls on a fresh decoder, further calls leave a finished decoder unchanged. */
  lemma DoneIsFinal(chunks: seq<seq<byte>>, more: seq<byte>)
    requires DecodeAll(Init, chunks).state == Done
    ensures Decode(DecodeAll(Init, chunks), more) == DecodeAll(Init, chunks)
  {
    ChunkingInvariance(Init, chunks);
  }

  // ---------------------------------------------------------------------
  // The length octets

  /** The second length octet is stored but never read: changing it changes no outcome. */
  lemma SecondLengthIgnored(d: seq<byte>, x: byte)
    requires |d| > 2 && d[0] == 0x68
    ensures Decode(Init, d[2 := x]).err == Decode(Init, d).err
    ensures Decode(Init, d).err == NoError ==>
      var r, r' := Decode(Init, d), Decode(Init, d[2 := x]);
      r'.ctrlDomain == r.ctrlDomain && r'.address == r.address && r'.asdu == r.asdu
  {
    var d' := d[2 := x];
    if |d| >= 6 && d[1] > 2 && |d| >= d[1] as int + 6 {
      var n := d[1] as int - 2;
      assert d'[6..6 + n] == d[6..6 + n];
    }
    assert ReadFrame(d') == ReadFrame(d);
    DecodeMatchesReadFrame(d);
    DecodeMatchesReadFrame(d');
  }

  /** A declared length of 2 or less never ends the user data, so the decoder keeps waiting. */
  lemma ShortLengthNeverCompletes(d: seq<byte>)
    requires |d| >= 4 && d[0] == 0x68 && d[3] == 0x68 && d[1] <= 2
    ensures Decode(Init, d).err == NeedMoreData
  {
    DecodeMatchesReadFrame(d);
  }

  /**
    An encoded frame whose first length octet is lowered to L (at least 3,
    below the true 2 + n) is cut after L - 2 octets of user data; the
    octet then read as end marker is the one at position L + 5, and unless
    it happens to be 0x16 the result is a format error.
   */
  lemma UnderDeclaredLength(f: LinkLayerFrame, len: byte)
    requires 1 <= |f.asdu| <= MaxAsdu
    requires 3 <= len < |f.asdu| + 2
    ensures var e := Encode(f);
      var err := Decode(Init, e[1 := len]).err;
      && (e[len + 5] != 0x16 ==> err == BadFormat)
      && (e[len + 5] == 0x16 ==>
           if Checksum(f.c as int, f.a % 256, f.asdu[..len - 2]) == e[len + 4] then err == NoError
           else err == CheckError)
  {
    var e := Encode(f);
    var d := e[1 := len];
    assert d[6..6 + (len - 2)] == f.asdu[..len - 2];
    DecodeMatchesReadFrame(d);
  }

  /**
    For 254 to 256 octets of user data the encoder's length octet wraps
    to 0, 1 or 2, and a decoder fed the whole encoding never finishes.
   */
  lemma OversizedAsduNeverCompletes(f: LinkLayerFrame)
    requires MaxAsdu < |f.asdu| <= MaxAsdu + 3
    ensures Decode(Init, Encode(f)).err == NeedMoreData
  {
    DecodeMatchesReadFrame(Encode(f));
  }

  // ---------------------------------------------------------------------
  // The fixture tables of the source's tests

  /** case0 of the decode table: a good fixed frame, C = 0x5a, A = 1. */
  lemma FixedFrameFixtureGood()
    ensures Decode(Init, [0x10, 0x5a, 0x01, 0x5b, 0x16]).err == NoError
    ensures Decode(Init, [0x10, 0x5a, 0x01, 0x5b, 0x16]).ctrlDomain == 0x5a
    ensures !HasAsdu(ToLinkLayerFrame(Decode(Init, [0x10, 0x5a, 0x01, 0x5b, 0x16])))
    ensures Decode(Init, [0x10, 0x5a, 0x01, 0x5b, 0x16]).address == 1
    ensures ToLinkLayerFrame(Decode(Init, [0x10, 0x5a, 0x01, 0x5b, 0x16])).a == 3
  {
    DecodeMatchesReadFrame([0x10, 0x5a, 0x01, 0x5b, 0x16]);
  }

  /** case1: the checksum octet 0x5c is one too many. */
  lemma FixedFrameFixtureBadChecksum()
    ensures Decode(Init, [0x10, 0x5a, 0x01, 0x5c, 0x16]).err == CheckError
  {
    DecodeMatchesReadFrame([0x10, 0x5a, 0x01, 0x5c, 0x16]);
  }

  /** case2 and case3: a wrong start octet, a wrong end octet. */
  lemma FixedFrameFixtureBadMarkers()
    ensures Decode(Init, [0x40, 0x5a, 0x01, 0x5b, 0x16]).err == BadFormat
    ensures Decode(Init, [0x10, 0x5a, 0x01, 0x5b, 0x26]).err == BadFormat
  {
    BadStartByte(0x40, [0x5a, 0x01, 0x5b, 0x16]);
    assert [0x40] + [0x5a, 0x01, 0x5b, 0x16] == [0x40, 0x5a, 0x01, 0x5b, 0x16];
    DecodeMatchesReadFrame([0x10, 0x5a, 0x01, 0x5b, 0x26]);
  }

  /** case4: two octets of a fixed frame. */
  lemma FixedFrameFixtureShort()
    ensures Decode(Init, [0x10, 0x5a]).err == NeedMoreData
  {
    DecodeMatchesReadFrame([0x10, 0x5a]);
  }

  /** The variable frame of the fixture tables: 0x68 9 9 0x68, C = 0x08, A = 1, seven octets of user data. */
  const SampleVariable: seq<byte> :=
    [0x68, 0x09, 0x09, 0x68, 0x08, 0x01, 0x46, 0x01, 0x04, 0x01, 0x00, 0x00, 0x00, 0x55, 0x16]

  lemma SampleReading()
    ensures ReadFrame(SampleVariable) == Accepted(0x08, 0x01, SampleVariable[6..13])
  {
    var zeros: seq<byte> := [0x00, 0x00, 0x00];
    assert Sum(zeros) == 0 by {
      SumCons(0x00, [0x00, 0x00]);
      SumCons(0x00, [0x00]);
      SumCons(0x00, []);
      assert [0x00] + [] == [0x00] && [0x00] + [0x00] == [0x00, 0x00] && [0x00] + [0x00, 0x00] == zeros;
    }
    var t1 := [0x01] + zeros;
    var t2 := [0x04] + t1;
    var t3 := [0x01] + t2;
    var p := [0x46] + t3;
    SumCons(0x01, zeros);
    SumCons(0x04, t1);
    SumCons(0x01, t2);
    SumCons(0x46, t3);
    assert SampleVariable[6..13] == p;
    assert Checksum(0x08, 0x01, p) == 0x55 == SampleVariable[13];
  }

  /** case5 of both tables: the variable frame decodes, with C = 0x08 and seven octets of user data. */
  lemma VariableFrameFixtureGood()
    ensures Decode(Init, SampleVariable).err == NoError
    ensures Decode(Init, SampleVariable).ctrlDomain == 0x08
    ensures Decode(Init, SampleVariable).address == 1
    ensures HasAsdu(ToLinkLayerFrame(Decode(Init, SampleVariable)))
    ensures |ToLinkLayerFrame(Decode(Init, SampleVariable)).asdu| == 7
    ensures ToLinkLayerFrame(Decode(Init, SampleVariable)).a == 3
  {
    SampleReading();
    DecodeMatchesReadFrame(SampleVariable);
  }

  /** case6: repeated start octet 0x99. */
  lemma VariableFrameFixtureBadSecondStart()
    ensures Decode(Init, SampleVariable[3 := 0x99]).err == BadFormat
  {
    BadSecondStart(SampleVariable[3 := 0x99]);
  }

  /** case7: declared length 3, so the octet read as end marker is 0x04. */
  lemma VariableFrameFixtureShortLength()
    ensures Decode(Init, SampleVariable[1 := 0x03][2 := 0x03]).err == BadFormat
  {
    var short := SampleVariable[1 := 0x03][2 := 0x03];
    assert short[8] == 0x04;
    assert ReadFrame(short) == Malformed;
    DecodeMatchesReadFrame(short);
  }
}
