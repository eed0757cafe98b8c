/**
  The link-layer frame value of IEC 60870-5-101: a control field C, a
  16-bit link address A and the user data (the ASDU). An empty ASDU
  makes a frame of fixed length, a non-empty one a frame of variable
  length. The control field follows IEC 60870-5-2, clause 5.1.2:
  bit 7 DIR, bit 6 PRM, bit 5 FCB (or ACD), bit 4 FCV (or DFC),
  bits 3..0 the function code.
 */
module LinkFrame {
  import opened Octets

  datatype Prm = FromStartupStation | FromSlaveStation
  datatype Dir = FromMasterStation | FromSlaveStation
  datatype Fcb = K0 | K1
  datatype Fcv = FcbValid | FcbInvalid
  datatype Acd = Level1DataWaitingAccess | Level1NoDataWaitingAccess
  datatype Dfc = SlaveCannotRecv | SlaveCanRecv

  datatype LinkLayerFrame = LinkLayerFrame(c: bv8, a: uint16, asdu: seq<byte>)

  function Pow2(k: nat): (r: nat)
    ensures r > 0
  {
    if k == 0 then 1 else 2 * Pow2(k - 1)
  }

  /** A control field read out as an octet and back is unchanged. */
  lemma ControlRoundTrip(b: bv8)
    ensures (b as int) as bv8 == b
  {
  }

  lemma SuccControl(b: bv8)
    requires b != 0xff
    ensures (b + 1) as int == b as int + 1
  {
  }

  /** Every octet value is the value of some control field, built by counting up from 0. */
  lemma {:induction false} ControlFor(x: byte) returns (b: bv8)
    ensures b as int == x
    decreases x
  {
    if x == 0 {
      b := 0;
    } else {
      var p := ControlFor(x - 1);
      SuccControl(p);
      b := p + 1;
    }
  }

  /** An octet read into the control field keeps its value. */
  lemma OctetAsControl(x: byte)
    ensures (x as bv8) as int == x
  {
    var b := ControlFor(x);
    ControlRoundTrip(b);
  }

  /** Bit k of the control field, read arithmetically: the reference for the mask accessors. */
  predicate Bit(c: bv8, k: nat)
  {
    (c as int / Pow2(k)) % 2 == 1
  }

  /** PRM: the frame comes from the initiating (startup) station. */
  function IsFromStartupStation(f: LinkLayerFrame): (r: bool)
    ensures r == Bit(f.c, 6)
  {
    assert Pow2(6) == 64;
    (f.c & 0x40) >> 6 != 0
  }

  /** DIR: the negation of bit 7. */
  function IsFromMasterStation(f: LinkLayerFrame): (r: bool)
    ensures r == !Bit(f.c, 7)
  {
    assert Pow2(7) == 128;
    !((f.c & 0x80) >> 7 != 0)
  }

  /** FCB (`fcb()` in the source): frame count bit. */
  function FrameCountBit(f: LinkLayerFrame): (r: bool)
    ensures r == Bit(f.c, 5)
  {
    assert Pow2(5) == 32;
    (f.c & 0x20) >> 5 != 0
  }

  /**
    ACD as the source writes it: the mask is the decimal literal 20
    (bits 4 and 2), and shifting that right by 5 leaves nothing, so the
    answer is false for every control field, even when bit 5 is set.
   */
  function HasLevel1DataWatingAccess(f: LinkLayerFrame): (r: bool)
    ensures !r
  {
    (f.c & 20) >> 5 != 0
  }

  /** FCV: frame count bit valid. */
  function IsValidFcb(f: LinkLayerFrame): (r: bool)
    ensures r == Bit(f.c, 4)
  {
    assert Pow2(4) == 16;
    (f.c & 0x10) >> 4 != 0
  }

  /** DFC: data flow control; the same stored bit as FCV. */
  function IsSlaveCannotRecv(f: LinkLayerFrame): (r: bool)
    ensures r == Bit(f.c, 4)
  {
    assert Pow2(4) == 16;
    (f.c & 0x10) >> 4 != 0
  }

  /** The four low bits of C. */
  function FunctionCode(f: LinkLayerFrame): (r: int)
    ensures 0 <= r < 16
    ensures r == f.c as int % 16
  {
    (f.c & 0x0f) as int
  }

  /** The only setter with an effect: clears bit 6 and sets it from `prm`. */
  function SetPrm(f: LinkLayerFrame, prm: Prm): (r: LinkLayerFrame)
    ensures IsFromStartupStation(r) == (prm == FromStartupStation)
    ensures r.c & 0xbf == f.c & 0xbf
    ensures r.a == f.a && r.asdu == f.asdu
  {
    var cleared := f.c & 0xbf;
    f.(c := cleared | (if prm == FromStartupStation then 0x40 else 0x00))
  }

  // The remaining setters of the source have empty bodies: each returns
  // the frame it was given, whatever value it was asked to store.

  function SetDir(f: LinkLayerFrame, dir: Dir): LinkLayerFrame { f }
  function SetFcb(f: LinkLayerFrame, fcb: Fcb): LinkLayerFrame { f }
  function SetAcd(f: LinkLayerFrame, acd: Acd): LinkLayerFrame { f }
  function SetFcv(f: LinkLayerFrame, fcv: Fcv): LinkLayerFrame { f }
  function SetDfc(f: LinkLayerFrame, dfc: Dfc): LinkLayerFrame { f }
  function SetFc(f: LinkLayerFrame, fc: int): LinkLayerFrame { f }

  /** A frame carries user data exactly when it is of variable length. */
  predicate HasAsdu(f: LinkLayerFrame)
  {
    |f.asdu| > 0
  }

  /** The variable-frame layout 0x68 L L 0x68 C A user-data CS 0x16, with L = 2 + |user data| truncated to 8 bits. */
  function VariableImage(c: byte, addr: byte, payload: seq<byte>, cs: byte): (r: seq<byte>)
    ensures |r| == |payload| + 8
    ensures r[0] == 0x68 && r[3] == 0x68
    ensures r[1] == r[2] == (2 + |payload|) % 256
    ensures r[4] == c && r[5] == addr
    ensures r[6..6 + |payload|] == payload
    ensures r[|r| - 2] == cs && r[|r| - 1] == 0x16
  {
    var len := (2 + |payload|) % 256;
    var header := [0x68, len, len, 0x68, c, addr];
    var r := header + payload + [cs, 0x16];
    assert r[..6] == header;
    assert r[6..6 + |payload|] == payload;
    r
  }

  /**
    The wire image. Fixed: 0x10 C A CS 0x16. Variable: see `VariableImage`.
    A is sent as its low octet, and CS wraps at 256.
   */
  function Encode(f: LinkLayerFrame): (r: seq<byte>)
    ensures !HasAsdu(f) ==> |r| == 5 && r[0] == 0x10 && r[1] == f.c as int && r[2] == f.a % 256
    ensures HasAsdu(f) ==>
      && |r| == |f.asdu| + 8
      && r[0] == 0x68 && r[3] == 0x68
      && r[1] == r[2] == (2 + |f.asdu|) % 256
      && r[4] == f.c as int && r[5] == f.a % 256
      && r[6..6 + |f.asdu|] == f.asdu
    ensures r[|r| - 2] == Checksum(f.c as int, f.a % 256, f.asdu)
    ensures r[|r| - 1] == 0x16
  {
    var c := f.c as int;
    // the running sum starts at C + A cut to 8 bits; with no user data it is just that
    var cs := WrapSum((c + f.a) % 256, f.asdu);
    WrapFromControlAndAddress(c, f.a, f.asdu);
    if !HasAsdu(f) then
      [0x10, c, f.a % 256, cs, 0x16]
    else
      VariableImage(c, f.a % 256, f.asdu, cs)
  }

  /** `hasAsdu` is what selects the layout: variable frames start with 0x68, fixed ones with 0x10. */
  lemma HasAsduSelectsLayout(f: LinkLayerFrame)
    ensures HasAsdu(f) <==> Encode(f)[0] == 0x68
    ensures !HasAsdu(f) <==> Encode(f)[0] == 0x10 && |Encode(f)| == 5
  {
  }

  /** The ACD accessor answers false even for a frame whose bit 5 is set. */
  lemma AcdMaskMissesBit5()
    ensures Bit(0x20, 5) && !HasLevel1DataWatingAccess(LinkLayerFrame(0x20, 0, []))
  {
    assert Pow2(5) == 32;
  }

  /** setPRM is idempotent and leaves A and the user data alone. */
  lemma SetPrmIdempotent(f: LinkLayerFrame, prm: Prm)
    ensures SetPrm(SetPrm(f, prm), prm) == SetPrm(f, prm)
  {
  }

  /** The other setters change nothing at all, not even the field they name. */
  lemma InertSetters(f: LinkLayerFrame, dir: Dir, fcb: Fcb, acd: Acd, fcv: Fcv, dfc: Dfc, fc: int)
    ensures SetDir(f, dir) == f && SetFcb(f, fcb) == f && SetAcd(f, acd) == f
    ensures SetFcv(f, fcv) == f && SetDfc(f, dfc) == f && SetFc(f, fc) == f
  {
  }

  /** The control-field fixture: 0x53 = 0101 0011. */
  lemma ControlFieldFixture()
    ensures var f := LinkLayerFrame(0x53, 0, []);
      IsFromStartupStation(f) && IsValidFcb(f) && !FrameCountBit(f) && FunctionCode(f) == 3
  {
  }
}
