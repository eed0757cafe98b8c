/**
  Bytes and the 8-bit additive checksum of the FT1.2 frame format
  (IEC 60870-5-1, clause 6.2.4.2): the sum, with wrap-around, of the
  control field, the address field and every user-data octet.
 */
module Octets {

  /** One octet on the wire, as an unsigned value. */
  type byte = x: int | 0 <= x < 256

  /** The 16-bit link address held by a frame. */
  type uint16 = x: int | 0 <= x < 0x1_0000

  /** Mathematical (unbounded) sum of a byte sequence. */
  function Sum(s: seq<byte>): nat
  {
    if |s| == 0 then 0 else s[0] + Sum(s[1..])
  }

  /** The checksum the frame format prescribes, as a reference definition. */
  function Checksum(ctrl: byte, addr: byte, payload: seq<byte>): byte
  {
    (ctrl + addr + Sum(payload)) % 256
  }

  /**
    The checksum loop of the source: an 8-bit accumulator to which each
    octet is added in turn, every addition wrapping at 256 on its own. Wrapping at each step gives the same octet as
    wrapping the whole sum once.
   */
  function WrapSum(acc: byte, s: seq<byte>): (r: byte)
    ensures r == (acc + Sum(s)) % 256
    decreases |s|
  {
    if |s| == 0 then acc
    else
      ModAddLeft(acc + s[0], Sum(s[1..]));
      WrapSum((acc + s[0]) % 256, s[1..])
  }

  /** Starting the running sum from `C + A` truncated to 8 bits yields the checksum over A's low octet. */
  lemma WrapFromControlAndAddress(c: byte, a: uint16, s: seq<byte>)
    ensures WrapSum((c + a) % 256, s) == Checksum(c, a % 256, s)
  {
    var q := (c + a) / 256;
    var k := a / 256;
    var x := c + a % 256 + Sum(s);
    assert (c + a) % 256 + Sum(s) == x + 256 * (k - q);
    ModPeriod(x, k - q);
  }

  lemma SumCons(b: byte, s: seq<byte>)
    ensures Sum([b] + s) == b + Sum(s)
  {
    assert ([b] + s)[1..] == s;
  }

  lemma ModPeriod(x: int, m: int)
    ensures (x + 256 * m) % 256 == x % 256
  {
  }

  lemma ModAddLeft(x: int, y: int)
    ensures (x % 256 + y) % 256 == (x + y) % 256
  {
    ModPeriod(x % 256 + y, x / 256);
  }
}
