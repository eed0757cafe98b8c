/**
  The incremental FT1.2 frame decoder: a finite-state machine fed one
  octet at a time, whose state survives from one `decode` call to the
  next. It stops consuming at `Done` and, after every call, turns a
  structurally good frame whose checksum does not match into a
  checksum error.
 */
module FrameCodec {
  import opened Octets
  import opened LinkFrame

  datatype FrameParseErr = NoError | NeedMoreData | BadFormat | CheckError

  datatype State =
    | Start
    | Second68
    | CtrlDomain
    | AddressOffset0
    | LengthOffset0
    | LengthOffset1
    | Asdu
    | Cs
    | End
    | Done

  /**
    The decoder's fields. The source leaves `ctrlDomain_`, `address_`,
    `length_` and `cs_` uninitialised; the decoding paths write them
    before they read them, and here they start at zero.
   */
  datatype Codec = Codec(
    state: State,
    err: FrameParseErr,
    isFixedFrame: bool,
    ctrlDomain: byte,
    address: byte,
    length0: byte,
    length1: byte,
    cs: byte,
    asdu: seq<byte>)

  /** A freshly constructed decoder. */
  const Init := Codec(Start, NeedMoreData, false, 0, 0, 0, 0, 0, [])

  /** The decoder has a verdict exactly when it has reached `Done`. */
  predicate WellPhased(c: Codec)
  {
    (c.state == Done) == (c.err != NeedMoreData)
  }

  /** What every decoder that `Decode` hands back satisfies: a success is a checksum match. */
  predicate Consistent(c: Codec)
  {
    && WellPhased(c)
    && (c.err == NoError ==> c.cs == Checksum(c.ctrlDomain, c.address, c.asdu))
  }

  /** One pass of the `switch` in `decode` for the octet `b`. */
  function Step(c: Codec, b: byte): (r: Codec)
    ensures c.state == Done ==> r == c
    ensures WellPhased(c) ==> WellPhased(r)
    ensures r.state == Done && c.state != Done ==> c.state in {Start, Second68, End}
  {
    match c.state
    case Start =>
      if b == 0x10 then c.(isFixedFrame := true, state := CtrlDomain)
      else if b == 0x68 then c.(isFixedFrame := false, state := LengthOffset0)
      else c.(err := BadFormat, state := Done)
    case CtrlDomain => c.(ctrlDomain := b, state := AddressOffset0)
    case LengthOffset0 => c.(length0 := b, state := LengthOffset1)
    case LengthOffset1 => c.(length1 := b, state := Second68)
    case Second68 =>
      if b != 0x68 then c.(err := BadFormat, state := Done)
      else c.(state := CtrlDomain)
    case AddressOffset0 => c.(address := b, state := if c.isFixedFrame then Cs else Asdu)
    case Asdu =>
      var payload := c.asdu + [b];
      if c.length0 == |payload| + 2 then c.(asdu := payload, state := Cs)
      else c.(asdu := payload)
    case Cs => c.(cs := b, state := End)
    case End => c.(err := if b == 0x16 then NoError else BadFormat, state := Done)
    case Done => c
  }

  /** The byte loop of `decode`: feed octets in order and stop once `Done` is reached. */
  function Feed(c: Codec, data: seq<byte>): (r: Codec)
    ensures c.state == Done ==> r == c
    ensures WellPhased(c) ==> WellPhased(r)
    decreases |data|
  {
    if |data| == 0 || c.state == Done then c
    else Feed(Step(c, data[0]), data[1..])
  }

  /** Decoding only ever appends to the user data: what was collected is never lost or changed. */
  lemma {:induction false} PayloadOnlyGrows(c: Codec, data: seq<byte>)
    ensures c.asdu <= Feed(c, data).asdu
    decreases |data|
  {
    if |data| > 0 && c.state != Done {
      var c' := Step(c, data[0]);
      assert c.asdu <= c'.asdu;
      PayloadOnlyGrows(c', data[1..]);
    }
  }

  /** `calculateCs_`: an 8-bit running sum of control field, address and user data. */
  function CalculateCs(c: Codec): (r: byte)
    ensures r == Checksum(c.ctrlDomain, c.address, c.asdu)
  {
    var s := [c.ctrlDomain, c.address] + c.asdu;
    assert s[1..][1..] == c.asdu;
    WrapSum(0, s)
  }

  /** A whole `decode(data)` call: the byte loop, then the checksum check on success. */
  function Decode(c: Codec, data: seq<byte>): (r: Codec)
    ensures WellPhased(c) ==> Consistent(r)
    ensures r.err == NoError ==> r.cs == Checksum(r.ctrlDomain, r.address, r.asdu)
  {
    var fed := Feed(c, data);
    if fed.err == NoError && CalculateCs(fed) != fed.cs then fed.(err := CheckError) else fed
  }

  /**
    `toLinkLayerFrame`: the parsed control field and user data, with the
    address fixed at 3 whatever address octet was parsed.
   */
  function ToLinkLayerFrame(c: Codec): (r: LinkLayerFrame)
    ensures r.a == 3 && r.asdu == c.asdu && r.c as int == c.ctrlDomain
    ensures HasAsdu(r) <==> |c.asdu| > 0
  {
    OctetAsControl(c.ctrlDomain);
    LinkLayerFrame(c.ctrlDomain as bv8, 3, c.asdu)
  }


  /**
    `decode` as the source writes it: a loop over the input that breaks
    as soon as the state is `Done`, followed by the checksum check.
   */
  method DecodeLoop(c: Codec, data: seq<byte>) returns (r: Codec)
    ensures r == Decode(c, data)
  {
    r := c;
    var i := 0;
    while i < |data|
      invariant 0 <= i <= |data|
      invariant Feed(r, data[i..]) == Feed(c, data)
    {
      assert data[i..][1..] == data[i + 1..];
      r := Step(r, data[i]);
      i := i + 1;
      if r.state == Done {
        break;
      }
    }
    if r.err == NoError {
      var cs := CalculateCs(r);
      if cs != r.cs {
        r := r.(err := CheckError);
      }
    }
  }
}
