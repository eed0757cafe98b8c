# IEC 60870-5-101 link-layer frame and frame decoder, in Dafny

This project models the link layer of IEC 60870-5-101 as written in the
header `iec60870/iec101/iec101_link_layer_frame.h`. That layer uses the FT1.2
frame format of IEC 60870-5-1 (clause 6.2.4.2), and its control field follows
IEC 60870-5-2 (clause 5.1.2). The header has two parts.

- `LinkLayerFrame` is a value with three parts: a control field `C`, a 16-bit
  address `A` and the user data (the ASDU).
  - With no user data it is a fixed frame: `10 C A CS 16`.
  - With user data it is a variable frame: `68 L L 68 C A data CS 16`.
  - The frame has bit accessors over `C`, one working setter (`setPRM`) and
    six setters with empty bodies.
  - `encode` produces the wire octets.
- `LinkLayerFrameCodec` is a decoder that is fed one octet at a time. Its state
  is kept from one `decode` call to the next.
  - It stops at `kDone`.
  - After every call, a frame that is well formed but has the wrong checksum
    becomes `kCheckError`.
  - `toLinkLayerFrame` rebuilds a frame from the parsed control field and
    user data, with address 3.

Modules:

- `Octets` (`octets.dfy`): the byte type, the checksum as a plain sum taken mod
  256, and the wrap-at-each-step running sum the source computes.
- `LinkFrame` (`frame.dfy`): the frame datatype, the accessors, the setters and
  `Encode`. The control field is a `bv8`, and every accessor uses the same mask
  and shift as the source. The contracts of the PRM, DIR, FCB, FCV and DFC
  accessors give their result in terms of `Bit`, which reads one bit with plain
  arithmetic. The function-code accessor is stated as C mod 16, and the ACD
  accessor as false for every control field.
- `FrameCodec` (`codec.dfy`): the decoder state as an immutable record.
  - `Step` is one pass of the `switch`.
  - `Feed` runs the byte loop, which stops at `Done`.
  - `Decode` is one whole `decode` call: the byte loop, then the checksum check.
  - `DecodeLoop` is the same call written as the source's `for`/`break` loop.
  - `ToLinkLayerFrame` models `toLinkLayerFrame`.
  - The `err` field is what `error()` returns.
- `CodecTheory` (`theory.dfy`): `ReadFrame`, an independent reader of a whole
  buffer. The main theorem `DecodeMatchesReadFrame` says that a fresh decoder
  given any octets in one call agrees with `ReadFrame`: the same verdict, and
  on success the same control field, address and user data.
- `CodecProperties` (`properties.dfy`): the properties that follow from the
  main theorem, and the fixture rows of the source's tests stated as lemmas.

The model keeps the source's quirks as written and states each one as a lemma:

- `toLinkLayerFrame` always uses address 3.
- The ACD accessor masks with decimal `20`, so it always answers false.
- Six setters do nothing.
- The second length octet is stored but never compared.
- The length octet `2 + n` is truncated to 8 bits.

## Model

| member | source | states |
|---|---|---|
| Octets.WrapSum | iec60870/iec101/iec101_link_layer_frame.h:141-145 | adding each octet with 8-bit wrap-around gives the plain sum of start value and octets, mod 256 |
| Octets.WrapFromControlAndAddress | iec60870/iec101/iec101_link_layer_frame.h:130-141 | starting the sum from `C + A` cut to 8 bits gives the checksum over C, the low octet of A and the user data |
| LinkFrame.IsFromStartupStation | iec60870/iec101/iec101_link_layer_frame.h:61 | PRM is bit 6 of C |
| LinkFrame.IsFromMasterStation | iec60870/iec101/iec101_link_layer_frame.h:67 | "from master" is the negation of bit 7 (DIR) |
| LinkFrame.FrameCountBit | iec60870/iec101/iec101_link_layer_frame.h:73 | FCB is bit 5 of C |
| LinkFrame.HasLevel1DataWatingAccess | iec60870/iec101/iec101_link_layer_frame.h:79 | with the decimal mask 20 the ACD accessor is false for every control field |
| LinkFrame.IsValidFcb | iec60870/iec101/iec101_link_layer_frame.h:85 | FCV is bit 4 of C |
| LinkFrame.IsSlaveCannotRecv | iec60870/iec101/iec101_link_layer_frame.h:91 | DFC is the same bit 4 |
| LinkFrame.FunctionCode | iec60870/iec101/iec101_link_layer_frame.h:97 | the function code is C mod 16, so it lies in 0..15 |
| LinkFrame.SetPrm | iec60870/iec101/iec101_link_layer_frame.h:99-102 | afterwards PRM reads back exactly the requested value; every other bit of C, the address and the user data are unchanged |
| LinkFrame.SetPrmIdempotent | iec60870/iec101/iec101_link_layer_frame.h:99-102 | applying setPRM twice with the same value is the same as applying it once |
| LinkFrame.InertSetters | iec60870/iec101/iec101_link_layer_frame.h:104-109 | setDIR, setFCB, setACD, setFCV, setDFC and setFC return the frame unchanged |
| LinkFrame.AcdMaskMissesBit5 | iec60870/iec101/iec101_link_layer_frame.h:79 | a control field with bit 5 set still gives ACD false |
| LinkFrame.ControlFieldFixture | iec60870/iec101/iec101_link_layer_frame_test.cpp:87-95 | for C = 0x53: PRM set, FCV set, FCB clear, function code 3 |
| LinkFrame.HasAsduSelectsLayout | iec60870/iec101/iec101_link_layer_frame.h:118-133 | `hasAsdu` holds exactly when the encoding starts with 0x68; without user data the encoding is the 5-octet frame starting with 0x10 |
| LinkFrame.VariableImage | iec60870/iec101/iec101_link_layer_frame.h:132-146 | the variable-frame layout: n + 8 octets, start octet 0x68 at offsets 0 and 3, both length octets (2 + n) mod 256, then C, A, the n data octets, the given checksum and the end octet 0x16 |
| LinkFrame.Encode | iec60870/iec101/iec101_link_layer_frame.h:123-149 | fixed frame: 5 octets `10 C A CS 16`; variable frame: n + 8 octets `68 L L 68 C A data CS 16` with L = (2 + n) mod 256; CS is the checksum over C, the low octet of A and the data |
| FrameCodec.Step | iec60870/iec101/iec101_link_layer_frame.h:183-237 | one octet leaves a `Done` decoder unchanged, keeps "verdict iff Done", and reaches `Done` only from the start, repeated-start or end states |
| FrameCodec.Feed | iec60870/iec101/iec101_link_layer_frame.h:180-242 | the byte loop leaves a `Done` decoder unchanged and keeps "verdict iff Done" |
| FrameCodec.PayloadOnlyGrows | iec60870/iec101/iec101_link_layer_frame.h:180-242 | the byte loop only appends to the user data: what was collected before is a prefix of what is held after |
| FrameCodec.CalculateCs | iec60870/iec101/iec101_link_layer_frame.h:264-272 | the running 8-bit sum equals the checksum over the parsed control field, address and user data |
| FrameCodec.Decode | iec60870/iec101/iec101_link_layer_frame.h:243-248 | after a call, NoError means the stored checksum octet matches; a decoder that was "verdict iff Done" stays so |
| FrameCodec.ToLinkLayerFrame | iec60870/iec101/iec101_link_layer_frame.h:259-261 | for every decoder state, the rebuilt frame has address 3 whatever address octet was parsed, the parsed control octet as C and the collected user data, so it has user data iff some was collected |
| FrameCodec.DecodeLoop | iec60870/iec101/iec101_link_layer_frame.h:180-249 | the `for`/`break` loop followed by the checksum check computes exactly `Decode` |
| CodecTheory.FeedAppend | iec60870/iec101/iec101_link_layer_frame.h:180-242 | feeding a concatenation is feeding its parts one after the other |
| CodecTheory.AsduRun | iec60870/iec101/iec101_link_layer_frame.h:220-225 | in the user-data state, the decoder leaves exactly when the data has grown to the first length octet minus 2; if that count has already been reached or passed, it never leaves |
| CodecTheory.DecodeMatchesReadFrame | iec60870/iec101/iec101_link_layer_frame.h:180-249 | a fresh decoder given any buffer agrees with the whole-buffer reader: same verdict, and on success the same control field, address and user data |
| CodecProperties.EncodeReadsBack | iec60870/iec101/iec101_link_layer_frame.h:123-149 | the whole-buffer reader accepts every encoding with at most 253 octets of user data and gives back its fields |
| CodecProperties.RoundTrip | iec60870/iec101/iec101_link_layer_frame.h:180-261 | decoding an encoded frame with at most 253 octets of user data gives NoError. The rebuilt frame has the same C and user data, and it has user data iff n > 0. Its address is 3; the parsed address octet is A mod 256 |
| CodecProperties.StrictPrefixNeedsMoreData | iec60870/iec101/iec101_link_layer_frame.h:180-242 | every strict prefix of an encoding leaves the decoder short of `Done`, with NeedMoreData |
| CodecProperties.BadStartByte | iec60870/iec101/iec101_link_layer_frame.h:184-195 | a first octet other than 0x10 or 0x68 gives BadFormat and `Done` after that octet alone; later octets change nothing |
| CodecProperties.BadSecondStart | iec60870/iec101/iec101_link_layer_frame.h:208-215 | a variable frame whose fourth octet is not 0x68 gives BadFormat |
| CodecProperties.TerminalClassification | iec60870/iec101/iec101_link_layer_frame.h:226-248 | with the rest of an encoding in place, a wrong end octet gives BadFormat whatever the checksum octet. With 0x16 the result is NoError iff the checksum octet matches, and CheckError otherwise |
| CodecProperties.ChecksumSensitivity | iec60870/iec101/iec101_link_layer_frame.h:243-248 | replacing only the checksum octet of an encoding with a wrong value gives CheckError |
| CodecProperties.DecodeSplit | iec60870/iec101/iec101_link_layer_frame.h:180-249 | two calls give the same decoder state as one call on the concatenated input |
| CodecProperties.ChunkingInvariance | iec60870/iec101/iec101_link_layer_frame.h:180-249 | any split of the input into successive calls gives the same decoder state as one call |
| CodecProperties.DoneAbsorbs | iec60870/iec101/iec101_link_layer_frame.h:234-240 | after a call has ended at `Done`, any further call leaves the whole state unchanged |
| CodecProperties.DoneIsFinal | iec60870/iec101/iec101_link_layer_frame.h:234-248 | after any sequence of calls on a fresh decoder that ends at `Done`, more input changes nothing |
| CodecProperties.SecondLengthIgnored | iec60870/iec101/iec101_link_layer_frame.h:204-207 | changing the second length octet of a variable frame changes neither the verdict nor the parsed fields |
| CodecProperties.ShortLengthNeverCompletes | iec60870/iec101/iec101_link_layer_frame.h:220-225 | with a declared length of 2 or less, the verdict stays NeedMoreData whatever follows |
| CodecProperties.UnderDeclaredLength | iec60870/iec101/iec101_link_layer_frame.h:216-233 | lowering the first length octet of an encoding to L (3 <= L < n + 2) makes the octet at position L + 5 the end marker. Unless it is 0x16 the result is BadFormat |
| CodecProperties.OversizedAsduNeverCompletes | iec60870/iec101/iec101_link_layer_frame.h:134 | with 254 to 256 octets of user data the length octet wraps to 0..2, and decoding the whole encoding stays at NeedMoreData |
| CodecProperties.FixedFrameFixtureGood | iec60870/iec101/iec101_link_layer_frame_test.cpp:16 | `10 5a 01 5b 16` gives NoError, C = 0x5a and no user data; address octet 1 was parsed, yet the rebuilt address is 3 |
| CodecProperties.FixedFrameFixtureBadChecksum | iec60870/iec101/iec101_link_layer_frame_test.cpp:17-20 | `10 5a 01 5c 16` gives CheckError |
| CodecProperties.FixedFrameFixtureBadMarkers | iec60870/iec101/iec101_link_layer_frame_test.cpp:21-28 | a bad start octet 0x40 and a bad end octet 0x26 each give BadFormat |
| CodecProperties.FixedFrameFixtureShort | iec60870/iec101/iec101_link_layer_frame_test.cpp:29 | `10 5a` gives NeedMoreData |
| CodecProperties.VariableFrameFixtureGood | iec60870/iec101/iec101_link_layer_frame_test.cpp:30-34 | the 15-octet variable frame gives NoError, C = 0x08 and seven octets of user data, with address 3 |
| CodecProperties.VariableFrameFixtureBadSecondStart | iec60870/iec101/iec101_link_layer_frame_test.cpp:35-39 | the same frame with 0x99 as its fourth octet gives BadFormat |
| CodecProperties.VariableFrameFixtureShortLength | iec60870/iec101/iec101_link_layer_frame_test.cpp:40-44 | the same frame with declared length 3 gives BadFormat |

## Left out

- The `data_` accumulator (header lines 182-183 and 283): it is written and never read, so it has no observable effect.
- The enums `StartupFunction` and `SlaveFunction` and the constants `kInvalidA` and `kBroadcastA`: they have no behaviour. The PRM/DIR/FCB/FCV/ACD/DFC enums appear only as setter parameter types.
- The uninitialised fields `ctrlDomain_`, `address_`, `length_` and `cs_` (header lines 274-277): the model starts them at 0. The source reads indeterminate values where a path reads them before writing them, as `toLinkLayerFrame` does after a decode that failed early. The header documents calling `toLinkLayerFrame` only after `kNoError` (lines 172-177 and 251-256).
- The test harness (gtest): its fixture rows are lemmas here.
- Serial transport, the link-session logic (FCB alternation, retries) and the interpretation of the ASDU: none of these is in this header.
- `CodecProperties.RoundTrip` and `CodecProperties.StrictPrefixNeedsMoreData` require at most 253 octets of user data. Beyond that the source's length octet wraps, and neither property holds. `OversizedAsduNeverCompletes` covers 254 to 256 octets. For longer data, `DecodeMatchesReadFrame` still describes what the decoder does.
