# quicly error-code namespaces, in Dafny

quicly passes errors around as one C `int`. Bits 16 and 17 of that `int` are
a namespace tag and the low 16 bits are the code. Tag `0b10` (`0x20000`)
marks a QUIC transport error. Tag `0b11` (`0x30000`) marks a QUIC application
error. Tag `0b00` marks a non-QUIC value, including quicly's three internal,
local-only codes `0xff01`–`0xff03`. Tag `0b01` is produced by no encoder,
yet `IS_QUIC` accepts it. The header `include/quicly/constants.h`
defines this codec as six macros: two encoders, one decoder, three
classifiers. It also names the transport codes, which follow the numbering
of the IETF QUIC transport drafts (several names and values differ from
section 20.1 of RFC 9000, for example 0x2, 0x4, 0x9 and 0xc).

This project models those macros and constants and proves the properties the
codec relies on:
- round trips;
- the range of each encoder;
- truncation to 16 bits;
- injectivity, and disjointness of the two namespaces;
- mutual exclusion of the classifiers;
- distinctness and classification of the named codes.

Files:
- `bits.dfy` (module `Bits`): C's `a & m` for a non-negative mask `m`, on
  two's-complement integers, defined bit by bit (`BitAnd`). Its lemmas prove
  two closed forms by induction:
  - `a & (2^k - 1) == a mod 2^k`;
  - a mask shifted left by `k` bits reads the bits of `a / 2^k`.
- `constants.dfy` (module `Constants`): the header.
  - The macros, the named transport codes and the internal codes.
  - The named codes are also listed as a datatype of names
    (`TransportErrorName`), so that facts about all of them are single lemmas.
  - The lemmas about all of these.
- `error_kinds.dfy` (module `ErrorKinds`): the typed reading callers make of
  an error value. The test suite's close callback does exactly this:
  `IS_QUIC_APPLICATION`, then `GET_ERROR_CODE`. Here it is written as a
  `Decode` into `Transport(code) | Application(code)` and an `Encode` back
  through the header's encoders, with both round trips proved.

Representation choices:
- A C `int` is an `int` restricted to the 32-bit range (`CInt`), and
  `uint16_t` is `0..0xffff` (`Uint16`).
- The `(uint16_t)` cast is `e % 0x10000`. Dafny's `%` is Euclidean, so this is
  C's conversion to an unsigned type for negative `e` too.
  `ToUint16IsLowMask` proves that it equals `e & 0xffff`.
- The subexpression `(e) & 0x30000` of the classifiers is
  `NamespaceBits(e) == ((e / 0x10000) % 4) * 0x10000`.
  `NamespaceBitsIsMask` proves that it equals `BitAnd(e, 0x30000)`.
- The encoders' `+ 0x20000` / `+ 0x30000` is `int` addition. It cannot
  overflow, because the cast has already bounded the operand.

## Model

| member | source | states |
|---|---|---|
| Constants.ToUint16 | include/quicly/constants.h:35-37 | the `(uint16_t)` cast gives the value in 0..0xffff that is congruent to `e` modulo 2^16, and leaves 16-bit values unchanged |
| Constants.ToUint16IsLowMask | include/quicly/constants.h:35 | the cast equals the bitwise AND `e & 0xffff` of the two's-complement value |
| Constants.NamespaceBitsIsMask | include/quicly/constants.h:32-34 | the arithmetic form of `e & 0x30000` equals the bitwise AND with the namespace mask |
| Constants.ClassifiersAreMaskTests | include/quicly/constants.h:32-34 | IS_QUIC, IS_QUIC_TRANSPORT and IS_QUIC_APPLICATION are exactly the mask tests `(e & 0x30000) != 0`, `== 0x20000` and `== 0x30000` |
| Bits.BitAnd | include/quicly/constants.h:32-35 | C's `a & m` for a non-negative mask, taken bit by bit; the result never exceeds the mask. `LowMask` and `ShiftedMask` prove its closed forms for a low mask and a shifted mask |
| Constants.NamespaceBits | include/quicly/constants.h:32-34 | the subexpression `e & 0x30000` is one of the four tags 0, 0x10000, 0x20000, 0x30000; `NamespaceBitsIsMask` proves it equals the bitwise AND |
| Constants.IsQuic | include/quicly/constants.h:32 | IS_QUIC is the mask test `(e & 0x30000) != 0` and rejects every 16-bit value; `ClassifiersAreMaskTests` proves it equals the `BitAnd` test |
| Constants.IsQuicTransport | include/quicly/constants.h:33 | IS_QUIC_TRANSPORT is the mask test `== 0x20000` and implies IS_QUIC; `ClassifiersAreMaskTests` proves it equals the `BitAnd` test |
| Constants.IsQuicApplication | include/quicly/constants.h:34 | IS_QUIC_APPLICATION is the mask test `== 0x30000`, implies IS_QUIC and excludes IS_QUIC_TRANSPORT; `ClassifiersAreMaskTests` proves it equals the `BitAnd` test |
| Constants.GetErrorCode | include/quicly/constants.h:35 | GET_ERROR_CODE returns a 16-bit value congruent to `e` modulo 2^16, whatever the namespace |
| Constants.FromTransportErrorCode | include/quicly/constants.h:36 | a transport encoding lies in 0x20000..0x2ffff and agrees with the code modulo 2^16 |
| Constants.FromApplicationErrorCode | include/quicly/constants.h:37 | an application encoding lies in 0x30000..0x3ffff and agrees with the code modulo 2^16 |
| Constants.TransportEncodingClassified | include/quicly/constants.h:32-36 | a transport encoding is accepted by IS_QUIC and IS_QUIC_TRANSPORT and rejected by IS_QUIC_APPLICATION |
| Constants.ApplicationEncodingClassified | include/quicly/constants.h:32-37 | an application encoding is accepted by IS_QUIC and IS_QUIC_APPLICATION and rejected by IS_QUIC_TRANSPORT |
| Constants.TransportRoundTrip | include/quicly/constants.h:35-36 | GET_ERROR_CODE of a transport encoding is the code modulo 2^16, hence the code itself for a 16-bit code |
| Constants.ApplicationRoundTrip | include/quicly/constants.h:35-37 | GET_ERROR_CODE of an application encoding is the code modulo 2^16, hence the code itself for a 16-bit code |
| Constants.EncodersTruncate | include/quicly/constants.h:36-37 | each encoder gives the same value for `e` and for `e mod 2^16`: only the low 16 bits survive |
| Constants.EncodersInjective | include/quicly/constants.h:36-37 | two codes get the same encoding in one namespace if and only if they agree modulo 2^16 |
| Constants.EncodingsDisjoint | include/quicly/constants.h:36-37 | no transport encoding equals an application encoding |
| Constants.TransportImage | include/quicly/constants.h:36 | a value is some code's transport encoding if and only if it lies in 0x20000..0x2ffff |
| Constants.ApplicationImage | include/quicly/constants.h:37 | a value is some code's application encoding if and only if it lies in 0x30000..0x3ffff |
| Constants.ClassifiersExclusive | include/quicly/constants.h:32-34 | no value is both transport and application, and each of the two implies IS_QUIC |
| Constants.IsQuicCases | include/quicly/constants.h:32-34 | IS_QUIC holds exactly for transport values, application values and values with the tag 0b01 |
| Constants.IsQuicStrictlyWeaker | include/quicly/constants.h:32-34 | some value (0x10000) is QUIC yet neither transport nor application |
| Constants.ClassifiersOnSmallAndNegative | include/quicly/constants.h:32-34 | values 0..0xffff are not QUIC; negative `int`s from -0x10000 to -1 read as application errors |
| Constants.TransportErrorNumber | include/quicly/constants.h:40-52 | the number each named transport code carries is a 16-bit value |
| Constants.TransportErrorValue | include/quicly/constants.h:40-52 | each named transport code is `QUICLY_ERROR_FROM_TRANSPORT_ERROR_CODE` of its number, that is 0x20000 plus the number |
| Constants.TransportErrorNameOf | include/quicly/constants.h:40-52 | a code number that has a name maps to that name, and the name's number is the code |
| Constants.TransportErrorNameOfNumber | include/quicly/constants.h:40-52 | every named code's number looks up to that name |
| Constants.TransportErrorValueEncodesNumber | include/quicly/constants.h:40-52 | each named transport code is the transport encoding of its 16-bit number, that is 0x20000 plus the number |
| Constants.TransportErrorClassified | include/quicly/constants.h:40-52 | every named transport code is classified transport, not application, and decodes to its number |
| Constants.TransportErrorsDistinct | include/quicly/constants.h:40-52 | two named transport codes are equal if and only if they have the same name |
| Constants.NamedTransportValues | include/quicly/constants.h:40-52 | NONE is 0x20000, INTERNAL 0x20001, PROTOCOL_VIOLATION 0x2000a, INVALID_MIGRATION 0x2000c, TLS_ALERT_BASE 0x20100 |
| Constants.InternalErrorsAreLocal | include/quicly/constants.h:55-57 | PACKET_IGNORED, SENDBUF_FULL and FREE_CONNECTION are pairwise distinct and fail IS_QUIC; none equals a transport or application encoding or a named transport code |
| ErrorKinds.Encode | include/quicly/constants.h:32-37 | a typed error encodes into 0x20000..0x3ffff; its namespace is the classifier that accepts it, and GET_ERROR_CODE returns its code |
| ErrorKinds.Decode | t/simple.c:397-398 | a value decodes exactly when it is transport or application; the code is GET_ERROR_CODE; re-encoding gives the value with the bits above 17 cleared |
| ErrorKinds.DecodeEncode | include/quicly/constants.h:32-37 | decoding an encoded typed error gives it back |
| ErrorKinds.EncodeDecode | include/quicly/constants.h:32-37 | every value in 0x20000..0x3ffff decodes, and re-encodes to itself |
| ErrorKinds.EncodeInjective | include/quicly/constants.h:36-37 | two typed errors have the same encoding if and only if they are equal |
| ErrorKinds.InternalErrorsDecodeToNone | include/quicly/constants.h:55-57 | the internal codes decode to no QUIC error |
| ErrorKinds.ApplicationCloseCodeRecovered | t/simple.c:397-430 | closing with application code 12345 gives a value that the peer's callback classifies as an application error with code 12345 |

## Left out

- `QUICLY_BUILD_ASSERT` (include/quicly/constants.h:59): a compile-time
  check built on a compiler builtin, with no run-time behaviour.
- `QUICLY_NUM_PACKETS_BEFORE_ACK` and `QUICLY_DELAYED_ACK_TIMEOUT`
  (include/quicly/constants.h:28-29): declared as constants only. The
  acknowledgement-scheduling rule that uses them is not part of this model.
- `quicly_stream_id_t` (include/quicly/constants.h:61): a bare typedef. The
  stream-id bit layout is not in the header.
- Coexistence with picotls error codes (the comment at
  include/quicly/constants.h:31): picotls is not part of this model, so no
  claim is made about its code range.
- The connection, stream, flow-control, loss-recovery and close-timeout logic
  that t/simple.c drives: those functions lie outside the header this model
  covers. The file serves only as the use of the error-code round trip
  at lines 397-398, 415 and 430.
- The macros here take a C `int` of exactly 32 bits. The header assumes an
  `int` of at least 32 bits. A wider `int` changes nothing for the codec,
  because the code uses bits 0-17 only, but the model does not cover it.
