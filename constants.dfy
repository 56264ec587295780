/** The error-code namespace encoding of quicly's constants header.

    One C `int` carries an error. Bits 16 and 17 hold a namespace tag and the
    low 16 bits hold the code proper:
      - tag 0b10 (0x20000): a QUIC transport error,
      - tag 0b11 (0x30000): a QUIC application error,
      - tag 0b00: not a QUIC error; the internal, local-only codes live here,
      - tag 0b01: produced by no encoder, yet IS_QUIC accepts it.
    The `int` is a mathematical integer restricted to the 32-bit range. The
    `(uint16_t)` cast is reduction modulo 2^16, as C defines conversion to an
    unsigned type, and the macros' `e & 0x30000` is written as the arithmetic
    on `e` it amounts to; both are proved equal to the bitwise AND of
    `Bits.BitAnd`.
 */
module Constants {
  import opened Bits

  const IntMin: int := -0x8000_0000
  const IntMax: int := 0x7fff_ffff

  /** A C `int`, assumed 32 bits wide as the header does. */
  type CInt = x: int | IntMin <= x <= IntMax

  /** A C `uint16_t`. */
  type Uint16 = x: int | 0 <= x < 0x10000

  // Acknowledgement scheduling constants; the rule that uses them is not
  // part of this model.
  const NumPacketsBeforeAck: nat := 2
  const DelayedAckTimeoutMillis: nat := 25

  /** The mask of the namespace tag, bits 16 and 17. */
  const NamespaceMask: nat := 0x30000
  const TransportTag: nat := 0x20000
  const ApplicationTag: nat := 0x30000

  /** The C cast `(uint16_t)(e)`: the value congruent to `e` modulo 2^16,
      which is the low 16 bits of its two's-complement form. */
  function ToUint16(e: int): (r: Uint16)
    ensures (e - r) % 0x10000 == 0
    ensures 0 <= e < 0x10000 ==> r == e
  {
    e % 0x10000
  }

  /** The cast keeps the low 16 bits: it is `e & 0xffff`. */
  lemma ToUint16IsLowMask(e: CInt)
    ensures ToUint16(e) == BitAnd(e, 0xffff)
  {
    Low16Mask(e);
  }

  /** The namespace tag of `e`, bits 16 and 17 read as a number 0..3. */
  function Tag(e: int): (t: int)
    ensures 0 <= t < 4
  {
    (e / 0x10000) % 4
  }

  /** `e & 0x30000`, the subexpression every classifier tests. */
  function NamespaceBits(e: CInt): (r: int)
    ensures r == 0 || r == 0x10000 || r == 0x20000 || r == 0x30000
  {
    Tag(e) * 0x10000
  }

  /** NamespaceBits is the bitwise AND with the namespace mask. */
  lemma NamespaceBitsIsMask(e: CInt)
    ensures NamespaceBits(e) == BitAnd(e, NamespaceMask)
  {
    Bits16To17Mask(e);
  }

  // ---------------------------------------------------------------------
  // Classifiers
  // ---------------------------------------------------------------------

  /** QUICLY_ERROR_IS_QUIC: some tag bit is set. */
  predicate IsQuic(e: CInt): (b: bool)
    ensures 0 <= e < 0x10000 ==> !b
  {
    NamespaceBits(e) != 0
  }

  /** QUICLY_ERROR_IS_QUIC_TRANSPORT: the tag is exactly 0b10. */
  predicate IsQuicTransport(e: CInt): (b: bool)
    ensures b ==> IsQuic(e)
  {
    NamespaceBits(e) == TransportTag
  }

  /** QUICLY_ERROR_IS_QUIC_APPLICATION: the tag is exactly 0b11. */
  predicate IsQuicApplication(e: CInt): (b: bool)
    ensures b ==> IsQuic(e) && !IsQuicTransport(e)
  {
    NamespaceBits(e) == ApplicationTag
  }

  /** The three classifiers are the header's mask tests on `e & 0x30000`. */
  lemma ClassifiersAreMaskTests(e: CInt)
    ensures IsQuic(e) <==> BitAnd(e, 0x30000) != 0
    ensures IsQuicTransport(e) <==> BitAnd(e, 0x30000) == 0x20000
    ensures IsQuicApplication(e) <==> BitAnd(e, 0x30000) == 0x30000
  {
    NamespaceBitsIsMask(e);
  }

  // ---------------------------------------------------------------------
  // Decoder and encoders
  // ---------------------------------------------------------------------

  /** QUICLY_ERROR_GET_ERROR_CODE: the 16-bit code, whatever the namespace. */
  function GetErrorCode(e: CInt): (r: Uint16)
    ensures (e - r) % 0x10000 == 0
  {
    ToUint16(e)
  }

  /** QUICLY_ERROR_FROM_TRANSPORT_ERROR_CODE: the code modulo 2^16, tagged
      as a transport error. */
  function FromTransportErrorCode(e: CInt): (r: CInt)
    ensures 0x20000 <= r <= 0x2ffff
    ensures (r - e) % 0x10000 == 0
  {
    ToUint16(e) + TransportTag
  }

  /** QUICLY_ERROR_FROM_APPLICATION_ERROR_CODE: the code modulo 2^16, tagged
      as an application error. */
  function FromApplicationErrorCode(e: CInt): (r: CInt)
    ensures 0x30000 <= r <= 0x3ffff
    ensures (r - e) % 0x10000 == 0
  {
    ToUint16(e) + ApplicationTag
  }

  // ---------------------------------------------------------------------
  // Properties of the codec
  // ---------------------------------------------------------------------

  /** A transport encoding is QUIC and transport, never application. */
  lemma TransportEncodingClassified(e: CInt)
    ensures IsQuic(FromTransportErrorCode(e))
    ensures IsQuicTransport(FromTransportErrorCode(e))
    ensures !IsQuicApplication(FromTransportErrorCode(e))
  {
  }

  /** An application encoding is QUIC and application, never transport. */
  lemma ApplicationEncodingClassified(e: CInt)
    ensures IsQuic(FromApplicationErrorCode(e))
    ensures IsQuicApplication(FromApplicationErrorCode(e))
    ensures !IsQuicTransport(FromApplicationErrorCode(e))
  {
  }

  /** Decoding a transport encoding gives back the code modulo 2^16. */
  lemma TransportRoundTrip(e: CInt)
    ensures GetErrorCode(FromTransportErrorCode(e)) == e % 0x10000
    ensures 0 <= e < 0x10000 ==> GetErrorCode(FromTransportErrorCode(e)) == e
  {
  }

  /** Decoding an application encoding gives back the code modulo 2^16. */
  lemma ApplicationRoundTrip(e: CInt)
    ensures GetErrorCode(FromApplicationErrorCode(e)) == e % 0x10000
    ensures 0 <= e < 0x10000 ==> GetErrorCode(FromApplicationErrorCode(e)) == e
  {
  }

  /** Only the code modulo 2^16 reaches an encoding. */
  lemma EncodersTruncate(e: CInt)
    ensures FromTransportErrorCode(e) == FromTransportErrorCode(e % 0x10000)
    ensures FromApplicationErrorCode(e) == FromApplicationErrorCode(e % 0x10000)
  {
  }

  /** Each encoder identifies exactly the codes that agree modulo 2^16, so it
      is injective on 16-bit codes. */
  lemma EncodersInjective(a: CInt, b: CInt)
    ensures FromTransportErrorCode(a) == FromTransportErrorCode(b) <==> a % 0x10000 == b % 0x10000
    ensures FromApplicationErrorCode(a) == FromApplicationErrorCode(b) <==> a % 0x10000 == b % 0x10000
  {
  }

  /** No value is both a transport and an application encoding. */
  lemma EncodingsDisjoint(a: CInt, b: CInt)
    ensures FromTransportErrorCode(a) != FromApplicationErrorCode(b)
  {
  }

  /** The transport encodings are exactly the values 0x20000..0x2ffff. */
  lemma TransportImage(r: CInt)
    ensures (exists c: CInt :: FromTransportErrorCode(c) == r) <==> 0x20000 <= r <= 0x2ffff
  {
    if 0x20000 <= r <= 0x2ffff {
      assert FromTransportErrorCode(r) == r;
    }
  }

  /** The application encodings are exactly the values 0x30000..0x3ffff. */
  lemma ApplicationImage(r: CInt)
    ensures (exists c: CInt :: FromApplicationErrorCode(c) == r) <==> 0x30000 <= r <= 0x3ffff
  {
    if 0x30000 <= r <= 0x3ffff {
      assert FromApplicationErrorCode(r) == r;
    }
  }

  /** The transport and application classifiers never both accept a value,
      and each implies IS_QUIC. */
  lemma ClassifiersExclusive(e: CInt)
    ensures !(IsQuicTransport(e) && IsQuicApplication(e))
    ensures IsQuicTransport(e) ==> IsQuic(e)
    ensures IsQuicApplication(e) ==> IsQuic(e)
  {
  }

  /** A QUIC value is transport, application, or carries the tag 0b01 that
      no encoder produces. */
  lemma IsQuicCases(e: CInt)
    ensures IsQuic(e) <==> IsQuicTransport(e) || IsQuicApplication(e) || Tag(e) == 1
  {
  }

  /** IS_QUIC is strictly weaker than "transport or application": 0x10000,
      with tag 0b01, is QUIC yet in neither namespace. */
  lemma IsQuicStrictlyWeaker()
    ensures exists e: CInt :: IsQuic(e) && !IsQuicTransport(e) && !IsQuicApplication(e)
  {
    var w: CInt := 0x10000;
    assert IsQuic(w) && !IsQuicTransport(w) && !IsQuicApplication(w);
  }

  /** A value in 0..0xffff carries no tag. A negative `int` in -0x10000..-1
      has both tag bits set in two's complement, so it reads as an
      application error. */
  lemma ClassifiersOnSmallAndNegative(e: CInt)
    ensures 0 <= e <= 0xffff ==> !IsQuic(e)
    ensures -0x10000 <= e < 0 ==> IsQuicApplication(e)
  {
  }

  // ---------------------------------------------------------------------
  // Named codes
  // ---------------------------------------------------------------------

  // Transport error codes, numbered as in the IETF QUIC transport drafts the
  // header follows (several differ from the final RFC 9000 table).
  const ErrorNone: CInt := FromTransportErrorCode(0x0)
  const ErrorInternal: CInt := FromTransportErrorCode(0x1)
  const ErrorServerBusy: CInt := FromTransportErrorCode(0x2)
  const ErrorFlowControl: CInt := FromTransportErrorCode(0x3)
  const ErrorStreamId: CInt := FromTransportErrorCode(0x4)
  const ErrorStreamState: CInt := FromTransportErrorCode(0x5)
  const ErrorFinalOffset: CInt := FromTransportErrorCode(0x6)
  const ErrorFrameEncoding: CInt := FromTransportErrorCode(0x7)
  const ErrorTransportParameter: CInt := FromTransportErrorCode(0x8)
  const ErrorVersionNegotiation: CInt := FromTransportErrorCode(0x9)
  const ErrorProtocolViolation: CInt := FromTransportErrorCode(0xa)
  const ErrorInvalidMigration: CInt := FromTransportErrorCode(0xc)
  const ErrorTlsAlertBase: CInt := FromTransportErrorCode(0x100)

  /** The names of the transport error codes the header defines. */
  datatype TransportErrorName =
    | NoError | Internal | ServerBusy | FlowControl | StreamId | StreamState
    | FinalOffset | FrameEncoding | TransportParameter | VersionNegotiation
    | ProtocolViolation | InvalidMigration | TlsAlertBase

  /** The number the header passes to the transport encoder for each name. */
  function TransportErrorNumber(n: TransportErrorName): (r: CInt)
    ensures 0 <= r < 0x10000
  {
    match n
    case NoError => 0x0
    case Internal => 0x1
    case ServerBusy => 0x2
    case FlowControl => 0x3
    case StreamId => 0x4
    case StreamState => 0x5
    case FinalOffset => 0x6
    case FrameEncoding => 0x7
    case TransportParameter => 0x8
    case VersionNegotiation => 0x9
    case ProtocolViolation => 0xa
    case InvalidMigration => 0xc
    case TlsAlertBase => 0x100
  }

  /** The error value the header defines for each name. */
  function TransportErrorValue(n: TransportErrorName): (r: CInt)
    ensures r == FromTransportErrorCode(TransportErrorNumber(n))
    ensures r == 0x20000 + TransportErrorNumber(n)
  {
    match n
    case NoError => ErrorNone
    case Internal => ErrorInternal
    case ServerBusy => ErrorServerBusy
    case FlowControl => ErrorFlowControl
    case StreamId => ErrorStreamId
    case StreamState => ErrorStreamState
    case FinalOffset => ErrorFinalOffset
    case FrameEncoding => ErrorFrameEncoding
    case TransportParameter => ErrorTransportParameter
    case VersionNegotiation => ErrorVersionNegotiation
    case ProtocolViolation => ErrorProtocolViolation
    case InvalidMigration => ErrorInvalidMigration
    case TlsAlertBase => ErrorTlsAlertBase
  }

  datatype Option<T> = None | Some(value: T)

  /** The name the header gives a transport code number, if any. */
  function TransportErrorNameOf(code: int): (r: Option<TransportErrorName>)
    ensures r.Some? ==> TransportErrorNumber(r.value) == code
  {
    match code
    case 0x0 => Some(NoError)
    case 0x1 => Some(Internal)
    case 0x2 => Some(ServerBusy)
    case 0x3 => Some(FlowControl)
    case 0x4 => Some(StreamId)
    case 0x5 => Some(StreamState)
    case 0x6 => Some(FinalOffset)
    case 0x7 => Some(FrameEncoding)
    case 0x8 => Some(TransportParameter)
    case 0x9 => Some(VersionNegotiation)
    case 0xa => Some(ProtocolViolation)
    case 0xc => Some(InvalidMigration)
    case 0x100 => Some(TlsAlertBase)
    case _ => None
  }

  /** Looking up the number of a name gives the name back. */
  lemma TransportErrorNameOfNumber(n: TransportErrorName)
    ensures TransportErrorNameOf(TransportErrorNumber(n)) == Some(n)
  {
  }

  /** Every named transport code is the transport encoding of its 16-bit
      number, so it is 0x20000 plus that number. */
  lemma TransportErrorValueEncodesNumber(n: TransportErrorName)
    ensures 0 <= TransportErrorNumber(n) < 0x10000
    ensures TransportErrorValue(n) == FromTransportErrorCode(TransportErrorNumber(n))
    ensures TransportErrorValue(n) == 0x20000 + TransportErrorNumber(n)
  {
  }

  /** Every named transport code is classified transport and decodes to the
      number the header gives it. */
  lemma TransportErrorClassified(n: TransportErrorName)
    ensures IsQuicTransport(TransportErrorValue(n)) && !IsQuicApplication(TransportErrorValue(n))
    ensures GetErrorCode(TransportErrorValue(n)) == TransportErrorNumber(n)
  {
    TransportErrorValueEncodesNumber(n);
    TransportEncodingClassified(TransportErrorNumber(n));
    TransportRoundTrip(TransportErrorNumber(n));
  }

  /** The named transport codes are pairwise distinct. */
  lemma TransportErrorsDistinct(a: TransportErrorName, b: TransportErrorName)
    ensures TransportErrorValue(a) == TransportErrorValue(b) <==> a == b
  {
    TransportErrorValueEncodesNumber(a);
    TransportErrorValueEncodesNumber(b);
    TransportErrorNameOfNumber(a);
    TransportErrorNameOfNumber(b);
  }

  /** The first and last named transport codes have the values the header
      gives them. */
  lemma NamedTransportValues()
    ensures ErrorNone == 0x20000
    ensures ErrorInternal == 0x20001
    ensures ErrorProtocolViolation == 0x2000a
    ensures ErrorInvalidMigration == 0x2000c
    ensures ErrorTlsAlertBase == 0x20100
  {
  }

  // Internal errors: local only, never tagged as QUIC.
  const ErrorPacketIgnored: CInt := 0xff01
  /** Never exposed to the application. */
  const ErrorSendbufFull: CInt := 0xff02
  /** Returned by the send entry point once the connection may be freed. */
  const ErrorFreeConnection: CInt := 0xff03

  const InternalErrors: seq<CInt> := [ErrorPacketIgnored, ErrorSendbufFull, ErrorFreeConnection]

  /** The internal codes are pairwise distinct, are not QUIC errors, and no
      transport or application encoding, named or not, equals one of them. */
  lemma InternalErrorsAreLocal(c: CInt, n: TransportErrorName)
    ensures forall i, j | 0 <= i < j < |InternalErrors| :: InternalErrors[i] != InternalErrors[j]
    ensures forall i | 0 <= i < |InternalErrors| :: !IsQuic(InternalErrors[i])
    ensures forall i | 0 <= i < |InternalErrors| ::
      InternalErrors[i] != FromTransportErrorCode(c) && InternalErrors[i] != FromApplicationErrorCode(c)
    ensures forall i | 0 <= i < |InternalErrors| :: InternalErrors[i] != TransportErrorValue(n)
  {
    forall i | 0 <= i < |InternalErrors|
      ensures !IsQuic(InternalErrors[i])
    {
      ClassifiersOnSmallAndNegative(InternalErrors[i]);
    }
    TransportErrorValueEncodesNumber(n);
  }
}
