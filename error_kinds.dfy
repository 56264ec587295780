/** The typed reading of an error value that callers make with the header's
    classifiers and decoder: a transport or an application error with its
    16-bit code, or no QUIC error at all. */
module ErrorKinds {
  import opened Constants

  datatype QuicError = Transport(code: Uint16) | Application(code: Uint16)

  /** The bit-packed value of a typed error, built with the header's encoders. */
  function Encode(k: QuicError): (r: CInt)
    ensures 0x20000 <= r <= 0x3ffff
    ensures GetErrorCode(r) == k.code
    ensures k.Transport? <==> IsQuicTransport(r)
    ensures k.Application? <==> IsQuicApplication(r)
  {
    match k
    case Transport(c) =>
      TransportEncodingClassified(c);
      FromTransportErrorCode(c)
    case Application(c) =>
      ApplicationEncodingClassified(c);
      FromApplicationErrorCode(c)
  }

  /** Classify a value and take its code, as the close callback of the test
      suite does for an application error. */
  function Decode(e: CInt): (r: Option<QuicError>)
    ensures r.Some? <==> IsQuicTransport(e) || IsQuicApplication(e)
    ensures r.Some? ==> r.value.code == GetErrorCode(e)
    ensures r.Some? ==> Encode(r.value) == e % 0x40000
  {
    ClassifiersExclusive(e);
    if IsQuicTransport(e) then Some(Transport(GetErrorCode(e)))
    else if IsQuicApplication(e) then Some(Application(GetErrorCode(e)))
    else None
  }

  /** Decoding undoes encoding for every typed error. */
  lemma DecodeEncode(k: QuicError)
    ensures Decode(Encode(k)) == Some(k)
  {
  }

  /** Encoding undoes decoding on every value an encoder can produce. */
  lemma EncodeDecode(e: CInt)
    requires 0x20000 <= e <= 0x3ffff
    ensures Decode(e).Some? && Encode(Decode(e).value) == e
  {
  }

  /** Distinct typed errors have distinct values. */
  lemma EncodeInjective(a: QuicError, b: QuicError)
    ensures Encode(a) == Encode(b) <==> a == b
  {
    if Encode(a) == Encode(b) {
      DecodeEncode(a);
      DecodeEncode(b);
    }
  }

  /** No internal code reads as a QUIC error. */
  lemma InternalErrorsDecodeToNone()
    ensures forall i | 0 <= i < |InternalErrors| :: Decode(InternalErrors[i]) == None
  {
    forall i | 0 <= i < |InternalErrors|
      ensures Decode(InternalErrors[i]) == None
    {
      ClassifiersOnSmallAndNegative(InternalErrors[i]);
    }
  }

  /** The scenario of the close test: closing with application code 12345
      lets the peer's callback see an application error carrying 12345. */
  lemma ApplicationCloseCodeRecovered()
    ensures IsQuicApplication(FromApplicationErrorCode(12345))
    ensures GetErrorCode(FromApplicationErrorCode(12345)) == 12345
    ensures Decode(FromApplicationErrorCode(12345)) == Some(Application(12345))
  {
    ApplicationEncodingClassified(12345);
  }
}
