/** The signed-events gate, WebhookParser.ParseSignedEventsWebhook: argument and
    header checks, key and signature conversion, the signed message, and the
    ECDSA decision that either raises or hands the unmodified body on to the
    event parser. */
module SignedEvents {
  import opened Wrappers
  import opened Utils
  import Utf8

  const SignatureHeader := "X-Twilio-Email-Event-Webhook-Signature"
  const TimestampHeader := "X-Twilio-Email-Event-Webhook-Timestamp"
  const SignatureMissing := "The Twilio signature is missing from the request headers"
  const TimestampMissing := "The Twilio timestamp is missing from the request headers"
  const ValidationFailed := "Webhook signature validation failed."

  /** The exceptions the gate can raise. */
  datatype WebhookError =
    | ArgumentNull(paramName: string)   // ArgumentNullException
    | Argument(message: string)         // ArgumentException
    | Format                            // FormatException of Convert.FromBase64String
    | SignatureConversion               // the X9.62-to-ISO 7816-8 converter rejected the signature
    | InvalidOperation                  // wrong key length or prefix, raised in Utils
    | Security(message: string)         // SecurityException: the signature does not verify

  /** The collaborators whose code is not part of this model:
      Convert.FromBase64String (`None` for malformed input),
      ConvertECDSASignature.LightweightConvertSignatureFromX9_62ToISO7816_8 with
      key size 256, and CngKey.Import followed by ECDsaCng.VerifyData, which
      decides whether a signature over some data verifies under a CNG blob. */
  datatype Crypto = Crypto(
    fromBase64: string -> Option<seq<byte>>,
    convertSignature: seq<byte> -> Option<seq<byte>>,
    verifyData: (seq<byte>, seq<byte>, seq<byte>) -> bool)

  /** IDictionary.TryGetValue: the value stored under `name`, or null. */
  function HeaderValue(headers: map<string, string>, name: string): Option<string>
  {
    if name in headers then Some(headers[name]) else None
  }

  /** The signed message: the UTF-8 bytes of the timestamp concatenated with the
      request body. */
  function SignedData(timestamp: string, requestBody: string): seq<byte>
  {
    Utf8.Encode(timestamp + requestBody)
  }

  /** What the verifier is called with: the CNG key blob, the signed data and the
      r || s signature. */
  datatype Verification = Verification(cngBlob: seq<byte>, data: seq<byte>, signature: seq<byte>)

  /** The guarded steps before the verifier runs, in source order: the first
      failing step decides the exception. */
  function Prepare(requestBody: string, headers: Option<map<string, string>>, publicKey: Option<string>, crypto: Crypto)
    : Result<Verification, WebhookError>
  {
    if headers.None? then Failure(ArgumentNull("headers"))
    else if IsNullOrEmpty(publicKey) then Failure(ArgumentNull("publicKey"))
    else
      var signature := HeaderValue(headers.value, SignatureHeader);
      var timestamp := HeaderValue(headers.value, TimestampHeader);
      if IsNullOrEmpty(signature) then Failure(Argument(SignatureMissing))
      else if IsNullOrEmpty(timestamp) then Failure(Argument(TimestampMissing))
      else
        match crypto.fromBase64(signature.value)
        case None => Failure(Format)
        case Some(der) =>
          match crypto.convertSignature(der)
          case None => Failure(SignatureConversion)
          case Some(sig) =>
            match crypto.fromBase64(publicKey.value)
            case None => Failure(Format)
            case Some(spki) =>
              match EccPublicBlob(spki)
              case None => Failure(InvalidOperation)
              case Some(blob) => Success(Verification(blob, SignedData(timestamp.value, requestBody), sig))
  }

  /** The checks fail in this order: null headers, then a null or empty public
      key, then a missing or empty signature header, then a missing or empty
      timestamp header (an empty timestamp is rejected). */
  lemma CheckOrder(requestBody: string, headers: Option<map<string, string>>, publicKey: Option<string>, crypto: Crypto)
    ensures headers.None? ==> Prepare(requestBody, headers, publicKey, crypto) == Failure(ArgumentNull("headers"))
    ensures headers.Some? && IsNullOrEmpty(publicKey) ==>
      Prepare(requestBody, headers, publicKey, crypto) == Failure(ArgumentNull("publicKey"))
    ensures headers.Some? && !IsNullOrEmpty(publicKey) && IsNullOrEmpty(HeaderValue(headers.value, SignatureHeader)) ==>
      Prepare(requestBody, headers, publicKey, crypto) == Failure(Argument(SignatureMissing))
    ensures (headers.Some? && !IsNullOrEmpty(publicKey) && !IsNullOrEmpty(HeaderValue(headers.value, SignatureHeader))
             && IsNullOrEmpty(HeaderValue(headers.value, TimestampHeader))) ==>
      Prepare(requestBody, headers, publicKey, crypto) == Failure(Argument(TimestampMissing))
    ensures Prepare(requestBody, headers, publicKey, crypto).Failure? ==>
      !Prepare(requestBody, headers, publicKey, crypto).error.Security?
  {
  }

  /** When every step succeeds, the verifier gets the UTF-8 timestamp bytes
      immediately followed by the UTF-8 body bytes (no separator), a well-formed
      CNG blob carrying exactly the point of the decoded key, and the converted
      signature; and every step does succeed when its input is well formed. */
  lemma PreparedVerification(requestBody: string, headers: map<string, string>, publicKey: string, crypto: Crypto)
    requires publicKey != ""
    requires !IsNullOrEmpty(HeaderValue(headers, SignatureHeader)) && !IsNullOrEmpty(HeaderValue(headers, TimestampHeader))
    requires crypto.fromBase64(headers[SignatureHeader]).Some?
    requires crypto.convertSignature(crypto.fromBase64(headers[SignatureHeader]).value).Some?
    requires crypto.fromBase64(publicKey).Some?
    ensures var spki := crypto.fromBase64(publicKey).value;
      var p := Prepare(requestBody, Some(headers), Some(publicKey), crypto);
      (p.Success? <==> EccPublicBlob(spki).Some?) &&
      (p.Success? ==>
        && p.value.data == Utf8.Encode(headers[TimestampHeader]) + Utf8.Encode(requestBody)
        && IsEccPublicBlob(p.value.cngBlob)
        && SpkiOfBlob(p.value.cngBlob) == spki
        && p.value.signature == crypto.convertSignature(crypto.fromBase64(headers[SignatureHeader]).value).value)
  {
    var spki := crypto.fromBase64(publicKey).value;
    Utf8.EncodeAppend(headers[TimestampHeader], requestBody);
    if EccPublicBlob(spki).Some? {
      BlobLayout(spki);
      BlobRoundTrip(spki);
    }
  }

  /** WebhookParser.ParseSignedEventsWebhook. `parseEvents` is
      ParseEventsWebhook (the JSON event parser), whose result is returned as it
      is. A verification failure raises SecurityException and returns no events;
      a verification success returns exactly what the event parser makes of the
      same, unmodified body. */
  method ParseSignedEventsWebhook<T>(requestBody: string, headers: Option<map<string, string>>, publicKey: Option<string>,
                                     crypto: Crypto, parseEvents: string -> T)
    returns (r: Result<T, WebhookError>)
    ensures var p := Prepare(requestBody, headers, publicKey, crypto);
      p.Failure? ==> r == Failure(p.error)
    ensures var p := Prepare(requestBody, headers, publicKey, crypto);
      p.Success? ==>
        r == if crypto.verifyData(p.value.cngBlob, p.value.data, p.value.signature)
             then Success(parseEvents(requestBody))
             else Failure(Security(ValidationFailed))
  {
    if headers.None? {
      return Failure(ArgumentNull("headers"));
    }
    if IsNullOrEmpty(publicKey) {
      return Failure(ArgumentNull("publicKey"));
    }
    var signature := HeaderValue(headers.value, SignatureHeader);
    var timestamp := HeaderValue(headers.value, TimestampHeader);
    if IsNullOrEmpty(signature) {
      return Failure(Argument(SignatureMissing));
    }
    if IsNullOrEmpty(timestamp) {
      return Failure(Argument(TimestampMissing));
    }

    // Convert the signature and the public key into the formats the verifier uses.
    var der := crypto.fromBase64(signature.value);
    if der.None? {
      return Failure(Format);
    }
    var sig := crypto.convertSignature(der.value);
    if sig.None? {
      return Failure(SignatureConversion);
    }
    var spki := crypto.fromBase64(publicKey.value);
    if spki.None? {
      return Failure(Format);
    }
    var spkiBytes := new byte[|spki.value|](i requires 0 <= i < |spki.value| => spki.value[i]);
    assert spkiBytes[..] == spki.value;
    var cngBlob := ConvertSecp256R1PublicKeyToEccPublicBlob(spkiBytes);
    if cngBlob.None? {
      return Failure(InvalidOperation);
    }

    // The timestamp and the payload are signed together.
    var data := Utf8.Encode(timestamp.value + requestBody);

    var verified := crypto.verifyData(cngBlob.value[..], data, sig.value);
    if !verified {
      return Failure(Security(ValidationFailed));
    }
    r := Success(parseEvents(requestBody));
  }
}
