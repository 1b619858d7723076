/** The inbound-email webhook (WebhookParser.cs, ParseInboundEmailWebhook and
    ParseInboundEmail): one UTF-8 parse of the multipart body, the `charsets`
    table, one more parse per other declared encoding, and the InboundEmail
    assembled from those parsers. */
module InboundEmailParser {
  import opened Wrappers
  import opened Utils
  import opened Charsets
  import opened Headers
  import opened Multipart
  import opened Attachments

  /** What MailAddressParser makes of an address. */
  datatype MailAddress = MailAddress(name: string, email: string)

  /** InboundEmailEnvelope, as JSON deserialisation gives it. */
  datatype Envelope = Envelope(from: Option<string>, to: seq<string>)

  /** The exceptions the parse raises. */
  datatype InboundError =
    | MalformedJson(parameterName: string)  // JObject.Parse / JsonConvert on a parameter's text
    | UnknownEncoding(name: string)         // Encoding.GetEncoding on a `charsets` value
    | HeaderLineWithoutName                 // splitHeader[0] on a line that splits into nothing

  /** The libraries the parse calls into, whose code is not part of this model:
      the multipart parser (one parse of some bytes with one encoding), the JSON
      readers of `charsets`, `attachment-info` and `envelope` (None when the
      text is not valid JSON), Encoding.GetEncoding (None when the name is
      unknown) and MailAddressParser. */
  datatype Decoders = Decoders(
    multipart: (Encoding, seq<byte>) -> FormData,
    charsetProperties: string -> Option<seq<(string, string)>>,
    getEncoding: string -> Option<Encoding>,
    attachmentInfo: string -> Option<seq<(string, AttachmentInfo)>>,
    envelope: string -> Option<Envelope>,
    parseEmailAddress: string -> Option<MailAddress>,
    parseEmailAddresses: string -> seq<MailAddress>)

  /** InboundEmail; `A` is the attachment: the objects the method builds, or
      their values in the specification. */
  datatype InboundEmail<A> = InboundEmail(
    attachments: seq<A>,
    charsets: seq<Charset>,
    dkim: Option<string>,
    envelope: Envelope,
    from: Option<MailAddress>,
    headers: seq<Header>,
    html: Option<string>,
    senderIp: Option<string>,
    spamReport: Option<string>,
    spamScore: Option<string>,
    spf: Option<string>,
    subject: Option<string>,
    text: Option<string>,
    to: seq<MailAddress>,
    cc: seq<MailAddress>,
    rawEmail: string)

  /** The email with its attachment objects read out. */
  function Snapshot(email: InboundEmail<InboundEmailAttachment>): InboundEmail<Attachment>
    reads email.attachments
  {
    InboundEmail(Values(email.attachments), email.charsets, email.dkim, email.envelope, email.from,
                 email.headers, email.html, email.senderIp, email.spamReport, email.spamScore, email.spf,
                 email.subject, email.text, email.to, email.cc, email.rawEmail)
  }

  /** GetParameterValue with a non-null default. */
  function ParameterOr(parser: FormData, name: string, defaultValue: string): (v: string)
    ensures v == if name in parser.parameters then parser.parameters[name] else defaultValue
  {
    GetParameterValue(parser, name, Some(defaultValue)).value
  }

  /** The table holds the UTF-8 parser and a parser for every declared encoding. */
  predicate CoversCharsets(table: map<Encoding, FormData>, charsets: seq<Charset>)
  {
    UTF8 in table && forall i :: 0 <= i < |charsets| ==> charsets[i].1 in table
  }

  /** GetEncodedParser: the parser of the parameter's encoding. Failure(e) is
      the KeyNotFoundException of `encodedParsers[e]`; a table that covers the
      charsets never raises it. */
  function GetEncodedParser(parameterName: string, charsets: seq<Charset>, table: map<Encoding, FormData>)
    : (p: Result<FormData, Encoding>)
    ensures CoversCharsets(table, charsets) ==> p.Success?
    ensures p.Success? ==> exists e :: e in table && p.value == table[e]
                                      && (e == UTF8 || exists i :: 0 <= i < |charsets| && charsets[i] == (parameterName, e))
    ensures p.Failure? ==> p.error !in table
  {
    var encoding := GetEncoding(parameterName, charsets);
    if encoding in table then Success(table[encoding]) else Failure(encoding)
  }

  /** GetEncodedValue: the parameter read from its encoding's parser. */
  function GetEncodedValue(parameterName: string, charsets: seq<Charset>, table: map<Encoding, FormData>,
                           defaultValue: Option<string>): (v: Result<Option<string>, Encoding>)
    ensures CoversCharsets(table, charsets) ==> v.Success?
    ensures v.Success? && defaultValue.Some? ==> v.value.Some?
  {
    match GetEncodedParser(parameterName, charsets, table)
    case Failure(e) => Failure(e)
    case Success(parser) => Success(GetParameterValue(parser, parameterName, defaultValue))
  }

  /** A parameter with a charsets entry is read from the parser of the
      encoding of its first entry. */
  lemma EncodedValueDeclared(parameterName: string, charsets: seq<Charset>, table: map<Encoding, FormData>,
                             defaultValue: Option<string>, i: nat)
    requires CoversCharsets(table, charsets)
    requires i < |charsets| && charsets[i].0 == parameterName
    requires forall j :: 0 <= j < i ==> charsets[j].0 != parameterName
    ensures GetEncodedValue(parameterName, charsets, table, defaultValue)
            == Success(GetParameterValue(table[charsets[i].1], parameterName, defaultValue))
  {
    GetEncodingFirstMatch(parameterName, charsets, i);
  }

  /** A parameter without one is read from the UTF-8 parser. */
  lemma EncodedValueUndeclared(parameterName: string, charsets: seq<Charset>, table: map<Encoding, FormData>,
                               defaultValue: Option<string>)
    requires UTF8 in table
    requires forall j :: 0 <= j < |charsets| ==> charsets[j].0 != parameterName
    ensures GetEncodedValue(parameterName, charsets, table, defaultValue)
            == Success(GetParameterValue(table[UTF8], parameterName, defaultValue))
  {
    GetEncodingDefault(parameterName, charsets);
  }

  /** The parser a parameter is read from, in a covering table. */
  function FieldParser(parameterName: string, charsets: seq<Charset>, table: map<Encoding, FormData>): FormData
    requires CoversCharsets(table, charsets)
  {
    table[GetEncoding(parameterName, charsets)]
  }

  /** On a covering table, GetEncodedValue is the lookup through GetEncoding. */
  lemma EncodedIsLookup(parameterName: string, charsets: seq<Charset>, table: map<Encoding, FormData>,
                        defaultValue: Option<string>)
    requires CoversCharsets(table, charsets)
    ensures GetEncoding(parameterName, charsets) in table
    ensures GetEncodedValue(parameterName, charsets, table, defaultValue)
            == Success(GetParameterValue(table[GetEncoding(parameterName, charsets)], parameterName, defaultValue))
  {
  }

  /** A parameter read with GetEncodedValue from a covering table. */
  function Encoded(parameterName: string, charsets: seq<Charset>, table: map<Encoding, FormData>,
                   defaultValue: Option<string>): Option<string>
    requires CoversCharsets(table, charsets)
  {
    GetEncodedValue(parameterName, charsets, table, defaultValue).value
  }

  /** An address parameter, read with the empty string as default. */
  function EncodedOrEmpty(parameterName: string, charsets: seq<Charset>, table: map<Encoding, FormData>): string
    requires CoversCharsets(table, charsets)
  {
    GetEncodedValue(parameterName, charsets, table, Some("")).value.value
  }

  /** The object initializer of ParseInboundEmail: the email made of the
      UTF-8 parts already read and of the encoded fields. */
  function Assemble(table: map<Encoding, FormData>, charsets: seq<Charset>, d: Decoders,
                    headers: seq<Header>, info: seq<(string, AttachmentInfo)>, envelope: Envelope)
    : InboundEmail<Attachment>
    requires CoversCharsets(table, charsets)
  {
    var parser := table[UTF8];
    InboundEmail(
      Correlated(info, parser.files),
      charsets,
      Encoded("dkim", charsets, table, None),
      envelope,
      d.parseEmailAddress(EncodedOrEmpty("from", charsets, table)),
      headers,
      Encoded("html", charsets, table, None),
      Encoded("sender_ip", charsets, table, None),
      Encoded("spam_report", charsets, table, None),
      Encoded("spam_score", charsets, table, None),
      Encoded("SPF", charsets, table, None),
      Encoded("subject", charsets, table, None),
      Encoded("text", charsets, table, None),
      d.parseEmailAddresses(EncodedOrEmpty("to", charsets, table)),
      d.parseEmailAddresses(EncodedOrEmpty("cc", charsets, table)),
      ParameterOr(parser, "email", ""))
  }

  /** ParseInboundEmail on values: headers, raw email, attachments and envelope
      from the UTF-8 parser, then the remaining fields through their encodings. */
  function Decode(table: map<Encoding, FormData>, charsets: seq<Charset>, d: Decoders)
    : Result<InboundEmail<Attachment>, InboundError>
    requires CoversCharsets(table, charsets)
  {
    var parser := table[UTF8];
    match ParseHeaders(ParameterOr(parser, "headers", ""))
    case None => Failure(HeaderLineWithoutName)
    case Some(headers) =>
      match d.attachmentInfo(ParameterOr(parser, "attachment-info", "{}"))
      case None => Failure(MalformedJson("attachment-info"))
      case Some(info) =>
        match d.envelope(ParameterOr(parser, "envelope", "{}"))
        case None => Failure(MalformedJson("envelope"))
        case Some(envelope) => Success(Assemble(table, charsets, d, headers, info, envelope))
  }

  /** The three failures, in the order the parse meets them; nothing else
      fails. */
  lemma DecodeErrors(table: map<Encoding, FormData>, charsets: seq<Charset>, d: Decoders)
    requires CoversCharsets(table, charsets)
    ensures var parser := table[UTF8];
      var headers := ParseHeaders(ParameterOr(parser, "headers", ""));
      var info := d.attachmentInfo(ParameterOr(parser, "attachment-info", "{}"));
      var envelope := d.envelope(ParameterOr(parser, "envelope", "{}"));
      var r := Decode(table, charsets, d);
      && (headers.None? ==> r == Failure(HeaderLineWithoutName))
      && (headers.Some? && info.None? ==> r == Failure(MalformedJson("attachment-info")))
      && (headers.Some? && info.Some? && envelope.None? ==> r == Failure(MalformedJson("envelope")))
      && (r.Success? <==> headers.Some? && info.Some? && envelope.Some?)
  {
  }

  /** Headers, raw email, attachments and envelope depend on the UTF-8 parser
      alone: the charsets and the other parsers do not change them. */
  lemma Utf8PartsIgnoreCharsets(t1: map<Encoding, FormData>, c1: seq<Charset>,
                                t2: map<Encoding, FormData>, c2: seq<Charset>, d: Decoders)
    requires CoversCharsets(t1, c1) && CoversCharsets(t2, c2)
    requires t1[UTF8] == t2[UTF8]
    ensures Decode(t1, c1, d).Success? <==> Decode(t2, c2, d).Success?
    ensures Decode(t1, c1, d).Failure? ==> Decode(t1, c1, d) == Decode(t2, c2, d)
    ensures Decode(t1, c1, d).Success? ==>
      var e1 := Decode(t1, c1, d).value;
      var e2 := Decode(t2, c2, d).value;
      e1.headers == e2.headers && e1.rawEmail == e2.rawEmail
      && e1.attachments == e2.attachments && e1.envelope == e2.envelope
  {
  }

  /** Every field is read from the parser of its encoding, with its default:
      the empty string for the addresses, null for the rest. */
  lemma DecodeFields(table: map<Encoding, FormData>, charsets: seq<Charset>, d: Decoders)
    requires CoversCharsets(table, charsets)
    ensures Decode(table, charsets, d).Success? ==>
      var e := Decode(table, charsets, d).value;
      && e.charsets == charsets
      && e.from == d.parseEmailAddress(ParameterOr(FieldParser("from", charsets, table), "from", ""))
      && e.to == d.parseEmailAddresses(ParameterOr(FieldParser("to", charsets, table), "to", ""))
      && e.cc == d.parseEmailAddresses(ParameterOr(FieldParser("cc", charsets, table), "cc", ""))
      && e.dkim == GetParameterValue(FieldParser("dkim", charsets, table), "dkim", None)
      && e.html == GetParameterValue(FieldParser("html", charsets, table), "html", None)
      && e.senderIp == GetParameterValue(FieldParser("sender_ip", charsets, table), "sender_ip", None)
      && e.spamReport == GetParameterValue(FieldParser("spam_report", charsets, table), "spam_report", None)
      && e.spamScore == GetParameterValue(FieldParser("spam_score", charsets, table), "spam_score", None)
      && e.spf == GetParameterValue(FieldParser("SPF", charsets, table), "SPF", None)
      && e.subject == GetParameterValue(FieldParser("subject", charsets, table), "subject", None)
      && e.text == GetParameterValue(FieldParser("text", charsets, table), "text", None)
  {
    var parser := table[UTF8];
    var headers := ParseHeaders(ParameterOr(parser, "headers", ""));
    var info := d.attachmentInfo(ParameterOr(parser, "attachment-info", "{}"));
    var envelope := d.envelope(ParameterOr(parser, "envelope", "{}"));
    if headers.Some? && info.Some? && envelope.Some? {
      var e := Decode(table, charsets, d).value;
      assert e == Assemble(table, charsets, d, headers.value, info.value, envelope.value);
      EncodedIsLookup("from", charsets, table, Some(""));
      EncodedIsLookup("to", charsets, table, Some(""));
      EncodedIsLookup("cc", charsets, table, Some(""));
      EncodedIsLookup("dkim", charsets, table, None);
      EncodedIsLookup("html", charsets, table, None);
      EncodedIsLookup("sender_ip", charsets, table, None);
      EncodedIsLookup("spam_report", charsets, table, None);
      EncodedIsLookup("spam_score", charsets, table, None);
      EncodedIsLookup("SPF", charsets, table, None);
      EncodedIsLookup("subject", charsets, table, None);
      EncodedIsLookup("text", charsets, table, None);
    }
  }

  /** The attachments: one per `attachment-info` property, in order, each
      correlated with the UTF-8 parser's files. */
  lemma DecodeAttachments(table: map<Encoding, FormData>, charsets: seq<Charset>, d: Decoders)
    requires CoversCharsets(table, charsets)
    ensures Decode(table, charsets, d).Success? ==>
      var parser := table[UTF8];
      var info := d.attachmentInfo(ParameterOr(parser, "attachment-info", "{}"));
      var e := Decode(table, charsets, d).value;
      && info.Some?
      && |e.attachments| == |info.value|
      && forall i :: 0 <= i < |info.value| ==>
           e.attachments[i] == Correlate(info.value[i].0, info.value[i].1, parser.files)
  {
  }

  /** ParseInboundEmail, building the attachment objects. */
  method ParseInboundEmail(table: map<Encoding, FormData>, charsets: seq<Charset>, d: Decoders)
    returns (r: Result<InboundEmail<InboundEmailAttachment>, InboundError>)
    requires CoversCharsets(table, charsets)
    ensures r.Failure? <==> Decode(table, charsets, d).Failure?
    ensures r.Failure? ==> r.error == Decode(table, charsets, d).error
    ensures r.Success? ==> (forall i :: 0 <= i < |r.value.attachments| ==> fresh(r.value.attachments[i]))
                           && Snapshot(r.value) == Decode(table, charsets, d).value
  {
    var parser := table[UTF8];
    var headers := ParseHeaders(ParameterOr(parser, "headers", ""));
    if headers.None? {
      return Failure(HeaderLineWithoutName);
    }
    var rawEmail := ParameterOr(parser, "email", "");
    var info := d.attachmentInfo(ParameterOr(parser, "attachment-info", "{}"));
    if info.None? {
      return Failure(MalformedJson("attachment-info"));
    }
    var attachments := BuildAttachments(info.value, parser.files);
    var envelope := d.envelope(ParameterOr(parser, "envelope", "{}"));
    if envelope.None? {
      return Failure(MalformedJson("envelope"));
    }
    var from := d.parseEmailAddress(EncodedOrEmpty("from", charsets, table));
    var to := d.parseEmailAddresses(EncodedOrEmpty("to", charsets, table));
    var cc := d.parseEmailAddresses(EncodedOrEmpty("cc", charsets, table));
    var email := InboundEmail(
      attachments,
      charsets,
      Encoded("dkim", charsets, table, None),
      envelope.value,
      from,
      headers.value,
      Encoded("html", charsets, table, None),
      Encoded("sender_ip", charsets, table, None),
      Encoded("spam_report", charsets, table, None),
      Encoded("spam_score", charsets, table, None),
      Encoded("SPF", charsets, table, None),
      Encoded("subject", charsets, table, None),
      Encoded("text", charsets, table, None),
      to,
      cc,
      rawEmail);
    assert Values(attachments) == Correlated(info.value, parser.files);
    return Success(email);
  }

  /** The table of parsers: the given UTF-8 parser, and for every other
      declared encoding a parse of the whole body with that encoding. */
  function EncodedParsers(buffer: seq<byte>, charsets: seq<Charset>, utf8Parser: FormData,
                          decode: (Encoding, seq<byte>) -> FormData): (table: map<Encoding, FormData>)
    ensures CoversCharsets(table, charsets)
    ensures table[UTF8] == utf8Parser
    ensures forall i :: 0 <= i < |charsets| && charsets[i].1 != UTF8 ==>
      table[charsets[i].1] == decode(charsets[i].1, buffer)
    ensures forall e :: e in table ==> e == UTF8 || exists i :: 0 <= i < |charsets| && charsets[i].1 == e
  {
    (map e | e in ReparseEncodings(charsets) :: decode(e, buffer))[UTF8 := utf8Parser]
  }

  /** The Distinct/Select/Union/ToDictionary chain: rewind, parse, add. The
      keys are distinct, so ToDictionary never meets a duplicate. */
  method BuildEncodedParsers(stream: MemoryStream, charsets: seq<Charset>, utf8Parser: FormData,
                             decode: (Encoding, seq<byte>) -> FormData)
    returns (table: map<Encoding, FormData>)
    requires stream.Valid()
    modifies stream
    ensures stream.Valid()
    ensures stream.position == if ReparseEncodings(charsets) == [] then old(stream.position) else |stream.buffer|
    ensures table == EncodedParsers(stream.buffer, charsets, utf8Parser, decode)
  {
    var encodings := ReparseEncodings(charsets);
    table := map[];
    for k := 0 to |encodings|
      invariant stream.Valid()
      invariant stream.position == if k == 0 then old(stream.position) else |stream.buffer|
      invariant table == map e | e in encodings[..k] :: decode(e, stream.buffer)
    {
      assert encodings[k] !in table;
      stream.position := 0;
      var parser := Parse(stream, encodings[k], decode);
      assert encodings[..k + 1] == encodings[..k] + [encodings[k]];
      table := table[encodings[k] := parser];
    }
    assert encodings[..|encodings|] == encodings;
    assert UTF8 !in table;
    table := table[UTF8 := utf8Parser];
  }

  /** The `charsets` parameter of the UTF-8 parse, resolved. */
  function ResolvedCharsets(utf8Parser: FormData, d: Decoders): Result<seq<Charset>, InboundError>
  {
    match d.charsetProperties(ParameterOr(utf8Parser, "charsets", "{}"))
    case None => Failure(MalformedJson("charsets"))
    case Some(properties) =>
      match ResolveCharsets(properties, d.getEncoding)
      case Failure(name) => Failure(UnknownEncoding(name))
      case Success(charsets) => Success(charsets)
  }

  /** ParseInboundEmailWebhook on values: the body's bytes in, the email out. */
  function Webhook(buffer: seq<byte>, d: Decoders): Result<InboundEmail<Attachment>, InboundError>
  {
    var utf8Parser := d.multipart(UTF8, buffer);
    match ResolvedCharsets(utf8Parser, d)
    case Failure(e) => Failure(e)
    case Success(charsets) => Decode(EncodedParsers(buffer, charsets, utf8Parser, d.multipart), charsets, d)
  }

  /** Each parser in the table reads the whole body in its own encoding, the
      UTF-8 one included. */
  lemma WebhookParsers(buffer: seq<byte>, charsets: seq<Charset>, d: Decoders, name: string)
    ensures var table := EncodedParsers(buffer, charsets, d.multipart(UTF8, buffer), d.multipart);
      table[GetEncoding(name, charsets)] == d.multipart(GetEncoding(name, charsets), buffer)
  {
  }

  /** A parse of the whole body with the parameter's declared encoding. */
  function WholeBodyParser(parameterName: string, charsets: seq<Charset>, buffer: seq<byte>, d: Decoders): FormData
  {
    d.multipart(GetEncoding(parameterName, charsets), buffer)
  }

  /** End to end: every field of the email is the parameter as a parse of the
      whole body with that parameter's declared encoding reads it (UTF-8 when
      none is declared), with its default. */
  lemma WebhookFields(buffer: seq<byte>, d: Decoders)
    requires Webhook(buffer, d).Success?
    ensures var e := Webhook(buffer, d).value;
      && ResolvedCharsets(d.multipart(UTF8, buffer), d) == Success(e.charsets)
      && e.from == d.parseEmailAddress(ParameterOr(WholeBodyParser("from", e.charsets, buffer, d), "from", ""))
      && e.to == d.parseEmailAddresses(ParameterOr(WholeBodyParser("to", e.charsets, buffer, d), "to", ""))
      && e.cc == d.parseEmailAddresses(ParameterOr(WholeBodyParser("cc", e.charsets, buffer, d), "cc", ""))
      && e.dkim == GetParameterValue(WholeBodyParser("dkim", e.charsets, buffer, d), "dkim", None)
      && e.html == GetParameterValue(WholeBodyParser("html", e.charsets, buffer, d), "html", None)
      && e.senderIp == GetParameterValue(WholeBodyParser("sender_ip", e.charsets, buffer, d), "sender_ip", None)
      && e.spamReport == GetParameterValue(WholeBodyParser("spam_report", e.charsets, buffer, d), "spam_report", None)
      && e.spamScore == GetParameterValue(WholeBodyParser("spam_score", e.charsets, buffer, d), "spam_score", None)
      && e.spf == GetParameterValue(WholeBodyParser("SPF", e.charsets, buffer, d), "SPF", None)
      && e.subject == GetParameterValue(WholeBodyParser("subject", e.charsets, buffer, d), "subject", None)
      && e.text == GetParameterValue(WholeBodyParser("text", e.charsets, buffer, d), "text", None)
  {
    var utf8Parser := d.multipart(UTF8, buffer);
    var charsets := ResolvedCharsets(utf8Parser, d).value;
    var table := EncodedParsers(buffer, charsets, utf8Parser, d.multipart);
    assert Webhook(buffer, d) == Decode(table, charsets, d);
    DecodeFields(table, charsets, d);
    forall name: string ensures FieldParser(name, charsets, table) == WholeBodyParser(name, charsets, buffer, d) {
      WebhookParsers(buffer, charsets, d, name);
    }
  }

  /** The webhook's own failures, before any field is read: malformed
      `charsets` JSON, then the first unknown encoding name. */
  lemma WebhookCharsetErrors(buffer: seq<byte>, d: Decoders)
    ensures var properties := d.charsetProperties(ParameterOr(d.multipart(UTF8, buffer), "charsets", "{}"));
      && (properties.None? ==> Webhook(buffer, d) == Failure(MalformedJson("charsets")))
      && (properties.Some? ==>
           forall i :: 0 <= i < |properties.value| && d.getEncoding(properties.value[i].1).None?
                       && (forall j :: 0 <= j < i ==> d.getEncoding(properties.value[j].1).Some?)
                       ==> Webhook(buffer, d) == Failure(UnknownEncoding(properties.value[i].1)))
  {
  }

  /** ParseInboundEmailWebhook: rewind, parse as UTF-8, resolve the charsets,
      parse once more per other encoding, assemble. */
  method ParseInboundEmailWebhook(stream: MemoryStream, d: Decoders)
    returns (r: Result<InboundEmail<InboundEmailAttachment>, InboundError>)
    requires stream.Valid()
    modifies stream
    ensures stream.Valid() && stream.position == |stream.buffer|
    ensures r.Failure? <==> Webhook(stream.buffer, d).Failure?
    ensures r.Failure? ==> r.error == Webhook(stream.buffer, d).error
    ensures r.Success? ==> (forall i :: 0 <= i < |r.value.attachments| ==> fresh(r.value.attachments[i]))
                           && Snapshot(r.value) == Webhook(stream.buffer, d).value
  {
    stream.position := 0;
    var utf8Parser := Parse(stream, UTF8, d.multipart);
    var charsets := ResolvedCharsets(utf8Parser, d);
    if charsets.Failure? {
      return Failure(charsets.error);
    }
    var table := BuildEncodedParsers(stream, charsets.value, utf8Parser, d.multipart);
    r := ParseInboundEmail(table, charsets.value, d);
  }
}
