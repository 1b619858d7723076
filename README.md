# StrongGrid webhook core in Dafny

This project models the webhook ingestion core of StrongGrid, a .NET client
for SendGrid, and proves properties of the model. It covers three parts.

- **Public-key conversion** (`Utils.ConvertSecp256R1PublicKeyToEccPublicBlob`).
  - The input is a DER SubjectPublicKeyInfo for a P-256 key: 91 bytes that
    start with a fixed 27-byte prefix.
  - The output is a 72-byte CNG `ECS1` public blob: an 8-byte header and then
    the 64 coordinate bytes X‖Y.
  - The model is imperative, over arrays: a length guard, a prefix guard, an
    allocation and two `Buffer.BlockCopy` calls. It is proved against the pure
    function `Utils.EccPublicBlob`.
  - Lemmas give the blob's layout and its inverse, `SpkiOfBlob`, in both
    directions.
- **Signed event webhook** (`WebhookParser.ParseSignedEventsWebhook`).
  - The argument and header checks run in a fixed order.
  - The signed message is the UTF-8 encoding of timestamp ++ body. UTF-8 is
    modelled concretely, so the message is provably UTF-8(timestamp) followed
    by UTF-8(body).
  - The outcome is throw-or-delegate.
  - Base64 decoding, the DER-to-r‖s signature conversion, and ECDSA
    verification are uninterpreted parameters (the `Crypto` datatype). So is
    the JSON event parser.
- **Inbound email webhook** (`ParseInboundEmailWebhook` and `ParseInboundEmail`).
  - It first parses the whole body with UTF-8.
  - It resolves the `charsets` table and looks up each field's encoding with
    `GetEncoding`: the first match wins, and UTF-8 is the default.
  - It parses the body once more, after rewinding the stream, for each
    distinct non-UTF-8 encoding. The `MemoryStream` class has a mutable
    `position`.
  - It splits the header blob. This uses a model of .NET `String.Split` with
    `RemoveEmptyEntries` (module `StringSplit`), exact for separator arrays
    with a non-empty entry, which both call sites use.
  - It correlates attachments with uploaded files. The
    `InboundEmailAttachment` objects are filled in place.
  - It applies the field defaults.
  - The multipart parser, the JSON readers, `Encoding.GetEncoding` and
    `MailAddressParser` are uninterpreted parameters (the `Decoders`
    datatype).

How C# behaviour is modelled:

- A thrown exception is a `None` result where a member returns an `Option`
  (the key conversion, a header line, and the `Crypto` and `Decoders`
  parameters), and a `Failure` value naming the exception where a member
  returns a `Result`.
- A C# `null` is `None` as well.
- An encoding is its code page. UTF-8 is 65001.

Three behaviours of the code that the model keeps as they are:

- The SPKI prefix the code compares is 27 bytes. It includes the 0x04
  uncompressed-point marker (`Utilities/Utils.cs:12`).
- An empty timestamp header is rejected like a missing one
  (`WebhookParser.cs:84`). It is never passed on to the signature check.
- A header's value is the second non-empty piece of the line split on `": "`.
  Text after a further `": "` is dropped (`WebhookParser.cs:277-279`).

## Model

| member | source | states |
|---|---|---|
| Utils.ConstantsLayout | Source/StrongGrid/Utilities/Utils.cs:12-13 | The SPKI prefix is 27 bytes and announces a 91-byte structure (SEQUENCE length 0x59 + 2). It ends with the 66-byte BIT STRING header and the 0x04 point marker. 27 + 64 = 91. The CNG header is "ECS1" followed by the key size 32 as little-endian. |
| Utils.EccPublicBlob | Source/StrongGrid/Utilities/Utils.cs:27-50 | A blob exists exactly when the key is 91 bytes and starts with the 27-byte prefix. A blob is always 72 bytes. |
| Utils.BlobLayout | Source/StrongGrid/Utilities/Utils.cs:39-47 | Blob bytes [0,8) are the ECS1 header, [8,40) are key bytes [27,59) (X), and [40,72) are key bytes [59,91) (Y). |
| Utils.BlobRoundTrip | Source/StrongGrid/Utilities/Utils.cs:39-49 | The prefix followed by the blob's coordinates gives back the original key: no byte is dropped. |
| Utils.SpkiRoundTrip | Source/StrongGrid/Utilities/Utils.cs:39-49 | Every well-formed 72-byte blob is the conversion of exactly the key rebuilt from it. |
| Utils.BlockCopy | Source/StrongGrid/Utilities/Utils.cs:40-47 | Buffer.BlockCopy: the destination's range [dstOffset, dstOffset+count) becomes the source range, and the rest of the destination is unchanged. |
| Utils.ConvertSecp256R1PublicKeyToEccPublicBlob | Source/StrongGrid/Utilities/Utils.cs:27-50 | It fails (InvalidOperationException) exactly when EccPublicBlob does. Otherwise it returns a freshly allocated array holding EccPublicBlob's bytes. The input array is not modified. |
| Utf8.EncodeChar | Source/StrongGrid/WebhookParser.cs:91 | A character takes 1, 2, 3 or 4 bytes by code-point range, and an ASCII character is its own byte. |
| Utf8.EncodeAppend | Source/StrongGrid/WebhookParser.cs:91 | UTF-8 of a concatenation is the concatenation of the UTF-8 encodings. |
| Utf8.EncodeLength | Source/StrongGrid/WebhookParser.cs:91 | Encoding never shortens a string, and ASCII text keeps its length. |
| SignedEvents.CheckOrder | Source/StrongGrid/WebhookParser.cs:77-84 | Null headers fail with ArgumentNull("headers"). Then a null or empty key fails with ArgumentNull("publicKey"). Then a missing or empty signature header fails with Argument(signature missing). Then a missing or empty timestamp header fails with Argument(timestamp missing). No pre-verification failure is a SecurityException. |
| SignedEvents.PreparedVerification | Source/StrongGrid/WebhookParser.cs:86-91 | When the checks pass and the decodes succeed, `Prepare` (signed_events.dfy) succeeds exactly when the key is a valid SPKI. The verified data is then UTF-8(timestamp) ++ UTF-8(body), the key blob is well formed and carries exactly the decoded key's point, and the signature is the converted one. |
| SignedEvents.ParseSignedEventsWebhook | Source/StrongGrid/WebhookParser.cs:75-105 | Any check or conversion failure is returned as that failure. If verification is false, the result is SecurityException("Webhook signature validation failed.") and no events. If it is true, the result is exactly the event parser's output on the unmodified body. |
| StringSplit.SeparatorAt | Source/StrongGrid/WebhookParser.cs:274 | A separator match is non-zero exactly when some non-empty separator starts the text. A match is a prefix of the text and is one of the separators. |
| StringSplit.Pieces | Source/StrongGrid/WebhookParser.cs:274 | String.Split before empty entries are removed always yields at least one piece. |
| StringSplit.RemoveEmpty | Source/StrongGrid/WebhookParser.cs:274 | RemoveEmptyEntries keeps exactly the non-empty pieces: a piece is in the result if and only if it is in the input and is non-empty. Input with no empty piece is returned unchanged. |
| StringSplit.RemoveEmptyAppend | Source/StrongGrid/WebhookParser.cs:274 | Removing empty pieces works piecewise over a concatenation, so the kept pieces stay in input order. |
| StringSplit.ConcatRemoveEmpty | Source/StrongGrid/WebhookParser.cs:274 | Dropping empty pieces does not change the concatenated text. |
| StringSplit.PiecesOfPlainPrefix | Source/StrongGrid/WebhookParser.cs:277 | Text with no separator anywhere in it is glued onto the first piece of what follows. |
| Headers.LineSeparatorAt | Source/StrongGrid/WebhookParser.cs:274 | "\r\n" is taken before "\r", and "\r" before "\n". Text that starts with no line break matches nothing. |
| Headers.PiecesBreakFree | Source/StrongGrid/WebhookParser.cs:274 | No piece contains a CR or an LF. |
| Headers.LinesAreBreakFree | Source/StrongGrid/WebhookParser.cs:274 | Every line of the blob is non-empty and contains no line break. |
| Headers.ConcatPieces | Source/StrongGrid/WebhookParser.cs:274 | The pieces are the blob's text with its line breaks removed. |
| Headers.LinesKeepText | Source/StrongGrid/WebhookParser.cs:274 | The lines together hold all of the blob's text except its line breaks, in order. |
| Headers.BreakThenLine | Source/StrongGrid/WebhookParser.cs:274 | One line break before a line gives one empty piece and then that line's pieces. |
| Headers.BreakFreeHead | Source/StrongGrid/WebhookParser.cs:274 | Break-free text is glued onto the first piece of what follows. |
| Headers.TerminatedHead | Source/StrongGrid/WebhookParser.cs:274 | A terminated blob of lines is the first line, its own break, and the terminated rest. |
| Headers.LinesRoundTrip | Source/StrongGrid/WebhookParser.cs:274 | Non-empty break-free lines, each ended by its own CRLF, CR or LF (mixed freely in one blob), split back into exactly those lines, in order. |
| Headers.MixedBreaksExample | Source/StrongGrid/WebhookParser.cs:274 | A blob whose lines end with CRLF, LF and CR in turn splits into exactly its three lines. |
| Headers.NameValueSeparatorAt | Source/StrongGrid/WebhookParser.cs:277 | The only separator a header line matches is ": ". |
| Headers.SplitAfterName | Source/StrongGrid/WebhookParser.cs:277 | A name with no ": " stays whole in the first piece. |
| Headers.HeaderWithoutSeparator | Source/StrongGrid/WebhookParser.cs:277-279 | A non-empty line without ": " is a key with a null value. |
| Headers.HeaderNameAndValue | Source/StrongGrid/WebhookParser.cs:277-279 | For "name: rest", the key is the name and the value is the first non-empty piece of rest split on ": ". The value is null when there is no such piece. |
| Headers.HeaderNameValue | Source/StrongGrid/WebhookParser.cs:277-279 | "name: value" with no further ": " gives exactly (name, value). |
| Headers.HeaderValueTruncated | Source/StrongGrid/WebhookParser.cs:277-279 | For "name: value: more", the value is only "value". |
| Headers.PiecesAllEmpty | Source/StrongGrid/WebhookParser.cs:277 | A line splits into no pieces exactly when it is ": " repeated. |
| Headers.HeaderLineFails | Source/StrongGrid/WebhookParser.cs:277-278 | A non-empty line raises IndexOutOfRangeException at splitHeader[0] exactly when it is ": " repeated. |
| Headers.ParseHeaderLines | Source/StrongGrid/WebhookParser.cs:275-281 | The lines parse exactly when every line parses. They give one pair per line, in order, each the parse of its line. |
| Headers.HeadersOfTerminatedLines | Source/StrongGrid/WebhookParser.cs:272-281 | A blob of well-formed header lines, each ended by its own CRLF, CR or LF, yields exactly one pair per line, in order, each the parse of its line. |
| Headers.EmptyHeaderExample | Source/StrongGrid.UnitTests/WebhookParserTests.cs:218 | The test blob's "X-MS-Has-Attach:" gives key "X-MS-Has-Attach:" and a null value. |
| Headers.SubjectHeaderExample | Source/StrongGrid.UnitTests/WebhookParserTests.cs:211 | The test blob's "Subject: Test #1" gives ("Subject", "Test #1"). |
| Charsets.Where | Source/StrongGrid/WebhookParser.cs:247 | It keeps only entries with the parameter's name, and is empty exactly when no entry has that name. |
| Charsets.GetEncoding | Source/StrongGrid/WebhookParser.cs:245-250 | The result is UTF-8 or the encoding of an entry with that name. |
| Charsets.GetEncodingFirstMatch | Source/StrongGrid/WebhookParser.cs:245-250 | With entries for the name, the result is the encoding of the first of them. |
| Charsets.GetEncodingDefault | Source/StrongGrid/WebhookParser.cs:249 | With no entry for the name, the result is UTF-8. |
| Charsets.ResolveCharsets | Source/StrongGrid/WebhookParser.cs:205-213 | It succeeds exactly when every name is a known encoding, keeping the order and the keys. Otherwise the error is the first unknown name. |
| Charsets.NonUtf8Encodings | Source/StrongGrid/WebhookParser.cs:220-221 | An encoding is in the result exactly when it is declared and is not UTF-8. |
| Charsets.Distinct | Source/StrongGrid/WebhookParser.cs:222 | The result has the same elements as the input, each once. |
| Charsets.ReparseEncodings | Source/StrongGrid/WebhookParser.cs:219-222 | These are the encodings given a parse of their own: no UTF-8, no duplicates, every declared non-UTF-8 encoding, and nothing undeclared. |
| Multipart.GetParameterValue | Source/StrongGrid/WebhookParser.cs:262 | A parameter that is present gives Some(its value). A missing one gives the default, so a non-null default always gives a non-null value. |
| Multipart.Parse | Source/StrongGrid/WebhookParser.cs:229 | A parse reads the stream from its current position to the end, and leaves the position at the end. |
| Attachments.InboundEmailAttachment.FromInfo | Source/StrongGrid/WebhookParser.cs:292 | A deserialised attachment has the metadata's content type and file name, no id and no data. |
| Attachments.FirstFileNamed | Source/StrongGrid/WebhookParser.cs:295 | FirstOrDefault is null exactly when no file has the name. Otherwise it is one of the files, and has that name. |
| Attachments.Correlate | Source/StrongGrid/WebhookParser.cs:290-303 | The attachment's id is the property name. It has data exactly when some file has that name, and then the data is the bytes of such a file. |
| Attachments.FirstFileNamedIsFirst | Source/StrongGrid/WebhookParser.cs:295 | FirstOrDefault is null exactly when no file has the name. Otherwise it is the first file with the name. |
| Attachments.CorrelateSpec | Source/StrongGrid/WebhookParser.cs:290-303 | With a matching file, the id is the property name and the data is that file's bytes. The content type and the file name come from the file only where the metadata's value is null or empty. |
| Attachments.CorrelateWithoutFile | Source/StrongGrid/WebhookParser.cs:296 | With no matching file, the attachment keeps its metadata and has no data. |
| Attachments.BuildAttachment | Source/StrongGrid/WebhookParser.cs:290-304 | The lambda returns a fresh object whose state, after the in-place updates, is the correlated attachment. |
| Attachments.BuildAttachments | Source/StrongGrid/WebhookParser.cs:288-304 | One fresh, distinct object per property, in property order, each holding its correlated attachment. |
| Attachments.Values | Source/StrongGrid/WebhookParser.cs:304 | Reading out the objects gives one value per object, in order. |
| Attachments.Correlated | Source/StrongGrid/WebhookParser.cs:288-304 | One attachment per property, in order. Attachment i has property i's name as its id, and has data exactly when some uploaded file has that name. |
| InboundEmailParser.ParameterOr | Source/StrongGrid/WebhookParser.cs:273 | A parameter read with a default is its value when present and the default otherwise. |
| InboundEmailParser.GetEncodedParser | Source/StrongGrid/WebhookParser.cs:252-257 | A table that covers the charsets never raises KeyNotFoundException. The parser found is the one for UTF-8 or for an encoding declared under that name. A failure names an encoding missing from the table. |
| InboundEmailParser.GetEncodedValue | Source/StrongGrid/WebhookParser.cs:259-264 | It succeeds on a covering table, and a non-null default gives a non-null value. |
| InboundEmailParser.EncodedValueDeclared | Source/StrongGrid/WebhookParser.cs:259-264 | A parameter with a charsets entry is read from the parser of its first entry's encoding. |
| InboundEmailParser.EncodedValueUndeclared | Source/StrongGrid/WebhookParser.cs:259-264 | A parameter without one is read from the UTF-8 parser. |
| InboundEmailParser.EncodedIsLookup | Source/StrongGrid/WebhookParser.cs:252-264 | On a covering table, the encoding GetEncoding gives is always a key, and the value is read from that key's parser with the given default. |
| InboundEmailParser.DecodeErrors | Source/StrongGrid/WebhookParser.cs:272-307 | Failures come in this order: a header line without a name, then malformed attachment-info JSON, then malformed envelope JSON. Nothing else fails. |
| InboundEmailParser.Utf8PartsIgnoreCharsets | Source/StrongGrid/WebhookParser.cs:269-307 | Headers, raw email, attachments and envelope depend only on the UTF-8 parser. Other charsets or parsers change neither them nor whether the parse fails. |
| InboundEmailParser.DecodeFields | Source/StrongGrid/WebhookParser.cs:310-340 | Each of the eleven fields is read from the parser of the encoding GetEncoding gives for it. The default is "" for from/to/cc (then address-parsed) and null for the rest. The email keeps the charsets. |
| InboundEmailParser.DecodeAttachments | Source/StrongGrid/WebhookParser.cs:287-304 | There is one attachment per attachment-info property, in order, each correlated with the UTF-8 parser's files. |
| InboundEmailParser.ParseInboundEmail | Source/StrongGrid/WebhookParser.cs:266-343 | It fails exactly when `Decode` (inbound_email.dfy) fails, with the same error. Otherwise its fresh attachment objects and its fields hold the email `Decode` gives. |
| InboundEmailParser.EncodedParsers | Source/StrongGrid/WebhookParser.cs:219-236 | The table covers UTF-8 and every declared encoding. UTF-8 maps to the first-pass parser, each declared non-UTF-8 encoding maps to a parse of the whole body with it, and there are no other keys. |
| InboundEmailParser.BuildEncodedParsers | Source/StrongGrid/WebhookParser.cs:219-236 | The rewind-and-parse loop builds exactly EncodedParsers of the whole buffer, with no duplicate key ever added. The position ends at the end of the buffer, or stays put when there is no re-parse. |
| InboundEmailParser.WebhookParsers | Source/StrongGrid/WebhookParser.cs:219-236 | Because of the rewinds, the parser a field is read from is a parse of the whole body with that field's encoding, the UTF-8 one included. |
| InboundEmailParser.WebhookFields | Source/StrongGrid/WebhookParser.cs:185-238 | End to end, each field is the parameter as a whole-body parse with its declared encoding reads it: the first charset entry, else UTF-8. The default is "" for from/to/cc and null for the rest. |
| InboundEmailParser.WebhookCharsetErrors | Source/StrongGrid/WebhookParser.cs:205-213 | Malformed charsets JSON fails first. Then the first unknown encoding name fails, with that name. |
| InboundEmailParser.ParseInboundEmailWebhook | Source/StrongGrid/WebhookParser.cs:185-239 | The stream is rewound and the whole body is parsed. The method then fails or succeeds exactly as `Webhook` (inbound_email.dfy) does, and its result holds that email. The position ends at the end. |

## Left out

- ECDSA verification (`CngKey.Import`, `ECDsaCng.VerifyData`) is the
  `verifyData` parameter, a pass/fail decision on blob, data and signature.
- `ConvertECDSASignature`, `MailAddressParser` and `WebHookEventConverter` are
  not part of this model. The signature conversion, address parsing and event
  parsing are uninterpreted parameters.
- `Convert.FromBase64String`, the Newtonsoft JSON readers and
  `Encoding.GetEncoding` are library code. Their results are parameters, and
  a thrown exception is a `None` result.
- `MultipartFormDataParser.Parse` and `MailAddressParser` are assumed never
  to throw: they are total parameters. A malformed multipart body or an
  unparseable address is therefore not an error in the model. The "nothing
  else fails" parts of `InboundEmailParser.DecodeErrors` and
  `InboundEmailParser.WebhookCharsetErrors` hold under that assumption.
- `Encoding.GetEncoding` is not modelled with its name aliasing: an encoding
  is identified by its code page only.
- The non-seekable-stream copy is not modelled, and neither is
  `RecyclableMemoryStreamManager`: the model's stream is always seekable.
  Neither is the `StreamReader` of the unsigned path.
- The async variants and `Encoding.RegisterProvider` in the static constructor
  are runtime plumbing.
- The test theory for signature validation expects success with an empty
  timestamp. The code rejects an empty timestamp, and the model follows the
  code.
- The test's 40-pair header count on its full 40-line blob is not restated. Its
  literal is too large to unfold. `Headers.HeadersOfTerminatedLines` gives one
  pair per non-empty line for any such blob.
- A null request body is not modelled: the body is a string.
- A header dictionary entry whose value is null is not modelled. In the code
  such an entry behaves like a missing key.
- UTF-8 encoding is over Unicode scalar values. The replacement of lone UTF-16
  surrogates is not modelled.
- Utils.BlockCopy: the ArgumentException that `Buffer.BlockCopy` raises for an
  out-of-range copy is a precondition. Both call sites are in range.
- InboundEmailParser.Decode: it requires a table that covers the charsets, as
  the only caller's table does (proved by `EncodedParsers`). Two failures of
  an uncovered table are therefore not modelled in Decode. One is the
  InvalidOperationException that `Single` raises at line 269 when UTF-8 is
  missing. The other is the KeyNotFoundException of line 255, which is
  modelled only in `GetEncodedParser` and `GetEncodedValue`.
- Multipart.Parse: that a parse leaves the stream position at the end of the
  buffer is an assumption about the HttpMultipartParser library, whose parse
  is a parameter. Every parse follows a rewind, so no result depends on it.
- The `Data` stream of an attachment is the same `Stream` object as the
  parser's file part. The model copies its bytes, so that aliasing is not
  captured.
- An attachment-info property whose JSON value is `null` deserialises to a
  null attachment, and the next assignment (`WebhookParser.cs:293`)
  throws NullReferenceException. The model reads every entry as metadata, so
  that exception is not modelled.
- The envelope's JSON literal `null`, which deserialises to a null envelope,
  is not distinguished from a well-formed envelope. Fields of
  `InboundEmailAttachment` other than id, content type, file name and data are
  not modelled.
- The HTTP resource wrappers, plain data classes and search-criteria classes
  are outside the webhook core.
