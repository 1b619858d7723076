/** What the inbound-email decoder needs of the multipart/form-data parser
    (HttpMultipartParser's MultipartFormDataParser, whose code is not part of
    this model): one parse of the stream, from its current position, with one
    encoding, gives the text parameters by name and the uploaded files. */
module Multipart {
  import opened Wrappers
  import opened Utils
  import opened Charsets

  /** An uploaded file part: its form-field name, declared file name and
      content type, and its bytes. */
  datatype FilePart = FilePart(name: string, fileName: Option<string>, contentType: Option<string>, data: seq<byte>)

  /** The parser after a parse: text parameters by field name, files in order. */
  datatype FormData = FormData(parameters: map<string, string>, files: seq<FilePart>)

  /** The text parameter called `name` as the multipart parser returns it, or
      `defaultValue` when the body has no such parameter. */
  function GetParameterValue(parser: FormData, name: string, defaultValue: Option<string>): (v: Option<string>)
    ensures name in parser.parameters ==> v == Some(parser.parameters[name])
    ensures name !in parser.parameters ==> v == defaultValue
    ensures defaultValue.Some? ==> v.Some?
  {
    if name in parser.parameters then Some(parser.parameters[name]) else defaultValue
  }

  /** A seekable in-memory stream: its bytes and the read position. */
  class MemoryStream {
    const buffer: seq<byte>
    var position: nat

    ghost predicate Valid()
      reads this
    {
      position <= |buffer|
    }

    constructor (buffer: seq<byte>)
      ensures Valid() && this.buffer == buffer && position == 0
    {
      this.buffer := buffer;
      position := 0;
    }
  }

  /** MultipartFormDataParser.Parse(stream, encoding): `decode` is the parse of
      a byte sequence with one encoding. It reads the stream from its current
      position to the end. */
  method Parse(stream: MemoryStream, encoding: Encoding, decode: (Encoding, seq<byte>) -> FormData)
    returns (parser: FormData)
    requires stream.Valid()
    modifies stream
    ensures stream.Valid() && stream.position == |stream.buffer|
    ensures parser == decode(encoding, stream.buffer[old(stream.position)..])
  {
    parser := decode(encoding, stream.buffer[stream.position..]);
    stream.position := |stream.buffer|;
  }
}
