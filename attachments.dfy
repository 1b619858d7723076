/** Attachments of an inbound email: each `attachment-info` entry, correlated
    with the uploaded file of the same name (WebhookParser.cs,
    ParseInboundEmail). */
module Attachments {
  import opened Wrappers
  import opened Utils
  import opened Multipart

  /** The metadata of one `attachment-info` property as JSON deserialisation
      gives it: the declared content type and file name, each possibly null. */
  datatype AttachmentInfo = AttachmentInfo(contentType: Option<string>, fileName: Option<string>)

  /** The observable state of an InboundEmailAttachment. */
  datatype Attachment = Attachment(id: Option<string>, contentType: Option<string>, fileName: Option<string>,
                                   data: Option<seq<byte>>)

  /** InboundEmailAttachment, the object the parser fills in place. */
  class InboundEmailAttachment {
    var id: Option<string>
    var contentType: Option<string>
    var fileName: Option<string>
    var data: Option<seq<byte>>

    function Value(): Attachment
      reads this
    {
      Attachment(id, contentType, fileName, data)
    }

    /** An attachment deserialised from its attachment-info entry: the content
        type and file name, with no id and no data yet. */
    constructor FromInfo(info: AttachmentInfo)
      ensures Value() == Attachment(None, info.contentType, info.fileName, None)
    {
      id := None;
      contentType := info.contentType;
      fileName := info.fileName;
      data := None;
    }
  }

  /** The first uploaded file whose form-field name is `name`, or null when no
      file has that name. */
  function FirstFileNamed(files: seq<FilePart>, name: string): (f: Option<FilePart>)
    ensures f.None? <==> forall i :: 0 <= i < |files| ==> files[i].name != name
    ensures f.Some? ==> f.value in files && f.value.name == name
  {
    if files == [] then None
    else if files[0].name == name then Some(files[0])
    else
      assert forall i :: 1 <= i < |files| ==> files[i] == files[1..][i - 1];
      FirstFileNamed(files[1..], name)
  }

  /** FirstOrDefault finds the first file of that name, and only that one. */
  lemma {:induction false} FirstFileNamedIsFirst(files: seq<FilePart>, name: string)
    ensures FirstFileNamed(files, name).None? <==> forall i :: 0 <= i < |files| ==> files[i].name != name
    ensures FirstFileNamed(files, name).Some? ==>
      exists i :: 0 <= i < |files| && files[i] == FirstFileNamed(files, name).value && files[i].name == name
        && forall j :: 0 <= j < i ==> files[j].name != name
  {
    if files != [] {
      FirstFileNamedIsFirst(files[1..], name);
      assert forall i :: 1 <= i < |files| ==> files[i] == files[1..][i - 1];
      if files[0].name != name && FirstFileNamed(files, name).Some? {
        var k :| 0 <= k < |files[1..]| && files[1..][k] == FirstFileNamed(files, name).value && files[1..][k].name == name
          && forall j :: 0 <= j < k ==> files[1..][j].name != name;
        assert files[k + 1] == files[1..][k];
      }
    }
  }

  /** The attachment the Select lambda returns for the property `name` with
      metadata `info`. */
  function Correlate(name: string, info: AttachmentInfo, files: seq<FilePart>): (a: Attachment)
    ensures a.id == Some(name)
    ensures a.data.Some? <==> exists j :: 0 <= j < |files| && files[j].name == name
    ensures a.data.Some? ==> exists j :: 0 <= j < |files| && files[j].name == name && a.data.value == files[j].data
  {
    match FirstFileNamed(files, name)
    case None => Attachment(Some(name), info.contentType, info.fileName, None)
    case Some(file) =>
      Attachment(Some(name),
                 if IsNullOrEmpty(info.contentType) then file.contentType else info.contentType,
                 if IsNullOrEmpty(info.fileName) then file.fileName else info.fileName,
                 Some(file.data))
  }

  /** The attachment is identified by its property name. With a file of that
      name it takes the bytes of the first such file, and that file's content
      type and file name wherever the metadata leaves them null or empty; with
      none it keeps its metadata and has no data. */
  lemma CorrelateSpec(name: string, info: AttachmentInfo, files: seq<FilePart>, i: nat)
    requires i < |files| && files[i].name == name && forall j :: 0 <= j < i ==> files[j].name != name
    ensures var a := Correlate(name, info, files);
      && a.id == Some(name)
      && a.data == Some(files[i].data)
      && a.contentType == (if IsNullOrEmpty(info.contentType) then files[i].contentType else info.contentType)
      && a.fileName == (if IsNullOrEmpty(info.fileName) then files[i].fileName else info.fileName)
  {
    FirstFileNamedIsFirst(files, name);
  }

  lemma CorrelateWithoutFile(name: string, info: AttachmentInfo, files: seq<FilePart>)
    requires forall j :: 0 <= j < |files| ==> files[j].name != name
    ensures Correlate(name, info, files) == Attachment(Some(name), info.contentType, info.fileName, None)
  {
    FirstFileNamedIsFirst(files, name);
  }

  /** The Select lambda: deserialise, set the id, then complete the object in
      place from the matching file. */
  method BuildAttachment(name: string, info: AttachmentInfo, files: seq<FilePart>)
    returns (attachment: InboundEmailAttachment)
    ensures fresh(attachment)
    ensures attachment.Value() == Correlate(name, info, files)
  {
    attachment := new InboundEmailAttachment.FromInfo(info);
    attachment.id := Some(name);

    var file := FirstFileNamed(files, name);
    if file.Some? {
      attachment.data := Some(file.value.data);
      if IsNullOrEmpty(attachment.contentType) {
        attachment.contentType := file.value.contentType;
      }
      if IsNullOrEmpty(attachment.fileName) {
        attachment.fileName := file.value.fileName;
      }
    }
  }

  /** attachment-info's properties, in order, Select-ed into attachments and
      collected with ToArray: one fresh object per property. */
  method BuildAttachments(properties: seq<(string, AttachmentInfo)>, files: seq<FilePart>)
    returns (attachments: seq<InboundEmailAttachment>)
    ensures |attachments| == |properties|
    ensures forall i :: 0 <= i < |attachments| ==> fresh(attachments[i])
    ensures forall i, j :: 0 <= i < j < |attachments| ==> attachments[i] != attachments[j]
    ensures forall i :: 0 <= i < |attachments| ==>
      attachments[i].Value() == Correlate(properties[i].0, properties[i].1, files)
  {
    attachments := [];
    for k := 0 to |properties|
      invariant |attachments| == k
      invariant forall i :: 0 <= i < k ==> fresh(attachments[i])
      invariant forall i, j :: 0 <= i < j < k ==> attachments[i] != attachments[j]
      invariant forall i :: 0 <= i < k ==>
        attachments[i].Value() == Correlate(properties[i].0, properties[i].1, files)
    {
      var attachment := BuildAttachment(properties[k].0, properties[k].1, files);
      attachments := attachments + [attachment];
    }
  }

  /** What a sequence of attachment objects currently holds. */
  function Values(attachments: seq<InboundEmailAttachment>): (r: seq<Attachment>)
    reads attachments
    ensures |r| == |attachments|
    ensures forall i :: 0 <= i < |attachments| ==> r[i] == attachments[i].Value()
  {
    if attachments == [] then []
    else [attachments[0].Value()] + Values(attachments[1..])
  }

  /** The attachments of all `attachment-info` properties, as values: one per
      property, identified by its name, with data exactly when an uploaded
      file has that name. */
  function Correlated(properties: seq<(string, AttachmentInfo)>, files: seq<FilePart>): (r: seq<Attachment>)
    ensures |r| == |properties|
    ensures forall i :: 0 <= i < |properties| ==> r[i].id == Some(properties[i].0)
    ensures forall i :: 0 <= i < |properties| ==>
      (r[i].data.Some? <==> exists j :: 0 <= j < |files| && files[j].name == properties[i].0)
  {
    seq(|properties|, i requires 0 <= i < |properties| => Correlate(properties[i].0, properties[i].1, files))
  }
}
