/**
 * The background service worker (background.js): the document store kept in local
 * storage under the key 'documents', and the runtime-message dispatcher.
 */
module Background {
  import opened Wrappers
  import opened JsString
  import opened Base64
  import opened Documents
  import opened Messages

  /**
   * `isSupportedDocType`: "resume" and every "resume-<suffix>". `None` stands for a
   * `docType` that is not a string.
   */
  function IsSupportedDocType(docType: Option<string>): (r: bool)
    ensures r <==> docType == Some("resume") || (docType.Some? && exists suffix :: docType.value == "resume-" + suffix)
  {
    match docType
    case None => false
    case Some(s) => StartsWithIff(s, "resume-"); s == "resume" || StartsWith(s, "resume-")
  }

  /** The `data` of a save request: missing, a string, or an ArrayBuffer / typed array of bytes. */
  datatype DocData = Absent | Text(text: string) | Binary(bytes: seq<Byte>) {
    /** `!data`: an absent value or the empty string; a buffer object is always truthy. */
    predicate IsFalsy() { Absent? || (Text? && text == "") }
  }

  /**
   * The payload of a 'docs:save' message. Falsy string fields (missing, null, '') are "";
   * `size` is `None` when it is not a number.
   */
  datatype Payload = Payload(docType: Option<string>, fileName: string, mimeType: string, size: Option<int>, data: DocData)

  /** The four errors `saveDocument` throws. */
  datatype SaveError = UnsupportedType | MissingFileData | FileTooLarge | InvalidFileType {
    function Message(): string {
      match this
      case UnsupportedType => "Unsupported document type"
      case MissingFileData => "Missing file data"
      case FileTooLarge => "File too large"
      case InvalidFileType => "Invalid file type"
    }
  }

  /** `typeof size === 'number' ? size : (data.byteLength ?? data.length ?? 0)` */
  function EffectiveSize(p: Payload): (n: int)
    ensures p.size.Some? ==> n == p.size.value
    ensures p.size.None? && p.data.Binary? ==> n == |p.data.bytes|
    ensures p.size.None? && p.data.Text? ==> n == |p.data.text|
    ensures p.size.None? && p.data.Absent? ==> n == 0
  {
    match p.size
    case Some(n) => n
    case None =>
      match p.data
      case Binary(b) => |b|
      case Text(t) => |t|
      case Absent => 0
  }

  /**
   * The checks of `saveDocument`, in their order; the first failure is the error. On
   * success the value is the size that will be stored.
   */
  function CheckPayload(p: Payload): (r: Result<int, SaveError>)
    ensures r == Failure(UnsupportedType) <==> !IsSupportedDocType(p.docType)
    ensures r == Failure(MissingFileData) <==>
      IsSupportedDocType(p.docType) && (p.fileName == "" || p.data.IsFalsy())
    ensures r == Failure(FileTooLarge) <==>
      IsSupportedDocType(p.docType) && p.fileName != "" && !p.data.IsFalsy()
      && EffectiveSize(p) > MaxFileSizeBytes
    ensures r == Failure(InvalidFileType) <==>
      IsSupportedDocType(p.docType) && p.fileName != "" && !p.data.IsFalsy()
      && EffectiveSize(p) <= MaxFileSizeBytes && p.mimeType != "" && p.mimeType !in AllowedMimeTypes
    ensures r.Success? ==>
              && r.value == EffectiveSize(p) && r.value <= MaxFileSizeBytes
              && p.docType.Some? && p.fileName != "" && !p.data.Absent?
              && (p.mimeType == "" || p.mimeType in AllowedMimeTypes)
  {
    if !IsSupportedDocType(p.docType) then Failure(UnsupportedType)
    else if p.fileName == "" || p.data.IsFalsy() then Failure(MissingFileData)
    else if EffectiveSize(p) > MaxFileSizeBytes then Failure(FileTooLarge)
    else if p.mimeType != "" && p.mimeType !in AllowedMimeTypes then Failure(InvalidFileType)
    else Success(EffectiveSize(p))
  }

  /** What is stored as `data`: a string verbatim, bytes as their base 64 encoding. */
  function StoredData(d: DocData): string {
    match d
    case Text(t) => t
    case Binary(b) => Encode(b)
    case Absent => ""
  }

  /** The document `saveDocument` returns for a payload, or the error it throws; `now` is the ISO time stamp. */
  function SaveOutcome(p: Payload, now: string): (r: Result<Doc, SaveError>)
    ensures r.Failure? <==> CheckPayload(p).Failure?
  {
    match CheckPayload(p)
    case Failure(e) => Failure(e)
    case Success(size) => Success(Doc(p.docType.value, p.fileName, p.mimeType, size, now, StoredData(p.data)))
  }

  /**
   * A saved document carries the request's type, name and MIME type, the effective size and
   * the save time; its data is the request's string verbatim, or the base 64 of its bytes.
   */
  lemma SavedDocFields(p: Payload, now: string)
    requires SaveOutcome(p, now).Success?
    ensures var d := SaveOutcome(p, now).value;
      Some(d.docType) == p.docType && IsSupportedDocType(Some(d.docType))
      && d.fileName == p.fileName && d.fileName != ""
      && d.mimeType == p.mimeType && d.size == EffectiveSize(p) && d.size <= MaxFileSizeBytes
      && d.updatedAt == now
      && !p.data.Absent?
      && (p.data.Text? ==> d.data == p.data.text && d.data != "")
      && (p.data.Binary? ==> d.data == Encode(p.data.bytes))
  {
  }

  /** The stored text of a binary upload decodes (as the content script does) to the uploaded bytes. */
  lemma SavedBytesDecode(p: Payload, now: string)
    requires SaveOutcome(p, now).Success? && p.data.Binary?
    ensures ForgivingDecode(SaveOutcome(p, now).value.data) == Some(p.data.bytes)
  {
    DecodeEncode(p.data.bytes);
  }

  /** `bufferToBase64`: builds the binary string byte by byte, then applies `btoa`. */
  method BufferToBase64(buffer: array<Byte>) returns (encoded: string)
    ensures encoded == Encode(buffer[..])
    ensures |encoded| == 4 * ((buffer.Length + 2) / 3)
    ensures ForgivingDecode(encoded) == Some(buffer[..])
  {
    var binary := "";
    var i := 0;
    while i < buffer.Length
      invariant 0 <= i <= buffer.Length
      invariant binary == BinaryString(buffer[..i])
    {
      binary := binary + [buffer[i] as char];
      i := i + 1;
    }
    assert buffer[..i] == buffer[..];
    assert CharCodes(binary) == buffer[..];
    encoded := Btoa(binary).value;
    EncodeLength(buffer[..]);
    DecodeEncode(buffer[..]);
  }

  /** What `chrome.scripting.executeScript` plus `chrome.tabs.sendMessage` yield for the active tab. */
  datatype Delivery = Delivered(reply: Option<AttachResult>) | DeliveryThrew(message: string)

  /** The runtime messages the worker understands, by their `type`; anything else is `OtherRequest`. */
  datatype Request =
    | DocsList                      // 'docs:list'
    | DocsSave(payload: Payload)    // 'docs:save'
    | DocsDelete(docType: string)   // 'docs:delete'
    | DocsAttach(docType: string)   // 'docs:attach'
    | OtherRequest

  /** `error?.message || 'Unknown error'` */
  function ErrorText(message: string): (t: string)
    ensures t != ""
    ensures message != "" ==> t == message
    ensures message == "" ==> t == "Unknown error"
  {
    if message == "" then "Unknown error" else message
  }

  /**
   * The worker's persistent state: the 'documents' mapping in local storage, the number of
   * writes made to it, and every reply sent so far.
   */
  class DocumentStore {
    var documents: map<string, Doc>
    var writes: nat
    var replies: seq<Response>

    constructor ()
      ensures documents == map[] && writes == 0 && replies == []
    {
      documents, writes, replies := map[], 0, [];
    }

    /** `getDocuments`: the stored mapping, empty when nothing is stored. */
    method GetDocuments() returns (docs: map<string, Doc>)
      ensures docs == documents
    {
      docs := documents;
    }

    /**
     * `saveDocument`: validates, encodes, then one read-modify-write of the mapping. A
     * rejected payload leaves storage untouched; an accepted one replaces only its own key.
     */
    method SaveDocument(payload: Payload, now: string) returns (r: Result<Doc, SaveError>)
      modifies this
      ensures r == SaveOutcome(payload, now)
      ensures r.Failure? ==> documents == old(documents) && writes == old(writes)
      ensures r.Success? ==> documents == old(documents)[r.value.docType := r.value] && writes == old(writes) + 1
      ensures r.Success? ==> r.value.docType in documents && documents[r.value.docType] == r.value
      ensures forall k :: k in old(documents) && Some(k) != payload.docType ==> k in documents && documents[k] == old(documents)[k]
      ensures replies == old(replies)
    {
      var checked := CheckPayload(payload);
      if checked.Failure? {
        return Failure(checked.error);
      }
      var encoded := "";
      match payload.data {
        case Text(t) =>
          encoded := t;
        case Binary(b) =>
          var buffer := new Byte[|b|](i requires 0 <= i < |b| => b[i]);
          assert buffer[..] == b;
          encoded := BufferToBase64(buffer);
        case Absent =>
      }
      var stored := GetDocuments();
      var doc := Doc(payload.docType.value, payload.fileName, payload.mimeType, checked.value, now, encoded);
      stored := stored[doc.docType := doc];
      documents := stored;
      writes := writes + 1;
      r := Success(doc);
    }

    /** `deleteDocument`: removes the key; storage is written only when the key was there. */
    method DeleteDocument(docType: string) returns (docs: map<string, Doc>)
      modifies this
      ensures documents == old(documents) - {docType} && docs == documents
      ensures writes == old(writes) + (if docType in old(documents) then 1 else 0)
      ensures replies == old(replies)
    {
      var stored := GetDocuments();
      if docType in stored {
        stored := stored - {docType};
        documents := stored;
        writes := writes + 1;
      }
      docs := stored;
    }

    /**
     * `attachDocumentToActiveTab`: 'No active tab' is reported before 'Document not found';
     * then the stored document is sent to the tab and the tab's answer returned. Thrown
     * errors are `Failure` with their message.
     */
    method AttachDocumentToActiveTab(docType: string, activeTab: Option<int>, deliver: (string, Doc) -> Delivery)
      returns (r: Result<Option<AttachResult>, string>)
      ensures (activeTab.None? || activeTab.value == 0) ==> r == Failure("No active tab")
      ensures activeTab.Some? && activeTab.value != 0 && docType !in documents ==> r == Failure("Document not found")
      ensures activeTab.Some? && activeTab.value != 0 && docType in documents ==>
        r == match deliver(docType, documents[docType])
             case Delivered(reply) => Success(reply)
             case DeliveryThrew(m) => Failure(m)
    {
      if activeTab.None? || activeTab.value == 0 {
        return Failure("No active tab");
      }
      var docs := GetDocuments();
      if docType !in docs {
        return Failure("Document not found");
      }
      match deliver(docType, docs[docType]) {
        case Delivered(reply) => r := Success(reply);
        case DeliveryThrew(m) => r := Failure(m);
      }
    }

    /**
     * The `onMessage` listener: exactly one reply per message, `ok: true` for the four
     * known requests when they succeed, and every thrown error turned into `ok: false`.
     */
    method OnMessage(request: Request, now: string, activeTab: Option<int>, deliver: (string, Doc) -> Delivery)
      modifies this
      ensures |replies| == |old(replies)| + 1 && replies[..|old(replies)|] == old(replies)
      ensures var reply := replies[|replies| - 1];
        match request
        case DocsList => reply == DocumentsReply(old(documents)) && documents == old(documents)
        case DocsSave(p) =>
          (match SaveOutcome(p, now)
           case Success(d) => reply == SavedReply(d) && documents == old(documents)[d.docType := d]
           case Failure(e) => reply == ErrorReply(e.Message()) && documents == old(documents))
        case DocsDelete(k) => reply == DocumentsReply(old(documents) - {k}) && documents == old(documents) - {k}
        case DocsAttach(k) =>
          && documents == old(documents)
          && (reply.Ok() <==> activeTab.Some? && activeTab.value != 0 && k in documents
                              && deliver(k, documents[k]).Delivered?)
          && ((activeTab.None? || activeTab.value == 0) ==> reply == ErrorReply("No active tab"))
          && (activeTab.Some? && activeTab.value != 0 && k !in documents ==> reply == ErrorReply("Document not found"))
          && (activeTab.Some? && activeTab.value != 0 && k in documents ==>
                reply == match deliver(k, documents[k])
                         case Delivered(result) => AttachReply(result)
                         case DeliveryThrew(m) => ErrorReply(ErrorText(m)))
        case OtherRequest => reply == ErrorReply("Unknown message type") && documents == old(documents)
      ensures replies[|replies| - 1].ErrorReply? ==> replies[|replies| - 1].error != ""
    {
      var reply: Response;
      match request {
        case DocsList =>
          var docs := GetDocuments();
          reply := DocumentsReply(docs);
        case DocsSave(p) =>
          var saved := SaveDocument(p, now);
          match saved {
            case Success(d) => reply := SavedReply(d);
            case Failure(e) => reply := ErrorReply(ErrorText(e.Message()));
          }
        case DocsDelete(k) =>
          var docs := DeleteDocument(k);
          reply := DocumentsReply(docs);
        case DocsAttach(k) =>
          var result := AttachDocumentToActiveTab(k, activeTab, deliver);
          match result {
            case Success(res) => reply := AttachReply(res);
            case Failure(m) => reply := ErrorReply(ErrorText(m));
          }
        case OtherRequest =>
          reply := ErrorReply("Unknown message type");
      }
      replies := replies + [reply];
    }
  }

  /** Deleting twice leaves the same mapping as deleting once. */
  lemma DeleteIdempotent(documents: map<string, Doc>, docType: string)
    ensures (documents - {docType}) - {docType} == documents - {docType}
    ensures docType !in documents ==> documents - {docType} == documents
  {
  }
}
