/** The stored document record and the limits both the background worker and the popup enforce. */
module Documents {

  /** A stored document, as `saveDocument` writes it (background.js:52-59). `data` is text: base 64 or the caller's string. */
  datatype Doc = Doc(docType: string, fileName: string, mimeType: string, size: int, updatedAt: string, data: string)

  /** 4 MiB: the largest accepted file size; the comparison is a strict `>`. */
  const MaxFileSizeBytes: int := 4 * 1024 * 1024

  /** PDF, Word 97-2003 and Word OOXML. */
  const AllowedMimeTypes: seq<string> := [
    "application/pdf",
    "application/msword",
    "application/vnd.openxmlformats-officedocument.wordprocessingml.document"
  ]
}
