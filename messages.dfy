/** The shapes of the replies exchanged between the popup, the background worker and the content script. */
module Messages {
  import opened Wrappers
  import opened Documents

  /** What the content script's `handleAttach` resolves to: `{ok: true, message}` or `{ok: false, error}`. */
  datatype AttachResult = Attached(message: string) | AttachFailed(error: string) {
    predicate Ok() { Attached? }
  }

  /** The background worker's reply to one runtime message. */
  datatype Response =
    | DocumentsReply(documents: map<string, Doc>)  // {ok: true, documents}
    | SavedReply(doc: Doc)                          // {ok: true, doc}
    | AttachReply(result: Option<AttachResult>)     // {ok: true, result}; None when the tab sent nothing back
    | ErrorReply(error: string)                     // {ok: false, error}
  {
    predicate Ok() { !ErrorReply? }
  }
}
