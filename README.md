# Résumé documents and profile links: a verified model

The browser extension keeps résumé documents and a set of profile links in browser
storage. It can also drop a stored document into a page's file-upload field. This project
models the logic under the browser plumbing, in four parts:

- **The background service worker** (`background.js`, module `Background`). The document
  store is a class holding the `documents` mapping. It validates and saves documents keyed
  by type and deletes them. Every runtime message gets exactly one reply. The stored bytes
  are base 64 (module `Base64`: RFC 4648 section 4 encoding, and the forgiving decoding
  that `atob` performs).
- **The content script** (`contentScript.js`, modules `FieldLocator` and `ContentScript`).
  - It collects the page's file inputs across shadow roots and scores them.
  - It picks the best enabled input, with ties going to the earliest.
  - It decodes the document, runs `handleAttach`'s ordered error checks, and fires input,
    change and blur at the target.
  - It consumes `pending_attachment_<id>` records, both on load and when storage changes.
- **The popup** (`popup.js`, module `Popup`).
  - It validates a chosen file.
  - It lists the enabled profile links sorted by order, and writes the order back after a
    drag.
  - It appends newly stored résumé types to its document cards.
  - It turns an attach reply into a status line.
- **The link editor** (`edit.js`, module `LinkEditor`). A class holds the page's
  module-level `linksData`, `customLinks` and `nextCustomId`. Loading, adding, deleting,
  toggling and clearing a favicon update that state. The editor's list shows every link,
  enabled ones first.

Shared pieces:
- `Links`: the standard-link table and the stored link settings.
- `Documents` and `Messages`: the stored document and the reply shapes.
- `JsString`: the JavaScript string built-ins used, namely `startsWith`, `includes`,
  `replace`, `toLowerCase`, `trim`, `parseInt` and number-to-string.
- `StableSort`: `Array.prototype.sort`, which is stable. It is written as an insertion
  sort by an integer-pair key, because every comparator in the extension compares such a key.

JavaScript values follow a few conventions:
- A missing, `null` or empty string is `""`.
- A flag tested with `!== false` is an `Option<bool>`.
- An order tested with `!== undefined` is an `Option<int>`.
- `null` results are `None`.
- Thrown errors are `Failure` values or error strings.

Browser calls become parameters or state:
- The clock and `Date.parse` are parameters.
- The active tab and the tab's answer are parameters.
- Storage is a field.
- Sent messages are appended to a field.

## Model

| member | source | states |
|---|---|---|
| Background.IsSupportedDocType | background.js:9-11 | true exactly for the string "resume" and for every "resume-" followed by any suffix; false for a non-string |
| Background.EffectiveSize | background.js:35 | the numeric `size` when given, otherwise the buffer's byte length, otherwise the string's length, otherwise 0 |
| Background.CheckPayload | background.js:29-41 | each error is reported exactly when every earlier check passes and its own check fails, in the order unsupported type, missing name or data, size over 4 MiB, MIME not allowed; on success the size is at most 4 MiB, so exactly 4 MiB is accepted, and an empty MIME type is accepted |
| Background.SaveOutcome | background.js:27-62 | a save fails exactly when the checks fail |
| Background.SavedDocFields | background.js:43-62 | the saved document carries the requested type, name and MIME type, the effective size and the save time; string data is stored verbatim and bytes as their base 64 |
| Background.SavedBytesDecode | background.js:43-49 | a binary upload is stored as text that decodes back to exactly the uploaded bytes |
| Background.BufferToBase64 | background.js:18-25 | the result is the RFC 4648 base 64 of the buffer, 4·⌈n/3⌉ characters long, and decodes back to the buffer; the popup's `arrayBufferToBase64` (popup.js:472-479) is the same loop and shares this member |
| Background.ErrorText | background.js:125 | the reply's error is the thrown message, or 'Unknown error' when that is empty; never empty |
| Background.DocumentStore.GetDocuments | background.js:13-16 | returns the stored mapping |
| Background.DocumentStore.SaveDocument | background.js:27-63 | the result is the save outcome; a rejected save neither changes nor writes the mapping; an accepted one writes once, replaces only its own key and returns the stored entry; every other key keeps its document |
| Background.DocumentStore.DeleteDocument | background.js:65-72 | removes only the key, writes only when the key was present, and returns the new mapping |
| Background.DeleteIdempotent | background.js:65-72 | deleting twice leaves the same mapping as deleting once, and deleting an absent key changes nothing |
| Background.DocumentStore.AttachDocumentToActiveTab | background.js:74-94 | 'No active tab' comes before 'Document not found'; otherwise the result is what the tab answers for the stored document |
| Background.DocumentStore.OnMessage | background.js:96-129 | exactly one reply per message; list, save, delete and attach succeed with the documents, the saved doc, the new mapping or the tab's answer; an attach reports 'No active tab' before 'Document not found', otherwise replies with the tab's answer, or with the thrown message or 'Unknown error'; a failed save replies with its error; any other type replies 'Unknown message type'; error replies are never empty |
| Base64.EncodeLength | popup.js:472-479 | the encoding is 4·⌈n/3⌉ characters long |
| Base64.DecodeEncode | contentScript.js:87-99 | `Base64.Encode` is `btoa` on bytes and `Base64.ForgivingDecode` is `atob` on bytes; decoding the encoding of any bytes gives back exactly those bytes |
| Base64.AtobBtoa | contentScript.js:89 | `Base64.Btoa` and `Base64.Atob` are the string functions; `atob(btoa(s)) == s` for every binary string |
| Base64.Atob | contentScript.js:89 | a successful decode is a binary string, with every char code below 256 |
| JsString.ReplacePrefix | contentScript.js:137 | replacing a leading prefix by '' leaves the rest of the key |
| JsString.ParseNatToString | edit.js:333 | `parseInt` is `JsString.ParseInt`; `parseInt` of a counter written in decimal gives the counter back |
| StableSort.SortPermutes | popup.js:79 | sorting permutes the list |
| StableSort.SortSorted | popup.js:79 | the sorted list is non-decreasing in the comparator's key |
| StableSort.SortStable | edit.js:122-129 | items with equal keys keep their relative order (the sort is stable) |
| FieldLocator.CollectedOnce | contentScript.js:30-39 | `collectFileInputs` is `FieldLocator.CollectFileInputs`; every file input of the page and of every nested shadow tree is collected exactly once |
| FieldLocator.KeywordPoints | contentScript.js:52-56 | a multiple of 5, at most 5 per keyword, and 0 exactly when no keyword occurs |
| FieldLocator.KeywordPointsCount | contentScript.js:52-56 | the points are exactly 5 times the number of keywords found in the text |
| FieldLocator.ScoreInput | contentScript.js:41-68 | the score lies in 0..20; a keyword is worth at least 5 and visibility 3; without a keyword the score is 2 for 'upload' or 'attachment' plus 3 if visible |
| FieldLocator.ScoreIgnoresDocType | contentScript.js:41-43 | the score does not depend on the requested document type |
| FieldLocator.KeywordDominates | contentScript.js:52-65 | among inputs of equal visibility, one naming a keyword beats one naming none |
| FieldLocator.Candidates | contentScript.js:72-74 | empty exactly when every input is disabled; each entry is an enabled input of the page with its own score |
| FieldLocator.CandidatesComplete | contentScript.js:72-74 | every enabled input is a candidate, with its score |
| FieldLocator.PickBest | contentScript.js:72-77 | none exactly when every input is disabled; the pick is an enabled input whose score is at least every enabled input's score |
| FieldLocator.PickIsEarliestTop | contentScript.js:73-77 | the pick is an enabled top-scoring input with no enabled top-scoring input before it in collection order |
| FieldLocator.FindBestInput | contentScript.js:70-78 | `findBestInput` returns null exactly when no enabled input exists; the result is enabled and has the top score |
| FieldLocator.BestIsEarliestTop | contentScript.js:73-77 | ties between top scores go to the earliest collected input: the result is enabled and top-scoring, and no enabled top-scoring input comes before it |
| ContentScript.Base64ToArrayBuffer | contentScript.js:87-99 | returns null for input `atob` rejects, and otherwise the decoded bytes |
| ContentScript.InputEvents | contentScript.js:80-85 | three events at the target: input, change, blur, in that order |
| ContentScript.LastModified | contentScript.js:120 | the parsed `updatedAt` when present and not NaN or 0, otherwise the current time |
| ContentScript.PlanAttachDecisions | contentScript.js:101-121 | `handleAttach` up to the DOM writes is `ContentScript.PlanAttach`; 'Missing document data', 'No upload field detected', 'Invalid document payload' are each reported exactly when the earlier checks pass and their own fails; on success the best input receives the decoded bytes, named `fileName` or 'document', typed `mimeType` |
| ContentScript.ResultOf | contentScript.js:103-128 | ok exactly when the attach goes ahead, with the message 'Attached <docType>'; otherwise the error of the failed check |
| ContentScript.AttachSucceedsIff | contentScript.js:101-128 | an attach succeeds exactly when the document has data, the page has an enabled file input and the data is valid base 64 |
| ContentScript.AttachDeliversStoredBytes | contentScript.js:111-128 | a document stored as the base 64 of some bytes lands in the best input as a file holding exactly those bytes, and the attach reports success |
| ContentScript.ResponseFor | contentScript.js:174-180 | the response carries the attachment id and `ok`; the result only on success; on failure a non-empty error, the result's error or 'Attach failed' |
| ContentScript.ProcessStep | contentScript.js:166-180 | processing one record appends exactly one response for it |
| ContentScript.ProcessAllOutbox | contentScript.js:135-144 | `ContentScript.ProcessAll` processes records one after another; processing records sends one response per record, in order, each carrying its record's id, and keeps earlier messages |
| ContentScript.DueOnLoadSound | contentScript.js:135-143 | the load scan processes only fresh records (timestamp present and less than 30 s old) stored under the `pending_attachment_` prefix followed by their id |
| ContentScript.DueOnLoadComplete | contentScript.js:135-143 | unless a pending key holds null, every fresh record under a pending key is processed with the key minus the prefix as its id |
| ContentScript.DueOnChangeIff | contentScript.js:153-163 | the change listener processes exactly the pending keys whose new value is truthy; removals are ignored |
| ContentScript.PageAgent.DispatchInputEvents | contentScript.js:80-85 | appends input, change, blur at the target to the event trace and changes nothing else |
| ContentScript.PageAgent.HandleAttach | contentScript.js:101-129 | returns the planned result; the page changes only on success, where the target holds the file and has seen its three events |
| ContentScript.PageAgent.ProcessAttachment | contentScript.js:166-189 | one attach, then exactly one response for that attachment id |
| ContentScript.PageAgent.ScanOne | contentScript.js:135-142 | one key of the load scan: a pending key holding null stops the scan (reading its timestamp throws); otherwise a fresh pending record is processed and anything else is skipped; no reply is sent |
| ContentScript.PageAgent.LoadScan | contentScript.js:132-146 | on a visible page, processes exactly the due records in key order; on a hidden page, changes nothing |
| ContentScript.PageAgent.ChangeOne | contentScript.js:153-161 | one changed key: on a visible page a pending key with a truthy new value is processed; anything else changes nothing |
| ContentScript.PageAgent.OnStorageChanged | contentScript.js:149-164 | ignores areas other than 'local' and hidden pages; otherwise processes exactly the due changes in key order |
| ContentScript.PageAgent.OnRuntimeMessage | contentScript.js:191-201 | 'docs:attach' attaches, answers exactly once and keeps the channel open; other messages get no answer and change nothing |
| Links.StandardOrder | popup.js:44 | the stored `<id>_order` when defined, else the default order |
| Links.CustomOrder | popup.js:71 | `order || 999`: a missing order and an order of 0 both become 999 |
| Links.FirstWithId | popup.js:302 | `find` by id: the first custom link with that id, or none when no link has it |
| Popup.LastSegment | popup.js:453 | the text after the last '.', or the whole name when there is none |
| Popup.LastSegmentOfDotted | popup.js:453 | the extension of `base.ext` is `ext`, whatever `base` holds |
| Popup.ValidateFile | popup.js:452-460 | 'Unsupported file type' exactly when neither the lower-cased extension nor the MIME type is allowed; otherwise 'File too large' exactly when the size is over 4 MiB; accepted otherwise |
| Popup.ValidateAcceptsPdfAtLimit | popup.js:452-460 | a '.PDF' file of exactly 4 MiB is accepted, whatever its MIME type |
| Popup.RenderLinkList | popup.js:34-79 | the pushes and sort of `renderLinks` yield the popup's link list |
| Popup.ListedStandardIff | popup.js:41-59 | a standard link is pushed exactly when it is not disabled and has a URL, with its stored or default order |
| Popup.ListedCustomIff | popup.js:62-76 | a custom link is pushed exactly when it is not disabled and has a URL, with icon 'fa-link' and order 999 by default |
| Popup.PopupShowsExactly | popup.js:41-79 | the popup list is `Popup.PopupLinks`; a link is shown exactly when it is such a standard or custom link |
| Popup.PopupOrdered | popup.js:79 | the shown links are in non-decreasing order, links with equal order keep their push order, and the list is a permutation of what was pushed |
| Popup.PopupLength | popup.js:41-79 | at most 5 plus the number of custom links are shown |
| Popup.LastIndex | popup.js:288-294 | the last position of an element, so a later write wins |
| Popup.ReorderStandard | popup.js:288-294 | each displayed standard link's `<id>_order` becomes its (last) position; every other setting is kept |
| Popup.ReorderCustom | popup.js:297-308 | the first custom link matching each displayed custom link takes its position; the others keep their order |
| Popup.SaveLinkOrder | popup.js:285-311 | both loops together: standard orders as above; custom links updated only when the stored list is an array |
| Popup.ReorderKeepsIds | popup.js:297-308 | writing the order never changes a custom link's id, URL or enabled flag |
| Popup.CustomAtTopReadsAsLast | popup.js:296-308 | a custom link dragged to position 0 is saved with order 0, which `order || 999` (popup.js:71) reads back as 999, so on the next render it sorts with order 999 |
| Popup.ResumeKeyIsSupported | popup.js:528 | the popup's key filter agrees with the worker's supported-type predicate |
| Popup.MergeDocTypesProps | popup.js:528-533 | `storedKeys.forEach` is `Popup.MergeDocTypes`; the merge only appends: existing types stay first and in order; each added type is a stored résumé key; unique ids stay unique; every stored résumé key ends up with a card |
| Popup.DocumentsPanel.LoadDocuments | popup.js:524-533 | an ok reply replaces the documents and merges their keys into the types: existing types stay first and in order, each added card is a stored résumé key, every stored résumé key has a card, and unique ids stay unique; a missing or failed reply changes nothing |
| Popup.AttachStatus | popup.js:512-522 | success exactly when the reply and its result are ok; otherwise the reply's error, else the result's error, else 'Unable to attach' |
| LinkEditor.Bump | edit.js:34-38 | one step of the counter never lowers it |
| LinkEditor.NextAfterProps | edit.js:32-40 | the counter never decreases, ends above every parsed id, and is either where it started or one past a parsed id |
| LinkEditor.NextIdAfterProps | edit.js:32-40 | after loading, the counter is at least its start and above every numeric `custom_N` suffix; ids that parse to NaN play no part |
| LinkEditor.ScanCustomIds | edit.js:33-39 | the `forEach` loop computes the counter of the stored links |
| LinkEditor.IdsBelowAppend | edit.js:331-342 | appending the link named after the counter keeps every id below the incremented counter |
| LinkEditor.NewLinkParses | edit.js:331-334 | the new id 'custom_N' parses back to N |
| LinkEditor.NewIdIsFresh | edit.js:331-342 | a new link's id is not used by any existing link |
| LinkEditor.WithoutIdMembers | edit.js:346-348 | the `filter` is `LinkEditor.WithoutId`; exactly the links with a different id remain |
| LinkEditor.WithoutIdAppend | edit.js:347 | filtering keeps relative order (it distributes over concatenation) |
| LinkEditor.WithoutIdAbsent | edit.js:346-348 | deleting an id no link has changes nothing |
| LinkEditor.WithoutIdIdempotent | edit.js:346-348 | deleting twice is deleting once |
| LinkEditor.EditorStandard | edit.js:88-105 | one entry per standard link, in table order, with its defaults |
| LinkEditor.EditorCustom | edit.js:108-119 | one entry per custom link, in stored order, with its defaults |
| LinkEditor.EditorLinksShape | edit.js:81-129 | the editor list is `LinkEditor.EditorLinks`; 5 plus the number of custom links, a permutation of what was pushed; no disabled link precedes an enabled one, and orders do not decrease within one status |
| LinkEditor.EditorListsStandard | edit.js:88-105 | every standard link is listed with its stored or default settings |
| LinkEditor.EditorListsCustom | edit.js:108-119 | every custom link is listed with its defaults |
| LinkEditor.EditorListsOnlyLinks | edit.js:88-119 | every listed entry is a standard or a custom link |
| LinkEditor.EditorLinksContents | edit.js:88-119 | every standard and custom link is listed with its defaults, and nothing else is |
| LinkEditor.SetCustomEnabledOnly | edit.js:189-193 | a custom toggle changes only the enabled flag of the first link with that id |
| LinkEditor.SetStandardEnabledShown | edit.js:194-200 | a standard toggle changes only that link's enabled setting, and the re-rendered list shows its new status |
| LinkEditor.ClearCustomFaviconOnly | edit.js:258-262 | a blank URL clears only the favicon of the first custom link with that id |
| LinkEditor.ClearStandardFaviconOnly | edit.js:263-264 | a blank URL clears only that standard link's favicon |
| LinkEditor.Editor.constructor | edit.js:10-12 | empty data, no custom links, counter 1 |
| LinkEditor.Editor.LoadData | edit.js:26-40 | keeps the data; takes its custom links when they are an array and moves the counter past their numeric ids; keeps the counter above every id |
| LinkEditor.Editor.RenderLinks | edit.js:81-129 | the pushes and sort of `renderLinks` yield the editor's list |
| LinkEditor.Editor.AddCustomLink | edit.js:331-342 | appends exactly one link 'custom_<counter>', enabled, with an empty URL and order 999 plus the previous count; the counter rises by exactly 1; the new id is fresh |
| LinkEditor.Editor.DeleteCustomLink | edit.js:346-350 | the custom links become those with a different id, in their order; nothing else changes |
| LinkEditor.Editor.Toggle | edit.js:189-196 | sets the enabled flag of the custom link or the standard `<id>_enabled`; nothing else changes |
| LinkEditor.Editor.OnUrlBlur | edit.js:207-268 | a blank URL clears that link's favicon; otherwise the state is unchanged |

## Left out

- DOM rendering, cards, drag and drop, toasts, the clipboard and the name field are page UI. This includes `createLinkItem`, `renderAllDocCards`, `updateDocCardState` and `setDocStatus`. Only the data they are given is modelled.
- `chrome.storage`, `chrome.runtime`, `chrome.tabs` and `chrome.scripting` are browser APIs. Storage is a class field or a parameter. A sent message is a value appended to a field, or a returned value. Delivery, `chrome.runtime.lastError` and message ordering between contexts are not modelled.
- `isElementVisible` and `getLabelText` depend on layout and computed style. They are the fields `visible` and `labelText` of a file input.
- The element order of `querySelectorAll('*')` is not modelled separately. The node tree is in document order: each element, its light children, then its shadow root.
- `Date.now`, `Date.parse` and `toISOString` are parameters. Each event handler reads the clock once.
- `File`, `DataTransfer` and `FileReader` are foreign. The attached file is a record with name, type, `lastModified` and bytes.
- `formatBytes` and `formatDate` use floating point and the locale.
- `fetchFavicon`, `fetchMissingFavicons` and the non-blank branch of the URL blur handler need the URL constructor and the network.
- `debounce`, `autoSave`, and the unused top-level block at the end of edit.js read the DOM or use timers.
- Nothing shown writes `pending_attachment_` records, runs their timeout or removes them. The consumer handles the same id again if both the load scan and the change listener see it. The model makes no at-most-once claim.
- `handleAttach` in the content script accepts `doc.data` as a string only. A stored document's data is always text. The ArrayBuffer and typed-array branch (contentScript.js:111-113) is not modelled.
- ContentScript.PageAgent.ProcessAttachment: the `catch` branch is not modelled. The modelled `handleAttach` never throws.
- ContentScript.AsRecord: a truthy non-object value is read as a record with docType "undefined" and no document. A record's `timestamp` is taken as a number: `None` when missing, a string or NaN is not modelled.
- Strings are sequences of `char`, not UTF-16 code units. `toLowerCase` maps ASCII letters only. `atob` and `btoa` follow RFC 4648 section 4 with the forgiving-decode rules for whitespace and padding.
- Orders and sizes are integers. NaN orders, non-integer numbers and a `null` `<id>_order` are not modelled.
- `Object.keys` order is a parameter: the key sequence in `LoadDocuments`, and the entry order of the load scan and the change listener.
- The link editor's `linksData.customLinks` and `customLinks` refer to the same array after loading. The model keeps them as two values. A toggle or a blur changes `customLinks` only, and `linksData` keeps the copy it was loaded with.
- Popup.SaveLinkOrder: the first `forEach` over the elements, which fills `dataToSave`, is not modelled. That object is never used.
- LinkEditor.NextIdAfterProps: the link-level lemma states that the counter does not decrease and ends above every numeric id. That it ends exactly one past some id, or where it started, is proved on the parsed ids by LinkEditor.NextAfterProps.
- Every message handler runs to completion before the next one starts. In the worker, `saveDocument` and `deleteDocument` read the mapping, wait, then write all of it back (background.js:51-61, 65-72). Two overlapping requests can therefore lose one write. The "every other key keeps its document" clause of `Background.DocumentStore.SaveDocument` holds only for requests that run one at a time.
- The custom-link counter is an unbounded integer. In the source it is a double (edit.js:32-40, 333). Past 2^53, `idNum + 1` rounds back to the same value, so a new id can repeat an existing one. From 10^21 up, the number prints in exponent form. `LinkEditor.NewIdIsFresh` and `JsString.ParseNatToString` hold for the unbounded counter only.
- A 'docs:save' message without a `payload` throws a TypeError at the destructuring on background.js:28. The source replies `ok: false` with the engine's message. `Background.Request.DocsSave` always carries a payload, so that reply is not modelled.
- Document keys are looked up as own keys of the stored mapping. The source reads them from a plain object (`stored[docType]`), so a name inherited from the object prototype, such as "constructor" or "toString", is truthy there. `deleteDocument` then writes, and `attachDocumentToActiveTab` passes its 'Document not found' check. Only a crafted runtime message can send such a name.
- The page's reaction to the dispatched input, change and blur events is not modelled. `ContentScript.PageAgent` keeps the page tree fixed across every attach of one load scan or change batch. In the source, the page's own handlers may change the DOM before the next `findBestInput`.
