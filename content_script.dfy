/**
 * The content script injected into pages (contentScript.js): it turns a stored document
 * back into bytes, drops it into the best upload field, fires the events a page listens
 * for, and consumes `pending_attachment_<id>` records found in local storage.
 */
module ContentScript {
  import opened Wrappers
  import opened JsString
  import opened Base64
  import opened Documents
  import opened Messages
  import opened FieldLocator

  /**
   * `base64ToArrayBuffer`: `atob`, then one byte per char code stored into a `Uint8Array`
   * (which keeps the low 8 bits). `None` is the `null` returned when `atob` throws.
   */
  method Base64ToArrayBuffer(base64: string) returns (r: Option<seq<Byte>>)
    ensures r == ForgivingDecode(base64)
  {
    ghost var decoded := ForgivingDecode(base64);
    var binary := Atob(base64);
    if binary.None? {
      return None;
    }
    ghost var b := decoded.value;
    var s := binary.value;
    assert s == BinaryString(b);
    var bytes := new Byte[|s|];
    var i := 0;
    while i < |s|
      invariant 0 <= i <= |s|
      invariant forall j :: 0 <= j < i ==> bytes[j] == b[j]
    {
      bytes[i] := (s[i] as int) % 256;
      i := i + 1;
    }
    assert bytes[..] == b;
    r := Some(bytes[..]);
  }

  /** The events `dispatchInputEvents` fires, all bubbling. */
  datatype PageEvent = InputEvent | ChangeEvent | BlurEvent

  /** One event fired at the element identified by `node`. */
  datatype Dispatched = Dispatched(node: nat, event: PageEvent)

  /** The `File` placed in the input: name, type, `lastModified` and contents. */
  datatype AttachedFile = AttachedFile(name: string, mimeType: string, lastModified: int, bytes: seq<Byte>)

  /** What `handleAttach` decides: an error, or a file for a target input. */
  datatype AttachPlan = Refuse(error: string) | Fill(target: FileInput, file: AttachedFile)

  /** input, change, then blur, in that order, at one element. */
  function InputEvents(node: nat): (es: seq<Dispatched>)
    ensures |es| == 3
    ensures forall i :: 0 <= i < 3 ==> es[i].node == node
    ensures es[0].event == InputEvent && es[1].event == ChangeEvent && es[2].event == BlurEvent
  {
    [Dispatched(node, InputEvent), Dispatched(node, ChangeEvent), Dispatched(node, BlurEvent)]
  }

  /**
   * `doc.updatedAt ? Date.parse(doc.updatedAt) || Date.now() : Date.now()`; `parseDate`
   * is `Date.parse`, `None` standing for NaN.
   */
  function LastModified(updatedAt: string, now: int, parseDate: string -> Option<int>): (t: int)
    ensures updatedAt == "" ==> t == now
    ensures updatedAt != "" && parseDate(updatedAt).Some? && parseDate(updatedAt).value != 0 ==> t == parseDate(updatedAt).value
    ensures updatedAt != "" && (parseDate(updatedAt).None? || parseDate(updatedAt).value == 0) ==> t == now
  {
    if updatedAt == "" then now
    else match parseDate(updatedAt)
      case Some(ms) => if ms != 0 then ms else now
      case None => now
  }

  /**
   * The decisions of `handleAttach(docType, doc)` on `page`: the three failures are
   * checked in a fixed order, and each one is reported only when the earlier checks pass.
   */
  function PlanAttach(doc: Option<Doc>, page: Node, docType: string, now: int, parseDate: string -> Option<int>): AttachPlan
  {
    if doc.None? || doc.value.data == "" then Refuse("Missing document data")
    else
      var target := FindBestInput(CollectFileInputs(page), docType);
      if target.None? then Refuse("No upload field detected")
      else match ForgivingDecode(doc.value.data)
        case None => Refuse("Invalid document payload")
        case Some(bytes) =>
          var name := if doc.value.fileName == "" then "document" else doc.value.fileName;
          Fill(target.value, AttachedFile(name, doc.value.mimeType, LastModified(doc.value.updatedAt, now, parseDate), bytes))
  }

  /** Each failure is reported exactly when the earlier checks pass and its own fails; a fill carries the decoded bytes. */
  lemma PlanAttachDecisions(doc: Option<Doc>, page: Node, docType: string, now: int, parseDate: string -> Option<int>)
    ensures var r := PlanAttach(doc, page, docType, now, parseDate);
      && (r == Refuse("Missing document data") <==> doc.None? || doc.value.data == "")
      && (r == Refuse("No upload field detected") <==>
        doc.Some? && doc.value.data != "" && FindBestInput(CollectFileInputs(page), docType).None?)
      && (r == Refuse("Invalid document payload") <==>
        && doc.Some? && doc.value.data != ""
        && FindBestInput(CollectFileInputs(page), docType).Some?
        && ForgivingDecode(doc.value.data).None?)
      && (r.Fill? ==>
        && doc.Some?
        && Some(r.target) == FindBestInput(CollectFileInputs(page), docType)
        && Some(r.file.bytes) == ForgivingDecode(doc.value.data)
        && r.file.name == (if doc.value.fileName == "" then "document" else doc.value.fileName)
        && r.file.mimeType == doc.value.mimeType
        && r.file.lastModified == LastModified(doc.value.updatedAt, now, parseDate))
  {
  }

  /** `{ok: false, error}` or `{ok: true, message: 'Attached <docType>'}`. */
  function ResultOf(plan: AttachPlan, docType: string): (r: AttachResult)
    ensures r.Ok() <==> plan.Fill?
    ensures r.Ok() ==> r.message == "Attached " + docType
    ensures !r.Ok() ==> r.error == plan.error
  {
    match plan
    case Refuse(e) => AttachFailed(e)
    case Fill(_, _) => Attached("Attached " + docType)
  }

  /** An attach succeeds exactly when the document has data, the page has an enabled file input and the data is base 64. */
  lemma AttachSucceedsIff(doc: Option<Doc>, page: Node, docType: string, now: int, parseDate: string -> Option<int>)
    ensures ResultOf(PlanAttach(doc, page, docType, now, parseDate), docType).Ok() <==>
      && doc.Some? && doc.value.data != ""
      && (exists x :: x in CollectFileInputs(page) && !x.disabled)
      && ForgivingDecode(doc.value.data).Some?
  {
    var inputs := CollectFileInputs(page);
    if exists x :: x in inputs && !x.disabled {
      var x :| x in inputs && !x.disabled;
      var i :| 0 <= i < |inputs| && inputs[i] == x;
      assert FindBestInput(inputs, docType).Some?;
    }
  }

  /**
   * The headline round trip: a document the background worker stored as the base 64 of
   * `bytes` lands in the page's best input as a file with exactly those bytes.
   */
  lemma AttachDeliversStoredBytes(doc: Doc, bytes: seq<Byte>, page: Node, docType: string, now: int, parseDate: string -> Option<int>)
    requires doc.data == Encode(bytes) && bytes != []
    requires FindBestInput(CollectFileInputs(page), docType).Some?
    ensures var plan := PlanAttach(Some(doc), page, docType, now, parseDate);
      plan.Fill? && plan.file.bytes == bytes
      && Some(plan.target) == FindBestInput(CollectFileInputs(page), docType)
      && ResultOf(plan, docType) == Attached("Attached " + docType)
  {
    DecodeEncode(bytes);
    EncodeLength(bytes);
  }

  /** `{type: 'docs:attach:response', attachmentId, ok, result, error}` */
  datatype AttachResponse = AttachResponse(attachmentId: string, ok: bool, result: Option<AttachResult>, error: Option<string>)

  /** The response `processAttachment` sends for one result; the error defaults to 'Attach failed'. */
  function ResponseFor(attachmentId: string, result: AttachResult): (m: AttachResponse)
    ensures m.attachmentId == attachmentId && m.ok == result.Ok()
    ensures m.ok ==> m.result == Some(result) && m.error.None?
    ensures !m.ok ==> m.result.None? && m.error.Some? && m.error.value != ""
    ensures !m.ok && result.error != "" ==> m.error == Some(result.error)
    ensures !m.ok && result.error == "" ==> m.error == Some("Attach failed")
  {
    if result.Ok() then AttachResponse(attachmentId, true, Some(result), None)
    else AttachResponse(attachmentId, false, None, Some(if result.error == "" then "Attach failed" else result.error))
  }

  /** The part of a page the script changes: the files of each input, the events fired, the messages sent. */
  datatype AgentState = AgentState(files: map<nat, AttachedFile>, events: seq<Dispatched>, outbox: seq<AttachResponse>)

  /** The effect of a plan on the page: on success the target holds the one file and has seen its three events. */
  function Apply(st: AgentState, plan: AttachPlan): AgentState {
    match plan
    case Refuse(_) => st
    case Fill(target, file) =>
      st.(files := st.files[target.node := file], events := st.events + InputEvents(target.node))
  }

  /** A stored `{docType, doc, timestamp}` record; `timestamp` is `None` when missing or zero. */
  datatype PendingRecord = PendingRecord(docType: string, doc: Option<Doc>, timestamp: Option<int>)

  /**
   * A value read from storage under a pending key: a record, `null` (whose fields cannot be
   * read), or some other primitive, truthy or not, whose fields are all `undefined`.
   */
  datatype StoredValue = Record(record: PendingRecord) | NullValue | Primitive(truthy: bool)

  /** A record to process, with the id taken from its key. */
  datatype Pending = Pending(id: string, record: PendingRecord)

  /** `processAttachment(id, data)` applied to a state: attach, then append the one response. */
  function ProcessStep(st: AgentState, page: Node, p: Pending, now: int, parseDate: string -> Option<int>): (r: AgentState)
    ensures r.outbox == st.outbox + [ResponseFor(p.id, ResultOf(PlanAttach(p.record.doc, page, p.record.docType, now, parseDate), p.record.docType))]
  {
    var plan := PlanAttach(p.record.doc, page, p.record.docType, now, parseDate);
    var after := Apply(st, plan);
    after.(outbox := after.outbox + [ResponseFor(p.id, ResultOf(plan, p.record.docType))])
  }

  /** One record's processing on `page`, at time `now`, with `Date.parse` as `parseDate`. */
  function Stepper(page: Node, now: int, parseDate: string -> Option<int>): (AgentState, Pending) -> AgentState {
    (st, p) => ProcessStep(st, page, p, now, parseDate)
  }

  /** `step` applied to each record in turn, first to last. */
  function Fold(st: AgentState, ps: seq<Pending>, step: (AgentState, Pending) -> AgentState): AgentState
    decreases |ps|
  {
    if ps == [] then st else step(Fold(st, ps[..|ps| - 1], step), ps[|ps| - 1])
  }

  lemma FoldSnoc(st: AgentState, ps: seq<Pending>, p: Pending, step: (AgentState, Pending) -> AgentState)
    ensures Fold(st, ps + [p], step) == step(Fold(st, ps, step), p)
  {
    assert (ps + [p])[..|ps|] == ps;
  }

  lemma FoldAppendShort(st: AgentState, a: seq<Pending>, b: seq<Pending>, step: (AgentState, Pending) -> AgentState)
    requires |b| <= 1
    ensures Fold(st, a + b, step) == Fold(Fold(st, a, step), b, step)
  {
    if b == [] {
      assert a + b == a;
    } else {
      FoldSnoc(st, a, b[0], step);
      FoldSnoc(Fold(st, a, step), [], b[0], step);
      assert b == [b[0]] && [] + [b[0]] == b;
    }
  }

  /** Processing a list of pending records one after the other. */
  function ProcessAll(st: AgentState, page: Node, ps: seq<Pending>, now: int, parseDate: string -> Option<int>): AgentState {
    Fold(st, ps, Stepper(page, now, parseDate))
  }

  lemma ProcessAllSnoc(st: AgentState, page: Node, ps: seq<Pending>, p: Pending, now: int, parseDate: string -> Option<int>)
    ensures ProcessAll(st, page, ps + [p], now, parseDate) == ProcessStep(ProcessAll(st, page, ps, now, parseDate), page, p, now, parseDate)
  {
    FoldSnoc(st, ps, p, Stepper(page, now, parseDate));
  }

  lemma AppendAssoc(a: seq<Pending>, b: seq<Pending>, c: seq<Pending>)
    ensures a + (b + c) == (a + b) + c
  {
    forall k | 0 <= k < |a| + |b| + |c|
      ensures (a + (b + c))[k] == ((a + b) + c)[k]
    {
    }
  }

  /** Processing a list and then at most one more record is processing the extended list. */
  lemma ProcessAllAppendShort(st: AgentState, page: Node, a: seq<Pending>, b: seq<Pending>, now: int, parseDate: string -> Option<int>)
    requires |b| <= 1
    ensures ProcessAll(st, page, a + b, now, parseDate) == ProcessAll(ProcessAll(st, page, a, now, parseDate), page, b, now, parseDate)
  {
    FoldAppendShort(st, a, b, Stepper(page, now, parseDate));
  }

  /** A step that sends exactly one message, carrying the record's id, after the earlier ones. */
  ghost predicate RespondsOnce(step: (AgentState, Pending) -> AgentState) {
    forall st: AgentState, p: Pending {:trigger step(st, p)} ::
      var r := step(st, p);
      |r.outbox| == |st.outbox| + 1 && r.outbox[..|st.outbox|] == st.outbox && r.outbox[|st.outbox|].attachmentId == p.id
  }

  lemma {:induction false} FoldOutbox(st: AgentState, ps: seq<Pending>, step: (AgentState, Pending) -> AgentState)
    requires RespondsOnce(step)
    ensures var r := Fold(st, ps, step);
      && |r.outbox| == |st.outbox| + |ps|
      && r.outbox[..|st.outbox|] == st.outbox
      && forall k :: 0 <= k < |ps| ==> r.outbox[|st.outbox| + k].attachmentId == ps[k].id
    decreases |ps|
  {
    if ps != [] {
      var init := ps[..|ps| - 1];
      FoldOutbox(st, init, step);
      var mid := Fold(st, init, step);
      var r := Fold(st, ps, step);
      assert r == step(mid, ps[|ps| - 1]);
      assert r.outbox[..|mid.outbox|] == mid.outbox;
      forall k | 0 <= k < |ps|
        ensures r.outbox[|st.outbox| + k].attachmentId == ps[k].id
      {
        if k < |ps| - 1 {
          assert init[k] == ps[k];
          assert r.outbox[|st.outbox| + k] == mid.outbox[|st.outbox| + k];
        }
      }
      assert r.outbox[..|st.outbox|] == mid.outbox[..|st.outbox|];
    }
  }

  /** Exactly one response per processed record, in order, carrying the record's id; earlier messages stay. */
  lemma ProcessAllOutbox(st: AgentState, page: Node, ps: seq<Pending>, now: int, parseDate: string -> Option<int>)
    ensures var r := ProcessAll(st, page, ps, now, parseDate);
      && |r.outbox| == |st.outbox| + |ps|
      && r.outbox[..|st.outbox|] == st.outbox
      && forall k :: 0 <= k < |ps| ==> r.outbox[|st.outbox| + k].attachmentId == ps[k].id
  {
    var step := Stepper(page, now, parseDate);
    forall s: AgentState, p: Pending
      ensures var r := step(s, p);
        |r.outbox| == |s.outbox| + 1 && r.outbox[..|s.outbox|] == s.outbox && r.outbox[|s.outbox|].attachmentId == p.id
    {
      assert step(s, p) == ProcessStep(s, page, p, now, parseDate);
    }
    FoldOutbox(st, ps, step);
  }

  const PendingPrefix: string := "pending_attachment_"

  /** `attachmentData.timestamp && Date.now() - attachmentData.timestamp < 30000` */
  predicate Fresh(rec: PendingRecord, now: int) {
    rec.timestamp.Some? && rec.timestamp.value != 0 && now - rec.timestamp.value < 30000
  }

  /** `key.replace('pending_attachment_', '')` */
  function AttachmentId(key: string): string {
    ReplaceFirst(key, PendingPrefix, "")
  }

  /**
   * The records the load scan processes, in key order: fresh records under pending keys.
   * Reading `timestamp` of a `null` value throws and ends the scan.
   */
  function DueOnLoad(entries: seq<(string, StoredValue)>, now: int): seq<Pending>
    decreases |entries|
  {
    if entries == [] then [] else ScanEntry(entries[0], now, DueOnLoad(entries[1..], now))
  }

  /** One key of the load scan, followed by the records due from the keys after it. */
  function ScanEntry(e: (string, StoredValue), now: int, rest: seq<Pending>): seq<Pending> {
    if !StartsWith(e.0, PendingPrefix) then rest
    else match e.1
      case NullValue => []
      case Primitive(_) => rest
      case Record(rec) => (if Fresh(rec, now) then [Pending(AttachmentId(e.0), rec)] else []) + rest
  }

  /** A key either ends the scan (a pending key holding `null`) or adds its own records in front of the rest. */
  lemma ScanEntrySplit(e: (string, StoredValue), now: int, rest: seq<Pending>)
    ensures StartsWith(e.0, PendingPrefix) && e.1.NullValue? ==> ScanEntry(e, now, rest) == []
    ensures |ScanEntry(e, now, [])| <= 1
    ensures !(StartsWith(e.0, PendingPrefix) && e.1.NullValue?) ==> ScanEntry(e, now, rest) == ScanEntry(e, now, []) + rest
  {
  }

  /** The load scan's records, split at key `i`: those before it, then its own, then those after it. */
  lemma DueOnLoadStep(entries: seq<(string, StoredValue)>, i: nat, now: int, done: seq<Pending>)
    requires i < |entries|
    requires DueOnLoad(entries, now) == done + DueOnLoad(entries[i..], now)
    ensures StartsWith(entries[i].0, PendingPrefix) && entries[i].1.NullValue? ==> DueOnLoad(entries, now) == done
    ensures !(StartsWith(entries[i].0, PendingPrefix) && entries[i].1.NullValue?) ==>
      DueOnLoad(entries, now) == (done + ScanEntry(entries[i], now, [])) + DueOnLoad(entries[i + 1..], now)
  {
    var rest := DueOnLoad(entries[i + 1..], now);
    DueOnLoadAt(entries, i, now);
    ScanEntrySplit(entries[i], now, rest);
    AppendAssoc(done, ScanEntry(entries[i], now, []), rest);
    assert done + [] == done;
  }

  /** A fresh record stored under a pending key. */
  predicate FreshPendingEntry(e: (string, StoredValue), now: int) {
    StartsWith(e.0, PendingPrefix) && e.1.Record? && Fresh(e.1.record, now)
  }

  /** One step of the load scan, seen from position `i`. */
  lemma DueOnLoadAt(entries: seq<(string, StoredValue)>, i: nat, now: int)
    requires i < |entries|
    ensures DueOnLoad(entries[i..], now) == ScanEntry(entries[i], now, DueOnLoad(entries[i + 1..], now))
  {
    assert entries[i..][1..] == entries[i + 1..];
  }

  /** Every record the load scan processes is fresh, and its key is the prefix followed by its id. */
  lemma {:induction false} DueOnLoadSound(entries: seq<(string, StoredValue)>, now: int)
    ensures forall p :: p in DueOnLoad(entries, now) ==>
      && Fresh(p.record, now)
      && (PendingPrefix + p.id, Record(p.record)) in entries
    decreases |entries|
  {
    if entries != [] {
      DueOnLoadSound(entries[1..], now);
      var key := entries[0].0;
      if StartsWith(key, PendingPrefix) {
        ReplacePrefix(PendingPrefix, key[|PendingPrefix|..]);
        assert PendingPrefix + key[|PendingPrefix|..] == key;
      }
    }
  }

  /** Unless a pending key holds `null`, every fresh record under a pending key is processed. */
  lemma {:induction false} DueOnLoadComplete(entries: seq<(string, StoredValue)>, now: int)
    requires forall i :: 0 <= i < |entries| && StartsWith(entries[i].0, PendingPrefix) ==> !entries[i].1.NullValue?
    ensures forall i :: 0 <= i < |entries| && FreshPendingEntry(entries[i], now) ==> Pending(AttachmentId(entries[i].0), entries[i].1.record) in DueOnLoad(entries, now)
    decreases |entries|
  {
    if entries != [] {
      DueOnLoadComplete(entries[1..], now);
      forall i | 0 < i < |entries|
        ensures entries[i] == entries[1..][i - 1]
      {
      }
    }
  }

  /** A change: the key and its `newValue`, `None` when the key was removed. */
  type Change = (string, Option<StoredValue>)

  /** `newValue` is truthy. */
  predicate Truthy(v: StoredValue) {
    v.Record? || (v.Primitive? && v.truthy)
  }

  /** What `const { docType, doc } = attachmentData` yields for a truthy value. */
  function AsRecord(v: StoredValue): PendingRecord {
    match v
    case Record(rec) => rec
    case _ => PendingRecord("undefined", None, None)
  }

  /** A pending key set to a truthy value. */
  predicate PendingSet(c: Change) {
    StartsWith(c.0, PendingPrefix) && c.1.Some? && Truthy(c.1.value)
  }

  /** The record one change asks to process, if any. */
  function ChangeEntry(c: Change): seq<Pending> {
    if PendingSet(c) then [Pending(AttachmentId(c.0), AsRecord(c.1.value))] else []
  }

  /** The records the change listener processes: every pending key whose new value is truthy, in key order. */
  function DueOnChange(changes: seq<Change>): seq<Pending>
    decreases |changes|
  {
    if changes == [] then [] else ChangeEntry(changes[0]) + DueOnChange(changes[1..])
  }

  /** The change listener's records, split at change `i`: those before it, then its own, then those after it. */
  lemma DueOnChangeStep(changes: seq<Change>, i: nat, done: seq<Pending>)
    requires i < |changes|
    requires DueOnChange(changes) == done + DueOnChange(changes[i..])
    ensures DueOnChange(changes) == (done + ChangeEntry(changes[i])) + DueOnChange(changes[i + 1..])
    ensures |ChangeEntry(changes[i])| <= 1
  {
    assert changes[i..][1..] == changes[i + 1..];
    AppendAssoc(done, ChangeEntry(changes[i]), DueOnChange(changes[i + 1..]));
  }

  /** The change listener processes exactly the pending keys that were set to a truthy value; removals are ignored. */
  lemma {:induction false} DueOnChangeIff(changes: seq<Change>)
    ensures forall p :: p in DueOnChange(changes) ==>
      exists v :: (PendingPrefix + p.id, Some(v)) in changes && Truthy(v) && p.record == AsRecord(v)
    ensures forall i :: 0 <= i < |changes| && PendingSet(changes[i]) ==> Pending(AttachmentId(changes[i].0), AsRecord(changes[i].1.value)) in DueOnChange(changes)
    decreases |changes|
  {
    if changes != [] {
      DueOnChangeIff(changes[1..]);
      var key := changes[0].0;
      if StartsWith(key, PendingPrefix) {
        ReplacePrefix(PendingPrefix, key[|PendingPrefix|..]);
        assert PendingPrefix + key[|PendingPrefix|..] == key;
      }
      forall i | 0 < i < |changes|
        ensures changes[i] == changes[1..][i - 1]
      {
      }
    }
  }

  /** The legacy runtime message: `{type: 'docs:attach', docType, doc}` or anything else. */
  datatype PageMessage = AttachMessage(docType: string, doc: Option<Doc>) | OtherMessage

  /**
   * One page's content script: the page's tree is fixed; the files held by its inputs, the
   * events fired, the responses sent to the background worker and the replies given to
   * direct messages change.
   */
  class PageAgent {
    const page: Node
    var files: map<nat, AttachedFile>
    var events: seq<Dispatched>
    var outbox: seq<AttachResponse>
    var replies: seq<AttachResult>

    constructor (page: Node)
      ensures this.page == page && files == map[] && events == [] && outbox == [] && replies == []
    {
      this.page := page;
      files, events, outbox, replies := map[], [], [], [];
    }

    function State(): AgentState
      reads this
    {
      AgentState(files, events, outbox)
    }

    /** `dispatchInputEvents`: 'input' and 'change' in a loop, then 'blur'. */
    method DispatchInputEvents(target: FileInput)
      modifies this
      ensures events == old(events) + InputEvents(target.node)
      ensures files == old(files) && outbox == old(outbox) && replies == old(replies)
    {
      var kinds := [InputEvent, ChangeEvent];
      for k := 0 to |kinds|
        invariant events == old(events) + seq(k, j requires 0 <= j < k => Dispatched(target.node, kinds[j]))
        invariant files == old(files) && outbox == old(outbox) && replies == old(replies)
      {
        events := events + [Dispatched(target.node, kinds[k])];
      }
      events := events + [Dispatched(target.node, BlurEvent)];
    }

    /** `handleAttach(docType, doc)`: checks, decodes, sets the target's files and fires its events. */
    method HandleAttach(docType: string, doc: Option<Doc>, now: int, parseDate: string -> Option<int>)
      returns (result: AttachResult)
      modifies this
      ensures result == ResultOf(PlanAttach(doc, page, docType, now, parseDate), docType)
      ensures State() == Apply(old(State()), PlanAttach(doc, page, docType, now, parseDate))
      ensures replies == old(replies)
    {
      if doc.None? || doc.value.data == "" {
        return AttachFailed("Missing document data");
      }
      var targetInput := FindBestInput(CollectFileInputs(page), docType);
      if targetInput.None? {
        return AttachFailed("No upload field detected");
      }
      var buffer := Base64ToArrayBuffer(doc.value.data);
      if buffer.None? {
        return AttachFailed("Invalid document payload");
      }
      var name := if doc.value.fileName == "" then "document" else doc.value.fileName;
      var file := AttachedFile(name, doc.value.mimeType, LastModified(doc.value.updatedAt, now, parseDate), buffer.value);
      files := files[targetInput.value.node := file];
      DispatchInputEvents(targetInput.value);
      result := Attached("Attached " + docType);
    }

    /** `processAttachment(attachmentId, attachmentData)`: one attach, then exactly one response. */
    method ProcessAttachment(attachmentId: string, data: PendingRecord, now: int, parseDate: string -> Option<int>)
      modifies this
      ensures State() == ProcessStep(old(State()), page, Pending(attachmentId, data), now, parseDate)
      ensures replies == old(replies)
    {
      var result := HandleAttach(data.docType, data.doc, now, parseDate);
      outbox := outbox + [ResponseFor(attachmentId, result)];
    }

    /** One key of the load scan: a fresh record under a pending key is processed; a `null` one stops the scan. */
    method ScanOne(e: (string, StoredValue), now: int, parseDate: string -> Option<int>) returns (stop: bool)
      modifies this
      ensures stop <==> StartsWith(e.0, PendingPrefix) && e.1.NullValue?
      ensures State() == ProcessAll(old(State()), page, ScanEntry(e, now, []), now, parseDate)
      ensures replies == old(replies)
    {
      if !StartsWith(e.0, PendingPrefix) {
        return false;
      }
      match e.1 {
        case NullValue =>
          return true;
        case Primitive(_) =>
          return false;
        case Record(rec) =>
          if Fresh(rec, now) {
            var p := Pending(AttachmentId(e.0), rec);
            ProcessAttachment(p.id, rec, now, parseDate);
            ProcessAllSnoc(old(State()), page, [], p, now, parseDate);
            assert [] + [p] == [p];
          }
          return false;
      }
    }

    /** The scan of all local storage when the script loads, for a visible page only. */
    method LoadScan(visible: bool, entries: seq<(string, StoredValue)>, now: int, parseDate: string -> Option<int>)
      modifies this
      ensures State() == if visible then ProcessAll(old(State()), page, DueOnLoad(entries, now), now, parseDate) else old(State())
      ensures replies == old(replies)
    {
      if !visible {
        return;
      }
      ghost var done: seq<Pending> := [];
      var i := 0;
      while i < |entries|
        invariant 0 <= i <= |entries|
        invariant DueOnLoad(entries, now) == done + DueOnLoad(entries[i..], now)
        invariant State() == ProcessAll(old(State()), page, done, now, parseDate)
        invariant replies == old(replies)
      {
        ghost var here := ScanEntry(entries[i], now, []);
        DueOnLoadStep(entries, i, now, done);
        ScanEntrySplit(entries[i], now, []);
        var stop := ScanOne(entries[i], now, parseDate);
        if stop {
          return;
        }
        ProcessAllAppendShort(old(State()), page, done, here, now, parseDate);
        done := done + here;
        i := i + 1;
      }
      assert entries[i..] == [];
      assert DueOnLoad(entries, now) == done;
    }

    /** One key of a storage change: a pending key set to a truthy value is processed while the page is visible. */
    method ChangeOne(c: Change, visible: bool, now: int, parseDate: string -> Option<int>)
      modifies this
      ensures State() == ProcessAll(old(State()), page, if visible then ChangeEntry(c) else [], now, parseDate)
      ensures replies == old(replies)
    {
      if StartsWith(c.0, PendingPrefix) {
        var attachmentId := AttachmentId(c.0);
        var newValue := c.1;
        if newValue.Some? && Truthy(newValue.value) && visible {
          var p := Pending(attachmentId, AsRecord(newValue.value));
          ProcessAttachment(attachmentId, AsRecord(newValue.value), now, parseDate);
          ProcessAllSnoc(old(State()), page, [], p, now, parseDate);
          assert [] + [p] == [p];
          return;
        }
      }
    }

    /** The `chrome.storage.onChanged` listener. */
    method OnStorageChanged(changes: seq<Change>, areaName: string, visible: bool, now: int, parseDate: string -> Option<int>)
      modifies this
      ensures State() == if areaName == "local" && visible then ProcessAll(old(State()), page, DueOnChange(changes), now, parseDate) else old(State())
      ensures replies == old(replies)
    {
      if areaName != "local" {
        return;
      }
      if !visible {
        return;
      }
      ghost var done: seq<Pending> := [];
      for i := 0 to |changes|
        invariant DueOnChange(changes) == done + DueOnChange(changes[i..])
        invariant State() == ProcessAll(old(State()), page, done, now, parseDate)
        invariant replies == old(replies)
      {
        ghost var here := ChangeEntry(changes[i]);
        DueOnChangeStep(changes, i, done);
        ChangeOne(changes[i], visible, now, parseDate);
        ProcessAllAppendShort(old(State()), page, done, here, now, parseDate);
        done := done + here;
      }
      assert changes[|changes|..] == [];
      assert DueOnChange(changes) == done;
    }

    /** The legacy `docs:attach` listener: attaches and answers once; other messages get no answer. */
    method OnRuntimeMessage(message: PageMessage, now: int, parseDate: string -> Option<int>) returns (keepOpen: bool)
      modifies this
      ensures keepOpen <==> message.AttachMessage?
      ensures message.AttachMessage? ==>
        && replies == old(replies) + [ResultOf(PlanAttach(message.doc, page, message.docType, now, parseDate), message.docType)]
        && State() == Apply(old(State()), PlanAttach(message.doc, page, message.docType, now, parseDate))
      ensures message.OtherMessage? ==> replies == old(replies) && State() == old(State())
    {
      if message.AttachMessage? {
        var result := HandleAttach(message.docType, message.doc, now, parseDate);
        replies := replies + [result];
        return true;
      }
      return false;
    }
  }
}
