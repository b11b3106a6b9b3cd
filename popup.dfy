/**
 * The popup (popup.js): it validates a chosen file before it is saved, lists the enabled
 * profile links in their stored order, writes the order back after a drag, keeps the
 * list of document types in step with what the background worker stores, and reports the
 * outcome of an attach.
 */
module Popup {
  import opened Wrappers
  import opened JsString
  import opened StableSort
  import opened Documents
  import opened Messages
  import opened Links
  import Background

  /** `ALLOWED_EXTENSIONS` */
  const AllowedExtensions: seq<string> := ["pdf", "doc", "docx"]

  /** `name.split('.').pop()`: what follows the last '.', or the whole name when there is none. */
  function LastSegment(name: string): (seg: string)
    ensures |seg| <= |name| && seg == name[|name| - |seg|..]
    ensures forall i :: 0 <= i < |seg| ==> seg[i] != '.'
    ensures |seg| < |name| ==> name[|name| - |seg| - 1] == '.'
    decreases |name|
  {
    if name == [] then []
    else if name[|name| - 1] == '.' then []
    else LastSegment(name[..|name| - 1]) + [name[|name| - 1]]
  }

  /** The segment after the last dot of `base + "." + ext` is `ext`, whatever `base` holds. */
  lemma {:induction false} LastSegmentOfDotted(base: string, ext: string)
    requires forall i :: 0 <= i < |ext| ==> ext[i] != '.'
    ensures LastSegment(base + "." + ext) == ext
    decreases |ext|
  {
    var name := base + "." + ext;
    if ext == [] {
      assert name[|name| - 1] == '.';
    } else {
      assert name[..|name| - 1] == base + "." + ext[..|ext| - 1];
      LastSegmentOfDotted(base, ext[..|ext| - 1]);
      assert ext == ext[..|ext| - 1] + [ext[|ext| - 1]];
    }
  }

  /** The lower-cased extension `validateFile` compares. */
  function Extension(name: string): string {
    ToLower(LastSegment(name))
  }

  const UnsupportedFileType: string := "Unsupported file type. Use PDF or DOCX."
  const FileTooLarge: string := "File too large. Max 4MB."

  /**
   * `validateFile(file)`: `None` when it returns, `Some(message)` for the error it throws.
   * The type is rejected only when neither the extension nor the MIME type is allowed,
   * and it is checked before the size.
   */
  function ValidateFile(name: string, mimeType: string, size: nat): (r: Option<string>)
    ensures r == Some(UnsupportedFileType) <==> Extension(name) !in AllowedExtensions && mimeType !in AllowedMimeTypes
    ensures r == Some(FileTooLarge) <==>
      (Extension(name) in AllowedExtensions || mimeType in AllowedMimeTypes) && size > MaxFileSizeBytes
    ensures r.None? <==> (Extension(name) in AllowedExtensions || mimeType in AllowedMimeTypes) && size <= MaxFileSizeBytes
  {
    if Extension(name) !in AllowedExtensions && mimeType !in AllowedMimeTypes then Some(UnsupportedFileType)
    else if size > MaxFileSizeBytes then Some(FileTooLarge)
    else None
  }

  /** A file named `*.PDF` of exactly 4 MiB passes, whatever its MIME type. */
  lemma ValidateAcceptsPdfAtLimit(base: string, mimeType: string)
    ensures ValidateFile(base + ".PDF", mimeType, MaxFileSizeBytes).None?
  {
    LastSegmentOfDotted(base, "PDF");
    assert base + ".PDF" == base + "." + "PDF";
    LowerPdf();
  }

  lemma LowerPdf()
    ensures ToLower("PDF") == "pdf"
  {
    var e := ToLower("PDF");
    assert |e| == 3 && e[0] == 'p' && e[1] == 'd' && e[2] == 'f';
  }

  // ---- renderLinks: the links shown in the popup ----

  /** A stored standard link is shown when it is not disabled and has a URL. */
  predicate StandardListed(s: StandardSettings) {
    IsEnabled(s.enabled) && s.url != ""
  }

  function StandardItem(c: StandardConfig, s: StandardSettings): LinkItem {
    LinkItem(c.id, c.linkLabel, c.icon, s.favicon, s.url, true, StandardOrder(c, s), false)
  }

  /** A custom link is shown when it is not disabled and has a URL. */
  predicate CustomListed(l: CustomLink) {
    IsEnabled(l.enabled) && l.url != ""
  }

  /** The icon defaults to 'fa-link' and the order to 999. */
  function CustomItem(l: CustomLink): LinkItem {
    LinkItem(l.id, l.linkLabel, OrElse(l.icon, "fa-link"), l.faviconUrl, l.url, true, CustomOrder(l.order), true)
  }

  /** The standard links pushed, in configuration order. */
  function ListedStandard(ld: LinksData, cs: seq<StandardConfig>): seq<LinkItem>
    decreases |cs|
  {
    if cs == [] then []
    else
      var c := cs[|cs| - 1];
      ListedStandard(ld, cs[..|cs| - 1]) + (if StandardListed(Settings(ld, c.id)) then [StandardItem(c, Settings(ld, c.id))] else [])
  }

  /** The custom links pushed, in stored order. */
  function ListedCustom(ls: seq<CustomLink>): seq<LinkItem>
    decreases |ls|
  {
    if ls == [] then []
    else ListedCustom(ls[..|ls| - 1]) + (if CustomListed(ls[|ls| - 1]) then [CustomItem(ls[|ls| - 1])] else [])
  }

  /** `(a, b) => a.order - b.order` as a key. */
  function OrderKey(x: LinkItem): (int, int) {
    (x.order, 0)
  }

  function PopupCandidates(ld: LinksData): seq<LinkItem> {
    ListedStandard(ld, StandardLinks) + ListedCustom(ld.customLinks.GetOr([]))
  }

  /** The list `renderLinks` draws: every shown link, sorted by order. */
  function PopupLinks(ld: LinksData): seq<LinkItem> {
    Sort(PopupCandidates(ld), OrderKey)
  }

  /** `renderLinks(linksData)` up to drawing: push the shown standard links, then the shown custom links, then sort. */
  method RenderLinkList(ld: LinksData) returns (allLinks: seq<LinkItem>)
    ensures allLinks == PopupLinks(ld)
  {
    allLinks := [];
    for k := 0 to |StandardLinks|
      invariant allLinks == ListedStandard(ld, StandardLinks[..k])
    {
      var c := StandardLinks[k];
      var s := Settings(ld, c.id);
      assert StandardLinks[..k + 1][..k] == StandardLinks[..k];
      if IsEnabled(s.enabled) && s.url != "" {
        allLinks := allLinks + [StandardItem(c, s)];
      }
    }
    assert StandardLinks[..|StandardLinks|] == StandardLinks;
    if ld.customLinks.Some? {
      var customs := ld.customLinks.value;
      ghost var base := allLinks;
      for k := 0 to |customs|
        invariant allLinks == base + ListedCustom(customs[..k])
      {
        assert customs[..k + 1][..k] == customs[..k];
        if IsEnabled(customs[k].enabled) && customs[k].url != "" {
          allLinks := allLinks + [CustomItem(customs[k])];
        }
      }
      assert customs[..|customs|] == customs;
    } else {
      assert ListedCustom([]) == [];
    }
    assert allLinks == PopupCandidates(ld);
    allLinks := Sort(allLinks, OrderKey);
  }

  /** `x` is what `renderLinks` pushes for standard link `c`, and `c` is shown. */
  predicate StandardEntry(ld: LinksData, c: StandardConfig, x: LinkItem) {
    StandardListed(Settings(ld, c.id)) && x == StandardItem(c, Settings(ld, c.id))
  }

  /** `x` is what `renderLinks` pushes for custom link `l`, and `l` is shown. */
  predicate CustomEntry(l: CustomLink, x: LinkItem) {
    CustomListed(l) && x == CustomItem(l)
  }

  lemma {:induction false} ListedStandardIff(ld: LinksData, cs: seq<StandardConfig>, x: LinkItem)
    ensures x in ListedStandard(ld, cs) <==> exists c :: c in cs && StandardEntry(ld, c, x)
    decreases |cs|
  {
    if cs != [] {
      var init := cs[..|cs| - 1];
      var last := cs[|cs| - 1];
      ListedStandardIff(ld, init, x);
      assert cs == init + [last];
      var pushed := if StandardListed(Settings(ld, last.id)) then [StandardItem(last, Settings(ld, last.id))] else [];
      assert ListedStandard(ld, cs) == ListedStandard(ld, init) + pushed;
      if x in ListedStandard(ld, cs) {
        if x in ListedStandard(ld, init) {
          var c :| c in init && StandardEntry(ld, c, x);
          assert c in cs;
        } else {
          assert StandardEntry(ld, last, x);
        }
      }
      if exists c :: c in cs && StandardEntry(ld, c, x) {
        var c :| c in cs && StandardEntry(ld, c, x);
        if c !in init {
          assert c == last;
        }
      }
    }
  }

  lemma {:induction false} ListedCustomIff(ls: seq<CustomLink>, x: LinkItem)
    ensures x in ListedCustom(ls) <==> exists l :: l in ls && CustomEntry(l, x)
    decreases |ls|
  {
    if ls != [] {
      var init := ls[..|ls| - 1];
      var last := ls[|ls| - 1];
      ListedCustomIff(init, x);
      assert ls == init + [last];
      var pushed := if CustomListed(last) then [CustomItem(last)] else [];
      assert ListedCustom(ls) == ListedCustom(init) + pushed;
      if x in ListedCustom(ls) {
        if x in ListedCustom(init) {
          var l :| l in init && CustomEntry(l, x);
          assert l in ls;
        } else {
          assert CustomEntry(last, x);
        }
      }
      if exists l :: l in ls && CustomEntry(l, x) {
        var l :| l in ls && CustomEntry(l, x);
        if l !in init {
          assert l == last;
        }
      }
    }
  }

  lemma {:induction false} ListedStandardLength(ld: LinksData, cs: seq<StandardConfig>)
    ensures |ListedStandard(ld, cs)| <= |cs|
    decreases |cs|
  {
    if cs != [] {
      ListedStandardLength(ld, cs[..|cs| - 1]);
    }
  }

  lemma {:induction false} ListedCustomLength(ls: seq<CustomLink>)
    ensures |ListedCustom(ls)| <= |ls|
    decreases |ls|
  {
    if ls != [] {
      ListedCustomLength(ls[..|ls| - 1]);
    }
  }

  /**
   * A link is shown exactly when it is a standard link that is not disabled and has a URL,
   * or such a custom link, each with its defaults applied.
   */
  lemma PopupShowsExactly(ld: LinksData, x: LinkItem)
    ensures x in PopupLinks(ld) <==>
      || (exists c :: c in StandardLinks && StandardEntry(ld, c, x))
      || (exists l :: l in ld.customLinks.GetOr([]) && CustomEntry(l, x))
  {
    SortPermutes(PopupCandidates(ld), OrderKey);
    assert x in PopupLinks(ld) <==> x in multiset(PopupCandidates(ld));
    ListedStandardIff(ld, StandardLinks, x);
    ListedCustomIff(ld.customLinks.GetOr([]), x);
  }

  /** The shown list is in non-decreasing order, keeps the stored order among equal orders, and is a permutation of what was pushed. */
  lemma PopupOrdered(ld: LinksData)
    ensures forall i, j :: 0 <= i < j < |PopupLinks(ld)| ==> PopupLinks(ld)[i].order <= PopupLinks(ld)[j].order
    ensures forall o :: WithKey(PopupLinks(ld), OrderKey, (o, 0)) == WithKey(PopupCandidates(ld), OrderKey, (o, 0))
    ensures multiset(PopupLinks(ld)) == multiset(PopupCandidates(ld))
  {
    SortSorted(PopupCandidates(ld), OrderKey);
    SortPermutes(PopupCandidates(ld), OrderKey);
    forall o {
      SortStable(PopupCandidates(ld), OrderKey, (o, 0));
    }
  }

  /** At most the five standard links and every custom link. */
  lemma PopupLength(ld: LinksData)
    ensures |PopupLinks(ld)| <= 5 + |ld.customLinks.GetOr([])|
  {
    ListedStandardLength(ld, StandardLinks);
    ListedCustomLength(ld.customLinks.GetOr([]));
  }

  // ---- saveLinkOrder ----

  /** The index of the last occurrence of `x` in `s`: a later `forEach` write wins. */
  function LastIndex<T(==)>(s: seq<T>, x: T): (r: Option<nat>)
    ensures r.Some? ==> r.value < |s| && s[r.value] == x
    ensures r.Some? ==> forall k :: r.value < k < |s| ==> s[k] != x
    ensures r.None? ==> forall k :: 0 <= k < |s| ==> s[k] != x
    decreases |s|
  {
    if s == [] then None
    else if s[|s| - 1] == x then Some(|s| - 1)
    else LastIndex(s[..|s| - 1], x)
  }

  /** One displayed link element: `data-link-id` and whether `data-is-custom` is 'true'. */
  datatype Shown = Shown(linkId: string, isCustom: bool)

  /** The stored settings of standard link `id` once the displayed order is written. */
  function ReorderedSettings(links: LinksData, shown: seq<Shown>, id: string): StandardSettings {
    match LastIndex(shown, Shown(id, false))
    case Some(index) => Settings(links, id).(order := Some(index))
    case None => Settings(links, id)
  }

  /** Custom link `k` once the displayed order is written: only the first link with a displayed id moves. */
  function ReorderedCustom(cs: seq<CustomLink>, shown: seq<Shown>, k: nat): CustomLink
    requires k < |cs|
  {
    match LastIndex(shown, Shown(cs[k].id, true))
    case Some(index) => if FirstWithId(cs, cs[k].id) == Some(k) then cs[k].(order := Some(index)) else cs[k]
    case None => cs[k]
  }

  lemma LastIndexSnoc(s: seq<Shown>, index: nat, x: Shown)
    requires index < |s|
    ensures LastIndex(s[..index + 1], x) == if s[index] == x then Some(index) else LastIndex(s[..index], x)
  {
    assert s[..index + 1][..index] == s[..index];
  }

  /** The first loop of `saveLinkOrder`'s callback: `links[<id>_order] = index` for each displayed standard link. */
  method ReorderStandard(shown: seq<Shown>, links: LinksData) returns (standard: map<string, StandardSettings>)
    ensures forall id :: Settings(LinksData(standard, links.customLinks), id) == ReorderedSettings(links, shown, id)
  {
    standard := links.standard;
    for index := 0 to |shown|
      invariant forall id :: Settings(LinksData(standard, links.customLinks), id)
                             == ReorderedSettings(links, shown[..index], id)
    {
      ghost var before := standard;
      if !shown[index].isCustom {
        var id := shown[index].linkId;
        standard := standard[id := Settings(LinksData(standard, links.customLinks), id).(order := Some(index))];
      }
      forall id
        ensures Settings(LinksData(standard, links.customLinks), id) == ReorderedSettings(links, shown[..index + 1], id)
      {
        LastIndexSnoc(shown, index, Shown(id, false));
        assert Settings(LinksData(before, links.customLinks), id) == ReorderedSettings(links, shown[..index], id);
      }
    }
    assert shown[..|shown|] == shown;
  }

  /** The second loop: `customLink.order = index` for the first custom link matching each displayed custom link. */
  method ReorderCustom(shown: seq<Shown>, original: seq<CustomLink>) returns (cs: seq<CustomLink>)
    ensures |cs| == |original|
    ensures forall k :: 0 <= k < |original| ==> cs[k] == ReorderedCustom(original, shown, k)
  {
    cs := original;
    for index := 0 to |shown|
      invariant |cs| == |original|
      invariant forall k :: 0 <= k < |cs| ==> cs[k].id == original[k].id
      invariant forall k :: 0 <= k < |cs| ==> cs[k] == ReorderedCustom(original, shown[..index], k)
    {
      ghost var before := cs;
      if shown[index].isCustom {
        SameIdsSameFirst(cs, original, shown[index].linkId);
        var found := FirstWithId(cs, shown[index].linkId);
        if found.Some? {
          cs := cs[found.value := cs[found.value].(order := Some(index))];
        }
      }
      forall k | 0 <= k < |cs|
        ensures cs[k] == ReorderedCustom(original, shown[..index + 1], k)
      {
        LastIndexSnoc(shown, index, Shown(original[k].id, true));
        assert before[k] == ReorderedCustom(original, shown[..index], k);
      }
    }
    assert shown[..|shown|] == shown;
  }

  /**
   * The update `saveLinkOrder` applies to the stored links: each displayed standard link's
   * `<id>_order` becomes its position, each displayed custom link's first match gets its
   * position; everything else keeps its value.
   */
  method SaveLinkOrder(shown: seq<Shown>, links: LinksData) returns (updated: LinksData)
    ensures forall id :: Settings(updated, id) == ReorderedSettings(links, shown, id)
    ensures links.customLinks.None? <==> updated.customLinks.None?
    ensures links.customLinks.Some? ==>
      && |updated.customLinks.value| == |links.customLinks.value|
      && forall k :: 0 <= k < |links.customLinks.value| ==>
           updated.customLinks.value[k] == ReorderedCustom(links.customLinks.value, shown, k)
  {
    var standard := ReorderStandard(shown, links);
    updated := LinksData(standard, links.customLinks);
    if links.customLinks.Some? {
      var cs := ReorderCustom(shown, links.customLinks.value);
      updated := updated.(customLinks := Some(cs));
    }
  }

  /** Dragging never reorders or drops custom links: ids stay where they were. */
  lemma ReorderKeepsIds(cs: seq<CustomLink>, shown: seq<Shown>, k: nat)
    requires k < |cs|
    ensures ReorderedCustom(cs, shown, k).id == cs[k].id
    ensures ReorderedCustom(cs, shown, k).url == cs[k].url && ReorderedCustom(cs, shown, k).enabled == cs[k].enabled
  {
  }

  /**
   * A custom link dragged to the top is saved with order 0, and `order || 999` reads that
   * back as 999: the next render places it after every link with a smaller order.
   */
  lemma CustomAtTopReadsAsLast(cs: seq<CustomLink>, shown: seq<Shown>, k: nat)
    requires k < |cs| && FirstWithId(cs, cs[k].id) == Some(k)
    requires shown != [] && shown[0] == Shown(cs[k].id, true)
    requires forall j :: 0 < j < |shown| ==> shown[j] != shown[0]
    ensures ReorderedCustom(cs, shown, k).order == Some(0)
    ensures CustomItem(ReorderedCustom(cs, shown, k)).order == 999
  {
    assert LastIndex(shown, Shown(cs[k].id, true)) == Some(0);
  }

  // ---- loadDocuments ----

  /** `{ id, label, accept }` of a document card. */
  datatype DocumentType = DocumentType(id: string, title: string, accept: string)

  const ResumeType: DocumentType := DocumentType("resume", "Resume", ".pdf,.doc,.docx")

  /** `key === 'resume' || key.startsWith('resume-')` */
  predicate IsResumeKey(key: string) {
    key == "resume" || StartsWith(key, "resume-")
  }

  /** The popup's filter agrees with the background worker's `isSupportedDocType`. */
  lemma ResumeKeyIsSupported(key: string)
    ensures IsResumeKey(key) <==> Background.IsSupportedDocType(Some(key))
  {
    StartsWithIff(key, "resume-");
  }

  predicate HasId(types: seq<DocumentType>, id: string) {
    exists i :: 0 <= i < |types| && types[i].id == id
  }

  /** The document types after `storedKeys.forEach`: a card is appended for each new resume key, in key order. */
  function MergeDocTypes(types: seq<DocumentType>, keys: seq<string>): seq<DocumentType>
    decreases |keys|
  {
    if keys == [] then types
    else
      var before := MergeDocTypes(types, keys[..|keys| - 1]);
      var key := keys[|keys| - 1];
      if IsResumeKey(key) && !HasId(before, key) then before + [DocumentType(key, "Resume", ".pdf,.doc,.docx")] else before
  }

  predicate UniqueIds(types: seq<DocumentType>) {
    forall i, j :: 0 <= i < j < |types| ==> types[i].id != types[j].id
  }

  /**
   * Merging only appends: the existing types stay first and in order, every added type is
   * a resume key of the store, unique ids stay unique, and every stored resume key ends up
   * with a card.
   */
  lemma {:induction false} MergeDocTypesProps(types: seq<DocumentType>, keys: seq<string>)
    ensures var r := MergeDocTypes(types, keys);
      && |types| <= |r| && r[..|types|] == types
      && (forall i :: |types| <= i < |r| ==> IsResumeKey(r[i].id) && r[i].id in keys && r[i] == DocumentType(r[i].id, "Resume", ".pdf,.doc,.docx"))
      && (UniqueIds(types) ==> UniqueIds(r))
      && (forall k :: k in keys && IsResumeKey(k) ==> HasId(r, k))
    decreases |keys|
  {
    if keys != [] {
      var init := keys[..|keys| - 1];
      MergeDocTypesProps(types, init);
      var before := MergeDocTypes(types, init);
      var key := keys[|keys| - 1];
      var r := MergeDocTypes(types, keys);
      if IsResumeKey(key) && !HasId(before, key) {
        assert r == before + [DocumentType(key, "Resume", ".pdf,.doc,.docx")];
        assert r[..|types|] == before[..|types|];
        forall k | k in keys && IsResumeKey(k) ensures HasId(r, k) {
          if k == key {
            assert r[|r| - 1].id == k;
          } else {
            assert k in init;
            var i :| 0 <= i < |before| && before[i].id == k;
            assert r[i].id == k;
          }
        }
      } else {
        forall k | k in keys && IsResumeKey(k) ensures HasId(r, k) {
          if k != key {
            assert k in init;
          }
        }
      }
    }
  }

  /** The popup's document cards and the documents last listed by the background worker. */
  class DocumentsPanel {
    var documentTypes: seq<DocumentType>
    var documentsState: map<string, Doc>

    constructor ()
      ensures documentTypes == [ResumeType] && documentsState == map[]
    {
      documentTypes := [ResumeType];
      documentsState := map[];
    }

    /**
     * The `docs:list` callback of `loadDocuments`. `keys` is `Object.keys` of the listed
     * documents, in the order the engine lists them; a reply that is missing or not ok
     * changes nothing.
     */
    method LoadDocuments(response: Option<Response>, keys: seq<string>)
      requires response.Some? && response.value.Ok() ==>
        forall k :: k in keys <==> k in (if response.value.DocumentsReply? then response.value.documents else map[])
      modifies this
      ensures response.None? || !response.value.Ok() ==> documentTypes == old(documentTypes) && documentsState == old(documentsState)
      ensures response.Some? && response.value.Ok() ==>
        && documentsState == (if response.value.DocumentsReply? then response.value.documents else map[])
        && documentTypes == MergeDocTypes(old(documentTypes), keys)
      ensures |old(documentTypes)| <= |documentTypes| && documentTypes[..|old(documentTypes)|] == old(documentTypes)
      ensures forall i :: |old(documentTypes)| <= i < |documentTypes| ==>
        && IsResumeKey(documentTypes[i].id) && documentTypes[i].id in documentsState
        && documentTypes[i] == DocumentType(documentTypes[i].id, "Resume", ".pdf,.doc,.docx")
      ensures response.Some? && response.value.Ok() ==> forall k :: k in documentsState && IsResumeKey(k) ==> HasId(documentTypes, k)
      ensures UniqueIds(old(documentTypes)) ==> UniqueIds(documentTypes)
    {
      MergeDocTypesProps(documentTypes, keys);
      if response.None? || !response.value.Ok() {
        return;
      }
      documentsState := if response.value.DocumentsReply? then response.value.documents else map[];
      ghost var start := documentTypes;
      for k := 0 to |keys|
        invariant documentTypes == MergeDocTypes(start, keys[..k])
        invariant documentsState == (if response.value.DocumentsReply? then response.value.documents else map[])
      {
        assert keys[..k + 1][..k] == keys[..k];
        var key := keys[k];
        if key == "resume" || StartsWith(key, "resume-") {
          var found := false;
          for j := 0 to |documentTypes|
            invariant found <==> exists i :: 0 <= i < j && documentTypes[i].id == key
          {
            if documentTypes[j].id == key {
              found := true;
            }
          }
          if !found {
            documentTypes := documentTypes + [DocumentType(key, "Resume", ".pdf,.doc,.docx")];
          }
        }
      }
      assert keys[..|keys|] == keys;
    }
  }

  // ---- handleAttach: the status shown after an attach ----

  /** The status line: 'Attached to page' on success, otherwise an error message. */
  datatype Status = StatusLine(success: bool, message: string)

  /** `response?.ok && response.result?.ok`, then `response?.error || response?.result?.error || 'Unable to attach'`. */
  function AttachStatus(response: Option<Response>): (s: Status)
    ensures s.success <==> response.Some? && response.value.AttachReply? && response.value.result.Some? && response.value.result.value.Ok()
    ensures s.success ==> s.message == "Attached to page"
    ensures !s.success && response.Some? && response.value.ErrorReply? && response.value.error != "" ==> s.message == response.value.error
    ensures var failed := response.Some? && response.value.AttachReply? && response.value.result.Some? && response.value.result.value.AttachFailed?;
      failed && response.value.result.value.error != "" ==> s.message == response.value.result.value.error
    ensures var replyError := response.Some? && response.value.ErrorReply? && response.value.error != "";
      var resultError := response.Some? && response.value.AttachReply? && response.value.result.Some?
        && response.value.result.value.AttachFailed? && response.value.result.value.error != "";
      !s.success && !replyError && !resultError ==> s.message == "Unable to attach"
    ensures s.message != ""
  {
    match response
    case Some(AttachReply(Some(Attached(_)))) => StatusLine(true, "Attached to page")
    case Some(ErrorReply(e)) => StatusLine(false, OrElse(e, "Unable to attach"))
    case Some(AttachReply(Some(AttachFailed(e)))) => StatusLine(false, OrElse(e, "Unable to attach"))
    case _ => StatusLine(false, "Unable to attach")
  }
}
