/**
 * The link editor page (edit.js): its module-level state is the stored link data, the
 * list of custom links and the counter that names the next custom link. Loading,
 * listing, adding, deleting, toggling and clearing a favicon each update that state.
 */
module LinkEditor {
  import opened Wrappers
  import opened JsString
  import opened StableSort
  import opened Links

  const CustomPrefix: string := "custom_"

  /** `parseInt(link.id.replace('custom_', ''))`; `None` is NaN. */
  function ParsedId(l: CustomLink): Option<int> {
    ParseInt(ReplaceFirst(l.id, CustomPrefix, ""))
  }

  /** One step of `loadData`'s `forEach`: a parsed id at or above the counter moves it just past that id. */
  function Bump(next: int, parsed: Option<int>): (r: int)
    ensures r >= next
  {
    match parsed
    case Some(n) => if n >= next then n + 1 else next
    case None => next
  }

  /** The counter after visiting ids that parsed (or not) in order, starting from `start`. */
  function NextAfter(start: int, ids: seq<Option<int>>): int
    decreases |ids|
  {
    if ids == [] then start else Bump(NextAfter(start, ids[..|ids| - 1]), ids[|ids| - 1])
  }

  /** The parsed id of each link, in order. */
  function ParsedIds(links: seq<CustomLink>): (ids: seq<Option<int>>)
    ensures |ids| == |links|
    ensures forall i :: 0 <= i < |links| ==> ids[i] == ParsedId(links[i])
  {
    seq(|links|, i requires 0 <= i < |links| => ParsedId(links[i]))
  }

  /** `nextCustomId` after `loadData` has visited `links`, starting from `start`. */
  function NextIdAfter(start: int, links: seq<CustomLink>): int {
    NextAfter(start, ParsedIds(links))
  }

  /** Every custom id that parses is below `next`. */
  ghost predicate IdsBelow(links: seq<CustomLink>, next: int) {
    forall l :: l in links && ParsedId(l).Some? ==> ParsedId(l).value < next
  }

  lemma {:induction false} NextAfterProps(start: int, ids: seq<Option<int>>)
    ensures NextAfter(start, ids) >= start
    ensures forall i :: 0 <= i < |ids| && ids[i].Some? ==> ids[i].value < NextAfter(start, ids)
    ensures NextAfter(start, ids) == start || exists i :: 0 <= i < |ids| && ids[i] == Some(NextAfter(start, ids) - 1)
    decreases |ids|
  {
    if ids != [] {
      var init := ids[..|ids| - 1];
      NextAfterProps(start, init);
      var mid := NextAfter(start, init);
      var r := NextAfter(start, ids);
      assert r == Bump(mid, ids[|ids| - 1]);
      forall i | 0 <= i < |ids| && ids[i].Some?
        ensures ids[i].value < r
      {
        if i < |init| {
          assert init[i] == ids[i];
        }
      }
      if r != mid {
        assert ids[|ids| - 1] == Some(r - 1);
      } else if r != start {
        var i :| 0 <= i < |init| && init[i] == Some(mid - 1);
        assert ids[i] == init[i];
      }
    }
  }

  /**
   * The counter never decreases and ends above every numeric id; ids that parse to NaN
   * play no part (`NextAfterProps` adds that it is where it started or one past an id).
   */
  lemma NextIdAfterProps(start: int, links: seq<CustomLink>)
    ensures NextIdAfter(start, links) >= start
    ensures IdsBelow(links, NextIdAfter(start, links))
  {
    var ids := ParsedIds(links);
    var r := NextAfter(start, ids);
    assert NextIdAfter(start, links) == r;
    NextAfterProps(start, ids);
    forall l | l in links && ParsedId(l).Some?
      ensures ParsedId(l).value < r
    {
      var i :| 0 <= i < |links| && links[i] == l;
      assert ids[i] == ParsedId(l);
    }
  }

  /** The `forEach` of `loadData` over the stored custom links. */
  method ScanCustomIds(links: seq<CustomLink>, start: int) returns (next: int)
    ensures next == NextIdAfter(start, links)
  {
    next := start;
    ghost var ids := ParsedIds(links);
    for k := 0 to |links|
      invariant next == NextAfter(start, ids[..k])
    {
      assert ids[..k + 1][..k] == ids[..k];
      var idNum := ParseInt(ReplaceFirst(links[k].id, "custom_", ""));
      assert idNum == ids[k];
      if idNum.Some? && idNum.value >= next {
        next := idNum.value + 1;
      }
    }
    assert ids[..|links|] == ids;
  }

  /** Appending a link whose id parses to the counter keeps every id below the incremented counter. */
  lemma IdsBelowAppend(links: seq<CustomLink>, l: CustomLink, next: int)
    requires IdsBelow(links, next) && ParsedId(l) == Some(next)
    ensures IdsBelow(links + [l], next + 1)
  {
    forall x | x in links + [l] && ParsedId(x).Some?
      ensures ParsedId(x).value < next + 1
    {
      if x != l {
        assert x in links;
      }
    }
  }

  /** The link the add button creates while the counter is `n` and `count` custom links exist. */
  function NewCustomLink(n: nat, count: nat): CustomLink {
    CustomLink(CustomPrefix + NatToString(n), "Custom Link", "fa-link", "", "", Some(true), Some(999 + count))
  }

  /** The new link's id parses back to the counter it was made from. */
  lemma NewLinkParses(n: nat, count: nat)
    ensures ParsedId(NewCustomLink(n, count)) == Some(n)
  {
    ReplacePrefix(CustomPrefix, NatToString(n));
    ParseNatToString(n);
  }

  /** While every numeric id is below the counter, the id of a new link is not in use. */
  lemma NewIdIsFresh(links: seq<CustomLink>, n: nat, count: nat)
    requires IdsBelow(links, n)
    ensures forall l :: l in links ==> l.id != NewCustomLink(n, count).id
  {
    NewLinkParses(n, count);
  }

  /** `links.filter(link => link.id !== id)` */
  function WithoutId(links: seq<CustomLink>, id: string): (r: seq<CustomLink>)
    ensures |r| <= |links|
    decreases |links|
  {
    if links == [] then []
    else (if links[0].id == id then [] else [links[0]]) + WithoutId(links[1..], id)
  }

  /** Exactly the links with a different id remain. */
  lemma {:induction false} WithoutIdMembers(links: seq<CustomLink>, id: string)
    ensures forall l :: l in WithoutId(links, id) <==> l in links && l.id != id
    decreases |links|
  {
    if links != [] {
      WithoutIdMembers(links[1..], id);
      assert links == [links[0]] + links[1..];
    }
  }

  /** Filtering keeps the relative order: it distributes over concatenation. */
  lemma {:induction false} WithoutIdAppend(a: seq<CustomLink>, b: seq<CustomLink>, id: string)
    ensures WithoutId(a + b, id) == WithoutId(a, id) + WithoutId(b, id)
    decreases |a|
  {
    if a != [] {
      WithoutIdAppend(a[1..], b, id);
      assert (a + b)[1..] == a[1..] + b;
    } else {
      assert a + b == b;
    }
  }

  /** Deleting an id nobody has changes nothing, and deleting twice is deleting once. */
  lemma {:induction false} WithoutIdAbsent(links: seq<CustomLink>, id: string)
    requires forall l :: l in links ==> l.id != id
    ensures WithoutId(links, id) == links
    decreases |links|
  {
    if links != [] {
      WithoutIdAbsent(links[1..], id);
      assert links == [links[0]] + links[1..];
    }
  }

  lemma WithoutIdIdempotent(links: seq<CustomLink>, id: string)
    ensures WithoutId(WithoutId(links, id), id) == WithoutId(links, id)
  {
    WithoutIdMembers(links, id);
    WithoutIdAbsent(WithoutId(links, id), id);
  }

  // ---- renderLinks ----

  /** Every standard link is listed: enabled unless `<id>_enabled` is false, with its stored or default order. */
  function StandardEditorItem(c: StandardConfig, s: StandardSettings): LinkItem {
    LinkItem(c.id, c.linkLabel, c.icon, s.favicon, s.url, IsEnabled(s.enabled), StandardOrder(c, s), false)
  }

  /** Every custom link is listed, with the label 'Custom Link', icon 'fa-link' and order 999 by default. */
  function CustomEditorItem(l: CustomLink): LinkItem {
    LinkItem(l.id, OrElse(l.linkLabel, "Custom Link"), OrElse(l.icon, "fa-link"), l.faviconUrl, l.url,
             IsEnabled(l.enabled), CustomOrder(l.order), true)
  }

  function EditorStandard(ld: LinksData, cs: seq<StandardConfig>): (r: seq<LinkItem>)
    ensures |r| == |cs|
    ensures forall i :: 0 <= i < |cs| ==> r[i] == StandardEditorItem(cs[i], Settings(ld, cs[i].id))
  {
    seq(|cs|, i requires 0 <= i < |cs| => StandardEditorItem(cs[i], Settings(ld, cs[i].id)))
  }

  function EditorCustom(ls: seq<CustomLink>): (r: seq<LinkItem>)
    ensures |r| == |ls|
    ensures forall i :: 0 <= i < |ls| ==> r[i] == CustomEditorItem(ls[i])
  {
    seq(|ls|, i requires 0 <= i < |ls| => CustomEditorItem(ls[i]))
  }

  /** Enabled links first, then by `a.order - b.order`. */
  function EnabledKey(x: LinkItem): (int, int) {
    (if x.enabled then 0 else 1, x.order)
  }

  function EditorCandidates(ld: LinksData, customs: seq<CustomLink>): seq<LinkItem> {
    EditorStandard(ld, StandardLinks) + EditorCustom(customs)
  }

  /** The list the editor draws. */
  function EditorLinks(ld: LinksData, customs: seq<CustomLink>): seq<LinkItem> {
    Sort(EditorCandidates(ld, customs), EnabledKey)
  }

  /**
   * The editor lists all five standard links and every custom link, with no filtering; no
   * disabled link precedes an enabled one, and within one status the order does not
   * decrease.
   */
  lemma EditorLinksShape(ld: LinksData, customs: seq<CustomLink>)
    ensures var r := EditorLinks(ld, customs);
      && |r| == 5 + |customs|
      && multiset(r) == multiset(EditorCandidates(ld, customs))
      && (forall i, j :: 0 <= i < j < |r| ==> r[i].enabled || !r[j].enabled)
      && (forall i, j :: 0 <= i < j < |r| && r[i].enabled == r[j].enabled ==> r[i].order <= r[j].order)
  {
    var cands := EditorCandidates(ld, customs);
    SortPermutes(cands, EnabledKey);
    SortSorted(cands, EnabledKey);
    var r := EditorLinks(ld, customs);
    forall i, j | 0 <= i < j < |r|
      ensures r[i].enabled || !r[j].enabled
      ensures r[i].enabled == r[j].enabled ==> r[i].order <= r[j].order
    {
      assert KeyLe(EnabledKey(r[i]), EnabledKey(r[j]));
    }
  }

  /** Every standard link appears in the list, with its stored settings or their defaults. */
  lemma EditorListsStandard(ld: LinksData, customs: seq<CustomLink>)
    ensures forall c :: c in StandardLinks ==> StandardEditorItem(c, Settings(ld, c.id)) in EditorLinks(ld, customs)
  {
    var cands := EditorCandidates(ld, customs);
    SortPermutes(cands, EnabledKey);
    var st := EditorStandard(ld, StandardLinks);
    forall c | c in StandardLinks
      ensures StandardEditorItem(c, Settings(ld, c.id)) in EditorLinks(ld, customs)
    {
      var i :| 0 <= i < |StandardLinks| && StandardLinks[i] == c;
      assert cands[i] == st[i];
      assert cands[i] in multiset(cands);
    }
  }

  /** Every custom link appears in the list, with its defaults applied. */
  lemma EditorListsCustom(ld: LinksData, customs: seq<CustomLink>)
    ensures forall l :: l in customs ==> CustomEditorItem(l) in EditorLinks(ld, customs)
  {
    var cands := EditorCandidates(ld, customs);
    SortPermutes(cands, EnabledKey);
    var st := EditorStandard(ld, StandardLinks);
    var cu := EditorCustom(customs);
    forall l | l in customs
      ensures CustomEditorItem(l) in EditorLinks(ld, customs)
    {
      var i :| 0 <= i < |customs| && customs[i] == l;
      assert cands[|st| + i] == cu[i];
      assert cands[|st| + i] in multiset(cands);
    }
  }

  /** Nothing but standard and custom links appears in the list. */
  lemma EditorListsOnlyLinks(ld: LinksData, customs: seq<CustomLink>)
    ensures forall x :: x in EditorLinks(ld, customs) ==>
      || (exists c :: c in StandardLinks && x == StandardEditorItem(c, Settings(ld, c.id)))
      || (exists l :: l in customs && x == CustomEditorItem(l))
  {
    var cands := EditorCandidates(ld, customs);
    SortPermutes(cands, EnabledKey);
    var st := EditorStandard(ld, StandardLinks);
    forall x | x in EditorLinks(ld, customs)
      ensures || (exists c :: c in StandardLinks && x == StandardEditorItem(c, Settings(ld, c.id)))
              || (exists l :: l in customs && x == CustomEditorItem(l))
    {
      assert x in multiset(cands);
      var i :| 0 <= i < |cands| && cands[i] == x;
      if i < |st| {
        assert StandardLinks[i] in StandardLinks;
      } else {
        assert customs[i - |st|] in customs;
      }
    }
  }

  /** Every standard link and every custom link appears in the list, with its defaults applied, and nothing else does. */
  lemma EditorLinksContents(ld: LinksData, customs: seq<CustomLink>)
    ensures forall c :: c in StandardLinks ==> StandardEditorItem(c, Settings(ld, c.id)) in EditorLinks(ld, customs)
    ensures forall l :: l in customs ==> CustomEditorItem(l) in EditorLinks(ld, customs)
    ensures forall x :: x in EditorLinks(ld, customs) ==>
      || (exists c :: c in StandardLinks && x == StandardEditorItem(c, Settings(ld, c.id)))
      || (exists l :: l in customs && x == CustomEditorItem(l))
  {
    EditorListsStandard(ld, customs);
    EditorListsCustom(ld, customs);
    EditorListsOnlyLinks(ld, customs);
  }

  // ---- the toggle and blur handlers ----

  /** `customLinks.find(cl => cl.id === id).enabled = checked`, when there is such a link. */
  function SetCustomEnabled(links: seq<CustomLink>, id: string, checked: bool): seq<CustomLink> {
    match FirstWithId(links, id)
    case Some(k) => links[k := links[k].(enabled := Some(checked))]
    case None => links
  }

  /** `customLinks.find(cl => cl.id === id).faviconUrl = null`, when there is such a link. */
  function ClearCustomFavicon(links: seq<CustomLink>, id: string): seq<CustomLink> {
    match FirstWithId(links, id)
    case Some(k) => links[k := links[k].(faviconUrl := "")]
    case None => links
  }

  /** `linksData[id + '_enabled'] = checked` */
  function SetStandardEnabled(ld: LinksData, id: string, checked: bool): LinksData {
    ld.(standard := ld.standard[id := Settings(ld, id).(enabled := Some(checked))])
  }

  /** `linksData[id + '_favicon'] = null` */
  function ClearStandardFavicon(ld: LinksData, id: string): LinksData {
    ld.(standard := ld.standard[id := Settings(ld, id).(favicon := "")])
  }

  /** A custom toggle touches the enabled flag of the first link with that id and nothing else. */
  lemma SetCustomEnabledOnly(links: seq<CustomLink>, id: string, checked: bool)
    ensures var r := SetCustomEnabled(links, id, checked);
      && |r| == |links|
      && (forall k :: 0 <= k < |links| && FirstWithId(links, id) != Some(k) ==> r[k] == links[k])
      && (forall k :: 0 <= k < |links| && FirstWithId(links, id) == Some(k) ==>
            r[k] == links[k].(enabled := Some(checked)) && IsEnabled(r[k].enabled) == checked)
  {
  }

  /** A blank URL clears the favicon of the first custom link with that id and nothing else. */
  lemma ClearCustomFaviconOnly(links: seq<CustomLink>, id: string)
    ensures var r := ClearCustomFavicon(links, id);
      && |r| == |links|
      && (forall k :: 0 <= k < |links| && FirstWithId(links, id) != Some(k) ==> r[k] == links[k])
      && (forall k :: 0 <= k < |links| && FirstWithId(links, id) == Some(k) ==> r[k] == links[k].(faviconUrl := ""))
  {
  }

  /** A standard toggle changes only that link's enabled flag; re-rendered, the link shows the new status. */
  lemma SetStandardEnabledShown(ld: LinksData, customs: seq<CustomLink>, i: nat, checked: bool)
    requires i < |StandardLinks|
    ensures var id := StandardLinks[i].id;
      var r := SetStandardEnabled(ld, id, checked);
      && r.customLinks == ld.customLinks
      && (forall other :: other != id ==> Settings(r, other) == Settings(ld, other))
      && Settings(r, id) == Settings(ld, id).(enabled := Some(checked))
      && StandardEditorItem(StandardLinks[i], Settings(r, id)) in EditorLinks(r, customs)
      && StandardEditorItem(StandardLinks[i], Settings(r, id)).enabled == checked
  {
    var id := StandardLinks[i].id;
    EditorLinksContents(SetStandardEnabled(ld, id, checked), customs);
    assert StandardLinks[i] in StandardLinks;
  }

  lemma ClearStandardFaviconOnly(ld: LinksData, id: string)
    ensures var r := ClearStandardFavicon(ld, id);
      && r.customLinks == ld.customLinks
      && (forall other :: other != id ==> Settings(r, other) == Settings(ld, other))
      && Settings(r, id) == Settings(ld, id).(favicon := "")
  {
  }

  /** The editor's module-level state. */
  class Editor {
    var linksData: LinksData
    var customLinks: seq<CustomLink>
    var nextCustomId: int

    /** The counter is positive and above every numeric custom id, so a new id is always fresh. */
    ghost predicate Valid()
      reads this
    {
      nextCustomId >= 1 && IdsBelow(customLinks, nextCustomId)
    }

    constructor ()
      ensures Valid()
      ensures linksData == LinksData(map[], None) && customLinks == [] && nextCustomId == 1
    {
      linksData := LinksData(map[], None);
      customLinks := [];
      nextCustomId := 1;
    }

    /** The `loadData` callback: keep the data, take its custom links when it has an array, and move the counter past their ids. */
    method LoadData(data: LinksData)
      requires Valid()
      modifies this
      ensures Valid()
      ensures linksData == data
      ensures data.customLinks.Some? ==>
        customLinks == data.customLinks.value && nextCustomId == NextIdAfter(old(nextCustomId), customLinks)
      ensures data.customLinks.None? ==> customLinks == old(customLinks) && nextCustomId == old(nextCustomId)
      ensures nextCustomId >= old(nextCustomId)
    {
      linksData := data;
      if data.customLinks.Some? {
        customLinks := data.customLinks.value;
        ghost var start := nextCustomId;
        nextCustomId := ScanCustomIds(customLinks, nextCustomId);
        NextIdAfterProps(start, customLinks);
      }
    }

    /** `renderLinks` up to drawing: push all standard links, then all custom links, then sort enabled first. */
    method RenderLinks() returns (allLinks: seq<LinkItem>)
      ensures allLinks == EditorLinks(linksData, customLinks)
    {
      allLinks := [];
      for k := 0 to |StandardLinks|
        invariant allLinks == EditorStandard(linksData, StandardLinks[..k])
      {
        var c := StandardLinks[k];
        var s := Settings(linksData, c.id);
        allLinks := allLinks + [StandardEditorItem(c, s)];
      }
      assert StandardLinks[..|StandardLinks|] == StandardLinks;
      ghost var base := allLinks;
      for k := 0 to |customLinks|
        invariant allLinks == base + EditorCustom(customLinks[..k])
      {
        allLinks := allLinks + [CustomEditorItem(customLinks[k])];
      }
      assert customLinks[..|customLinks|] == customLinks;
      allLinks := Sort(allLinks, EnabledKey);
    }

    /** The add button: one new link named after the counter, which then moves up by one. */
    method AddCustomLink()
      requires Valid()
      modifies this
      ensures Valid()
      ensures customLinks == old(customLinks) + [NewCustomLink(old(nextCustomId), |old(customLinks)|)]
      ensures nextCustomId == old(nextCustomId) + 1 && linksData == old(linksData)
      ensures forall l :: l in old(customLinks) ==> l.id != customLinks[|customLinks| - 1].id
    {
      var newLink := CustomLink("custom_" + NatToString(nextCustomId), "Custom Link", "fa-link", "", "", Some(true), Some(999 + |customLinks|));
      assert newLink == NewCustomLink(nextCustomId, |customLinks|);
      NewIdIsFresh(customLinks, nextCustomId, |customLinks|);
      NewLinkParses(nextCustomId, |customLinks|);
      IdsBelowAppend(customLinks, newLink, nextCustomId);
      nextCustomId := nextCustomId + 1;
      customLinks := customLinks + [newLink];
    }

    /** `deleteCustomLink(linkId)` */
    method DeleteCustomLink(linkId: string)
      requires Valid()
      modifies this
      ensures Valid()
      ensures customLinks == WithoutId(old(customLinks), linkId)
      ensures linksData == old(linksData) && nextCustomId == old(nextCustomId)
    {
      WithoutIdMembers(customLinks, linkId);
      customLinks := WithoutId(customLinks, linkId);
    }

    /** The enable toggle's change handler, up to saving and drawing. */
    method Toggle(linkId: string, isCustom: bool, checked: bool)
      requires Valid()
      modifies this
      ensures Valid()
      ensures isCustom ==> customLinks == SetCustomEnabled(old(customLinks), linkId, checked) && linksData == old(linksData)
      ensures !isCustom ==> linksData == SetStandardEnabled(old(linksData), linkId, checked) && customLinks == old(customLinks)
      ensures nextCustomId == old(nextCustomId)
    {
      if isCustom {
        var found := FirstWithId(customLinks, linkId);
        if found.Some? {
          var k := found.value;
          customLinks := customLinks[k := customLinks[k].(enabled := Some(checked))];
          assert forall l :: l in customLinks ==> l in old(customLinks) || l == customLinks[k];
          assert ParsedId(customLinks[k]) == ParsedId(old(customLinks)[k]);
        }
      } else {
        linksData := linksData.(standard := linksData.standard[linkId := Settings(linksData, linkId).(enabled := Some(checked))]);
      }
    }

    /**
     * The URL field's blur handler: an empty (after trimming) URL clears that link's
     * favicon; a non-empty one starts a favicon fetch, which is not part of this model.
     */
    method OnUrlBlur(linkId: string, isCustom: bool, value: string)
      requires Valid()
      modifies this
      ensures Valid()
      ensures IsBlank(value) && isCustom ==> customLinks == ClearCustomFavicon(old(customLinks), linkId) && linksData == old(linksData)
      ensures IsBlank(value) && !isCustom ==> linksData == ClearStandardFavicon(old(linksData), linkId) && customLinks == old(customLinks)
      ensures !IsBlank(value) ==> customLinks == old(customLinks) && linksData == old(linksData)
      ensures nextCustomId == old(nextCustomId)
    {
      if IsBlank(value) {
        if isCustom {
          var found := FirstWithId(customLinks, linkId);
          if found.Some? {
            var k := found.value;
            customLinks := customLinks[k := customLinks[k].(faviconUrl := "")];
            assert forall l :: l in customLinks ==> l in old(customLinks) || l == customLinks[k];
            assert ParsedId(customLinks[k]) == ParsedId(old(customLinks)[k]);
          }
        } else {
          linksData := linksData.(standard := linksData.standard[linkId := Settings(linksData, linkId).(favicon := "")]);
        }
      }
    }
  }
}
