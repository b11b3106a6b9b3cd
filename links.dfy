/**
 * The profile links both pages read from sync storage (popup.js:6-12, edit.js:2-8): five
 * standard links, whose settings live under `<id>`, `<id>_enabled`, `<id>_order` and
 * `<id>_favicon`, and a list of custom links.
 */
module Links {
  import opened Wrappers

  /** `{ id, label, icon, defaultOrder }` of one standard link. */
  datatype StandardConfig = StandardConfig(id: string, linkLabel: string, icon: string, defaultOrder: int)

  /** `standardLinks`, in the order `for ... in` visits its keys. */
  const StandardLinks: seq<StandardConfig> := [
    StandardConfig("website", "Website", "fa-globe", 1),
    StandardConfig("linkedin", "LinkedIn", "fa-linkedin", 2),
    StandardConfig("medium", "Medium", "fa-medium", 3),
    StandardConfig("twitter", "Twitter", "fa-twitter", 4),
    StandardConfig("github", "GitHub", "fa-github", 5)
  ]

  /**
   * The stored values of one standard link: `<id>` (`""` when missing or falsy),
   * `<id>_enabled` and `<id>_order` (`None` when undefined), `<id>_favicon` (`""` when
   * missing or null).
   */
  datatype StandardSettings = StandardSettings(url: string, enabled: Option<bool>, order: Option<int>, favicon: string)

  /** A stored custom link; flags and order are `None` when undefined, strings `""` when missing. */
  datatype CustomLink = CustomLink(
    id: string, linkLabel: string, icon: string, faviconUrl: string, url: string,
    enabled: Option<bool>, order: Option<int>)

  /** The object read from sync storage: standard settings by link id, and `customLinks` when it is an array. */
  datatype LinksData = LinksData(standard: map<string, StandardSettings>, customLinks: Option<seq<CustomLink>>)

  /** The settings of a standard link; a link never stored has none of its keys. */
  function Settings(ld: LinksData, id: string): (s: StandardSettings)
    ensures id !in ld.standard ==> s == StandardSettings("", None, None, "")
  {
    if id in ld.standard then ld.standard[id] else StandardSettings("", None, None, "")
  }

  /** `flag !== false`: only an explicit `false` disables. */
  predicate IsEnabled(flag: Option<bool>) {
    flag != Some(false)
  }

  /** `order !== undefined ? order : defaultOrder` */
  function StandardOrder(c: StandardConfig, s: StandardSettings): (n: int)
    ensures s.order.None? ==> n == c.defaultOrder
    ensures s.order.Some? ==> n == s.order.value
  {
    s.order.GetOr(c.defaultOrder)
  }

  /** `order || 999`: a missing order and an order of 0 both become 999. */
  function CustomOrder(order: Option<int>): (n: int)
    ensures order.None? || order == Some(0) ==> n == 999
    ensures order.Some? && order.value != 0 ==> n == order.value
  {
    if order.None? || order.value == 0 then 999 else order.value
  }

  /** `s || fallback` for a string. */
  function OrElse(s: string, fallback: string): (r: string)
    ensures s != "" ==> r == s
    ensures s == "" ==> r == fallback
  {
    if s == "" then fallback else s
  }

  /** A link as the pages list it; the popup's links are all enabled. */
  datatype LinkItem = LinkItem(
    id: string, linkLabel: string, icon: string, faviconUrl: string, url: string,
    enabled: bool, order: int, isCustom: bool)

  /** `links.find(cl => cl.id === id)`, as the index of the first custom link with that id. */
  function FirstWithId(links: seq<CustomLink>, id: string): (r: Option<nat>)
    ensures r.Some? ==> r.value < |links| && links[r.value].id == id
    ensures r.Some? ==> forall k :: 0 <= k < r.value ==> links[k].id != id
    ensures r.None? ==> forall k :: 0 <= k < |links| ==> links[k].id != id
    decreases |links|
  {
    if links == [] then None
    else if links[0].id == id then Some(0)
    else match FirstWithId(links[1..], id)
      case None => None
      case Some(k) => Some(k + 1)
  }

  /** Lists with the same ids position by position find the same link. */
  lemma SameIdsSameFirst(a: seq<CustomLink>, b: seq<CustomLink>, id: string)
    requires |a| == |b| && forall k :: 0 <= k < |a| ==> a[k].id == b[k].id
    ensures FirstWithId(a, id) == FirstWithId(b, id)
  {
    var ra := FirstWithId(a, id);
    var rb := FirstWithId(b, id);
    if ra.Some? {
      assert b[ra.value].id == id;
    }
    if rb.Some? {
      assert a[rb.value].id == id;
    }
  }
}
