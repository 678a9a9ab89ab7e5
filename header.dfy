/**
 * The navigation bar of the `Header` component (src/index.tsx:44-51, 116-141).
 * Each nav item renders as a link whose class is `active`, and whose
 * `aria-current` is `page`, exactly when it is the active section.
 */
module Header {
  import opened Wrappers
  import opened Sections

  datatype NavItem = NavItem(id: SectionId, text: string)

  /** The navigation items, in order; the hero section has no item. */
  const NavItems: seq<NavItem> := [
    NavItem(About, "About"),
    NavItem(Skills, "Skills"),
    NavItem(Experience, "Experience"),
    NavItem(Projects, "Projects"),
    NavItem(Contact, "Contact")
  ]

  /** The attributes of one rendered nav link. */
  datatype NavLink = NavLink(href: string, className: string, ariaCurrent: Option<string>, text: string)

  function RenderLink(item: NavItem, activeSection: SectionId): (r: NavLink)
    ensures r.href == "#" + IdName(item.id) && r.text == item.text
    ensures r.className == "active" <==> activeSection == item.id
    // the source compares the id strings; distinct sections have distinct ids
    ensures r.className == "active" <==> IdName(activeSection) == IdName(item.id)
    ensures r.className == "" <==> activeSection != item.id
    ensures r.ariaCurrent == Some("page") <==> activeSection == item.id
    ensures r.ariaCurrent == None <==> activeSection != item.id
  {
    IdNameInjective(activeSection, item.id);
    var isActive := activeSection == item.id;
    NavLink("#" + IdName(item.id),
            if isActive then "active" else "",
            if isActive then Some("page") else None,
            item.text)
  }

  /** The links of the nav list, one per item and in item order. */
  function RenderNav(items: seq<NavItem>, activeSection: SectionId): (r: seq<NavLink>)
    ensures |r| == |items|
    ensures forall k :: 0 <= k < |r| ==> r[k].text == items[k].text
    ensures forall k :: 0 <= k < |r| ==> r[k].href == "#" + IdName(items[k].id)
    ensures forall k :: 0 <= k < |r| ==> (r[k].className == "active" <==> items[k].id == activeSection)
    ensures forall k :: 0 <= k < |r| ==> (r[k].ariaCurrent == Some("page") <==> items[k].id == activeSection)
  {
    seq(|items|, k requires 0 <= k < |items| => RenderLink(items[k], activeSection))
  }

  ghost predicate DistinctIds(items: seq<NavItem>)
  {
    forall j, k :: 0 <= j < k < |items| ==> items[j].id != items[k].id
  }

  /** With distinct item ids, no two links are highlighted at once. */
  lemma AtMostOneActive(items: seq<NavItem>, activeSection: SectionId)
    requires DistinctIds(items)
    ensures forall j, k :: 0 <= j < k < |items| ==>
      !(RenderNav(items, activeSection)[j].className == "active" &&
        RenderNav(items, activeSection)[k].className == "active")
  {
  }

  lemma NavItemsDistinct()
    ensures DistinctIds(NavItems)
  {
  }

  /** The hero section has no nav item, so while it is active nothing is highlighted. */
  lemma HeroHighlightsNothing()
    ensures forall k :: 0 <= k < |NavItems| ==> RenderNav(NavItems, Hero)[k].className == ""
  {
    forall k | 0 <= k < |NavItems| ensures RenderNav(NavItems, Hero)[k].className == "" {
      assert NavItems[k].id != Hero;
    }
  }

  /** Every other section has exactly one highlighted link. */
  lemma ExactlyOneActive(activeSection: SectionId)
    requires activeSection != Hero
    ensures exists k :: 0 <= k < |NavItems| && RenderNav(NavItems, activeSection)[k].className == "active"
    ensures forall j, k :: 0 <= j < k < |NavItems| ==>
      !(RenderNav(NavItems, activeSection)[j].className == "active" &&
        RenderNav(NavItems, activeSection)[k].className == "active")
  {
    var k := match activeSection
      case About => 0 case Skills => 1 case Experience => 2 case Projects => 3 case Contact => 4;
    assert NavItems[k].id == activeSection;
    assert RenderNav(NavItems, activeSection)[k].className == "active";
    NavItemsDistinct();
    AtMostOneActive(NavItems, activeSection);
  }
}
