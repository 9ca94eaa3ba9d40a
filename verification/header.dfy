/** The navigation header of src/components/Header.tsx: the `isScrolled`
    threshold, the active-section search run on every scroll event, and the
    mobile menu. The page's element measurements (`offsetTop`, `offsetHeight`
    by element id) arrive with each scroll event as a map. */
module Header {
  import opened Options

  /** The header turns opaque past this many pixels of scroll. */
  const ScrolledThreshold: real := 50.0
  /** The active section is searched at this offset below the scroll position. */
  const ProbeOffset: real := 100.0

  /** The sections the scroll handler searches, in order. */
  const TrackedSections: seq<string> := ["home", "projects", "about", "experience", "education", "contact"]

  /** The ids of the navigation buttons, the ones that can be highlighted. */
  const NavItemIds: seq<string> := ["home", "about", "services", "projects", "pricing", "contact"]

  datatype Rect = Rect(offsetTop: real, offsetHeight: real)

  /** `document.getElementById(id)`: no element has the empty id. */
  function GetElementById(dom: map<string, Rect>, id: string): (r: Option<Rect>)
    ensures id == "" ==> r == None
    ensures id != "" && id in dom ==> r == Some(dom[id])
  {
    if id == "" || id !in dom then None else Some(dom[id])
  }

  /** The element the handler looks up for a section: 'home' is looked up
      under the empty id. */
  function ElementId(section: string): string
  {
    if section == "home" then "" else section
  }

  /** The section's element exists and its box `[offsetTop, offsetTop + offsetHeight)` contains pos. */
  predicate Matches(dom: map<string, Rect>, section: string, pos: real)
  {
    match GetElementById(dom, ElementId(section))
    case None => false
    case Some(rect) => rect.offsetTop <= pos < rect.offsetTop + rect.offsetHeight
  }

  /** The `for ... of` loop with `break`: the index of the first section from
      `from` on that matches, if any. */
  function FirstMatch(sections: seq<string>, dom: map<string, Rect>, pos: real, from: nat): (r: Option<nat>)
    requires from <= |sections|
    ensures r.Some? ==>
      && from <= r.value < |sections|
      && Matches(dom, sections[r.value], pos)
      && forall j :: from <= j < r.value ==> !Matches(dom, sections[j], pos)
    ensures r.None? ==> forall j :: from <= j < |sections| ==> !Matches(dom, sections[j], pos)
    decreases |sections| - from
  {
    if from == |sections| then None
    else if Matches(dom, sections[from], pos) then Some(from)
    else FirstMatch(sections, dom, pos, from + 1)
  }

  /** 'home' never matches, whatever the page looks like. */
  lemma HomeNeverMatches(dom: map<string, Rect>, pos: real)
    ensures !Matches(dom, "home", pos)
  {
  }

  datatype HeaderState = HeaderState(isScrolled: bool, isMobileMenuOpen: bool, activeSection: string)

  function Init(): HeaderState
  {
    HeaderState(false, false, "home")
  }

  datatype Event =
    | Scroll(scrollY: real, dom: map<string, Rect>)
    | MenuButton                 // the mobile menu button flips the menu
    | NavClick(href: string)     // `scrollToSection(href)`
    | BackdropClick
    | MobileResumeClick

  function OnScroll(h: HeaderState, scrollY: real, dom: map<string, Rect>): HeaderState
  {
    var activeSection :=
      match FirstMatch(TrackedSections, dom, scrollY + ProbeOffset, 0)
      case Some(i) => TrackedSections[i]
      case None => h.activeSection;
    h.(isScrolled := scrollY > ScrolledThreshold, activeSection := activeSection)
  }

  function Step(h: HeaderState, e: Event): HeaderState
  {
    match e
    case Scroll(y, dom) => OnScroll(h, y, dom)
    case MenuButton => h.(isMobileMenuOpen := !h.isMobileMenuOpen)
    case NavClick(_) => h.(isMobileMenuOpen := false)
    case BackdropClick => h.(isMobileMenuOpen := false)
    case MobileResumeClick => h.(isMobileMenuOpen := false)
  }

  /** Section i is the first tracked section whose box holds pos. */
  predicate FirstHolding(dom: map<string, Rect>, pos: real, i: int)
  {
    && 0 <= i < |TrackedSections|
    && Matches(dom, TrackedSections[i], pos)
    && forall j :: 0 <= j < i ==> !Matches(dom, TrackedSections[j], pos)
  }

  /** A scroll event: `isScrolled` iff past 50 px; the active section becomes
      the first tracked section whose box holds `scrollY + 100`, and stays as it
      was when none does; the menu is untouched. */
  lemma ScrollUpdate(h: HeaderState, y: real, dom: map<string, Rect>)
    ensures Step(h, Scroll(y, dom)).isScrolled <==> y > 50.0
    ensures Step(h, Scroll(y, dom)).isMobileMenuOpen == h.isMobileMenuOpen
    ensures (forall i :: 0 <= i < |TrackedSections| ==> !Matches(dom, TrackedSections[i], y + 100.0))
      ==> Step(h, Scroll(y, dom)).activeSection == h.activeSection
    ensures forall i :: FirstHolding(dom, y + 100.0, i) ==> Step(h, Scroll(y, dom)).activeSection == TrackedSections[i]
  {
    var m := FirstMatch(TrackedSections, dom, y + ProbeOffset, 0);
    forall i | FirstHolding(dom, y + 100.0, i)
      ensures m == Some(i)
    {
    }
  }

  /** Every way of activating a nav item closes the mobile menu, and the menu
      button flips it (twice restores it). */
  lemma MenuRules(h: HeaderState, href: string)
    ensures !Step(h, NavClick(href)).isMobileMenuOpen
    ensures !Step(h, BackdropClick).isMobileMenuOpen
    ensures !Step(h, MobileResumeClick).isMobileMenuOpen
    ensures Step(h, MenuButton).isMobileMenuOpen == !h.isMobileMenuOpen
    ensures Step(Step(h, MenuButton), MenuButton) == h
  {
  }

  function Run(h: HeaderState, events: seq<Event>): HeaderState
    decreases |events|
  {
    if |events| == 0 then h else Run(Step(h, events[0]), events[1..])
  }

  /** The nav item with this id is highlighted. */
  predicate Highlighted(h: HeaderState, id: string)
  {
    id in NavItemIds && h.activeSection == id
  }

  /** The active section is always a tracked section; 'home' is possible only
      while it was never replaced, since no scroll selects it. Hence a
      highlighted nav item is also a tracked section, and the 'services' and
      'pricing' items are never highlighted. */
  lemma {:induction false} ActiveSectionIsTracked(h: HeaderState, events: seq<Event>)
    requires h.activeSection in TrackedSections
    ensures Run(h, events).activeSection in TrackedSections
    ensures forall id :: Highlighted(Run(h, events), id) ==> id in TrackedSections
    ensures !Highlighted(Run(h, events), "services") && !Highlighted(Run(h, events), "pricing")
    ensures h.activeSection != "home" ==> Run(h, events).activeSection != "home"
    decreases |events|
  {
    if |events| > 0 {
      var e := events[0];
      if e.Scroll? {
        var m := FirstMatch(TrackedSections, e.dom, e.scrollY + ProbeOffset, 0);
        if m.Some? && m.value == 0 {
          HomeNeverMatches(e.dom, e.scrollY + ProbeOffset);
        }
      }
      ActiveSectionIsTracked(Step(h, e), events[1..]);
    }
  }
}
