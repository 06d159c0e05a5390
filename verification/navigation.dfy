/**
 * The page's navigation behaviour: the active marker on the navigation links, the choice
 * of the active section from the scroll position, the header's "scrolled" state, the
 * mobile menu and the two conditions that close it, smooth-scroll targets, and the
 * routing of the call-to-action buttons. Element geometry (offsets, heights, the window
 * width) and hit tests are inputs; `window.scrollTo` targets are returned.
 */
module Navigation {
  import opened Wrappers

  /** A navigation link: its `href` attribute (possibly absent) and whether it carries `active`. */
  datatype Link = Link(href: Option<string>, active: bool)

  /** A `section[id]` element: its id and its vertical extent. */
  datatype Section = Section(id: string, top: int, height: int)

  /** The body's `overflow` style: untouched, or as the menu toggle sets it. */
  datatype Overflow = Unset | Hidden | Auto

  const ScrolledThreshold := 50
  const SectionProbe := 100
  const FallbackHeaderHeight := 80
  const DesktopMinWidth := 769

  // ---------------------------------------------------------------------------
  // Active link

  /** The links after `updateActiveNavLink(id)`. */
  function Marked(links: seq<Link>, id: string): seq<Link> {
    seq(|links|, i requires 0 <= i < |links| => links[i].(active := links[i].href == Some(id)))
  }

  /**
   * Afterwards a link is active exactly when its `href` equals `id`, hrefs are untouched,
   * and only the last call matters.
   */
  lemma MarkedExactly(links: seq<Link>, id: string, id': string)
    ensures |Marked(links, id)| == |links|
    ensures forall i :: 0 <= i < |links| ==>
      Marked(links, id)[i].href == links[i].href && (Marked(links, id)[i].active <==> links[i].href == Some(id))
    ensures Marked(Marked(links, id), id') == Marked(links, id')
    ensures (forall i :: 0 <= i < |links| ==> links[i].href != Some(id)) ==>
      forall i :: 0 <= i < |links| ==> !Marked(links, id)[i].active
  {
  }

  predicate DistinctHrefs(links: seq<Link>) {
    forall i, j :: 0 <= i < j < |links| && links[i].href.Some? ==> links[i].href != links[j].href
  }

  /** With distinct hrefs and a link for `id`, exactly one link is active afterwards. */
  lemma MarkedExactlyOne(links: seq<Link>, id: string, k: int)
    requires DistinctHrefs(links) && 0 <= k < |links| && links[k].href == Some(id)
    ensures Marked(links, id)[k].active
    ensures forall j :: 0 <= j < |links| && Marked(links, id)[j].active ==> j == k
  {
  }

  // ---------------------------------------------------------------------------
  // Active section from the scroll position

  predicate Contains(s: Section, p: int) {
    s.top <= p < s.top + s.height
  }

  /** The last section, in document order, whose half-open range contains `p`. */
  function LastContaining(sections: seq<Section>, p: int): (r: Option<nat>)
    ensures r.Some? ==> r.value < |sections| && Contains(sections[r.value], p)
    ensures r.Some? ==> forall j :: r.value < j < |sections| ==> !Contains(sections[j], p)
    ensures r.None? <==> forall j :: 0 <= j < |sections| ==> !Contains(sections[j], p)
    decreases |sections|
  {
    if sections == [] then None
    else if Contains(sections[|sections| - 1], p) then Some(|sections| - 1)
    else LastContaining(sections[..|sections| - 1], p)
  }

  /** The links after `updateActiveNavFromScroll` at scroll offset `scrollY`. */
  function ScrollMarked(links: seq<Link>, sections: seq<Section>, scrollY: int): seq<Link> {
    match LastContaining(sections, scrollY + SectionProbe)
    case None => links
    case Some(k) => Marked(links, "#" + sections[k].id)
  }

  lemma ScrollMarkedStep(links: seq<Link>, sections: seq<Section>, p: int, i: int)
    requires 0 <= i < |sections|
    ensures LastContaining(sections[..i + 1], p) ==
      if Contains(sections[i], p) then Some(i) else LastContaining(sections[..i], p)
  {
    assert sections[..i + 1][..i] == sections[..i];
  }

  // ---------------------------------------------------------------------------
  // Header

  /** The header carries `scrolled` exactly when the page is scrolled strictly more than 50. */
  predicate IsScrolled(scrollY: int) {
    scrollY > ScrolledThreshold
  }

  /** `header?.offsetHeight || 80`: a missing header, or one of height 0, counts as 80. */
  function HeaderHeight(header: Option<nat>): (h: nat)
    ensures h > 0
    ensures header.Some? && header.value != 0 ==> h == header.value
    ensures header.None? || header.value == 0 ==> h == FallbackHeaderHeight
  {
    match header
    case Some(height) => if height != 0 then height else FallbackHeaderHeight
    case None => FallbackHeaderHeight
  }

  /** Where a smooth scroll to an element goes: its top, less the header's height. */
  function ScrollTarget(elementTop: int, header: Option<nat>): (y: int)
    ensures y < elementTop
    ensures header.Some? && header.value != 0 ==> y == elementTop - header.value
    ensures header.None? || header.value == 0 ==> y == elementTop - FallbackHeaderHeight
  {
    elementTop - HeaderHeight(header)
  }

  // ---------------------------------------------------------------------------
  // Mobile menu

  datatype MenuState = MenuState(hamburgerActive: bool, menuActive: bool, overflow: Overflow)

  /** `toggleMobileMenu`: flips the classes of the elements that exist, then sets the body's overflow. */
  function Toggle(m: MenuState, hasHamburger: bool, hasMenu: bool): MenuState {
    var menuActive := if hasMenu then !m.menuActive else m.menuActive;
    MenuState(
      if hasHamburger then !m.hamburgerActive else m.hamburgerActive,
      menuActive,
      if hasMenu && menuActive then Hidden else Auto)
  }

  /** The body is scroll-locked exactly when the menu is open. */
  predicate Settled(m: MenuState, hasMenu: bool) {
    m.overflow == (if hasMenu && m.menuActive then Hidden else Auto)
  }

  /**
   * A toggle flips both `active` classes and leaves the body locked exactly when the menu is
   * open; a second toggle restores the classes, and the whole state once it is settled.
   */
  lemma ToggleTwice(m: MenuState, hasHamburger: bool, hasMenu: bool)
    ensures var t := Toggle(m, hasHamburger, hasMenu);
      && Settled(t, hasMenu)
      && (hasHamburger ==> t.hamburgerActive != m.hamburgerActive)
      && (hasMenu ==> t.menuActive != m.menuActive)
      && (t.overflow == Hidden <==> hasMenu && t.menuActive)
    ensures var tt := Toggle(Toggle(m, hasHamburger, hasMenu), hasHamburger, hasMenu);
      && tt.hamburgerActive == m.hamburgerActive && tt.menuActive == m.menuActive
      && (Settled(m, hasMenu) ==> tt == m)
  {
  }

  /** A resize (after its debounce) closes the menu only when the window is 769 wide or more. */
  predicate ResizeCloses(innerWidth: int, menuOpen: bool) {
    innerWidth >= DesktopMinWidth && menuOpen
  }

  /** A click closes the menu only when it is open and lands outside both menu and hamburger. */
  predicate OutsideClickCloses(menuOpen: bool, inMenu: bool, inHamburger: bool) {
    menuOpen && !inMenu && !inHamburger
  }

  // ---------------------------------------------------------------------------
  // Buttons

  /** `s.includes(t)` */
  predicate Includes(s: string, t: string) {
    t <= s || (s != [] && Includes(s[1..], t))
  }

  datatype ButtonAction = ScrollTo(y: int) | Notify(message: string) | NoAction

  const CvNotice: string := "CV download will be available soon!"

  // ---------------------------------------------------------------------------
  // The page

  class Page {
    const links: array<Link>
    const hasHeader: bool
    const hasHamburger: bool
    const hasMenu: bool
    var headerScrolled: bool
    var hamburgerActive: bool
    var menuActive: bool
    var overflow: Overflow

    function Menu(): MenuState
      reads this
    {
      MenuState(hamburgerActive, menuActive, overflow)
    }

    /** A missing menu never reads as open. */
    ghost predicate Valid()
      reads this
    {
      hasMenu || !menuActive
    }

    constructor (initial: seq<Link>, hasHeader: bool, hasHamburger: bool, hasMenu: bool)
      ensures Valid() && fresh(links) && links[..] == initial
      ensures this.hasHeader == hasHeader && this.hasHamburger == hasHamburger && this.hasMenu == hasMenu
      ensures Menu() == MenuState(false, false, Unset) && !headerScrolled
    {
      links := new Link[|initial|](i requires 0 <= i < |initial| => initial[i]);
      this.hasHeader, this.hasHamburger, this.hasMenu := hasHeader, hasHamburger, hasMenu;
      headerScrolled, hamburgerActive, menuActive, overflow := false, false, false, Unset;
    }

    /** `updateActiveNavLink`: clears `active` on every link and sets it where the href matches. */
    method UpdateActiveNavLink(id: string)
      requires Valid()
      modifies links
      ensures Valid()
      ensures links[..] == Marked(old(links[..]), id)
    {
      var i := 0;
      while i < links.Length
        invariant 0 <= i <= links.Length
        invariant forall k :: 0 <= k < i ==> links[k] == old(links[k]).(active := old(links[k]).href == Some(id))
        invariant forall k :: i <= k < links.Length ==> links[k] == old(links[k])
      {
        var link := links[i];
        links[i] := link.(active := false);
        if link.href == Some(id) {
          links[i] := links[i].(active := true);
        }
        i := i + 1;
      }
      assert links[..] == Marked(old(links[..]), id);
    }

    /** `handleScroll` */
    method HandleScroll(scrollY: int)
      requires Valid()
      modifies this`headerScrolled
      ensures Valid()
      ensures headerScrolled == if hasHeader then IsScrolled(scrollY) else old(headerScrolled)
    {
      if scrollY > ScrolledThreshold {
        if hasHeader { headerScrolled := true; }
      } else {
        if hasHeader { headerScrolled := false; }
      }
    }

    /**
     * `updateActiveNavFromScroll`: every section containing `scrollY + 100` marks its link in
     * turn, so the last one wins; with none, the markers stay as they were.
     */
    method UpdateActiveNavFromScroll(sections: seq<Section>, scrollY: int)
      requires Valid()
      modifies links
      ensures Valid()
      ensures links[..] == ScrollMarked(old(links[..]), sections, scrollY)
    {
      var position := scrollY + SectionProbe;
      ghost var start := links[..];
      var i := 0;
      while i < |sections|
        invariant 0 <= i <= |sections|
        invariant links[..] == match LastContaining(sections[..i], position)
          case None => start
          case Some(k) => Marked(start, "#" + sections[k].id)
      {
        var section := sections[i];
        ScrollMarkedStep(start, sections, position, i);
        if position >= section.top && position < section.top + section.height {
          UpdateActiveNavLink("#" + section.id);
        }
        i := i + 1;
      }
      assert sections[..i] == sections;
    }

    /** `toggleMobileMenu` */
    method ToggleMobileMenu()
      requires Valid()
      modifies this`hamburgerActive, this`menuActive, this`overflow
      ensures Valid()
      ensures Menu() == Toggle(old(Menu()), hasHamburger, hasMenu)
    {
      if hasHamburger { hamburgerActive := !hamburgerActive; }
      if hasMenu { menuActive := !menuActive; }
      overflow := if hasMenu && menuActive then Hidden else Auto;
    }

    /**
     * `smoothScroll` on a link with the given `href`; `target` is the top of the element that
     * `href` selects, if any. The click's default navigation is always cancelled, whatever the
     * href: a link that is not an in-page anchor, or whose target is missing, goes nowhere and
     * changes nothing. Only in-page anchors that resolve are followed: the link is marked, the
     * scroll target returned, and an open menu closed.
     */
    method SmoothScroll(href: Option<string>, target: Option<int>, header: Option<nat>) returns (scroll: Option<int>)
      requires Valid()
      modifies links, this`hamburgerActive, this`menuActive, this`overflow
      ensures Valid()
      ensures scroll.Some? <==> href.Some? && |href.value| > 0 && href.value[0] == '#' && target.Some?
      ensures scroll.Some? ==>
        && scroll.value == ScrollTarget(target.value, header)
        && links[..] == Marked(old(links[..]), href.value)
        && !menuActive
        && Menu() == if old(menuActive) then Toggle(old(Menu()), hasHamburger, hasMenu) else old(Menu())
      ensures scroll.None? ==> links[..] == old(links[..]) && Menu() == old(Menu())
    {
      scroll := None;
      if href.Some? && |href.value| > 0 && href.value[0] == '#' {
        if target.Some? {
          var offsetTop := target.value - HeaderHeight(header);
          UpdateActiveNavLink(href.value);
          scroll := Some(offsetTop);
          if menuActive {
            ToggleMobileMenu();
          }
        }
      }
    }

    /** The debounced resize handler. */
    method HandleResize(innerWidth: int)
      requires Valid()
      modifies this`hamburgerActive, this`menuActive, this`overflow
      ensures Valid()
      ensures Menu() == if ResizeCloses(innerWidth, old(menuActive))
        then Toggle(old(Menu()), hasHamburger, hasMenu) else old(Menu())
      ensures innerWidth >= DesktopMinWidth ==> !menuActive
    {
      if innerWidth >= DesktopMinWidth && menuActive {
        ToggleMobileMenu();
      }
    }

    /** The document click handler; `inMenu`/`inHamburger` say whether the target lies inside them. */
    method HandleDocumentClick(inMenu: bool, inHamburger: bool)
      requires Valid()
      modifies this`hamburgerActive, this`menuActive, this`overflow
      ensures Valid()
      ensures Menu() == if OutsideClickCloses(old(menuActive), inMenu, inHamburger)
        then Toggle(old(Menu()), hasHamburger, hasMenu) else old(Menu())
    {
      if menuActive && !inMenu && !inHamburger {
        ToggleMobileMenu();
      }
    }

    /**
     * The routing part of `handleButtonClick`: the call-to-action button, or any button whose
     * text mentions "Contact", goes to the contact section (if there is one); otherwise a
     * "Download CV" button shows a notice.
     */
    method HandleButtonClick(isCta: bool, text: string, contactTop: Option<int>, header: Option<nat>)
      returns (action: ButtonAction)
      requires Valid()
      modifies links
      ensures Valid()
      ensures (isCta || Includes(text, "Contact")) && contactTop.Some? ==>
        action == ScrollTo(ScrollTarget(contactTop.value, header)) && links[..] == Marked(old(links[..]), "#contact")
      ensures (isCta || Includes(text, "Contact")) && contactTop.None? ==>
        action == NoAction && links[..] == old(links[..])
      ensures !(isCta || Includes(text, "Contact")) ==>
        && links[..] == old(links[..])
        && action == if Includes(text, "Download CV") then Notify(CvNotice) else NoAction
    {
      action := NoAction;
      if isCta || Includes(text, "Contact") {
        if contactTop.Some? {
          var offsetTop := contactTop.value - HeaderHeight(header);
          UpdateActiveNavLink("#contact");
          action := ScrollTo(offsetTop);
        }
      } else if Includes(text, "Download CV") {
        action := Notify(CvNotice);
      }
    }

    /** `init`, for the parts that are not the typewriter: mark `#home` and apply the scroll state. */
    method Init(scrollY: int)
      requires Valid()
      modifies links, this`headerScrolled
      ensures Valid()
      ensures links[..] == Marked(old(links[..]), "#home")
      ensures headerScrolled == if hasHeader then IsScrolled(scrollY) else old(headerScrolled)
    {
      UpdateActiveNavLink("#home");
      HandleScroll(scrollY);
    }
  }
}
