/** The light/dark theme: the body's `data-theme` attribute, the toggle
    button's icon and tooltip, the navbar background, and the saved `theme`
    preference. */
module Theme {
  import opened Values
  import Storage

  const MoonIcon := "<i class=\"fas fa-moon\"></i>"
  const SunIcon := "<i class=\"fas fa-sun\"></i>"
  const ToDarkTitle := "Switch to dark mode"
  const ToLightTitle := "Switch to light mode"

  /** The page is light iff `data-theme` is exactly `light`; any other value,
      or none, reads as dark. */
  predicate IsLight(dataTheme: Option<string>)
  {
    dataTheme == Some("light")
  }

  /** The theme a click on the toggle switches to. */
  function NewTheme(dataTheme: Option<string>): string
  {
    if IsLight(dataTheme) then "dark" else "light"
  }

  /** The `data-theme` attribute `applyTheme(theme)` leaves behind: set only
      for `light`, removed for anything else. */
  function AttributeFor(theme: string): Option<string>
  {
    if theme == "light" then Some("light") else None
  }

  /** The navbar background for the theme and for whether the page is
      scrolled past 50 pixels. */
  function NavbarBackground(isLight: bool, scrolled: bool): string
  {
    if scrolled then
      (if isLight then "rgba(255, 255, 255, 0.98)" else "rgba(0, 0, 0, 0.95)")
    else
      (if isLight then "rgba(255, 255, 255, 0.95)" else "rgba(0, 0, 0, 0.9)")
  }

  /** The scroll handler's choice: the scrolled colour iff `scrollY > 50`. */
  function ScrollBackground(dataTheme: Option<string>, scrollY: real): string
  {
    NavbarBackground(IsLight(dataTheme), scrollY > 50.0)
  }

  /** A click flips light and dark. */
  lemma ClickFlips(dataTheme: Option<string>)
    ensures IsLight(AttributeFor(NewTheme(dataTheme))) <==> !IsLight(dataTheme)
  {
  }

  /** Two clicks restore the theme; from either attribute `applyTheme`
      leaves (`light` or none) they restore exactly that attribute. */
  lemma TwoClicksRestore(dataTheme: Option<string>)
    ensures var twice := AttributeFor(NewTheme(AttributeFor(NewTheme(dataTheme))));
      && IsLight(twice) == IsLight(dataTheme)
      && (dataTheme == None || dataTheme == Some("light") ==> twice == dataTheme)
  {
  }

  /** Two clicks do not bring back a scrolled navbar colour: each click
      repaints the unscrolled colour, which differs from every scrolled one. */
  lemma TwoClicksLoseScrolledColour(dataTheme: Option<string>, scrollY: real)
    requires scrollY > 50.0
    ensures var twice := AttributeFor(NewTheme(AttributeFor(NewTheme(dataTheme))));
      NavbarBackground(IsLight(twice), false) != ScrollBackground(dataTheme, scrollY)
  {
    var twice := AttributeFor(NewTheme(AttributeFor(NewTheme(dataTheme))));
    NavbarBackgroundInjective(IsLight(twice), false, IsLight(dataTheme), true);
  }

  /** The four navbar colours are distinct: the colour tells both the theme
      and whether the page is scrolled. */
  lemma NavbarBackgroundInjective(l1: bool, s1: bool, l2: bool, s2: bool)
    ensures NavbarBackground(l1, s1) == NavbarBackground(l2, s2) ==> l1 == l2 && s1 == s2
  {
    var values := ["rgba(255, 255, 255, 0.98)", "rgba(0, 0, 0, 0.95)",
                   "rgba(255, 255, 255, 0.95)", "rgba(0, 0, 0, 0.9)"];
    assert values[0][5] != values[1][5] && values[0][5] != values[3][5];
    assert values[2][5] != values[1][5] && values[2][5] != values[3][5];
    assert values[0][23] != values[2][23];
    assert |values[1]| != |values[3]|;
  }

  /** A saved theme is what the next page load applies: `theme` read back
      with the `dark` default gives the same attribute as the click that
      stored it. */
  lemma SavedThemeRestored(dataTheme: Option<string>)
    ensures AttributeFor(OrDefault(Some(NewTheme(dataTheme)), "dark")) == AttributeFor(NewTheme(dataTheme))
  {
  }

  /** The elements `initThemeToggle` and the navbar scroll handler work on. */
  class ThemeApplier {
    const store: Storage.Store
    /** A `.theme-toggle` element exists, so its click listener is installed. */
    const hasToggle: bool
    /** A `.navbar` element exists. */
    const hasNavbar: bool
    var dataTheme: Option<string>
    var toggleHtml: string
    var toggleTitle: string
    var navbarBackground: string
    /** The body's `theme-transitioning` class. */
    var transitioning: bool

    /** The toggle's icon and tooltip offer the other theme, and the
        attribute is either `light` or absent. */
    ghost predicate Valid()
      reads this
    {
      hasToggle ==>
        && (dataTheme == None || dataTheme == Some("light"))
        && toggleHtml == (if IsLight(dataTheme) then MoonIcon else SunIcon)
        && toggleTitle == (if IsLight(dataTheme) then ToDarkTitle else ToLightTitle)
    }

    /** `initThemeToggle` on a page in the given state: without a toggle
        nothing changes; otherwise the saved `theme` (default `dark`; an
        empty string counts as missing) is applied. */
    constructor Init(store: Storage.Store, hasToggle: bool, hasNavbar: bool,
                     dataTheme: Option<string>, toggleHtml: string, toggleTitle: string,
                     navbarBackground: string)
      ensures Valid()
      ensures this.store == store && this.hasToggle == hasToggle && this.hasNavbar == hasNavbar
      ensures !transitioning
      ensures !hasToggle ==>
        && this.dataTheme == dataTheme && this.toggleHtml == toggleHtml
        && this.toggleTitle == toggleTitle && this.navbarBackground == navbarBackground
      ensures hasToggle ==> this.dataTheme == AttributeFor(OrDefault(store.GetItem("theme"), "dark"))
      ensures hasToggle ==>
        this.navbarBackground == (if hasNavbar then NavbarBackground(IsLight(this.dataTheme), false) else navbarBackground)
    {
      this.store := store;
      this.hasToggle := hasToggle;
      this.hasNavbar := hasNavbar;
      this.dataTheme := dataTheme;
      this.toggleHtml := toggleHtml;
      this.toggleTitle := toggleTitle;
      this.navbarBackground := navbarBackground;
      transitioning := false;
      new;
      if hasToggle {
        var saved := OrDefault(store.GetItem("theme"), "dark");
        ApplyTheme(saved);
      }
    }

    /** `applyTheme(theme)`: set or remove the attribute, swap the toggle's
        icon and tooltip, and repaint the navbar with its unscrolled colour,
        whatever the scroll position. */
    method ApplyTheme(theme: string)
      requires hasToggle
      modifies this`dataTheme, this`toggleHtml, this`toggleTitle, this`navbarBackground
      ensures Valid()
      ensures dataTheme == AttributeFor(theme)
      ensures navbarBackground ==
        if hasNavbar then NavbarBackground(theme == "light", false) else old(navbarBackground)
    {
      if theme == "light" {
        dataTheme := Some("light");
        toggleHtml := MoonIcon;
        toggleTitle := ToDarkTitle;
      } else {
        dataTheme := None;
        toggleHtml := SunIcon;
        toggleTitle := ToLightTitle;
      }
      UpdateNavbarTheme();
    }

    /** `updateNavbarTheme`. */
    method UpdateNavbarTheme()
      requires Valid()
      modifies this`navbarBackground
      ensures Valid()
      ensures navbarBackground ==
        if hasNavbar then NavbarBackground(IsLight(dataTheme), false) else old(navbarBackground)
    {
      if hasNavbar {
        navbarBackground := NavbarBackground(IsLight(dataTheme), false);
      }
    }

    /** A click on the toggle: flip the theme, start the transition, and save
        the new theme. */
    method Click()
      requires Valid()
      requires hasToggle
      modifies this, store
      ensures Valid()
      ensures dataTheme == AttributeFor(NewTheme(old(dataTheme)))
      ensures IsLight(dataTheme) <==> !IsLight(old(dataTheme))
      ensures transitioning
      ensures store.entries == old(store.entries)["theme" := NewTheme(old(dataTheme))]
      ensures navbarBackground ==
        if hasNavbar then NavbarBackground(IsLight(dataTheme), false) else old(navbarBackground)
    {
      var newTheme := NewTheme(dataTheme);
      transitioning := true;
      ApplyTheme(newTheme);
      store.SetItem("theme", newTheme);
    }

    /** Two clicks in a row: the attribute, the stored theme and the toggle
        are back to what they were, and the navbar shows the unscrolled
        colour of that theme, whatever colour it showed before. */
    method TwoClicks()
      requires Valid()
      requires hasToggle
      modifies this, store
      ensures Valid()
      ensures dataTheme == old(dataTheme)
      ensures toggleHtml == old(toggleHtml) && toggleTitle == old(toggleTitle)
      ensures store.entries == old(store.entries)["theme" := if IsLight(old(dataTheme)) then "light" else "dark"]
      ensures navbarBackground ==
        if hasNavbar then NavbarBackground(IsLight(old(dataTheme)), false) else old(navbarBackground)
    {
      Click();
      Click();
    }

    /** A page scrolled past 50 pixels, then two clicks: the scroll listener
        paints the scrolled colour, and the clicks leave the unscrolled one
        in its place. */
    method ScrollThenTwoClicks(scrollY: real) returns (scrolledColour: string)
      requires Valid()
      requires hasToggle && hasNavbar
      requires scrollY > 50.0
      modifies this, store
      ensures scrolledColour == NavbarBackground(IsLight(old(dataTheme)), true)
      ensures dataTheme == old(dataTheme)
      ensures navbarBackground == NavbarBackground(IsLight(old(dataTheme)), false)
      ensures navbarBackground != scrolledColour
    {
      OnScroll(scrollY);
      scrolledColour := navbarBackground;
      TwoClicks();
      NavbarBackgroundInjective(IsLight(dataTheme), false, IsLight(dataTheme), true);
    }

    /** The 300 ms timer that ends the transition. */
    method EndTransition()
      requires Valid()
      modifies this`transitioning
      ensures Valid()
      ensures !transitioning
    {
      transitioning := false;
    }

    /** The window scroll listener installed by `initNavigation`. */
    method OnScroll(scrollY: real)
      requires Valid()
      modifies this`navbarBackground
      ensures Valid()
      ensures navbarBackground ==
        if hasNavbar then ScrollBackground(dataTheme, scrollY) else old(navbarBackground)
    {
      if hasNavbar {
        var isLight := IsLight(dataTheme);
        navbarBackground := if scrollY > 50.0 then NavbarBackground(isLight, true)
                            else NavbarBackground(isLight, false);
      }
    }
  }
}
