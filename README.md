# Client-First Digital page logic, modelled in Dafny

This project models the stateful and rule-based parts of the site's
`js/script.js`. The DOM is reduced to plain records: class flags as
`array<bool>`, attributes as optional strings, and element content as text or
markup. `localStorage` becomes a class holding a `map<string, string>`. The
initialisers that keep state on the page are class constructors (`Carousel`,
`PortfolioTabs`, `ThemeApplier`, `LanguageSwitcher`). Each takes the page as
authored and runs the initialiser. `initNavigation` contributes its scroll
listener, modelled as `ThemeApplier.OnScroll`, and `updateActiveNavLink`, a
method over the array of links. `initContactForm` becomes pure functions that
build the `mailto` URI. Each event becomes a method call: `Tick` for a 5-second
carousel timer firing, `ClickIndicator`, `Click` on a tab or on the theme
toggle, `OnScroll`, `EndTransition` for the 300 ms timer, and `Toggle` for the
language.

Modules:
- `Values`: optional attributes and JavaScript's `a || d` on strings.
- `Strings`: `split`, `join`, `.pop()` and `includes`. The lemmas prove both
  split/join round trips and characterise the last piece of a split.
- `Flags`: "only element i is flagged" and a count of set flags.
- `Storage`: the preference store.
- `Carousel`: slide index, timer ticks, indicator clicks and the `active` flags.
- `PortfolioTabs`: the category rule, the button and item loops, and the
  initial click on `all`.
- `Theme`: the `data-theme` attribute, the toggle icon and tooltip, the navbar
  colour for theme and scroll, and the saved `theme`.
- `Translation`: `translateContent`, the `en`/`pt-pt` toggle, the toggle
  labels and the saved-language loader.
- `NavLinks`: the current page name and the active-link rule.
- `ContactForm`: the subject, the body and the `mailto` URI (section 2 of
  RFC 6068), with a parser that reads the URI back.

The model keeps these behaviours of the code:
- The carousel index is taken verbatim from an indicator click. With more
  indicators than slides it can point past the last slide. Then no slide is
  active, although the matching indicator is. So the kept invariant is
  `current < max(|slides|, |indicators|)`, and "exactly one active slide"
  holds only while the index names a slide.
- An item without `data-categories` makes the tab click handler throw at that
  item. Items before it are updated; it and the items after it keep their
  flags.
- The saved language is applied as read. An unknown value such as `fr` is
  still written to the document's `lang`, but the content stays untouched.
- An empty saved value counts as missing, because `||` treats `''` as falsy.
- Two clicks on the theme toggle restore the navbar colour only when it was
  the unscrolled one. `applyTheme` always paints the unscrolled colour, so a
  page scrolled past 50 pixels keeps that colour until the next scroll event.

## Model

| member | source | states |
|---|---|---|
| `Values.OrDefault` | js/script.js:328-335 | JavaScript's `a || d` on an optional string: the value when it is present and non-empty, the default otherwise (its properties are stated by `OrDefaultFallsBack`) |
| `Values.OrDefaultFallsBack` | js/script.js:170 | a defaulted read gives the default exactly when the value is missing, empty or equal to the default; otherwise it gives the value |
| `Strings.Split` | js/script.js:144 | `split` with a one-character separator gives at least one piece |
| `Strings.SplitPiecesFree` | js/script.js:144 | no piece of a split contains the separator |
| `Strings.Join` | js/script.js:337 | `join`: the pieces with one separator between neighbours (its inverse is stated by `JoinSplit` and `SplitJoin`) |
| `Strings.Last` | js/script.js:67 | `.pop()` on the non-empty result of a split: its last piece (characterised by `LastPieceIsSuffix`) |
| `Strings.Contains` | js/script.js:75 | `includes`: some suffix of the haystack starts with the needle (characterised by `ContainsIffOccurs`) |
| `Strings.JoinSplit` | js/script.js:144 | joining the pieces of a split gives back the original string |
| `Strings.SplitJoin` | js/script.js:337 | splitting a join of separator-free pieces gives back exactly those pieces |
| `Strings.LastPieceIsSuffix` | js/script.js:67 | the last piece of a split is the suffix after the last separator (the whole string if there is none) and holds no separator |
| `Strings.LastPieceEmptyIff` | js/script.js:67 | the last piece of a split is empty iff the string is empty or ends with the separator |
| `Strings.ContainsIffOccurs` | js/script.js:75 | `includes` holds iff the needle occurs at some index of the haystack |
| `Flags.OnlyAtCount` | js/script.js:111-121 | after marking only index `c` among `n` elements, exactly one is set if `c < n`, and none otherwise |
| `Carousel.NextIndex` | js/script.js:101-104 | the next index is always a valid slide; from a valid slide it is the next slide, wrapping from the last to 0 |
| `Carousel.TicksWrap` | js/script.js:90-104 | after `m > 0` ticks from any start, the index is `(start + m) mod n` |
| `Carousel.TicksFromFirst` | js/script.js:85-104 | after `m` ticks from the initial slide 0, the index is `m mod n` |
| `Carousel.Carousel.Init` | js/script.js:82-125 | with no slides nothing is touched and no timer or listener exists; otherwise slide 0 and indicator 0 are the only active ones and the invariant holds |
| `Carousel.Carousel.UpdateSlide` | js/script.js:111-121 | a slide, and likewise an indicator, is active iff its position equals the current index |
| `Carousel.Carousel.Tick` | js/script.js:90-92 | a timer tick sets the index to `NextIndex` of the old one and keeps the invariant (flags match the index) |
| `Carousel.Carousel.ClickIndicator` | js/script.js:95-109 | clicking indicator `i` sets the index to `i` verbatim and keeps the invariant |
| `Carousel.Carousel.ActiveSlides` | js/script.js:111-124 | in a running carousel exactly one slide is active while the index names a slide, and none otherwise; the same holds for indicators |
| `Storage.Store.SetItem` | js/script.js:188 | `setItem` writes one key, which then reads back the new value, and leaves every other key as it was |
| `PortfolioTabs.Shown` | js/script.js:143-146 | the filter rule: the category is `all`, or it equals one of the comma-separated pieces of the item's `data-categories` (characterised by `ShownIffTagged` and `UnmatchableCategories`) |
| `PortfolioTabs.Filtered` | js/script.js:143-151 | the item loop's outcome: each item up to the first untagged one is hidden iff not `Shown`; the rest keep their flags (the `ensures` of `PortfolioTabs.Click` ties the loop to it) |
| `PortfolioTabs.ShownIffTagged` | js/script.js:143-150 | for an item tagged with a comma-joined list, the item is shown iff the category is `all` or is in the list (exact match) |
| `PortfolioTabs.UnmatchableCategories` | js/script.js:136-146 | a button with no `data-category` shows no item, and a category containing a comma matches only through `all` |
| `PortfolioTabs.FirstMissing` | js/script.js:143-144 | finds the first item without `data-categories`, where the loop throws; every earlier item has the attribute |
| `PortfolioTabs.AllShowsEverything` | js/script.js:155-159 | selecting `all` leaves no item hidden when every item is tagged |
| `PortfolioTabs.FirstIndex` | js/script.js:156 | the first button whose category is `all`, in document order, or none |
| `PortfolioTabs.PortfolioTabs.Init` | js/script.js:128-160 | with an `all` button, the first one becomes the only active button and the items are filtered for `all`; without one, nothing changes |
| `PortfolioTabs.PortfolioTabs.Click` | js/script.js:134-152 | the clicked button is the only active one; each item up to the first untagged one is hidden iff not `Shown`; later items keep their flags; `completed` iff every item is tagged |
| `Theme.IsLight` | js/script.js:55 | the theme is light iff `data-theme` is present and equals `light` |
| `Theme.NewTheme` | js/script.js:174-175 | the theme a click switches to: `dark` from light, `light` from anything else (stated by `ClickFlips` and `TwoClicksRestore`) |
| `Theme.AttributeFor` | js/script.js:192-200 | `applyTheme` sets `data-theme` to `light` for `light` and removes it for any other value |
| `Theme.NavbarBackground` | js/script.js:57-60 | the four navbar colours for light or dark, scrolled or not (distinct, by `NavbarBackgroundInjective`) |
| `Theme.ScrollBackground` | js/script.js:55-61 | the scroll listener's colour: the scrolled variant iff `scrollY > 50` |
| `Theme.ClickFlips` | js/script.js:173-175 | a click switches light to dark and any non-light state to light |
| `Theme.TwoClicksRestore` | js/script.js:173-200 | two clicks restore the theme, and from `light` or no attribute they restore exactly that attribute |
| `Theme.TwoClicksLoseScrolledColour` | js/script.js:57-60 | past 50 pixels of scroll, the unscrolled colour two clicks paint differs from the scrolled colour the scroll listener painted |
| `Theme.NavbarBackgroundInjective` | js/script.js:57-60 | the four navbar colours are distinct, so the colour determines both the theme and the scrolled state |
| `Theme.SavedThemeRestored` | js/script.js:170-188 | the stored theme, read back on the next load with the `dark` default, applies the same attribute |
| `Theme.ThemeApplier.Init` | js/script.js:163-171 | without a toggle nothing changes; otherwise the saved theme (default `dark`) is applied and the navbar gets its unscrolled colour |
| `Theme.ThemeApplier.ApplyTheme` | js/script.js:191-204 | sets `data-theme` only for `light` and removes it for anything else; the icon and tooltip offer the other theme; the navbar gets the unscrolled colour for the theme |
| `Theme.ThemeApplier.UpdateNavbarTheme` | js/script.js:206-212 | the navbar, if present, gets the unscrolled colour of the current theme |
| `Theme.ThemeApplier.Click` | js/script.js:173-189 | the theme flips, the transition marker is set, the stored `theme` equals the new theme, and the toggle stays consistent |
| `Theme.ThemeApplier.TwoClicks` | js/script.js:173-210 | two clicks restore the attribute, the icon, the tooltip and the stored `theme` (as the name of the starting theme), and leave the navbar with the unscrolled colour of that theme |
| `Theme.ThemeApplier.ScrollThenTwoClicks` | js/script.js:53-63 | after a scroll past 50 pixels and two clicks, the theme is back but the navbar shows the unscrolled colour, not the scrolled one it showed before the clicks |
| `Theme.ThemeApplier.EndTransition` | js/script.js:184-186 | the transition marker is cleared |
| `Theme.ThemeApplier.OnScroll` | js/script.js:53-63 | the navbar gets the scrolled colour iff `scrollY > 50` (strict), in the light or dark variant |
| `Translation.Lookup` | js/script.js:1173-1176 | a key that is missing or empty finds nothing; otherwise the dictionary's value for it, if any |
| `Translation.TranslateText` | js/script.js:1172-1183 | the `data-translate` rule for one element |
| `Translation.TranslatePlaceholder` | js/script.js:1185-1191 | the `data-translate-placeholder` rule for one element |
| `Translation.Translated` | js/script.js:1172-1191 | both rules applied to one element (characterised by `TranslatedRules`) |
| `Translation.TranslatedAll` | js/script.js:1172-1191 | both rules applied to every element, in place and in order (idempotent by `TranslateIdempotent`) |
| `Translation.CurrentLanguage` | js/script.js:459 | the document language is read as `pt-pt` when it is exactly that, and as `en` otherwise |
| `Translation.NewLanguage` | js/script.js:460 | the toggle's target language (stated by `ToggleTwice`) |
| `Translation.LabelFor` | js/script.js:1197 | the toggle label for a language (stated by `LabelNamesNextLanguage`) |
| `Translation.TranslatedRules` | js/script.js:1172-1191 | an element with a missing, empty or unknown key keeps its content; otherwise it gets the value as markup iff `data-translate-html` is `true`, and as text otherwise; placeholders follow their own key by the same skip rules |
| `Translation.TranslateIdempotent` | js/script.js:1168-1191 | applying a locale twice gives the same elements as applying it once |
| `Translation.LastLocaleWins` | js/script.js:1168-1191 | if the first dictionary's keys are all in the second, applying the first and then the second equals applying only the second |
| `Translation.ToggleTwice` | js/script.js:458-460 | the toggle always changes language, its result is `en` or `pt-pt`, and two toggles return to the starting language |
| `Translation.LabelNamesNextLanguage` | js/script.js:1194-1199 | the label reads `EN` iff the language is `pt-pt`, and always names the language a click switches to |
| `Translation.SwitchAndBack` | js/script.js:1168-1183 | with `{en: {a: Hi}, pt-pt: {a: Olá}}`, switching to `pt-pt` shows `Olá` and switching back shows `Hi` |
| `Translation.LanguageSwitcher.Init` | js/script.js:1201-1207 | the saved language (default `en`) becomes the document language and sets every label; the page is translated if the language is known and untouched otherwise |
| `Translation.LanguageSwitcher.UpdateLabels` | js/script.js:1194-1199 | every toggle label is set to `LabelFor(lang)` |
| `Translation.LanguageSwitcher.TranslateContent` | js/script.js:1168-1192 | an unknown locale changes nothing; otherwise every element becomes its translation under that locale's dictionary |
| `Translation.LanguageSwitcher.Toggle` | js/script.js:458-466 | the new language is the other one; the document `lang`, the stored `language`, the labels and the applied dictionary all follow it |
| `NavLinks.CurrentPage` | js/script.js:67 | the current page name is never empty and contains no `/` |
| `NavLinks.CurrentPageIsFileName` | js/script.js:67 | for a path that does not end in `/`, the current page is the suffix of the path after its last `/` (the whole path when it has none); for an empty path or one ending in `/` it is `index.html` |
| `NavLinks.LinkIsActive` | js/script.js:73-75 | the two branches of the active-link test (characterised by `ActiveIffNameOccurs` and `HomeLinks`) |
| `NavLinks.ActiveIffNameOccurs` | js/script.js:73-77 | off the home page, a link is active iff the page name occurs in its `href` |
| `NavLinks.HomeLinks` | js/script.js:73-74 | on the home page, links to `index.html` and `/` are active and a link without `href` is not |
| `NavLinks.UpdateActiveNavLink` | js/script.js:66-79 | each link's `active` flag is set by the rule, its `href` is unchanged, and a link matching neither branch is left inactive |
| `ContactForm.SubjectNamesService` | js/script.js:328 | the subject is `New enquiry: ` followed by the service, or `General` if the service is missing or empty |
| `ContactForm.Subject` | js/script.js:328 | the subject line before encoding (stated by `SubjectNamesService`) |
| `ContactForm.BodyLines` | js/script.js:329-336 | the six body lines, a missing field giving an empty line part |
| `ContactForm.Body` | js/script.js:337 | the body lines joined by line breaks (split back by `BodyLinesRecovered`) |
| `ContactForm.MailtoUri` | js/script.js:327-340 | the URI assigned to `window.location.href` (read back by `MailtoRoundTrip`) |
| `ContactForm.ParseMailtoBuilt` | js/script.js:340 | a URI built from a recipient without `?` and header values without `&` or `?` parses back to exactly those three parts |
| `ContactForm.MailtoRoundTrip` | js/script.js:327-340 | if the encoder escapes `&` and `?`, the URI parses back to the recipient, the encoded subject and the encoded body |
| `ContactForm.BodyLinesRecovered` | js/script.js:329-337 | if name, email and service are single lines, splitting the body at line breaks gives the five fixed lines followed by the message's lines |

## Left out
- Scroll reveal and lazy image loading: both are driven by the browser's intersection callbacks, not by sequential logic.
- Smooth anchor scrolling: it is pixel arithmetic and `scrollTo`.
- Hover, touch and page-transition effects, and the debug logging: they only write CSS strings.
- Mobile menu toggling, the Escape key and click-outside handling: these are plain class toggles on event containment.
- Timers are not modelled as timers. Each firing of the 5-second carousel interval is one `Tick` call, and the 300 ms transition timer is `EndTransition`. The 1500 ms restore of the contact form's submit-button label is not modelled.
- `encodeURIComponent` is a function parameter. Percent-encoding is not re-specified, and `ParseMailto` does not decode.
- Storage failure is not modelled: `localStorage` always reads and writes.
- `Carousel.Carousel.Init`: requires the slide and indicator lists to be distinct arrays. An element carrying both classes is not modelled.
- `Translation.LanguageSwitcher.Toggle` and `Translation.LanguageSwitcher.Init`: the toggle labels, the theme toggle and the translatable elements are separate arrays, so they are assumed to be distinct elements, none nested inside another. A `.language-toggle` that also carries `data-translate` would end with the dictionary's value rather than its label, because the labels are written before the content. A `textContent` or `innerHTML` write that removes nested translatable elements is not modelled either.
- `PortfolioTabs.PortfolioTabs.Init`: requires the button and item flag arrays to be distinct. An element that is both a tab button and a portfolio item is not modelled.
- Dictionary lookups are plain map lookups. JavaScript's inherited object keys (`toString`, `constructor`, `__proto__`) do not resolve to values here.
- Markup parsing is not modelled. `innerHTML` and `textContent` are two write modes on an element record.
- The dictionary literal itself is a parameter of `LanguageSwitcher`. The equality of the `en` and `pt-pt` key sets is not stated, because the code does not enforce it.
- Ordering within one handler is not modelled: only the states before and after each handler are.
