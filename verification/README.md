# Portfolio page interaction: a Dafny model

This project models the decision rules of `logic.js`, the script behind a
static portfolio page. The DOM is reduced to plain data:

- the `section[id]` elements become a sequence of `(id, top, height)` records;
- the `.navbar-nav .nav-link` elements become their hrefs plus an array of
  'active' flags;
- `window.scrollY` becomes an integer;
- animation frames and timers become explicit queues of pending callbacks,
  with no clock.

Browser lookups whose results the script reads become inputs: the element
found by `document.querySelector(href)`, the navbar height, whether the
mobile menu is open, the location hash and the hero title text.

Modules, one per feature of the script:

- `Highlight` (highlight.dfy): which section is current for a scroll offset (`highlightNavigation`'s scan).
- `NavLinks` (nav_links.dfy): the `NavBar` class and the two link-flag rewrites: `highlightNavigation`'s, and `updateActiveNavLink`.
- `BackToTop` (back_to_top.dfy): the back-to-top control's threshold and click target.
- `Scrolling` (scrolling.dfy): the `Page` class. It holds the scroll offset, the `ticking` throttle and the frame queue, and the back-to-top display. It handles scroll events, frame callbacks and nav-link clicks.
- `Keyboard` (keyboard.dfy): Ctrl/Cmd + ArrowUp/ArrowDown section navigation, as pure functions.
- `Typing` (typing.dfy): the typing effect as a class driven by its timer chain.
- `ExternalLinks` (external_links.dfy): the loading label on external links, as written and corrected (see Findings).
- `ContactForm` (contact_form.dfy): the simulated contact-form button states.
- `Wrappers` (option.dfy): `Option`.

## Behaviour worth knowing

- The highlight adds 100 px of look-ahead to the scroll offset (logic.js:58). With sections `home` = [0, 500) and `about` = [500, 1200), `home` stays current only up to scrollY = 399; at 450, `about` is already current (`Highlight.LookaheadSelectsNextSection`).
- With no current section, a link whose href is exactly `#` becomes active, because it equals `'#' + ''` (`NavLinks.NoCurrentActivatesBareHash`).
- At most one link is active only when the hrefs are distinct (`NavBar.UpdateActiveNavLink`). After `highlightNavigation`, it also needs no non-`#` link to have been active beforehand (`NavBar.Highlight`): `highlightNavigation` rewrites only the `href^="#"` links, so an active `/blog` link stays active beside `#home`. `updateActiveNavLink` clears every `.nav-link`.
- Repeated clicks on an external link do not restore its label cleanly (see Findings).

## Model

| member | source | states |
|---|---|---|
| `Highlight.CurrentSection` | logic.js:57-69 | The chosen id is `''` or the id of some section whose `[top, top+height)` contains scrollY + 100 |
| `Highlight.ScanCurrentSection` | logic.js:58-69 | The forward scan that overwrites `currentSection` returns exactly the last covering section's id, or `''` |
| `Highlight.CurrentSectionIsLastCovering` | logic.js:62-69 | A covering section with no covering section after it in document order is the one selected |
| `Highlight.CurrentSectionNoneCovering` | logic.js:60-69 | When no section covers scrollY + 100, the result is `''` |
| `Highlight.LookaheadSelectsNextSection` | logic.js:58-66 | Concrete case: with home [0,500) and about [500,1200), scrollY 450 selects about, 399 selects home, 1100 selects nothing |
| `NavLinks.NoCurrentActivatesBareHash` | logic.js:72-77 | With no current section, a `#` link ends active iff its href is exactly `"#"` |
| `NavLinks.HighlightFlag` | logic.js:73-76 | A non-`#` link keeps its flag; a `#` link ends active iff what follows its `#` is the current section |
| `NavLinks.NavBar.Highlight` | logic.js:71-77 | Each `#` link is active iff href == `'#'+current`; other links keep their flag; distinct hrefs, with no non-`#` link active beforehand, give at most one active link |
| `NavLinks.NavBar.UpdateActiveNavLink` | logic.js:100-109 | Every link is active iff its href equals the target id; distinct hrefs give at most one; a matching link ends active |
| `Scrolling.Page.constructor` | logic.js:53-95 | Installation runs one highlight at the initial scroll offset, with no frame pending and `ticking` false |
| `Scrolling.Page.OnScroll` | logic.js:81-91 | A scroll while `ticking` schedules nothing; otherwise it schedules exactly one frame and sets `ticking`; at most one frame is ever pending; back-to-top display follows the threshold |
| `Scrolling.Page.RunFrame` | logic.js:85-88 | The frame highlights for the current scroll offset and clears `ticking`, leaving no frame pending |
| `Scrolling.Page.ClickNavLink` | logic.js:20-46 | Default is always prevented. If the target exists: scroll to `offsetTop - navbarHeight - 20`, only links whose href equals the target are active, and the menu is toggled iff it was open. If it is missing: no scroll, no toggle, no flag changes |
| `Scrolling.TargetPosition` | logic.js:28 | The scroll offset leaves exactly 20 px between the navbar's bottom edge and the target's top |
| `Scrolling.ClickLandsOnSection` | logic.js:28-66 | After scrolling to a clicked section, a navbar of at most 80 px and a tall enough section make the highlight select that same section, provided no later section in document order (such as a nested `section[id]`) also covers the look-ahead point |
| `Scrolling.TallNavbarMissesSection` | logic.js:28-66 | With a navbar taller than 80 px, the look-ahead point after a click lies above the clicked section |
| `BackToTop.DisplayFor` | logic.js:301-307 | The control is `'block'` iff scrollY > 300 and `'none'` otherwise |
| `BackToTop.OnClick` | logic.js:309-311 | A click on the control always targets offset 0, whatever the current offset |
| `Keyboard.IndexOf` | logic.js:228 | `indexOf` gives -1 iff the name is absent, else the first position holding it |
| `Keyboard.RemoveFirstHash` | logic.js:227 | `replace('#','')` shortens the hash by one character iff it holds a `#` |
| `Keyboard.CurrentHash` | logic.js:227 | The normalised hash is never empty: it is the hash without its first `#`, or `home` |
| `Keyboard.RemoveFirstHashCutsFirst` | logic.js:227 | `replace('#','')` removes the character at the first `#` and keeps the rest in order |
| `Keyboard.RemoveFirstHashWithoutHash` | logic.js:227 | A hash with no `#` is left unchanged |
| `Keyboard.EmptyHashIsHome` | logic.js:227-228 | An empty hash, or a lone `#`, is read as `home`, at index 0 |
| `Keyboard.CurrentHashOfAssigned` | logic.js:227 | A hash `'#'+s`, with s non-empty, is read back as `s` |
| `Keyboard.SectionOrderIndex` | logic.js:226-228 | The five section names are found at their own positions |
| `Keyboard.OnKeyDown` | logic.js:223-238 | The handler prevents default iff it assigns a hash; it assigns only with Ctrl/Meta held, only for ArrowUp/ArrowDown, and only one of the five section names |
| `Keyboard.KeyDownStepsByOne` | logic.js:225-237 | Nothing happens without Ctrl/Meta. Default is prevented iff a hash is assigned. ArrowDown from index < 4 moves to index + 1. ArrowUp from index > 0 moves to index - 1. Every other case does nothing |
| `Keyboard.UnknownHashGoesHome` | logic.js:227-236 | An unknown hash has index -1: ArrowDown goes to `home`, ArrowUp does nothing |
| `Keyboard.DownThenUpReturns` | logic.js:230-236 | ArrowDown then ArrowUp from a known section before the last returns to it |
| `Typing.TypingEffect.constructor` | logic.js:167-180 | Installation saves the text, clears the title and schedules one timer |
| `Typing.TypingEffect.TypeWriter` | logic.js:171-177 | One callback appends `text[i]` and reschedules; at the end it changes nothing and schedules nothing. The title is always `text[..i]` |
| `Typing.TypingEffect.FireTimers` | logic.js:171-180 | After k firings i = min(i + k, length), the title equals that prefix, and the chain ends after the last character |
| `Typing.InitTypingEffect` | logic.js:163-170 | No title, no effect; otherwise an effect over the title's text with an empty title |
| `Typing.TypeFromStart` | logic.js:167-180 | After k timers the title is the first min(k, length) characters; from the length on, it is the whole text |
| `ExternalLinks.ExternalLink.Activate` | logic.js:143-151 | A click shows spinner + `Opening...`, sets pointer-events `none` and queues a timer holding the label shown at click time |
| `ExternalLinks.ExternalLink.FireTimer` | logic.js:152-155 | The timer restores exactly its captured label and sets pointer-events `auto` |
| `ExternalLinks.DoubleActivation` | logic.js:143-155 | As written: two clicks before the first timer leave the label on `Opening...` after both timers fire |
| `ExternalLinks.ExternalLink.ActivateGuarded` | logic.js:143-155 | Corrected handler: a click while a restore is pending changes nothing, so one restore to the original label stays pending |
| `ExternalLinks.ReplayGuarded` | logic.js:143-155 | Corrected: over any sequence of clicks and timers, at most one restore is pending and the label is the original whenever none is |
| `ContactForm.SubmitButton.Submit` | logic.js:190-199 | Submit prevents default, shows `Sending...`, disables the button and queues the first timer |
| `ContactForm.SubmitButton.FireTimer` | logic.js:202-215 | The first timer shows `Message Sent!` with btn-success and chains the reset. The reset timer resets the form and restores the idle label, btn-primary and enabled |
| `ContactForm.SubmitCycle` | logic.js:190-215 | From idle, the button passes through sending and sent, then ends idle and enabled with the form reset once |

## Findings

| source | as written | input that shows it | evidently intended | confidence | as-written member | corrected member |
|---|---|---|---|---|---|---|
| logic.js:145 | Each click captures whatever `innerHTML` is showing, even the loading label of an earlier click, and each click queues its own restore timer | Two click events within 1000 ms: a keyboard Enter on the focused link still fires `click` under pointer-events `none`. The second timer puts `Opening...` back for good | After the timeouts the link shows its label from before the first click | medium, not executed | `ExternalLinks.DoubleActivation` | `ExternalLinks.ReplayGuarded` |

## Left out

- The reveal-on-scroll animation and section-view logging (logic.js:114-134, 283-294) are left out. Visibility comes from the browser's intersection engine (threshold, root margin).
- `initThemeManagement`, `initLoadingScreen` and the page-load timing in `initAnalytics` are left out. They only log or style through browser APIs; the load time is a float.
- Smooth scrolling itself is not modelled. `ClickNavLink` and `BackToTop.OnClick` return the requested offset. The browser's clamping of that offset to the scrollable range is not modelled, and the click does not change `scrollY`.
- The Bootstrap collapse that `navbarToggler.click()` triggers is not modelled. It is recorded as `toggleMenu`.
- Timer and frame delays (50, 500, 1000, 2000, 3000 ms) are not modelled. Callbacks are queues that fire in order, with no clock.
- `innerHTML` is an opaque string, with no HTML rendering. `FormData` is not modelled. `form.reset()` is only counted.
- `scrollY` is a whole number; fractional scroll offsets are not modelled.
- The missing-element faults (`#backToTop`, `.navbar`, `.navbar-collapse`, logic.js:27, 42, 299) cannot occur in the model. Their values are inputs, so the model assumes these elements exist.
- `document.querySelector(targetId)` is an input (`target`). A selector that throws, such as a lone `#`, stops the handler after `preventDefault` with nothing changed. That is the same as `target == None`.
- The link set is fixed for the page's life. Links added or removed after load are not modelled. The NodeList `highlightNavigation` captures at install time (logic.js:55, the `href^="#"` links) is therefore a subset of the links the fresh query in `updateActiveNavLink` finds (logic.js:101).
- `initContactForm` without a `#contact-form` installs nothing. Only the installed handler is modelled.
- `ContactForm.SubmitButton` assumes the form has a `button[type="submit"]`. Without one, the lookup at logic.js:195 returns null and the source throws at logic.js:198, right after preventing the default at logic.js:191; that path is not modelled.
- The order of installation is not modelled: `initBackToTop` runs at script load, the others at DOMContentLoaded. `Page.OnScroll` runs both scroll listeners.
- `Typing.TypingEffect` counts the text in Unicode code points, while `text.length` and `charAt` in JS count UTF-16 code units. A character outside the Basic Multilingual Plane therefore takes one step in the model and two in the browser, and the browser shows a lone surrogate between them.
- `Scrolling.Page` fixes each section's top and height for the page's life, while the source re-reads `offsetTop` and `offsetHeight` at every highlight (logic.js:63-64). A layout change between a scroll event and its frame is not modelled.
- `Scrolling.Page.ClickNavLink` records `toggleMenu` when the menu is open. The `.navbar-toggler` lookup at logic.js:39 is not modelled: when the menu is open and no toggler exists, the source throws at logic.js:43, and the model assumes the toggler exists.
- `Keyboard.HashAfterAssigning` fixes what the browser reports after a hash is assigned: `'#'` + the value, for a non-empty value without `#`.
