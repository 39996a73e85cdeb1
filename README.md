# Portfolio page interactions, modelled in Dafny

This project models the deterministic rules behind the event handlers of a
personal portfolio page's browser script (`script.js`). The DOM is replaced by
a small abstract state and every event or timer callback becomes a discrete
step:

- **Theme toggle**: the `data-theme` attribute and the stored `theme` entry.
- **Mobile menu**: the two `active` flags on the navigation list and on the
  menu button, under button, nav-link and document clicks.
- **Header scroll class**: `scrolled` past 100 px.
- **Active navigation link**: the last section reached by the scroll offset,
  and the links marked for it.
- **Stat counter animation**: the texts shown tick by tick.
- **Typewriter**: the prefix of the name revealed after each tick.
- **Button ripple**: the button's children after a click.
- **Particle background**: how many particles are appended.
- **Skill-level tooltip**: the title given to a skill tag.
- **Konami-code easter egg**: the key buffer, trimmed by `splice`, and the
  substring test on the joined keys.

Each component is a module in its own file. `Common` holds `Option`, `Min` and
`Max`, and `Dom` holds the node and element types that the ripple and particle
code share. State that the script changes in place is a class: the theme, the
menu, the navigation links, the typing element, an element's children and the
Konami listener. The pure rules are functions. Each handler loop (the section
scan, the link update, the counter interval, the typing timer chain, the
particle loop) is a method with a loop, proved against a function or an
explicit postcondition.

Some behaviours of the code are easy to get wrong, and the model states them
as the code does them:

- The theme is read with `getItem('theme') || 'dark'`, so an empty stored
  string also gives `'dark'`. Any other stored string is applied as it is.
  A click turns every value other than `'light'` into `'light'`. Storage is
  written only by clicks, so storage and attribute are guaranteed to agree
  only after the first click.
- A button ripple is never removed by a timer. The next click on the same
  button removes the first existing ripple before it appends the new one.
- `setActiveNav` marks every link whose `href` is `#current`. When no section
  is reached, `current` is `''`, so only a link whose href is exactly `#` is
  marked. When no href matches, no link is marked, and when hrefs repeat,
  several are.
- The Konami test is a substring test on the joined keys. Keys that together
  spell the code also fire it (`Konami.SpelledAcrossKeys`). Each match sets
  its own 3-second timeout. The first timeout to run clears the animation
  even if a later match is still pending.
- The counter has no guard against running twice, so each call of
  `animateCounter` starts a new interval.

## Model

| member | source | states |
|---|---|---|
| Theme.InitialTheme | script.js:8-9 | the theme applied at load is never empty; it is the stored string when that is present and non-empty, otherwise `'dark'` |
| Theme.Flipped | script.js:12 | a click yields `'dark'` exactly when the current theme is `'light'`, and always one of the two themes |
| Theme.FlipTwice | script.js:11-14 | two clicks restore the theme exactly when it is `'light'` or `'dark'`; any other value comes back as `'dark'` |
| Theme.SavedThemeReloads | script.js:8-14 | the value a click stores is the value the next page load applies |
| Theme.ThemeToggle.Load | script.js:8-9 | page load applies `InitialTheme` of the saved value and leaves storage untouched |
| Theme.ThemeToggle.Click | script.js:11-14 | the attribute becomes the flipped theme (`'dark'` iff it was `'light'`) and storage then equals the attribute |
| MobileMenu.Menu.ButtonClicked | script.js:29-32 | a button click toggles both `active` flags |
| MobileMenu.Menu.LinkClicked | script.js:35-40 | a nav-link click clears both flags |
| MobileMenu.Menu.DocumentClicked | script.js:43-48 | a click outside both the menu and the button clears both flags; a click inside either leaves them unchanged |
| MobileMenu.Menu.Click | script.js:29-48 | the whole dispatch of one click: the button toggles, a nav link or an outside target closes, another target inside the menu changes nothing; flags that start equal stay equal |
| ScrollHeader.Scrolled | script.js:59-63 | the header carries `scrolled` iff the offset is above 100 |
| ScrollHeader.ScrolledMonotone | script.js:56-63 | scrolling further down never removes `scrolled`; at exactly 100 it is off |
| SkillTags.Tooltip | script.js:296-307 | no title for a missing or empty level; otherwise the table text of a known level, or the level itself, never empty |
| ActiveNav.LastReached | script.js:526-533 | the chosen section is reached (`pageYOffset >= top - 200`) and no later section is, or no section is reached at all (-1) |
| ActiveNav.LastReachedMonotone | script.js:526-533 | a larger offset never selects an earlier section |
| ActiveNav.CurrentId | script.js:524-533 | `''` when no section is reached; when some section is reached, the id of the last reached section in document order (a reached section after which none is reached); a non-empty result is always such an id |
| ActiveNav.Current | script.js:524-533 | the left-to-right scan ends with the id of the last reached section, or `''` when there is none |
| ActiveNav.MarkLinks | script.js:535-540 | afterwards a link is active iff its href is `#` followed by current, so no other link keeps `active` |
| ActiveNav.SetActiveNav | script.js:520-541 | each link is active iff its href names the last reached section |
| Counter.Shown | script.js:273 | the value shown at tick k is the floor of k·target/125: the integer r with r·125 <= k·target < (r+1)·125 |
| Counter.ReachedAt | script.js:264-269 | for a positive target, tick k reaches it exactly when k >= 125 |
| Counter.ShownMonotone | script.js:267-274 | the floored values shown never decrease from tick to tick |
| Counter.ShownBelowTarget | script.js:267-274 | before tick 125 the value shown lies in [0, target) |
| Counter.AnimateCounter | script.js:256-276 | nothing is shown for an unparsable target or a missing value element; a target <= 0 shows only `target+` on the first tick; a positive target shows floor(k*target/125) at ticks 1..124, non-decreasing and below the target, then `target+` at tick 125 |
| Typewriter.Typing.constructor | script.js:236-237 | typing starts with an empty text at index 0 |
| Typewriter.Typing.Type | script.js:239-245 | a tick appends the next character and reschedules while characters remain; once the name is complete it does nothing and stops |
| Typewriter.TypeFor | script.js:231-248 | after k ticks the text is the first min(k, 14) characters of `Fabrizio Funes`; nothing is done without the element |
| Typewriter.TypedPrefixes | script.js:239-245 | what later ticks show extends what earlier ticks showed, and stays the full name once reached |
| Ripple.CircleBox | script.js:360-365 | the circle is square, as wide as the button's larger side, and centred on the click point |
| Ripple.FirstRipple | script.js:368 | `getElementsByClassName('ripple')[0]` among the children: the index of a ripple with no ripple before it, or the length when there is no ripple |
| Ripple.RemoveFirstRipple | script.js:368-371 | with no ripple the children are unchanged; otherwise exactly the first ripple is cut out, and everything before and after it keeps its order |
| Ripple.RemoveFirstRippleEffect | script.js:368-371 | removing the first ripple lowers the ripple count by exactly one when there is one, and leaves the non-ripple children as they were |
| Ripple.AfterRipple | script.js:357-373 | after a click the button holds max(ripples before, 1) ripples (exactly one when it had at most one), the last child is the new circle, and other children are unchanged and in order |
| Ripple.CreateRipple | script.js:357-373 | the button's children become `AfterRipple` of the old children |
| Ripple.Clicked | script.js:376-378 | after one or more clicks the button holds max(ripples before, 1) ripples, so one that starts with at most one never holds more than one; its other children never change |
| Particles.ParticleCount | script.js:202 | 30 particles iff the viewport is wider than 768, otherwise 15 |
| Particles.CreateParticles | script.js:198-224 | without a container nothing happens; otherwise exactly `ParticleCount` particles are appended after the existing children |
| Konami.SpliceStart | script.js:566 | the start index of `splice`: a negative start counts back from the end, and the result is clamped into [0, length] |
| Konami.SpliceCount | script.js:566 | the number removed by `splice`: the request clamped to zero or more and to what lies after the start |
| Konami.Splice | script.js:566 | the array left by `splice(start, deleteCount)`; no contract of its own, its meaning is stated by `SpliceRemovesBlock` |
| Konami.SpliceRemovesBlock | script.js:566 | `splice` removes one contiguous block: the result is shorter by the number removed, elements before the start stay in place, and the rest move down by that number |
| Konami.AfterKey | script.js:565-566 | the buffer after one keydown, push then splice; no contract of its own, stated by `AfterKeyPushes` and `AfterKeyKeepsRecent` |
| Konami.AfterKeyPushes | script.js:565-566 | a keydown on fewer than ten keys is a plain push; on exactly ten it drops the oldest key and appends the new one |
| Konami.AfterKeyKeepsRecent | script.js:565-566 | while the buffer holds at most ten keys, push then splice leaves exactly the last ten keys |
| Konami.Replay | script.js:561-566 | the buffer after a whole sequence of keydowns from the empty array; no contract of its own, stated by `ReplayKeepsRecent` |
| Konami.ReplayKeepsRecent | script.js:561-566 | after n keydowns the buffer has min(n, 10) entries, and they are the last keys pressed, in order |
| Konami.Join | script.js:568 | `join('')`; no contract of its own, stated by `JoinAppend` |
| Konami.JoinAppend | script.js:568 | `join('')` of two key lists put together is the join of the first followed by the join of the second |
| Konami.Includes | script.js:568 | `includes` holds iff the needle occurs at some offset of the haystack |
| Konami.Matches | script.js:568 | the flourish test, `includes` on the joined buffer and code; no contract of its own, stated by `FiresAfterPattern` and `SpelledAcrossKeys` |
| Konami.FiresAfterPattern | script.js:562-569 | when the last ten keys pressed are the code, the flourish fires whatever came earlier |
| Konami.SpelledAcrossKeys | script.js:568 | nine keys whose concatenation spells the code also fire it |
| Konami.Listener.constructor | script.js:561 | the buffer starts empty, with no key history, no animation and no pending timeout |
| Konami.Listener.KeyDown | script.js:564-574 | the buffer becomes push-then-splice of the old one, still the last ten keys of the history; the flourish fires iff the joined buffer contains the joined code, and each firing sets the animation and one more pending timeout |
| Konami.Listener.ResetTimeout | script.js:570-572 | a timeout clears the animation whatever other timeouts are pending |

## Left out

- DOM lookups, event registration and `localStorage` are left out. Their inputs and outputs are parameters and fields instead. A missing element is a `bool` or a null reference where the code checks for one.
- The reveal `IntersectionObserver` (lines 98-119) and lazy image loading (lines 478-493) are left out because they are browser callbacks. `Counter.AnimateCounter` models one call of `animateCounter`.
- The cursor follower and its hover `scale(...)` strings (lines 140-193) are left out: they are floating-point pixel math or cosmetic strings.
- Tilt and magnetic offsets (lines 409-462), glow positions (lines 498-515) and parallax (lines 281-290) are left out for the same reason.
- The scroll progress bar (lines 88-93) is left out. It is floating-point math and divides by a height difference that can be zero.
- Smooth scrolling (lines 71-83) is left out. It cancels the anchor navigation and asks the browser to scroll to 80 pixels above the target, and browser scrolling is not modelled.
- The load fade-in (lines 467-473) and the stagger delays (lines 124-135) are left out because they only set styles.
- The theme icon rotation (lines 17-20), the `hardwareConcurrency` tweak (lines 589-591) and the injected style sheets (lines 330-353, 381-404, 546-556) are left out for the same reason.
- The console messages (lines 596-598) are left out because they only log.
- The random size, position, duration, delay and opacity of particles (lines 209-220) are left out because they come from `Math.random`.
- The skill-tag ripple and its 600 ms removal (lines 310-325) are left out. They are a timed cosmetic effect beside the tooltip.
- Real timer durations are left out. Timers are ordered discrete steps: `Typing.Type`, the counter's loop iterations and `Listener.ResetTimeout`.
- Counter.AnimateCounter: uses exact arithmetic (the running value is scaled by 125). The script adds IEEE doubles, and the rounding error there builds up. Intermediate values can show one below floor(k·target/125): for target 150, ten additions of 1.2 give 11.999999999999998, so the script shows 11 at tick 10, where the model shows 12. The final tick can also move: for some targets (25, 50 and 100 among them) the script reaches the target at tick 126 instead of 125.
- Ripple.CreateRipple: looks for an existing ripple among the button's direct children only. `getElementsByClassName` also finds ripples nested deeper.
- SkillTags.Tooltip: models the level table as a plain map. In JavaScript, a level that names an inherited object property (such as `toString`) would find that property instead of falling back to the level.
- Konami.Listener.KeyDown: treats key values as arbitrary strings. The browser's set of `KeyboardEvent.key` values is not modelled.
- ActiveNav.Current: takes section tops as integers and the scroll offset as a real. Layout itself is not modelled.
- The unused `lastScroll` variable of the navbar handler (lines 54, 65) is not modelled.
