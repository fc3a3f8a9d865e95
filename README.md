# Portfolio page interactivity, modelled in Dafny

`script.js` wires the behaviour of a one-page portfolio site once the
document is parsed. This project models its five stateful pieces. Each is a
small, single-threaded state machine driven by timer ticks, scroll events
or clicks:

- **Typed text** (`TypedText`): the hero line types a role one character per
  tick and holds it. It then deletes the role one character per tick and moves
  on to the next of the four roles. `Step` is one call of `typeEffect` on the
  closure state `(roleIndex, charIndex, isDeleting, typingSpeed)`, and
  `Typer.TypeEffect` carries it out in place with the source's post-increment
  and post-decrement. The next delay is returned to the caller, which stands in
  for `setTimeout`.
- **Scroll spy** (`ScrollSpy`): the current section is the last one, in
  document order, with `scrollY >= offsetTop - 90`. If none qualifies it is the
  empty string. Every navigation link loses `active`, and the links whose
  `href` includes the current id get it back.
- **Project carousel** (`ProjectCarousel`): one dot per card, only the first
  one active at creation. Previous and next buttons wrap around, and a dot
  click jumps to its card. After every move, exactly one dot is active and the
  carousel's `scrollLeft` is `index * (first card width + 30)`.
- **Theme switch** (`Theme`): the stored `theme` value is applied at start-up.
  A change of the toggle swaps `dark-mode`/`light-mode` on the body and stores
  the class it added.
- **Mobile menu** (`MobileMenu`): clicking the icon toggles `open`, `fa-bars`
  and `fa-times`. Clicking a link in the overlay forces the closed,
  `fa-bars` state.

`Dom` models the browser built-ins the script relies on:
`substring` with its argument clamping, `includes`, and
`classList.toggle(token, force)`. `Wrappers` holds `Option`, which stands for
the result of `localStorage.getItem`.

Inputs the browser supplies become parameters: `offsetTop`, `clientHeight`,
`offsetWidth`, `scrollY`, link `href`s, section ids, and the body's initial
classes. Class lists become sets of strings, and storage becomes one
`Option<string>` field. The scroll handler is a method over an array of link
class lists. The other handlers are methods of a class whose fields are the
closure state. Each postcondition ties the new state to a pure function of the
old one, and the lemmas about the handler are stated on that function.

Behaviour of the code that a reader might not expect, all modelled as
written:

- After a role is deleted, `charIndex` stays at -1 and is not reset to 0. So each
  role after the first begins with two ticks that show the empty text, and the
  first role with one. At the typing/deleting turn the full role is shown on
  three consecutive ticks (`TypedText.FullRoleHeld`, `TypedText.TwoRoleTrace`).
- When no section qualifies, the current id is `''`. Every string includes
  `''`, so every navigation link becomes active, not none
  (`ScrollSpy.NoneReachedMarksAll`).
- The two theme classes are exclusive only after the first change event.
  A stored value other than the two theme names adds only that value as a
  class and leaves the toggle unchecked (`Theme.ForeignStoredValue`). A body
  whose markup already carries `light-mode` gains `dark-mode` beside it when
  nothing is stored (`Theme.BothThemeClasses`). An empty
  stored string is falsy, so it takes the default dark branch.
- A section id is matched as a substring of each `href`, so one section can
  activate several links.

## Model

| member | source | states |
|---|---|---|
| `Dom.Substring` | script.js:47-49 | `substring(start, end)` returns a piece of the string: it occurs at the smaller of the two clamped ends and is as long as the distance between them, whichever argument is larger |
| `Dom.SubstringSwap` | script.js:47-49 | swapping the two arguments of `substring` does not change its result |
| `Dom.SubstringFromZero` | script.js:47-49 | `substring(0, k)` is the prefix of clamped length k: empty for k <= 0, the whole string for k >= length |
| `Dom.Includes` | script.js:86 | `includes` can hold only when the searched string is no longer than the string searched, and holds whenever it is a prefix |
| `Dom.IncludesIff` | script.js:86 | the left-to-right `includes` search holds iff the searched string occurs at some position |
| `Dom.IncludesEmpty` | script.js:86 | every string includes the empty string |
| `Dom.ToggleClass` | script.js:146 | `toggle(token, force)` leaves `token` present iff `force`, every other class unchanged |
| `TypedText.Step` | script.js:44-61 | the text written is the role's prefix of the clamped pre-step index; the index moves by +1 typing / -1 deleting and is never reset; the role index stays in range and advances mod the role count only on the deleting tick that goes below 0; the delay is 2000 exactly when typing reaches length+1, 500 exactly when deleting goes negative, and `isDeleting` flips exactly on those ticks, otherwise the delay is 50 deleting and 100 typing; the bounds invariant (typing -1..len, deleting 0..len+1) is preserved |
| `TypedText.Run` | script.js:39-64 | after any number of ticks the role index is in range, and the bounds invariant still holds when it held at the start |
| `TypedText.AlwaysPrefix` | script.js:39-50 | from the initial state, the invariant holds before every tick and every text written is a prefix of the current role |
| `TypedText.TypingPhase` | script.js:49-54 | typing from index c reaches index len+1, in deleting mode with the 2000 ms pause, after exactly len+1-c ticks |
| `TypedText.DeletingPhase` | script.js:47-58 | deleting from index c reaches index -1, on the next role, typing again with the 500 ms pause, after exactly c+1 ticks |
| `TypedText.RoleCycle` | script.js:44-63 | a role begun at index -1 takes 2*len+4 ticks and leaves the next role begun at index -1 |
| `TypedText.FirstRoleCycle` | script.js:39-63 | the first role, begun at index 0, takes 2*len+3 ticks |
| `TypedText.RoleLengths` | script.js:38 | the four roles have 20, 20, 18 and 14 characters |
| `TypedText.HeroFirstPass` | script.js:38-64 | the first pass over the four roles takes 159 ticks and ends at the first role, index -1 |
| `TypedText.HeroPeriod` | script.js:38-63 | 160 ticks after the end of the first pass the stepper is back in the same state |
| `TypedText.Periodic` | script.js:44-63 | a state that recurs after p ticks recurs after every multiple of p |
| `TypedText.HeroRepeats` | script.js:38-64 | from the end of the first pass on, the stepper is back at the start of the first role after every multiple of 160 ticks, forever |
| `TypedText.FullRoleHeld` | script.js:49-54 | the full role is written on three consecutive ticks at the turn |
| `TypedText.TwoRoleTrace` | script.js:44-63 | for roles "A","BB" the first 14 ticks write "", "A", "A", "A", "", "", "", "B", "BB", "BB", "BB", "B", "", "" and end in the initial state |
| `TypedText.Typer.constructor` | script.js:38-42 | starts at role 0, index 0, typing, delay 100, over the four roles |
| `TypedText.Typer.TypeEffect` | script.js:44-62 | one tick in place: the fields become `Step`'s next state, the element's text becomes `Step`'s text, the returned delay is the new `typingSpeed`, and the invariant is kept |
| `ProjectCarousel.NextIndex` | script.js:161 | next stays in range, equals (i+1) mod n, and goes from n-1 to 0 |
| `ProjectCarousel.PrevIndex` | script.js:156 | previous stays in range, equals (i-1) mod n, and goes from 0 to n-1 |
| `ProjectCarousel.PrevNextInverse` | script.js:155-163 | previous after next, and next after previous, return to the original index |
| `ProjectCarousel.Nexts` | script.js:160-163 | any number of next presses keeps the index in range |
| `ProjectCarousel.Prevs` | script.js:155-158 | any number of previous presses keeps the index in range |
| `ProjectCarousel.NextsOffset` | script.js:160-163 | k <= n next presses advance the index by k, wrapping once past the last card |
| `ProjectCarousel.PrevsOffset` | script.js:155-158 | k <= n previous presses move the index back by k, wrapping once past the first card |
| `ProjectCarousel.FullTurn` | script.js:155-163 | n next presses, or n previous presses, return to the start |
| `ProjectCarousel.FourCards` | script.js:155-163 | with 4 cards: next from 2 gives 3, next from 3 gives 0, previous from 0 gives 3 |
| `ProjectCarousel.NewDot` | script.js:134-137 | each created dot has class `dot`, `active` iff it belongs to card 0, and no other class |
| `ProjectCarousel.ExactlyOneActive` | script.js:145-147 | when the dots show a card index, the set of active dots is exactly that index |
| `ProjectCarousel.Carousel.constructor` | script.js:131-166 | creates exactly one dot per card, dot k as `NewDot(k)`, card width = first width + 30, index 0, scroll 0, one active dot |
| `ProjectCarousel.Carousel.UpdateCarousel` | script.js:143-148 | `scrollLeft = index * cardWidth`; each dot gets `active` iff its position is the index, other classes untouched |
| `ProjectCarousel.Carousel.GoToSlide` | script.js:150-153 | the index becomes the clicked dot's; scroll and the single active dot follow; other dot classes untouched |
| `ProjectCarousel.Carousel.Prev` | script.js:155-158 | the index becomes `PrevIndex`; scroll and the single active dot follow |
| `ProjectCarousel.Carousel.Next` | script.js:160-163 | the index becomes `NextIndex`; scroll and the single active dot follow |
| `ScrollSpy.Current` | script.js:75-82 | the selected id is `''` or the id of some reached section (scrollY >= top - 90) |
| `ScrollSpy.CurrentIsLastReached` | script.js:75-82 | if section j is reached and no later section is, the current id is section j's |
| `ScrollSpy.CurrentNoneReached` | script.js:75-82 | if no section is reached, the current id is the empty string |
| `ScrollSpy.HeightIrrelevant` | script.js:76-82 | section heights do not affect the current id |
| `ScrollSpy.MiddleSection` | script.js:74-82 | sections at 0, 500, 1000 with scrollY 600 give the one at 500 |
| `ScrollSpy.SelectCurrent` | script.js:75-82 | the first loop returns the id of the last reached section, or '' |
| `ScrollSpy.Mark` | script.js:84-89 | a link ends with `active` iff its `href` includes the current id, other classes untouched |
| `ScrollSpy.NoneReachedMarksAll` | script.js:75-89 | with no section reached, every link is marked active |
| `ScrollSpy.HighlightNavLink` | script.js:74-90 | every link's classes become `Mark` of its old classes: active iff its href includes the current id |
| `Theme.Truthy` | script.js:175 | `if (savedTheme)` rejects a missing value and the empty string, and accepts both theme names |
| `Theme.Init` | script.js:174-181 | storage is not written; a missing or empty stored value gives body + dark-mode and checked; a stored value s gives body + s and checked iff s is dark-mode |
| `Theme.Change` | script.js:183-193 | dark-mode present iff checked, light-mode present iff not; other classes untouched; storage holds the class chosen, which is on the body |
| `Theme.ChangeIdempotent` | script.js:183-193 | handling the same change twice equals handling it once |
| `Theme.ReloadRestores` | script.js:174-193 | a reload from what a change stored restores the toggle state and the theme class |
| `Theme.FirstVisitThenLight` | script.js:174-193 | no stored value starts dark and checked; unchecking gives light-mode and stores it; reloading with it starts light and unchecked |
| `Theme.ForeignStoredValue` | script.js:175-177 | a stored value other than the two theme names sets neither theme class and leaves the toggle unchecked |
| `Theme.BothThemeClasses` | script.js:174-181 | a body whose markup carries `light-mode`, with nothing stored, starts with both theme classes and the toggle checked |
| `Theme.ThemeSwitch.constructor` | script.js:174-181 | the fields become `Init` of the body classes and the stored value |
| `Theme.ThemeSwitch.OnChange` | script.js:183-193 | the fields become `Change` of the old state with the toggle's new value |
| `MobileMenu.Toggle` | script.js:205-209 | an icon click flips `open`, `fa-bars` and `fa-times`, and keeps "one glyph, open iff times" exactly when it held |
| `MobileMenu.Close` | script.js:212-216 | a link click gives closed, bars on, times off, whatever the state |
| `MobileMenu.ToggleTwice` | script.js:205-209 | two icon clicks restore the state |
| `MobileMenu.CloseIdempotent` | script.js:212-216 | closing twice equals closing once |
| `MobileMenu.Apply` | script.js:204-218 | any sequence of clicks from a consistent state keeps exactly one glyph and open iff times |
| `MobileMenu.ApplyParity` | script.js:204-218 | after any sequence of clicks the overlay is open iff the icon clicks since the last link click are odd (counted from the start state when there is no link click) |
| `MobileMenu.MobileNav.constructor` | script.js:200-204 | the overlay and icon start in the state the page markup gives them |
| `MobileMenu.MobileNav.IconClicked` | script.js:205-209 | the fields become `Toggle` of the old state |
| `MobileMenu.MobileNav.LinkClicked` | script.js:212-216 | the fields become `Close` of the old state |

## Left out

- Scroll-reveal animations (script.js:6-30): the IntersectionObserver callback only ever adds `visible`. Threshold geometry and registration belong to the browser.
- Skill-bar animation (script.js:99-118): another IntersectionObserver callback that copies `data-level` into a style width once. It has no state of its own.
- Parallax (script.js:223-231): a floating-point product formatted into a CSS string, with no logic beyond the arithmetic.
- Timers (script.js:62, 64): `setTimeout` is not modelled. `TypeEffect` returns the delay for the next tick. The 1500 ms before the first tick appears only as a comment.
- Element lookups, `createElement`/`appendChild`, listener registration and the presence gates (script.js:37, 125, 173, 204) are not modelled. The model describes the page with all elements present. A missing previous/next button or dot container, which would make the script throw, is not modelled.
- The carousel's dot list is taken to be exactly the dots it created. Dots already present in the markup under `.carousel-dots` are not modelled.
- The value the browser actually keeps for `scrollLeft`, which it clamps to the scrollable range, is not modelled. The model records the value assigned.
- A `.navbar a` without an `href` is not modelled. `getAttribute('href')` would return null and `.includes` would throw at script.js:86. That already happens in the start-up call at script.js:93, so nothing after it is wired. The model takes every link's `href` to be a string.
- A carousel with zero cards is not modelled. `projectCards[0].offsetWidth` throws at script.js:132, which also stops the theme and menu wiring after it. `ProjectCarousel.Carousel.constructor` requires at least one card for this reason.
- Sections without an `id` (`getAttribute` returning null at script.js:80) are not modelled. Every id is a string.
- `classList.add` throwing on a stored theme value that contains whitespace (script.js:176) is not modelled.
- JavaScript numbers are doubles. Character indices, card counts, card widths and offsets are small integers, so they are modelled as unbounded `int` with no rounding. `window.scrollY` can be fractional, for example on a zoomed page. It is compared only with `offsetTop - 90`, which is an integer, so the integer `scrollY` of the model stands for the floor of the real value and the comparison is exact.
- Real persistence and cross-tab behaviour of `localStorage` are not modelled. Storage is one `Option<string>` field.
- A dot-click jump to an index outside the cards is not modelled, because the script calls it only from the dot handlers, which pass card positions.
