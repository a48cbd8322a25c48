# Portfolio page behaviour, modelled in Dafny

The portfolio site's `script.js` wires a single page to the DOM. Inside that wiring sit a few small decision procedures. This project states each one as a pure function over plain records and proves what the page relies on:

- **Project filter**, in module `Projects`. Each card is shown under `"all"` or under its own category; a button without `data-filter` passes `undefined`, which shows the cards without a category. `visibleCards` is the order-preserving subsequence of the cards that pass.
- **Strip scroll buttons**, in `Projects`. Previous is disabled before the first pixel of scroll. Next is disabled once `Math.ceil(scrollLeft + clientWidth)` reaches `scrollWidth`. A filter change scrolls back to the start.
- **Comma-list attributes**, in `Text` and `CommaList`. `data-images`, `data-features` and `data-tech` are split on `','`, and blank pieces are dropped. A list section is hidden exactly when nothing is left.
- **Project modal**, in `Modal`. It covers the text fields, the GitHub and Live Demo links (omitted when missing, empty or `"#"`) and the list sections. It also covers the three dismissal paths and the card click.
- **Modal image carousel**, in `Carousel`. The requested index is clamped, with a placeholder when there are no images. Previous/next visibility and enablement follow the index. Clicks on next and previous saturate at the ends.
- **Typing effect**, in `Typing`. The `(wordIndex, charIndex, isDeleting)` state machine of the hero subtitle.
- **Theme toggle**, in `Theme`. `applyTheme` and `toggleTheme` over the stored `theme` value.

`Seqs` holds the order-preserving filter, JavaScript's `Array.prototype.filter`, which both the card filter and the list parser use. `Text` holds `trim`, `split(',')`, `join(',')` and the possibly-missing attribute value.

DOM elements are replaced by records of what the code writes into them, for example `shown`/`disabled` flags and the list of emitted links. Browser-supplied numbers (`clientWidth`, `scrollWidth`) and the previous state of the page are parameters.

Behaviours of the code worth noting:

- A link is also omitted when its attribute is the empty string.
- A filter button without `data-filter` shows exactly the cards without a category (`Projects.MissingFilterShowsUncategorised`).
- Toggling the theme twice restores the stored value only when one of `"dark"`/`"light"` was already stored. With nothing stored, two toggles leave `"light"`, which reads back as the same light mode (`Theme.ToggleTwiceFromNothingStored`).

## Model

| member | source | states |
|---|---|---|
| Seqs.Keep | script.js:158 | the filter keeps only elements that pass, and never more than it was given |
| Seqs.KeepIsSubsequence | script.js:158 | the kept elements are exactly the passing ones, enumerated by strictly increasing positions of the input, so page/source order is preserved |
| Seqs.KeepAll | script.js:155-158 | when every element passes, the filter returns its input unchanged |
| Seqs.KeepNone | script.js:155-158 | when no element passes, the filter returns nothing |
| Text.OrEmpty | script.js:183 | `value \|\| ""`: a missing attribute reads as the empty string, a present one as itself |
| Text.TrimStart | script.js:183 | leading whitespace is removed: the result is a suffix, what was dropped is all whitespace, and the result starts with a non-space |
| Text.TrimEnd | script.js:183 | trailing whitespace is removed: the result is a prefix, what was dropped is all whitespace, and the result ends with a non-space |
| Text.Trim | script.js:183 | `trim()` neither starts nor ends with whitespace, and it is empty exactly when the string is all whitespace |
| Text.TrimCutsBlankEnds | script.js:183 | `trim()` keeps a contiguous piece of the string: what it cuts before and after is all whitespace |
| Text.TrimEmptyIffBlank | script.js:183 | `trim()` yields `""` exactly when every character is ECMAScript whitespace or a line terminator |
| Text.Split | script.js:183 | `split(',')` yields at least one piece, and no piece contains a comma |
| Text.SplitCount | script.js:183 | `split(',')` yields one more piece than the string has commas |
| Text.JoinSplit | script.js:183 | joining the pieces of `split(',')` with commas gives back the original string |
| Text.SplitJoin | script.js:183 | splitting a comma-join of comma-free pieces gives back exactly those pieces |
| CommaList.ParseList | script.js:183 | every parsed item has a non-empty `trim()` |
| CommaList.KeptIffNotBlank | script.js:198 | a piece survives the `trim() !== ''` test exactly when it has a non-whitespace character |
| CommaList.ParsedItemIsPiece | script.js:198 | any single parsed item is a non-blank, comma-free piece of the attribute |
| CommaList.NonBlankPieceIsParsed | script.js:198 | any single non-blank piece of the attribute is among the parsed items |
| CommaList.ParseListItems | script.js:198 | parsed items are non-blank, comma-free pieces of the attribute, untrimmed, in order, and every non-blank piece is kept |
| CommaList.ParseListBlank | script.js:183 | a missing, empty or all-blank attribute yields no items |
| CommaList.PieceOfBlankIsBlank | script.js:198 | each piece of an all-blank comma-joined string is itself blank |
| CommaList.ParseJoin | script.js:198 | parsing the comma-join of non-blank, comma-free items gives back exactly those items |
| CommaList.CreateListItems | script.js:197-211 | the section is shown exactly when the attribute parses to at least one item, then with one entry per item in order; a hidden section's list is empty; the `dataArray[0] === ''` test never fires |
| Projects.DisplayFlags | script.js:154-157 | each card is displayed exactly when the filter is `"all"` or equals the card's category; under a missing (`undefined`) filter exactly the cards without a category are displayed |
| Projects.MissingFilterShowsUncategorised | script.js:155 | a filter button without `data-filter` (the click handler at line 323 passes `btn.dataset.filter`) shows exactly the uncategorised cards, and nothing when every card has a category |
| Projects.VisibleCards | script.js:158 | every visible card passes the filter |
| Projects.VisibleMatchesFlags | script.js:154-158 | the visible cards are exactly the cards whose display flag is set, in page order |
| Projects.FilterAllShowsEverything | script.js:155 | under `"all"` every card is visible, in page order |
| Projects.UnknownFilterShowsNothing | script.js:155-158 | a tag that no card carries yields an empty strip and no error |
| Projects.FilterScenario | script.js:153-158 | with cards tagged `"web"` and `"design"`, `"web"` shows only the first and `"all"` shows both |
| Projects.Ceil | script.js:150 | `Math.ceil` yields the least integer not below its argument |
| Projects.UpdateButtonStates | script.js:145-151 | previous is disabled exactly when `scrollLeft < 1`; next is disabled exactly when the viewport's right edge is less than one pixel short of `scrollWidth` |
| Projects.FilterProjects | script.js:153-161 | a filter change sets the display flags and visible cards, resets `scrollLeft` to 0 so previous is disabled, and disables next exactly when the strip fits its viewport |
| Carousel.Clamp | script.js:171 | the index lands in `[0, n-1]` for `n > 0`: in-range requests are kept, requests below become 0, requests past the end become `n-1` |
| Carousel.ShowImage | script.js:164-179 | with no images: the placeholder, both controls hidden, and nothing else changed. Otherwise: the image at the clamped index, which is also recorded; both controls shown exactly when there is more than one image; previous disabled exactly at index 0, next exactly at the last |
| Carousel.Next | script.js:363-366 | on a rendered slider a click on next keeps it rendered at index `min(i+1, n-1)`; with no images it keeps the placeholder and the stored index |
| Carousel.Prev | script.js:367-370 | on a rendered slider a click on previous keeps it rendered at index `max(i-1, 0)`; with no images it keeps the placeholder and the stored index |
| Carousel.NextMovesOne | script.js:363-366 | a click on next shows image `min(i+1, n-1)` |
| Carousel.PrevMovesOne | script.js:367-370 | a click on previous shows image `max(i-1, 0)` |
| Carousel.NextAtLastIsNoOp | script.js:363-366 | at the last image, next changes nothing: no wrap-around |
| Carousel.PrevAtFirstIsNoOp | script.js:367-370 | at the first image, previous changes nothing: no wrap-around |
| Carousel.NextClicksSaturate | script.js:363-366 | after `k` clicks on next the index is `min(i+k, n-1)` |
| Carousel.PrevClicksSaturate | script.js:367-370 | after `k` clicks on previous the index is `max(i-k, 0)` |
| Modal.ModalLinks | script.js:193-196 | GitHub comes before Live Demo; each is emitted exactly when its attribute is present, non-empty and not `"#"`; the list is empty exactly when both are omitted |
| Modal.OpenModal | script.js:181-216 | opening shows the modal. Text fields are copied verbatim, with missing ones shown empty. The links section is shown exactly when a real link exists. Feature and tech sections come from the list rule. Images are the parsed `data-images`, and the slider shows image 0, or the placeholder with both controls hidden while the stored index and disabled flags carry over from before |
| Modal.OpenModalBlankFields | script.js:181-216 | blank or missing images give the placeholder with hidden controls; blank or missing features or tech hide that section |
| Modal.CloseModal | script.js:218 | closing hides the modal and clears nothing else |
| Modal.Dismiss | script.js:355-362 | the modal becomes hidden exactly when it was visible and the event is the close control, a click on the backdrop, or Escape; nothing else changes |
| Modal.DismissalsConverge | script.js:355-362 | all three closing events end in the same state as `closeModal` |
| Modal.CardClick | script.js:347-351 | a click on a card's GitHub link leaves the modal untouched; any other click on the card yields exactly that card's `openModal` result |
| Modal.ThreeImageScenario | script.js:363-366 | for `"a.jpg,b.jpg,c.jpg"` the modal opens on `a.jpg`. Three clicks on next reach `c.jpg` with next disabled, and a fourth click changes nothing |
| Typing.SliceTo | script.js:113 | `slice(0, end)` is a prefix of the word, with negative ends counted from the back and ends past the word cut to it |
| Typing.TypeEffect | script.js:110-126 | the text shown is `slice(0, charIndex + 1)` of the current word while typing and `slice(0, charIndex - 1)` while deleting, so a prefix of it, and the word index stays in range. The phase flips to deleting exactly when the whole word is shown, and back to typing exactly when nothing is shown. The word advances, modulo the word count, only then. `charIndex` moves by one, and the delay is chosen accordingly |
| Typing.Run | script.js:121 | after any number of ticks the word index is still in range |
| Typing.TypingRun | script.js:113-124 | while a word is typed, `charIndex` counts up by one per tick and each tick shows one more character of the word |
| Typing.DeletingRun | script.js:113-124 | while a word is deleted, `charIndex` counts down by one per tick and each tick shows one character fewer |
| Typing.TypeEffectSkipsCharacters | script.js:113-124 | on the page's words, the full 23-character first word is followed directly by a 20-character text |
| Typing.FirstWordDeleted | script.js:113-124 | 43 ticks in, the first word has been deleted down to `charIndex == 1` |
| Typing.DeletedWordAdvances | script.js:119-124 | deleting the first word's last character moves to the second word with `charIndex == 2` |
| Typing.SecondWordFirstTick | script.js:113 | the second word's first tick shows `"Gra"` |
| Typing.NextWordStartsAtThirdCharacter | script.js:119-124 | after 44 ticks the second word starts at three characters rather than one |
| Typing.TypeEffectFixed | script.js:110-126 | corrected tick: it keeps the invariant, and each text is one character longer or shorter than `charIndex`, the previous text's length; phases and word changes are as in the original |
| Typing.FixedInitial | script.js:50-53 | the page's words and start state satisfy the corrected effect's invariant |
| Typing.FixedTicksOneCharApart | script.js:113-124 | under the corrected tick, consecutive texts differ by exactly one character |
| Theme.ApplyTheme | script.js:389-403 | dark mode, with the sun icon, exactly when the stored value is exactly `"dark"`; anything else, including nothing stored, gives light with the moon icon; storage is only read |
| Theme.ToggleTheme | script.js:406-418 | toggling flips the mode and stores `"dark"` exactly when the new mode is dark, `"light"` otherwise; body class, icon and storage agree afterwards |
| Theme.ToggleTwice | script.js:406-418 | two toggles restore the mode and the icon, and restore the whole state when the stored value was already `"dark"` or `"light"` and consistent |
| Theme.ToggleTwiceFromNothingStored | script.js:389-418 | with nothing stored, two toggles leave `"light"` stored, and `applyTheme` reads it back as the same light mode |

## Findings

| source | as written | input that shows it | evidently intended | confidence | as-written member | corrected member |
|---|---|---|---|---|---|---|
| script.js:113-124 | the text is `charIndex ± 1` characters long, but after a phase switch `charIndex` still steps one in the new direction from its old value | the page's own words from the start state: tick 23 shows all of "FullStack Web-Developer" (23 characters), tick 24 shows 20, and the second word first appears as "Gra" | deleting and typing move one character per tick, e.g. by setting `charIndex` to the length of the text just shown | medium, not executed | Typing.TypeEffectSkipsCharacters | Typing.TypeEffectFixed |

`Typing.TypeEffect` stays the model of the page as it behaves. The prefix, phase-switching and word-advance properties are proved of both it and `Typing.TypeEffectFixed`. `Typing.FixedTicksOneCharApart` proves the intended one-character step of the corrected tick.

## Left out

- Timers: the `setTimeout` re-scheduling of the typing effect is not modelled; a tick returns the delay it would choose. The 100 ms scroll debounce (script.js:341-344) and the resize handler (script.js:376-378) are also left out. Both only re-run `updateButtonStates`, which is modelled.
- The strip's arrow buttons (script.js:328-338): their step is the first visible card's rendered width plus the CSS gap, a layout measurement. The browser's clamping of `scrollLeft` is not modelled either.
- Projects.Ceil and Projects.UpdateButtonStates: `scrollLeft + clientWidth` is exact real arithmetic, not IEEE double rounding.
- Carousel.ShowImage: the index is kept as an integer. The source stores it with `String(n)` in the `data-current-image-index` attribute and reads it back with `parseInt`, which round-trips for the non-negative integers written there.
- HTML generation: the `<img>`, `<a>` and `<li>` markup is represented by the `Frame`, `Link` and item records. Link targets are interpolated into `innerHTML` unescaped, and that quoting is not modelled.
- The filter buttons' `active` class (script.js:321-322) and the element-existence guards around each feature: DOM wiring.
- IntersectionObserver navigation highlighting and reveal-on-scroll (script.js:71-91, 433-437): driven by browser callbacks.
- Hamburger menu class toggling (script.js:94-107): trivial UI state.
- Profile picture rotation (script.js:128-142): a timer-driven cycle through three images.
- Page-flip navigation (script.js:262-300): layout geometry and timers.
- The contact form's `fetch` and the e-mail clipboard copy (script.js:221-252): network and clipboard I/O.
- `localStorage` reads and writes as such: only the stored `theme` value is modelled.
- Typing.SliceTo: JavaScript's `slice` counts UTF-16 code units, the model counts characters. They agree on the page's words, which are ASCII.
