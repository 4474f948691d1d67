# ORION showcase page: verified model of its scripted core

The page script `js/main.js` of the ORION showcase is mostly browser glue.
This project models, in Dafny, the parts of it whose behaviour can be stated
over integers and strings, and proves what they do:

- **Number formatting** (`formatNumber`): `n.toString()` followed by the
  global replace of `\B(?=(\d{3})+(?!\d))` with `,`. The regular expression is
  modelled position by position for any string (`\B` as "no word boundary",
  the lookahead as "runs of three digits up to a non-digit or the end"). It is
  proved equal, on digit strings, to an independent grouping function. From
  that: deleting the commas gives back the digits of `n`; the first group has
  one to three digits and every later group exactly three; a comma appears
  exactly when `n >= 1000`.
- **Theme state** (`toggleTheme`, `loadTheme`, the renderer's `isDark`, the
  `t` shortcut). A class `Theme.Page` holds the `data-theme` attribute and the
  `orion-theme` localStorage slot, each an `Option<string>`. Its methods update
  them as the script does.
- **Dot grid** (`setupMagneticDotGrid`/`draw`) as integer geometry. The
  nested loops are imperative methods. They are proved to visit exactly the
  lattice points `(i*24, j*24)` with `i, j >= 1` inside the canvas, x-major,
  each once. They are also proved to apply the influence decision
  `dx*dx + dy*dy < 120*120` to each point. With the pointer parked at
  `(-1000, -1000)`, no dot is influenced.
- **Active navigation** (`setupActiveNavHighlight`). The section scan is a
  loop proved to return the id of the last section with
  `scroll >= top - 100`, or `''`. The link loop recolours an array in place:
  it highlights exactly the links whose href is `'#' + current` and clears
  every other one.
- **Counter display branch** (`animateCounters`): monetary before percent
  before plain, and the integer texts built from `formatNumber`.

Modules: `Wrappers` (Option), `NumberFormat`, `Theme`, `DotGrid`,
`ActiveNav`, `Counter`, one file each.

Behaviour of the code that the model reproduces:
- `getAttribute('data-theme') || 'dark'` and
  `localStorage.getItem('orion-theme') || 'dark'` read the EMPTY string as
  dark too, not only an absent value (`Theme.ThemeOrDark`).
- `loadTheme` copies any stored string into the attribute, not only
  `dark`/`light`. From such a value the first toggle writes `dark`, and the
  renderer's colour does not change (`Theme.ToggleFlipsIsDark`).
- The grid loops start at the spacing, so no dot lies on `x = 0` or `y = 0`.
- The `t` shortcut checks only Ctrl and Meta; Shift and Alt are ignored.
- With no section reached, `current` is `''`, and a link whose href is
  exactly `#` is highlighted (`ActiveNav.NothingReachedHighlightsBareHash`).

## Model

| member | source | states |
|---|---|---|
| NumberFormat.Digits | js/main.js:65 | `num.toString()` of a natural number is a non-empty digit string with no leading zero unless the number is 0 |
| NumberFormat.DigitsValue | js/main.js:65 | the digit string read back in base ten is the number itself |
| NumberFormat.DigitsLength | js/main.js:65 | the digit string has at most k+1 digits exactly when the number is below 10^(k+1) |
| NumberFormat.SeparatorAtInDigits | js/main.js:65 | on a digit string the pattern `\B(?=(\d{3})+(?!\d))` matches exactly at inner positions followed by a multiple of three digits |
| NumberFormat.InsertSeparatorsGrouped | js/main.js:65 | the global replace equals the reference grouping (last three digits, rest grouped recursively) on every digit string |
| NumberFormat.GroupedRemoveSeparators | js/main.js:65 | deleting the commas of the grouped form gives back the digit string |
| NumberFormat.GroupedPieces | js/main.js:65 | the comma-separated pieces of the grouped form are all digits, the first of length 1 to 3, every later one of length 3 |
| NumberFormat.GroupedHasComma | js/main.js:65 | the grouped form contains a comma exactly when there are more than three digits |
| NumberFormat.FormatNumber | js/main.js:64-66 | `formatNumber(n)` minus its commas is the digits of n; groups are 1-3 digits then exactly 3; a comma appears iff n >= 1000 |
| NumberFormat.FormatNumberExample | js/main.js:64-66 | `formatNumber(1234)` is `1,234` |
| Theme.ThemeOrDark | js/main.js:14 | `x \|\| 'dark'`: dark exactly for an absent value, the empty string or `dark`; any other string is kept |
| Theme.NextTheme | js/main.js:15 | the next theme is `light` exactly when the current one is `dark`, otherwise `dark` |
| Theme.ToggleTwice | js/main.js:13-18 | two toggles from a page reading as dark or light restore the theme |
| Theme.ToggleFromOther | js/main.js:13-18 | from any other value one toggle gives dark and a second gives light |
| Theme.ToggleFlipsIsDark | js/main.js:300-302 | a toggle changes the renderer's `isDark` exactly when the current theme reads as dark or light |
| Theme.Page.ToggleTheme | js/main.js:13-18 | writes the next theme of the current one (absent or empty read as dark) to both the attribute and storage |
| Theme.Page.LoadTheme | js/main.js:20-23 | sets the attribute to the stored theme, or to `dark` when it is absent or empty; storage is unchanged |
| Theme.Page.KeyDown | js/main.js:263-273 | toggles exactly when the key is `t`, Ctrl and Meta are up and focus is not in an INPUT or TEXTAREA; otherwise changes nothing |
| Theme.Page.ToggleTwiceRestores | js/main.js:13-18 | two toggles from `dark` or `light` restore the attribute, and storage then holds the same value |
| DotGrid.ColumnFromShape | js/main.js:310 | the inner loop's points all lie in the column x, from y below the height, on the spacing, strictly increasing in y |
| DotGrid.ColumnsFromShape | js/main.js:309-310 | the outer loop's points lie from x below the width on the spacing, strictly increasing in loop order |
| DotGrid.GridPointsExactly | js/main.js:309-310 | a frame visits a point iff it is a positive multiple of 24 in both coordinates strictly inside the canvas, each once, x-major |
| DotGrid.NarrowCanvasEmpty | js/main.js:309-310 | a canvas no wider or no taller than the spacing gets no dots |
| DotGrid.InfluenceDecision | js/main.js:312-321 | characterises the in/out function `DotGrid.Influence` that the loops use: a dot is pushed exactly when its squared distance to the pointer is below 120 squared; otherwise it rests at its own point |
| DotGrid.DecideAt | js/main.js:309-331 | position k of a frame's dots is the influence decision for grid point k |
| DotGrid.FarPointRests | js/main.js:321 | a point a full radius or more away along either axis rests at its own position with opacity 1 |
| DotGrid.OffscreenFrameRests | js/main.js:291-292 | with the pointer at (-1000, -1000) every grid point of every frame rests |
| DotGrid.OffscreenFrameAtRest | js/main.js:351-354 | with the pointer parked off screen, every dot of a frame is drawn at its own grid point with opacity 1 |
| DotGrid.DotColor | js/main.js:307 | one of exactly two colours: the dark dot colour exactly when `isDark` holds, the light one otherwise |
| DotGrid.DrawColumn | js/main.js:310-331 | the inner loop yields, in order, the influence decision for each point of the column, and nothing else |
| DotGrid.DrawFrame | js/main.js:309-338 | the nested loops yield one dot per grid point, in drawing order, each with its influence decision |
| DotGrid.Renderer.constructor | js/main.js:291-298 | the pointer starts at (-1000, -1000), the canvas takes the window size and `isDark` follows the attribute |
| DotGrid.Renderer.Resize | js/main.js:295-298 | the canvas takes the new window size |
| DotGrid.Renderer.UpdateTheme | js/main.js:300-302 | `isDark` holds unless the attribute is `light` |
| DotGrid.Renderer.MouseMove | js/main.js:346-349 | the pointer takes the event's position |
| DotGrid.Renderer.MouseLeave | js/main.js:351-354 | the pointer is parked off screen at (-1000, -1000) |
| DotGrid.Renderer.Draw | js/main.js:304-341 | one frame: the theme's colour and the dots of every grid point with their influence decision |
| ActiveNav.LastReached | js/main.js:171-178 | the last section in document order with `scroll >= top - 100`, or none when no section is reached |
| ActiveNav.LastReachedMonotone | js/main.js:175 | scrolling further down never moves the active section to an earlier one |
| ActiveNav.NothingReachedHighlightsBareHash | js/main.js:182 | with no section reached, exactly a link whose href is `#` is highlighted |
| ActiveNav.ScanSections | js/main.js:169-178 | the first loop ends with the id of the last reached section, or `''` |
| ActiveNav.HighlightLinks | js/main.js:180-185 | every link ends highlighted if its href is `'#' + current` and cleared otherwise |
| ActiveNav.OnScroll | js/main.js:168-186 | the handler's current id is the last reached section's, and exactly the matching links carry the highlight, all others `''` |
| Counter.ChooseBranch | js/main.js:47-53 | monetary exactly when the text holds `$`; percent exactly when not and the suffix is `%`; plain otherwise |
| Counter.IntegerText | js/main.js:47-53 | the monetary text is `$` followed by `formatNumber` of the value, the plain text is `formatNumber` of the value, both reading back to the value's digits |
| Counter.PlainFinalFrame | js/main.js:52 | a plain counter at 1234 shows `1,234` |

## Left out

- DOM and browser plumbing (`IntersectionObserver`, `MutationObserver`,
  `addEventListener`, `requestAnimationFrame`, `setTimeout`,
  `scrollIntoView`, `querySelectorAll`): event registration and scheduling.
  The listeners' bodies are modelled as methods called by the caller.
- `setupScrollAnimations`, `revealElements`, `setupSmoothScroll`,
  `setupNavbar`, `animateQueueBars`, `setupTypewriterEffect` and
  `setupWordCloud`: they set style strings and CSS classes (`visible`,
  `typed`), cancel the default link action or scroll the page.
  `setupScrollAnimations` also starts `animateCounters` when `#god-view`
  becomes visible; when a counter starts is not modelled, only the text a
  frame writes.
- DotGrid.InfluenceDecision: for a pushed dot, the `sqrt`/`atan2`/`cos`/`sin`
  displacement and the opacity `0.3 + d/120 * 0.7` are floating point and are
  not modelled. Only the in/out decision is modelled. Since `Math.sqrt` is
  correctly rounded and `sqrt(14400)` is exactly 120, `distance < 120` is the
  same test as the squared one for integer coordinates.
- Canvas calls (`clearRect`, `arc`, `fill`) and the `fillStyle` rewrite of
  the colour's opacity: rendering side effects.
- Pointer coordinates and `pageYOffset` are integers here. Browsers report
  them as doubles.
- Counter.IntegerText: the eased value `target * eased`, `Math.floor` of it
  and `toFixed(1)` for the percent branch are floating point. The text is
  stated for the floored natural value only. Negative or NaN targets are not
  modelled.
- NumberFormat.Digits: natural numbers only, and exact only for n up to
  2^53. Above that a JavaScript number prints its shortest round-trip digits
  padded with zeros (`(2**60).toString()` is `1152921504606847000`), and
  from 1e21 on it uses exponential notation; neither is modelled. Counter
  values stay far below 2^53.
- Theme.Page.ToggleTheme: localStorage is assumed always available.
  `setItem` and `getItem` can throw when storage is disabled or full; then
  `toggleTheme` has set the attribute but not storage, and the promise
  that storage equals the attribute does not hold. The same applies to
  Theme.Page.LoadTheme and Theme.Page.KeyDown.
- The `MutationObserver` delivers `updateTheme` asynchronously after the
  attribute changes. The model applies it as a separate method call.
