# Portfolio page: typewriter, scroll-spy and contribution colours

This project models the three pieces of behaviour in the portfolio's single page
component (`src/app/page.tsx`) that are logic and not markup:

- **Typewriter banner** (`typewriter.dfy`, module `Typewriter`). The hero banner
  cycles through five role strings. Its state is three component state variables:
  `textIndex`, `displayText` and `isDeleting`. Each run of the effect does one of
  four things. It arms a 100 ms timer that types the next character. It arms a
  2000 ms timer that starts erasing a fully typed string. It arms a 50 ms timer that
  erases the last character. Or it moves straight to the next string, with no
  timer. The model gives this as a function `RunEffect` from a `State` to an
  `Effect`: a timer with its delay and the state its callback produces, an
  immediate change, or nothing. `Run` and `Elapsed` iterate that function.
  The class `Banner` holds the three variables and updates them in place, one
  `Tick` at a time.
- **Scroll spy** (`scroll_spy.dfy`, module `ScrollSpy`). On every scroll event the
  handler sets `isScrolled` to `scrollY > 50`. It then searches the sections home,
  about, experience, skills, projects and contact in that order. The first section
  whose element exists and whose box straddles the line 150 px below the top of
  the viewport becomes the active one. If none does, "home" is active.
  `HandleScroll` keeps the source's loop with its early exit. The document is a
  map from section id to box, and a missing key stands for a missing element.
  Coordinates and the scroll offset are `real`, since the handler only compares them.
- **Contribution colours** (`commit_color.dfy`, module `CommitColor`).
  `getCommitColor` maps a commit count to one of five CSS classes by checking
  thresholds in order.

## Model

| member | source | states |
|---|---|---|
| `Typewriter.Slice` | src/app/page.tsx:87 | a slice from 0 is a prefix of the string, as long as the end asked for, and never longer than the string |
| `Typewriter.RunEffect` | src/app/page.tsx:80-100 | the effect does nothing exactly when it is not erasing and the text shown is longer than the target; it changes state without a timer only when it is erasing and the text shown is empty, and then clears the erasing flag; the index stays within the list |
| `Typewriter.Run` | src/app/page.tsx:80-100 | any number of runs keeps the index within the list and keeps the invariant "the text shown is a prefix of the current string" |
| `Typewriter.TypeStep` | src/app/page.tsx:85-88 | while typing a string not yet complete, a 100 ms timer appends the target's next character; the index and flag do not change |
| `Typewriter.PauseStep` | src/app/page.tsx:89-90 | once the whole string shows, a 2000 ms timer sets the erasing flag; the text and index do not change |
| `Typewriter.DeleteStep` | src/app/page.tsx:91-94 | while erasing a non-empty text, a 50 ms timer drops its last character; the index and flag do not change |
| `Typewriter.AdvanceStep` | src/app/page.tsx:95-98 | once erased, the flag clears and the index moves to the next string modulo the list length, with no timer |
| `Typewriter.StepPreservesInv` | src/app/page.tsx:82-98 | from a state with the index in range and a prefix shown, the effect always acts, and the new state keeps both |
| `Typewriter.DisplayNeverExceedsTarget` | src/app/page.tsx:31-33 | from the initial state (index 0, empty text, not erasing), the text shown is never longer than the current string |
| `Typewriter.RunAdd` | src/app/page.tsx:80-100 | `a` runs then `b` runs equal `a + b` runs, and their waiting times add up |
| `Typewriter.RunOne` | src/app/page.tsx:80-100 | a single run is one effect, and its time is that effect's timer delay |
| `Typewriter.TypingPhase` | src/app/page.tsx:85-88 | from an empty text, `k` runs show the first `k` characters after `k` times 100 ms |
| `Typewriter.DeletingPhase` | src/app/page.tsx:91-94 | from a full string being erased, `k` runs leave all but the last `k` characters after `k` times 50 ms |
| `Typewriter.TypeAndPause` | src/app/page.tsx:85-90 | typing a string and holding it takes `|t| + 1` runs and `100·|t| + 2000` ms |
| `Typewriter.DeleteAndAdvance` | src/app/page.tsx:91-98 | erasing a string and leaving it takes `|t| + 1` runs and `50·|t|` ms, and reaches the next string, empty and typing |
| `Typewriter.FullCycle` | src/app/page.tsx:85-98 | from `(i, "", false)`, after `2·|t| + 2` runs (type, pause, erase, advance) the state is `((i + 1) mod n, "", false)`, after `150·|t| + 2000` ms |
| `Typewriter.CycleAfter` | src/app/page.tsx:85-98 | a run that reaches the start of string `i` reaches the start of the next string one full cycle later |
| `Typewriter.NextIndex` | src/app/page.tsx:97 | the index after `i` in a list of `n` strings is `i + 1`, or 0 after the last string |
| `Typewriter.CyclesFromStart` | src/app/page.tsx:80-100 | from the initial state, the cycles of the first `j` strings end empty and typing string `j`, or string 0 after the whole list |
| `Typewriter.Period` | src/app/page.tsx:80-100 | the banner is periodic: one cycle of every string returns it to the initial state |
| `Typewriter.RolesPeriod` | src/app/page.tsx:39-45 | for the page's five role strings, the period is 146 runs of the effect |
| `Typewriter.TwoStringScenario` | src/app/page.tsx:85-98 | with the list "A", "Ab": after typing, holding, erasing and leaving "A" (2150 ms), the state is index 1, empty, not erasing, and the next run types "A" |
| `Typewriter.Banner.constructor` | src/app/page.tsx:31-33 | the state variables start at index 0, empty text, not erasing |
| `Typewriter.Banner.Tick` | src/app/page.tsx:80-100 | updating the three variables in place gives the state `RunEffect` prescribes and keeps the invariant; the timer returned is the effect's delay, or none for the immediate change |
| `ScrollSpy.FirstHitIndex` | src/app/page.tsx:53-62 | the result is the least position whose section exists and straddles the probe line, or the list length when none does |
| `ScrollSpy.ActiveSection` | src/app/page.tsx:51-63 | the selected id is one of the six sections, and it is either "home" or a section that straddles the probe line |
| `ScrollSpy.HandleScroll` | src/app/page.tsx:48-63 | the loop with its early exit yields the first straddling section, defaulting to "home", and `isScrolled` is `scrollY > 50` |
| `ScrollSpy.ActiveSectionIsFirstHit` | src/app/page.tsx:51-62 | section `j` is chosen if and only if it straddles the probe and no earlier section does, or it is "home" and no section does |
| `ScrollSpy.MissingSectionNotSelected` | src/app/page.tsx:54-55 | a section without an element is never selected, apart from "home" as the default |
| `ScrollSpy.SelectionIgnoresMisses` | src/app/page.tsx:55-57 | adding a box that does not straddle the probe line leaves the selection unchanged |
| `ScrollSpy.ScrolledThreshold` | src/app/page.tsx:49 | `isScrolled` is false at exactly 50 and true just past it, and stays true as the offset grows |
| `CommitColor.CommitColor` | src/app/page.tsx:269-275 | every count gets one of the five classes; the palest class is given to exactly the count 0; counts of 7 and more get the most intense class |
| `CommitColor.Intensity` | src/app/page.tsx:269-275 | each class has a rank, its position in the palette from palest to most intense |
| `CommitColor.BucketRanges` | src/app/page.tsx:269-275 | for a count of 0 or more, bucket `k` is chosen if and only if the count lies in its range: 0, 1..2, 3..4, 5..6, 7 and more |
| `CommitColor.IntensityMonotone` | src/app/page.tsx:269-275 | among counts of 0 or more, a larger count never gets a paler class |
| `CommitColor.LegendShowsPaletteInOrder` | src/app/page.tsx:441-449 | the commented-out legend would show, for its sample counts 0, 2, 4, 6, 8, the five classes once each, palest first |
| `CommitColor.NegativeCountIsNotPalest` | src/app/page.tsx:270-271 | a negative count passes the `<= 2` test and gets the second class, not the palest |

## Notes on the model

- The handler compares the document's numbers against 150 and 50. These numbers
  are floating point, and the model uses `real`. A comparison between two finite
  floats gives the same answer as the same comparison between their real values.
  NaN and infinities are not modelled.
- The typewriter effect calls `slice(0, end)` on the current string. Slicing past
  the string's end stops at its end. `Slice` models that, so states outside the
  invariant behave as the source would.
- The effect has four branches. One state is not covered by any of them: not
  erasing, with the text shown longer than the target. There the effect arms no
  timer and changes nothing (`NoEffect`). `StepPreservesInv` shows that no
  reachable state is of that kind.
- `getCommitColor` is called only from commented-out markup
  (`src/app/page.tsx:441-449`). The model takes an `int` because commit counts are
  whole numbers. Its checks run in order, so a negative count gets `bg-cyan-900`.
  For that reason, monotonicity is stated for counts of 0 and more.
- Script strings measure `.length` and `.slice` in UTF-16 code units, while a Dafny
  `string` counts characters. The two agree for the five role strings and for
  "A" and "Ab". For a string with characters outside the Basic Multilingual Plane
  they differ: the lemmas over an arbitrary list (the one-character steps, the
  `2·|t| + 2` runs of `FullCycle`) count characters, not code units.
- The typewriter is given the list of strings as a parameter, with `Roles` being
  the page's own list. This lets the same lemmas cover a two-string list.

## Left out

- The particle canvas (`src/app/page.tsx:102-175`): floating-point positions and
  velocities, random seeding, square roots, canvas drawing and frame scheduling.
- The random skill-bar widths (`src/app/page.tsx:185-194`): they use `Math.random`
  and the rendered width does not read them.
- Timer and listener plumbing. This covers `setTimeout`/`clearTimeout`, the
  clean-up that cancels a pending timer, `addEventListener`/`removeEventListener`
  and `getBoundingClientRect`. A timer is modelled only as the delay that a run of
  the effect returns, and the document as the map of boxes handed to `HandleScroll`.
- The mouse tracking (`handleMouseMove`, `src/app/page.tsx:66-68`) is left out.
  It only copies the event's coordinates into state.
- The navigation helper `scrollToSection` (`src/app/page.tsx:277-283`) is left out.
  It consists of DOM calls and the menu toggle.
- React's scheduling is not modelled: when effects re-run, how setter calls are
  batched, and the fact that `texts` is rebuilt on every render. A run of the effect
  is taken to see the state its previous change produced. Because the effect
  depends on `texts` (`src/app/page.tsx:99-100`), every re-render, for example one
  caused by a scroll or a mouse move (`src/app/page.tsx:66-67`), clears the pending
  timer and arms a new one. The millisecond figures of `TypingPhase`,
  `DeletingPhase`, `TypeAndPause`, `DeleteAndAdvance`, `FullCycle` and
  `TwoStringScenario` are therefore lower bounds on the running page. They are
  exact only when nothing else re-renders it.
- The markup, the static content arrays, the styling and the menu toggle are
  rendering, with no behaviour to state.
