# Portfolio page: typewriter and active-section tracker

This project models the two pieces of behaviour in the single-page portfolio
(`src/index.tsx`):

- **The hero typewriter.** The `Hero` component shows a list of four titles one after another. Each tick of `handleTyping` does one of four things:
  - types the next character of the current title;
  - once the title is complete, pauses and switches to deleting;
  - deletes the last character;
  - once the text is empty, switches back to typing and moves to the next title, wrapping around.
- **The active-section tracker.** The `App` component keeps the currently active section, which starts as `hero`. The intersection observer's callback makes every intersecting entry's section active, in the order the entries arrive. The header highlights the nav link of the active section: it gets class `active` and `aria-current="page"`. The observer's root margin moves the tracked band down by the header height plus 5 pixels. The height defaults to 70 when there is no header element.

Modules:

- `Wrappers` (wrappers.dfy): `Option`.
- `Sections` (sections.dfy): the six section ids and their DOM id strings.
- `Typing` (typing.dfy):
  - the typing state and its one-tick transition `NextState`;
  - `Run`, which applies `k` ticks;
  - the phase and cycle lemmas;
  - the class `Typewriter`, whose `HandleTyping` method updates the component's three state variables in place.
- `Tracker` (tracker.dfy):
  - the observer callback as a fold over a batch of entries (`ActiveAfter`);
  - the characterisation of that fold by the last intersecting entry;
  - the header height and root-margin string;
  - the class `App`, whose `ObserverCallback` method loops over the batch and updates `activeSection`.
- `Header` (header.dfy): the nav items and the rendering of each link's `className` and `aria-current`.

A timer tick is one step. React re-runs the typing effect after every render of `Hero`, because the `titles` array it depends on is a new array on each render. A change of `App`'s active section therefore also restarts the typing timer. Each run clears the pending timer and schedules `handleTyping` again. So each firing of `handleTyping` sees the current state and changes it at most once. The pause at a complete title is a timer whose callback only sets `isTyping` to false. The model counts that callback as the tick that switches to deleting. A full cycle for a title `T` therefore takes `|T|` typing ticks, one pause tick, `|T|` deleting ticks and one advance tick: `2|T| + 2` ticks.

Two details of the code that the model follows:

- The tracker sets the active section for every entry of the batch whose `isIntersecting` is true, so the last such entry wins.
- A header element that is present with `clientHeight` 0 gives a margin of 5. Only a missing header element falls back to 70.

The observer effect depends only on `sectionRefs`, which is a new object on every render of `App`. So the observer is torn down and rebuilt after every render, including every change of `activeSection`. Each rebuild measures the header again, and the new observer reports one batch with an entry for every observed section. `ActiveAfter` folds any batch, so these batches are covered too.

## Model

| member | source | states |
|---|---|---|
| `Sections.IdName` | src/index.tsx:11 | each section's DOM id is a non-empty string of lower-case letters, as written in the union; it is also the fragment of the nav link's href |
| `Sections.ParseSectionId` | src/index.tsx:11 | an id string read back as a section names exactly that section |
| `Sections.ParseIdName` | src/index.tsx:11 | every section's DOM id reads back as that section |
| `Sections.IdNameInjective` | src/index.tsx:11 | distinct sections have distinct DOM ids |
| `Typing.Start` | src/index.tsx:149-151 | the mount state, and the start of every cycle: title `i`, nothing displayed, typing |
| `Typing.NextState` | src/index.tsx:158-176 | one tick keeps the index in range and the text a prefix of the current title. While typing and short of the title, it adds one character and keeps the index and flag. While typing and complete, it only sets the flag to deleting. While deleting and non-empty, it drops the last character and keeps the index. While deleting and empty, it gives typing, empty, at index `(i + 1) % n`. The index changes only when the text is empty. |
| `Typing.Run` | src/index.tsx:156-180 | after any number of ticks the index stays below the list length and the displayed text stays a prefix of its title, so its length stays in `[0, \|title\|]` |
| `Typing.GrowPhase` | src/index.tsx:160-163 | from an empty typing state at title `i`, the first `k <= \|T\|` ticks show exactly `T[..k]`, still typing, at index `i` |
| `Typing.PauseStep` | src/index.tsx:164-166 | the tick after the full title is typed keeps the full title and index and switches to deleting |
| `Typing.ShrinkPhase` | src/index.tsx:167-170 | the `j`-th deleting tick shows `T[..\|T\| - j]`, at the same index |
| `Typing.FullCycle` | src/index.tsx:159-173 | exactly `2\|T\| + 2` ticks from `(i, "", typing)` reach `((i + 1) % n, "", typing)` |
| `Typing.Cycles` | src/index.tsx:171-173 | titles are shown in list order and wrap around: `m` cycles from title `i` end at `((i + m) % n, "", typing)` |
| `Typing.Rotation` | src/index.tsx:148-173 | showing every title once returns the animation to the state it started in |
| `Typing.HeroCyclesLength` | src/index.tsx:148 | one rotation through the four hero titles takes 144 ticks and ends back at the mount state |
| `Typing.Typewriter.constructor` | src/index.tsx:148-151 | on mount the state is index 0, empty text, typing, and the state invariant holds |
| `Typing.Typewriter.HandleTyping` | src/index.tsx:158-176 | the state variables are updated in place to exactly `NextState` of the old state, and the invariant is kept |
| `Tracker.Observe` | src/index.tsx:68-72 | one entry of the `forEach`: an intersecting entry makes its section active, any other entry leaves the active section as it was |
| `Tracker.ActiveAfter` | src/index.tsx:67-73 | after a batch, the active section is the prior one or the section of some intersecting entry |
| `Tracker.ActiveAfterIsLastIntersecting` | src/index.tsx:67-73 | the last intersecting entry of a batch decides the active section; a batch with no intersecting entry leaves it unchanged |
| `Tracker.HeaderHeight` | src/index.tsx:58-59 | the measured header height when the header exists, otherwise 70 |
| `Tracker.Decimal` | src/index.tsx:63 | the number interpolated into the margin is written as non-empty decimal digits with no leading zero |
| `Tracker.DecimalRoundTrip` | src/index.tsx:63 | the decimal text interpolated into the margin reads back as the number |
| `Tracker.RootMargin` | src/index.tsx:63 | the margin is `-` followed by the digits of `headerHeight + 5` and then `px 0px 0px 0px`, and those digits read back as `headerHeight + 5` |
| `Tracker.App.constructor` | src/index.tsx:34 | the active section starts as `hero` |
| `Tracker.App.ObserverCallback` | src/index.tsx:67-73 | the loop over the batch leaves `activeSection` equal to the fold `ActiveAfter` of the batch from its old value |
| `Header.RenderLink` | src/index.tsx:124-133 | a link has class `active` and `aria-current` `page` if and only if its item is the active section, and otherwise class `""` and no `aria-current`; its href is `#` followed by the item's id. Comparing the sections is the same as comparing their id strings, as the source does |
| `Header.RenderNav` | src/index.tsx:122-136 | one link per nav item, in order, with href `#` followed by the item's id; each has class `active`, and each has `aria-current` `page`, if and only if its id is the active section |
| `Header.AtMostOneActive` | src/index.tsx:122-131 | with distinct item ids, no two links are highlighted at once |
| `Header.NavItemsDistinct` | src/index.tsx:44-51 | the nav items have distinct ids |
| `Header.HeroHighlightsNothing` | src/index.tsx:44-51 | `hero` has no nav item, so while it is active no link is highlighted |
| `Header.ExactlyOneActive` | src/index.tsx:44-131 | while any section other than `hero` is active, exactly one nav link is highlighted |

## Left out

- Timers: `setTimeout` and `clearTimeout`, the 100, 50 and 1500 ms durations, the first tick at half the typing interval, and clearing the pending timer on unmount. A tick is modelled as a discrete step. Timing and callback lifetime are not logic.
- Re-renders that restart the pause timer only delay the pause tick, so the model does not capture them.
- The intersection observer's geometry and its 0.3 threshold. Each entry is reduced to its `isIntersecting` flag. The rest is a browser computation with floating-point ratios.
- Entry targets are modelled as a `SectionId`. The source casts `entry.target.id` to `SectionId` without checking. Only the six section elements are observed, so every id it reads is one of the six.
- `scrollToSection`, `scrollIntoView`, `preventDefault`, `document.querySelector` and the `clientHeight` read. These are DOM side effects. The measured height is a parameter of `HeaderHeight`.
- Registering the observed elements with a new observer after every render of `App`, and unregistering them from the old one. This is DOM plumbing with no state of its own.
- All JSX markup, the SVG icons and the static content arrays (social links, skills, experience, projects, email). They are presentation with no behaviour.
- Mounting the React root and logging a missing root element. This is environment plumbing.
