# Portfolio page state model

A Dafny model of the small state-update rules inside a single-page React
portfolio site. Each React `setState` is written as a pure transition from the
old state to the new one. Each timer firing (`setTimeout`, `setInterval`) and
each DOM event (pointer move, scroll, click, input, focus) is a constructor of
an `Event` datatype. `Date.now()`, pointer coordinates, element measurements
and window height arrive as fields of those events.

Modules, one per source component:

- `CursorTrail` (`cursor_trail.dfy`): the pointer trail. A move keeps the last
  12 particles and appends the new one. A periodic sweep evicts particles by
  age. The `isMoving` flag is cleared by a debounced timeout. Sparkles come from
  the newest three particles.
- `HeroTyper` (`hero_typer.dfy`): the hero's SQL typewriter, a
  `(lineIndex, charIndex, sqlText)` machine over the lines.
- `LoadingIntro` (`loading_intro.dfy`): the splash typewriter, its progress
  percentage, the fade-out / `onComplete` timer chain, and the title/subtitle
  split at `'\n'`.
- `App` (`app.dfy`): the `showIntro` latch, the mount order of the sections, and
  the splash's events routed through the root.
- `Projects` (`projects.dfy`): the expand-toggle list, the category filter, the
  lightbox record, the rendered cards and the metrics badge.
- `Header` (`header.dfy`): the `isScrolled` threshold, the first-match
  active-section search, and the mobile menu.
- `Education` (`education.dfy`): the clamped scroll progress, the active
  milestone index, and the lit/left flags of each milestone.
- `Contact` (`contact.dfy`): field edits, the idle → submitting → submitted →
  idle cycle, and focus tracking.
- `Seqs` and `Options` (`common.dfy`): JavaScript's `slice` and `filter`, the
  subsequence relation, and `Option`.

Scroll offsets, heights and progress values are Dafny `real`s. Millisecond
timestamps are `int`s. No IEEE floating-point behaviour is modelled.

Behaviour worth noting:

- The contact fields are cleared when the simulated request completes, in the
  same step that sets `isSubmitted` (src/components/Contact.tsx:45-47). Starting
  a submission keeps them.
- A pointer move keeps 12 old particles and adds one, so the trail holds up to
  13 particles.
- The splash's first interval firing shows the empty prefix, so after k firings
  the first k - 1 characters are on screen
  (src/components/LoadingIntro.tsx:36-41).
- The sections mount in this order: Header, CursorTrail, Hero, Projects, About,
  Experience, Education, Contact (src/App.tsx:317-325). Services is not mounted.
- The contact fields start empty and are emptied again at completion, so an
  empty field is an ordinary state of the form.

## Model

| member | source | states |
|---|---|---|
| `CursorTrail.AddParticle` | src/components/CursorTrail.tsx:32-39 | After a move the trail has at most 13 particles. The new particle is last. The particles before it are the most recent min(12, n) of the previous list, in their original order. |
| `CursorTrail.SweepParticles` | src/components/CursorTrail.tsx:46-49 | A sweep keeps exactly the particles with `now - timestamp < 1000`: every copy of a fresh particle and no copy of a stale one. It keeps them as an order-preserving subsequence and never grows the list. |
| `CursorTrail.SweepIdempotent` | src/components/CursorTrail.tsx:48 | Sweeping twice at the same `now` gives the same list as sweeping once. |
| `CursorTrail.Sparkles` | src/components/CursorTrail.tsx:115 | Sparkles are the last min(3, n) particles of the trail while moving, and there are none when not moving. |
| `CursorTrail.MoveAppendsParticle` | src/components/CursorTrail.tsx:23-39 | A move records the pointer position and raises `isMoving`. It appends a particle carrying the event's x, y and timestamp. |
| `CursorTrail.MovingFlagTransitions` | src/components/CursorTrail.tsx:23-49 | Only a pending move timeout lowers `isMoving`, and only a move raises it. A sweep changes nothing but the particle list. |
| `CursorTrail.TrailStaysBounded` | src/components/CursorTrail.tsx:20-58 | For any event sequence the trail holds at most 13 particles, and `isMoving` is true exactly while its clearing timeout is pending. |
| `HeroTyper.TickAppendsOne` | src/App.tsx:32-48 | A tick appends one character of the current line. On the first tick of a later line it appends `'\n'` before that character. It keeps `charIndex` below the line length and moves to the next line at the line's end. |
| `HeroTyper.ShownIsPrefix` | src/App.tsx:33-40 | The typed text is always a prefix of the lines joined by `'\n'`. |
| `HeroTyper.AlwaysGood` | src/App.tsx:27-52 | After any number of timeouts the typer invariant still holds. |
| `HeroTyper.AlwaysPrefix` | src/App.tsx:27-52 | After any number of timeouts `sqlText` is a prefix of the joined lines. |
| `HeroTyper.TickKeepsGood` | src/App.tsx:27-48 | Every timeout keeps the typer invariant: the position is valid and the text matches it. A tick with no timeout scheduled changes nothing. |
| `HeroTyper.TypingFinished` | src/App.tsx:27-28 | Once `lineIndex` has passed the last line, no characters are left and the text is the whole joined lines. |
| `HeroTyper.RunReachesEnd` | src/App.tsx:27-52 | After exactly as many ticks as there are characters left, no timeout is scheduled any more. |
| `HeroTyper.TickConsumesOne` | src/App.tsx:43-48 | Each scheduled tick leaves the typer at a valid position and decreases the count of characters left to type by exactly one. |
| `HeroTyper.RunsToCompletion` | src/App.tsx:27-52 | With non-empty lines, typing stops after as many ticks as there are characters. The text then equals the joined lines, and later ticks change nothing. |
| `HeroTyper.HeroTypesBothLines` | src/App.tsx:20-52 | From the initial state the page's two SQL lines end up on screen, separated by one `'\n'`. |
| `HeroTyper.EmptyLineNeverFinishes` | src/App.tsx:43-48 | On an empty line the end test never holds, so `lineIndex` never advances. |
| `LoadingIntro.Progress` | src/components/LoadingIntro.tsx:40 | Progress lies in [0, 100]. It is 0 exactly at index 0 and 100 exactly when the whole text is shown. |
| `LoadingIntro.ProgressMonotone` | src/components/LoadingIntro.tsx:40 | Progress does not decrease as the index grows. |
| `LoadingIntro.StepKeepsInv` | src/components/LoadingIntro.tsx:14-53 | Every event keeps the splash invariant, with `currentText` equal to the prefix of length `index - 1`. Progress never decreases and stays in [0, 100]. `fadingOut` never goes back to false. |
| `LoadingIntro.FullTextShownWhenTypingEnds` | src/components/LoadingIntro.tsx:38-43 | Once the interval is cleared, the full text is shown at 100 %. |
| `LoadingIntro.CompleteFiresOnce` | src/components/LoadingIntro.tsx:42-48 | `onComplete` fires only after the full text was shown and `fadingOut` became true. It never fires a second time. |
| `LoadingIntro.TicksReveal` | src/components/LoadingIntro.tsx:36-41 | After k firings (k ≤ length + 1) the index is k and the first k - 1 characters are shown. The next firing past length + 1 ends typing. |
| `LoadingIntro.SplashTimeline` | src/components/LoadingIntro.tsx:35-53 | Typing, then the fade timeout, then the complete timeout give exactly one `onComplete`, with the full text shown and `fadingOut` true. |
| `LoadingIntro.NewlineSplit` | src/components/LoadingIntro.tsx:56-58 | Splitting `a + '\n' + b`, where `a` has no newline, gives `a` before the newline and `b` after it. |
| `LoadingIntro.DisplayedSplit` | src/components/LoadingIntro.tsx:19-21 | For every revealed prefix, the title is a prefix of `titleText`. The subtitle stays empty until `'\n'` and one more character are shown, and is then a prefix of `subtitleText`. |
| `App.Mounted` | src/App.tsx:303-326 | The splash is mounted iff `showIntro`. The main content is mounted iff `!showIntro`, in the fixed order Header, CursorTrail, Hero, Projects, About, Experience, Education, Contact. |
| `App.IntroLatch` | src/App.tsx:300-305 | `showIntro` never returns to true. While the intro shows, it drops to false exactly on the splash's `onComplete`. |
| `App.ContentOnlyAfterSplash` | src/App.tsx:300-326 | For any timer sequence, the main content is mounted only after the splash showed its full text, faded out, and called `onComplete` exactly once. |
| `Projects.ToggleExpand` | src/components/Projects.tsx:31-35 | `toggleExpand(id)` flips the membership of `id`, leaves every other id's membership unchanged, and keeps the list free of duplicates. |
| `Projects.ToggleTwice` | src/components/Projects.tsx:31-35 | Toggling the same id twice restores every membership. Starting from a collapsed card, it restores the exact list. |
| `Projects.FilterProjects` | src/components/Projects.tsx:103-105 | Filter `'all'` returns every project. Any other filter returns the projects of that category and every project of that category, in their original order, as a subsequence. |
| `Projects.FilterProjectsCounts` | src/components/Projects.tsx:103-105 | A category filter keeps every copy of a project of that category and no copy of any other project, so it drops exactly the projects of other categories. |
| `Projects.Cards` | src/components/Projects.tsx:257-266 | There is one card per filtered project, in order. Each card is expanded iff its id is in `expandedIds`. |
| `Projects.BadgeMetrics` | src/components/Projects.tsx:361-363 | The badge shows a prefix of the metrics of length min(2, n), and nothing for a project without metrics. |
| `Projects.LightboxOpenClose` | src/components/Projects.tsx:37-43 | Opening sets `{true, src, title}`. Closing resets to `{false, "", ""}` and touches nothing else. |
| `Projects.GalleryInvariant` | src/components/Projects.tsx:23-43 | For any event sequence, `expandedIds` has no duplicates, the filter is one of the category buttons, and a closed lightbox holds no image. |
| `Projects.SetFilterStep` | src/components/Projects.tsx:230-233 | Choosing one of the category buttons sets the filter and leaves the cards' expansion and the lightbox alone. |
| `Projects.FilterKeepsExpansion` | src/components/Projects.tsx:257-266 | Changing the filter keeps `expandedIds`. A project of the chosen category is shown with the expansion it had before. |
| `Projects.AnalyticsCards` | src/components/Projects.tsx:45-105 | The 'analytics' filter shows cards 1 and 4 of the catalogue, in that order. |
| `Header.GetElementById` | src/components/Header.tsx:24 | The lookup for the empty id finds no element. Any other id finds its element when present. |
| `Header.FirstMatch` | src/components/Header.tsx:23-32 | The search returns the first section whose element's `[offsetTop, offsetTop + offsetHeight)` contains the probe. It returns nothing when no section matches. |
| `Header.HomeNeverMatches` | src/components/Header.tsx:24 | `'home'` is looked up under the empty id and never matches. |
| `Header.ScrollUpdate` | src/components/Header.tsx:16-33 | `isScrolled` is true iff `scrollY > 50`. The active section becomes the first tracked section containing `scrollY + 100`, and is unchanged when none matches. The menu is untouched. |
| `Header.MenuRules` | src/components/Header.tsx:57-64 | `scrollToSection`, a backdrop click and the mobile resume button all close the menu. The menu button flips it. |
| `Header.ActiveSectionIsTracked` | src/components/Header.tsx:12-55 | For any event sequence the active section is a tracked section. A highlighted nav item is therefore a tracked section too, and 'services' and 'pricing' are never highlighted. Once the active section has left 'home' it never returns there. |
| `Education.Clamp01` | src/components/Education.tsx:70 | The clamped value lies in [0, 1] and is the input when the input is already in range. |
| `Education.Progress` | src/components/Education.tsx:67-70 | For a container with positive height, the timeline progress lies in [0, 1]. |
| `Education.IndexInRange` | src/components/Education.tsx:71-73 | For n ≥ 1 the active index lies in [0, n - 1]. Progress 1 gives n - 1, not n. |
| `Education.IndexMonotone` | src/components/Education.tsx:71-73 | The active index is non-decreasing in progress. |
| `Education.ReachedIff` | src/components/Education.tsx:71-73 | For i < n, the index reaches i exactly when progress × n ≥ i. |
| `Education.OnScroll` | src/components/Education.tsx:64-74 | Without a container nothing changes. With one, the active index lands in [0, 2]. |
| `Education.Views` | src/components/Education.tsx:222-230 | Milestone i is active iff `activeIndex ≥ i`, and sits on the left iff i is even. |
| `Education.ActiveIsPrefix` | src/components/Education.tsx:222-230 | The active milestones form a prefix, with exactly `activeIndex + 1` of them lit. Left and right alternate. |
| `Contact.SetField` | src/components/Contact.tsx:31-36 | An edit sets the named field and leaves the other two unchanged. |
| `Contact.ChangeTouchesOnlyField` | src/components/Contact.tsx:31-36 | `handleInputChange` on the visible form updates only the named field and neither submission flag. |
| `Contact.FocusTracking` | src/components/Contact.tsx:331-332 | Focus sets `focusedField` to that field. Blur resets it to none. |
| `Contact.SubmitCycle` | src/components/Contact.tsx:38-51 | A filled idle form goes through idle → submitting (fields kept) → submitted (fields cleared) → idle. |
| `Contact.FormChangesOnlyByEditOrCompletion` | src/components/Contact.tsx:38-51 | The fields change only by an edit of the visible form, or by being emptied in the same step that raises `isSubmitted`. |
| `Contact.IgnoredEvents` | src/components/Contact.tsx:404-406 | While submitted, no input, focus or submit has an effect. While submitting, submit is ignored. A form with an empty required field is not submitted. |
| `Contact.EditDuringSubmitIsDiscarded` | src/components/Contact.tsx:40-47 | An edit made while submitting is applied, then discarded when the request completes. |
| `Contact.NeverBothFlags` | src/components/Contact.tsx:38-51 | For any event sequence, `isSubmitting` and `isSubmitted` are never both true. |

## Left out

- Timer durations (35 ms, 50 ms, 100 ms, 1800 ms, 1200 ms, 2500 ms, 4000 ms): timers are events, and only which timers are pending is modelled. The 1000 ms particle age limit is compared against timestamps rather than timed, so it is modelled.
- framer-motion behaviour (`animate`, `transition`, `AnimatePresence` exit animations, `useScroll`/`useTransform` interpolation, `useInView`, `whileInView`): this is library behaviour, not part of the page's own logic. In particular, the model does not show the brief overlap while the splash plays its exit animation.
- `Math.random()` particle and sparkle offsets, and the Contact background particles: these are random and purely visual. The random part of a trail particle id is an event field (`jitter`).
- DOM access (`getBoundingClientRect`, `offsetTop`, `scrollIntoView`, `window.scrollTo`), listener registration and cleanup, and the resume PDF download: measured values come in as event fields, and a navigation or resume click's only modelled effect is on the menu.
- `Education.Progress`: requires a container of positive height. For a zero-height container the source divides by zero and gets JavaScript Infinity or NaN, which is not modelled.
- `Contact.Step`: the browser's `type="email"` format check is not modelled. Only the `required` non-empty check is modelled, so the model accepts a submit the browser would refuse for a malformed email address.
- `Contact.Step`: whether removing a focused input (when the success view replaces the form) fires a blur depends on the browser. The model keeps `focusedField` unchanged then.
- Static content sections (About, Experience, Pricing, FreeOffer, Services, Testimonials) and tailwind.config.js hold constant data and styles only. Only their place in the mount order is modelled.
- The scroll-linked transforms of the hero and the timeline (opacity, offset and line-length interpolation) are framer-motion `useTransform` calls and are left out with the rest of that library.
