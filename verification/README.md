# Hero carousel controller — a Dafny model

This project models the hero carousel of a gym's homepage script (`heroCarousel` in `script.js`). The controller keeps one slide current. It advances on a 5-second autoplay timer or on user commands: previous/next buttons, pagination dots, and the arrow keys while the hero is in view. Hovering or focusing the carousel pauses it. Slide images are loaded lazily. Every transition is announced in an accessibility live region.

Files:

- `slide_index.dfy` (module `SlideIndex`): the cyclic successor and predecessor used by `next`/`prev`, and the viewport test for keyboard navigation.
- `announcement.dfy` (module `Announcement`): the live-region text. It holds the 60-character alt-text cut with `"..."`, the decimal rendering of the two numbers, and a parser that reads an announcement back.
- `carousel.dfy` (module `Carousel`): the controller as the class `HeroCarousel`, plus the pure image-loading rules. The class fields are `currentIndex`, `isPaused`, the optional timer handle `autoplay`, the live-region text and the queue of scheduled exit-flag cleanups. Three arrays hold the per-slide flags (`active`, `prev`, `aria-hidden`), the per-dot flags (`active`, `aria-selected`) and the per-image state (`data-src`, `src`, observed).
- `theme.dfy` (module `Theme`): the light/dark toggle rule and its icon.
- `scenarios.dfy` (module `Scenarios`): client code that replays usage scenarios using only the class contracts: startup with four slides, a double start, ignored targets, a jump by dot, pause suppression, timer restart, wrap-around, keyboard use out of view and a long description.
- `option.dfy` (module `Optional`): an option type.

The host environment is modelled explicitly:

- The host's interval timers are two fields. `nextHandle` is the next handle the host hands out; handles start at 1, so they are always truthy. `liveIntervals` is the set of running intervals. `SetInterval` and `ClearInterval` act on them.
- A timer firing is the method `Tick`.
- A scheduled 600 ms cleanup firing is `RunCleanup`. Equal delays fire in the order they were scheduled, so the queue is FIFO.
- The visibility observer reporting an image is `ImageIntersects`.
- Key, hover and focus events are methods that take the event's data (key name, bounding rectangle, whether focus stays inside) as parameters.

The object invariant `Valid()` says the following:

- Exactly the slide at `currentIndex` is `active`.
- A slide marked `prev` is neither active nor shown, and has a cleanup pending.
- Once a transition has happened, every dot shows whether it is the current slide's dot, and the current slide is not hidden.
- The set of running intervals is exactly the controller's one handle or empty. So no timer is ever leaked or duplicated.

Initial state: `init` never marks a slide active. The model therefore takes the page's markup as showing slide 0 as the only active slide, with no slide mid-exit and `currentIndex = 0`. The constructor encodes that assumption. Dots and `aria-hidden` keep their markup values until the first transition.

The model follows the code as written, including these points:

- At startup the code loads at once every lazy image whose slide index is at most 1. That includes images found in no slide (index -1), not only the first two slides.
- Without a visibility observer, the code assigns `src := data-src` to every image with a `data-src`, even one that already has a `src`. With an observer, an existing `src` is never replaced.
- Image load state is only "has a `src`" or not. There is no separate loaded state.
- The timer is restarted after every carried-out transition while not paused. That includes automatic advances, not only manual ones.
- A cleanup can clear a `prev` flag that a later transition set again within 600 ms. The model keeps this (`RunCleanup`). It affects styling only, and no active slide ever carries `prev`.

## Model

| member | source | states |
|---|---|---|
| `SlideIndex.NextIndex` | script.js:188-191 | the target of `next` is always a slide index: the following slide, or slide 0 after the last |
| `SlideIndex.PrevIndex` | script.js:193-196 | the target of `prev` is always a slide index: the preceding slide, or the last slide before slide 0 |
| `SlideIndex.PrevUndoesNext` | script.js:188-196 | `prev` after `next` returns to the start, and so does `next` after `prev` |
| `SlideIndex.StepMovesIffSeveral` | script.js:188-196 | `next` and `prev` name a different slide exactly when there are at least two slides, so with one slide both are ignored by the no-op guard |
| `SlideIndex.NextCycle` | script.js:188-191 | N consecutive `next` calls return to the starting slide |
| `SlideIndex.PrevCycle` | script.js:193-196 | N consecutive `prev` calls return to the starting slide |
| `SlideIndex.InView` | script.js:102-105 | for a hero and a viewport of positive height, the keyboard gate holds exactly when the rows of the hero and of the viewport overlap |
| `Announcement.ShortAlt` | script.js:234-237 | an alt text of at most 60 characters is kept unchanged; a longer one becomes its first 60 characters plus "...", 63 in all; never more than 63 |
| `Announcement.ShortAltIdempotent` | script.js:234-237 | shortening a shortened description changes nothing |
| `Announcement.Decimal` | script.js:239 | the interpolated numbers are non-empty digit strings without leading zeros that denote the number |
| `Announcement.TakeDigitsOf` | script.js:239 | a digit string followed by a non-digit splits exactly after the digits, so the numbers in the text are delimited |
| `Announcement.Text` | script.js:239 | the announcement starts with "Slide " and ends with the shortened alt text |
| `Announcement.ParseText` | script.js:239 | the announcement reads back as the 1-based position, the slide count and the shortened alt text |
| `Announcement.TextDistinguishes` | script.js:239 | two announcements are equal only for the same position, the same count and the same shortened description |
| `Announcement.TextBounded` | script.js:234-239 | however long the alt text, the announcement is at most 12 fixed characters, the two numbers' digits and 63 description characters |
| `Carousel.CountExactlyOne` | script.js:144-170 | when exactly one position has a flag, the flag count is one, which gives "exactly one active slide" and "exactly one selected dot" |
| `Carousel.FirstImageOf` | script.js:161 | the image found for a slide is the first image, in document order, inside that slide, or none when no image is inside it |
| `Carousel.ActivationLoad` | script.js:160-164 | activating a slide sets its first lazy image's `src` to exactly that image's `data-src` when it has a `data-src` and no `src`, and otherwise leaves it as it was; no other image changes |
| `Carousel.Preloaded` | script.js:55-74 | with an observer, an image of slide index at most 1 (or of no slide) gets exactly its `data-src` as `src` when it has no `src` yet and is otherwise unchanged, and the others are handed to the observer unchanged; without one, every image with a `data-src` gets it as `src` |
| `Carousel.OnIntersect` | script.js:43-53 | an observed image gets exactly its `data-src` as `src` when it still needs a source and keeps its `src` otherwise, and is unobserved either way, so it loads at most once; an unobserved image is untouched |
| `Carousel.HeroCarousel.constructor` | script.js:11-21 | binds the markup: slide 0 active, nothing paused, no timer, handlers not yet bound, no transition yet |
| `Carousel.HeroCarousel.StartAutoplay` | script.js:198-205 | with a timer running nothing changes; otherwise exactly one fresh interval runs and becomes the handle |
| `Carousel.HeroCarousel.StopAutoplay` | script.js:212-217 | safe with or without a timer; afterwards no handle is held and no interval runs |
| `Carousel.HeroCarousel.ResetAutoplay` | script.js:207-210 | afterwards exactly one interval runs, and it is a freshly created one |
| `Carousel.HeroCarousel.Pause` | script.js:219-221 | sets the paused flag and nothing else |
| `Carousel.HeroCarousel.Resume` | script.js:223-225 | clears the paused flag and nothing else |
| `Carousel.HeroCarousel.UpdateLiveRegion` | script.js:227-240 | writes "Slide {j+1} of {N}: {short alt}" when a live region exists; without one nothing is written |
| `Carousel.HeroCarousel.GoToSlide` | script.js:143-186 | the current index, a negative index or one at or past N changes nothing at all; any other target performs the complete transition and keeps the invariant |
| `Carousel.HeroCarousel.Transition` | script.js:146-185 | the transition: slide flags exchanged, slide image requested, all dots reset, announcement written, cleanup scheduled, index set, and the timer restarted only when not paused |
| `Carousel.HeroCarousel.ExchangeActive` | script.js:150-158 | the old slide becomes inactive, `prev` and hidden; the target becomes active, not `prev` and shown; no other slide changes |
| `Carousel.HeroCarousel.LoadSlideImage` | script.js:160-164 | the images become the activation-load result for the target slide |
| `Carousel.HeroCarousel.SelectDot` | script.js:166-170 | every dot's `active` and `aria-selected` are true exactly for the target's dot, whatever they were before |
| `Carousel.HeroCarousel.Next` | script.js:188-191 | with at least two slides, performs the transition to the following slide (wrapping); with one slide, changes nothing |
| `Carousel.HeroCarousel.Prev` | script.js:193-196 | with at least two slides, performs the transition to the preceding slide (wrapping); with one slide, changes nothing |
| `Carousel.HeroCarousel.Tick` | script.js:200-204 | a timer tick while paused changes nothing; otherwise it performs exactly the transition of `next` |
| `Carousel.HeroCarousel.RunCleanup` | script.js:175-178 | the oldest scheduled cleanup clears that slide's `prev` flag and nothing else |
| `Carousel.HeroCarousel.PreloadImages` | script.js:37-76 | every lazy image ends up as the startup loading rule prescribes |
| `Carousel.HeroCarousel.ImageIntersects` | script.js:43-53 | the reported image changes as the observer callback prescribes and no other image changes |
| `Carousel.HeroCarousel.Init` | script.js:18-35 | called once, before any handler is bound; with no slides nothing at all happens; otherwise the images get the startup pass, handlers are bound and a timer runs, with index, pause flag and announcement untouched |
| `Carousel.HeroCarousel.KeyDown` | script.js:100-114 | the default is prevented exactly for ArrowLeft/ArrowRight while the hero section exists and `top < innerHeight && bottom > 0`; those keys act as `prev`/`next`, and anything else changes nothing |
| `Carousel.HeroCarousel.MouseEnter` | script.js:122-124 | pauses when the carousel region is bound |
| `Carousel.HeroCarousel.MouseLeave` | script.js:126-128 | resumes when the carousel region is bound |
| `Carousel.HeroCarousel.FocusIn` | script.js:131-133 | pauses when the carousel region is bound |
| `Carousel.HeroCarousel.FocusOut` | script.js:135-140 | resumes only when focus goes to an element outside the region or nowhere |
| `Carousel.HeroCarousel.ExactlyOneActiveSlide` | script.js:147-158 | in every valid state with slides, exactly one slide is active, and after a transition it is not hidden |
| `Carousel.HeroCarousel.DotsMatchCurrent` | script.js:166-170 | after a transition exactly one dot is active or selected, the current slide's, and it is both; if that dot does not exist, no dot is active or selected |
| `Theme.Toggled` | script.js:262-263 | a click always gives "light" or "dark", and gives "dark" exactly when the current theme is "light" |
| `Theme.Icon` | script.js:272-276 | the moon icon is shown exactly for the light theme, and the sun for every other |

## Left out

- DOM querying and listener registration (`setupNavigation`, `setupKeyboardNav`, `setupHoverPause`) are not modelled. The button and dot click handlers only call `Prev`, `Next` and `GoToSlide`. Whether the `.hero` and `.hero-carousel` elements exist is a constant of the object, and an event on an element without a handler changes nothing.
- Real time is not modelled. The autoplay interval is a handle plus the `Tick` event, and the 600 ms cleanup is a queue plus the `RunCleanup` event. The constants 5000 and 600 are declared but no clock is modelled.
- IntersectionObserver geometry and its 200px root margin are not modelled. An intersecting entry is the `ImageIntersects` event.
- The page-wide lazy-image observer, the counter animation, `debounce`, scroll reveal, the header shadow, back-to-top, the mobile menu, the contact form and the ripple effect are other features of the script, not part of the carousel.
- Theme persistence in `localStorage` and the initial theme read are storage I/O.
- The markup is assumed to show exactly slide 0 as active with no `prev` flags. `init` relies on this and never establishes it.
- Carousel.HeroCarousel.Next: requires at least one slide. With none, the source would compute NaN and fail on `slides[0]`. No caller exists, because `init` returns before binding anything.
- Carousel.HeroCarousel.Prev: requires at least one slide, for the same reason.
- Carousel.HeroCarousel.StartAutoplay: requires at least one slide. It is only reached after `init`'s empty-carousel guard or from a transition.
- `Announcement.ShortAlt` counts Unicode scalar values. JavaScript's `length` and `substring` count UTF-16 code units, so the two differ for characters outside the Basic Multilingual Plane.
- Bounding-rectangle coordinates are integers here; the browser gives floating-point numbers.
- The source finds images with `.carousel-image[data-src]` at startup and with `img[data-src]` inside a slide on activation. The model takes both queries to select the same images. The announced alt text of each slide (the `alt` of its first `img`, or "" without one) is a constant.
- Carousel.HeroCarousel.Init: requires that its handlers are not yet bound, because the page calls `init` once on load. A second call would bind every handler twice, which the model does not represent.

