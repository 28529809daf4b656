/** The hero carousel controller: one object holding the current slide, the
    pause flag and the autoplay timer handle, and acting on the per-slide,
    per-dot and per-image state of the page it is bound to. Every change of
    slide goes through `GoToSlide`. */
module Carousel {
  import opened Optional
  import opened SlideIndex
  import Announcement

  /** Milliseconds between automatic advances. Recorded for reference only:
      the model has no clock, and a timer firing is the `Tick` event. */
  const AutoplayDelay: nat := 5000

  /** Milliseconds after a transition at which the exit flag is cleared.
      Recorded for reference only: the cleanup firing is the `RunCleanup` event. */
  const TransitionDuration: nat := 600

  /** The state of one slide element: the `active` and `prev` classes and
      the `aria-hidden` attribute. */
  datatype SlideFlags = SlideFlags(active: bool, prev: bool, hidden: bool)

  /** A slide that has just become current. */
  const Entered := SlideFlags(true, false, false)

  /** A slide that has just been left, playing its exit transition. */
  const Left := SlideFlags(false, true, true)

  /** The state of one pagination dot: the `active` class and the
      `aria-selected` attribute. */
  datatype Dot = Dot(active: bool, selected: bool)

  /** What dot `i` shows while slide `j` is current. */
  function DotFor(i: nat, j: nat): (d: Dot)
  {
    Dot(i == j, i == j)
  }

  /** A lazily sourced carousel image: the slide that contains it (-1 when
      no slide does), its `data-src` ("" when empty), its `src` ("" when
      none is assigned) and whether the visibility observer watches it. */
  datatype Img = Img(slide: int, dataSrc: string, src: string, observed: bool)

  /** How many elements of `s` satisfy `p`. */
  function Count<T>(s: seq<T>, p: T -> bool): (n: nat)
  {
    if s == [] then 0 else Count(s[..|s| - 1], p) + (if p(s[|s| - 1]) then 1 else 0)
  }

  lemma {:induction false} CountNone<T>(s: seq<T>, p: T -> bool)
    requires forall i :: 0 <= i < |s| ==> !p(s[i])
    ensures Count(s, p) == 0
  {
    if s != [] {
      CountNone(s[..|s| - 1], p);
    }
  }

  /** When exactly position `c` satisfies `p`, exactly one element does. */
  lemma {:induction false} CountExactlyOne<T>(s: seq<T>, p: T -> bool, c: nat)
    requires c < |s|
    requires forall i :: 0 <= i < |s| ==> (p(s[i]) <==> i == c)
    ensures Count(s, p) == 1
  {
    if c == |s| - 1 {
      CountNone(s[..|s| - 1], p);
    } else {
      CountExactlyOne(s[..|s| - 1], p, c);
    }
  }

  /** The first image, in document order, that lies in slide `j` and
      carries a `data-src`: the answer of `querySelector('img[data-src]')`
      on that slide, or -1 when there is none. */
  function FirstImageOf(imgs: seq<Img>, j: int, from: nat := 0): (k: int)
    requires from <= |imgs|
    ensures -1 <= k < |imgs|
    ensures k == -1 ==> forall i :: from <= i < |imgs| ==> imgs[i].slide != j
    ensures k != -1 ==>
      from <= k && imgs[k].slide == j && forall i :: from <= i < k ==> imgs[i].slide != j
    decreases |imgs| - from
  {
    if from == |imgs| then -1
    else if imgs[from].slide == j then from
    else FirstImageOf(imgs, j, from + 1)
  }

  /** An image that has a `data-src` and no `src` yet. */
  predicate NeedsSource(img: Img)
  {
    img.dataSrc != "" && img.src == ""
  }

  /** The images after slide `j` is activated: the slide's first lazy image
      gets its `data-src` as `src` if it has one and no `src` yet. */
  function ActivationLoad(imgs: seq<Img>, j: int): (r: seq<Img>)
    ensures |r| == |imgs|
    ensures forall i :: 0 <= i < |imgs| ==>
      r[i].slide == imgs[i].slide && r[i].dataSrc == imgs[i].dataSrc
      && r[i].observed == imgs[i].observed
    // an assigned source is never replaced
    ensures forall i :: 0 <= i < |imgs| && imgs[i].src != "" ==> r[i] == imgs[i]
    // only the slide's first lazy image may change
    ensures forall i :: 0 <= i < |imgs| && i != FirstImageOf(imgs, j) ==> r[i] == imgs[i]
    // that image is requested by the time its slide is shown
    ensures var k := FirstImageOf(imgs, j);
      k != -1 && imgs[k].dataSrc != "" ==> r[k].src != ""
    // and it is its own data-src that it gets, only when it needs a source
    ensures var k := FirstImageOf(imgs, j);
      k != -1 ==> r[k].src == (if NeedsSource(imgs[k]) then imgs[k].dataSrc else imgs[k].src)
  {
    var k := FirstImageOf(imgs, j);
    if k != -1 && NeedsSource(imgs[k]) then imgs[k := imgs[k].(src := imgs[k].dataSrc)] else imgs
  }

  /** One image after the startup loading pass. With a visibility observer,
      images of the first two slides (or of none) are loaded at once and the
      others are handed to the observer; without one, every image with a
      `data-src` is loaded. */
  function Preloaded(img: Img, observerAvailable: bool): (r: Img)
    ensures r.slide == img.slide && r.dataSrc == img.dataSrc
    ensures img.dataSrc != "" && (!observerAvailable || img.slide <= 1) ==> r.src != ""
    ensures observerAvailable && img.slide <= 1 ==> r.observed == img.observed
    ensures observerAvailable && img.slide <= 1 ==>
      r.src == (if NeedsSource(img) then img.dataSrc else img.src)
    ensures observerAvailable && img.slide > 1 ==> r.src == img.src && r.observed
    ensures observerAvailable && img.src != "" ==> r.src == img.src
    ensures !observerAvailable ==>
      r.observed == img.observed && r.src == (if img.dataSrc != "" then img.dataSrc else img.src)
  {
    if observerAvailable then
      if img.slide <= 1 then
        if NeedsSource(img) then img.(src := img.dataSrc) else img
      else img.(observed := true)
    else if img.dataSrc != "" then img.(src := img.dataSrc)
    else img
  }

  /** One image after the observer reports it intersecting the viewport: a
      watched image is loaded if it still needs a source and is no longer
      watched; an image the observer does not watch is not reported. */
  function OnIntersect(img: Img): (r: Img)
    ensures r.slide == img.slide && r.dataSrc == img.dataSrc
    ensures !img.observed ==> r == img
    ensures img.observed ==> !r.observed
    ensures img.observed ==> r.src == (if NeedsSource(img) then img.dataSrc else img.src)
    ensures img.observed && img.dataSrc != "" ==> r.src != ""
    ensures img.src != "" ==> r.src == img.src
  {
    if !img.observed then img
    else (if NeedsSource(img) then img.(src := img.dataSrc) else img).(observed := false)
  }

  /** The live setInterval handles when `autoplay` is the controller's handle. */
  function IntervalsOf(autoplay: Option<nat>): (live: set<nat>)
  {
    if autoplay.Some? then {autoplay.value} else {}
  }

  /** What the page offers the controller when it is created. */
  datatype MarkupImage = MarkupImage(slide: int, dataSrc: string, src: string)
  datatype Markup = Markup(
    alts: seq<string>,          // per slide, the alt text of its first image ("" if none)
    hidden: seq<bool>,          // per slide, the initial aria-hidden value
    dots: seq<Dot>,
    images: seq<MarkupImage>,   // the `.carousel-image[data-src]` elements
    hasLiveRegion: bool,
    hasHero: bool,              // the `.hero` section the keyboard handler measures
    hasCarouselRegion: bool,    // the `.hero-carousel` element that pauses on hover and focus
    liveText: string)

  class HeroCarousel {
    const N: nat
    const alts: seq<string>
    const hasLiveRegion: bool
    const hasHero: bool
    const hasCarouselRegion: bool
    const slides: array<SlideFlags>
    const dots: array<Dot>
    const images: array<Img>

    var currentIndex: nat
    var isPaused: bool
    var autoplay: Option<nat>
    var liveText: string
    /** Whether `Init` has bound the event handlers. */
    var listening: bool
    /** Slides whose exit-flag cleanup is scheduled, oldest first. */
    var cleanups: seq<nat>

    // The host's interval timers: the next handle it will hand out and the
    // handles of the intervals still running.
    var nextHandle: nat
    var liveIntervals: set<nat>

    /** At least one transition has happened, so the dots and the current
        slide's aria-hidden have been set by the controller. */
    ghost var transitioned: bool

    ghost predicate Valid()
      reads this, slides, dots, images
    {
      && slides.Length == N && |alts| == N
      && (N == 0 ==> currentIndex == 0) && (0 < N ==> currentIndex < N)
      && (forall i :: 0 <= i < N ==> (slides[i].active <==> i == currentIndex))
      && (forall i :: 0 <= i < N && slides[i].prev ==> !slides[i].active && slides[i].hidden)
      && (forall i :: 0 <= i < N && slides[i].prev ==> i in cleanups)
      && (forall t :: 0 <= t < |cleanups| ==> cleanups[t] < N)
      && (forall k :: 0 <= k < images.Length ==> -1 <= images[k].slide < N)
      && (transitioned ==> 0 < N && !slides[currentIndex].hidden)
      && (transitioned ==> forall i :: 0 <= i < dots.Length ==> dots[i] == DotFor(i, currentIndex))
      && (listening ==> 0 < N)
      && 0 < nextHandle
      && (autoplay.Some? ==> 0 < N && 0 < autoplay.value < nextHandle)
      && liveIntervals == IntervalsOf(autoplay)
    }

    /** Binds the controller to the page. The markup shows slide 0 as the
        active one and no slide mid-exit; the controller never sets this up
        itself. */
    constructor (m: Markup)
      requires |m.hidden| == |m.alts|
      requires forall k :: 0 <= k < |m.images| ==> -1 <= m.images[k].slide < |m.alts|
      ensures Valid() && fresh(slides) && fresh(dots) && fresh(images)
      ensures N == |m.alts| && alts == m.alts && hasLiveRegion == m.hasLiveRegion
      ensures hasHero == m.hasHero && hasCarouselRegion == m.hasCarouselRegion
      ensures forall i :: 0 <= i < N ==> slides[i] == SlideFlags(i == 0, false, m.hidden[i])
      ensures dots[..] == m.dots
      ensures images.Length == |m.images|
      ensures forall k :: 0 <= k < |m.images| ==>
        images[k] == Img(m.images[k].slide, m.images[k].dataSrc, m.images[k].src, false)
      ensures currentIndex == 0 && !isPaused && autoplay == None && liveIntervals == {}
      ensures liveText == m.liveText && !listening && cleanups == [] && !transitioned
    {
      N := |m.alts|;
      alts := m.alts;
      hasLiveRegion, hasHero, hasCarouselRegion := m.hasLiveRegion, m.hasHero, m.hasCarouselRegion;
      slides := new SlideFlags[|m.alts|](i requires 0 <= i < |m.alts| reads {} => SlideFlags(i == 0, false, m.hidden[i]));
      dots := new Dot[|m.dots|](i requires 0 <= i < |m.dots| reads {} => m.dots[i]);
      images := new Img[|m.images|](k requires 0 <= k < |m.images| reads {} =>
        Img(m.images[k].slide, m.images[k].dataSrc, m.images[k].src, false));
      currentIndex, isPaused, autoplay, liveText := 0, false, None, m.liveText;
      listening, cleanups := false, [];
      nextHandle, liveIntervals := 1, {};
      transitioned := false;
      new;
      assert dots[..] == m.dots;
    }

    /** A transition to `index` is carried out: it names another slide that
        exists. */
    predicate Accepts(index: int)
      reads this
    {
      index != currentIndex && 0 <= index < N
    }

    /** Nothing observable changed. */
    twostate predicate Stayed()
      reads this, slides, dots, images
    {
      unchanged(this) && unchanged(slides) && unchanged(dots) && unchanged(images)
    }

    /** The complete effect of a carried-out transition to `index`. */
    twostate predicate MovedTo(index: nat)
      requires old(Valid()) && index < N
      reads this, slides, dots, images
    {
      && currentIndex == index && transitioned
      && slides[..] == old(slides[..])[old(currentIndex) := Left][index := Entered]
      && (forall i :: 0 <= i < dots.Length ==> dots[i] == DotFor(i, index))
      && images[..] == ActivationLoad(old(images[..]), index)
      && liveText == (if hasLiveRegion then Announcement.Text(index, N, alts[index]) else old(liveText))
      && cleanups == old(cleanups) + [old(currentIndex)]
      && isPaused == old(isPaused) && listening == old(listening)
      && if isPaused then
           autoplay == old(autoplay) && nextHandle == old(nextHandle) && liveIntervals == old(liveIntervals)
         else
           autoplay == Some(old(nextHandle)) && nextHandle == old(nextHandle) + 1
           && liveIntervals == {old(nextHandle)}
    }

    /** The host starts a repeating timer and hands out a fresh handle. */
    method SetInterval() returns (h: nat)
      modifies this`nextHandle, this`liveIntervals
      ensures h == old(nextHandle) && nextHandle == h + 1
      ensures liveIntervals == old(liveIntervals) + {h}
    {
      h := nextHandle;
      nextHandle := nextHandle + 1;
      liveIntervals := liveIntervals + {h};
    }

    /** The host cancels a repeating timer. */
    method ClearInterval(h: nat)
      modifies this`liveIntervals
      ensures liveIntervals == old(liveIntervals) - {h}
    {
      liveIntervals := liveIntervals - {h};
    }

    /** Starts the autoplay timer unless one is already running. */
    method StartAutoplay()
      requires Valid() && 0 < N
      modifies this`autoplay, this`nextHandle, this`liveIntervals
      ensures Valid()
      ensures old(autoplay).Some? ==>
        autoplay == old(autoplay) && nextHandle == old(nextHandle) && liveIntervals == old(liveIntervals)
      ensures old(autoplay).None? ==>
        autoplay == Some(old(nextHandle)) && nextHandle == old(nextHandle) + 1
        && liveIntervals == {old(nextHandle)}
    {
      if autoplay.Some? {
        return;
      }
      var h := SetInterval();
      autoplay := Some(h);
    }

    /** Cancels the autoplay timer if there is one; always leaves none. */
    method StopAutoplay()
      requires Valid()
      modifies this`autoplay, this`liveIntervals
      ensures Valid()
      ensures autoplay == None && liveIntervals == {}
    {
      if autoplay.Some? {
        ClearInterval(autoplay.value);
        autoplay := None;
      }
    }

    /** Replaces whatever timer runs by exactly one fresh one, so the next
        automatic advance is a full interval away. */
    method ResetAutoplay()
      requires Valid() && 0 < N
      modifies this`autoplay, this`nextHandle, this`liveIntervals
      ensures Valid()
      ensures autoplay == Some(old(nextHandle)) && nextHandle == old(nextHandle) + 1
      ensures liveIntervals == {old(nextHandle)}
    {
      StopAutoplay();
      StartAutoplay();
    }

    method Pause()
      requires Valid()
      modifies this`isPaused
      ensures Valid() && isPaused
    {
      isPaused := true;
    }

    method Resume()
      requires Valid()
      modifies this`isPaused
      ensures Valid() && !isPaused
    {
      isPaused := false;
    }

    /** Writes the announcement for slide `index` into the live region, if
        the page has one. */
    method UpdateLiveRegion(index: nat)
      requires index < N && |alts| == N
      modifies this`liveText
      ensures liveText == if hasLiveRegion then Announcement.Text(index, N, alts[index]) else old(liveText)
    {
      if !hasLiveRegion {
        return;
      }
      liveText := Announcement.Text(index, N, alts[index]);
    }

    /** Requests the first lazy image of slide `index` if it still lacks a
        source. */
    method LoadSlideImage(index: nat)
      modifies images
      ensures images[..] == ActivationLoad(old(images[..]), index)
    {
      var k := FirstImageOf(images[..], index);
      if k != -1 && images[k].dataSrc != "" && images[k].src == "" {
        images[k] := images[k].(src := images[k].dataSrc);
      }
    }

    /** Sets every dot's `active` class and `aria-selected` to whether it is
        dot `index`, whatever they were before. */
    method SelectDot(index: nat)
      modifies dots
      ensures forall i :: 0 <= i < dots.Length ==> dots[i] == DotFor(i, index)
    {
      var i := 0;
      while i < dots.Length
        invariant 0 <= i <= dots.Length
        invariant forall t :: 0 <= t < i ==> dots[t] == DotFor(t, index)
      {
        dots[i] := Dot(i == index, i == index);
        i := i + 1;
      }
    }

    /** The one state transition: make slide `index` the current one. The
        current slide, a negative index and one past the last slide are
        ignored without any effect. */
    method GoToSlide(index: int)
      requires Valid()
      modifies this, slides, dots, images
      ensures Valid()
      ensures old(Accepts(index)) ==> MovedTo(index)
      ensures !old(Accepts(index)) ==> Stayed()
    {
      if index == currentIndex || index < 0 || index >= N {
        return;
      }
      Transition(index);
    }

    /** The body of a carried-out transition. */
    method Transition(index: nat)
      requires Valid() && Accepts(index)
      modifies this, slides, dots, images
      ensures Valid() && MovedTo(index)
    {
      var current := currentIndex;
      ExchangeActive(current, index);
      ghost var slidesAfter := slides[..];
      LoadSlideImage(index);
      ghost var imagesAfter := images[..];
      SelectDot(index);
      UpdateLiveRegion(index);
      ghost var textAfter := liveText;
      cleanups := cleanups + [current];
      currentIndex := index;
      transitioned := true;
      assert forall i :: 0 <= i < N && slides[i].prev ==> i in cleanups;
      assert Valid();
      if !isPaused {
        ResetAutoplay();
      }
      assert slides[..] == slidesAfter && images[..] == imagesAfter && liveText == textAfter;
    }

    /** Slide `current` loses `active`, gains `prev` and is hidden; slide
        `index` gains `active`, loses `prev` and is shown. */
    method ExchangeActive(current: nat, index: nat)
      requires Valid() && current == currentIndex && Accepts(index)
      modifies slides
      ensures slides[..] == old(slides[..])[current := Left][index := Entered]
      ensures forall i :: 0 <= i < N ==> (slides[i].active <==> i == index)
      ensures forall i :: 0 <= i < N && slides[i].prev ==> !slides[i].active && slides[i].hidden
      ensures forall i :: 0 <= i < N && slides[i].prev ==> i in cleanups || i == current
      ensures !slides[index].hidden
    {
      slides[current] := Left;
      slides[index] := Entered;
    }

    /** Advances to the following slide, from the last back to the first. */
    method Next()
      requires Valid() && 0 < N
      modifies this, slides, dots, images
      ensures Valid()
      ensures 1 < N ==> MovedTo(NextIndex(old(currentIndex), N))
      ensures N == 1 ==> Stayed()
    {
      var j := NextIndex(currentIndex, N);
      StepMovesIffSeveral(currentIndex, N);
      GoToSlide(j);
    }

    /** Goes back to the preceding slide, from the first to the last. */
    method Prev()
      requires Valid() && 0 < N
      modifies this, slides, dots, images
      ensures Valid()
      ensures 1 < N ==> MovedTo(PrevIndex(old(currentIndex), N))
      ensures N == 1 ==> Stayed()
    {
      var j := PrevIndex(currentIndex, N);
      StepMovesIffSeveral(currentIndex, N);
      GoToSlide(j);
    }

    /** The autoplay timer fires: advance unless paused. */
    method Tick()
      requires Valid() && autoplay.Some?
      modifies this, slides, dots, images
      ensures Valid()
      ensures old(isPaused) || N == 1 ==> Stayed()
      ensures !old(isPaused) && 1 < N ==> MovedTo(NextIndex(old(currentIndex), N))
    {
      if !isPaused {
        Next();
      }
    }

    /** The exit transition of the oldest left slide is over: clear its
        `prev` flag. Equal delays fire in the order they were scheduled. */
    method RunCleanup()
      requires Valid() && cleanups != []
      modifies this`cleanups, slides
      ensures Valid()
      ensures cleanups == old(cleanups)[1..]
      ensures slides[..] == old(slides[..])[old(cleanups[0]) := old(slides[cleanups[0]]).(prev := false)]
    {
      var c := cleanups[0];
      slides[c] := slides[c].(prev := false);
      cleanups := cleanups[1..];
      assert forall i :: 0 <= i < N && slides[i].prev ==> i in old(cleanups) && i != c;
      assert forall i :: i in old(cleanups) && i != c ==> i in cleanups;
    }

    /** The startup loading pass over every lazy image. */
    method PreloadImages(observerAvailable: bool)
      requires Valid()
      modifies images
      ensures Valid()
      ensures forall k :: 0 <= k < images.Length ==> images[k] == Preloaded(old(images[k]), observerAvailable)
    {
      var k := 0;
      while k < images.Length
        invariant 0 <= k <= images.Length
        invariant forall t :: 0 <= t < k ==> images[t] == Preloaded(old(images[t]), observerAvailable)
        invariant forall t :: k <= t < images.Length ==> images[t] == old(images[t])
      {
        var img := images[k];
        if observerAvailable {
          if img.slide <= 1 {
            if img.dataSrc != "" && img.src == "" {
              images[k] := img.(src := img.dataSrc);
            }
          } else {
            images[k] := img.(observed := true);
          }
        } else if img.dataSrc != "" {
          images[k] := img.(src := img.dataSrc);
        }
        k := k + 1;
      }
    }

    /** The visibility observer reports image `k` near the viewport. */
    method ImageIntersects(k: nat)
      requires Valid() && k < images.Length
      modifies images
      ensures Valid()
      ensures images[..] == old(images[..])[k := OnIntersect(old(images[k]))]
    {
      var img := images[k];
      if img.observed {
        if img.dataSrc != "" && img.src == "" {
          img := img.(src := img.dataSrc);
        }
        images[k] := img.(observed := false);
      }
    }

    /** Page load: with no slides nothing happens; otherwise the images get
        their startup pass, the handlers are bound and autoplay starts. */
    method Init(observerAvailable: bool)
      requires Valid() && !listening
      modifies this, images
      ensures Valid()
      ensures N == 0 ==> unchanged(this) && unchanged(images)
      ensures 0 < N ==> listening
      ensures 0 < N ==> forall k :: 0 <= k < images.Length ==>
        images[k] == Preloaded(old(images[k]), observerAvailable)
      ensures 0 < N ==> autoplay.Some? && (old(autoplay).None? ==> autoplay == Some(old(nextHandle)))
      ensures currentIndex == old(currentIndex) && isPaused == old(isPaused)
      ensures liveText == old(liveText) && cleanups == old(cleanups)
    {
      if N == 0 {
        return;
      }
      PreloadImages(observerAvailable);
      listening := true;
      StartAutoplay();
    }

    /** A key press anywhere on the page. Arrow keys navigate, and lose their
        default scrolling, only while the hero section is in view. Returns
        whether the default action was prevented. */
    method KeyDown(key: string, top: int, bottom: int, innerHeight: int) returns (prevented: bool)
      requires Valid()
      modifies this, slides, dots, images
      ensures Valid()
      ensures prevented <==>
        listening && hasHero && InView(top, bottom, innerHeight) && key in {"ArrowLeft", "ArrowRight"}
      ensures !prevented || N == 1 ==> Stayed()
      ensures prevented && key == "ArrowLeft" && 1 < N ==> MovedTo(PrevIndex(old(currentIndex), N))
      ensures prevented && key == "ArrowRight" && 1 < N ==> MovedTo(NextIndex(old(currentIndex), N))
    {
      prevented := false;
      if !listening || !hasHero || !InView(top, bottom, innerHeight) {
        return;
      }
      if key == "ArrowLeft" {
        prevented := true;
        Prev();
      } else if key == "ArrowRight" {
        prevented := true;
        Next();
      }
    }

    /** The mouse enters the carousel region. */
    method MouseEnter()
      requires Valid()
      modifies this`isPaused
      ensures Valid()
      ensures isPaused == (old(isPaused) || (listening && hasCarouselRegion))
    {
      if listening && hasCarouselRegion {
        Pause();
      }
    }

    /** The mouse leaves the carousel region. */
    method MouseLeave()
      requires Valid()
      modifies this`isPaused
      ensures Valid()
      ensures isPaused == (old(isPaused) && !(listening && hasCarouselRegion))
    {
      if listening && hasCarouselRegion {
        Resume();
      }
    }

    /** Focus moves onto an element inside the carousel region. */
    method FocusIn()
      requires Valid()
      modifies this`isPaused
      ensures Valid()
      ensures isPaused == (old(isPaused) || (listening && hasCarouselRegion))
    {
      if listening && hasCarouselRegion {
        Pause();
      }
    }

    /** Focus leaves an element of the carousel region; `targetInside` says
        whether the element receiving focus is itself inside the region (it
        is false when focus goes nowhere). */
    method FocusOut(targetInside: bool)
      requires Valid()
      modifies this`isPaused
      ensures Valid()
      ensures isPaused == (old(isPaused) && !(listening && hasCarouselRegion && !targetInside))
    {
      if listening && hasCarouselRegion && !targetInside {
        Resume();
      }
    }

    /** Exactly one slide is active, and its aria-hidden is off once the
        controller has made a transition. */
    lemma ExactlyOneActiveSlide()
      requires Valid() && 0 < N
      ensures Count(slides[..], (s: SlideFlags) => s.active) == 1
      ensures transitioned ==> !slides[currentIndex].hidden
    {
      CountExactlyOne(slides[..], (s: SlideFlags) => s.active, currentIndex);
    }

    /** After a transition the current slide's dot, when it exists, is the
        only dot that is active or selected, and it is both; when there is no
        dot for it, no dot is active or selected. */
    lemma DotsMatchCurrent()
      requires Valid() && transitioned
      ensures currentIndex < dots.Length ==>
        Count(dots[..], (d: Dot) => d.active || d.selected) == 1
        && dots[currentIndex] == Dot(true, true)
      ensures currentIndex >= dots.Length ==> Count(dots[..], (d: Dot) => d.active || d.selected) == 0
    {
      if currentIndex < dots.Length {
        CountExactlyOne(dots[..], (d: Dot) => d.active || d.selected, currentIndex);
      } else {
        CountNone(dots[..], (d: Dot) => d.active || d.selected);
      }
    }
  }
}
