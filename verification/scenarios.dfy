/** Client code that replays usage scenarios (startup with four slides,
    pausing, wrap-around, keyboard use, long descriptions) against the
    contracts of `Carousel.HeroCarousel` alone. */
module Scenarios {
  import opened Optional
  import opened Carousel
  import Announcement

  /** A page with four slides whose images all wait for their `data-src`. */
  method FourSlides() returns (c: HeroCarousel)
    ensures c.Valid() && fresh(c.slides) && fresh(c.dots) && fresh(c.images)
    ensures c.N == 4 && c.images.Length == 4 && c.dots.Length == 4 && c.currentIndex == 0 && !c.isPaused
    ensures c.alts == ["a", "b", "c", "d"] && c.hasLiveRegion && c.hasHero && c.hasCarouselRegion && c.autoplay == None && !c.listening
    ensures forall k :: 0 <= k < 4 ==> c.images[k] == Img(k, "slide.jpg", "", false)
  {
    var imgs := seq(4, k => MarkupImage(k, "slide.jpg", ""));
    var dots := [Dot(true, true), Dot(false, false), Dot(false, false), Dot(false, false)];
    var m := Markup(["a", "b", "c", "d"], [false, true, true, true], dots, imgs, true, true, true, "");
    c := new HeroCarousel(m);
  }

  /** Startup: slide 0 is current, the images of slides 0 and 1 are
      requested, those of slides 2 and 3 wait for the observer, and one
      autoplay timer runs. */
  method Startup()
  {
    var c := FourSlides();
    c.Init(true);
    assert c.currentIndex == 0;
    assert c.images[0].src != "" && c.images[1].src != "";
    assert c.images[2].src == "" && c.images[3].src == "";
    assert c.images[2].observed && c.images[3].observed;
    assert |c.liveIntervals| == 1;
  }

  /** Starting autoplay again while it runs leaves the one timer in place. */
  method StartTwice()
  {
    var c := FourSlides();
    c.Init(true);
    var before := c.autoplay;
    c.StartAutoplay();
    c.StartAutoplay();
    assert c.autoplay == before && |c.liveIntervals| == 1;
  }

  /** Redundant and out-of-range targets change nothing. */
  method IgnoredTargets()
  {
    var c := FourSlides();
    c.Init(true);
    var text := c.liveText;
    c.GoToSlide(0);
    c.GoToSlide(-1);
    c.GoToSlide(4);
    assert c.currentIndex == 0 && c.liveText == text && c.slides[0].active;
  }

  /** Ticks while paused do nothing; after resuming one tick advances once
      and restarts the timer. */
  method PauseSuppressesTicks()
  {
    var c := FourSlides();
    c.Init(true);
    c.MouseEnter();
    c.Tick();
    c.Tick();
    assert c.currentIndex == 0;
    c.MouseLeave();
    var h := c.nextHandle;
    c.Tick();
    assert c.currentIndex == 1 && c.autoplay == Some(h) && c.liveIntervals == {h};
  }

  /** A manual advance replaces the running timer by a fresh one. */
  method ManualAdvanceRestartsTimer()
  {
    var c := FourSlides();
    c.Init(true);
    var running := c.autoplay;
    c.Next();
    assert c.autoplay != running && c.autoplay == Some(c.nextHandle - 1);
    assert c.liveIntervals == {c.nextHandle - 1};
    assert c.dots[1] == Dot(true, true) && c.dots[0] == Dot(false, false);
  }

  /** After a jump by dot, the target's dot is the only one active or
      selected, and the target slide is the only active one. */
  method DotJump()
  {
    var c := FourSlides();
    c.Init(true);
    c.GoToSlide(2);
    c.DotsMatchCurrent();
    c.ExactlyOneActiveSlide();
    assert c.dots[2] == Dot(true, true) && !c.slides[2].hidden;
    assert Count(c.dots[..], (d: Dot) => d.active || d.selected) == 1;
  }

  /** An advance is announced with the new position, the count and the
      slide's description. */
  method AnnouncesAdvance()
  {
    var c := FourSlides();
    c.Init(true);
    c.Next();
    assert c.liveText == Announcement.Text(1, 4, "b");
    Announcement.ParseText(1, 4, "b");
    assert Announcement.Parse(c.liveText) == Some(Announcement.Heard(2, 4, "b"));
  }

  /** Four advances go round the four slides and back to the first. */
  method FullCircle()
  {
    var c := FourSlides();
    c.Init(true);
    c.Next();
    c.Next();
    c.Next();
    assert c.currentIndex == 3;
    c.Next();
    assert c.currentIndex == 0;
    c.Prev();
    assert c.currentIndex == 3;
  }

  /** The right arrow while the hero is scrolled out of view does nothing. */
  method KeyOutOfView()
  {
    var c := FourSlides();
    c.Init(true);
    var prevented := c.KeyDown("ArrowRight", -900, -100, 800);
    assert !prevented && c.currentIndex == 0;
    prevented := c.KeyDown("ArrowRight", 0, 600, 800);
    assert prevented && c.currentIndex == 1;
  }

  /** An 80-character description is announced as its first 60 characters
      and an ellipsis. */
  method LongDescription()
  {
    var alt := seq(80, i => 'x');
    var short := Announcement.ShortAlt(alt);
    assert short == alt[..60] + "...";
  }
}
