/** The hero carousel: an index over a fixed list of slides with a parallel
    list of indicators, advanced by a 5-second timer (one call of `Tick` per
    timer firing) or set by clicking an indicator. */
module Carousel {
  import opened Flags

  /** `nextSlide`: advance circularly. */
  function NextIndex(current: nat, count: nat): (next: nat)
    requires count > 0
    ensures next < count
    ensures current < count ==> next == if current + 1 == count then 0 else current + 1
  {
    (current + 1) % count
  }

  /** The index after `m` timer ticks starting from `start`. */
  function Ticks(start: nat, count: nat, m: nat): nat
    requires count > 0
  {
    if m == 0 then start else NextIndex(Ticks(start, count, m - 1), count)
  }

  lemma MulAtLeast(k: int, n: int)
    requires n > 0 && k >= 1
    ensures k * n >= n
  {
  }

  /** The remainder is determined by any quotient/remainder decomposition. */
  lemma ModUnique(x: int, n: int, q: int, r: int)
    requires n > 0 && 0 <= r < n && x == q * n + r
    ensures x % n == r
  {
    var q', r' := x / n, x % n;
    assert x == q' * n + r';
    assert (q - q') * n == r' - r;
    if q > q' {
      MulAtLeast(q - q', n);
    } else if q < q' {
      MulAtLeast(q' - q, n);
    }
  }

  lemma StepMod(x: nat, n: nat)
    requires n > 0
    ensures (x % n + 1) % n == (x + 1) % n
  {
    var q, r := x / n, x % n;
    assert x == q * n + r;
    if r + 1 < n {
      ModUnique(x + 1, n, q, r + 1);
      ModUnique(r + 1, n, 0, r + 1);
    } else {
      ModUnique(x + 1, n, q + 1, 0);
      ModUnique(r + 1, n, 1, 0);
    }
  }

  /** After `m > 0` ticks the index is `(start + m) mod count`, whatever the
      start (even an index past the slides, set through an indicator). */
  lemma {:induction false} TicksWrap(start: nat, count: nat, m: nat)
    requires count > 0 && m > 0
    ensures Ticks(start, count, m) == (start + m) % count
  {
    if m > 1 {
      TicksWrap(start, count, m - 1);
      StepMod(start + m - 1, count);
    }
  }

  /** From the initial slide 0, after `m` ticks the index is `m mod count`. */
  lemma TicksFromFirst(count: nat, m: nat)
    requires count > 0
    ensures Ticks(0, count, m) == m % count
  {
    if m > 0 {
      TicksWrap(0, count, m);
    }
  }

  /** The closure state of `initCarousel`: the `active` flags of the slides
      and the indicators, and `currentSlide`. */
  class Carousel {
    const slides: array<bool>
    const indicators: array<bool>
    /** The timer and the indicator listeners are installed (there are slides). */
    const running: bool
    var current: nat

    ghost predicate Valid()
      reads this, slides, indicators
    {
      && slides != indicators
      && (running <==> slides.Length > 0)
      && (!running ==> current == 0)
      && (running ==>
            && (current < slides.Length || current < indicators.Length)
            && slides[..] == OnlyAt(slides.Length, current)
            && indicators[..] == OnlyAt(indicators.Length, current))
    }

    /** `initCarousel` on a page whose slides and indicators carry the given
        flags: with no slides nothing is touched and no timer is installed;
        otherwise slide 0 and indicator 0 are the active ones. */
    constructor Init(slides: array<bool>, indicators: array<bool>)
      requires slides != indicators
      modifies slides, indicators
      ensures this.slides == slides && this.indicators == indicators
      ensures Valid()
      ensures running <==> slides.Length > 0
      ensures current == 0
      ensures !running ==> unchanged(slides) && unchanged(indicators)
      ensures running ==> slides[..] == OnlyAt(slides.Length, 0)
      ensures running ==> indicators[..] == OnlyAt(indicators.Length, 0)
    {
      this.slides := slides;
      this.indicators := indicators;
      running := slides.Length > 0;
      current := 0;
      new;
      if running {
        UpdateSlide();
      }
    }

    /** `updateSlide`: mark exactly the slide and the indicator at `current`. */
    method UpdateSlide()
      requires slides != indicators
      modifies slides, indicators
      ensures slides[..] == OnlyAt(slides.Length, current)
      ensures indicators[..] == OnlyAt(indicators.Length, current)
    {
      var i := 0;
      while i < slides.Length
        invariant 0 <= i <= slides.Length
        invariant forall k :: 0 <= k < i ==> slides[k] == (k == current)
      {
        slides[i] := i == current;
        i := i + 1;
      }
      i := 0;
      while i < indicators.Length
        invariant 0 <= i <= indicators.Length
        invariant forall k :: 0 <= k < i ==> indicators[k] == (k == current)
        invariant slides[..] == OnlyAt(slides.Length, current)
      {
        indicators[i] := i == current;
        i := i + 1;
      }
    }

    /** One firing of the 5-second interval (`nextSlide`). */
    method Tick()
      requires Valid()
      modifies this`current, slides, indicators
      ensures Valid()
      ensures !running ==> current == old(current) && unchanged(slides) && unchanged(indicators)
      ensures running ==> current == NextIndex(old(current), slides.Length)
    {
      if running {
        current := NextIndex(current, slides.Length);
        UpdateSlide();
      }
    }

    /** A click on indicator `index` (`goToSlide(index)`): the index is taken
        verbatim, even when it is past the last slide. */
    method ClickIndicator(index: nat)
      requires Valid()
      requires index < indicators.Length
      modifies this`current, slides, indicators
      ensures Valid()
      ensures !running ==> current == old(current) && unchanged(slides) && unchanged(indicators)
      ensures running ==> current == index
    {
      if running {
        current := index;
        UpdateSlide();
      }
    }

    /** At most one slide is active, and exactly one while the index names a slide. */
    lemma ActiveSlides()
      requires Valid() && running
      ensures CountSet(slides[..]) == if current < slides.Length then 1 else 0
      ensures CountSet(indicators[..]) == if current < indicators.Length then 1 else 0
    {
      OnlyAtCount(slides.Length, current);
      OnlyAtCount(indicators.Length, current);
    }
  }
}
