/** Index arithmetic of the hero carousel: the cyclic successor and
    predecessor used by `next` and `prev`, and the viewport test that gates
    keyboard navigation. */
module SlideIndex {

  /** The slide after `i` among `n` slides: `(i + 1) % n`. Both operands are
      non-negative, so the truncating remainder of the source and Dafny's
      Euclidean one agree. */
  function NextIndex(i: nat, n: nat): (r: nat)
    requires i < n
    ensures r < n
    ensures r == if i + 1 == n then 0 else i + 1
  {
    (i + 1) % n
  }

  /** The slide before `i` among `n` slides: `(i - 1 + n) % n`. */
  function PrevIndex(i: nat, n: nat): (r: nat)
    requires i < n
    ensures r < n
    ensures r == if i == 0 then n - 1 else i - 1
  {
    (i - 1 + n) % n
  }

  /** `prev` undoes `next` and `next` undoes `prev`. */
  lemma PrevUndoesNext(i: nat, n: nat)
    requires i < n
    ensures PrevIndex(NextIndex(i, n), n) == i
    ensures NextIndex(PrevIndex(i, n), n) == i
  {
  }

  /** With more than one slide, `next` and `prev` always name a slide other
      than the current one, so the transition they request is never the
      ignored self-transition; with one slide both name the current slide. */
  lemma StepMovesIffSeveral(i: nat, n: nat)
    requires i < n
    ensures NextIndex(i, n) != i <==> n > 1
    ensures PrevIndex(i, n) != i <==> n > 1
  {
  }

  /** The index reached from `i` by `k` consecutive calls of `next`. */
  function NextIter(i: nat, n: nat, k: nat): (r: nat)
    requires i < n
    ensures r < n
  {
    if k == 0 then i else NextIndex(NextIter(i, n, k - 1), n)
  }

  /** The index reached from `i` by `k` consecutive calls of `prev`. */
  function PrevIter(i: nat, n: nat, k: nat): (r: nat)
    requires i < n
    ensures r < n
  {
    if k == 0 then i else PrevIndex(PrevIter(i, n, k - 1), n)
  }

  lemma {:induction false} NextIterSplit(i: nat, n: nat, a: nat, b: nat)
    requires i < n
    ensures NextIter(i, n, a + b) == NextIter(NextIter(i, n, a), n, b)
  {
    if b > 0 {
      NextIterSplit(i, n, a, b - 1);
    }
  }

  lemma {:induction false} PrevIterSplit(i: nat, n: nat, a: nat, b: nat)
    requires i < n
    ensures PrevIter(i, n, a + b) == PrevIter(PrevIter(i, n, a), n, b)
  {
    if b > 0 {
      PrevIterSplit(i, n, a, b - 1);
    }
  }

  /** Without wrapping, `k` calls of `next` add `k`. */
  lemma {:induction false} NextIterNoWrap(i: nat, n: nat, k: nat)
    requires i + k < n
    ensures NextIter(i, n, k) == i + k
  {
    if k > 0 {
      NextIterNoWrap(i, n, k - 1);
    }
  }

  /** Without wrapping, `k` calls of `prev` subtract `k`. */
  lemma {:induction false} PrevIterNoWrap(i: nat, n: nat, k: nat)
    requires k <= i < n
    ensures PrevIter(i, n, k) == i - k
  {
    if k > 0 {
      PrevIterNoWrap(i, n, k - 1);
    }
  }

  /** `n` consecutive calls of `next` return to the starting slide. */
  lemma {:induction false} NextCycle(i: nat, n: nat)
    requires i < n
    ensures NextIter(i, n, n) == i
  {
    // n - i steps reach the last slide's successor, slide 0; i more steps reach i
    NextIterSplit(i, n, n - i - 1, 1);
    NextIterNoWrap(i, n, n - i - 1);
    NextIterSplit(i, n, n - i, i);
    NextIterNoWrap(0, n, i);
  }

  /** `n` consecutive calls of `prev` return to the starting slide. */
  lemma {:induction false} PrevCycle(i: nat, n: nat)
    requires i < n
    ensures PrevIter(i, n, n) == i
  {
    // i steps reach slide 0, one more wraps to n - 1, n - 1 - i more reach i
    PrevIterNoWrap(i, n, i);
    PrevIterSplit(i, n, i, 1);
    PrevIterSplit(i, n, i + 1, n - 1 - i);
    PrevIterNoWrap(n - 1, n, n - 1 - i);
  }

  /** The carousel region intersects the viewport: its top edge is above the
      viewport's bottom and its bottom edge below the viewport's top. For a
      region of positive height and a viewport of positive height this is
      exactly "the rows [top, bottom) and [0, innerHeight) overlap". */
  function InView(top: int, bottom: int, innerHeight: int): (r: bool)
    ensures top < bottom && 0 < innerHeight ==>
      (r <==> (if top < 0 then 0 else top) < (if bottom < innerHeight then bottom else innerHeight))
  {
    top < innerHeight && bottom > 0
  }
}
