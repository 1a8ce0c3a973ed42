/** The storefront's promotion carousel: a current slide index over a fixed,
    non-empty list of `n` promotions, moved by the arrows, the dots and a
    five-second timer, and the slide classes that follow from it. */
module Carousel {
  import opened Arith

  /** `(prev + 1) % n`: one slide forward, wrapping past the last one. */
  function Next(i: nat, n: nat): (r: nat)
    requires n > 0
    ensures r < n
    ensures i < n ==> r == (if i == n - 1 then 0 else i + 1)
  {
    (i + 1) % n
  }

  /** `(prev - 1 + n) % n`: one slide back, wrapping before the first one. */
  function Prev(i: nat, n: nat): (r: nat)
    requires n > 0
    ensures r < n
    ensures i < n ==> r == (if i == 0 then n - 1 else i - 1)
  {
    PrevWraps(i, n);
    (i - 1 + n) % n
  }

  /** The remainder taken by `Prev`, worked out on reachable indices. */
  lemma PrevWraps(i: nat, n: nat)
    requires n > 0
    ensures 0 <= (i - 1 + n) % n < n
    ensures i < n ==> (i - 1 + n) % n == (if i == 0 then n - 1 else i - 1)
  {
    if i < n {
      if i == 0 {
        DivUnique(i - 1 + n, n, 0, n - 1);
      } else {
        DivUnique(i - 1 + n, n, 1, i - 1);
      }
    }
  }

  /** The two arrows undo each other on every reachable index. */
  lemma ArrowsInverse(i: nat, n: nat)
    requires n > 0 && i < n
    ensures Next(Prev(i, n), n) == i
    ensures Prev(Next(i, n), n) == i
  {
  }

  /** What moves the carousel: the timer, the two arrows, or a dot. */
  datatype Event = Tick | NextClick | PrevClick | DotClick(index: nat)

  /** The dots are drawn one per promotion, so a dot's index is a slide. */
  predicate Valid(e: Event, n: nat)
  {
    e.DotClick? ==> e.index < n
  }

  /** The index after one event. The timer runs the same update as the
      forward arrow; a dot jumps straight to its slide. */
  function Step(i: nat, n: nat, e: Event): (r: nat)
    requires n > 0
    ensures Valid(e, n) ==> r < n
    ensures e.DotClick? ==> r == e.index
  {
    match e
    case Tick => (i + 1) % n
    case NextClick => Next(i, n)
    case PrevClick => Prev(i, n)
    case DotClick(d) => d
  }

  /** The autoplay tick and the forward arrow are the same move. */
  lemma TickIsNext(i: nat, n: nat)
    requires n > 0
    ensures Step(i, n, Tick) == Step(i, n, NextClick) == Next(i, n)
  {
  }

  /** The index after a run of events, from slide 0. */
  function Run(n: nat, events: seq<Event>): nat
    requires n > 0
  {
    if |events| == 0 then 0 else Step(Run(n, events[..|events| - 1]), n, events[|events| - 1])
  }

  /** Whatever the user clicks and however long the timer runs, the index
      names a promotion. */
  lemma {:induction false} RunInRange(n: nat, events: seq<Event>)
    requires n > 0
    requires forall k :: 0 <= k < |events| ==> Valid(events[k], n)
    ensures Run(n, events) < n
  {
    if |events| > 0 {
      RunInRange(n, events[..|events| - 1]);
    }
  }

  /** `k` forward moves from `i`. */
  function Forward(i: nat, n: nat, k: nat): nat
    requires n > 0
  {
    if k == 0 then i else Next(Forward(i, n, k - 1), n)
  }

  /** `k` forward moves land `k` slides on, modulo `n`. */
  lemma {:induction false} ForwardIsAddition(i: nat, n: nat, k: nat)
    requires n > 0 && i < n
    ensures Forward(i, n, k) == (i + k) % n
  {
    if k > 0 {
      ForwardIsAddition(i, n, k - 1);
      ModSucc(i + k - 1, n);
    }
  }

  /** After `n` ticks of the timer every promotion has been shown and the
      carousel is back where it started. */
  lemma FullCycle(i: nat, n: nat)
    requires n > 0 && i < n
    ensures Forward(i, n, n) == i
    ensures forall k :: 0 < k < n ==> Forward(i, n, k) != i
  {
    ForwardIsAddition(i, n, n);
    DivUnique(i + n, n, 1, i);
    forall k | 0 < k < n
      ensures Forward(i, n, k) != i
    {
      ForwardIsAddition(i, n, k);
      if i + k < n {
        DivUnique(i + k, n, 0, i + k);
      } else {
        DivUnique(i + k, n, 1, i + k - n);
      }
    }
  }

  /** Where a slide is drawn relative to the current one. */
  datatype Position = Shown | LeftOff | RightOff

  /** The current slide is shown; a lower index waits off to the left, a
      higher one off to the right. */
  function PositionOf(index: nat, current: nat): (p: Position)
    ensures p == Shown <==> index == current
    ensures p == LeftOff <==> index < current
    ensures p == RightOff <==> index > current
  {
    if index == current then Shown else if index < current then LeftOff else RightOff
  }

  /** Moving forward sends the old slide left and brings the new one in from
      the right, except at the wrap, where the first slide comes back from
      the left and the last one leaves to the right. */
  lemma ForwardDirection(i: nat, n: nat)
    requires n > 0 && i < n
    ensures n > 1 && i < n - 1 ==> PositionOf(i, Next(i, n)) == LeftOff
    ensures n > 1 && i == n - 1 ==> PositionOf(i, Next(i, n)) == RightOff
    ensures PositionOf(Next(i, n), Next(i, n)) == Shown
  {
  }
}
