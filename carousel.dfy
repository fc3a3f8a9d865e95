/**
 * The project carousel: an index over the cards with wrap-around previous
 * and next buttons and a jump per navigation dot, the dots' `active`
 * marker, and the horizontal scroll offset of the carousel element.
 */
module ProjectCarousel {
  import opened Dom

  /** Space, in pixels, between two cards, added to the first card's width. */
  const GUTTER := 30
  const DOT := "dot"

  /** The next button: one card forward, from the last card back to the first. */
  function NextIndex(n: int, i: int): (r: int)
    requires n >= 1
    ensures 0 <= i < n ==> 0 <= r < n && r == (i + 1) % n
    ensures i == n - 1 ==> r == 0
  {
    if i < n - 1 then i + 1 else 0
  }

  /** The previous button: one card back, from the first card round to the last. */
  function PrevIndex(n: int, i: int): (r: int)
    requires n >= 1
    ensures 0 <= i < n ==> 0 <= r < n && r == (i - 1) % n
    ensures i == 0 ==> r == n - 1
  {
    if i > 0 then i - 1 else n - 1
  }

  /** Previous undoes next and next undoes previous. */
  lemma PrevNextInverse(n: int, i: int)
    requires n >= 1 && 0 <= i < n
    ensures PrevIndex(n, NextIndex(n, i)) == i
    ensures NextIndex(n, PrevIndex(n, i)) == i
  {
  }

  /** The index after `k` presses of next. */
  function Nexts(n: int, i: int, k: nat): (r: int)
    requires n >= 1 && 0 <= i < n
    ensures 0 <= r < n
    decreases k
  {
    if k == 0 then i else Nexts(n, NextIndex(n, i), k - 1)
  }

  /** The index after `k` presses of previous. */
  function Prevs(n: int, i: int, k: nat): (r: int)
    requires n >= 1 && 0 <= i < n
    ensures 0 <= r < n
    decreases k
  {
    if k == 0 then i else Prevs(n, PrevIndex(n, i), k - 1)
  }

  /** Up to `n` presses of next move the index forward by that many cards, wrapping once. */
  lemma {:induction false} NextsOffset(n: int, i: int, k: nat)
    requires n >= 1 && 0 <= i < n && k <= n
    ensures Nexts(n, i, k) == if i + k < n then i + k else i + k - n
    decreases k
  {
    if k > 0 {
      NextsOffset(n, NextIndex(n, i), k - 1);
    }
  }

  /** Up to `n` presses of previous move the index back by that many cards, wrapping once. */
  lemma {:induction false} PrevsOffset(n: int, i: int, k: nat)
    requires n >= 1 && 0 <= i < n && k <= n
    ensures Prevs(n, i, k) == if k <= i then i - k else i - k + n
    decreases k
  {
    if k > 0 {
      PrevsOffset(n, PrevIndex(n, i), k - 1);
    }
  }

  /** `n` presses of next, or of previous, come back to the start. */
  lemma FullTurn(n: int, i: int)
    requires n >= 1 && 0 <= i < n
    ensures Nexts(n, i, n) == i
    ensures Prevs(n, i, n) == i
  {
    NextsOffset(n, i, n);
    PrevsOffset(n, i, n);
  }

  /** Four cards at index 2: next gives 3, next again wraps to 0, previous wraps back to 3. */
  lemma FourCards()
    ensures NextIndex(4, 2) == 3 && NextIndex(4, 3) == 0 && PrevIndex(4, 0) == 3
  {
  }

  /**
   * The dots' class lists show index `i`: every dot has the class `dot`,
   * and the one at `i` and no other has `active`.
   */
  predicate ShowsIndex(dots: seq<set<string>>, i: int)
  {
    forall k :: 0 <= k < |dots| ==> DOT in dots[k] && (ACTIVE in dots[k] <==> k == i)
  }

  /** The class list of the dot created for card `index`. */
  function NewDot(index: int): (classes: set<string>)
    ensures DOT in classes
    ensures ACTIVE in classes <==> index == 0
    ensures classes <= {DOT, ACTIVE}
  {
    if index == 0 then {DOT, ACTIVE} else {DOT}
  }

  /** When `i` is a card index, exactly one dot is active, the one at `i`. */
  lemma {:induction false} ExactlyOneActive(dots: seq<set<string>>, i: int)
    requires ShowsIndex(dots, i) && 0 <= i < |dots|
    ensures ActiveDots(dots) == {i}
  {
    forall k | k in ActiveDots(dots) ensures k == i {
    }
  }

  /** The positions of the active dots. */
  function ActiveDots(dots: seq<set<string>>): (active: set<int>)
  {
    set k | 0 <= k < |dots| && ACTIVE in dots[k]
  }

  /** The carousel element, its cards' dots, and the button and dot handlers. */
  class Carousel {
    const cardCount: int
    /** The first card's `offsetWidth` plus the gutter, read once. */
    const cardWidth: int
    /** The class lists of the dots, one per card, in card order. */
    const dots: array<set<string>>
    var currentIndex: int
    /** The `scrollLeft` last assigned to the carousel element. */
    var scrollLeft: int

    /** Every dot is a dot, and the index lies on a card. */
    ghost predicate Shape()
      reads this, dots
    {
      && cardCount >= 1
      && dots.Length == cardCount
      && 0 <= currentIndex < cardCount
      && forall k :: 0 <= k < dots.Length ==> DOT in dots[k]
    }

    /** The view matches the index: the scroll offset and the one active dot. */
    ghost predicate Valid()
      reads this, dots
    {
      && Shape()
      && scrollLeft == currentIndex * cardWidth
      && ShowsIndex(dots[..], currentIndex)
    }

    /**
     * Creates one dot per card (only the first active) and shows the first
     * card. The first card's width is read, so there is at least one card.
     */
    constructor (count: int, firstCardWidth: int)
      requires count >= 1
      ensures Valid() && fresh(dots)
      ensures cardCount == count && cardWidth == firstCardWidth + GUTTER
      ensures currentIndex == 0 && scrollLeft == 0
      ensures forall k :: 0 <= k < count ==> dots[k] == NewDot(k)
    {
      cardCount := count;
      cardWidth := firstCardWidth + GUTTER;
      currentIndex := 0;
      var created := new set<string>[count];
      for index := 0 to count
        invariant forall k :: 0 <= k < index ==> created[k] == NewDot(k)
      {
        created[index] := NewDot(index);
      }
      dots := created;
      new;
      UpdateCarousel();
    }

    /** Scrolls to the current card and marks its dot, and only its dot, active. */
    method UpdateCarousel()
      requires Shape()
      modifies this`scrollLeft, dots
      ensures Valid()
      ensures scrollLeft == currentIndex * cardWidth
      ensures forall k :: 0 <= k < dots.Length ==>
                dots[k] == ToggleClass(old(dots[k]), ACTIVE, k == currentIndex)
    {
      scrollLeft := currentIndex * cardWidth;
      for index := 0 to dots.Length
        invariant scrollLeft == currentIndex * cardWidth
        invariant forall k :: 0 <= k < index ==>
                    dots[k] == ToggleClass(old(dots[k]), ACTIVE, k == currentIndex)
        invariant forall k :: index <= k < dots.Length ==> dots[k] == old(dots[k])
      {
        dots[index] := ToggleClass(dots[index], ACTIVE, index == currentIndex);
      }
    }

    /** A dot's click handler: jump to card `index`. */
    method GoToSlide(index: int)
      requires Valid() && 0 <= index < cardCount
      modifies this`currentIndex, this`scrollLeft, dots
      ensures Valid()
      ensures currentIndex == index
      ensures forall k :: 0 <= k < dots.Length ==> dots[k] - {ACTIVE} == old(dots[k]) - {ACTIVE}
    {
      currentIndex := index;
      UpdateCarousel();
    }

    /** The previous button's click handler. */
    method Prev()
      requires Valid()
      modifies this`currentIndex, this`scrollLeft, dots
      ensures Valid()
      ensures currentIndex == PrevIndex(cardCount, old(currentIndex))
      ensures forall k :: 0 <= k < dots.Length ==> dots[k] - {ACTIVE} == old(dots[k]) - {ACTIVE}
    {
      currentIndex := if currentIndex > 0 then currentIndex - 1 else cardCount - 1;
      UpdateCarousel();
    }

    /** The next button's click handler. */
    method Next()
      requires Valid()
      modifies this`currentIndex, this`scrollLeft, dots
      ensures Valid()
      ensures currentIndex == NextIndex(cardCount, old(currentIndex))
      ensures forall k :: 0 <= k < dots.Length ==> dots[k] - {ACTIVE} == old(dots[k]) - {ACTIVE}
    {
      currentIndex := if currentIndex < cardCount - 1 then currentIndex + 1 else 0;
      UpdateCarousel();
    }
  }
}
