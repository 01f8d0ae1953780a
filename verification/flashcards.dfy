/** Navigation through the generated flashcards on the notes tab: the index
    of the card shown and whether it shows its answer side. The arrows are
    only on screen while there is at least one card. */
module Flashcards {

  datatype CardView = CardView(active: int, flipped: bool)

  /** The view the tab starts with: the first card, question side up. */
  const InitialView := CardView(0, false)

  /** `v` points at one of `count` cards. */
  predicate Shows(v: CardView, count: nat) {
    0 <= v.active < count
  }

  /** Clicking the card turns it over. */
  function Flip(v: CardView): (r: CardView)
    ensures r.active == v.active && r.flipped != v.flipped
  {
    v.(flipped := !v.flipped)
  }

  /** The left arrow: one card back, never before the first, question side up. */
  function Previous(v: CardView): (r: CardView)
    ensures !r.flipped
    ensures r.active >= 0 && (v.active >= 0 ==> r.active <= v.active)
    ensures v.active > 0 ==> r.active == v.active - 1
  {
    CardView(if v.active - 1 > 0 then v.active - 1 else 0, false)
  }

  /** The right arrow: one card on, never past the last of `count`, question
      side up. */
  function Next(v: CardView, count: nat): (r: CardView)
    requires count > 0
    ensures !r.flipped
    ensures r.active <= count - 1
    ensures v.active < count - 1 ==> r.active == v.active + 1
    ensures Shows(v, count) ==> Shows(r, count)
  {
    CardView(if count - 1 < v.active + 1 then count - 1 else v.active + 1, false)
  }

  /** Away from the last card, the left arrow undoes the right arrow. */
  lemma PreviousUndoesNext(v: CardView, count: nat)
    requires Shows(v, count) && v.active < count - 1
    ensures Previous(Next(v, count)) == v.(flipped := false)
  {
  }

  /** Away from the first card, the right arrow undoes the left arrow. */
  lemma NextUndoesPrevious(v: CardView, count: nat)
    requires Shows(v, count) && v.active > 0
    ensures Next(Previous(v), count) == v.(flipped := false)
  {
  }

  /** `k` presses of the right arrow. */
  function NextTimes(v: CardView, count: nat, k: nat): CardView
    requires count > 0
    decreases k
  {
    if k == 0 then v else NextTimes(Next(v, count), count, k - 1)
  }

  /** From a shown card, `k` presses of the right arrow move `k` cards on,
      stopping at the last one. */
  lemma {:induction false} NextTimesClamps(v: CardView, count: nat, k: nat)
    requires Shows(v, count)
    ensures NextTimes(v, count, k).active ==
              if v.active + k < count then v.active + k else count - 1
    decreases k
  {
    if k > 0 {
      NextTimesClamps(Next(v, count), count, k - 1);
    }
  }
}
