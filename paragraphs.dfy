/**
 * The guide reader (static/guides/js/content.js): an index into the guide's paragraphs that the
 * next and previous buttons move by one, wrapping around at either end.
 */
module Paragraphs {

  /** The index after `nextParagraph`. */
  function NextIndex(index: int, count: int): (r: int)
    ensures 0 <= index < count ==> r == (index + 1) % count
  {
    if index < count - 1 then index + 1 else 0
  }

  /** The index after `prevParagraph`. */
  function PrevIndex(index: int, count: int): (r: int)
    ensures 0 <= index < count ==> r == (index - 1 + count) % count
  {
    if index > 0 then index - 1 else count - 1
  }

  /** Previous undoes next, and next undoes previous, on a valid index. */
  lemma NextPrevInverse(index: int, count: int)
    requires 0 <= index < count
    ensures PrevIndex(NextIndex(index, count), count) == index
    ensures NextIndex(PrevIndex(index, count), count) == index
  {
  }

  /** The index after k presses of next. */
  function NextTimes(index: int, count: int, k: nat): int
  {
    if k == 0 then index else NextIndex(NextTimes(index, count, k - 1), count)
  }

  /** Up to a full round, k presses of next from a valid index move it k places, wrapping once past the end. */
  lemma {:induction false} NextTimesWraps(index: int, count: int, k: nat)
    requires 0 <= index < count && k <= count
    ensures NextTimes(index, count, k) == if index + k < count then index + k else index + k - count
  {
    if k > 0 {
      NextTimesWraps(index, count, k - 1);
    }
  }

  /** As many presses of next as there are paragraphs return to the starting paragraph. */
  lemma FullCycle(index: int, count: int)
    requires 0 <= index < count
    ensures NextTimes(index, count, count) == index
  {
    NextTimesWraps(index, count, count);
  }

  class Reader {
    /** `paragraphs.length`. */
    const count: int
    var index: int

    ghost predicate Valid()
      reads this
    {
      0 <= index < count
    }

    /** The page load: the first paragraph. */
    constructor (paragraphCount: int)
      requires paragraphCount >= 1
      ensures Valid() && count == paragraphCount && index == 0
    {
      count := paragraphCount;
      index := 0;
    }

    method NextParagraph()
      modifies this
      ensures index == NextIndex(old(index), count)
      ensures old(Valid()) ==> Valid()
    {
      if index < count - 1 {
        index := index + 1;
      } else {
        index := 0;
      }
    }

    method PrevParagraph()
      modifies this
      ensures index == PrevIndex(old(index), count)
      ensures old(Valid()) ==> Valid()
    {
      if index > 0 {
        index := index - 1;
      } else {
        index := count - 1;
      }
    }
  }
}
