/** The assessment question screen: which question is shown and which
    option is selected, changed by the Previous and Next buttons and by
    clicking an option. The question list is a constant of the page. */
module QuestionScreen {
  import opened Common

  class Screen {
    /** `questions.length`. */
    const count: nat
    /** `currentQuestion`. */
    var current: int
    /** `selectedAnswer`: `null` until an option is clicked. */
    var selected: Option<nat>

    /** Previous can never move the index below the first question. */
    predicate Valid()
      reads this
    {
      current >= 0
    }

    /** `questions[currentQuestion]` names a question. */
    predicate InRange()
      reads this
    {
      0 <= current < count
    }

    /** The page opens on the first question with nothing selected. */
    constructor (count: nat)
      ensures this.count == count && current == 0 && selected == None
      ensures Valid()
    {
      this.count := count;
      current := 0;
      selected := None;
    }

    /** The Previous button is disabled on the first question. */
    predicate PreviousEnabled()
      reads this
    {
      current != 0
    }

    /** Previous: a click on the disabled button does nothing; otherwise the
        index goes back by exactly one. The selection is kept. */
    method Previous()
      requires Valid()
      modifies this
      ensures Valid()
      ensures old(current) == 0 ==> current == 0
      ensures old(current) != 0 ==> current == old(current) - 1
      ensures selected == old(selected)
    {
      if PreviousEnabled() {
        current := current - 1;
      }
    }

    /** Next: never disabled, adds one with no upper bound. The selection is
        kept. On the last question this leaves the question list, and the
        page then reads a question that does not exist. */
    method Next()
      requires Valid()
      modifies this
      ensures Valid()
      ensures current == old(current) + 1
      ensures selected == old(selected)
      ensures old(current) >= count - 1 ==> !InRange()
    {
      current := current + 1;
    }

    /** Next with the button disabled on the last question, as the page
        evidently intends: the index stays on a question. */
    method NextWithinRange()
      requires Valid()
      modifies this
      ensures Valid()
      ensures old(InRange()) ==> InRange()
      ensures old(current) < count - 1 ==> current == old(current) + 1
      ensures old(current) >= count - 1 ==> current == old(current)
      ensures selected == old(selected)
    {
      if current < count - 1 {
        current := current + 1;
      }
    }

    /** Clicking option `i` selects it; the question does not change. */
    method Choose(i: nat)
      modifies this
      ensures selected == Some(i) && current == old(current)
    {
      selected := Some(i);
    }

    /** The number in `Question {currentQuestion + 1} of
        {questions.length}`: on a question it runs from 1 to the count. */
    function Shown(): (n: int)
      reads this
      ensures InRange() ==> 1 <= n <= count
      ensures Valid() ==> n >= 1
    {
      current + 1
    }
  }

  /** From the first question, Next then Previous comes back to it with the
      selection kept. */
  method NextThenPrevious(count: nat) returns (s: Screen)
    ensures s.current == 0 && s.selected == None && s.count == count
  {
    s := new Screen(count);
    s.Next();
    s.Previous();
  }

  /** The page has one question; one click on Next leaves the list. */
  method NextPastOnlyQuestion() returns (s: Screen)
    ensures s.count == 1 && s.current == 1 && !s.InRange()
  {
    s := new Screen(1);
    s.Next();
  }
}
