/**
 * The quiz page (guides/static/guides/js/quiz.js): one question shown at a time, Next and Back
 * buttons that stay within the questions, answers toggled in and out of a per-question selection,
 * and a score counting the questions whose selection is exactly their set of correct answers.
 * Questions are keyed by their 1-based number, as the page's `q<n>` keys are.
 */
module Quiz {
  import opened Guides

  /** The values of the correct answers of q (`correctAnswers[...]`). */
  function CorrectValues(q: Question): set<string>
  {
    set a | a in q.answers && a.correct :: a.value
  }

  /**
   * The scoring test of the submit handler: a selection exists, has the size of the correct set,
   * and holds every correct value.
   */
  predicate Earns(q: Question, selected: map<nat, set<string>>, number: nat)
  {
    number in selected && |CorrectValues(q)| == |selected[number]| && CorrectValues(q) <= selected[number]
  }

  /** The score of the first |qs| questions. */
  function Score(qs: seq<Question>, selected: map<nat, set<string>>): (n: nat)
    ensures n <= |qs|
  {
    if qs == [] then 0
    else Score(qs[..|qs| - 1], selected) + (if Earns(qs[|qs| - 1], selected, |qs|) then 1 else 0)
  }

  /** Equal size plus inclusion is set equality: a question scores iff its selection is exactly the correct set. */
  lemma EarnsIffExact(q: Question, selected: map<nat, set<string>>, number: nat)
    ensures Earns(q, selected, number) <==> number in selected && selected[number] == CorrectValues(q)
  {
    if number in selected && |CorrectValues(q)| == |selected[number]| && CorrectValues(q) <= selected[number] {
      var extra := selected[number] - CorrectValues(q);
      assert selected[number] == CorrectValues(q) + extra;
      assert |selected[number]| == |CorrectValues(q)| + |extra|;
      assert extra == {};
    }
  }

  /** Questions never answered earn nothing: with no selection at all the score is 0. */
  lemma {:induction false} NoSelectionScoresZero(qs: seq<Question>)
    ensures Score(qs, map[]) == 0
  {
    if qs != [] {
      NoSelectionScoresZero(qs[..|qs| - 1]);
    }
  }

  /** The selection map after clicking answer `value` of question `number`. */
  function Toggled(selected: map<nat, set<string>>, number: nat, value: string): (r: map<nat, set<string>>)
    ensures r.Keys == selected.Keys + {number}
    ensures forall n :: n in selected && n != number ==> r[n] == selected[n]
    ensures value in r[number] <==> !(number in selected && value in selected[number])
    ensures forall v :: v != value ==> (v in r[number] <==> number in selected && v in selected[number])
  {
    var current := if number in selected then selected[number] else {};
    selected[number := if value in current then current - {value} else current + {value}]
  }

  /** Two clicks on the same answer restore the selection (an untouched question now has an empty one). */
  lemma ToggleTwice(selected: map<nat, set<string>>, number: nat, value: string)
    ensures Toggled(Toggled(selected, number, value), number, value) ==
            selected[number := if number in selected then selected[number] else {}]
  {
    var twice := Toggled(Toggled(selected, number, value), number, value);
    var current := if number in selected then selected[number] else {};
    assert twice[number] == current;
  }

  class QuizPage {
    const questions: seq<Question>
    var currentQuestion: int
    var selected: map<nat, set<string>>
    var backVisible: bool
    var nextVisible: bool
    var submitVisible: bool

    /** The position stays on a question, and the buttons show what `showQuestion` sets for it. */
    ghost predicate Valid()
      reads this
    {
      0 <= currentQuestion && (|questions| > 0 ==> currentQuestion < |questions|) &&
      Shows(currentQuestion)
    }

    /** Back is hidden on the first question; Submit replaces Next on the last. */
    ghost predicate Shows(position: int)
      reads this
    {
      backVisible == (position != 0) &&
      nextVisible == (position != |questions| - 1) &&
      submitVisible == (position == |questions| - 1)
    }

    /** The page load: the first question, nothing selected. */
    constructor (qs: seq<Question>)
      ensures Valid()
      ensures questions == qs && currentQuestion == 0 && selected == map[]
    {
      questions := qs;
      currentQuestion := 0;
      selected := map[];
      new;
      ShowQuestion();
    }

    /** The button part of `showQuestion`. */
    method ShowQuestion()
      modifies this
      ensures Shows(currentQuestion)
      ensures currentQuestion == old(currentQuestion) && selected == old(selected)
    {
      backVisible := currentQuestion != 0;
      if currentQuestion == |questions| - 1 {
        nextVisible, submitVisible := false, true;
      } else {
        nextVisible, submitVisible := true, false;
      }
    }

    /** The Next button: moves forward unless on the last question. */
    method Next()
      requires Valid()
      modifies this
      ensures Valid()
      ensures currentQuestion == if old(currentQuestion) < |questions| - 1 then old(currentQuestion) + 1 else old(currentQuestion)
      ensures selected == old(selected)
    {
      if currentQuestion < |questions| - 1 {
        currentQuestion := currentQuestion + 1;
        ShowQuestion();
      }
    }

    /** The Back button: moves back unless on the first question. */
    method Back()
      requires Valid()
      modifies this
      ensures Valid()
      ensures currentQuestion == if old(currentQuestion) > 0 then old(currentQuestion) - 1 else old(currentQuestion)
      ensures selected == old(selected)
    {
      if currentQuestion > 0 {
        currentQuestion := currentQuestion - 1;
        ShowQuestion();
      }
    }

    /** A click on answer `value` of question `number`. */
    method Toggle(number: nat, value: string)
      requires Valid()
      modifies this
      ensures Valid()
      ensures selected == Toggled(old(selected), number, value)
      ensures currentQuestion == old(currentQuestion)
    {
      if number !in selected {
        selected := selected[number := {}];
      }
      if value in selected[number] {
        selected := selected[number := selected[number] - {value}];
      } else {
        selected := selected[number := selected[number] + {value}];
      }
    }

    /** The Submit button: the score that is shown and posted. */
    method Submit() returns (score: nat)
      ensures score == Score(questions, selected)
      ensures score <= |questions|
    {
      score := 0;
      for i := 0 to |questions|
        invariant score == Score(questions[..i], selected)
      {
        assert questions[..i + 1][..i] == questions[..i];
        var correct := CorrectValues(questions[i]);
        if i + 1 in selected && |correct| == |selected[i + 1]| && correct <= selected[i + 1] {
          score := score + 1;
        }
      }
      assert questions[..|questions|] == questions;
    }
  }
}
