/**
 * Guides (guides/views.py, guides/models.py): a gamekeeper assembles a guide's quiz from the
 * submitted form fields; a user's quiz score is registered against their result row for the
 * guide, keeping the best score, and a full score pays the guide's reward once.
 */
module Guides {
  import opened Basics
  import Wallet

  /** Field defaults of `ContentQuizPair`. */
  const DefaultMaxMarks: int := -1
  const DefaultReward: int := 50

  datatype Answer = Answer(text: string, value: string, correct: bool)
  datatype Question = Question(question: string, answers: seq<Answer>)

  /** A `ContentQuizPair` row. */
  datatype Pair = Pair(title: string, content: string, questions: seq<Question>, maxMarks: int, reward: int)

  /** `ContentQuizPair(title=..., content=..., quiz_questions=...)` with the remaining fields at their defaults. */
  function NewPair(title: string, content: string, questions: seq<Question>): (p: Pair)
    ensures p.title == title && p.content == content && p.questions == questions
    ensures p.maxMarks == -1 && p.reward == 50
  {
    Pair(title, content, questions, DefaultMaxMarks, DefaultReward)
  }

  // ---------------------------------------------------------------------------------------
  // Quiz assembly (`add_guide`)
  // ---------------------------------------------------------------------------------------

  /** One key of the POST data with all its values (a `QueryDict` entry). */
  datatype Field = Field(key: string, values: seq<string>)

  /** What a parsed form body guarantees: every key once, with at least one value. */
  predicate WellFormed(post: seq<Field>)
  {
    (forall i, j :: 0 <= i < j < |post| ==> post[i].key != post[j].key) &&
    (forall i :: 0 <= i < |post| ==> post[i].values != [])
  }

  /** `request.POST[key]`: the last value of the key, or None where Django raises `KeyError`. */
  function Get(post: seq<Field>, key: string): (r: Option<string>)
    ensures r.None? <==> forall i :: 0 <= i < |post| ==> post[i].key != key || post[i].values == []
  {
    if post == [] then None
    else if post[0].key == key && post[0].values != [] then Some(post[0].values[|post[0].values| - 1])
    else Get(post[1..], key)
  }

  /** `request.POST.getlist(key)`: all values of the key, or [] when it is absent. */
  function GetList(post: seq<Field>, key: string): (r: seq<string>)
    ensures r != [] ==> exists i :: 0 <= i < |post| && post[i].key == key && post[i].values == r
  {
    if post == [] then []
    else if post[0].key == key then post[0].values
    else GetList(post[1..], key)
  }

  const QuestionPrefix: string := "question_"

  predicate IsQuestionKey(key: string)
  {
    |key| >= |QuestionPrefix| && key[..|QuestionPrefix|] == QuestionPrefix
  }

  /** The text of s before its first `c`, or all of s. */
  function Before(s: string, c: char): (r: string)
    ensures |r| <= |s| && r == s[..|r|]
    ensures c !in r
    ensures |r| < |s| ==> s[|r|] == c
  {
    if s == [] || s[0] == c then [] else [s[0]] + Before(s[1..], c)
  }

  /** `key.split('_')[1]` for a key that starts with "question_". */
  function QuestionId(key: string): string
    requires IsQuestionKey(key)
  {
    Before(key[|QuestionPrefix|..], '_')
  }

  /** The form digit and the stored value of answer k (0-based). */
  const Digits: seq<char> := ['1', '2', '3', '4']
  const Letters: seq<string> := ["A", "B", "C", "D"]

  function AnswerKey(k: nat, id: string): string
    requires k < 4
  {
    "answer" + [Digits[k]] + "_" + id
  }

  function CorrectKey(id: string): string
  {
    "correct_answers_" + id
  }

  /** The k-th answer of question `id`, once its text has been read. */
  function MakeAnswer(post: seq<Field>, k: nat, id: string, text: string): Answer
    requires k < 4
  {
    Answer(text, Letters[k], [Digits[k]] in GetList(post, CorrectKey(id)))
  }

  /**
   * The question built for a `question_<id>` key: four answers read from `answer1_<id>` ..
   * `answer4_<id>`, valued A to D, answer k correct when "k" is among the values of
   * `correct_answers_<id>`. None when one of the answer texts is missing.
   */
  function BuildQuestion(post: seq<Field>, id: string, text: string): (r: Option<Question>)
    ensures r.None? <==> exists k :: 0 <= k < 4 && Get(post, AnswerKey(k, id)).None?
    ensures r.Some? ==> r.value.question == text && |r.value.answers| == 4
    ensures r.Some? ==> forall k :: 0 <= k < 4 ==>
              r.value.answers[k].text == Get(post, AnswerKey(k, id)).value &&
              r.value.answers[k].value == Letters[k] &&
              (r.value.answers[k].correct <==> [Digits[k]] in GetList(post, CorrectKey(id)))
  {
    var texts := AnswerTexts(post, id);
    if exists k :: 0 <= k < 4 && texts[k].None? then None
    else Some(Question(text, seq(4, k requires 0 <= k < 4 => MakeAnswer(post, k, id, texts[k].value))))
  }

  /** `request.POST['answer1_<id>']` .. `request.POST['answer4_<id>']`. */
  function AnswerTexts(post: seq<Field>, id: string): (texts: seq<Option<string>>)
    ensures |texts| == 4 && forall k :: 0 <= k < 4 ==> texts[k] == Get(post, AnswerKey(k, id))
  {
    seq(4, k requires 0 <= k < 4 => Get(post, AnswerKey(k, id)))
  }

  /** The questions built from the fields `items` of `post`, in order; None once a lookup fails. */
  function Questions(post: seq<Field>, items: seq<Field>): Option<seq<Question>>
    requires forall i :: 0 <= i < |items| ==> items[i].values != []
  {
    if items == [] then Some([])
    else
      var init, last := items[..|items| - 1], items[|items| - 1];
      match Questions(post, init)
      case None => None
      case Some(qs) =>
        if !IsQuestionKey(last.key) then Some(qs)
        else match BuildQuestion(post, QuestionId(last.key), last.values[|last.values| - 1])
          case None => None
          case Some(q) => Some(qs + [q])
  }

  /** The number of `question_` keys among the fields. */
  function CountQuestionKeys(items: seq<Field>): nat
  {
    if items == [] then 0
    else CountQuestionKeys(items[..|items| - 1]) + (if IsQuestionKey(items[|items| - 1].key) then 1 else 0)
  }

  /** Once a lookup has failed, later fields do not bring the quiz back. */
  lemma {:induction false} QuestionsFailFast(post: seq<Field>, items: seq<Field>, n: nat)
    requires forall i :: 0 <= i < |items| ==> items[i].values != []
    requires n <= |items| && Questions(post, items[..n]).None?
    ensures Questions(post, items).None?
    decreases |items|
  {
    if n < |items| {
      var init := items[..|items| - 1];
      assert init[..n] == items[..n];
      QuestionsFailFast(post, init, n);
    } else {
      assert items[..n] == items;
    }
  }

  /** Every assembled question has four answers valued A, B, C, D, one per question key. */
  lemma {:induction false} QuestionsShape(post: seq<Field>, items: seq<Field>)
    requires forall i :: 0 <= i < |items| ==> items[i].values != []
    requires Questions(post, items).Some?
    ensures |Questions(post, items).value| == CountQuestionKeys(items)
    ensures forall q :: q in Questions(post, items).value ==>
              |q.answers| == 4 && forall k :: 0 <= k < 4 ==> q.answers[k].value == Letters[k]
  {
    if items != [] {
      QuestionsShape(post, items[..|items| - 1]);
    }
  }

  /** The `add_guide` responses: the saved guide, the form again, or the 500 of a missing answer. */
  datatype AddGuideReply = GuideSaved(pair: Pair) | GuideForm | GuideError

  /**
   * `add_guide` with a valid or invalid form (`formValid`, `title`, `content` stand for the
   * cleaned form data) and the POST fields in submission order.
   */
  method AddGuide(formValid: bool, title: string, content: string, post: seq<Field>) returns (r: AddGuideReply)
    requires WellFormed(post)
    ensures !formValid ==> r == GuideForm
    ensures formValid && Questions(post, post).None? ==> r == GuideError
    ensures formValid && Questions(post, post).Some? ==>
              r == GuideSaved(Pair(title, content, Questions(post, post).value, CountQuestionKeys(post), DefaultReward))
  {
    if !formValid {
      return GuideForm;
    }
    var questions: seq<Question> := [];
    var maxMarks := 0;
    for i := 0 to |post|
      invariant Questions(post, post[..i]) == Some(questions)
      invariant maxMarks == CountQuestionKeys(post[..i])
    {
      assert post[..i + 1][..i] == post[..i];
      var key, value := post[i].key, post[i].values[|post[i].values| - 1];
      if IsQuestionKey(key) {
        maxMarks := maxMarks + 1;
        var id := QuestionId(key);
        var built := BuildQuestion(post, id, value);
        if built.None? {
          QuestionsFailFast(post, post, i + 1);
          return GuideError;
        }
        questions := questions + [built.value];
      }
    }
    assert post[..|post|] == post;
    r := GuideSaved(Pair(title, content, questions, maxMarks, DefaultReward));
  }

  // ---------------------------------------------------------------------------------------
  // Results and the reward (`registerScore_view`, `UserQuizResult.save`)
  // ---------------------------------------------------------------------------------------

  datatype ResultView = ResultView(score: int, bestResult: int, previousBest: int, isCompleted: bool)

  /** A new result row: every score at 0, not completed. */
  const InitialResult: ResultView := ResultView(0, 0, 0, false)

  /** A `UserQuizResult` row; `maxMarks` is its guide's `quiz_max_marks`. */
  class QuizResult {
    var score: int
    var bestResult: int
    var previousBest: int
    var isCompleted: bool
    const maxMarks: int

    function View(): ResultView
      reads this
    {
      ResultView(score, bestResult, previousBest, isCompleted)
    }

    /** `UserQuizResult(user=..., content_quiz_pair=...)`: the field defaults. */
    constructor (pairMaxMarks: int)
      ensures View() == InitialResult && maxMarks == pairMaxMarks
    {
      score, bestResult, previousBest, isCompleted := 0, 0, 0, false;
      maxMarks := pairMaxMarks;
    }

    /** `save`: a full score marks the row completed; a completed row stays completed. */
    method Save()
      modifies this
      ensures View() == old(View()).(isCompleted := old(isCompleted) || score == maxMarks)
    {
      if score == maxMarks {
        isCompleted := true;
      }
    }
  }

  /** The result row after registering `score` against a guide with `maxMarks` marks, and saving it. */
  function Registered(v: ResultView, score: int, maxMarks: int): ResultView
  {
    ResultView(score, if score > v.bestResult then score else v.bestResult, v.bestResult,
               v.isCompleted || score == maxMarks)
  }

  /** The registration pays the reward: the best before it was below full marks, and this score is full. */
  predicate Pays(v: ResultView, score: int, maxMarks: int)
  {
    v.bestResult < maxMarks && score == maxMarks
  }

  /** The `registerScore_view` responses; `ServerError` is the division by zero of a guide without questions. */
  datatype RegisterReply = Registered200 | NotFound | ServerError

  /**
   * `registerScore_view` of `score` for guide `pair` (None for an unknown id), with the user's
   * result row for it, or null when they have none. A paying registration raises the balance by
   * the guide's reward through `user.save()`. The post the view then creates is not modelled.
   */
  method RegisterScore(a: Wallet.Account, pair: Option<Pair>, existing: QuizResult?, score: int)
    returns (r: RegisterReply, result: QuizResult?)
    requires a.Valid()
    requires pair.Some? && existing != null ==> existing.maxMarks == pair.value.maxMarks
    modifies a, existing
    ensures a.Valid()
    ensures pair.None? ==> r == NotFound && result == null && a.View() == old(a.View())
    ensures pair.None? && existing != null ==> existing.View() == old(existing.View())
    ensures pair.Some? ==> result != null && (existing != null ==> result == existing) && (existing == null ==> fresh(result))
    ensures pair.Some? ==> r == (if pair.value.maxMarks == 0 then ServerError else Registered200)
    ensures pair.Some? ==>
              var before := if existing != null then old(existing.View()) else InitialResult;
              result.View() == Registered(before, score, pair.value.maxMarks) &&
              a.View() == if Pays(before, score, pair.value.maxMarks)
                          then Wallet.UserSaved(old(a.View()),
                                            old(a.coins) + pair.value.reward)
                          else old(a.View())
  {
    if pair.None? {
      return NotFound, null;
    }
    var p := pair.value;
    if existing != null {
      result := existing;
    } else {
      result := new QuizResult(p.maxMarks);
    }
    result.previousBest := result.bestResult;
    result.score := score;
    if score > result.bestResult {
      result.bestResult := score;
    }
    if result.previousBest < p.maxMarks && score == p.maxMarks {
      a.SaveUser(a.coins + p.reward);
    }
    result.Save();
    r := if p.maxMarks == 0 then ServerError else Registered200;
  }

  /**
   * A registration keeps the best score (never lower than before or than the new score), records the
   * previous best, and never clears the completed flag.
   */
  lemma RegisteredKeepsBest(v: ResultView, score: int, maxMarks: int)
    ensures Registered(v, score, maxMarks).bestResult >= v.bestResult
    ensures Registered(v, score, maxMarks).bestResult >= score
    ensures Registered(v, score, maxMarks).bestResult == v.bestResult || Registered(v, score, maxMarks).bestResult == score
    ensures Registered(v, score, maxMarks).previousBest == v.bestResult
    ensures v.isCompleted ==> Registered(v, score, maxMarks).isCompleted
    ensures score == maxMarks ==> Registered(v, score, maxMarks).isCompleted
  {
  }

  /** The row after registering each of `scores` in turn. */
  function RegisterAll(v: ResultView, scores: seq<int>, maxMarks: int): ResultView
    decreases |scores|
  {
    if scores == [] then v else RegisterAll(Registered(v, scores[0], maxMarks), scores[1..], maxMarks)
  }

  /** How many of those registrations pay the reward. */
  function Payments(v: ResultView, scores: seq<int>, maxMarks: int): nat
    decreases |scores|
  {
    if scores == [] then 0
    else (if Pays(v, scores[0], maxMarks) then 1 else 0) + Payments(Registered(v, scores[0], maxMarks), scores[1..], maxMarks)
  }

  /** Once the best reaches full marks, no registration pays. */
  lemma {:induction false} NoPaymentAfterFullMarks(v: ResultView, scores: seq<int>, maxMarks: int)
    requires v.bestResult >= maxMarks
    ensures Payments(v, scores, maxMarks) == 0
    decreases |scores|
  {
    if scores != [] {
      NoPaymentAfterFullMarks(Registered(v, scores[0], maxMarks), scores[1..], maxMarks);
    }
  }

  /** The reward is paid at most once per user and guide, whatever scores are submitted. */
  lemma {:induction false} RewardPaidAtMostOnce(v: ResultView, scores: seq<int>, maxMarks: int)
    ensures Payments(v, scores, maxMarks) <= 1
    decreases |scores|
  {
    if scores != [] {
      var w := Registered(v, scores[0], maxMarks);
      if Pays(v, scores[0], maxMarks) {
        NoPaymentAfterFullMarks(w, scores[1..], maxMarks);
      } else {
        RewardPaidAtMostOnce(w, scores[1..], maxMarks);
      }
    }
  }

  /** The best result after a run of registrations is the larger of the starting best and every score. */
  lemma {:induction false} BestIsLargestScore(v: ResultView, scores: seq<int>, maxMarks: int)
    ensures RegisterAll(v, scores, maxMarks).bestResult >= v.bestResult
    ensures forall i :: 0 <= i < |scores| ==> RegisterAll(v, scores, maxMarks).bestResult >= scores[i]
    ensures RegisterAll(v, scores, maxMarks).bestResult == v.bestResult || RegisterAll(v, scores, maxMarks).bestResult in scores
    decreases |scores|
  {
    if scores != [] {
      var w := Registered(v, scores[0], maxMarks);
      BestIsLargestScore(w, scores[1..], maxMarks);
      assert forall i :: 1 <= i < |scores| ==> scores[i] == scores[1..][i - 1];
    }
  }

  /** A first full score on a new row pays the reward, completes the row and records full marks as the best. */
  lemma FirstFullScorePays(maxMarks: int)
    requires maxMarks > 0
    ensures Pays(InitialResult, maxMarks, maxMarks)
    ensures Registered(InitialResult, maxMarks, maxMarks) == ResultView(maxMarks, maxMarks, 0, true)
    ensures Payments(InitialResult, [maxMarks, maxMarks], maxMarks) == 1
  {
    NoPaymentAfterFullMarks(Registered(InitialResult, maxMarks, maxMarks), [maxMarks], maxMarks);
  }
}
