/** The practice session of src/screens/QuizScreen.tsx: a state machine over
    the staged items, the index of the question on screen, the chosen answer
    and the running score, which records one result in the store for every
    question answered. */
module QuizScreen {
  import opened Model
  import opened Seqs
  import Statistics
  import Selector
  import StorageService

  datatype QuizState = Idle | Playing | Answered | Finished

  datatype Score = Score(correct: nat, incorrect: nat)

  /** The result `selectAnswer` builds for an item: it names the item's
      question and set, and is correct exactly when the answer matches. */
  predicate Records(r: QuizResult, item: QuizItem) {
    r.questionId == item.question.id && r.quizSetId == item.quizSetId &&
    r.isCorrect == (r.userAnswer == item.question.answer)
  }

  /** The percentage on the result screen: `Math.round(correct / total * 100)`,
      0 when nothing was answered. Exact: the rounding of the floating-point
      quotient is not modelled. */
  function Percentage(score: Score): (p: int)
    ensures score.correct + score.incorrect == 0 ==> p == 0
    ensures 0 <= p <= 100
    ensures var total := score.correct + score.incorrect;
            total > 0 ==> 2 * p * total <= 200 * score.correct + total < 2 * (p + 1) * total
  {
    var total := score.correct + score.incorrect;
    if total == 0 then 0
    else
      var p := (200 * score.correct + total) / (2 * total);
      RoundedPercentBounds(score.correct, total, p);
      p
  }

  lemma RoundedPercentBounds(correct: nat, total: nat, p: int)
    requires correct <= total && total > 0
    requires p == (200 * correct + total) / (2 * total)
    ensures 0 <= p <= 100
    ensures 2 * p * total <= 200 * correct + total < 2 * (p + 1) * total
  {
    var n, m := 200 * correct + total, 2 * total;
    DivisionBounds(n, m, p);
    assert n < m * 101;
    if p > 100 {
      ScaleAtLeast(m, p, 101);
    }
  }

  /** `p` is the quotient of `n` by `m` exactly when `m * p <= n < m * (p + 1)`. */
  lemma DivisionBounds(n: nat, m: nat, p: int)
    requires m > 0 && p == n / m
    ensures 0 <= p
    ensures m * p <= n < m * (p + 1)
  {
    assert n == m * p + n % m;
  }

  lemma ScaleAtLeast(m: nat, a: int, b: int)
    requires a >= b
    ensures m * a >= m * b
  {
    assert m * a - m * b == m * (a - b);
  }

  /** Recording one more result adds one to exactly one of the two counts. */
  lemma OneMoreAnswer(before: seq<QuizResult>, result: QuizResult)
    ensures |Statistics.CorrectOnes(before + [result])| ==
            |Statistics.CorrectOnes(before)| + (if result.isCorrect then 1 else 0)
    ensures |Statistics.IncorrectOnes(before + [result])| ==
            |Statistics.IncorrectOnes(before)| + (if result.isCorrect then 0 else 1)
  {
    FilterAppend(before, [result], Statistics.WasCorrect);
    FilterAppend(before, [result], Statistics.WasIncorrect);
    assert [result][1..] == [];
  }

  /** Outside the idle screen: the question on screen exists, one result
      was recorded for each question answered so far (one more once the
      current one is answered), each names its item and is marked correct
      exactly when it matches, and the score counts them. */
  ghost predicate SessionInvariant(items: seq<QuizItem>, currentIndex: nat, state: QuizState,
                                   selectedAnswer: Option<bool>, score: Score, recorded: seq<QuizResult>)
  {
    (state == Playing ==> currentIndex < |items| && |recorded| == currentIndex) &&
    (state == Answered ==> currentIndex < |items| && |recorded| == currentIndex + 1 &&
                           selectedAnswer == Some(recorded[currentIndex].userAnswer)) &&
    (state == Finished ==> |recorded| == |items|) &&
    (state != Idle ==>
       |recorded| <= |items| &&
       (forall k :: 0 <= k < |recorded| ==> Records(recorded[k], items[k])) &&
       score.correct == |Statistics.CorrectOnes(recorded)| &&
       score.incorrect == |Statistics.IncorrectOnes(recorded)| &&
       score.correct + score.incorrect == |recorded|)
  }

  /** The result of answering the current question, and the score after it. */
  function AnswerResult(item: QuizItem, answer: bool, resultId: string, now: int): (r: QuizResult)
    ensures Records(r, item) && r.userAnswer == answer
  {
    QuizResult(resultId, item.question.id, item.quizSetId, answer == item.question.answer, now, answer)
  }

  function ScoreAfter(score: Score, isCorrect: bool): Score {
    if isCorrect then Score(score.correct + 1, score.incorrect)
    else Score(score.correct, score.incorrect + 1)
  }

  /** Answering the question on screen of a playing session gives an
      answered session: its result is recorded after the earlier ones and
      the score still counts the recorded results. */
  lemma AnswerKeepsInvariant(items: seq<QuizItem>, currentIndex: nat, selectedAnswer: Option<bool>,
                             score: Score, recorded: seq<QuizResult>, answer: bool, resultId: string, now: int)
    requires SessionInvariant(items, currentIndex, Playing, selectedAnswer, score, recorded)
    ensures var result := AnswerResult(items[currentIndex], answer, resultId, now);
            SessionInvariant(items, currentIndex, Answered, Some(answer),
                             ScoreAfter(score, result.isCorrect), recorded + [result])
  {
    var result := AnswerResult(items[currentIndex], answer, resultId, now);
    var after := recorded + [result];
    forall k | 0 <= k < |after|
      ensures Records(after[k], items[k])
    {
      if k < |recorded| {
        assert after[k] == recorded[k];
      }
    }
    OneMoreAnswer(recorded, result);
  }

  class QuizSession {
    var items: seq<QuizItem>
    var currentIndex: nat
    var state: QuizState
    var selectedAnswer: Option<bool>
    var score: Score
    /** The results this session has passed to the store, one per answered
        question, in order. */
    ghost var recorded: seq<QuizResult>

    /** The session invariant over the current field values. */
    ghost predicate Valid()
      reads this
    {
      SessionInvariant(items, currentIndex, state, selectedAnswer, score, recorded)
    }

    constructor ()
      ensures Valid()
      ensures items == [] && currentIndex == 0 && state == Idle && selectedAnswer == None
      ensures score == Score(0, 0) && recorded == []
    {
      items := [];
      currentIndex := 0;
      state := Idle;
      selectedAnswer := None;
      score := Score(0, 0);
      recorded := [];
    }

    /** The focus effect: on the idle screen, stages every stored question
        in a shuffled order; elsewhere, nothing happens. */
    method OnFocus(store: StorageService.Store, picks: seq<nat>)
      requires Valid()
      modifies this
      ensures Valid()
      ensures old(state) == Idle ==>
                items == Selector.RandomQuizQuestions(store.Doc().quizSets, None, picks)
      ensures old(state) != Idle ==> items == old(items)
      ensures state == old(state) && currentIndex == old(currentIndex) && score == old(score)
      ensures selectedAnswer == old(selectedAnswer) && recorded == old(recorded)
    {
      if state == Idle {
        LoadQuizzes(store, picks);
      }
    }

    /** `loadQuizzes`, run on the idle screen: stages every stored question
        in a shuffled order. */
    method LoadQuizzes(store: StorageService.Store, picks: seq<nat>)
      requires state == Idle
      modifies this
      ensures Valid()
      ensures items == Selector.RandomQuizQuestions(store.Doc().quizSets, None, picks)
      ensures state == Idle && currentIndex == old(currentIndex) && score == old(score)
      ensures selectedAnswer == old(selectedAnswer) && recorded == old(recorded)
    {
      items := store.GetRandomQuizQuestions(None, picks);
    }

    /** `startQuiz`: with nothing staged, stays where it is (the source shows
        an alert); otherwise shuffles the staged items again and starts at
        the first with a zero score. */
    method StartQuiz(picks: seq<nat>)
      requires Valid()
      modifies this
      ensures Valid()
      ensures old(items) == [] ==>
                items == old(items) && state == old(state) && currentIndex == old(currentIndex) &&
                score == old(score) && recorded == old(recorded)
      ensures old(items) != [] ==>
                items == Shuffle(old(items), picks) && currentIndex == 0 && score == Score(0, 0) &&
                state == Playing && recorded == []
      ensures multiset(items) == multiset(old(items))
      ensures selectedAnswer == old(selectedAnswer)
    {
      if |items| == 0 {
        return;
      }
      ShuffleIsPermutation(items, picks);
      items := Shuffle(items, picks);
      currentIndex := 0;
      score := Score(0, 0);
      state := Playing;
      recorded := [];
    }

    /** `selectAnswer`: only while a question waits for an answer. Marks it
        answered, scores it and saves its result through the store; a failed
        save leaves the session as it is after the answer. */
    method SelectAnswer(answer: bool, store: StorageService.Store, resultId: string, now: int)
      requires Valid()
      modifies this, store
      ensures Valid()
      ensures old(state) != Playing ==>
                state == old(state) && selectedAnswer == old(selectedAnswer) && score == old(score) &&
                recorded == old(recorded) && store.stored == old(store.stored)
      ensures old(state) == Playing ==>
                var item := old(items[currentIndex]);
                var isCorrect := answer == item.question.answer;
                var result := QuizResult(resultId, item.question.id, item.quizSetId, isCorrect, now, answer);
                state == Answered && selectedAnswer == Some(answer) &&
                score == (if isCorrect then Score(old(score.correct) + 1, old(score.incorrect))
                          else Score(old(score.correct), old(score.incorrect) + 1)) &&
                recorded == old(recorded) + [result] &&
                (store.acceptsWrites ==>
                   store.stored == StorageService.Saved(old(store.Doc()).(results := old(store.Doc()).results + [result]))) &&
                (!store.acceptsWrites ==> store.stored == old(store.stored))
      ensures items == old(items) && currentIndex == old(currentIndex)
    {
      if state != Playing {
        return;
      }
      var result := RecordAnswer(answer, resultId, now);
      var _ := store.SaveQuizResult(result);
    }

    /** The session side of `selectAnswer`: the answer is kept, the state
        becomes answered, one score count goes up, and the result that names
        the question on screen is returned for saving. */
    method RecordAnswer(answer: bool, resultId: string, now: int) returns (result: QuizResult)
      requires Valid() && state == Playing
      modifies this
      ensures Valid()
      ensures var item := old(items[currentIndex]);
              var isCorrect := answer == item.question.answer;
              result == QuizResult(resultId, item.question.id, item.quizSetId, isCorrect, now, answer) &&
              state == Answered && selectedAnswer == Some(answer) &&
              score == (if isCorrect then Score(old(score.correct) + 1, old(score.incorrect))
                        else Score(old(score.correct), old(score.incorrect) + 1)) &&
              recorded == old(recorded) + [result]
      ensures items == old(items) && currentIndex == old(currentIndex)
    {
      AnswerKeepsInvariant(items, currentIndex, selectedAnswer, score, recorded, answer, resultId, now);
      result := AnswerResult(items[currentIndex], answer, resultId, now);
      selectedAnswer, state, score, recorded := Some(answer), Answered, ScoreAfter(score, result.isCorrect), recorded + [result];
    }

    /** `nextQuestion`, reachable from the answered screen: after the last
        question the session is finished; otherwise the next question is
        shown, unanswered. */
    method NextQuestion()
      requires Valid() && state == Answered
      modifies this
      ensures Valid()
      ensures old(currentIndex) + 1 >= |items| ==>
                state == Finished && currentIndex == old(currentIndex) && selectedAnswer == old(selectedAnswer)
      ensures old(currentIndex) + 1 < |items| ==>
                state == Playing && currentIndex == old(currentIndex) + 1 && selectedAnswer == None
      ensures items == old(items) && score == old(score) && recorded == old(recorded)
    {
      if currentIndex + 1 >= |items| {
        state := Finished;
        return;
      }
      currentIndex := currentIndex + 1;
      selectedAnswer := None;
      state := Playing;
    }

    /** `restartQuiz`: back to the idle screen with no answer selected, and
        the staged items loaded afresh from the store. */
    method RestartQuiz(store: StorageService.Store, picks: seq<nat>)
      requires Valid()
      modifies this
      ensures Valid()
      ensures state == Idle && selectedAnswer == None
      ensures items == Selector.RandomQuizQuestions(store.Doc().quizSets, None, picks)
      ensures currentIndex == old(currentIndex) && score == old(score) && recorded == old(recorded)
    {
      state := Idle;
      selectedAnswer := None;
      LoadQuizzes(store, picks);
    }
  }

  /** When a session finishes, every staged question has been answered
      exactly once, in order, and the score adds up to their number. */
  lemma FinishedSessionCoversEveryItem(s: QuizSession)
    requires s.Valid() && s.state == Finished
    ensures |s.recorded| == |s.items|
    ensures forall k :: 0 <= k < |s.items| ==> Records(s.recorded[k], s.items[k])
    ensures s.score.correct + s.score.incorrect == |s.items|
  {
  }
}
