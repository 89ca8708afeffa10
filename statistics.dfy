/** `calculateStats` of src/services/storageService.ts: per-question and
    overall attempt counts and accuracy, derived from the stored document,
    with the per-question list ordered from the weakest question up. */
module Statistics {
  import opened Model
  import opened Seqs
  import opened Repository

  predicate WasCorrect(x: QuizResult) {
    x.isCorrect
  }

  predicate WasIncorrect(x: QuizResult) {
    !x.isCorrect
  }

  function CorrectOnes(results: seq<QuizResult>): seq<QuizResult> {
    Filter(results, WasCorrect)
  }

  function IncorrectOnes(results: seq<QuizResult>): seq<QuizResult> {
    Filter(results, WasIncorrect)
  }

  /** `results.filter(r => r.questionId === question.id)` */
  function ResultsFor(results: seq<QuizResult>, questionId: string): seq<QuizResult> {
    Filter(results, (x: QuizResult) => x.questionId == questionId)
  }

  /** Every attempt is either correct or incorrect, so counting the correct
      ones and subtracting gives the number of incorrect ones. */
  lemma CorrectAndIncorrectSplit(results: seq<QuizResult>)
    ensures |CorrectOnes(results)| + |IncorrectOnes(results)| == |results|
  {
    FilterComplement(results, WasCorrect, WasIncorrect);
  }

  /** `part / whole * 100`, guarded against an empty `whole`. Exact: the
      floating-point rounding of the source is not modelled. */
  function Percent(part: nat, whole: nat): (r: real)
    ensures whole == 0 ==> r == 0.0
    ensures whole > 0 ==> r * (whole as real) == 100.0 * (part as real)
    ensures part <= whole ==> 0.0 <= r <= 100.0
  {
    if whole > 0 then (part as real / whole as real) * 100.0 else 0.0
  }

  /** The statistics of one question: its attempts are the results recorded
      against its id, split into correct and incorrect ones. */
  function StatsFor(item: QuizItem, results: seq<QuizResult>): (r: QuestionStats)
    ensures r.questionId == item.question.id && r.question == item.question.question
    ensures r.totalAttempts == |ResultsFor(results, item.question.id)|
    ensures r.correctCount == |CorrectOnes(ResultsFor(results, item.question.id))|
    ensures r.incorrectCount == |IncorrectOnes(ResultsFor(results, item.question.id))|
    ensures r.correctCount + r.incorrectCount == r.totalAttempts
    ensures r.accuracy == Percent(r.correctCount, r.totalAttempts)
    ensures 0.0 <= r.accuracy <= 100.0
  {
    var mine := ResultsFor(results, item.question.id);
    var correct := |CorrectOnes(mine)|;
    CorrectAndIncorrectSplit(mine);
    QuestionStats(item.question.id, item.question.question, |mine|, correct, |mine| - correct,
                  Percent(correct, |mine|))
  }

  /** `allQuestions.map(...)`: one entry per flattened question, in order. */
  function AllStats(items: seq<QuizItem>, results: seq<QuizResult>): (r: seq<QuestionStats>)
    ensures |r| == |items|
    ensures forall k :: 0 <= k < |items| ==> r[k] == StatsFor(items[k], results)
  {
    seq(|items|, k requires 0 <= k < |items| => StatsFor(items[k], results))
  }

  ghost predicate SortedByAccuracy(s: seq<QuestionStats>) {
    forall i, j :: 0 <= i < j < |s| ==> s[i].accuracy <= s[j].accuracy
  }

  /** Puts `x` before the first entry whose accuracy is not lower, so that
      among equal accuracies the earlier input stays first. */
  function InsertByAccuracy(x: QuestionStats, s: seq<QuestionStats>): (r: seq<QuestionStats>)
    requires SortedByAccuracy(s)
    ensures SortedByAccuracy(r)
    ensures multiset(r) == multiset(s) + multiset{x}
    ensures |r| == |s| + 1
    ensures r[0] == x || (|s| > 0 && r[0] == s[0])
  {
    if |s| == 0 || x.accuracy <= s[0].accuracy then [x] + s
    else
      var rest := InsertByAccuracy(x, s[1..]);
      assert s == [s[0]] + s[1..];
      [s[0]] + rest
  }

  /** `sort((a, b) => a.accuracy - b.accuracy)`: a stable ascending sort,
      written as an insertion sort. */
  function SortByAccuracy(s: seq<QuestionStats>): (r: seq<QuestionStats>)
    ensures SortedByAccuracy(r)
    ensures multiset(r) == multiset(s)
    ensures |r| == |s|
  {
    if |s| == 0 then []
    else
      assert s == [s[0]] + s[1..];
      InsertByAccuracy(s[0], SortByAccuracy(s[1..]))
  }

  /** The entries with a given accuracy, in order. */
  function WithAccuracy(s: seq<QuestionStats>, a: real): seq<QuestionStats> {
    Filter(s, (x: QuestionStats) => x.accuracy == a)
  }

  lemma {:induction false} InsertKeepsTies(x: QuestionStats, s: seq<QuestionStats>, a: real)
    requires SortedByAccuracy(s)
    ensures WithAccuracy(InsertByAccuracy(x, s), a) ==
            (if x.accuracy == a then [x] else []) + WithAccuracy(s, a)
  {
    if |s| == 0 || x.accuracy <= s[0].accuracy {
      var r := [x] + s;
      assert r[0] == x && r[1..] == s;
    } else {
      var rest := InsertByAccuracy(x, s[1..]);
      var r := [s[0]] + rest;
      assert r[0] == s[0] && r[1..] == rest;
      InsertKeepsTies(x, s[1..], a);
      if s[0].accuracy == a {
        assert x.accuracy != a;
        assert WithAccuracy(r, a) == [s[0]] + WithAccuracy(rest, a);
        assert WithAccuracy(s, a) == [s[0]] + WithAccuracy(s[1..], a);
      } else {
        assert WithAccuracy(r, a) == WithAccuracy(rest, a);
        assert WithAccuracy(s, a) == WithAccuracy(s[1..], a);
      }
    }
  }

  /** The sort is stable: entries of equal accuracy keep the order in which
      the questions were flattened. */
  lemma {:induction false} SortIsStable(s: seq<QuestionStats>, a: real)
    ensures WithAccuracy(SortByAccuracy(s), a) == WithAccuracy(s, a)
  {
    if |s| > 0 {
      SortIsStable(s[1..], a);
      InsertKeepsTies(s[0], SortByAccuracy(s[1..]), a);
      assert s == [s[0]] + s[1..];
    }
  }

  /** `calculateStats` on the document that `getAllData` returns. */
  function CalculateStats(d: StorageData): (r: OverallStats)
    ensures r.totalQuestions == QuestionCount(d.quizSets)
    ensures r.totalAttempts == |d.results|
    ensures r.totalCorrect == |CorrectOnes(d.results)| && r.totalIncorrect == |IncorrectOnes(d.results)|
    ensures r.totalCorrect + r.totalIncorrect == r.totalAttempts
    ensures r.overallAccuracy == Percent(r.totalCorrect, r.totalAttempts)
    ensures 0.0 <= r.overallAccuracy <= 100.0
    ensures |r.questionStats| == r.totalQuestions
    ensures multiset(r.questionStats) == multiset(AllStats(Flatten(d.quizSets), d.results))
    ensures forall it :: it in Flatten(d.quizSets) ==> StatsFor(it, d.results) in r.questionStats
    ensures SortedByAccuracy(r.questionStats)
  {
    var all := Flatten(d.quizSets);
    var perQuestion := AllStats(all, d.results);
    var sorted := SortByAccuracy(perQuestion);
    var correct := |CorrectOnes(d.results)|;
    CorrectAndIncorrectSplit(d.results);
    assert forall it :: it in all ==> StatsFor(it, d.results) in sorted by {
      forall it | it in all
        ensures StatsFor(it, d.results) in sorted
      {
        var k :| 0 <= k < |all| && all[k] == it;
        assert perQuestion[k] in multiset(perQuestion);
      }
    }
    OverallStats(|all|, |d.results|, correct, |d.results| - correct,
                 Percent(correct, |d.results|), sorted)
  }

  // ----- the totals agree with the per-question counts -----

  /** The ids of a list of flattened questions. */
  function IdsOf(items: seq<QuizItem>): set<string> {
    if |items| == 0 then {} else {items[0].question.id} + IdsOf(items[1..])
  }

  ghost predicate DistinctQuestionIds(items: seq<QuizItem>) {
    forall i, j :: 0 <= i < j < |items| ==> items[i].question.id != items[j].question.id
  }

  /** The number of results recorded against any of the given question ids. */
  function AttemptsOn(results: seq<QuizResult>, ids: set<string>): nat {
    if |results| == 0 then 0
    else (if results[0].questionId in ids then 1 else 0) + AttemptsOn(results[1..], ids)
  }

  function SumAttempts(stats: seq<QuestionStats>): nat {
    if |stats| == 0 then 0 else stats[0].totalAttempts + SumAttempts(stats[1..])
  }

  lemma {:induction false} ResultsForIsAttemptsOn(results: seq<QuizResult>, id: string)
    ensures |ResultsFor(results, id)| == AttemptsOn(results, {id})
  {
    if |results| > 0 {
      ResultsForIsAttemptsOn(results[1..], id);
    }
  }

  lemma {:induction false} AttemptsOnDisjointUnion(results: seq<QuizResult>, a: set<string>, b: set<string>)
    requires a !! b
    ensures AttemptsOn(results, a + b) == AttemptsOn(results, a) + AttemptsOn(results, b)
  {
    if |results| > 0 {
      AttemptsOnDisjointUnion(results[1..], a, b);
    }
  }

  lemma {:induction false} AttemptsOnNoIds(results: seq<QuizResult>)
    ensures AttemptsOn(results, {}) == 0
  {
    if |results| > 0 {
      AttemptsOnNoIds(results[1..]);
    }
  }

  lemma {:induction false} AttemptsOnCoveringIds(results: seq<QuizResult>, ids: set<string>)
    requires forall x :: x in results ==> x.questionId in ids
    ensures AttemptsOn(results, ids) == |results|
  {
    if |results| > 0 {
      assert results[0] in results;
      AttemptsOnCoveringIds(results[1..], ids);
    }
  }

  lemma {:induction false} IdsOfMembers(items: seq<QuizItem>, id: string)
    ensures id in IdsOf(items) <==> exists k :: 0 <= k < |items| && items[k].question.id == id
  {
    if |items| > 0 {
      IdsOfMembers(items[1..], id);
      if id in IdsOf(items[1..]) {
        var k :| 0 <= k < |items[1..]| && items[1..][k].question.id == id;
        assert items[k + 1].question.id == id;
      }
      if exists k :: 0 <= k < |items| && items[k].question.id == id {
        var k :| 0 <= k < |items| && items[k].question.id == id;
        if k > 0 {
          assert items[1..][k - 1].question.id == id;
        }
      }
    }
  }

  /** With distinct ids, the per-question attempt counts add up to the
      number of results recorded against any of the questions. */
  lemma {:induction false} AllStatsAttempts(items: seq<QuizItem>, results: seq<QuizResult>)
    requires DistinctQuestionIds(items)
    ensures SumAttempts(AllStats(items, results)) == AttemptsOn(results, IdsOf(items))
  {
    if |items| > 0 {
      var rest := items[1..];
      assert DistinctQuestionIds(rest) by {
        forall i, j | 0 <= i < j < |rest|
          ensures rest[i].question.id != rest[j].question.id
        {
          assert rest[i] == items[i + 1] && rest[j] == items[j + 1];
        }
      }
      AllStatsAttempts(rest, results);
      assert AllStats(items, results)[1..] == AllStats(rest, results);
      var id := items[0].question.id;
      assert id !in IdsOf(rest) by {
        IdsOfMembers(rest, id);
      }
      AttemptsOnDisjointUnion(results, {id}, IdsOf(rest));
      ResultsForIsAttemptsOn(results, id);
      var stats := AllStats(items, results);
      assert SumAttempts(stats) == stats[0].totalAttempts + SumAttempts(stats[1..]);
      assert stats[0].totalAttempts == |ResultsFor(results, id)|;
      assert IdsOf(items) == {id} + IdsOf(rest);
    } else {
      AttemptsOnNoIds(results);
    }
  }

  lemma {:induction false} InsertKeepsSum(x: QuestionStats, s: seq<QuestionStats>)
    requires SortedByAccuracy(s)
    ensures SumAttempts(InsertByAccuracy(x, s)) == x.totalAttempts + SumAttempts(s)
  {
    if |s| == 0 || x.accuracy <= s[0].accuracy {
      assert ([x] + s)[1..] == s;
    } else {
      InsertKeepsSum(x, s[1..]);
      assert ([s[0]] + InsertByAccuracy(x, s[1..]))[1..] == InsertByAccuracy(x, s[1..]);
    }
  }

  lemma {:induction false} SortKeepsSum(s: seq<QuestionStats>)
    ensures SumAttempts(SortByAccuracy(s)) == SumAttempts(s)
  {
    if |s| > 0 {
      SortKeepsSum(s[1..]);
      InsertKeepsSum(s[0], SortByAccuracy(s[1..]));
    }
  }

  /** The totals count every result while the per-question figures count
      only results of existing questions; when every result refers to an
      existing question and question ids are distinct, the per-question
      attempts add up to the total. */
  lemma PerQuestionAttemptsAddUp(d: StorageData)
    requires Integrity(d)
    requires DistinctQuestionIds(Flatten(d.quizSets))
    ensures SumAttempts(CalculateStats(d).questionStats) == CalculateStats(d).totalAttempts
  {
    var all := Flatten(d.quizSets);
    SortKeepsSum(AllStats(all, d.results));
    AllStatsAttempts(all, d.results);
    forall x | x in d.results
      ensures x.questionId in IdsOf(all)
    {
      var it :| it in all && (x.questionId, x.quizSetId) == (it.question.id, it.quizSetId);
      var k :| 0 <= k < |all| && all[k] == it;
      IdsOfMembers(all, x.questionId);
    }
    AttemptsOnCoveringIds(d.results, IdsOf(all));
  }

  /** With no results at all every accuracy is 0: the zero-division guard
      applies to the overall figure and to every question. */
  lemma NoResultsNoAccuracy(d: StorageData)
    requires d.results == []
    ensures CalculateStats(d).overallAccuracy == 0.0
    ensures forall st :: st in CalculateStats(d).questionStats ==> st.accuracy == 0.0 && st.totalAttempts == 0
  {
    var r := CalculateStats(d);
    var all := AllStats(Flatten(d.quizSets), d.results);
    forall st | st in r.questionStats
      ensures st.accuracy == 0.0 && st.totalAttempts == 0
    {
      assert st in multiset(all);
      var k :| 0 <= k < |all| && all[k] == st;
    }
  }

  /** A worked example: two questions in one set, three results; q1 is
      answered once right and once wrong, q2 once right. */
  const ExampleQ1 := Question("q1", "first", true, None, 0)
  const ExampleQ2 := Question("q2", "second", false, None, 0)
  const ExampleResults := [QuizResult("r1", "q1", "s", true, 1, true),
                           QuizResult("r2", "q1", "s", false, 2, false),
                           QuizResult("r3", "q2", "s", true, 3, false)]
  const ExampleData := StorageData([QuizSet("s", "title", [ExampleQ1, ExampleQ2], 0, None)], ExampleResults)

  lemma ExampleFlattened()
    ensures Flatten(ExampleData.quizSets) == [QuizItem(ExampleQ1, "s"), QuizItem(ExampleQ2, "s")]
  {
    var sets := ExampleData.quizSets;
    assert sets[1..] == [];
    assert Tagged(sets[0]) == [QuizItem(ExampleQ1, "s"), QuizItem(ExampleQ2, "s")];
  }

  lemma ExampleFirstQuestion()
    ensures StatsFor(QuizItem(ExampleQ1, "s"), ExampleResults) == QuestionStats("q1", "first", 2, 1, 1, 50.0)
  {
    var rs := ExampleResults;
    var mine := ResultsFor(rs, "q1");
    assert rs[1..][1..] == [rs[2]];
    assert mine == [rs[0], rs[1]];
    assert mine[1..] == [rs[1]];
    assert CorrectOnes(mine) == [rs[0]];
  }

  lemma ExampleSecondQuestion()
    ensures StatsFor(QuizItem(ExampleQ2, "s"), ExampleResults) == QuestionStats("q2", "second", 1, 1, 0, 100.0)
  {
    var rs := ExampleResults;
    var mine := ResultsFor(rs, "q2");
    assert rs[1..][1..] == [rs[2]];
    assert mine == [rs[2]];
    assert CorrectOnes(mine) == [rs[2]];
  }

  lemma ExampleTotals()
    ensures |CorrectOnes(ExampleResults)| == 2
  {
    var rs := ExampleResults;
    assert rs[1..][1..] == [rs[2]];
    assert CorrectOnes(rs) == [rs[0], rs[2]];
  }

  lemma ExampleSorted()
    ensures var a := QuestionStats("q1", "first", 2, 1, 1, 50.0);
            var b := QuestionStats("q2", "second", 1, 1, 0, 100.0);
            SortByAccuracy([a, b]) == [a, b]
  {
    var a := QuestionStats("q1", "first", 2, 1, 1, 50.0);
    var b := QuestionStats("q2", "second", 1, 1, 0, 100.0);
    assert [a, b][1..] == [b];
    assert [b][1..] == [];
    assert SortByAccuracy([b]) == [b];
  }

  lemma AllStatsOfTwo(x: QuizItem, y: QuizItem, results: seq<QuizResult>)
    ensures AllStats([x, y], results) == [StatsFor(x, results), StatsFor(y, results)]
  {
    var per := AllStats([x, y], results);
    assert per[0] == StatsFor(x, results) && per[1] == StatsFor(y, results);
  }

  lemma ExamplePerQuestion()
    ensures AllStats(Flatten(ExampleData.quizSets), ExampleResults) ==
            [QuestionStats("q1", "first", 2, 1, 1, 50.0), QuestionStats("q2", "second", 1, 1, 0, 100.0)]
  {
    ExampleFlattened();
    AllStatsOfTwo(QuizItem(ExampleQ1, "s"), QuizItem(ExampleQ2, "s"), ExampleResults);
    ExampleFirstQuestion();
    ExampleSecondQuestion();
  }

  /** The per-question figures are 50 and 100, so q1 is listed first; the
      overall accuracy is two thirds. */
  lemma StatsOfExample()
    ensures var st := CalculateStats(ExampleData);
      st.totalQuestions == 2 && st.totalAttempts == 3 && st.totalCorrect == 2 && st.totalIncorrect == 1 &&
      st.overallAccuracy == 200.0 / 3.0 &&
      st.questionStats == [QuestionStats("q1", "first", 2, 1, 1, 50.0),
                           QuestionStats("q2", "second", 1, 1, 0, 100.0)]
  {
    var a := QuestionStats("q1", "first", 2, 1, 1, 50.0);
    var b := QuestionStats("q2", "second", 1, 1, 0, 100.0);
    var per := AllStats(Flatten(ExampleData.quizSets), ExampleResults);
    assert per == [a, b] by {
      ExamplePerQuestion();
    }
    assert SortByAccuracy(per) == [a, b] by {
      ExampleSorted();
    }
    assert |CorrectOnes(ExampleResults)| == 2 by {
      ExampleTotals();
    }
    assert Percent(2, 3) == 200.0 / 3.0;
    assert CalculateStats(ExampleData) == OverallStats(2, 3, 2, 1, Percent(2, 3), [a, b]);
  }
}
