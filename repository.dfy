/** The document transforms behind the repository operations of
    src/services/storageService.ts, as pure functions from the stored document
    to the next one, with what each of them promises, and the referential
    integrity between results and questions that they preserve. The
    read-modify-write around them is in StorageService. */
module Repository {
  import opened Model
  import opened Seqs
  import Text

  // ----- lookups: `find` / `findIndex` by id -----

  function FindSet(sets: seq<QuizSet>, id: string): (r: Option<nat>)
    ensures r.Some? ==> r.value < |sets| && sets[r.value].id == id &&
                        forall j :: 0 <= j < r.value ==> sets[j].id != id
    ensures r.None? <==> forall j :: 0 <= j < |sets| ==> sets[j].id != id
  {
    FirstIndex(sets, (s: QuizSet) => s.id == id)
  }

  function FindQuestion(questions: seq<Question>, id: string): (r: Option<nat>)
    ensures r.Some? ==> r.value < |questions| && questions[r.value].id == id &&
                        forall j :: 0 <= j < r.value ==> questions[j].id != id
    ensures r.None? <==> forall j :: 0 <= j < |questions| ==> questions[j].id != id
  {
    FirstIndex(questions, (q: Question) => q.id == id)
  }

  // ----- the filters the operations apply -----

  function SetsOtherThan(sets: seq<QuizSet>, id: string): seq<QuizSet> {
    Filter(sets, (s: QuizSet) => s.id != id)
  }

  /** The questions with another id, each as often as it was there and in
      its order. */
  function QuestionsOtherThan(questions: seq<Question>, id: string): (r: seq<Question>)
    ensures forall q :: multiset(r)[q] == if q.id != id then multiset(questions)[q] else 0
    ensures IsSubsequence(r, questions)
    ensures |r| == 0 <==> forall q :: q in questions ==> q.id == id
  {
    var keep := (q: Question) => q.id != id;
    FilterIsSubsequence(questions, keep);
    forall q
      ensures multiset(Filter(questions, keep))[q] == if keep(q) then multiset(questions)[q] else 0
    {
      FilterMultiplicity(questions, keep, q);
    }
    var r := Filter(questions, keep);
    assert |r| > 0 ==> r[0] in r;
    r
  }

  function ResultsOutsideSet(results: seq<QuizResult>, quizSetId: string): seq<QuizResult> {
    Filter(results, (x: QuizResult) => x.quizSetId != quizSetId)
  }

  /** The results for other questions, each as often as it was there and in
      its order. */
  function ResultsNotFor(results: seq<QuizResult>, questionId: string): (r: seq<QuizResult>)
    ensures forall x :: multiset(r)[x] == if x.questionId != questionId then multiset(results)[x] else 0
    ensures IsSubsequence(r, results)
  {
    var keep := (x: QuizResult) => x.questionId != questionId;
    FilterIsSubsequence(results, keep);
    forall x
      ensures multiset(Filter(results, keep))[x] == if keep(x) then multiset(results)[x] else 0
    {
      FilterMultiplicity(results, keep, x);
    }
    Filter(results, keep)
  }

  ghost predicate UniqueSetIds(sets: seq<QuizSet>) {
    forall i, j :: 0 <= i < j < |sets| ==> sets[i].id != sets[j].id
  }

  // ----- flattening: `quizSets.flatMap(qs => qs.questions.map(...))` -----

  /** The number of questions over all sets. */
  function QuestionCount(sets: seq<QuizSet>): nat {
    if |sets| == 0 then 0 else |sets[0].questions| + QuestionCount(sets[1..])
  }

  /** One set's questions, each paired with the set's id. */
  function Tagged(s: QuizSet): (r: seq<QuizItem>)
    ensures |r| == |s.questions|
    ensures forall k :: 0 <= k < |r| ==> r[k] == QuizItem(s.questions[k], s.id)
  {
    seq(|s.questions|, k requires 0 <= k < |s.questions| => QuizItem(s.questions[k], s.id))
  }

  /** All questions of all sets, set by set and in each set's order, each with
      the id of the set that owns it. */
  function Flatten(sets: seq<QuizSet>): (r: seq<QuizItem>)
    ensures |r| == QuestionCount(sets)
    ensures forall it :: it in r <==>
              exists i :: 0 <= i < |sets| && it.quizSetId == sets[i].id && it.question in sets[i].questions
  {
    if |sets| == 0 then []
    else
      var head, tail := Tagged(sets[0]), Flatten(sets[1..]);
      assert forall it: QuizItem :: it in head <==> it.quizSetId == sets[0].id && it.question in sets[0].questions by {
        forall it: QuizItem | it.quizSetId == sets[0].id && it.question in sets[0].questions
          ensures it in head
        {
          var k :| 0 <= k < |sets[0].questions| && sets[0].questions[k] == it.question;
          assert head[k] == it;
        }
      }
      assert forall it: QuizItem :: it in tail <==>
               exists i :: 1 <= i < |sets| && it.quizSetId == sets[i].id && it.question in sets[i].questions by {
        forall it | it in tail
          ensures exists i :: 1 <= i < |sets| && it.quizSetId == sets[i].id && it.question in sets[i].questions
        {
          var i :| 0 <= i < |sets[1..]| && it.quizSetId == sets[1..][i].id && it.question in sets[1..][i].questions;
          assert sets[1..][i] == sets[i + 1];
        }
        forall it: QuizItem | exists i :: 1 <= i < |sets| && it.quizSetId == sets[i].id && it.question in sets[i].questions
          ensures it in tail
        {
          var i :| 1 <= i < |sets| && it.quizSetId == sets[i].id && it.question in sets[i].questions;
          assert sets[1..][i - 1] == sets[i];
        }
      }
      head + tail
  }

  /** Flattening follows the order of the sets. */
  lemma {:induction false} FlattenAppend(a: seq<QuizSet>, b: seq<QuizSet>)
    ensures Flatten(a + b) == Flatten(a) + Flatten(b)
  {
    if |a| == 0 {
      assert a + b == b;
    } else {
      assert (a + b)[0] == a[0];
      assert (a + b)[1..] == a[1..] + b;
      FlattenAppend(a[1..], b);
    }
  }

  /** The (question id, set id) pairs that a result may legitimately refer to. */
  function References(sets: seq<QuizSet>): set<(string, string)> {
    set it | it in Flatten(sets) :: (it.question.id, it.quizSetId)
  }

  /** Every result refers to a question that exists, in the set it names. */
  ghost predicate Integrity(d: StorageData) {
    forall x :: x in d.results ==> (x.questionId, x.quizSetId) in References(d.quizSets)
  }

  lemma ReferenceIntro(sets: seq<QuizSet>, i: nat, q: Question)
    requires i < |sets| && q in sets[i].questions
    ensures (q.id, sets[i].id) in References(sets)
  {
    assert QuizItem(q, sets[i].id) in Flatten(sets);
  }

  lemma ReferenceElim(sets: seq<QuizSet>, p: (string, string)) returns (i: nat, q: Question)
    requires p in References(sets)
    ensures i < |sets| && q in sets[i].questions && p == (q.id, sets[i].id)
  {
    var it :| it in Flatten(sets) && p == (it.question.id, it.quizSetId);
    var k :| 0 <= k < |sets| && it.quizSetId == sets[k].id && it.question in sets[k].questions;
    i, q := k, it.question;
  }

  // ----- the operations -----

  /** `updateQuizSet`: the first set with the same id is replaced in place;
      without one, nothing changes. */
  function UpdateQuizSet(d: StorageData, quizSet: QuizSet): (r: StorageData)
    ensures r.results == d.results
    ensures |r.quizSets| == |d.quizSets|
    ensures (forall j :: 0 <= j < |d.quizSets| ==> d.quizSets[j].id != quizSet.id) ==> r == d
    ensures forall j :: 0 <= j < |d.quizSets| ==>
              r.quizSets[j] == if FindSet(d.quizSets, quizSet.id) == Some(j) then quizSet else d.quizSets[j]
  {
    match FindSet(d.quizSets, quizSet.id)
    case None => d
    case Some(i) =>
      var sets := d.quizSets[i := quizSet];
      assert sets[i] == quizSet;
      d.(quizSets := sets)
  }

  /** Dropping the sets with an id a second time drops nothing more. */
  lemma SetsOtherThanTwice(sets: seq<QuizSet>, id: string)
    ensures SetsOtherThan(SetsOtherThan(sets, id), id) == SetsOtherThan(sets, id)
  {
    forall keep: QuizSet -> bool
      ensures Filter(Filter(sets, keep), keep) == Filter(sets, keep)
    {
      FilterTwice(sets, keep);
    }
  }

  /** `deleteQuizSet`: the set goes, and with it every result recorded
      against it; everything else stays, as often as it was there and in
      its order. */
  function DeleteQuizSet(d: StorageData, id: string): (r: StorageData)
    ensures forall s :: s in r.quizSets <==> s in d.quizSets && s.id != id
    ensures forall x :: x in r.results <==> x in d.results && x.quizSetId != id
    ensures forall s :: multiset(r.quizSets)[s] == if s.id != id then multiset(d.quizSets)[s] else 0
    ensures forall x :: multiset(r.results)[x] == if x.quizSetId != id then multiset(d.results)[x] else 0
    ensures IsSubsequence(r.quizSets, d.quizSets) && IsSubsequence(r.results, d.results)
  {
    FilterSubsequences(d.quizSets);
    FilterSubsequences(d.results);
    FilterMultiplicities(d.quizSets);
    FilterMultiplicities(d.results);
    StorageData(SetsOtherThan(d.quizSets, id), ResultsOutsideSet(d.results, id))
  }

  /** Replacing a set by another with the same id does not change the sets
      with other ids. */
  lemma SetsOtherThanIgnoresUpdate(sets: seq<QuizSet>, i: nat, s: QuizSet)
    requires i < |sets| && s.id == sets[i].id
    ensures SetsOtherThan(sets[i := s], s.id) == SetsOtherThan(sets, s.id)
  {
    FiltersIgnoreDroppedUpdate(sets, i, s);
  }

  /** The sets once the question has left the set at index `i`: when no
      question with another id is in it, every set with its id goes;
      otherwise it stays in its place with its own fields, holding its other
      questions as often as they were there and in their order, and every
      other set stays as it was. The sets with other ids are kept exactly. */
  function PruneSet(sets: seq<QuizSet>, i: nat, questionId: string): (r: seq<QuizSet>)
    requires i < |sets|
    ensures (forall q :: q in sets[i].questions ==> q.id == questionId) ==>
              r == SetsOtherThan(sets, sets[i].id)
    ensures (exists q :: q in sets[i].questions && q.id != questionId) ==>
              |r| == |sets| &&
              (forall j :: 0 <= j < |sets| && j != i ==> r[j] == sets[j]) &&
              r[i] == sets[i].(questions := r[i].questions) &&
              IsSubsequence(r[i].questions, sets[i].questions) &&
              forall q :: multiset(r[i].questions)[q] ==
                            if q.id != questionId then multiset(sets[i].questions)[q] else 0
    ensures SetsOtherThan(r, sets[i].id) == SetsOtherThan(sets, sets[i].id)
    ensures forall s :: s in sets && s.id != sets[i].id ==> s in r
    ensures forall s :: s in r && s.id != sets[i].id ==> s in sets
    ensures |r| <= |sets|
  {
    var remaining := QuestionsOtherThan(sets[i].questions, questionId);
    var pruned := sets[i].(questions := remaining);
    if |remaining| == 0 then
      SetsOtherThanTwice(sets, sets[i].id);
      SetsOtherThan(sets, sets[i].id)
    else
      var r := sets[i := pruned];
      SetsOtherThanIgnoresUpdate(sets, i, pruned);
      assert forall s :: s in sets && s.id != sets[i].id ==> s in r by {
        forall s | s in sets && s.id != sets[i].id
          ensures s in r
        {
          var j :| 0 <= j < |sets| && sets[j] == s;
          assert r[j] == s;
        }
      }
      assert forall s :: s in r && s.id != sets[i].id ==> s in sets by {
        forall s | s in r && s.id != sets[i].id
          ensures s in sets
        {
          assert s in SetsOtherThan(r, sets[i].id);
        }
      }
      r
  }

  /** `deleteQuestion`: with the set present, the question leaves it (the set
      itself leaves when it has no question left) and every result for the
      question leaves, whatever set it names, the others staying as often as
      they were there and in their order; the sets with other ids are kept
      exactly, in their order; without the set, nothing changes. */
  function DeleteQuestion(d: StorageData, quizSetId: string, questionId: string): (r: StorageData)
    ensures (forall j :: 0 <= j < |d.quizSets| ==> d.quizSets[j].id != quizSetId) ==> r == d
    ensures (exists j :: 0 <= j < |d.quizSets| && d.quizSets[j].id == quizSetId) ==>
              (forall x :: x in r.results <==> x in d.results && x.questionId != questionId) &&
              (forall x :: multiset(r.results)[x] ==
                             if x.questionId != questionId then multiset(d.results)[x] else 0) &&
              IsSubsequence(r.results, d.results)
    ensures SetsOtherThan(r.quizSets, quizSetId) == SetsOtherThan(d.quizSets, quizSetId)
    ensures forall s :: s in d.quizSets && s.id != quizSetId ==> s in r.quizSets
    ensures forall s :: s in r.quizSets && s.id != quizSetId ==> s in d.quizSets
    ensures |r.quizSets| <= |d.quizSets|
    ensures match FindSet(d.quizSets, quizSetId)
            case None => true
            case Some(i) =>
              var s := d.quizSets[i];
              ((forall q :: q in s.questions ==> q.id == questionId) ==>
                 r.quizSets == SetsOtherThan(d.quizSets, quizSetId)) &&
              ((exists q :: q in s.questions && q.id != questionId) ==>
                 |r.quizSets| == |d.quizSets| &&
                 (forall j :: 0 <= j < |d.quizSets| && j != i ==> r.quizSets[j] == d.quizSets[j]) &&
                 r.quizSets[i] == s.(questions := r.quizSets[i].questions) &&
                 IsSubsequence(r.quizSets[i].questions, s.questions) &&
                 forall q :: multiset(r.quizSets[i].questions)[q] ==
                               if q.id != questionId then multiset(s.questions)[q] else 0)
  {
    match FindSet(d.quizSets, quizSetId)
    case None => d
    case Some(i) =>
      var sets := PruneSet(d.quizSets, i, questionId);
      StorageData(sets, ResultsNotFor(d.results, questionId))
  }

  /** The fields of a question that `updateQuestion` may overwrite; `None`
      stands for a field left `undefined` in the update. */
  datatype QuestionUpdate = QuestionUpdate(
    question: Option<string>,
    answer: Option<bool>,
    explanation: Option<string>)

  /** Overwrites the defined fields of the update and keeps the rest. */
  function ApplyUpdate(q: Question, u: QuestionUpdate): (r: Question)
    ensures r.id == q.id && r.createdAt == q.createdAt
    ensures r.question == if u.question.Some? then u.question.value else q.question
    ensures r.answer == if u.answer.Some? then u.answer.value else q.answer
    ensures r.explanation == if u.explanation.Some? then u.explanation else q.explanation
  {
    var q1 := if u.question.Some? then q.(question := u.question.value) else q;
    var q2 := if u.answer.Some? then q1.(answer := u.answer.value) else q1;
    if u.explanation.Some? then q2.(explanation := u.explanation) else q2
  }

  /** Applying the same update twice is applying it once. */
  lemma ApplyUpdateIdempotent(q: Question, u: QuestionUpdate)
    ensures ApplyUpdate(ApplyUpdate(q, u), u) == ApplyUpdate(q, u)
  {
  }

  /** An update can set an explanation but never remove one. */
  lemma ApplyUpdateNeverClearsExplanation(q: Question, u: QuestionUpdate)
    ensures q.explanation.Some? ==> ApplyUpdate(q, u).explanation.Some?
  {
  }

  /** Editing a question and emptying its explanation field sends `undefined`,
      so the explanation that was there stays. */
  lemma EmptiedExplanationIsKept(q: Question, text: string, answer: bool, explanationText: string)
    requires explanationText == ""
    ensures ApplyUpdate(q, QuestionUpdate(Some(text), Some(answer), Text.OrUndefined(Some(explanationText)))).explanation
            == q.explanation
  {
  }

  /** `updateQuestion`: the first question with the id, in the first set with
      the id, gets the update; every other question, every set field and every
      result stay; with the set or the question missing, nothing changes. */
  function UpdateQuestion(d: StorageData, quizSetId: string, questionId: string, u: QuestionUpdate): (r: StorageData)
    ensures r.results == d.results
    ensures |r.quizSets| == |d.quizSets|
    ensures forall j :: 0 <= j < |d.quizSets| ==>
              var s, s' := d.quizSets[j], r.quizSets[j];
              s'.id == s.id && s'.title == s.title && s'.createdAt == s.createdAt &&
              s'.sourceImageUri == s.sourceImageUri && |s'.questions| == |s.questions| &&
              forall k :: 0 <= k < |s.questions| ==>
                s'.questions[k] ==
                  if FindSet(d.quizSets, quizSetId) == Some(j) && FindQuestion(s.questions, questionId) == Some(k)
                  then ApplyUpdate(s.questions[k], u)
                  else s.questions[k]
    ensures match FindSet(d.quizSets, quizSetId)
            case None => r == d
            case Some(i) =>
              match FindQuestion(d.quizSets[i].questions, questionId)
              case None => r == d
              case Some(k) => r.quizSets[i].questions[k] == ApplyUpdate(d.quizSets[i].questions[k], u)
  {
    match FindSet(d.quizSets, quizSetId)
    case None => d
    case Some(i) =>
      var s := d.quizSets[i];
      match FindQuestion(s.questions, questionId)
      case None => d
      case Some(k) =>
        d.(quizSets := d.quizSets[i := s.(questions := s.questions[k := ApplyUpdate(s.questions[k], u)])])
  }

  /** `addQuestion`: the question goes at the end of the first set with the
      id; nothing else changes, and without the set nothing changes at all. */
  function AddQuestion(d: StorageData, quizSetId: string, q: Question): (r: StorageData)
    ensures r.results == d.results
    ensures |r.quizSets| == |d.quizSets|
    ensures FindSet(d.quizSets, quizSetId).None? ==> r == d
    ensures forall j :: 0 <= j < |d.quizSets| ==>
              r.quizSets[j] ==
                if FindSet(d.quizSets, quizSetId) == Some(j)
                then d.quizSets[j].(questions := d.quizSets[j].questions + [q])
                else d.quizSets[j]
    ensures FindSet(d.quizSets, quizSetId).Some? ==> QuizItem(q, quizSetId) in Flatten(r.quizSets)
  {
    match FindSet(d.quizSets, quizSetId)
    case None => d
    case Some(i) =>
      var s := d.quizSets[i];
      var r := d.(quizSets := d.quizSets[i := s.(questions := s.questions + [q])]);
      assert q in r.quizSets[i].questions;
      r
  }

  // ----- what the operations preserve -----

  /** With set ids unique, `deleteQuestion` leaves the set exactly when no
      question with another id is left in it, and a surviving set holds
      precisely its other questions. */
  lemma DeleteQuestionPrunesSet(d: StorageData, quizSetId: string, questionId: string, i: nat)
    requires UniqueSetIds(d.quizSets)
    requires i < |d.quizSets| && d.quizSets[i].id == quizSetId
    ensures var r := DeleteQuestion(d, quizSetId, questionId);
            ((exists s :: s in r.quizSets && s.id == quizSetId) <==>
             (exists q :: q in d.quizSets[i].questions && q.id != questionId)) &&
            (forall s :: s in r.quizSets && s.id == quizSetId ==>
               s == d.quizSets[i].(questions := s.questions) &&
               forall q :: q in s.questions <==> q in d.quizSets[i].questions && q.id != questionId)
  {
    var r := DeleteQuestion(d, quizSetId, questionId);
    assert FindSet(d.quizSets, quizSetId) == Some(i);
    var target := d.quizSets[i];
    var remaining := QuestionsOtherThan(target.questions, questionId);
    if |remaining| == 0 {
      assert forall q :: q in target.questions ==> q.id == questionId;
    } else {
      var s' := target.(questions := remaining);
      assert r.quizSets == d.quizSets[i := s'];
      assert r.quizSets[i] == s' && s' in r.quizSets;
      assert remaining[0] in target.questions && remaining[0].id != questionId;
      forall s | s in r.quizSets && s.id == quizSetId
        ensures s == s'
      {
        var j :| 0 <= j < |r.quizSets| && r.quizSets[j] == s;
      }
    }
  }

  /** The questions of `quizSet` still include every question that a result
      recorded against its id refers to. */
  ghost predicate CoversResults(quizSet: QuizSet, results: seq<QuizResult>) {
    forall x :: x in results && x.quizSetId == quizSet.id ==>
      exists q :: q in quizSet.questions && q.id == x.questionId
  }

  /** `updateQuizSet` keeps set ids unique, and keeps every result's
      reference valid when the replacing set still holds every question its
      results refer to; the repository does not check this itself. */
  lemma UpdateQuizSetKeepsInvariant(d: StorageData, quizSet: QuizSet)
    requires UniqueSetIds(d.quizSets) && Integrity(d)
    requires CoversResults(quizSet, d.results)
    ensures var r := UpdateQuizSet(d, quizSet);
            UniqueSetIds(r.quizSets) && Integrity(r)
  {
    var r := UpdateQuizSet(d, quizSet);
    match FindSet(d.quizSets, quizSet.id)
    case None =>
    case Some(i) =>
      assert forall j :: 0 <= j < |r.quizSets| ==> r.quizSets[j].id == d.quizSets[j].id;
      forall x | x in r.results
        ensures (x.questionId, x.quizSetId) in References(r.quizSets)
      {
        if x.quizSetId == quizSet.id {
          var q :| q in quizSet.questions && q.id == x.questionId;
          ReferenceIntro(r.quizSets, i, q);
        } else {
          var k, q := ReferenceElim(d.quizSets, (x.questionId, x.quizSetId));
          assert k != i;
          ReferenceIntro(r.quizSets, k, q);
        }
      }
  }

  /** `saveQuizSet` with a fresh id keeps set ids unique and keeps every
      result's reference valid. */
  lemma SaveQuizSetKeepsInvariant(d: StorageData, quizSet: QuizSet)
    requires UniqueSetIds(d.quizSets) && Integrity(d)
    requires forall s :: s in d.quizSets ==> s.id != quizSet.id
    ensures var r := d.(quizSets := d.quizSets + [quizSet]);
            UniqueSetIds(r.quizSets) && Integrity(r)
  {
    var sets := d.quizSets + [quizSet];
    forall x | x in d.results
      ensures (x.questionId, x.quizSetId) in References(sets)
    {
      var i, q := ReferenceElim(d.quizSets, (x.questionId, x.quizSetId));
      assert sets[i] == d.quizSets[i];
      ReferenceIntro(sets, i, q);
    }
    forall i, j | 0 <= i < j < |sets|
      ensures sets[i].id != sets[j].id
    {
      if j == |d.quizSets| {
        assert sets[i] in d.quizSets;
      }
    }
  }

  /** `saveQuizResult` keeps every reference valid when the new result refers
      to an existing question of the set it names; the repository does not
      check this itself. */
  lemma SaveQuizResultKeepsIntegrity(d: StorageData, x: QuizResult)
    requires Integrity(d)
    requires (x.questionId, x.quizSetId) in References(d.quizSets)
    ensures Integrity(d.(results := d.results + [x]))
  {
  }

  /** Removing sets by id keeps the remaining ids unique. */
  lemma {:induction false} SetsOtherThanUnique(sets: seq<QuizSet>, id: string)
    requires UniqueSetIds(sets)
    ensures UniqueSetIds(SetsOtherThan(sets, id))
  {
    if |sets| > 0 {
      assert UniqueSetIds(sets[1..]) by {
        forall i, j | 0 <= i < j < |sets[1..]|
          ensures sets[1..][i].id != sets[1..][j].id
        {
          assert sets[1..][i] == sets[i + 1] && sets[1..][j] == sets[j + 1];
        }
      }
      SetsOtherThanUnique(sets[1..], id);
      var tail := SetsOtherThan(sets[1..], id);
      if sets[0].id != id {
        assert SetsOtherThan(sets, id) == [sets[0]] + tail;
        forall k | 0 <= k < |tail|
          ensures tail[k].id != sets[0].id
        {
          assert tail[k] in sets[1..];
          var m :| 0 <= m < |sets[1..]| && sets[1..][m] == tail[k];
          assert sets[m + 1] == tail[k];
        }
      } else {
        assert SetsOtherThan(sets, id) == tail;
      }
    }
  }

  /** Dropping a set and the results recorded against it leaves every
      remaining result naming a question that is still there. */
  lemma SetsOtherThanKeepsIntegrity(d: StorageData, id: string)
    requires Integrity(d)
    ensures Integrity(StorageData(SetsOtherThan(d.quizSets, id), ResultsOutsideSet(d.results, id)))
  {
    var sets := SetsOtherThan(d.quizSets, id);
    forall x | x in ResultsOutsideSet(d.results, id)
      ensures (x.questionId, x.quizSetId) in References(sets)
    {
      var i, q := ReferenceElim(d.quizSets, (x.questionId, x.quizSetId));
      assert d.quizSets[i] in sets;
      var i' :| 0 <= i' < |sets| && sets[i'] == d.quizSets[i];
      ReferenceIntro(sets, i', q);
    }
  }

  /** `deleteQuizSet` keeps set ids unique and leaves no result pointing at a
      question that is gone. */
  lemma DeleteQuizSetKeepsInvariant(d: StorageData, id: string)
    requires UniqueSetIds(d.quizSets) && Integrity(d)
    ensures var r := DeleteQuizSet(d, id);
            UniqueSetIds(r.quizSets) && Integrity(r)
  {
    SetsOtherThanUnique(d.quizSets, id);
    SetsOtherThanKeepsIntegrity(d, id);
  }

  /** `deleteQuestion` keeps set ids unique: a pruned set keeps its id, a
      dropped one takes every set with its id along. */
  lemma DeleteQuestionKeepsUniqueIds(d: StorageData, quizSetId: string, questionId: string)
    requires UniqueSetIds(d.quizSets)
    ensures UniqueSetIds(DeleteQuestion(d, quizSetId, questionId).quizSets)
  {
    match FindSet(d.quizSets, quizSetId)
    case None =>
    case Some(i) =>
      var remaining := QuestionsOtherThan(d.quizSets[i].questions, questionId);
      if |remaining| == 0 {
        SetsOtherThanUnique(d.quizSets, quizSetId);
      } else {
        var sets := d.quizSets[i := d.quizSets[i].(questions := remaining)];
        assert DeleteQuestion(d, quizSetId, questionId).quizSets == sets;
        assert forall j :: 0 <= j < |sets| ==> sets[j].id == d.quizSets[j].id;
      }
  }

  /** A question that stays after pruning the set at index `i` is still
      listed under its set's id. */
  lemma PruneSetKeepsReference(sets: seq<QuizSet>, i: nat, questionId: string, k: nat, q: Question)
    requires UniqueSetIds(sets)
    requires i < |sets| && k < |sets| && q in sets[k].questions
    requires k == i ==> q.id != questionId
    ensures (q.id, sets[k].id) in References(PruneSet(sets, i, questionId))
  {
    var r := PruneSet(sets, i, questionId);
    var remaining := QuestionsOtherThan(sets[i].questions, questionId);
    if k != i {
      assert sets[k].id != sets[i].id;
      assert sets[k] in r;
      var k' :| 0 <= k' < |r| && r[k'] == sets[k];
      ReferenceIntro(r, k', q);
    } else {
      assert q in remaining;
      assert r == sets[i := sets[i].(questions := remaining)];
      ReferenceIntro(r, i, q);
    }
  }

  /** A result that survives `deleteQuestion` still names an existing
      question: the deleted question's results are gone, and any other
      question of the pruned set is still in it. */
  lemma DeleteQuestionKeepsReference(d: StorageData, quizSetId: string, questionId: string, i: nat, x: QuizResult)
    requires UniqueSetIds(d.quizSets) && Integrity(d)
    requires FindSet(d.quizSets, quizSetId) == Some(i)
    requires x in DeleteQuestion(d, quizSetId, questionId).results
    ensures (x.questionId, x.quizSetId) in References(DeleteQuestion(d, quizSetId, questionId).quizSets)
  {
    var k, q := ReferenceElim(d.quizSets, (x.questionId, x.quizSetId));
    if d.quizSets[k].id == quizSetId {
      assert k == i;
    }
    assert x.questionId != questionId;
    PruneSetKeepsReference(d.quizSets, i, questionId, k, q);
  }

  /** `deleteQuestion` keeps set ids unique and leaves no result pointing at a
      question that is gone: the pruned set can only go when every question
      in it had the deleted id, and those results went with it. */
  lemma DeleteQuestionKeepsInvariant(d: StorageData, quizSetId: string, questionId: string)
    requires UniqueSetIds(d.quizSets) && Integrity(d)
    ensures var r := DeleteQuestion(d, quizSetId, questionId);
            UniqueSetIds(r.quizSets) && Integrity(r)
  {
    DeleteQuestionKeepsUniqueIds(d, quizSetId, questionId);
    var r := DeleteQuestion(d, quizSetId, questionId);
    match FindSet(d.quizSets, quizSetId)
    case None =>
    case Some(i) =>
      forall x | x in r.results
        ensures (x.questionId, x.quizSetId) in References(r.quizSets)
      {
        DeleteQuestionKeepsReference(d, quizSetId, questionId, i, x);
      }
  }

  /** `updateQuestion` never changes an id, so every reference stays valid. */
  lemma UpdateQuestionKeepsInvariant(d: StorageData, quizSetId: string, questionId: string, u: QuestionUpdate)
    requires UniqueSetIds(d.quizSets) && Integrity(d)
    ensures var r := UpdateQuestion(d, quizSetId, questionId, u);
            UniqueSetIds(r.quizSets) && Integrity(r)
  {
    var r := UpdateQuestion(d, quizSetId, questionId, u);
    forall x | x in r.results
      ensures (x.questionId, x.quizSetId) in References(r.quizSets)
    {
      var i, q := ReferenceElim(d.quizSets, (x.questionId, x.quizSetId));
      var k :| 0 <= k < |d.quizSets[i].questions| && d.quizSets[i].questions[k] == q;
      var q' := r.quizSets[i].questions[k];
      assert q'.id == q.id;
      ReferenceIntro(r.quizSets, i, q');
    }
  }

  /** `addQuestion` only adds questions, so every reference stays valid. */
  lemma AddQuestionKeepsInvariant(d: StorageData, quizSetId: string, q: Question)
    requires UniqueSetIds(d.quizSets) && Integrity(d)
    ensures var r := AddQuestion(d, quizSetId, q);
            UniqueSetIds(r.quizSets) && Integrity(r)
  {
    var r := AddQuestion(d, quizSetId, q);
    forall x | x in r.results
      ensures (x.questionId, x.quizSetId) in References(r.quizSets)
    {
      var i, q0 := ReferenceElim(d.quizSets, (x.questionId, x.quizSetId));
      assert q0 in r.quizSets[i].questions by {
        if FindSet(d.quizSets, quizSetId) == Some(i) {
          assert r.quizSets[i].questions == d.quizSets[i].questions + [q];
        }
      }
      ReferenceIntro(r.quizSets, i, q0);
    }
  }
}
