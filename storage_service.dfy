/** The storage service of src/services/storageService.ts: one document held
    under a fixed key of the device's key-value store, and the operations that
    read it, change it in memory and write it back whole. The key-value store
    is the `stored` field of a `Store`; a write the store rejects (the source
    rethrows it) is reported as `ok == false` and leaves the stored value as it
    was. */
module StorageService {
  import opened Model
  import opened Seqs
  import opened Repository
  import Statistics
  import Selector

  /** What the key-value store holds under the key: nothing, a value that does
      not parse as a document, or a document. */
  datatype Stored = Absent | Corrupt | Saved(doc: StorageData)

  /** The document `getAllData` reads from a stored value: nothing stored and
      an unreadable value both read as the empty document. */
  function Decode(s: Stored): (d: StorageData)
    ensures s.Saved? ==> d == s.doc
    ensures !s.Saved? ==> d.quizSets == [] && d.results == []
  {
    if s.Saved? then s.doc else EmptyData
  }

  class Store {
    /** The value under the storage key. */
    var stored: Stored
    /** Whether the backing store accepts writes (it may be full). */
    const acceptsWrites: bool

    constructor (initial: Stored, acceptsWrites: bool)
      ensures stored == initial && this.acceptsWrites == acceptsWrites
    {
      stored := initial;
      this.acceptsWrites := acceptsWrites;
    }

    /** The document a read returns in the current state. */
    function Doc(): StorageData
      reads this
    {
      Decode(stored)
    }

    /** Set ids are unique and every stored result names a question of the
        set it names. */
    ghost predicate Consistent()
      reads this
    {
      UniqueSetIds(Doc().quizSets) && Integrity(Doc())
    }

    /** `getAllData`. */
    method GetAllData() returns (d: StorageData)
      ensures stored.Saved? ==> d == stored.doc
      ensures !stored.Saved? ==> d == EmptyData
    {
      if stored.Saved? {
        d := stored.doc;
      } else {
        d := EmptyData;
      }
    }

    /** `saveAllData`: replaces the stored value with the whole document, or
        fails and leaves it alone. */
    method SaveAllData(data: StorageData) returns (ok: bool)
      modifies this
      ensures ok == acceptsWrites
      ensures ok ==> stored == Saved(data) && Doc() == data
      ensures !ok ==> stored == old(stored)
    {
      ok := acceptsWrites;
      if ok {
        stored := Saved(data);
      }
    }

    /** `saveQuizSet`: appends the set. */
    method SaveQuizSet(quizSet: QuizSet) returns (ok: bool)
      modifies this
      ensures ok == acceptsWrites
      ensures ok ==> stored == Saved(old(Doc()).(quizSets := old(Doc()).quizSets + [quizSet]))
      ensures !ok ==> stored == old(stored)
      ensures old(Consistent()) && (forall s :: s in old(Doc()).quizSets ==> s.id != quizSet.id) ==> Consistent()
    {
      var data := GetAllData();
      if Consistent() && forall s :: s in data.quizSets ==> s.id != quizSet.id {
        SaveQuizSetKeepsInvariant(data, quizSet);
      }
      data := data.(quizSets := data.quizSets + [quizSet]);
      ok := SaveAllData(data);
    }

    /** `updateQuizSet`: replaces the first set with the same id; without
        one, nothing is written. */
    method UpdateQuizSet(quizSet: QuizSet) returns (ok: bool)
      modifies this
      ensures FindSet(old(Doc()).quizSets, quizSet.id).None? ==> ok && stored == old(stored)
      ensures FindSet(old(Doc()).quizSets, quizSet.id).Some? ==>
                ok == acceptsWrites &&
                (ok ==> stored == Saved(Repository.UpdateQuizSet(old(Doc()), quizSet))) &&
                (!ok ==> stored == old(stored))
      ensures old(Consistent()) && CoversResults(quizSet, old(Doc()).results) ==> Consistent()
    {
      var data := GetAllData();
      if Consistent() && CoversResults(quizSet, data.results) {
        UpdateQuizSetKeepsInvariant(data, quizSet);
      }
      var index := FindSet(data.quizSets, quizSet.id);
      if index.Some? {
        data := data.(quizSets := data.quizSets[index.value := quizSet]);
        ok := SaveAllData(data);
      } else {
        ok := true;
      }
    }

    /** `deleteQuizSet`: drops the set and its results, and always writes. */
    method DeleteQuizSet(quizSetId: string) returns (ok: bool)
      modifies this
      ensures ok == acceptsWrites
      ensures ok ==> stored == Saved(Repository.DeleteQuizSet(old(Doc()), quizSetId))
      ensures !ok ==> stored == old(stored)
      ensures old(Consistent()) ==> Consistent()
    {
      var data := GetAllData();
      if Consistent() {
        DeleteQuizSetKeepsInvariant(data, quizSetId);
      }
      data := data.(quizSets := SetsOtherThan(data.quizSets, quizSetId));
      data := data.(results := ResultsOutsideSet(data.results, quizSetId));
      ok := SaveAllData(data);
    }

    /** `deleteQuestion`: filters the question out of the set in place, drops
        every set with that id when the list became empty, then drops the
        question's results; without the set, nothing is written. */
    method DeleteQuestion(quizSetId: string, questionId: string) returns (ok: bool)
      modifies this
      ensures FindSet(old(Doc()).quizSets, quizSetId).None? ==> ok && stored == old(stored)
      ensures FindSet(old(Doc()).quizSets, quizSetId).Some? ==>
                ok == acceptsWrites &&
                (ok ==> stored == Saved(Repository.DeleteQuestion(old(Doc()), quizSetId, questionId))) &&
                (!ok ==> stored == old(stored))
      ensures old(Consistent()) ==> Consistent()
    {
      var data := GetAllData();
      if Consistent() {
        DeleteQuestionKeepsInvariant(data, quizSetId, questionId);
      }
      var index := FindSet(data.quizSets, quizSetId);
      if index.Some? {
        var i := index.value;
        var quizSet := data.quizSets[i];
        quizSet := quizSet.(questions := QuestionsOtherThan(quizSet.questions, questionId));
        data := data.(quizSets := data.quizSets[i := quizSet]);
        if |quizSet.questions| == 0 {
          FilterIgnoresDroppedUpdate(old(Doc()).quizSets, (s: QuizSet) => s.id != quizSetId, i, quizSet);
          data := data.(quizSets := SetsOtherThan(data.quizSets, quizSetId));
        }
        data := data.(results := ResultsNotFor(data.results, questionId));
        ok := SaveAllData(data);
      } else {
        ok := true;
      }
    }

    /** `updateQuestion`: overwrites the defined fields of the first matching
        question of the first matching set; with either missing, nothing is
        written. */
    method UpdateQuestion(quizSetId: string, questionId: string, updates: QuestionUpdate) returns (ok: bool)
      modifies this
      ensures var index := FindSet(old(Doc()).quizSets, quizSetId);
              if index.Some? && FindQuestion(old(Doc()).quizSets[index.value].questions, questionId).Some? then
                ok == acceptsWrites &&
                (ok ==> stored == Saved(Repository.UpdateQuestion(old(Doc()), quizSetId, questionId, updates))) &&
                (!ok ==> stored == old(stored))
              else ok && stored == old(stored)
      ensures old(Consistent()) ==> Consistent()
    {
      var data := GetAllData();
      if Consistent() {
        UpdateQuestionKeepsInvariant(data, quizSetId, questionId, updates);
      }
      var index := FindSet(data.quizSets, quizSetId);
      ok := true;
      if index.Some? {
        var i := index.value;
        var quizSet := data.quizSets[i];
        var found := FindQuestion(quizSet.questions, questionId);
        if found.Some? {
          var k := found.value;
          var question := quizSet.questions[k];
          if updates.question.Some? {
            question := question.(question := updates.question.value);
          }
          if updates.answer.Some? {
            question := question.(answer := updates.answer.value);
          }
          if updates.explanation.Some? {
            question := question.(explanation := updates.explanation);
          }
          quizSet := quizSet.(questions := quizSet.questions[k := question]);
          data := data.(quizSets := data.quizSets[i := quizSet]);
          ok := SaveAllData(data);
        }
      }
    }

    /** `addQuestion`: appends a new question, with the id and time given, to
        the first set with the id; without the set, nothing is written. */
    method AddQuestion(quizSetId: string, question: ExtractedQuestion, freshId: string, now: int)
      returns (ok: bool)
      modifies this
      ensures FindSet(old(Doc()).quizSets, quizSetId).None? ==> ok && stored == old(stored)
      ensures FindSet(old(Doc()).quizSets, quizSetId).Some? ==>
                ok == acceptsWrites &&
                (ok ==> stored == Saved(Repository.AddQuestion(old(Doc()), quizSetId,
                          Question(freshId, question.question, question.answer, question.explanation, now)))) &&
                (!ok ==> stored == old(stored))
      ensures old(Consistent()) ==> Consistent()
    {
      var data := GetAllData();
      var q := Question(freshId, question.question, question.answer, question.explanation, now);
      if Consistent() {
        AddQuestionKeepsInvariant(data, quizSetId, q);
      }
      var index := FindSet(data.quizSets, quizSetId);
      if index.Some? {
        var i := index.value;
        var quizSet := data.quizSets[i];
        quizSet := quizSet.(questions := quizSet.questions + [q]);
        data := data.(quizSets := data.quizSets[i := quizSet]);
        ok := SaveAllData(data);
      } else {
        ok := true;
      }
    }

    /** `getAllQuizSets`. */
    method GetAllQuizSets() returns (sets: seq<QuizSet>)
      ensures sets == Doc().quizSets
    {
      var data := GetAllData();
      sets := data.quizSets;
    }

    /** `saveQuizResult`: appends the result, without checking what it refers to. */
    method SaveQuizResult(result: QuizResult) returns (ok: bool)
      modifies this
      ensures ok == acceptsWrites
      ensures ok ==> stored == Saved(old(Doc()).(results := old(Doc()).results + [result]))
      ensures !ok ==> stored == old(stored)
      ensures old(Consistent()) && (result.questionId, result.quizSetId) in References(old(Doc()).quizSets)
              ==> Consistent()
    {
      var data := GetAllData();
      if Consistent() && (result.questionId, result.quizSetId) in References(data.quizSets) {
        SaveQuizResultKeepsIntegrity(data, result);
      }
      data := data.(results := data.results + [result]);
      ok := SaveAllData(data);
    }

    /** `getAllResults`. */
    method GetAllResults() returns (results: seq<QuizResult>)
      ensures results == Doc().results
    {
      var data := GetAllData();
      results := data.results;
    }

    /** `calculateStats` over the stored document. */
    method CalculateStats() returns (stats: OverallStats)
      ensures stats == Statistics.CalculateStats(Doc())
    {
      var data := GetAllData();
      stats := Statistics.CalculateStats(data);
    }

    /** `getRandomQuizQuestions` over the stored sets; `picks` stands for the
        shuffle's random draws. */
    method GetRandomQuizQuestions(count: Option<int>, picks: seq<nat>) returns (items: seq<QuizItem>)
      ensures items == Selector.RandomQuizQuestions(Doc().quizSets, count, picks)
    {
      var sets := GetAllQuizSets();
      items := Selector.RandomQuizQuestions(sets, count, picks);
    }

    /** `clearAllData`: removes the stored value, after which a read gives
        the empty document. */
    method ClearAllData() returns (ok: bool)
      modifies this
      ensures ok == acceptsWrites
      ensures ok ==> stored == Absent && Doc() == EmptyData
      ensures !ok ==> stored == old(stored)
    {
      ok := acceptsWrites;
      if ok {
        stored := Absent;
      }
    }
  }
}
