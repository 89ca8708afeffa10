/** The capture editor of src/screens/CameraScreen.tsx: the questions
    extracted from a captured image become an editable draft list, which the
    user edits by id and finally saves as a new quiz set once its title and
    at least one question are filled in. */
module CameraScreen {
  import opened Model
  import opened Seqs
  import opened Text
  import Repository
  import StorageService

  /** One draft question; an absent explanation is the empty text. */
  datatype EditableQuestion = EditableQuestion(id: string, question: string, answer: bool, explanation: string)

  /** The keys of a draft that `updateQuestion` can set. */
  datatype Field = IdField | QuestionField | AnswerField | ExplanationField

  /** The `string | boolean` value passed to `updateQuestion`. */
  datatype Value = TextValue(text: string) | FlagValue(flag: bool)

  /** What the extraction service returned for the captured image. */
  datatype Extraction = Extracted(questions: seq<ExtractedQuestion>) | ExtractionFailed

  /** Why `saveQuiz` stopped before saving, or the set it built. */
  datatype Built = TitleMissing | NoQuestions | NoValidQuestions | Ready(quizSet: QuizSet)

  /** `{ ...q, [field]: value }`, with a text typed into the answer field read
      as `value.toLowerCase() === 'true'`. */
  function SetField(q: EditableQuestion, field: Field, value: Value): (r: EditableQuestion)
    requires field != AnswerField ==> value.TextValue?
    ensures r.id == if field == IdField then value.text else q.id
    ensures r.question == if field == QuestionField then value.text else q.question
    ensures r.explanation == if field == ExplanationField then value.text else q.explanation
    ensures field == AnswerField && value.FlagValue? ==> r.answer == value.flag
    ensures field == AnswerField && value.TextValue? ==> (r.answer <==> ToLower(value.text) == "true")
    ensures field != AnswerField ==> r.answer == q.answer
  {
    match field
    case IdField => q.(id := value.text)
    case QuestionField => q.(question := value.text)
    case ExplanationField => q.(explanation := value.text)
    case AnswerField => q.(answer := if value.TextValue? then ParseAnswer(value.text) else value.flag)
  }

  /** `updateQuestion(id, field, value)`: every draft with that id gets the
      field set; the list keeps its length and order and every other draft. */
  function UpdateDraft(drafts: seq<EditableQuestion>, id: string, field: Field, value: Value): (r: seq<EditableQuestion>)
    requires field != AnswerField ==> value.TextValue?
    ensures |r| == |drafts|
    ensures forall k :: 0 <= k < |drafts| && drafts[k].id != id ==> r[k] == drafts[k]
    ensures forall k :: 0 <= k < |drafts| && drafts[k].id == id ==> r[k] == SetField(drafts[k], field, value)
  {
    seq(|drafts|, k requires 0 <= k < |drafts| =>
      if drafts[k].id == id then SetField(drafts[k], field, value) else drafts[k])
  }

  /** Editing the text or the explanation never changes whether a draft
      holds a given id, so every later edit by id still finds it. */
  lemma UpdateKeepsIds(drafts: seq<EditableQuestion>, id: string, field: Field, value: Value)
    requires field != AnswerField ==> value.TextValue?
    requires field != IdField
    ensures forall k :: 0 <= k < |drafts| ==> UpdateDraft(drafts, id, field, value)[k].id == drafts[k].id
  {
  }

  /** `deleteQuestion(id)`: drops every draft with the id and keeps the rest in order. */
  function DeleteDrafts(drafts: seq<EditableQuestion>, id: string): (r: seq<EditableQuestion>)
    ensures forall q :: q in r <==> q in drafts && q.id != id
    ensures forall q :: multiset(r)[q] == if q.id != id then multiset(drafts)[q] else 0
    ensures IsSubsequence(r, drafts)
    ensures (forall k :: 0 <= k < |drafts| ==> drafts[k].id != id) ==> r == drafts
  {
    FilterSubsequences(drafts);
    FilterMultiplicities(drafts);
    Filter(drafts, (q: EditableQuestion) => q.id != id)
  }

  /** `addQuestion`: one blank draft (empty text, answer true, no
      explanation) at the end. */
  function AppendBlank(drafts: seq<EditableQuestion>, freshId: string): (r: seq<EditableQuestion>)
    ensures |r| == |drafts| + 1 && r[..|drafts|] == drafts
    ensures r[|drafts|] == EditableQuestion(freshId, "", true, "")
  {
    drafts + [EditableQuestion(freshId, "", true, "")]
  }

  /** The drafts an extraction turns into: one per extracted question, in
      order, each with its own new id and a missing explanation as empty text. */
  function ToEditable(extracted: seq<ExtractedQuestion>, ids: seq<string>): (r: seq<EditableQuestion>)
    requires |ids| == |extracted|
    ensures |r| == |extracted|
    ensures forall k :: 0 <= k < |r| ==>
              r[k].id == ids[k] && r[k].question == extracted[k].question &&
              r[k].answer == extracted[k].answer &&
              r[k].explanation == (if extracted[k].explanation.Some? then extracted[k].explanation.value else "")
  {
    seq(|extracted|, k requires 0 <= k < |extracted| =>
      EditableQuestion(ids[k], extracted[k].question, extracted[k].answer,
                       if extracted[k].explanation.Some? then extracted[k].explanation.value else ""))
  }

  predicate HasText(q: EditableQuestion) {
    !IsBlank(q.question)
  }

  /** `extractedQuestions.filter(q => q.question.trim())`. */
  function ValidDrafts(drafts: seq<EditableQuestion>): seq<EditableQuestion> {
    Filter(drafts, HasText)
  }

  /** The question saved for a draft. */
  function ToQuestion(q: EditableQuestion, now: int): (r: Question)
    ensures r.id == q.id && r.question == q.question && r.answer == q.answer && r.createdAt == now
    ensures r.explanation.None? <==> q.explanation == ""
    ensures r.explanation.Some? ==> r.explanation.value == q.explanation
  {
    Question(q.id, q.question, q.answer, OrUndefined(Some(q.explanation)), now)
  }

  function ToQuestions(drafts: seq<EditableQuestion>, now: int): (r: seq<Question>)
    ensures |r| == |drafts|
    ensures forall k :: 0 <= k < |drafts| ==> r[k] == ToQuestion(drafts[k], now)
  {
    seq(|drafts|, k requires 0 <= k < |drafts| => ToQuestion(drafts[k], now))
  }

  /** No draft survives the filter exactly when none has text. */
  lemma NoValidDraftsIff(drafts: seq<EditableQuestion>)
    ensures |ValidDrafts(drafts)| == 0 <==> forall q :: q in drafts ==> !HasText(q)
  {
    var valid := ValidDrafts(drafts);
    if |valid| > 0 {
      assert valid[0] in valid;
    }
  }

  /** The questions built from drafts with text all have text. */
  lemma ValidQuestionsHaveText(valid: seq<EditableQuestion>, now: int)
    requires forall q :: q in valid ==> HasText(q)
    ensures forall q :: q in ToQuestions(valid, now) ==> !IsBlank(q.question)
  {
    var questions := ToQuestions(valid, now);
    forall q | q in questions
      ensures !IsBlank(q.question)
    {
      var k :| 0 <= k < |questions| && questions[k] == q;
      assert valid[k] in valid;
    }
  }

  /** The checks of `saveQuiz`, in order, and the set it builds when they
      pass. `now` stands for every `Date.now()` the construction reads. */
  function BuildQuizSet(title: string, drafts: seq<EditableQuestion>, capturedImage: Option<string>,
                        setId: string, now: int): (r: Built)
    ensures r == TitleMissing <==> IsBlank(title)
    ensures r == NoQuestions <==> !IsBlank(title) && drafts == []
    ensures r.Ready? <==> !IsBlank(title) && exists q :: q in drafts && HasText(q)
    ensures r.Ready? ==>
              var s := r.quizSet;
              s.id == setId && s.title == title && s.createdAt == now &&
              s.sourceImageUri == OrUndefined(capturedImage) &&
              |s.questions| == |ValidDrafts(drafts)| &&
              forall k :: 0 <= k < |s.questions| ==> s.questions[k] == ToQuestion(ValidDrafts(drafts)[k], now)
    ensures r.Ready? ==> forall q :: q in r.quizSet.questions ==> !IsBlank(q.question)
  {
    if IsBlank(title) then TitleMissing
    else if |drafts| == 0 then NoQuestions
    else
      var valid := ValidDrafts(drafts);
      NoValidDraftsIff(drafts);
      if |valid| == 0 then NoValidQuestions
      else
        ValidQuestionsHaveText(valid, now);
        Ready(QuizSet(setId, title, ToQuestions(valid, now), now, OrUndefined(capturedImage)))
  }

  /** A draft left blank changes nothing about what is saved: appending the
      blank draft of `addQuestion` to a non-empty list saves the same set. */
  lemma BlankDraftIsNotSaved(title: string, drafts: seq<EditableQuestion>, freshId: string,
                             capturedImage: Option<string>, setId: string, now: int)
    requires drafts != []
    ensures BuildQuizSet(title, AppendBlank(drafts, freshId), capturedImage, setId, now) ==
            BuildQuizSet(title, drafts, capturedImage, setId, now)
  {
    var blank := EditableQuestion(freshId, "", true, "");
    FilterAppend(drafts, [blank], HasText);
    assert !HasText(blank) by {
      BlankIffAllWhitespace("");
    }
    assert [blank][1..] == [];
    assert ValidDrafts(AppendBlank(drafts, freshId)) == ValidDrafts(drafts);
  }

  class CaptureEditor {
    var capturedImage: Option<string>
    var drafts: seq<EditableQuestion>
    var title: string
    var showEditor: bool

    constructor ()
      ensures capturedImage == None && drafts == [] && title == "" && !showEditor
    {
      capturedImage := None;
      drafts := [];
      title := "";
      showEditor := false;
    }

    /** A photo taken or picked: its URI becomes the captured image. */
    method Capture(uri: string)
      modifies this
      ensures capturedImage == Some(uri)
      ensures drafts == old(drafts) && title == old(title) && showEditor == old(showEditor)
    {
      capturedImage := Some(uri);
    }

    /** The title input. */
    method SetTitle(text: string)
      modifies this
      ensures title == text
      ensures capturedImage == old(capturedImage) && drafts == old(drafts) && showEditor == old(showEditor)
    {
      title := text;
    }

    /** `processImage`: without an image or an API key, or when extraction
        fails, nothing changes (the source shows an alert); otherwise the
        extracted questions become the drafts, each under a new id, the title
        gets its dated default and the editor opens. */
    method ProcessImage(hasApiKey: bool, extraction: Extraction, freshIds: seq<string>, defaultTitle: string)
      requires extraction.Extracted? ==> |freshIds| == |extraction.questions|
      modifies this
      ensures !Truthy(old(capturedImage)) || !hasApiKey || extraction.ExtractionFailed? ==>
                drafts == old(drafts) && title == old(title) && showEditor == old(showEditor)
      ensures Truthy(old(capturedImage)) && hasApiKey && extraction.Extracted? ==>
                drafts == ToEditable(extraction.questions, freshIds) && title == defaultTitle && showEditor
      ensures capturedImage == old(capturedImage)
    {
      if !Truthy(capturedImage) {
        return;
      }
      if !hasApiKey {
        return;
      }
      match extraction
      case ExtractionFailed =>
      case Extracted(questions) =>
        drafts := ToEditable(questions, freshIds);
        title := defaultTitle;
        showEditor := true;
    }

    /** `updateQuestion` on the draft list. */
    method UpdateQuestion(id: string, field: Field, value: Value)
      requires field != AnswerField ==> value.TextValue?
      modifies this
      ensures drafts == UpdateDraft(old(drafts), id, field, value)
      ensures capturedImage == old(capturedImage) && title == old(title) && showEditor == old(showEditor)
    {
      drafts := UpdateDraft(drafts, id, field, value);
    }

    /** `deleteQuestion` on the draft list. */
    method DeleteQuestion(id: string)
      modifies this
      ensures drafts == DeleteDrafts(old(drafts), id)
      ensures capturedImage == old(capturedImage) && title == old(title) && showEditor == old(showEditor)
    {
      drafts := DeleteDrafts(drafts, id);
    }

    /** `addQuestion` on the draft list. */
    method AddQuestion(freshId: string)
      modifies this
      ensures drafts == AppendBlank(old(drafts), freshId)
      ensures capturedImage == old(capturedImage) && title == old(title) && showEditor == old(showEditor)
    {
      drafts := AppendBlank(drafts, freshId);
    }

    /** `saveQuiz`: runs the checks; when they pass, saves the built set and,
        once the save succeeded, clears the editor. A failed check or a
        failed save leaves the editor as it was. */
    method SaveQuiz(store: StorageService.Store, setId: string, now: int) returns (outcome: Built)
      modifies this, store
      ensures outcome == BuildQuizSet(old(title), old(drafts), old(capturedImage), setId, now)
      ensures !outcome.Ready? ==>
                store.stored == old(store.stored) &&
                capturedImage == old(capturedImage) && drafts == old(drafts) &&
                title == old(title) && showEditor == old(showEditor)
      ensures outcome.Ready? && store.acceptsWrites ==>
                store.stored == StorageService.Saved(old(store.Doc()).(quizSets := old(store.Doc()).quizSets + [outcome.quizSet])) &&
                capturedImage == None && drafts == [] && title == "" && !showEditor
      ensures outcome.Ready? && !store.acceptsWrites ==>
                store.stored == old(store.stored) &&
                capturedImage == old(capturedImage) && drafts == old(drafts) &&
                title == old(title) && showEditor == old(showEditor)
    {
      outcome := BuildQuizSet(title, drafts, capturedImage, setId, now);
      if !outcome.Ready? {
        return;
      }
      var ok := store.SaveQuizSet(outcome.quizSet);
      if ok {
        Reset();
      }
    }

    /** The confirm handler of the success alert: back to the initial,
        empty editor. */
    method Reset()
      modifies this
      ensures capturedImage == None && drafts == [] && title == "" && !showEditor
    {
      capturedImage := None;
      drafts := [];
      title := "";
      showEditor := false;
    }

    /** `retake`: drops the image and the drafts and closes the editor; the
        title is kept. */
    method Retake()
      modifies this
      ensures capturedImage == None && drafts == [] && !showEditor
      ensures title == old(title)
    {
      capturedImage := None;
      drafts := [];
      showEditor := false;
    }
  }
}
