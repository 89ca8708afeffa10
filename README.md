# Quiz storage, statistics and practice flow — a Dafny model

This project models the core of a true/false ("O/X") quiz app. The app captures an image and has a language model extract quiz questions from it. The user edits those questions as drafts and saves them as a quiz set. The questions are then practised in shuffled sessions, and per-question accuracy statistics are computed from every recorded answer.

The model has these parts:

- **Model** (`model.dfy`): the records of `src/types/index.ts`. These are questions, quiz sets, results, statistics and the single stored document `StorageData`.
- **Repository** (`repository.dfy`): the document transforms behind the repository operations of `src/services/storageService.ts`, written as pure functions. It also holds the invariant they keep: set ids are unique, and every result names an existing question of the set it names.
- **StorageService** (`storage_service.dfy`): a `Store` class.
  - Its `stored` field is the value under the storage key: absent, unreadable, or a document.
  - Its methods perform the read, change-in-memory, write-back cycle of every service function.
  - A write the store rejects is reported as `ok == false` and leaves the stored value as it was.
- **Statistics** (`statistics.dfy`): `calculateStats`.
  - Counts are joined by question id.
  - Accuracy is exact with a zero-division guard.
  - The per-question list is sorted stably by ascending accuracy.
- **Selector** (`selector.dfy`): `getRandomQuizQuestions`. It flattens every set into `(question, quizSetId)` pairs, shuffles them and takes an optional prefix.
- **QuizScreen** (`quiz_screen.dfy`): the practice session of `src/screens/QuizScreen.tsx` as a class. It has states `Idle | Playing | Answered | Finished` and records one result per answered question.
- **CameraScreen** (`camera_screen.dfy`): the draft editor of `src/screens/CameraScreen.tsx`.
  - The draft-list edits and the `saveQuiz` checks are pure functions.
  - The screen's state fields are a class whose handlers replace them.
- **Seqs** and **Text** (`seqs.dfy`, `text.dfy`): the JavaScript library behaviour the source relies on.
  - Seqs covers `filter`, `findIndex`, and the shuffle as "any permutation".
  - Text covers `trim` and `toLowerCase`.

Clock readings and generated ids are parameters: `now`, `freshId`, `resultId`, `setId`. The random draws of a shuffle are a parameter `picks`. `ShuffleReachesEveryPermutation` shows that the draws can produce every order.

Behaviours of the code worth noting:

- `deleteQuestion` writes and prunes whenever the set exists, even if the question is not in it. The set is then kept unless it had no questions. A set saved with no questions is accepted by `saveQuizSet` and `updateQuizSet`, and any `deleteQuestion` on it removes it. The results for the question id are removed in any case.
- `updateQuizSet` does not check the replacing set against the stored results. A set that drops a question leaves that question's results referring to nothing, so consistency is only promised when the new set keeps them covered.
- `getRandomQuizQuestions` with a negative `count` drops that many items from the end, as `slice(0, count)` does. A count of 0 is falsy and returns the whole shuffled list.

## Model

| member | source | states |
|---|---|---|
| Seqs.ShuffleIsPermutation | src/services/storageService.ts:186 | whatever the random draws, the shuffled list is a permutation of its input |
| Seqs.ShuffleReachesEveryPermutation | src/services/storageService.ts:186 | every permutation of the input is the result of some sequence of random draws |
| Text.BlankIffAllWhitespace | src/screens/CameraScreen.tsx:148-158 | `!s.trim()` holds exactly when every character of `s` is ECMAScript whitespace (the empty text included) |
| Text.ParseAnswer | src/screens/CameraScreen.tsx:118-119 | a typed answer reads as true exactly when it spells "true" in any mix of letter case, with nothing else |
| Repository.FindSet | src/services/storageService.ts:40 | the index found is that of the first set with the id; none is found exactly when no set has it |
| Repository.FindQuestion | src/services/storageService.ts:79 | the index found is that of the first question with the id; none is found exactly when no question has it |
| Repository.Flatten | src/services/storageService.ts:133-135 | the flattened list has one entry per question of every set, and an item is in it exactly when its question belongs to a set with its `quizSetId` |
| Repository.FlattenAppend | src/services/storageService.ts:133-135 | flattening follows the order of the sets: flattening two lists of sets one after the other is flattening their concatenation |
| Repository.UpdateQuizSet | src/services/storageService.ts:38-45 | results untouched, same number of sets; without a set of that id the document is unchanged; otherwise the set at the first index with that id becomes the given set and every other position keeps its set, even when a later set shares the id |
| Repository.DeleteQuizSet | src/services/storageService.ts:48-53 | every set with another id stays as many times as it was stored and every set with the id goes; likewise every result naming another set stays as often as it was there and every result naming the set goes; both lists keep their original relative order |
| Repository.DeleteQuestion | src/services/storageService.ts:56-68 | without the set nothing changes; with it, every result for another question stays as often as it was there, in its order, and every result for the question goes; the sets with other ids are kept exactly, with their multiplicity and order; when the first set with the id holds no question with another id, every set with that id goes; otherwise that set keeps its place and its own fields and holds its other questions as often as they were there and in their order, and every other position is unchanged |
| Repository.PruneSet | src/services/storageService.ts:59-64 | when the set at the index holds no question with another id, every set with its id goes; otherwise the list keeps its length, every other position is unchanged, and that set keeps its id, title, creation time and image and holds exactly its other questions, each as often as before and in order; in both cases the sets with other ids are the same list as before |
| Repository.QuestionsOtherThan | src/services/storageService.ts:60 | the questions with another id keep their multiplicity and order, the ones with the id are gone, and nothing is left exactly when every question had the id |
| Repository.ResultsNotFor | src/services/storageService.ts:65 | the results for other questions keep their multiplicity and order, and the results for the question are gone |
| Repository.DeleteQuestionPrunesSet | src/services/storageService.ts:59-64 | with unique set ids, the set survives exactly when it holds a question with another id, and then differs from the old set only in its questions, which are exactly its other questions |
| Repository.ApplyUpdate | src/services/storageService.ts:81-83 | each field defined in the update is overwritten and every other field (id, createdAt included) is kept |
| Repository.ApplyUpdateIdempotent | src/services/storageService.ts:81-83 | applying an update twice equals applying it once |
| Repository.ApplyUpdateNeverClearsExplanation | src/services/storageService.ts:83 | an update never turns a present explanation into an absent one |
| Text.OrUndefined | src/screens/DashboardScreen.tsx:152 | `x \|\| undefined` on a string that may be undefined: absent exactly for undefined or the empty text, and otherwise the text itself; the same definition serves `capturedImage \|\| undefined` (src/screens/CameraScreen.tsx:175) and the explanation in `saveQuiz` |
| Repository.EmptiedExplanationIsKept | src/screens/DashboardScreen.tsx:146-154 | an edit that empties the explanation field leaves the stored explanation as it was |
| Repository.UpdateQuestion | src/services/storageService.ts:71-87 | results and every set's own fields and length are kept; the first question with the id in the first set with the id becomes the updated one, and every other question stays; a missing set or a missing question leaves the document unchanged |
| Repository.AddQuestion | src/services/storageService.ts:90-106 | results kept, same number of sets; the first set with the id becomes that set with the question appended at its end, and every other set is unchanged; without the set the document is unchanged |
| Repository.SaveQuizSetKeepsInvariant | src/services/storageService.ts:31-35 | appending a set with a fresh id keeps set ids unique and every result reference valid |
| Repository.UpdateQuizSetKeepsInvariant | src/services/storageService.ts:38-45 | replacing a set keeps set ids unique, and keeps every result reference valid when the new set still holds every question that the results recorded against its id refer to |
| Repository.SaveQuizResultKeepsIntegrity | src/services/storageService.ts:115-119 | appending a result that names an existing question of its set keeps every reference valid |
| Repository.SetsOtherThanUnique | src/services/storageService.ts:50 | filtering sets by id keeps the remaining set ids unique |
| Repository.SetsOtherThanKeepsIntegrity | src/services/storageService.ts:50-51 | dropping a set together with the results recorded against it leaves every remaining result naming a question that is still there |
| Repository.DeleteQuizSetKeepsInvariant | src/services/storageService.ts:48-53 | the cascade leaves no result referring to a question of the deleted set |
| Repository.DeleteQuestionKeepsUniqueIds | src/services/storageService.ts:56-68 | deleting a question keeps set ids unique: a pruned set keeps its id, and a dropped one takes every set with that id along |
| Repository.PruneSetKeepsReference | src/services/storageService.ts:59-64 | with unique set ids, every question other than the deleted one is still listed under its set's id after the pruning |
| Repository.DeleteQuestionKeepsReference | src/services/storageService.ts:56-68 | a result that survives the deletion still names a question of its set |
| Repository.DeleteQuestionKeepsInvariant | src/services/storageService.ts:56-68 | the cascade and the pruning leave unique set ids and no result referring to a missing question |
| Repository.UpdateQuestionKeepsInvariant | src/services/storageService.ts:71-87 | an update keeps set ids unique and every result reference valid |
| Repository.AddQuestionKeepsInvariant | src/services/storageService.ts:90-106 | adding a question keeps set ids unique and every result reference valid |
| Statistics.CorrectAndIncorrectSplit | src/services/storageService.ts:140-141 | the correct and the incorrect results together are all the results, so `total - correct` counts the incorrect ones |
| Statistics.Percent | src/services/storageService.ts:149-151 | 0 for an empty whole; otherwise `r * whole == 100 * part`, within [0, 100] when `part <= whole` |
| Statistics.StatsFor | src/services/storageService.ts:138-153 | attempts are the results for the question id, split into correct and incorrect ones that add up to the attempts; accuracy is their percentage, in [0, 100] |
| Statistics.AllStats | src/services/storageService.ts:138 | one statistics entry per flattened question, in flattening order |
| Statistics.SortByAccuracy | src/services/storageService.ts:168 | the sorted list is non-decreasing in accuracy and a permutation of its input |
| Statistics.SortIsStable | src/services/storageService.ts:168 | entries of equal accuracy keep their relative order |
| Statistics.CalculateStats | src/services/storageService.ts:128-170 | totals count all results, split into correct and incorrect; overall accuracy is their percentage; `questionStats` is a sorted permutation of one entry per flattened question |
| Statistics.PerQuestionAttemptsAddUp | src/services/storageService.ts:156-158 | when every result refers to an existing question and question ids are distinct, the per-question attempts add up to the total attempts |
| Statistics.NoResultsNoAccuracy | src/services/storageService.ts:165-167 | with no results, the overall accuracy and every per-question accuracy are 0 |
| Statistics.StatsOfExample | src/services/storageService.ts:128-170 | results [q1 right, q1 wrong, q2 right] give totals 3/2/1, overall 200/3 %, and q1 (50 %) listed before q2 (100 %) |
| Selector.SliceEnd | src/services/storageService.ts:189 | `slice(0, count)` stops at `min(count, n)` for a non-negative count and at `max(n + count, 0)` for a negative one |
| Selector.ShuffleAndTake | src/services/storageService.ts:186-189 | a prefix of the shuffled list, a sub-multiset of the input, all of it without a count or with count 0, and of the sliced length otherwise; distinct inputs give distinct outputs |
| Selector.RandomQuizQuestions | src/services/storageService.ts:173-190 | empty without questions; otherwise a prefix of a permutation of all `(question, quizSetId)` pairs, whole without a count, `min(count, n)` long for a positive count |
| Selector.SelectedItemsAreStored | src/services/storageService.ts:177-179 | every selected item is a question of a stored set tagged with that set's id |
| Selector.TwoOfFive | src/services/storageService.ts:189 | a count of 2 over 5 distinct questions selects exactly 2 distinct questions |
| Selector.AllQuestionsOnce | src/services/storageService.ts:186-189 | without a count, each of a list of distinct questions is selected exactly once |
| StorageService.Decode | src/services/storageService.ts:7-18 | a stored document reads as itself; nothing stored or an unreadable value reads as the empty document |
| StorageService.Store.GetAllData | src/services/storageService.ts:7-18 | returns the stored document, or the empty document when there is none or it cannot be read |
| StorageService.Store.SaveAllData | src/services/storageService.ts:21-28 | a successful write replaces the stored value with the document; a rejected write leaves it unchanged and reports failure |
| StorageService.Store.SaveQuizSet | src/services/storageService.ts:31-35 | the stored sets become the old ones plus the new set at the end; results unchanged; a fresh id keeps the store consistent |
| StorageService.Store.UpdateQuizSet | src/services/storageService.ts:38-45 | without a matching set nothing is written; otherwise the stored document becomes `Repository.UpdateQuizSet` of the old one; consistency is kept when the new set still holds every question its results refer to |
| StorageService.Store.DeleteQuizSet | src/services/storageService.ts:48-53 | the stored document becomes `Repository.DeleteQuizSet` of the old one; consistency is kept |
| StorageService.Store.DeleteQuestion | src/services/storageService.ts:56-68 | without the set nothing is written; otherwise, with the in-place filter and the pruning done in the source's order, the stored document becomes `Repository.DeleteQuestion` of the old one; consistency is kept |
| StorageService.Store.UpdateQuestion | src/services/storageService.ts:71-87 | without the set or the question nothing is written; otherwise the stored document becomes `Repository.UpdateQuestion` of the old one; consistency is kept |
| StorageService.Store.AddQuestion | src/services/storageService.ts:90-106 | without the set nothing is written; otherwise the new question, with the given id and time, is appended as `Repository.AddQuestion` states; consistency is kept |
| StorageService.Store.GetAllQuizSets | src/services/storageService.ts:109-112 | returns the sets of the document a read gives |
| StorageService.Store.SaveQuizResult | src/services/storageService.ts:115-119 | the stored results become the old ones plus the new result at the end; a result naming an existing question keeps the store consistent |
| StorageService.Store.GetAllResults | src/services/storageService.ts:122-125 | returns the results of the document a read gives |
| StorageService.Store.CalculateStats | src/services/storageService.ts:128-170 | returns `Statistics.CalculateStats` of the document a read gives |
| StorageService.Store.GetRandomQuizQuestions | src/services/storageService.ts:173-190 | returns `Selector.RandomQuizQuestions` over the stored sets |
| StorageService.Store.ClearAllData | src/services/storageService.ts:193-195 | after a successful clear nothing is stored and a read gives the empty document |
| QuizScreen.Percentage | src/screens/QuizScreen.tsx:178-180 | 0 when nothing was answered; otherwise the integer nearest to `100 * correct / total`, halves rounded up, within 0..100 |
| QuizScreen.OneMoreAnswer | src/screens/QuizScreen.tsx:110-113 | recording one more result adds one to exactly one of the correct and incorrect counts |
| QuizScreen.AnswerResult | src/screens/QuizScreen.tsx:106-122 | the result names the question on screen and its set, keeps the answer given, and is correct exactly when that answer matches the question's |
| QuizScreen.AnswerKeepsInvariant | src/screens/QuizScreen.tsx:100-113 | answering the question on screen of a playing session gives an answered session whose results are the earlier ones plus this one, each naming its item, and whose score still counts them |
| QuizScreen.QuizSession.constructor | src/screens/QuizScreen.tsx:26-30 | an idle session with no items, index 0, no answer and a zero score |
| QuizScreen.QuizSession.OnFocus | src/screens/QuizScreen.tsx:37-43 | on the idle screen the items become the selector's full shuffled list of stored questions; otherwise nothing changes |
| QuizScreen.QuizSession.LoadQuizzes | src/screens/QuizScreen.tsx:45-48 | the staged items become the selector's full shuffled list of the stored questions; the session stays idle and nothing else changes |
| QuizScreen.QuizSession.StartQuiz | src/screens/QuizScreen.tsx:51-64 | with no items nothing changes; otherwise the items are permuted, index 0, score 0/0, state playing |
| QuizScreen.QuizSession.SelectAnswer | src/screens/QuizScreen.tsx:100-130 | outside `playing` nothing changes; otherwise the state becomes answered, the answer is kept, exactly one score count goes up, and the result naming the current question and set, with `isCorrect` computed, is appended to the stored results unless the write fails |
| QuizScreen.QuizSession.RecordAnswer | src/screens/QuizScreen.tsx:103-113 | the answer is kept, the state becomes answered, exactly one score count goes up, and the returned result names the question on screen and its set and is correct exactly when the answer matches |
| QuizScreen.QuizSession.NextQuestion | src/screens/QuizScreen.tsx:133-145 | after the last question the state is finished; otherwise the index advances, the answer is cleared and the state is playing again, the index still in range |
| QuizScreen.QuizSession.RestartQuiz | src/screens/QuizScreen.tsx:148-152 | back to idle with no answer selected and the items reloaded from the store |
| QuizScreen.FinishedSessionCoversEveryItem | src/screens/QuizScreen.tsx:133-137 | a finished session recorded exactly one result per staged item, in order, and its score adds up to the number of items |
| CameraScreen.SetField | src/screens/CameraScreen.tsx:117-122 | only the named field changes; a text typed into the answer field becomes true exactly when it lower-cases to "true" |
| CameraScreen.UpdateDraft | src/screens/CameraScreen.tsx:114-126 | same length and order; drafts with another id unchanged; drafts with the id get the field set |
| CameraScreen.UpdateKeepsIds | src/screens/CameraScreen.tsx:114-126 | an edit of text, answer or explanation keeps every draft's id |
| CameraScreen.DeleteDrafts | src/screens/CameraScreen.tsx:129-131 | every draft with another id stays as many times as it was there and every draft with the id goes, in original order |
| CameraScreen.AppendBlank | src/screens/CameraScreen.tsx:134-144 | the old drafts followed by one blank draft (empty text, answer true, empty explanation) |
| CameraScreen.ToEditable | src/screens/CameraScreen.tsx:95-100 | one draft per extracted question, in order, with its new id and a missing explanation as empty text |
| CameraScreen.ToQuestion | src/screens/CameraScreen.tsx:167-173 | id, text and answer kept; an empty explanation is stored as absent |
| CameraScreen.NoValidDraftsIff | src/screens/CameraScreen.tsx:158-162 | no draft survives the filter exactly when every draft's text is blank |
| CameraScreen.BuildQuizSet | src/screens/CameraScreen.tsx:147-176 | a blank title stops first, then an empty list; a set is built exactly when the title is not blank and some draft has text; its questions are the drafts with text, in order, and none is blank |
| CameraScreen.BlankDraftIsNotSaved | src/screens/CameraScreen.tsx:134-162 | appending the blank draft to a non-empty list does not change what `saveQuiz` builds |
| CameraScreen.CaptureEditor.constructor | src/screens/CameraScreen.tsx:29-33 | no image, no drafts, empty title, editor closed |
| CameraScreen.CaptureEditor.Capture | src/screens/CameraScreen.tsx:60-62 | the photo's URI becomes the captured image; nothing else changes |
| CameraScreen.CaptureEditor.SetTitle | src/screens/CameraScreen.tsx:215 | the title input replaces the title; nothing else changes |
| CameraScreen.CaptureEditor.ProcessImage | src/screens/CameraScreen.tsx:83-111 | without an image, without an API key or on a failed extraction nothing changes; otherwise the drafts are the extracted questions under new ids, the title its default, and the editor opens |
| CameraScreen.CaptureEditor.UpdateQuestion | src/screens/CameraScreen.tsx:114-126 | the drafts become `UpdateDraft` of the old ones; nothing else changes |
| CameraScreen.CaptureEditor.DeleteQuestion | src/screens/CameraScreen.tsx:129-131 | the drafts become `DeleteDrafts` of the old ones; nothing else changes |
| CameraScreen.CaptureEditor.AddQuestion | src/screens/CameraScreen.tsx:134-144 | the drafts become `AppendBlank` of the old ones; nothing else changes |
| CameraScreen.CaptureEditor.SaveQuiz | src/screens/CameraScreen.tsx:147-195 | a failed check saves nothing and changes nothing; otherwise the built set is appended to the stored sets, after which the editor is cleared; a failed write leaves the editor as it was |
| CameraScreen.CaptureEditor.Reset | src/screens/CameraScreen.tsx:183-188 | image, drafts and title cleared and the editor closed |
| CameraScreen.CaptureEditor.Retake | src/screens/CameraScreen.tsx:198-202 | image and drafts dropped and the editor closed; the title is kept |

## Left out

- The device key-value store and JSON serialisation are not modelled. The stored value is a `Stored` value: nothing, an unreadable value, or a document. A JSON round trip is taken to give back the same document.
- StorageService.Decode: a read that fails while the stored document is intact is not modelled. Such a failure makes `getAllData` return the empty document, and the next mutation then writes back a document built on it, losing every stored set and result. In the model a stored document always reads back, and only an unreadable stored value reads as empty.
- StorageService.Store.SaveAllData: whether a write succeeds is the constant `acceptsWrites` of the store, fixed for its whole life. A store that accepts some writes and rejects others is not modelled.
- `generateId`, `Date.now()` and the date-formatted default title are parameters. Every `Date.now()` read while one quiz set is built is one `now`. Ids are not proved unique.
- The randomness of both shuffles is not modelled; a sequence of draws `picks` stands for it. The comparator-based `sort(() => Math.random() - 0.5)` is modelled as "some permutation". Its actual distribution is not part of the model.
- Floating point is not modelled. Accuracies are exact `real` values. `Math.round` is computed on the exact quotient.
- `count` in `getRandomQuizQuestions` is an integer. `NaN` and fractional counts are not modelled.
- Asynchronous interleaving is not modelled; every repository operation is atomic. This leaves out the lost-update race between concurrent read-modify-write calls. It also leaves out the delay of the focus effect's load and a second press of "next" during the 200 ms exit animation.
- Animations, alerts, camera permission, image capture and the image picker are not modelled. The success alert of `saveQuiz` is taken as acknowledged at once, so the editor is cleared right after a successful save.
- `isProcessing` is not modelled. It is only true while an extraction is pending.
- `category` of a question is not modelled. It is optional, and no core operation reads or writes it.
- src/services/llmService.ts is not part of this model. The extraction is an `Extraction` parameter: questions or a failure.
- `Text.ParseAnswer`: `toLowerCase` is modelled on ASCII letters only. A text that only a full Unicode case mapping turns into "true" is not covered.
- `CameraScreen.SetField`: a boolean passed for a text field, which TypeScript's `keyof` typing permits, is excluded by a precondition. The screen never makes such a call.
- Results that the session records are tracked in the ghost field `recorded`. The screen itself keeps no such list.
