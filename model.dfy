/** The records of the quiz application: questions, quiz sets, attempt results,
    the statistics derived from them and the single stored document that holds
    all of it. `number` timestamps become `int`; an optional field becomes an
    `Option`. */
module Model {

  datatype Option<T> = None | Some(value: T)

  /** One true/false ("O/X") question. `question` is its text. */
  datatype Question = Question(
    id: string,
    question: string,
    answer: bool,
    explanation: Option<string>,
    createdAt: int)

  /** A titled group of questions, created from one captured image. */
  datatype QuizSet = QuizSet(
    id: string,
    title: string,
    questions: seq<Question>,
    createdAt: int,
    sourceImageUri: Option<string>)

  /** One recorded attempt at one question; refers to it by id only. */
  datatype QuizResult = QuizResult(
    id: string,
    questionId: string,
    quizSetId: string,
    isCorrect: bool,
    answeredAt: int,
    userAnswer: bool)

  /** Per-question statistics. `accuracy` is an exact percentage. */
  datatype QuestionStats = QuestionStats(
    questionId: string,
    question: string,
    totalAttempts: nat,
    correctCount: nat,
    incorrectCount: int,
    accuracy: real)

  datatype OverallStats = OverallStats(
    totalQuestions: nat,
    totalAttempts: nat,
    totalCorrect: nat,
    totalIncorrect: int,
    overallAccuracy: real,
    questionStats: seq<QuestionStats>)

  /** A question paired with the id of the set that owns it. */
  datatype QuizItem = QuizItem(question: Question, quizSetId: string)

  /** One question as the extraction service returns it. */
  datatype ExtractedQuestion = ExtractedQuestion(
    question: string,
    answer: bool,
    explanation: Option<string>)

  /** The whole persisted state. */
  datatype StorageData = StorageData(quizSets: seq<QuizSet>, results: seq<QuizResult>)

  const EmptyData: StorageData := StorageData([], [])
}
