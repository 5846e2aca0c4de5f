/**
 The study app's session record and the user actions that change it
 (app1.py). The model reply and the JSON decoder are inputs: a reply is
 `Some(text)` or `None` (the call failed), and a decoder maps cleaned text to
 `Some(records)` or `None` (`json.loads` raised).
 */
module StudySession {
  import opened Wrappers
  import opened Fences
  import opened Grading
  import opened Cards

  datatype Role = User | Assistant

  /** One chat bubble: `{"role": ..., "content": ...}`. */
  datatype ChatMessage = ChatMessage(role: Role, content: string)

  /**
   The session keys of app1.py. `summary` and `keyTerms` are options
   because a failed model call stores `None` in them.
   */
  datatype Session = Session(
    history: seq<ChatMessage>,
    pdfText: string,
    summary: Option<string>,
    keyTerms: Option<string>,
    quizList: seq<QuizItem>,
    flashcardList: seq<Flashcard>,
    quizAnswers: map<int, string>,
    scoreVisible: bool)

  /** The session as the first run of the script sets it up. */
  const Initial: Session := Session([], "", Some(""), Some(""), [], [], map[], false)

  /** The number input bounds the requested number of questions or cards. */
  type QuestionCount = n: int | 1 <= n <= 20 witness 5

  /** Python truthiness of the model's reply: present and non-empty. */
  predicate Truthy(reply: Option<string>) {
    reply.Some? && reply.value != ""
  }

  /** A chat turn: the user's prompt, then the reply if there is one. */
  function Chat(s: Session, prompt: string, reply: Option<string>): (r: Session)
    ensures prompt == "" ==> r == s
    ensures prompt != "" ==>
      && |r.history| == |s.history| + (if Truthy(reply) then 2 else 1)
      && r.history[..|s.history|] == s.history
      && r.history[|s.history|] == ChatMessage(User, prompt)
      && (Truthy(reply) ==> r.history[|s.history| + 1] == ChatMessage(Assistant, reply.value))
    ensures r.(history := s.history) == s
  {
    if prompt == "" then s
    else
      var asked := s.history + [ChatMessage(User, prompt)];
      s.(history := if Truthy(reply) then asked + [ChatMessage(Assistant, reply.value)] else asked)
  }

  /** "Process PDF": the extracted text replaces the document. */
  function LoadDocument(s: Session, text: string): (r: Session)
    ensures r.pdfText == text
    ensures r.(pdfText := s.pdfText) == s
  {
    s.(pdfText := text)
  }

  /**
   "Summarize PDF", offered only once a document is loaded. The reply is
   stored whatever it is, so a failed call replaces a previous summary by `None`.
   */
  function Summarize(s: Session, reply: Option<string>): (r: Session)
    ensures s.pdfText == "" ==> r == s
    ensures s.pdfText != "" ==> r.summary == reply
    ensures r.(summary := s.summary) == s
  {
    if s.pdfText == "" then s else s.(summary := reply)
  }

  /** "Extract Key Terms": the same overwrite as `Summarize`, on `keyTerms`. */
  function ExtractKeyTerms(s: Session, reply: Option<string>): (r: Session)
    ensures s.pdfText == "" ==> r == s
    ensures s.pdfText != "" ==> r.keyTerms == reply
    ensures r.(keyTerms := s.keyTerms) == s
  {
    if s.pdfText == "" then s else s.(keyTerms := reply)
  }

  /** The records in a truthy reply, after fence clean-up and decoding. */
  function Parsed<T>(reply: Option<string>, decode: string -> Option<seq<T>>): Option<seq<T>> {
    if Truthy(reply) then decode(CleanFences(reply.value)) else None
  }

  /**
   "Generate Quiz": a decoded quiz replaces the old one, clears the
   flashcards, hides the score and forgets the answers; a missing or empty
   reply, or one the decoder rejects, changes nothing. `count` only shapes
   the prompt.
   */
  function GenerateQuiz(s: Session, count: QuestionCount, reply: Option<string>,
                        decode: string -> Option<seq<QuizItem>>): (r: Session)
    ensures !Truthy(reply) ==> r == s
    ensures Truthy(reply) && decode(CleanFences(reply.value)).None? ==> r == s
    ensures Truthy(reply) && decode(CleanFences(reply.value)).Some? ==>
      && r.quizList == decode(CleanFences(reply.value)).value
      && r.flashcardList == []
      && !r.scoreVisible
      && r.quizAnswers == map[]
      && r.history == s.history && r.pdfText == s.pdfText
      && r.summary == s.summary && r.keyTerms == s.keyTerms
  {
    match Parsed(reply, decode)
    case None => s
    case Some(items) =>
      s.(quizList := items, flashcardList := [], scoreVisible := false, quizAnswers := map[])
  }

  /**
   "Generate Flashcards": a decoded deck replaces the old one and clears the
   quiz, but, unlike a new quiz, leaves the stored answers and the score
   flag as they were; a failed generation changes nothing.
   */
  function GenerateFlashcards(s: Session, count: QuestionCount, reply: Option<string>,
                              decode: string -> Option<seq<Flashcard>>): (r: Session)
    ensures !Truthy(reply) ==> r == s
    ensures Truthy(reply) && decode(CleanFences(reply.value)).None? ==> r == s
    ensures Truthy(reply) && decode(CleanFences(reply.value)).Some? ==>
      && r.flashcardList == decode(CleanFences(reply.value)).value
      && r.quizList == []
      && r.quizAnswers == s.quizAnswers && r.scoreVisible == s.scoreVisible
      && r.history == s.history && r.pdfText == s.pdfText
      && r.summary == s.summary && r.keyTerms == s.keyTerms
  {
    match Parsed(reply, decode)
    case None => s
    case Some(cards) => s.(flashcardList := cards, quizList := [])
  }

  /** The radio of quiz item `i` stores its selection; radios exist only for current items. */
  function RecordAnswer(s: Session, i: int, choice: string): (r: Session)
    ensures 0 <= i < |s.quizList| ==>
      && i in r.quizAnswers && r.quizAnswers[i] == choice
      && forall k :: k in s.quizAnswers && k != i ==> k in r.quizAnswers && r.quizAnswers[k] == s.quizAnswers[k]
    ensures r.quizAnswers.Keys <= s.quizAnswers.Keys + {i}
    ensures !(0 <= i < |s.quizList|) ==> r == s
    ensures r.(quizAnswers := s.quizAnswers) == s
  {
    if 0 <= i < |s.quizList| then s.(quizAnswers := s.quizAnswers[i := choice]) else s
  }

  /** "Check Score", a button of the quiz form, which is shown only for a non-empty quiz. */
  function CheckScore(s: Session): (r: Session)
    ensures |s.quizList| > 0 ==> r.scoreVisible
    ensures r.(scoreVisible := s.scoreVisible) == s
    ensures |s.quizList| == 0 ==> r == s
  {
    if |s.quizList| > 0 then s.(scoreVisible := true) else s
  }

  /** The "You scored" line: present once the score is revealed for a non-empty quiz. */
  function ShownScore(s: Session): (r: Option<nat>)
    ensures r.Some? <==> s.scoreVisible && |s.quizList| > 0
    ensures r.Some? ==> r.value <= |s.quizList|
    ensures r.Some? ==> r.value == |CorrectIndices(s.quizList, s.quizAnswers, |s.quizList|)|
  {
    if s.scoreVisible && |s.quizList| > 0 then Some(Grade(s.quizList, s.quizAnswers)) else None
  }

  /** A user action, with the model reply it received. */
  datatype Command =
    | ChatTurn(prompt: string, reply: Option<string>)
    | LoadPdf(text: string)
    | SummarizePdf(reply: Option<string>)
    | ExtractTerms(reply: Option<string>)
    | MakeQuiz(count: QuestionCount, reply: Option<string>)
    | MakeFlashcards(count: QuestionCount, reply: Option<string>)
    | Choose(index: int, choice: string)
    | SubmitQuiz

  /** The behaviour of `json.loads` on the two record shapes. */
  datatype Decoders = Decoders(quiz: string -> Option<seq<QuizItem>>, cards: string -> Option<seq<Flashcard>>)

  /** One user action applied to the session. */
  function Step(s: Session, cmd: Command, json: Decoders): Session {
    match cmd
    case ChatTurn(prompt, reply) => Chat(s, prompt, reply)
    case LoadPdf(text) => LoadDocument(s, text)
    case SummarizePdf(reply) => Summarize(s, reply)
    case ExtractTerms(reply) => ExtractKeyTerms(s, reply)
    case MakeQuiz(count, reply) => GenerateQuiz(s, count, reply, json.quiz)
    case MakeFlashcards(count, reply) => GenerateFlashcards(s, count, reply, json.cards)
    case Choose(i, choice) => RecordAnswer(s, i, choice)
    case SubmitQuiz => CheckScore(s)
  }

  /** A sequence of user actions applied in order. */
  function Run(s: Session, cmds: seq<Command>, json: Decoders): Session
    decreases |cmds|
  {
    if |cmds| == 0 then s else Run(Step(s, cmds[0], json), cmds[1..], json)
  }

  /** A quiz and a flashcard deck are never held at the same time. */
  predicate Exclusive(s: Session) {
    |s.quizList| == 0 || |s.flashcardList| == 0
  }

  /** While a quiz is held, every stored answer belongs to one of its items. */
  predicate AnswersInRange(s: Session) {
    |s.quizList| == 0 || forall k :: k in s.quizAnswers ==> 0 <= k < |s.quizList|
  }

  /**
   The chat starts with the user, every reply follows a user message, and
   no message is empty.
   */
  predicate WellFormedHistory(h: seq<ChatMessage>) {
    && (|h| > 0 ==> h[0].role == User)
    && (forall i :: 0 <= i < |h| ==> h[i].content != "")
    && (forall i :: 0 < i < |h| && h[i].role == Assistant ==> h[i - 1].role == User)
  }

  /** The invariants every reachable session keeps. */
  predicate Consistent(s: Session) {
    Exclusive(s) && AnswersInRange(s) && WellFormedHistory(s.history)
  }

  /** A chat turn keeps the history well formed. */
  lemma ChatKeepsHistoryWellFormed(s: Session, prompt: string, reply: Option<string>)
    requires WellFormedHistory(s.history)
    ensures WellFormedHistory(Chat(s, prompt, reply).history)
  {
  }

  /** Every action keeps the session consistent. */
  lemma StepKeepsConsistent(s: Session, cmd: Command, json: Decoders)
    requires Consistent(s)
    ensures Consistent(Step(s, cmd, json))
  {
  }

  /** Any sequence of actions keeps the session consistent. */
  lemma {:induction false} RunKeepsConsistent(s: Session, cmds: seq<Command>, json: Decoders)
    requires Consistent(s)
    ensures Consistent(Run(s, cmds, json))
    decreases |cmds|
  {
    if |cmds| > 0 {
      StepKeepsConsistent(s, cmds[0], json);
      RunKeepsConsistent(Step(s, cmds[0], json), cmds[1..], json);
    }
  }

  /** Every session the app can reach is consistent. */
  lemma ReachableConsistent(cmds: seq<Command>, json: Decoders)
    ensures Consistent(Run(Initial, cmds, json))
  {
    RunKeepsConsistent(Initial, cmds, json);
  }

  /** No action removes or rewrites a chat message: the history only grows at its end. */
  lemma {:induction false} HistoryOnlyGrows(s: Session, cmds: seq<Command>, json: Decoders)
    ensures s.history <= Run(s, cmds, json).history
    decreases |cmds|
  {
    if |cmds| > 0 {
      var next := Step(s, cmds[0], json);
      assert s.history <= next.history;
      HistoryOnlyGrows(next, cmds[1..], json);
    }
  }

  /** The quiz changes only through a quiz or flashcard generation. */
  lemma QuizChangesOnlyByGeneration(s: Session, cmd: Command, json: Decoders)
    requires Step(s, cmd, json).quizList != s.quizList
    ensures cmd.MakeQuiz? || cmd.MakeFlashcards?
  {
  }

  /**
   A quiz that an action puts in place starts with no stored answers, so
   answers given to an earlier quiz are never graded against a new one.
   */
  lemma NewQuizStartsUnanswered(s: Session, cmd: Command, json: Decoders)
    requires Step(s, cmd, json).quizList != s.quizList && |Step(s, cmd, json).quizList| > 0
    ensures Step(s, cmd, json).quizAnswers == map[]
  {
  }

  /** A freshly generated quiz hides the score until it is checked again. */
  lemma NewQuizHidesScore(s: Session, count: QuestionCount, reply: Option<string>,
                          decode: string -> Option<seq<QuizItem>>)
    requires Parsed(reply, decode).Some?
    ensures ShownScore(GenerateQuiz(s, count, reply, decode)) == None
  {
  }

  /** Checking a non-empty quiz shows the grade of the stored answers. */
  lemma CheckShowsGrade(s: Session)
    requires |s.quizList| > 0
    ensures ShownScore(CheckScore(s)) == Some(Grade(s.quizList, s.quizAnswers))
  {
  }
}
