# AI Study Buddy — session pipeline model

A Dafny model of the logic of the Streamlit study assistant `app1.py`, with the
user interface stripped away. The app keeps one session record (chat history,
document text, summary, key terms, quiz, flashcards, quiz answers, score flag)
and changes it in response to user actions, each of which makes at most one
call to a language model and, for the quiz and flashcards, decodes the model's
JSON reply after removing Markdown code fences.

Modules:

- `Wrappers`: `Option`, for the model's reply (`None` = the call failed) and
  for the decoder's result (`None` = `json.loads` raised).
- `PyText`: Python's `s.replace(pat, rep)` (leftmost, non-overlapping),
  `pat in s` and `s.strip()` (over the `str.isspace` characters).
- `Fences`: the clean-up `res.replace("```json","").replace("```","").strip()`.
- `Cards`: the flashcard record, apostrophe escaping of card text and the
  height of the card grid.
- `Grading`: the quiz item record and the score computation.
- `StudySession`: the session record, one function per user action, a
  command type with a `Step`/`Run` interpreter, and the invariants every
  reachable session keeps.

The model reply and `json.loads` are inputs: every generation takes the reply
as `Option<string>` and the decoder as a function from cleaned text to
`Option<seq<...>>`. Python truthiness of the reply (`if res:`) is `Truthy`:
present and non-empty.

Behaviour of the code that the model keeps, although a reader might expect
otherwise:

- Only quiz and flashcard generation leave the session untouched when the
  model call fails. A failed chat turn still keeps the user's message, which
  is appended (app1.py:78) before the call (app1.py:84). A failed call on
  "Summarize PDF" or "Extract Key Terms" stores `None` in `summary` /
  `key_terms`, wiping an earlier result (app1.py:104, 108).
- A new quiz forgets the stored answers and hides the score; new flashcards
  do neither (app1.py:157-159 against 175-176). The stale answers are
  harmless: `NewQuizStartsUnanswered` shows that any action putting a new
  non-empty quiz in place leaves no stored answers, and the invariant
  `AnswersInRange` keeps every answer key an index of the held quiz.
- The decoder is trusted as-is: there is no check of keys, of four options, or
  that `correct` is one of the options, and no bound on the number of records.
- The 1..20 bound on the requested count comes from the number input widget
  (app1.py:131), not from a check; it is the subset type `QuestionCount`.

## Model

| member | source | states |
|---|---|---|
| PyText.ReplaceAll | app1.py:154 | `replace` leaves a text that does not contain the pattern unchanged |
| PyText.LeadingSpace | app1.py:154 | the count `strip` removes at the front covers only whitespace and stops at the first non-whitespace character |
| PyText.TrailingSpace | app1.py:154 | the count `strip` removes at the back covers only whitespace and stops at the last non-whitespace character |
| PyText.Strip | app1.py:154 | the stripped text has no whitespace at either end and sits in the input between a whitespace-only prefix and a whitespace-only suffix |
| PyText.StripPadding | app1.py:154 | stripping whitespace padding from around an unpadded text gives back exactly that text |
| Fences.CleanFences | app1.py:154 | the cleaned reply contains no "```", has no surrounding whitespace, and a reply with neither is passed through unchanged |
| Fences.FenceRemovalLeavesNoFence | app1.py:154 | removing every "```" leaves no "```" behind, even where a removal joins two backtick runs: a leading run ends at most two long and a run already that short is kept |
| Fences.FenceRoundTrip | app1.py:173-175 | a JSON payload that has no surrounding whitespace and no "```" (single inline backticks allowed) reaches the decoder exactly as sent, both bare and inside a "```json … ```" fence, with any whitespace inside and outside the fence |
| Fences.InlineCodeExample | app1.py:154 | the reply "```json`x`" + newline + "```" + newline is cleaned to "`x`": inline backticks and the newline after the fence do not disturb the payload |
| Cards.EscapeApostrophes | app1.py:265-266 | escaped card text contains no apostrophe and is longer by 4 per apostrophe of the input |
| Cards.EscapeCard | app1.py:264-266 | both sides of a rendered card are apostrophe-free, with lengths grown by 4 per apostrophe |
| Cards.UnescapeEscape | app1.py:265-266 | replacing each "&#39;" by an apostrophe recovers the original text when it did not already contain "&#39;" |
| Cards.UnescapeEscapeIsUnescape | app1.py:265-266 | escaping and then unescaping any text gives the same result as unescaping it alone |
| Cards.EntityTextNotRecovered | app1.py:265-266 | for every text that already holds "&#39;" the escape-then-unescape round trip fails, so the condition of `UnescapeEscape` is needed |
| Cards.Rows | app1.py:284 | the row count is the ceiling of n/3: enough rows for three cards each, and no spare row |
| Cards.GridHeight | app1.py:284-285 | the frame height is 50 px plus whole 250 px rows, enough for all cards at three per row and with no empty row |
| Cards.GridHeightMonotone | app1.py:284-285 | a larger deck never gets a shorter frame |
| Grading.ScoreUpTo | app1.py:192-195 | after looking at the first n items the score is at most n and equals the number of those items whose stored answer is exactly their `correct` |
| Grading.Grade | app1.py:192-196 | the grade lies in 0..len(quiz) and equals the number of indices whose stored answer equals the item's `correct`; a missing answer counts as wrong |
| Grading.FullMarksIff | app1.py:192-196 | full marks exactly when every item is answered correctly |
| Grading.ZeroMarksIff | app1.py:192-196 | a zero score exactly when no item is answered correctly |
| Grading.GradeAtMostAnswered | app1.py:193-195 | the grade never exceeds the number of items that have a stored answer |
| Grading.GradeSeesOnlyItemAnswers | app1.py:193-194 | answers under indices that name no item do not affect the grade |
| Grading.AnswerCorrectly | app1.py:184-195 | selecting the correct option for one item raises the grade by one, or leaves it if that item was already right |
| Grading.SingleItemExample | app1.py:192-196 | the one-item "2+2?" quiz scores 1 for "4", 0 for "3" and 0 with no answer |
| StudySession.Chat | app1.py:77-87 | a chat turn keeps the old history as a prefix, appends the user message, appends the reply only when it is truthy (growth by exactly 1 or 2), changes nothing else, and an empty prompt changes nothing |
| StudySession.LoadDocument | app1.py:93-96 | processing a PDF replaces the document text and nothing else |
| StudySession.Summarize | app1.py:99-104 | with a document loaded the summary becomes the reply even when the reply is `None`; nothing else changes |
| StudySession.ExtractKeyTerms | app1.py:105-108 | with a document loaded the key terms become the reply even when the reply is `None`; nothing else changes |
| StudySession.GenerateQuiz | app1.py:152-161 | a decoded reply replaces the quiz, empties the flashcards and answers and hides the score, leaving history, document, summary and key terms; a missing, empty or undecodable reply leaves the whole session unchanged |
| StudySession.GenerateFlashcards | app1.py:171-178 | a decoded reply replaces the flashcards and empties the quiz, but keeps answers, score flag, history, document, summary and key terms; a failed generation leaves the whole session unchanged |
| StudySession.RecordAnswer | app1.py:182-184 | the radio of an existing item stores its selection under that index and keeps every other answer; nothing else changes |
| StudySession.CheckScore | app1.py:180-189 | submitting a non-empty quiz reveals the score and changes nothing else |
| StudySession.ShownScore | app1.py:191-196 | a score is shown exactly when it is revealed for a non-empty quiz, and it is the count of correct answers, at most the number of items |
| StudySession.ChatKeepsHistoryWellFormed | app1.py:77-87 | a chat turn keeps the history starting with the user, every reply following a user message, and no message empty |
| StudySession.StepKeepsConsistent | app1.py:77-189 | every action keeps quiz and flashcards mutually exclusive, stored answers within a held quiz, and the history well formed |
| StudySession.RunKeepsConsistent | app1.py:77-189 | any sequence of actions keeps the session consistent |
| StudySession.ReachableConsistent | app1.py:50-65 | every session reachable from the initial one is consistent |
| StudySession.HistoryOnlyGrows | app1.py:78-87 | across any sequence of actions the old chat history stays a prefix of the new one |
| StudySession.QuizChangesOnlyByGeneration | app1.py:156-176 | only a quiz or flashcard generation changes the held quiz |
| StudySession.NewQuizStartsUnanswered | app1.py:156-176 | whenever an action replaces the held quiz by a non-empty one, no answers are stored, so answers to an earlier quiz never count against the new one |
| StudySession.NewQuizHidesScore | app1.py:158 | after a successful quiz generation no score is shown |
| StudySession.CheckShowsGrade | app1.py:188-196 | checking a non-empty quiz shows the grade of the stored answers |

## Left out

- Rendering: sidebar, tabs, chat bubbles, spinners, the quiz form layout, the
  answer expander and the HTML/CSS card template; they only display state.
- The mode radio (quiz or flashcards): the model lets the quiz form act
  whenever a quiz is held. In the app it also decides whether the quiz panel
  is drawn, and drawing it (mode "Quiz (MCQ)" with a non-empty quiz) writes
  every item's radio value into the answers (app1.py:180-185).
- `get_gemini_response` and the Gemini client: a network call, modelled as the
  `Option<string>` reply each action receives.
- `extract_text` and PyPDF2: a foreign library; `LoadDocument` takes the
  extracted text. Its exceptions are not caught by the app and are not modelled.
- `json.loads` and the record shapes it yields: a library call, modelled as a
  decoder parameter that already yields `QuizItem` / `Flashcard` records with
  string fields; non-string JSON values are not represented.
- The question-about-the-PDF box (app1.py:120-125): it only displays the reply
  and changes no session state.
- Prompt strings, the topic and source selection: f-string formatting with no
  checkable behaviour; `count` is carried but only shapes the prompt.
- API-key loading and the startup halt (app1.py:10-20): environment I/O.
- StudySession.RecordAnswer: stores strings only; `st.radio` returns `None`
  for an item with no options, which is not represented.
- StudySession.CheckScore: the per-item answer writes that every rerun drawing
  the quiz panel performs (app1.py:182-185), the submit rerun included, and the
  radio's default of its first option when untouched, appear in the model only
  as arbitrary earlier `Choose` steps with any string. So the model does not
  promise that every item with options is answered when the score is checked;
  an item without a stored answer counts as wrong.
- Cards.Rows: `math.ceil(len / 3)` is computed on a float; the model uses exact
  integer ceiling, which agrees for every deck below 2^53 cards.
