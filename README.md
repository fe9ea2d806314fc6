# yt-quiz-generator: the quiz client, modelled in Dafny

The application turns a YouTube video into a multiple-choice quiz. This project
models the client-side logic that consumes the generated questions, plus the
URL check on the submission form:

- `quiz_types.dfy` (module `QuizTypes`): the `QuizQuestion` record (question
  text, any number of options, the key `correctAnswer`), the `QuizState` shape,
  and the predicates `WellFormed` (the key is a position of an existing option)
  and `Consistent` (the position names a question, the score is a count of
  questions).
- `quiz.dfy` (module `Quiz`): the quiz-taking component as a class
  `QuizComponent` with the four pieces of component state (`currentQuestion`,
  `score`, `userAnswers`, `showResults`) as fields and the two handlers as
  methods. Its object invariant `Valid()` says that there is one answer per
  question already passed, that the results screen shows only once every
  question is answered, and that `score` is `CountCorrect`, the number of
  answers that equal their question's key. `Render` is the pure render-time
  choice between the results screen and the current question. `TakeQuiz`
  drives a fresh component with one click per question.
- `quiz_results.dfy` (module `QuizResults`): the results screen as pure
  functions: the per-question check or cross (`Marks`), the prioritised
  three-way highlight of each option (`OptionHighlight`), and the header colour
  (`Header`), with counting lemmas over them.
- `youtube_form.dfy` (module `YoutubeForm`): the regular expression
  `^(https?://)?(www.)?(youtube.com|youtu.be)/.+$` twice over, once
  declaratively (`RegexMatches`: the string splits into the optional groups,
  the host, a slash and a rest of line) and once as a left-to-right recogniser
  (`IsYoutubeUrl`), proved equal; and the form schema's issues (`UrlIssues`).
- `wrappers.dfy` (module `Wrappers`): `Option`, used where the source reads
  `undefined`.

The generation prompt asks for four options per question and a 0-based
`correctAnswer` (app/api/generate-quiz/route.ts:126), but `QuizQuestion`
(app/types/quiz.ts:1-5) fixes neither and the reply is parsed without any check
(app/api/generate-quiz/route.ts:145). The model therefore allows any number of
options and any integer key, and states the one-correct-option property under
`WellFormed` only.

Modelling choices:

- Each handler runs as one atomic step. Every read inside `handleAnswer` uses
  the values the closure captured (the state before the click), which is what
  the method does: the score handed to `onComplete` is computed from the prior
  score, as the source does, and is proved equal to the new score.
- `onComplete` is modelled as the value `HandleAnswer` returns (`Some(score)` on
  the click that finishes the quiz, `None` otherwise). `onNewQuiz` belongs to
  the parent and is not modelled.
- `HandleAnswer` requires that the question screen is showing
  (`!showResults` and `currentQuestion < |questions|`): the only callers are the
  option buttons rendered on that screen (components/Quiz.tsx:54-73), and the
  body reads `questions[currentQuestion].correctAnswer`. Under `Valid()` the
  array write at position `currentQuestion` (`WriteAt`) is an append.
- An empty question list is allowed; the render then dereferences
  `questions[0]`, which is `undefined`, and throws. `Render` returns `Crash`
  for exactly that case.
- `userAnswers[k]` past the end is `undefined`, which is never strictly equal
  to a number: `AnswerAt` returns `None` and a missing answer is incorrect.
- The schema's checks collect every failing check in declaration order, so
  `UrlIssues("")` is `[Required, InvalidUrl]`.

## Model

| member | source | states |
|---|---|---|
| `Quiz.QuizComponent.constructor` | components/Quiz.tsx:13-16 | a new component is on question 0 with score 0, no answers and the results hidden, and satisfies the session invariant |
| `Quiz.QuizComponent.HandleAnswer` | components/Quiz.tsx:18-33 | the choice is appended to the answers and nothing earlier changes; the score rises by exactly one iff the choice is the current key; with another question left the position advances and results stay hidden, on the last question the position stays, results show and the value handed to `onComplete` is the new score including the last point; the invariant (score = number of hits, answers track the position) is preserved |
| `Quiz.QuizComponent.HandleRetry` | components/Quiz.tsx:35-40 | from any state, the component returns to the initial state (so a second retry changes nothing) and satisfies the invariant again |
| `Quiz.QuizComponent.Render` | components/Quiz.tsx:42-62 | with results shown, the results screen receives the questions, the answers and the score; otherwise question `currentQuestion + 1` of `|questions|` is shown, and the lookup fails only when there are no questions at all |
| `Quiz.QuizComponent.State` | app/types/quiz.ts:7-12 | a valid component seen as a `QuizState` is consistent: the position names an existing question whenever there is one, and 0 <= score <= number of questions |
| `Quiz.WriteAt` | components/Quiz.tsx:19-20 | writing `v` at position `i` of a copy stores `v` at `i`, keeps every other existing answer, and grows the array by one exactly when `i` is its length |
| `Quiz.CountCorrect` | components/Quiz.tsx:23-25 | the number of answers equal to their question's key never exceeds the number of answers |
| `Quiz.CountCorrectAppend` | components/Quiz.tsx:23-25 | one more answer adds one point when it equals that question's key and none otherwise |
| `Quiz.CountCorrectFull` | components/Quiz.tsx:23-25 | the count equals the number of answers iff every answer equals its question's key |
| `Quiz.MarksCountScore` | components/QuizResults.tsx:27-29 | with one answer per question, the number of questions the results screen marks correct equals the score the component computed |
| `Quiz.PerfectHeaderIffAllMarked` | components/QuizResults.tsx:19-22 | with the component's score, the header uses the full-marks colour iff every question is marked correct |
| `Quiz.TakeQuiz` | components/Quiz.tsx:13-33 | starting from the initial state, one click per question keeps the quiz going for the first `n - 1` clicks (nothing handed to `onComplete`), the `n`-th click completes it with the score of all answers, and the results screen then shows all the answers with that score |
| `QuizResults.Marks` | components/QuizResults.tsx:27-38 | one mark per question, and question `k` is marked correct iff an answer at `k` exists and equals its key; a missing answer is incorrect |
| `QuizResults.OptionHighlight` | components/QuizResults.tsx:45-51 | an option gets the correct look iff it is the key, the wrong-choice look iff the user picked it and the question is incorrect, and the neutral look iff it is neither the key nor the user's pick; so no option gets two looks |
| `QuizResults.CorrectHighlightCount` | components/QuizResults.tsx:42-47 | exactly one option of a question gets the correct look when the key is a valid option position, and none otherwise |
| `QuizResults.WrongChoiceHighlightCount` | components/QuizResults.tsx:42-49 | at most one option gets the wrong-choice look: exactly one when the user picked an existing option other than the key, none when the question is answered correctly |
| `QuizResults.NeutralHighlightCount` | components/QuizResults.tsx:42-51 | every other option is neutral: the neutral count is the option count minus the correct and wrong-choice ones |
| `QuizResults.AnswerAt` | components/QuizResults.tsx:28 | the answer at a question position, absent past the end of the answers; its meaning is stated by `Marks` |
| `QuizResults.IsCorrect` | components/QuizResults.tsx:29 | strict equality of the answer with the key; `Marks` states that a missing answer is never correct |
| `QuizResults.Highlights` | components/QuizResults.tsx:42-51 | the looks of all options of one question; `CorrectHighlightCount`, `WrongChoiceHighlightCount` and `NeutralHighlightCount` state how many of each there are |
| `QuizResults.Header` | components/QuizResults.tsx:19-21 | the score line's colour; `PerfectHeaderIffAllMarked` states that it is the full-marks colour iff every question is marked correct |
| `YoutubeForm.RegexMatches` | components/YoutubeForm.tsx:10 | the regular expression read declaratively; `RecogniserMatchesRegex` states that the recogniser accepts exactly these strings |
| `YoutubeForm.IsYoutubeUrl` | components/YoutubeForm.tsx:10 | the left-to-right recogniser; `RecogniserSound` and `RecogniserComplete` tie it to `RegexMatches` |
| `YoutubeForm.UrlIssues` | components/YoutubeForm.tsx:12-17 | the schema's issues in check order; `UrlAcceptedIffRegexMatches` and `EmptyUrlRejected` state when it is empty and what it holds for `""` |
| `YoutubeForm.Message` | components/YoutubeForm.tsx:15-16 | the two error messages; `EmptyUrlRejected` states that the first issue for `""` reads "YouTube URL is required" |
| `YoutubeForm.RecogniserSound` | components/YoutubeForm.tsx:10 | every string the left-to-right recogniser accepts splits into optional scheme, optional `www.`, host, slash and rest of line |
| `YoutubeForm.RecogniserComplete` | components/YoutubeForm.tsx:10 | every string that splits that way is accepted by the recogniser |
| `YoutubeForm.RecogniserMatchesRegex` | components/YoutubeForm.tsx:10 | the recogniser accepts exactly the strings the regular expression matches |
| `YoutubeForm.UrlAcceptedIffRegexMatches` | components/YoutubeForm.tsx:12-17 | the form raises no issue iff the regular expression matches; whenever the required check fails, the regex check fails too |
| `YoutubeForm.EmptyUrlRejected` | components/YoutubeForm.tsx:15-16 | the empty string fails both checks, the required check first, so its first message is "YouTube URL is required" |
| `YoutubeForm.WellFormedUrlAccepted` | components/YoutubeForm.tsx:10 | every optional scheme (`http://`, `https://` or none) with or without `www.`, either host, a slash and a non-empty line is accepted |
| `YoutubeForm.ShortUrlAccepted` | components/YoutubeForm.tsx:10 | `youtu.be/abc` is accepted: both optional groups may be absent |
| `YoutubeForm.FullUrlAccepted` | components/YoutubeForm.tsx:10 | `https://www.youtube.com/watch?v=x` is accepted |
| `YoutubeForm.EmptyPathRejected` | components/YoutubeForm.tsx:10 | any host with its slash and nothing after it is refused, with or without the optional groups |
| `YoutubeForm.WrongStartRejected` | components/YoutubeForm.tsx:10 | because of the start anchor and case-sensitivity, a string not starting with `h`, `w` or `y` is refused |
| `YoutubeForm.MatchHasNoLineTerminator` | components/YoutubeForm.tsx:10 | no accepted string contains `\n`, `\r`, U+2028 or U+2029 anywhere |
| `YoutubeForm.MatchIsAtLeastTenLong` | components/YoutubeForm.tsx:10 | every accepted string has at least ten characters, so the non-empty check never refuses a string the regex accepts |
| `YoutubeForm.ExampleUrlsRejected` | components/YoutubeForm.tsx:10 | `youtube.com/`, `m.youtube.com/x`, `vimeo.com/x`, `ftp://youtube.com/x`, `YouTube.com/x` and a path with a newline are refused |

## Left out

- The quiz-generation route (app/api/generate-quiz/route.ts): it runs external
  download and conversion tools, touches the filesystem, calls a speech-to-text
  and a text-generation service and reads the clock; there is no logic of its
  own to model. In particular no filtering of malformed generated questions is
  assumed, because the route does none.
- components/QuizLoading.tsx, app/page.tsx, components/FeatureCard.tsx: timer
  driven or static markup.
- The form wiring in components/YoutubeForm.tsx (the form library, its schema
  resolver choosing which message to display, the toast, and the submit
  handler, which only logs).
- Class strings, icons and buttons: only the decisions they encode are modelled
  (`Marks`, `OptionHighlight`, `Header`).
- React's asynchronous, batched state updates and re-rendering: each handler is
  one atomic step, and two clicks delivered before a re-render are not modelled.
- JavaScript numbers: `correctAnswer`, the chosen index and the score are
  unbounded integers; fractional, `NaN` or non-number keys are not modelled.
- JavaScript strings are UTF-16 code units, Dafny strings are Unicode scalar
  values; a lone surrogate cannot be represented, and it is the only input on
  which the two could differ (`.` would match it).
- `Quiz.QuizComponent.HandleAnswer`: not modelled on the results screen or with
  an empty question list, where no answer button is rendered.
- The question list is fixed for the life of the component: `questions` is a
  prop that the source reads again on every render while the four state values
  survive, so a parent passing a different (for example shorter) list without
  remounting the component is not modelled; `Quiz.QuizComponent.Render`'s
  promise that the lookup fails only for an empty list holds under that
  assumption.
