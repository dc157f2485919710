# Mock.sh exam session, modelled in Dafny

Mock.sh is a browser exam for certification practice. A signed-in user starts a
timed test of up to 45 questions drawn at random from a static bank. The user
answers single-select and multi-select questions, moves between them, and
submits, or runs out of the 90 minutes. The results page then shows the score
and a review list that can be filtered to all, wrong or correct questions.

This project models the exam-session controller of `src/App.jsx`:

- `questions.dfy`, module `Questions`: the question record, the stored answer
  (one index, or a list of indices), and the well-formedness a bank entry is
  meant to have.
- `shuffle.dfy`, module `FisherYates`: `shuffle`. It copies the items into a
  fresh array and swaps in place from the last index down to 1. The random
  draws are an input sequence.
- `clock.dfy`, module `Clock`: `formatTime`, with a parser back from `MM:SS`
  as its inverse; the elapsed time reported on submit; and one firing of the
  countdown timer, with lemmas about repeated firings.
- `answers.dfy`, module `AnswerUpdate`: the next answers object built by
  `handleSelect`. Multi-select toggles an index; single-select overwrites.
- `scoring.dfy`, module `Scoring`: the correctness rule, defined once. The
  source writes it out four times (lines 243-255, 386-401, 884-890 and
  898-904). The module also holds the score reduce, the review filter, and the
  proofs that the filter's lists and its button counts agree with the score.
- `session.dfy`, module `ExamSession`: class `Session`. It holds the state
  fields `started`, `submitted`, `timeLeft`, `currentIndex`, `answers`,
  `selectedQuestions` and `testStartTime`, and one method per handler. The
  backend insert is recorded in `saveRequests`, a log of the rows handed to
  the backend.

`Date.now()`, `Math.random()`, `window.confirm` and the signed-in user are
parameters of the methods that use them.

The model follows the code, including where it departs from what an exam app
might be expected to do:

- When the countdown runs out, the tick only sets `submitted`. It never calls
  `handleSubmit`, so nothing is saved on timeout.
- `handleSubmit` has no guard. Each call appends one save request, and a
  second call saves again.
- The saved question snapshot leaves out `multiSelect` and `correctIndices`.
  Its `code` is `q.code || null`, so an empty snippet is saved as null.
- An empty bank is not an error. It gives a started session with no
  questions.
- Toggling the same option twice gives back the same options, but not always
  the same list. An option that was already chosen comes back at the end of
  the list (`ToggleTwiceReorders`). Scoring does not depend on the order
  (`SelectTwiceKeepsCorrectness`).
- `answers[id] === correctIndex` is true when both sides are undefined. So
  an unanswered question whose entry lacks `correctIndex` counts as correct
  (`UnansweredRule`). For well-formed entries, an unanswered question scores 0
  (`UnansweredIsWrong`).

Handler preconditions state the conditions under which the page renders each
handler's control. These include which view is on screen (App.jsx:543, 615,
829 and 1039):

- Option clicks, Previous, Next and the problem bar belong to the test view,
  which is shown only while the session is in progress (`started` and not
  `submitted`).
  - Option clicks pass the id of the question on screen.
  - Next exists only under a question on screen, which requires
    `currentIndex < |selectedQuestions|`.
  - The problem bar offers only the indices of the shown questions.
- Begin Test is shown only before a session, and Virtual Participation Again
  only after submission. `StartTest` therefore never runs during a test, so a
  session in progress is never redrawn.
- End Test sits in the header of a started session, and Logout in the header
  outside one.
- Submit All appears in the test view. `HandleSubmit` asks only for a started
  session, so a second, stale submit is still modelled.

Once a session is submitted, only `StartTest` and `HandleRestart` can change
its answers and questions. The other methods callable in that phase
(`HandleSubmit`, `Tick`) do not have those fields in their `modifies`
clauses.

Some definitions model one source expression each and are used inside the
members listed below, so they have no row of their own:

- `FisherYates.Swap` is the swap of line 17.
- `FisherYates.SwapsFrom` and `FisherYates.Shuffled` are the loop of lines
  15-18, which `Shuffle` is proved equal to.
- `Questions.Lookup` is `answers[id]`, with undefined as `None`.
- `Scoring.UsesListRule` is the guard of line 244.
- `Scoring.AllIn` is `every`/`includes` at line 251.
- `Scoring.StrictEquals` is `===` at line 254.

## Model

| member | source | states |
|---|---|---|
| FisherYates.SwapElements | src/App.jsx:17 | the destructuring swap exchanges positions i and j and leaves every other position alone |
| FisherYates.SwapPermutes | src/App.jsx:17 | a swap keeps the multiset of elements |
| FisherYates.Shuffle | src/App.jsx:13-20 | the loop over an array copy computes `Shuffled(items, js)` and returns a permutation of the input; the input is untouched |
| FisherYates.SwapsFromIsPermutation | src/App.jsx:15-18 | every suffix of the swap loop keeps the multiset of elements |
| FisherYates.ShuffledIsPermutation | src/App.jsx:13-20 | the shuffle has the input's length and multiset |
| FisherYates.SwapKeepsDistinct | src/App.jsx:17 | a swap keeps elements with distinct keys distinct |
| FisherYates.SwapsFromKeepsDistinct | src/App.jsx:15-18 | the swap loop keeps distinct keys distinct |
| FisherYates.ShuffledPrefix | src/App.jsx:206 | a prefix of the shuffle has the requested length, is a sub-multiset of the input and keeps distinct keys distinct |
| Clock.Decimal | src/App.jsx:25 | `String(n)` is one or more digits; one digit below 10, at most two below 100 |
| Clock.PadStart2 | src/App.jsx:25 | `padStart(2, '0')` yields length max(2, original) and keeps a digit string all digits |
| Clock.FormatTime | src/App.jsx:22-26 | the display ends in `:SS`; below 6000 seconds it is exactly two digits, a colon and two digits |
| Clock.DecimalValue | src/App.jsx:25 | the digits of `String(n)` read back to n |
| Clock.LeadingZeroValue | src/App.jsx:25 | a leading '0' does not change a digit string's value |
| Clock.PadStart2Value | src/App.jsx:25 | padding with zeros does not change a digit string's value |
| Clock.PaddedValue | src/App.jsx:25 | `String(n).padStart(2, '0')` is all digits and reads back as n |
| Clock.FormatTimeFields | src/App.jsx:22-26 | the display is the whole minutes (at least two digits), a colon, and exactly two digits holding the seconds below 60 |
| Clock.FormatTimeRoundTrip | src/App.jsx:22-26 | a strict `MM:SS` parser (two-digit seconds below 60) reads `formatTime(s)` back as s for every s |
| Clock.TimeTakenSeconds | src/App.jsx:242 | the elapsed time is the floor of (now - start)/1000, and it is non-negative when now >= start |
| Clock.Step | src/App.jsx:187-202 | one timer firing: nothing unless started and not submitted; above 1 it takes off exactly one second; at 1 or below it sets 0 and submitted; time never rises or goes negative |
| Clock.Ticks | src/App.jsx:190-198 | repeated firings never change `started`, never undo a submission, and do nothing to a session that was not started |
| Clock.TicksFromRunning | src/App.jsx:190-198 | from t >= 1 seconds, the first t-1 firings count down, firing t submits, later ones change nothing |
| Clock.TicksAfterExpiry | src/App.jsx:188 | once submitted or not started, firings change nothing |
| Clock.FullDurationExpires | src/App.jsx:187-202 | from 5400 seconds the session is submitted after n firings exactly when n >= 5400, with max(5400 - n, 0) left |
| Clock.TicksMonotone | src/App.jsx:191-197 | over any number of firings the time left never increases and stays non-negative |
| AnswerUpdate.Without | src/App.jsx:221 | the filter removes every copy of the index, keeps the others, and keeps a repeat-free list repeat-free |
| AnswerUpdate.Toggle | src/App.jsx:219-222 | the clicked index is present afterwards iff it was absent; other indices are unchanged; no repeats are introduced |
| AnswerUpdate.Select | src/App.jsx:216-235 | only the clicked question's entry changes; single-select overwrites it with the index, multi-select toggles the index in its list and keeps the list repeat-free |
| AnswerUpdate.ToggleTwiceAbsent | src/App.jsx:219-222 | toggling an absent index twice restores the exact list |
| AnswerUpdate.ToggleTwice | src/App.jsx:219-222 | toggling any index twice on a repeat-free list restores its multiset, length and members |
| AnswerUpdate.ToggleTwiceReorders | src/App.jsx:219-222 | toggling a present index twice can reorder: [1, 2] becomes [2, 1] |
| AnswerUpdate.SelectTwice | src/App.jsx:216-228 | clicking a multi-select option twice leaves other entries alone and restores the chosen options |
| Questions.ListAnswer | src/App.jsx:245-247 | `Array.isArray(a) ? a : []`: a stored list is used as is, anything else reads as the empty selection |
| Scoring.IsCorrect | src/App.jsx:244-254 | under the list rule a correct answer has the key's length and only key indices; otherwise it is correct iff the stored value strictly equals correctIndex (both undefined included) |
| Scoring.Shows | src/App.jsx:891-893 | All shows every question; Wrong shows exactly the incorrect ones and Correct exactly the correct ones |
| Scoring.Reduce | src/App.jsx:243-255 | the reduce adds between 0 and one per question to its starting total |
| Scoring.Score | src/App.jsx:386-401 | 0 <= score <= number of questions |
| Scoring.FilterResults | src/App.jsx:880-894 | a question is in a filter's list iff it is a session question the filter's predicate accepts; the list is no longer than the session |
| Scoring.IndexOf | src/App.jsx:906 | `indexOf` is the first position holding the question, or -1 when it is absent |
| Scoring.ReviewRows | src/App.jsx:895-919 | one row per shown question, in order, carrying its own verdict and labelled `#n` for a position n-1 holding that question; with distinct ids that position is the only one |
| Scoring.ReviewNumbersArePositions | src/App.jsx:906-914 | with distinct ids, the All view's rows are numbered 1, 2, 3, ... in session order |
| Scoring.ReviewVerdicts | src/App.jsx:891-892 | every row of the Correct view reads Accepted and no row of the Wrong view does (lines 918-919) |
| Scoring.ReduceCountsCorrect | src/App.jsx:243-255 | the reduce and the Correct filter count the same questions, so the score call sites and the review agree |
| Scoring.FilterAllIsWhole | src/App.jsx:893 | the All view is the whole session in order |
| Scoring.FilterSplit | src/App.jsx:891-892 | Wrong and Correct together hold exactly the session's questions |
| Scoring.FilterPartition | src/App.jsx:861-894 | All is everything; Wrong and Correct are disjoint and make up All; Correct has `score` elements and Wrong has the rest |
| Scoring.UnansweredRule | src/App.jsx:244-254 | an unanswered question counts iff its answer key is missing too (empty list or no correctIndex) |
| Scoring.UnansweredIsWrong | src/App.jsx:254 | for a well-formed question, unanswered scores 0 |
| Scoring.SingleRule | src/App.jsx:254 | a stored index is correct iff it equals correctIndex |
| Scoring.ElementsSize | src/App.jsx:250 | a list has at most as many distinct elements as entries, with equality iff it has no repeats |
| Scoring.ListRuleIsSetEquality | src/App.jsx:244-252 | with repeat-free lists, equal length plus every-included is exactly set equality |
| Scoring.ListRuleByMultiset | src/App.jsx:244-252 | the multi-select rule depends only on the multiset of the stored list, not its order |
| Scoring.SelectTwiceKeepsCorrectness | src/App.jsx:219-252 | clicking a multi-select option twice never changes that question's correctness |
| ExamSession.TotalQuestions | src/App.jsx:60 | the session size is min(45, bank size) |
| ExamSession.DrawQuestions | src/App.jsx:206 | the draw has min(45, bank size) questions, all from the bank, with distinct ids if the bank's are |
| ExamSession.DrawSession | src/App.jsx:206 | running the shuffle method and slicing gives exactly the draw `DrawQuestions` describes |
| ExamSession.SavedCode | src/App.jsx:269 | `code \|\| null` keeps a non-empty snippet and saves an empty or missing one as null |
| ExamSession.Snapshot | src/App.jsx:264-270 | the saved questions are the session questions in order, with id, text, options, correctIndex and code only |
| ExamSession.SaveRow | src/App.jsx:257-271 | the stored score is the size of the review's Correct view, the stored total minus it is the Wrong view's size, and the snapshot has one entry per question with the same ids in order |
| ExamSession.StartStateValid | src/App.jsx:204-214 | the state startTest sets up satisfies the session invariant for every draw |
| ExamSession.SubmitKeepsValid | src/App.jsx:238 | marking a started session submitted keeps the session invariant |
| ExamSession.Session.constructor | src/App.jsx:38-62 | the initial state: not started, not submitted, 5400 seconds, index 0, no answers, no questions, no start time |
| ExamSession.Session.StartTest | src/App.jsx:204-214 | without a user nothing changes; with one, the draw, empty answers, index 0, 5400 seconds, not submitted, started, start time = now |
| ExamSession.Session.HandleSelect | src/App.jsx:216-235 | the answers become `Select` of the old answers; nothing else changes |
| ExamSession.Session.Tick | src/App.jsx:190-198 | started, submitted and time left take one `Step`; an in-progress session stays in progress or becomes submitted |
| ExamSession.Session.Previous | src/App.jsx:1117 | the index becomes max(i - 1, 0); nothing else changes |
| ExamSession.Session.Next | src/App.jsx:1134-1136 | the index becomes min(i + 1, len - 1) and stays in range; nothing else changes |
| ExamSession.Session.Jump | src/App.jsx:1050 | the index becomes the clicked one; nothing else changes |
| ExamSession.Session.HandleSubmit | src/App.jsx:237-281 | submitted is set; one save request is appended per call with a user, holding the score, total, elapsed seconds, answers and snapshot; its score is the displayed one |
| ExamSession.Session.HandleRestart | src/App.jsx:283-293 | confirmed: everything back to the initial values except the save log; declined: nothing changes |
| ExamSession.Session.HandleLogout | src/App.jsx:377-384 | started and submitted cleared, answers and questions emptied; the rest stays |
| ExamSession.Session.DisplayedScore | src/App.jsx:386-401 | 0 before submit; after submit, the size of the Correct list, at most the number of questions |
| ExamSession.Session.FilterLabelCount | src/App.jsx:857-874 | once submitted, each filter button's count equals the length of that filter's list |

## Left out

- Sign-up, login, the error-message mapping and profile verification (src/App.jsx:78-92, 295-375): these are backend calls and UI text. The signed-in user is a parameter.
- The stats, history and leaderboard fetches (src/App.jsx:95-185): these are asynchronous network reads.
- The backend insert itself, its error logging, and the `savingResult` flag (src/App.jsx:239, 257-280): a call only appends its row to `saveRequests`. Whether the insert succeeds is not modelled.
- Dark mode and `localStorage` (src/App.jsx:55-76): browser storage and the DOM.
- Rendering other than the review rows' number and verdict: the PDF modal, the option highlighting and the expanded answer comparison. These are display only. `resultFilter` appears only as the filter argument. `expandedQuestion` is not modelled.
- `setInterval`/`clearInterval` scheduling: `Tick` is one firing of the interval body, and it does nothing while the interval does not exist.
- Uniformity of the shuffle: this is a probabilistic property of `Math.random`. Only the permutation property is proved, for any sequence of draws.
- The percentage `Math.round(score / len * 100)` (src/App.jsx:848): floating-point display.
- `setName('')` in `handleLogout` (src/App.jsx:383): `name` is set nowhere else and read nowhere, so it is not a field of the model.
- A failing `signOut` in `handleLogout`: `HandleLogout` models the state after the call returns.
- Two clicks handled by one stale render: the model's handlers run one after another, each seeing the previous one's state.
- src/components/Profile.jsx, src/components/Leaderboard.jsx, src/ErrorBoundary.jsx and src/supabaseClient.js: rendering of backend rows, a UI error boundary, and client construction with retry and backoff around network calls.
- AnswerUpdate.Select: a stored single-select number other than 0, clicked as multi-select, would make `existing.includes` throw in the source. The model treats any stored value that is not a list as the empty list. This cannot happen while each question id keeps one `multiSelect` flag.
- Clock.FormatTime: the model takes a non-negative count of seconds. It does not model JavaScript's output for negative input, because its only caller passes `timeLeft`, which `Session.Valid` keeps between 0 and 5400.
- ExamSession.Session.HandleSubmit: `Date.now() - null` with no start time is not modelled. `Valid` guarantees a started session has a start time.
- Scoring.IndexOf: `indexOf` at src/App.jsx:906 compares object references, while the model compares question values. The two agree when the session's ids are distinct, which `DrawQuestions` guarantees whenever the bank's ids are. Two identical entries in the session would both be numbered by the first.
- JavaScript numbers are modelled as unbounded integers. Every value in the core stays far below 2^53.
