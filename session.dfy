/** The exam-session controller: the state fields of the application
    component and the handlers that update them. The clock, the random source,
    the signed-in user and the confirmation dialog are parameters; the write
    to the backend is recorded as a save request. */
module ExamSession {

  import opened Questions
  import opened FisherYates
  import opened Clock
  import opened AnswerUpdate
  import opened Scoring

  const QUESTION_COUNT: int := 45
  const TEST_NAME: string := "Databricks Certified Associate Data Engineer Test"

  type UserId = string

  /** `Math.min(QUESTION_COUNT, questionBank.length)` */
  function TotalQuestions(bankSize: nat): (n: nat)
    ensures n <= bankSize && n <= QUESTION_COUNT
    ensures n == bankSize || n == QUESTION_COUNT
  {
    if QUESTION_COUNT < bankSize then QUESTION_COUNT else bankSize
  }

  /** `shuffle(questionBank).slice(0, totalQuestions)`: a session's questions
      are drawn from the bank without repeats. */
  function DrawQuestions(bank: seq<Question>, js: seq<int>): (r: seq<Question>)
    requires ValidChoices(|bank|, js)
    ensures |r| == TotalQuestions(|bank|)
    ensures multiset(r) <= multiset(bank)
    ensures DistinctBy(bank, IdOf) ==> DistinctBy(r, IdOf)
  {
    ShuffledPrefix(bank, js, TotalQuestions(|bank|), IdOf);
    Shuffled(bank, js)[..TotalQuestions(|bank|)]
  }

  /** `shuffle(questionBank).slice(0, totalQuestions)`, computed by the shuffle method. */
  method DrawSession(bank: seq<Question>, js: seq<int>) returns (drawn: seq<Question>)
    requires ValidChoices(|bank|, js)
    ensures drawn == DrawQuestions(bank, js)
  {
    var shuffled := Shuffle(bank, js);
    drawn := shuffled[..TotalQuestions(|bank|)];
  }

  /** A question as the results row stores it: `multiSelect` and
      `correctIndices` are not part of it. */
  datatype SavedQuestion = SavedQuestion(
    id: QuestionId,
    question: string,
    options: seq<string>,
    correctIndex: Option<int>,
    code: Option<string>)

  /** `q.code || null`: a missing or empty snippet is saved as null. */
  function SavedCode(code: Option<string>): (r: Option<string>)
    ensures r.Some? <==> code.Some? && code.value != ""
    ensures r.Some? ==> r == code
  {
    if code == Some("") then None else code
  }

  /** `selectedQuestions.map(q => ({ id, question, options, correctIndex, code }))` */
  function Snapshot(qs: seq<Question>): (r: seq<SavedQuestion>)
    ensures |r| == |qs|
    ensures forall i :: 0 <= i < |qs| ==>
              && r[i].id == qs[i].id
              && r[i].question == qs[i].question
              && r[i].options == qs[i].options
              && r[i].correctIndex == qs[i].correctIndex
              && r[i].code == SavedCode(qs[i].code)
  {
    if qs == [] then []
    else
      var q := qs[0];
      [SavedQuestion(q.id, q.question, q.options, q.correctIndex, SavedCode(q.code))] + Snapshot(qs[1..])
  }

  /** The row handed to the backend's insert. */
  datatype SaveRecord = SaveRecord(
    userId: UserId,
    testName: string,
    score: nat,
    totalQuestions: nat,
    timeTakenSeconds: int,
    answers: Answers,
    questions: seq<SavedQuestion>)

  /** The insert handleSubmit sends: the score of the session's answers, the
      number of questions, the elapsed seconds, the answers and the snapshot. */
  function SaveRow(userId: UserId, qs: seq<Question>, answers: Answers, timeTaken: int): (r: SaveRecord)
    ensures r.score == |FilterResults(qs, answers, Correct)|
    ensures r.totalQuestions == |qs| == |r.questions|
    ensures r.totalQuestions - r.score == |FilterResults(qs, answers, Wrong)|
    ensures forall i :: 0 <= i < |qs| ==> r.questions[i].id == qs[i].id
  {
    FilterPartition(qs, answers);
    SaveRecord(userId, TEST_NAME, Score(qs, answers), |qs|, timeTaken, answers, Snapshot(qs))
  }

  datatype Phase = NotStarted | InProgress | Submitted

  /** The invariant of the session state, over its field values. */
  ghost predicate ValidState(bank: seq<Question>, started: bool, submitted: bool, timeLeft: int, currentIndex: int,
                             answers: Answers, selectedQuestions: seq<Question>, testStartTime: Option<int>)
  {
    && 0 <= timeLeft <= TEST_DURATION_SECONDS
    && (submitted ==> started)
    && 0 <= currentIndex
    && (started && selectedQuestions != [] ==> currentIndex < |selectedQuestions|)
    && (started ==> testStartTime.Some?)
    && (started ==> |selectedQuestions| == TotalQuestions(|bank|))
    && (started ==> multiset(selectedQuestions) <= multiset(bank))
    && (started && DistinctBy(bank, IdOf) ==> DistinctBy(selectedQuestions, IdOf))
    && answers.Keys <= Ids(selectedQuestions)
    && (forall id :: id in answers && answers[id].Multi? ==> NoDup(answers[id].indices))
  }

  /** The state startTest sets up satisfies the invariant. */
  lemma StartStateValid(bank: seq<Question>, js: seq<int>, now: int)
    requires ValidChoices(|bank|, js)
    ensures ValidState(bank, true, false, TEST_DURATION_SECONDS, 0, map[], DrawQuestions(bank, js), Some(now))
  {
  }

  /** Marking a started session submitted keeps the invariant. */
  lemma SubmitKeepsValid(bank: seq<Question>, started: bool, submitted: bool, timeLeft: int, currentIndex: int,
                         answers: Answers, selectedQuestions: seq<Question>, testStartTime: Option<int>)
    requires ValidState(bank, started, submitted, timeLeft, currentIndex, answers, selectedQuestions, testStartTime)
    requires started
    ensures ValidState(bank, started, true, timeLeft, currentIndex, answers, selectedQuestions, testStartTime)
  {
  }

  class Session {
    /** The static question bank. */
    const bank: seq<Question>

    var started: bool
    var submitted: bool
    var timeLeft: int
    var currentIndex: int
    var answers: Answers
    var selectedQuestions: seq<Question>
    var testStartTime: Option<int>
    /** Every insert handleSubmit has asked the backend for, oldest first. */
    var saveRequests: seq<SaveRecord>

    ghost predicate Valid()
      reads this
    {
      ValidState(bank, started, submitted, timeLeft, currentIndex, answers, selectedQuestions, testStartTime)
    }

    /** The three states of a session, read off `started` and `submitted`. */
    function CurrentPhase(): Phase
      reads this
    {
      if !started then NotStarted else if submitted then Submitted else InProgress
    }

    constructor (bank: seq<Question>)
      ensures Valid() && this.bank == bank
      ensures !started && !submitted && timeLeft == TEST_DURATION_SECONDS && currentIndex == 0
      ensures answers == map[] && selectedQuestions == [] && testStartTime == None
      ensures saveRequests == []
    {
      this.bank := bank;
      started, submitted := false, false;
      timeLeft, currentIndex := TEST_DURATION_SECONDS, 0;
      answers, selectedQuestions := map[], [];
      testStartTime := None;
      saveRequests := [];
    }

    /** `startTest`, from Begin Test before a session or Virtual
        Participation Again after one, never during a test: without a
        signed-in user nothing happens; otherwise a fresh draw of questions
        and a full-length countdown. */
    method StartTest(user: Option<UserId>, js: seq<int>, now: int)
      requires Valid() && ValidChoices(|bank|, js)
      requires CurrentPhase() != InProgress
      modifies this`selectedQuestions, this`answers, this`currentIndex, this`timeLeft,
               this`submitted, this`started, this`testStartTime
      ensures Valid()
      ensures user.None? ==> unchanged(this)
      ensures user.Some? ==>
                && selectedQuestions == DrawQuestions(bank, js)
                && answers == map[] && currentIndex == 0
                && timeLeft == TEST_DURATION_SECONDS
                && !submitted && started && testStartTime == Some(now)
                && CurrentPhase() == InProgress
    {
      if user.Some? {
        var drawn := DrawSession(bank, js);
        StartStateValid(bank, js, now);
        // The setters run in one batch.
        selectedQuestions, answers, currentIndex, timeLeft := drawn, map[], 0, TEST_DURATION_SECONDS;
        submitted, started, testStartTime := false, true, Some(now);
      }
    }

    /** `handleSelect`, called from an option of the question on screen in
        the test view. */
    method HandleSelect(questionId: QuestionId, optionIndex: int, isMulti: bool)
      requires Valid() && CurrentPhase() == InProgress && questionId in Ids(selectedQuestions)
      modifies this`answers
      ensures Valid()
      ensures answers == Select(old(answers), questionId, optionIndex, isMulti)
    {
      answers := Select(answers, questionId, optionIndex, isMulti);
    }

    /** One firing of the countdown interval. */
    method Tick()
      requires Valid()
      modifies this`timeLeft, this`submitted
      ensures Valid()
      ensures Countdown(started, submitted, timeLeft) == Step(old(Countdown(started, submitted, timeLeft)))
      ensures old(CurrentPhase()) == InProgress ==> CurrentPhase() in {InProgress, Submitted}
      ensures old(CurrentPhase()) != InProgress ==> CurrentPhase() == old(CurrentPhase())
    {
      if started && !submitted {
        if timeLeft <= 1 {
          submitted := true;
          timeLeft := 0;
        } else {
          timeLeft := timeLeft - 1;
        }
      }
    }

    /** The Previous button of the test view: one question back, never below the first. */
    method Previous()
      requires Valid() && CurrentPhase() == InProgress
      modifies this`currentIndex
      ensures Valid()
      ensures currentIndex == if old(currentIndex) > 0 then old(currentIndex) - 1 else 0
    {
      currentIndex := if currentIndex - 1 > 0 then currentIndex - 1 else 0;
    }

    /** The Next button of the test view, shown under the question on screen:
        one question on, never past the last. */
    method Next()
      requires Valid() && CurrentPhase() == InProgress && currentIndex < |selectedQuestions|
      modifies this`currentIndex
      ensures Valid()
      ensures 0 <= currentIndex < |selectedQuestions|
      ensures currentIndex == if old(currentIndex) + 1 < |selectedQuestions| then old(currentIndex) + 1
                              else |selectedQuestions| - 1
    {
      var last := |selectedQuestions| - 1;
      currentIndex := if currentIndex + 1 < last then currentIndex + 1 else last;
    }

    /** A button of the test view's problem bar: straight to the question it labels. */
    method Jump(idx: int)
      requires Valid() && CurrentPhase() == InProgress && 0 <= idx < |selectedQuestions|
      modifies this`currentIndex
      ensures Valid() && currentIndex == idx
    {
      currentIndex := idx;
    }

    /** `handleSubmit`, from the Submit All button of a started session. It
        marks the session submitted and asks for one insert per call; it has
        no guard against a second call. Without a user, reading `user.id`
        throws inside the try block and no insert is made. */
    method HandleSubmit(user: Option<UserId>, now: int)
      requires Valid() && started
      modifies this`submitted, this`saveRequests
      ensures Valid() && submitted && CurrentPhase() == Submitted
      ensures saveRequests == old(saveRequests) +
                if user.Some? then [SaveRow(user.value, selectedQuestions, answers, TimeTakenSeconds(now, testStartTime.value))]
                else []
      ensures user.Some? ==> saveRequests[|saveRequests| - 1].score == DisplayedScore()
    {
      SubmitKeepsValid(bank, started, submitted, timeLeft, currentIndex, answers, selectedQuestions, testStartTime);
      submitted := true;
      var timeTaken := TimeTakenSeconds(now, testStartTime.value);
      if user.Some? {
        saveRequests := saveRequests + [SaveRow(user.value, selectedQuestions, answers, timeTaken)];
      }
    }

    /** `handleRestart`, from the End Test button of a started session's
        header: when the confirmation dialog answers yes, back to the state
        before any test; otherwise nothing changes. */
    method HandleRestart(confirmed: bool)
      requires Valid() && started
      modifies this`started, this`submitted, this`answers, this`selectedQuestions,
               this`timeLeft, this`currentIndex, this`testStartTime
      ensures Valid()
      ensures !confirmed ==> unchanged(this)
      ensures confirmed ==>
                && !started && !submitted && answers == map[] && selectedQuestions == []
                && timeLeft == TEST_DURATION_SECONDS && currentIndex == 0 && testStartTime == None
                && CurrentPhase() == NotStarted
    {
      if confirmed {
        started := false;
        submitted := false;
        answers := map[];
        selectedQuestions := [];
        timeLeft := TEST_DURATION_SECONDS;
        currentIndex := 0;
        testStartTime := None;
      }
    }

    /** `handleLogout`, from the Logout button of the header shown outside a
        session, after the sign-out call returns; the time left, the cursor
        and the start time are left as they were. */
    method HandleLogout()
      requires Valid() && !started
      modifies this`started, this`submitted, this`answers, this`selectedQuestions
      ensures Valid()
      ensures !started && !submitted && answers == map[] && selectedQuestions == []
      ensures CurrentPhase() == NotStarted
    {
      started := false;
      submitted := false;
      answers := map[];
      selectedQuestions := [];
    }

    /** The score on the results page: the reduce once submitted, 0 before. */
    function DisplayedScore(): (r: nat)
      reads this
      ensures r <= |selectedQuestions|
      ensures submitted ==> r == |FilterResults(selectedQuestions, answers, Correct)|
      ensures !submitted ==> r == 0
    {
      FilterPartition(selectedQuestions, answers);
      if submitted then Score(selectedQuestions, answers) else 0
    }

    /** The number in a filter button's label: `All (n)`, `Wrong (n)`,
        `Correct (n)`. Once submitted it is the length of that filter's list. */
    function FilterLabelCount(f: ResultFilter): (n: int)
      reads this
      ensures submitted ==> n == |FilterResults(selectedQuestions, answers, f)|
      ensures n >= 0
    {
      FilterPartition(selectedQuestions, answers);
      match f
      case All => |selectedQuestions|
      case Wrong => |selectedQuestions| - DisplayedScore()
      case Correct => DisplayedScore()
    }
  }
}
