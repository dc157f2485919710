/** The scoring rule, the score it sums to and the review built on it.
    The application writes the rule out four times (the reduce in
    handleSubmit, the reduce behind the displayed score, the review filter and
    the verdict of each review row); here it is defined once, and `Reduce`,
    `Shows` and `ReviewRows` all call `IsCorrect`. */
module Scoring {

  import opened Questions
  import opened AnswerUpdate

  /** `selected.every((value) => correct.includes(value))` */
  predicate AllIn(selected: seq<int>, correct: seq<int>)
  {
    forall k :: 0 <= k < |selected| ==> selected[k] in correct
  }

  /** `answers[question.id] === question.correctIndex`: a stored number equals a
      present key; a stored list equals nothing; undefined equals undefined. */
  predicate StrictEquals(a: Option<Answer>, c: Option<int>)
  {
    match a
    case None => c.None?
    case Some(Single(v)) => c == Some(v)
    case Some(Multi(_)) => false
  }

  /** `question.multiSelect && Array.isArray(question.correctIndices)` */
  predicate UsesListRule(q: Question)
  {
    q.multiSelect && q.correctIndices.Some?
  }

  /** Whether question q counts as answered correctly. */
  predicate IsCorrect(q: Question, answers: Answers)
    ensures IsCorrect(q, answers) && UsesListRule(q) ==>
              |ListAnswer(Lookup(answers, q.id))| == |q.correctIndices.value| &&
              Elements(ListAnswer(Lookup(answers, q.id))) <= Elements(q.correctIndices.value)
    ensures !UsesListRule(q) ==>
              (IsCorrect(q, answers) <==>
                 Lookup(answers, q.id) == if q.correctIndex.Some? then Some(Single(q.correctIndex.value)) else None)
  {
    if UsesListRule(q) then
      var selected := ListAnswer(Lookup(answers, q.id));
      |selected| == |q.correctIndices.value| && AllIn(selected, q.correctIndices.value)
    else
      StrictEquals(Lookup(answers, q.id), q.correctIndex)
  }

  /** `qs.reduce((total, q) => IsCorrect(q) ? total + 1 : total, total)` */
  function Reduce(qs: seq<Question>, answers: Answers, total: nat): (r: nat)
    ensures total <= r <= total + |qs|
  {
    if qs == [] then total
    else Reduce(qs[1..], answers, if IsCorrect(qs[0], answers) then total + 1 else total)
  }

  /** The test score: the reduce started at 0. */
  function Score(qs: seq<Question>, answers: Answers): (r: nat)
    ensures r <= |qs|
  {
    Reduce(qs, answers, 0)
  }

  /** The three review views of the results page. */
  datatype ResultFilter = All | Wrong | Correct

  /** The review filter's predicate for one question. */
  predicate Shows(f: ResultFilter, q: Question, answers: Answers)
    ensures f == All ==> Shows(f, q, answers)
    ensures f != All ==> (Shows(f, q, answers) <==> (f == Correct) == IsCorrect(q, answers))
  {
    match f
    case Wrong => !IsCorrect(q, answers)
    case Correct => IsCorrect(q, answers)
    case All => true
  }

  /** `selectedQuestions.filter(...)` for the chosen view, in the session's order. */
  function FilterResults(qs: seq<Question>, answers: Answers, f: ResultFilter): (r: seq<Question>)
    ensures |r| <= |qs|
    ensures forall q :: q in r <==> q in qs && Shows(f, q, answers)
  {
    if qs == [] then []
    else (if Shows(f, qs[0], answers) then [qs[0]] else []) + FilterResults(qs[1..], answers, f)
  }

  /** `selectedQuestions.indexOf(question)`: the first position holding x, or -1. */
  function IndexOf(qs: seq<Question>, x: Question): (i: int)
    ensures -1 <= i < |qs|
    ensures i >= 0 ==> qs[i] == x && forall k :: 0 <= k < i ==> qs[k] != x
    ensures i == -1 ==> x !in qs
  {
    if qs == [] then -1
    else if qs[0] == x then 0
    else
      var k := IndexOf(qs[1..], x);
      if k == -1 then -1 else k + 1
  }

  /** One row of the review list: the `#n` label, the question and whether
      its verdict reads Accepted or Wrong Answer. */
  datatype ReviewRow = ReviewRow(number: int, question: Question, accepted: bool)

  /** The rows the results page renders for a view: each shown question with
      its position in the session (`indexOf + 1`) and its own verdict. */
  function ReviewRows(qs: seq<Question>, answers: Answers, f: ResultFilter): (r: seq<ReviewRow>)
    ensures |r| == |FilterResults(qs, answers, f)|
    ensures forall i :: 0 <= i < |r| ==>
              && r[i].question == FilterResults(qs, answers, f)[i]
              && 1 <= r[i].number <= |qs| && qs[r[i].number - 1] == r[i].question
              && r[i].accepted == IsCorrect(r[i].question, answers)
    ensures DistinctBy(qs, IdOf) ==>
              forall i, k :: 0 <= i < |r| && 0 <= k < |qs| && qs[k] == r[i].question ==> k == r[i].number - 1
  {
    var shown := FilterResults(qs, answers, f);
    seq(|shown|, i requires 0 <= i < |shown| =>
      assert shown[i] in shown;
      ReviewRow(IndexOf(qs, shown[i]) + 1, shown[i], IsCorrect(shown[i], answers)))
  }

  /** With distinct ids, the All view numbers its rows 1, 2, 3, ... in order:
      each `#n` is the row's own position in the session. */
  lemma ReviewNumbersArePositions(qs: seq<Question>, answers: Answers)
    requires DistinctBy(qs, IdOf)
    ensures forall i :: 0 <= i < |ReviewRows(qs, answers, All)| ==> ReviewRows(qs, answers, All)[i].number == i + 1
  {
    FilterAllIsWhole(qs, answers);
  }

  /** In the Correct view every row reads Accepted, in the Wrong view none
      does: the row verdict and the filter apply the same rule. */
  lemma ReviewVerdicts(qs: seq<Question>, answers: Answers, f: ResultFilter)
    ensures f == Correct ==> forall i :: 0 <= i < |ReviewRows(qs, answers, f)| ==> ReviewRows(qs, answers, f)[i].accepted
    ensures f == Wrong ==> forall i :: 0 <= i < |ReviewRows(qs, answers, f)| ==> !ReviewRows(qs, answers, f)[i].accepted
  {
    var rows, shown := ReviewRows(qs, answers, f), FilterResults(qs, answers, f);
    forall i | 0 <= i < |rows| ensures Shows(f, rows[i].question, answers) {
      assert rows[i].question == shown[i] && shown[i] in shown;
    }
  }

  /** The reduce adds one per question the Correct view shows. */
  lemma {:induction false} ReduceCountsCorrect(qs: seq<Question>, answers: Answers, total: nat)
    ensures Reduce(qs, answers, total) == total + |FilterResults(qs, answers, Correct)|
  {
    if qs != [] {
      ReduceCountsCorrect(qs[1..], answers, if IsCorrect(qs[0], answers) then total + 1 else total);
    }
  }

  lemma {:induction false} FilterAllIsWhole(qs: seq<Question>, answers: Answers)
    ensures FilterResults(qs, answers, All) == qs
  {
    if qs != [] {
      FilterAllIsWhole(qs[1..], answers);
    }
  }

  /** One step of the filter: the head is kept exactly when the view shows it. */
  lemma FilterCons(qs: seq<Question>, answers: Answers, f: ResultFilter)
    requires qs != []
    ensures FilterResults(qs, answers, f) ==
              (if Shows(f, qs[0], answers) then [qs[0]] else []) + FilterResults(qs[1..], answers, f)
  {
  }

  lemma UnionRegroup<T>(a: multiset<T>, b: multiset<T>, x: multiset<T>)
    ensures a + (x + b) == x + (a + b)
    ensures (x + a) + b == x + (a + b)
  {
  }

  lemma {:induction false} FilterSplit(qs: seq<Question>, answers: Answers)
    ensures multiset(FilterResults(qs, answers, Wrong)) + multiset(FilterResults(qs, answers, Correct)) == multiset(qs)
  {
    if qs != [] {
      var q, rest := qs[0], qs[1..];
      var w, c := FilterResults(rest, answers, Wrong), FilterResults(rest, answers, Correct);
      assert multiset(w) + multiset(c) == multiset(rest) by {
        FilterSplit(rest, answers);
      }
      assert multiset(qs) == multiset{q} + multiset(rest) by {
        assert qs == [q] + rest;
      }
      FilterCons(qs, answers, Wrong);
      FilterCons(qs, answers, Correct);
      if IsCorrect(q, answers) {
        assert multiset(FilterResults(qs, answers, Correct)) == multiset{q} + multiset(c);
        assert FilterResults(qs, answers, Wrong) == w;
        UnionRegroup(multiset(w), multiset(c), multiset{q});
      } else {
        assert multiset(FilterResults(qs, answers, Wrong)) == multiset{q} + multiset(w);
        assert FilterResults(qs, answers, Correct) == c;
        UnionRegroup(multiset(w), multiset(c), multiset{q});
      }
    }
  }

  /** The Wrong and Correct views split the session: together they hold every
      question exactly as often as All does, they share none, All is the whole
      list, and the view sizes are the counts shown on the filter buttons. */
  lemma FilterPartition(qs: seq<Question>, answers: Answers)
    ensures FilterResults(qs, answers, All) == qs
    ensures multiset(FilterResults(qs, answers, Wrong)) + multiset(FilterResults(qs, answers, Correct)) == multiset(qs)
    ensures multiset(FilterResults(qs, answers, Wrong)) !! multiset(FilterResults(qs, answers, Correct))
    ensures |FilterResults(qs, answers, Correct)| == Score(qs, answers)
    ensures |FilterResults(qs, answers, Wrong)| == |qs| - Score(qs, answers)
  {
    var w, c := FilterResults(qs, answers, Wrong), FilterResults(qs, answers, Correct);
    FilterAllIsWhole(qs, answers);
    FilterSplit(qs, answers);
    ReduceCountsCorrect(qs, answers, 0);
    assert |multiset(w)| + |multiset(c)| == |multiset(qs)|;
    forall q | q in multiset(w) ensures q !in multiset(c) {
      assert q in w;
    }
  }

  /** A question without an answer counts exactly when its answer key is
      missing too: an empty correct list under the list rule, an absent
      correctIndex otherwise. */
  lemma UnansweredRule(q: Question, answers: Answers)
    requires q.id !in answers
    ensures IsCorrect(q, answers) <==>
              if UsesListRule(q) then q.correctIndices.value == [] else q.correctIndex.None?
  {
  }

  /** For a well-formed bank entry, an unanswered question scores 0. */
  lemma UnansweredIsWrong(q: Question, answers: Answers)
    requires WellFormed(q) && q.id !in answers
    ensures !IsCorrect(q, answers)
  {
    UnansweredRule(q, answers);
  }

  /** Under the single-select rule a stored index is correct exactly when it is correctIndex. */
  lemma SingleRule(q: Question, answers: Answers, v: int)
    requires !UsesListRule(q) && Lookup(answers, q.id) == Some(Single(v))
    ensures IsCorrect(q, answers) <==> q.correctIndex == Some(v)
  {
  }

  function Elements(s: seq<int>): set<int>
  {
    set x | x in s
  }

  lemma ElementsCons(s: seq<int>)
    requires s != []
    ensures Elements(s) == {s[0]} + Elements(s[1..])
  {
    assert s == [s[0]] + s[1..];
  }

  lemma NoDupCons(s: seq<int>)
    requires s != []
    ensures NoDup(s) <==> s[0] !in s[1..] && NoDup(s[1..])
  {
    var t := s[1..];
    if s[0] in t {
      var k :| 0 <= k < |t| && t[k] == s[0];
      assert s[0] == s[k + 1];
    }
    if NoDup(s) {
      forall i, j | 0 <= i < j < |t| ensures t[i] != t[j] {
        assert t[i] == s[i + 1] && t[j] == s[j + 1];
      }
    }
    if s[0] !in t && NoDup(t) {
      assert s == [s[0]] + t;
      ConsNoDup(s[0], t);
    }
  }

  lemma {:induction false} ElementsSize(s: seq<int>)
    ensures |Elements(s)| <= |s|
    ensures NoDup(s) <==> |Elements(s)| == |s|
  {
    if s != [] {
      ElementsSize(s[1..]);
      ElementsCons(s);
      NoDupCons(s);
      if s[0] in s[1..] {
        assert Elements(s) == Elements(s[1..]);
      }
    }
  }

  /** With a repeat-free stored list and a repeat-free key, the length check
      plus `every`/`includes` is exactly set equality: neither the order of the
      toggles nor of the key matters. */
  lemma ListRuleIsSetEquality(q: Question, answers: Answers)
    requires UsesListRule(q) && NoDup(q.correctIndices.value)
    requires NoDup(ListAnswer(Lookup(answers, q.id)))
    ensures IsCorrect(q, answers) <==>
              Elements(ListAnswer(Lookup(answers, q.id))) == Elements(q.correctIndices.value)
  {
    var s := ListAnswer(Lookup(answers, q.id));
    var c := q.correctIndices.value;
    ElementsSize(s);
    ElementsSize(c);
    if IsCorrect(q, answers) {
      assert Elements(s) <= Elements(c);
      assert |Elements(s)| == |Elements(c)|;
      assert Elements(c) - Elements(s) == {} by {
        assert |Elements(c) - Elements(s)| == |Elements(c)| - |Elements(s)|;
      }
    }
    if Elements(s) == Elements(c) {
      forall k | 0 <= k < |s| ensures s[k] in c {
        assert s[k] in Elements(s);
      }
    }
  }

  /** Under the list rule only how often each index is stored matters. */
  lemma ListRuleByMultiset(q: Question, answers: Answers, answers': Answers)
    requires UsesListRule(q)
    requires multiset(ListAnswer(Lookup(answers, q.id))) == multiset(ListAnswer(Lookup(answers', q.id)))
    ensures IsCorrect(q, answers) == IsCorrect(q, answers')
  {
    var s, s' := ListAnswer(Lookup(answers, q.id)), ListAnswer(Lookup(answers', q.id));
    assert |s| == |multiset(s)| && |s'| == |multiset(s')|;
    var c := q.correctIndices.value;
    if AllIn(s, c) {
      forall k | 0 <= k < |s'| ensures s'[k] in c {
        assert s'[k] in multiset(s');
        assert s'[k] in multiset(s);
      }
    }
    if AllIn(s', c) {
      forall k | 0 <= k < |s| ensures s[k] in c {
        assert s[k] in multiset(s);
        assert s[k] in multiset(s');
      }
    }
  }

  /** Clicking the same option of a multi-select question twice never changes
      whether that question is correct, whatever order the list ends up in. */
  lemma SelectTwiceKeepsCorrectness(q: Question, answers: Answers, x: int)
    requires UsesListRule(q)
    requires NoDup(ListAnswer(Lookup(answers, q.id)))
    ensures IsCorrect(q, Select(Select(answers, q.id, x, true), q.id, x, true)) == IsCorrect(q, answers)
  {
    SelectTwice(answers, q.id, x);
    ListRuleByMultiset(q, answers, Select(Select(answers, q.id, x, true), q.id, x, true));
  }
}
