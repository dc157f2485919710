/** Question records of the bank and the shape of the answers the exam stores for them. */
module Questions {

  datatype Option<+T> = None | Some(value: T)

  type QuestionId = int

  /** One bank entry. Fields the question file may leave out are options:
      `code` is an optional snippet, and only one of `correctIndex` and
      `correctIndices` is meant to be present, selected by `multiSelect`. */
  datatype Question = Question(
    id: QuestionId,
    question: string,
    code: Option<string>,
    options: seq<string>,
    multiSelect: bool,
    correctIndex: Option<int>,
    correctIndices: Option<seq<int>>)

  /** What the answers object holds under a question id: the option chosen
      for a single-select question, or the list of options toggled on for a
      multi-select one. */
  datatype Answer = Single(index: int) | Multi(indices: seq<int>)

  type Answers = map<QuestionId, Answer>

  /** `answers[id]`, with `None` for undefined. */
  function Lookup(answers: Answers, id: QuestionId): Option<Answer>
  {
    if id in answers then Some(answers[id]) else None
  }

  /** The stored value when it is a list, and the empty list otherwise. */
  function ListAnswer(a: Option<Answer>): (r: seq<int>)
    ensures a.Some? && a.value.Multi? ==> r == a.value.indices
    ensures !(a.Some? && a.value.Multi?) ==> r == []
  {
    match a
    case Some(Multi(s)) => s
    case _ => []
  }

  predicate NoDup<T(==)>(s: seq<T>)
  {
    forall i, j :: 0 <= i < j < |s| ==> s[i] != s[j]
  }

  function Ids(qs: seq<Question>): set<QuestionId>
  {
    set q | q in qs :: q.id
  }

  function IdOf(q: Question): QuestionId
  {
    q.id
  }

  /** No two elements share a key. */
  predicate DistinctBy<T, K(==)>(s: seq<T>, key: T -> K)
  {
    forall i, j :: 0 <= i < j < |s| ==> key(s[i]) != key(s[j])
  }

  /** The invariant a bank entry is meant to satisfy: at least two options,
      and the active answer key (chosen by `multiSelect`) present, in range
      and, for a multi-select question, non-empty and free of repeats. */
  predicate WellFormed(q: Question)
  {
    && |q.options| >= 2
    && if q.multiSelect then
         && q.correctIndices.Some?
         && |q.correctIndices.value| > 0
         && NoDup(q.correctIndices.value)
         && forall k :: 0 <= k < |q.correctIndices.value| ==> 0 <= q.correctIndices.value[k] < |q.options|
       else
         && q.correctIndex.Some?
         && 0 <= q.correctIndex.value < |q.options|
  }
}
