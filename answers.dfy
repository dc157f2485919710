/** The next value of the answers object after an option is clicked
    (`handleSelect`). The handler builds the new list and the new object
    without mutating the old ones, so the model is a pair of functions. */
module AnswerUpdate {

  import opened Questions

  /** `existing.filter((value) => value !== x)`: drops every copy of x, keeping order. */
  function Without(s: seq<int>, x: int): (r: seq<int>)
    ensures forall y :: y in r <==> y in s && y != x
    ensures multiset(r) == multiset(s)[x := 0]
    ensures NoDup(s) ==> NoDup(r)
  {
    if s == [] then []
    else
      assert s == [s[0]] + s[1..];
      var rest := Without(s[1..], x);
      if s[0] == x then rest
      else
        assert NoDup(s) ==> NoDup([s[0]] + rest) by {
          if NoDup(s) {
            assert s[0] !in s[1..];
            ConsNoDup(s[0], rest);
          }
        }
        [s[0]] + rest
  }

  lemma ConsNoDup(x: int, s: seq<int>)
    requires x !in s && NoDup(s)
    ensures NoDup([x] + s)
  {
    var r := [x] + s;
    forall i, j | 0 <= i < j < |r|
      ensures r[i] != r[j]
    {
      if i == 0 {
        assert r[j] == s[j - 1];
      } else {
        assert r[i] == s[i - 1] && r[j] == s[j - 1];
      }
    }
  }

  lemma SnocNoDup(s: seq<int>, x: int)
    requires x !in s && NoDup(s)
    ensures NoDup(s + [x])
  {
    var r := s + [x];
    forall i, j | 0 <= i < j < |r|
      ensures r[i] != r[j]
    {
      assert r[i] == s[i];
      if j == |s| {
        assert r[i] in s;
      }
    }
  }

  /** The multi-select branch: remove the index when it is there, append it when it is not. */
  function Toggle(existing: seq<int>, x: int): (r: seq<int>)
    ensures x in r <==> x !in existing
    ensures forall y :: y != x ==> (y in r <==> y in existing)
    ensures NoDup(existing) ==> NoDup(r)
  {
    if x in existing then Without(existing, x)
    else
      assert NoDup(existing) ==> NoDup(existing + [x]) by {
        if NoDup(existing) { SnocNoDup(existing, x); }
      }
      existing + [x]
  }

  /** `handleSelect(questionId, optionIndex, isMulti)` applied to the previous answers. */
  function Select(answers: Answers, id: QuestionId, optionIndex: int, isMulti: bool): (r: Answers)
    ensures r.Keys == answers.Keys + {id}
    ensures forall k :: k in answers && k != id ==> r[k] == answers[k]
    ensures !isMulti ==> r[id] == Single(optionIndex)
    ensures isMulti ==> (r[id].Multi? &&
              forall y :: y in r[id].indices <==> ((y in ListAnswer(Lookup(answers, id))) != (y == optionIndex)))
    ensures isMulti && NoDup(ListAnswer(Lookup(answers, id))) ==> NoDup(r[id].indices)
  {
    if isMulti then
      answers[id := Multi(Toggle(ListAnswer(Lookup(answers, id)), optionIndex))]
    else
      answers[id := Single(optionIndex)]
  }

  lemma {:induction false} WithoutAbsent(s: seq<int>, x: int)
    requires x !in s
    ensures Without(s, x) == s
  {
    if s != [] {
      WithoutAbsent(s[1..], x);
    }
  }

  lemma {:induction false} WithoutAppended(s: seq<int>, x: int)
    ensures Without(s + [x], x) == Without(s, x)
  {
    if s == [] {
      assert [x][1..] == [];
    } else {
      assert (s + [x])[1..] == s[1..] + [x];
      WithoutAppended(s[1..], x);
    }
  }

  /** Toggling an index that is absent and then toggling it again gives back the very same list. */
  lemma ToggleTwiceAbsent(s: seq<int>, x: int)
    requires x !in s
    ensures Toggle(Toggle(s, x), x) == s
  {
    WithoutAppended(s, x);
    WithoutAbsent(s, x);
  }

  lemma NoDupCount(s: seq<int>, x: int)
    requires NoDup(s) && x in s
    ensures multiset(s)[x] == 1
  {
    var i :| 0 <= i < |s| && s[i] == x;
    assert s == s[..i] + [x] + s[i + 1..];
    assert x !in s[..i] by {
      forall k | 0 <= k < i ensures s[k] != x { }
    }
    assert x !in s[i + 1..] by {
      forall k | i + 1 <= k < |s| ensures s[k] != x { }
    }
  }

  /** Toggling twice always gives back the same options (on a repeat-free list,
      the same multiset); an index that was present comes back at the end, so the
      order can change. */
  lemma ToggleTwice(s: seq<int>, x: int)
    requires NoDup(s)
    ensures multiset(Toggle(Toggle(s, x), x)) == multiset(s)
    ensures |Toggle(Toggle(s, x), x)| == |s|
    ensures forall y :: y in Toggle(Toggle(s, x), x) <==> y in s
  {
    if x in s {
      NoDupCount(s, x);
      var w := Without(s, x);
      assert Toggle(Toggle(s, x), x) == w + [x];
      assert multiset(w + [x]) == multiset(s);
    } else {
      ToggleTwiceAbsent(s, x);
    }
  }

  /** The order change is real: toggling 1 twice on [1, 2] gives [2, 1]. */
  lemma ToggleTwiceReorders()
    ensures Toggle(Toggle([1, 2], 1), 1) == [2, 1]
  {
    assert Without([1, 2], 1) == [2] by {
      assert [1, 2][1..] == [2];
      assert [2][1..] == [];
    }
  }

  /** Selecting the same option twice on a multi-select question leaves the
      entries of every other question as they were and the same options chosen. */
  lemma SelectTwice(answers: Answers, id: QuestionId, x: int)
    requires NoDup(ListAnswer(Lookup(answers, id)))
    ensures var r := Select(Select(answers, id, x, true), id, x, true);
            && r.Keys == answers.Keys + {id}
            && (forall k :: k in answers && k != id ==> r[k] == answers[k])
            && r[id].Multi?
            && multiset(r[id].indices) == multiset(ListAnswer(Lookup(answers, id)))
  {
    var s := ListAnswer(Lookup(answers, id));
    ToggleTwice(s, x);
    var once := Select(answers, id, x, true);
    assert ListAnswer(Lookup(once, id)) == Toggle(s, x);
  }
}
