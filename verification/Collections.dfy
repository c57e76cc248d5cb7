/** First occurrences, as an insertion-ordered dictionary keeps them. */
module Collections {

  /** Each element once, where it first occurs. */
  function FirstOccurrences<T(==)>(s: seq<T>): seq<T> {
    if s == [] then []
    else
      var init := FirstOccurrences(s[..|s| - 1]);
      if s[|s| - 1] in init then init else init + [s[|s| - 1]]
  }

  ghost predicate NoDuplicates<T>(s: seq<T>) {
    forall i, j :: 0 <= i < j < |s| ==> s[i] != s[j]
  }

  lemma {:induction false} FirstOccurrencesExact<T>(s: seq<T>)
    ensures NoDuplicates(FirstOccurrences(s))
    ensures forall x :: x in FirstOccurrences(s) <==> x in s
  {
    if s != [] {
      FirstOccurrencesExact(s[..|s| - 1]);
      assert s == s[..|s| - 1] + [s[|s| - 1]];
    }
  }

  lemma {:induction false} AlreadyDistinct<T>(s: seq<T>)
    requires NoDuplicates(s)
    ensures FirstOccurrences(s) == s
  {
    if s != [] {
      AlreadyDistinct(s[..|s| - 1]);
      assert s == s[..|s| - 1] + [s[|s| - 1]];
    }
  }

  lemma {:induction false} DistinctCount<T>(s: seq<T>, x: T)
    requires NoDuplicates(s)
    ensures multiset(s)[x] <= 1
  {
    if s != [] {
      var init := s[..|s| - 1];
      assert s == init + [s[|s| - 1]];
      DistinctCount(init, x);
    }
  }

  /** Distinct elements of a list form part of it. */
  lemma DistinctIncluded<T>(part: seq<T>, whole: seq<T>)
    requires NoDuplicates(part) && forall x :: x in part ==> x in whole
    ensures multiset(part) <= multiset(whole)
  {
    forall x
      ensures multiset(part)[x] <= multiset(whole)[x]
    {
      DistinctCount(part, x);
      if x in part {
        assert x in multiset(whole);
      }
    }
  }
}
