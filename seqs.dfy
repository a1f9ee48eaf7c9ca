/** Facts about lists of ids shared by the graph modules. */
module Seqs {

  /** No id appears twice. */
  predicate Distinct(s: seq<string>) {
    forall i, j :: 0 <= i < j < |s| ==> s[i] != s[j]
  }

  /**
   * The ids of `ids`, each once, in the order of their first occurrence:
   * the key order of a `Map` or `Set` filled from `ids`, where setting a
   * key again keeps its first position.
   */
  function FirstOccurrences(ids: seq<string>): (r: seq<string>)
    ensures forall id :: id in r <==> id in ids
    ensures Distinct(r)
  {
    if ids == [] then []
    else
      var prefix := FirstOccurrences(ids[..|ids| - 1]);
      if ids[|ids| - 1] in prefix then prefix else prefix + [ids[|ids| - 1]]
  }

  lemma DistinctAppend(s: seq<string>, x: string)
    requires Distinct(s) && x !in s
    ensures Distinct(s + [x])
  {
    forall i, j | 0 <= i < j < |s + [x]|
      ensures (s + [x])[i] != (s + [x])[j]
    {
      assert (s + [x])[i] == s[i];
    }
  }

  lemma FirstOccurrencesAppend(ids: seq<string>, x: string)
    ensures FirstOccurrences(ids + [x])
         == if x in FirstOccurrences(ids) then FirstOccurrences(ids) else FirstOccurrences(ids) + [x]
  {
    assert (ids + [x])[..|ids|] == ids;
  }

  lemma {:induction false} FirstOccurrencesShorter(ids: seq<string>)
    ensures |FirstOccurrences(ids)| <= |ids|
  {
    if ids != [] {
      FirstOccurrencesShorter(ids[..|ids| - 1]);
    }
  }

  /** In a sequence without repeats, a member occurs exactly once. */
  lemma {:induction false} DistinctOnce(s: seq<string>, x: string)
    requires Distinct(s) && x in s
    ensures multiset(s)[x] == 1
  {
    var last := s[|s| - 1];
    var front := s[..|s| - 1];
    assert s == front + [last];
    assert Distinct(front) by {
      forall i, j | 0 <= i < j < |front|
        ensures front[i] != front[j]
      {
        assert front[i] == s[i] && front[j] == s[j];
      }
    }
    if last == x {
      assert x !in front by {
        forall i | 0 <= i < |front|
          ensures front[i] != x
        {
          assert front[i] == s[i];
        }
      }
    } else {
      DistinctOnce(front, x);
    }
  }
}
