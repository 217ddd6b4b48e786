/** Sequences of different numbers, and how many of them fit below a bound. */
module Distinct {
  import opened Words

  predicate NoDuplicates(s: seq<u32>) {
    forall i, j :: 0 <= i < j < |s| ==> s[i] != s[j]
  }

  lemma {:induction false} DistinctIndicesFit(s: seq<u32>, n: nat)
    requires NoDuplicates(s) && forall k :: 0 <= k < |s| ==> s[k] < n
    ensures |s| <= n
  {
    if |s| == 0 {
    } else {
      assert s[0] < n;
      if last :| 0 <= last < |s| && s[last] == n - 1 {
        var rest := s[..last] + s[last + 1..];
        assert forall k :: 0 <= k < |rest| ==> rest[k] == s[if k < last then k else k + 1];
        DistinctIndicesFit(rest, n - 1);
      } else {
        DistinctIndicesFit(s, n - 1);
      }
    }
  }
}
