/** Counting pages: how the number of pages moves with every change of the stack of levels. */
module Counting {
  import opened Pages

  /** The number of pages of the tree: the items of all levels above the rows. */
  ghost function Total(S: seq<seq<Entry>>): nat {
    if |S| <= 1 then 0 else Total(S[..|S| - 1]) + |S[|S| - 1]|
  }

  lemma {:induction false} TotalUpdate(S: seq<seq<Entry>>, k: nat, U: seq<Entry>)
    requires k < |S|
    ensures Total(S[k := U]) == Total(S) + if k == 0 then 0 else |U| - |S[k]|
  {
    if |S| > 1 {
      var n := |S| - 1;
      if k == n {
        assert S[k := U][..n] == S[..n];
      } else {
        assert S[k := U][..n] == S[..n][k := U];
        TotalUpdate(S[..n], k, U);
      }
    }
  }

  lemma TotalGrow(S: seq<seq<Entry>>, U: seq<Entry>)
    requires |S| >= 1
    ensures Total(S + [U]) == Total(S) + |U|
  {
    assert (S + [U])[..|S|] == S;
  }

  lemma TotalFresh(S: seq<seq<Entry>>)
    requires |S| == 2
    ensures Total(S) == |S[1]|
  {
    assert |S[..1]| == 1;
  }

  lemma TotalShrink(S: seq<seq<Entry>>)
    requires |S| >= 2
    ensures Total(S[..|S| - 1]) == Total(S) - |S[|S| - 1]|
  {
  }
}
