// Sums of real numbers, told by their running totals.
module Sums {

  ghost predicate RunningTotals(terms: seq<real>, totals: seq<real>) {
    && |totals| == |terms| + 1 && totals[0] == 0.0
    && forall i :: 0 <= i < |terms| ==> totals[i + 1] == totals[i] + terms[i]
  }

  ghost predicate IsSum(terms: seq<real>, total: real) {
    exists totals :: RunningTotals(terms, totals) && totals[|terms|] == total
  }

  lemma SumOfNone()
    ensures IsSum([], 0.0)
  {
    assert RunningTotals([], [0.0]);
  }

  lemma SumAppend(terms: seq<real>, x: real, total: real)
    requires IsSum(terms, total)
    ensures IsSum(terms + [x], total + x)
  {
    var totals :| RunningTotals(terms, totals) && totals[|terms|] == total;
    var more := totals + [total + x];
    forall i | 0 <= i < |terms + [x]|
      ensures more[i + 1] == more[i] + (terms + [x])[i]
    {
      assert i < |terms| ==> totals[i + 1] == totals[i] + terms[i];
    }
    assert RunningTotals(terms + [x], more);
  }

  // A sequence has one sum.
  lemma SumIsUnique(terms: seq<real>, a: real, b: real)
    requires IsSum(terms, a) && IsSum(terms, b)
    ensures a == b
  {
    var s :| RunningTotals(terms, s) && s[|terms|] == a;
    var t :| RunningTotals(terms, t) && t[|terms|] == b;
    TotalsAgree(terms, s, t, |terms|);
  }

  lemma {:induction false} TotalsAgree(terms: seq<real>, s: seq<real>, t: seq<real>, n: nat)
    requires RunningTotals(terms, s) && RunningTotals(terms, t) && n <= |terms|
    ensures s[n] == t[n]
  {
    if n > 0 {
      TotalsAgree(terms, s, t, n - 1);
      assert s[n - 1 + 1] == s[n - 1] + terms[n - 1] && t[n - 1 + 1] == t[n - 1] + terms[n - 1];
    }
  }
}
