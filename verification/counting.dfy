/** Counting the elements of a sequence that satisfy a predicate. */
module Counting {

  /** How many elements of `s` satisfy `p`, counted from the front. */
  function CountWhere<T>(s: seq<T>, p: T -> bool): (n: nat)
    ensures n <= |s|
  {
    if s == [] then 0
    else CountWhere(s[..|s| - 1], p) + (if p(s[|s| - 1]) then 1 else 0)
  }

  /** The positions in `s` of the elements that satisfy `p`. */
  ghost function PositionsWhere<T>(s: seq<T>, p: T -> bool): (positions: set<nat>) {
    set i: nat | i < |s| && p(s[i])
  }

  /** The count is the number of satisfying positions. */
  lemma {:induction false} CountIsPositions<T>(s: seq<T>, p: T -> bool)
    ensures CountWhere(s, p) == |PositionsWhere(s, p)|
  {
    if s != [] {
      var n := |s| - 1;
      var front := s[..n];
      CountIsPositions(front, p);
      var before := PositionsWhere(front, p);
      var after := PositionsWhere(s, p);
      assert after - {n} == before by {
        forall i: nat | i < n ensures (i in after <==> i in before) {
          assert front[i] == s[i];
        }
      }
      if p(s[n]) {
        assert after == before + {n};
      } else {
        assert after == before;
      }
    }
  }
}
