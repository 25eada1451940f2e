/** Cardinalities of finite sets. */
module FiniteSets {
  lemma SubsetSize<A>(a: set<A>, b: set<A>)
    requires a <= b
    ensures |a| <= |b|
  {
    assert b == a + (b - a);
  }

  /** The n numbers from lo on. */
  function Range(lo: nat, n: nat): set<nat> { if n == 0 then {} else Range(lo, n - 1) + {lo + n - 1} }

  lemma {:induction false} RangeFacts(lo: nat, n: nat)
    ensures |Range(lo, n)| == n && forall i :: i in Range(lo, n) <==> lo <= i < lo + n
  {
    if n > 0 { RangeFacts(lo, n - 1); }
  }

  lemma Least(s: set<nat>) returns (p: nat)
    requires s != {}
    ensures p in s && forall i <- s :: p <= i
    decreases |s|
  {
    p :| p in s;
    var rest := s - {p};
    if rest != {} {
      var q := Least(rest);
      assert forall i <- s :: i == p || i in rest;
      if q < p { p := q; }
    }
  }
}
