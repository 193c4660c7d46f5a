/** Counting facts used by the bounds in this project. */
module SetSizes {

  lemma Pick<A>(xs: set<A>) returns (x: A)
    requires xs != {}
    ensures x in xs
  {
    x :| x in xs;
  }

  /** An injection into a finite set bounds the size of its domain. */
  lemma {:induction false} InjectionBound<A, B>(xs: set<A>, ys: set<B>, f: A -> B)
    requires forall x | x in xs :: f(x) in ys
    requires forall x, x' | x in xs && x' in xs && f(x) == f(x') :: x == x'
    ensures |xs| <= |ys|
  {
    if xs != {} {
      var x :| x in xs;
      InjectionBound(xs - {x}, ys - {f(x)}, f);
    }
  }

  function Range(lo: int, hi: int): (s: set<int>)
    requires lo <= hi
    ensures |s| == hi - lo
    ensures forall i :: i in s <==> lo <= i < hi
    decreases hi - lo
  {
    if lo == hi then {} else {lo} + Range(lo + 1, hi)
  }

  lemma SubsetSize<A>(xs: set<A>, ys: set<A>)
    requires xs <= ys
    ensures |xs| <= |ys|
  {
    assert ys == xs + (ys - xs);
  }

  lemma UnionSize<A>(xs: set<A>, ys: set<A>)
    ensures |xs + ys| <= |xs| + |ys|
  {
    assert xs + ys == xs + (ys - xs);
    SubsetSize(ys - xs, ys);
  }

  predicate Distinct<T(==)>(xs: seq<T>) {
    forall i, j | 0 <= i < j < |xs| :: xs[i] != xs[j]
  }
}
