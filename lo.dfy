/** Observable behaviour of the two helpers of the samber/lo library that the
    request inspector uses. Only what a caller can see is modelled: the result
    of a query over a slice, not the library's implementation. */
module Lo {

  /** lo.ContainsBy: whether some element of the collection satisfies the
      predicate. The library scans front to back and stops at the first hit;
      since the predicate has no side effects, the answer is all there is. */
  function ContainsBy<T>(xs: seq<T>, pred: T -> bool): (r: bool)
    ensures r <==> exists i :: 0 <= i < |xs| && pred(xs[i])
  {
    if |xs| == 0 then false
    else if pred(xs[0]) then true
    else
      var rest := ContainsBy(xs[1..], pred);
      assert rest ==> exists i :: 0 <= i < |xs| && pred(xs[i]) by {
        if rest {
          var j :| 0 <= j < |xs[1..]| && pred(xs[1..][j]);
          assert pred(xs[j + 1]);
        }
      }
      assert (exists i :: 0 <= i < |xs| && pred(xs[i])) ==> rest by {
        if i :| 0 <= i < |xs| && pred(xs[i]) {
          assert i != 0;
          assert pred(xs[1..][i - 1]);
        }
      }
      rest
  }

  /** lo.First: the first element with `true`, or the zero value of the element
      type with `false` when the collection is empty (Go has zero values, Dafny
      does not, so the zero value is passed in). */
  function First<T>(xs: seq<T>, zero: T): (r: (T, bool))
    ensures r.1 <==> |xs| > 0
    ensures r.1 ==> r.0 == xs[0]
    ensures !r.1 ==> r.0 == zero
  {
    if |xs| == 0 then (zero, false) else (xs[0], true)
  }

  /** Searching a concatenation is searching either part. */
  lemma {:induction false} ContainsByAppend<T>(xs: seq<T>, ys: seq<T>, pred: T -> bool)
    ensures ContainsBy(xs + ys, pred) <==> ContainsBy(xs, pred) || ContainsBy(ys, pred)
  {
    if ContainsBy(xs + ys, pred) {
      var i :| 0 <= i < |xs + ys| && pred((xs + ys)[i]);
      if i < |xs| {
        assert pred(xs[i]);
      } else {
        assert pred(ys[i - |xs|]);
      }
    }
    if ContainsBy(ys, pred) {
      var j :| 0 <= j < |ys| && pred(ys[j]);
      assert pred((xs + ys)[|xs| + j]);
    }
    if ContainsBy(xs, pred) {
      var j :| 0 <= j < |xs| && pred(xs[j]);
      assert pred((xs + ys)[j]);
    }
  }

  /** The answer depends only on which values occur, not on their order or on
      how often they repeat. */
  lemma {:induction false} ContainsBySameElements<T>(xs: seq<T>, ys: seq<T>, pred: T -> bool)
    requires forall x :: x in xs <==> x in ys
    ensures ContainsBy(xs, pred) == ContainsBy(ys, pred)
  {
    if ContainsBy(xs, pred) {
      var i :| 0 <= i < |xs| && pred(xs[i]);
      assert xs[i] in ys;
      var j :| 0 <= j < |ys| && ys[j] == xs[i];
      assert pred(ys[j]);
    }
    if ContainsBy(ys, pred) {
      var i :| 0 <= i < |ys| && pred(ys[i]);
      assert ys[i] in xs;
      var j :| 0 <= j < |xs| && xs[j] == ys[i];
      assert pred(xs[j]);
    }
  }

  /** In particular, reordering the collection does not change the answer. */
  lemma {:induction false} ContainsByPermutation<T>(xs: seq<T>, ys: seq<T>, pred: T -> bool)
    requires multiset(xs) == multiset(ys)
    ensures ContainsBy(xs, pred) == ContainsBy(ys, pred)
  {
    forall x ensures x in xs <==> x in ys {
      assert x in xs <==> x in multiset(xs);
      assert x in ys <==> x in multiset(ys);
    }
    ContainsBySameElements(xs, ys, pred);
  }

  /** Values after the first never influence First. */
  lemma {:induction false} FirstOfAppend<T>(xs: seq<T>, ys: seq<T>, zero: T)
    requires |xs| > 0
    ensures First(xs + ys, zero) == First(xs, zero) == (xs[0], true)
  {
    assert (xs + ys)[0] == xs[0];
  }
}
