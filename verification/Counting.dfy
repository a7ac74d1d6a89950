/** Counting the elements of a sequence that pass a test. */
module Counting {
  /** The positions of the elements that pass. */
  function Where<T>(xs: seq<T>, p: T -> bool): set<nat> {
    set i: nat | i < |xs| && p(xs[i])
  }

  lemma {:induction false} WhereOneMore<T>(xs: seq<T>, x: T, p: T -> bool)
    ensures |Where(xs + [x], p)| == |Where(xs, p)| + if p(x) then 1 else 0
  {
    var n, all := |xs|, xs + [x];
    assert Where(all, p) == Where(xs, p) + if p(x) then {n} else {};
  }

  lemma {:induction false} WhereBoth<T>(xs: seq<T>, ys: seq<T>, p: T -> bool)
    ensures |Where(xs + ys, p)| == |Where(xs, p)| + |Where(ys, p)|
  {
    if ys == [] {
      assert xs + ys == xs;
    } else {
      var init, y := ys[..|ys| - 1], ys[|ys| - 1];
      WhereBoth(xs, init, p);
      WhereOneMore(xs + init, y, p);
      WhereOneMore(init, y, p);
      assert xs + ys == (xs + init) + [y] && ys == init + [y];
    }
  }
}
