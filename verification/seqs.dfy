/** Generic sequence helpers: an order-preserving filter and sums of reals. */
module Seqs {

  /** The elements of `s` that satisfy `p`, in their original order. */
  function Filter<T(!new)>(s: seq<T>, p: T -> bool): (r: seq<T>)
    ensures |r| <= |s|
    ensures forall x :: x in r <==> x in s && p(x)
  {
    if |s| == 0 then []
    else Filter(s[..|s| - 1], p) + (if p(s[|s| - 1]) then [s[|s| - 1]] else [])
  }

  lemma {:induction false} FilterAppend<T(!new)>(a: seq<T>, b: seq<T>, p: T -> bool)
    ensures Filter(a + b, p) == Filter(a, p) + Filter(b, p)
    decreases |b|
  {
    if |b| == 0 {
      assert a + b == a;
    } else {
      var b' := b[..|b| - 1];
      assert (a + b)[..|a + b| - 1] == a + b';
      FilterAppend(a, b', p);
    }
  }

  /** Filtering ignores an element that `p` rejects, wherever it sits. */
  lemma FilterDrop<T(!new)>(a: seq<T>, x: T, b: seq<T>, p: T -> bool)
    requires !p(x)
    ensures Filter(a + [x] + b, p) == Filter(a + b, p)
  {
    FilterAppend(a + [x], b, p);
    FilterAppend(a, [x], p);
    assert Filter([x], p) == [] by {
      assert [x][..0] == [];
    }
    assert Filter(a + [x], p) == Filter(a, p);
    FilterAppend(a, b, p);
  }

  lemma FilterPair<T(!new)>(x: T, y: T, p: T -> bool)
    ensures Filter([x, y], p) == (if p(x) then [x] else []) + (if p(y) then [y] else [])
  {
    assert [x, y][..1] == [x];
    assert [x][..0] == [];
  }

  /** The last element `Filter` keeps is the last element of `s` satisfying `p`. */
  lemma {:induction false} FilterLastIndex<T(!new)>(s: seq<T>, p: T -> bool) returns (i: nat)
    requires |Filter(s, p)| > 0
    ensures i < |s| && s[i] == Filter(s, p)[|Filter(s, p)| - 1] && p(s[i])
    ensures forall j | i < j < |s| :: !p(s[j])
    decreases |s|
  {
    var init, last := s[..|s| - 1], s[|s| - 1];
    if p(last) {
      i := |s| - 1;
    } else {
      assert Filter(s, p) == Filter(init, p);
      i := FilterLastIndex(init, p);
      assert s[i] == init[i];
    }
  }

  /** Some element satisfying `p` has none after it satisfying `p`, and it is the last one `Filter` keeps. */
  lemma FilterLastExists<T(!new)>(s: seq<T>, p: T -> bool)
    requires |Filter(s, p)| > 0
    ensures exists i | 0 <= i < |s| :: s[i] == Filter(s, p)[|Filter(s, p)| - 1] && forall j | i < j < |s| :: !p(s[j])
  {
    var i := FilterLastIndex(s, p);
  }

  /** Sum of `f` over the elements of `s`, added left to right. */
  function SumOf<T>(s: seq<T>, f: T -> real): real
  {
    if |s| == 0 then 0.0 else SumOf(s[..|s| - 1], f) + f(s[|s| - 1])
  }

  lemma {:induction false} SumOfAppend<T>(a: seq<T>, b: seq<T>, f: T -> real)
    ensures SumOf(a + b, f) == SumOf(a, f) + SumOf(b, f)
    decreases |b|
  {
    if |b| == 0 {
      assert a + b == a;
    } else {
      var b' := b[..|b| - 1];
      assert (a + b)[..|a + b| - 1] == a + b';
      SumOfAppend(a, b', f);
    }
  }
}
