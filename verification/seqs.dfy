/** A filter-then-map over sequences and the facts the sanitizer needs about it. */
module Seqs {

  /** `[f(x) for x in xs if keep(x)]`. */
  function FilterMap<T, U>(xs: seq<T>, keep: T -> bool, f: T -> U): (ys: seq<U>)
    ensures |ys| <= |xs|
  {
    if xs == [] then []
    else (if keep(xs[0]) then [f(xs[0])] else []) + FilterMap(xs[1..], keep, f)
  }

  /** Filtering distributes over concatenation, so kept elements keep their order. */
  lemma {:induction false} FilterMapAppend<T, U>(a: seq<T>, b: seq<T>, keep: T -> bool, f: T -> U)
    ensures FilterMap(a + b, keep, f) == FilterMap(a, keep, f) + FilterMap(b, keep, f)
    decreases |a|
  {
    if a == [] {
      assert a + b == b;
    } else {
      var head := if keep(a[0]) then [f(a[0])] else [];
      assert (a + b)[0] == a[0];
      assert (a + b)[1..] == a[1..] + b;
      assert FilterMap(a + b, keep, f) == head + FilterMap(a[1..] + b, keep, f);
      FilterMapAppend(a[1..], b, keep, f);
      assert head + (FilterMap(a[1..], keep, f) + FilterMap(b, keep, f))
          == (head + FilterMap(a[1..], keep, f)) + FilterMap(b, keep, f);
    }
  }

  /** Nothing kept, nothing returned. */
  lemma {:induction false} FilterMapNoneKept<T, U>(xs: seq<T>, keep: T -> bool, f: T -> U)
    requires forall i :: 0 <= i < |xs| ==> !keep(xs[i])
    ensures FilterMap(xs, keep, f) == []
  {
    if xs != [] {
      FilterMapNoneKept(xs[1..], keep, f);
    }
  }

  /** Everything kept: the result is the image of the whole sequence, element by element. */
  lemma {:induction false} FilterMapAllKept<T, U>(xs: seq<T>, keep: T -> bool, f: T -> U)
    requires forall i :: 0 <= i < |xs| ==> keep(xs[i])
    ensures |FilterMap(xs, keep, f)| == |xs|
    ensures forall i :: 0 <= i < |xs| ==> FilterMap(xs, keep, f)[i] == f(xs[i])
  {
    if xs != [] {
      FilterMapAllKept(xs[1..], keep, f);
      var rest := FilterMap(xs[1..], keep, f);
      assert FilterMap(xs, keep, f) == [f(xs[0])] + rest;
      forall i | 0 < i < |xs| ensures FilterMap(xs, keep, f)[i] == f(xs[i]) {
        assert FilterMap(xs, keep, f)[i] == rest[i - 1];
        assert xs[1..][i - 1] == xs[i];
      }
    }
  }

  /** Whatever `f` guarantees of the kept elements holds of every result. */
  lemma {:induction false} FilterMapEvery<T, U>(xs: seq<T>, keep: T -> bool, f: T -> U, ok: U -> bool)
    requires forall x :: keep(x) ==> ok(f(x))
    ensures forall i :: 0 <= i < |FilterMap(xs, keep, f)| ==> ok(FilterMap(xs, keep, f)[i])
  {
    if xs != [] {
      FilterMapEvery(xs[1..], keep, f, ok);
      var rest := FilterMap(xs[1..], keep, f);
      var ys := FilterMap(xs, keep, f);
      forall i | 0 <= i < |ys| ensures ok(ys[i]) {
        if keep(xs[0]) {
          assert ys == [f(xs[0])] + rest;
          if i > 0 {
            assert ys[i] == rest[i - 1];
          }
        } else {
          assert ys == rest;
        }
      }
    }
  }
}
