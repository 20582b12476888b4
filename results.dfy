/** Concatenating lists produced step by step, where any step may fail and
    the first failure ends the whole computation (an exception that escapes). */
module Results {
  import opened Wrappers

  /** Appends two partial results; the left failure wins, then the right one. */
  function Combine<U, E>(a: Result<seq<U>, E>, b: Result<seq<U>, E>): (r: Result<seq<U>, E>)
    ensures r.Ok? <==> a.Ok? && b.Ok?
    ensures r.Ok? ==> r.value == a.value + b.value
    ensures a.Err? ==> r == a
  {
    match a
    case Err(e) => Err(e)
    case Ok(x) =>
      match b
      case Err(e) => Err(e)
      case Ok(y) => Ok(x + y)
  }

  lemma CombineAssociative<U, E>(a: Result<seq<U>, E>, b: Result<seq<U>, E>, c: Result<seq<U>, E>)
    ensures Combine(Combine(a, b), c) == Combine(a, Combine(b, c))
  {
    if a.Ok? && b.Ok? && c.Ok? {
      assert (a.value + b.value) + c.value == a.value + (b.value + c.value);
    }
  }

  /** Runs f on every element in order and concatenates what it returns. */
  function ConcatMap<T, U, E>(xs: seq<T>, f: T -> Result<seq<U>, E>): Result<seq<U>, E>
  {
    if xs == [] then Ok([])
    else Combine(ConcatMap(xs[..|xs| - 1], f), f(xs[|xs| - 1]))
  }

  /** Running over a concatenation is running over each part in turn. */
  lemma {:induction false} ConcatMapAppend<T, U, E>(xs: seq<T>, ys: seq<T>, f: T -> Result<seq<U>, E>)
    ensures ConcatMap(xs + ys, f) == Combine(ConcatMap(xs, f), ConcatMap(ys, f))
    decreases |ys|
  {
    if ys == [] {
      assert xs + ys == xs;
      var a := ConcatMap(xs, f);
      assert a.Ok? ==> a.value + [] == a.value;
    } else {
      var ys' := ys[..|ys| - 1];
      var y := ys[|ys| - 1];
      assert (xs + ys)[..|xs + ys| - 1] == xs + ys';
      assert (xs + ys)[|xs + ys| - 1] == y;
      ConcatMapAppend(xs, ys', f);
      CombineAssociative(ConcatMap(xs, f), ConcatMap(ys', f), f(y));
    }
  }

  /** The fold succeeds exactly when every step succeeds. */
  lemma {:induction false} ConcatMapOk<T, U, E>(xs: seq<T>, f: T -> Result<seq<U>, E>)
    ensures ConcatMap(xs, f).Ok? <==> forall i :: 0 <= i < |xs| ==> f(xs[i]).Ok?
  {
    if xs != [] {
      var xs' := xs[..|xs| - 1];
      ConcatMapOk(xs', f);
      assert forall i :: 0 <= i < |xs'| ==> xs'[i] == xs[i];
    }
  }

  /** Every element of a successful fold comes from the result of one step. */
  lemma {:induction false} ConcatMapProvenance<T, U, E>(xs: seq<T>, f: T -> Result<seq<U>, E>, u: U)
    requires ConcatMap(xs, f).Ok? && u in ConcatMap(xs, f).value
    ensures exists i :: 0 <= i < |xs| && f(xs[i]).Ok? && u in f(xs[i]).value
  {
    var xs' := xs[..|xs| - 1];
    var last := xs[|xs| - 1];
    if u in ConcatMap(xs', f).value {
      ConcatMapProvenance(xs', f, u);
      var i :| 0 <= i < |xs'| && f(xs'[i]).Ok? && u in f(xs'[i]).value;
      assert xs'[i] == xs[i];
    } else {
      assert f(xs[|xs| - 1]).Ok? && u in f(xs[|xs| - 1]).value;
    }
  }

  /** The order in which the steps run does not change whether the fold
      succeeds, nor, when it does, which elements it collects. */
  lemma {:induction false} ConcatMapPermutation<T, U, E>(xs: seq<T>, ys: seq<T>, f: T -> Result<seq<U>, E>)
    requires multiset(xs) == multiset(ys)
    ensures ConcatMap(xs, f).Ok? == ConcatMap(ys, f).Ok?
    ensures ConcatMap(xs, f).Ok? ==> multiset(ConcatMap(xs, f).value) == multiset(ConcatMap(ys, f).value)
    decreases |xs|
  {
    if xs == [] {
      assert |ys| == |multiset(ys)| == 0;
      assert ys == [];
    } else {
      var n := |xs| - 1;
      var x := xs[n];
      var xs' := xs[..n];
      assert xs == xs' + [x];
      assert x in multiset(ys);
      var j :| 0 <= j < |ys| && ys[j] == x;
      var ys' := ys[..j] + ys[j + 1..];
      RemoveAt(ys, j);
      assert multiset(xs') == multiset(xs) - multiset{x};
      ConcatMapPermutation(xs', ys', f);
      ConcatMapSplitAt(ys, j, f);
      ConcatMapAppend(ys[..j], ys[j + 1..], f);
    }
  }

  /** Taking out one element takes it out of the multiset. */
  lemma RemoveAt<T>(ys: seq<T>, j: nat)
    requires j < |ys|
    ensures multiset(ys[..j] + ys[j + 1..]) == multiset(ys) - multiset{ys[j]}
  {
    assert ys == ys[..j] + [ys[j]] + ys[j + 1..];
  }

  /** The fold over ys runs the steps before ys[j], then ys[j], then those
      after it. */
  lemma ConcatMapSplitAt<T, U, E>(ys: seq<T>, j: nat, f: T -> Result<seq<U>, E>)
    requires j < |ys|
    ensures ConcatMap(ys, f) == Combine(Combine(ConcatMap(ys[..j], f), f(ys[j])), ConcatMap(ys[j + 1..], f))
  {
    assert ys == ys[..j + 1] + ys[j + 1..];
    ConcatMapAppend(ys[..j + 1], ys[j + 1..], f);
    ConcatMapStep(ys, j, f);
  }

  /** Once a prefix has failed, the whole fold fails the same way. */
  /** A successful fold succeeded on every element and holds every
      element's results, each at least as often as that element gave it. */
  lemma ConcatMapContains<T, U, E>(xs: seq<T>, i: nat, f: T -> Result<seq<U>, E>)
    requires ConcatMap(xs, f).Ok? && i < |xs|
    ensures f(xs[i]).Ok?
    ensures multiset(f(xs[i]).value) <= multiset(ConcatMap(xs, f).value)
  {
    ConcatMapSplitAt(xs, i, f);
    var before := ConcatMap(xs[..i], f);
    var after := ConcatMap(xs[i + 1..], f);
    assert ConcatMap(xs, f).value == before.value + f(xs[i]).value + after.value;
  }

  lemma ConcatMapFailedPrefix<T, U, E>(xs: seq<T>, i: nat, f: T -> Result<seq<U>, E>)
    requires i <= |xs| && ConcatMap(xs[..i], f).Err?
    ensures ConcatMap(xs, f) == ConcatMap(xs[..i], f)
  {
    assert xs == xs[..i] + xs[i..];
    ConcatMapAppend(xs[..i], xs[i..], f);
  }

  /** Two results hold the same elements, possibly in another order. */
  ghost predicate SameElements<U, E>(a: Result<seq<U>, E>, b: Result<seq<U>, E>)
  {
    a.Ok? == b.Ok? && (a.Ok? ==> multiset(a.value) == multiset(b.value))
  }

  /** Steps that yield the same elements, one for one, give folds that do. */
  lemma {:induction false} ConcatMapPointwise<T, U, E>(xs: seq<T>, f: T -> Result<seq<U>, E>,
                                                       ys: seq<T>, g: T -> Result<seq<U>, E>)
    requires |xs| == |ys|
    requires forall i :: 0 <= i < |xs| ==> SameElements(f(xs[i]), g(ys[i]))
    ensures SameElements(ConcatMap(xs, f), ConcatMap(ys, g))
  {
    if xs != [] {
      var n := |xs| - 1;
      ConcatMapPointwise(xs[..n], f, ys[..n], g);
      assert forall i :: 0 <= i < n ==> xs[..n][i] == xs[i] && ys[..n][i] == ys[i];
    }
  }

  /** One more step of the fold. */
  lemma ConcatMapStep<T, U, E>(xs: seq<T>, k: nat, f: T -> Result<seq<U>, E>)
    requires k < |xs|
    ensures ConcatMap(xs[..k + 1], f) == Combine(ConcatMap(xs[..k], f), f(xs[k]))
  {
    assert xs[..k + 1][..k] == xs[..k];
  }
}
