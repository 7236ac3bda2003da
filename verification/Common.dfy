/** Result types and small facts about sequences and counting shared by every component. */
module Common {

  datatype Option<+T> = None | Some(value: T)

  datatype Result<+T, +E> = Ok(value: T) | Err(error: E)

  function Min(a: nat, b: nat): nat {
    if a <= b then a else b
  }

  /** No value occurs at two positions. */
  ghost predicate Distinct<T>(xs: seq<T>) {
    forall i, j :: 0 <= i < j < |xs| ==> xs[i] != xs[j]
  }

  /** The elements of `xs` satisfying `keep`, in order. */
  function Filter<T>(xs: seq<T>, keep: T -> bool): seq<T> {
    if xs == [] then []
    else (if keep(xs[0]) then [xs[0]] else []) + Filter(xs[1..], keep)
  }

  lemma ConcatAssociates<T>(xs: seq<T>, ys: seq<T>, zs: seq<T>)
    ensures xs + (ys + zs) == (xs + ys) + zs
  {
  }

  lemma {:induction false} FilterConcat<T>(xs: seq<T>, ys: seq<T>, keep: T -> bool)
    ensures Filter(xs + ys, keep) == Filter(xs, keep) + Filter(ys, keep)
  {
    if xs == [] {
      assert xs + ys == ys;
    } else {
      assert (xs + ys)[0] == xs[0] && (xs + ys)[1..] == xs[1..] + ys;
      FilterConcat(xs[1..], ys, keep);
      ConcatAssociates(if keep(xs[0]) then [xs[0]] else [], Filter(xs[1..], keep),
        Filter(ys, keep));
    }
  }

  /** How many elements of `xs` satisfy `p`. */
  function Count<T>(xs: seq<T>, p: T -> bool): nat {
    if xs == [] then 0 else (if p(xs[0]) then 1 else 0) + Count(xs[1..], p)
  }

  lemma {:induction false} CountUpdate<T>(xs: seq<T>, k: nat, x: T, p: T -> bool)
    requires k < |xs|
    ensures Count(xs[k := x], p) + (if p(xs[k]) then 1 else 0)
         == Count(xs, p) + (if p(x) then 1 else 0)
  {
    if k == 0 {
      assert xs[0 := x][1..] == xs[1..];
    } else {
      assert xs[k := x][1..] == xs[1..][k - 1 := x];
      CountUpdate(xs[1..], k - 1, x, p);
    }
  }

  lemma {:induction false} CountMissesOne<T>(xs: seq<T>, k: nat, p: T -> bool)
    requires k < |xs| && !p(xs[k])
    ensures Count(xs, p) <= |xs| - 1
  {
    if k == 0 {
      CountAtMostLength(xs[1..], p);
    } else {
      CountMissesOne(xs[1..], k - 1, p);
    }
  }

  lemma {:induction false} CountAtMostLength<T>(xs: seq<T>, p: T -> bool)
    ensures Count(xs, p) <= |xs|
  {
    if xs != [] {
      CountAtMostLength(xs[1..], p);
    }
  }

  /** The numbers from `low` on, up to but not including `high`. */
  function Between(low: nat, high: nat): (r: set<nat>)
    requires low <= high
    ensures |r| == high - low && forall i :: i in r <==> low <= i < high
  {
    if low == high then {} else Between(low, high - 1) + {high - 1}
  }

  function Map<T, U>(xs: seq<T>, f: T -> U): (ys: seq<U>)
    ensures |ys| == |xs| && forall i :: 0 <= i < |xs| ==> ys[i] == f(xs[i])
  {
    seq(|xs|, i requires 0 <= i < |xs| => f(xs[i]))
  }

  function Without<T>(xs: seq<T>, k: nat): seq<T>
    requires k < |xs|
  {
    xs[..k] + xs[k + 1..]
  }

  lemma WithoutMultiset<T>(xs: seq<T>, k: nat)
    requires k < |xs|
    ensures multiset(xs) == multiset{xs[k]} + multiset(Without(xs, k))
  {
    assert xs == xs[..k] + [xs[k]] + xs[k + 1..];
  }

  /** Rearranging a sequence rearranges its image. */
  lemma {:induction false} MapPermutes<T, U>(xs: seq<T>, ys: seq<T>, f: T -> U)
    requires multiset(xs) == multiset(ys)
    ensures multiset(Map(xs, f)) == multiset(Map(ys, f))
  {
    assert |multiset(xs)| == |xs| && |multiset(ys)| == |ys|;
    if xs != [] {
      assert xs[0] in multiset(ys);
      var k :| 0 <= k < |ys| && ys[k] == xs[0];
      WithoutMultiset(xs, 0);
      WithoutMultiset(ys, k);
      assert multiset(Without(xs, 0)) == multiset(xs) - multiset{xs[0]};
      assert multiset(Without(ys, k)) == multiset(ys) - multiset{xs[0]};
      MapPermutes(Without(xs, 0), Without(ys, k), f);
      MapWithout(xs, 0, f);
      MapWithout(ys, k, f);
    } else {
      assert ys == [];
    }
  }

  lemma MapWithout<T, U>(xs: seq<T>, k: nat, f: T -> U)
    requires k < |xs|
    ensures multiset(Map(xs, f)) == multiset{f(xs[k])} + multiset(Map(Without(xs, k), f))
  {
    WithoutMultiset(Map(xs, f), k);
    assert Map(Without(xs, k), f) == Without(Map(xs, f), k);
  }

  lemma DistinctIsMultiplicity<T>(xs: seq<T>)
    ensures Distinct(xs) <==> forall x :: multiset(xs)[x] <= 1
  {
    if !Distinct(xs) {
      var i, j :| 0 <= i < j < |xs| && xs[i] == xs[j];
      assert xs[j] == Without(xs, i)[j - 1];
      WithoutMultiset(xs, i);
      assert multiset(xs)[xs[i]] >= 2;
    } else {
      forall x ensures multiset(xs)[x] <= 1 {
        OccursOnce(xs, x);
      }
    }
  }

  lemma OccursOnce<T>(xs: seq<T>, x: T)
    requires Distinct(xs)
    ensures multiset(xs)[x] <= 1
  {
    if x in xs {
      var i :| 0 <= i < |xs| && xs[i] == x;
      WithoutMultiset(xs, i);
      assert x !in Without(xs, i);
    }
  }

  /** Having distinct keys is a property of the elements, not of their order. */
  lemma DistinctPermutes<T, U>(xs: seq<T>, ys: seq<T>, key: T -> U)
    requires multiset(xs) == multiset(ys)
    ensures Distinct(Map(xs, key)) <==> Distinct(Map(ys, key))
  {
    MapPermutes(xs, ys, key);
    DistinctIsMultiplicity(Map(xs, key));
    DistinctIsMultiplicity(Map(ys, key));
  }
}
