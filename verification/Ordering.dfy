/** Byte-lexicographic string comparison and the stable sort of the standard library.
    UTF-8 preserves code point order, so comparing characters is comparing bytes. */
module Ordering {
  import opened Common

  predicate StringLe(left: string, right: string) {
    |left| == 0
    || (|right| > 0
        && (left[0] < right[0] || (left[0] == right[0] && StringLe(left[1..], right[1..]))))
  }

  /** `left` then `right`: the primary key decides unless it ties. */
  predicate ThenLe(left: string, right: string, tieLe: bool) {
    if left == right then tieLe else StringLe(left, right)
  }

  /** `left` comes first in a dictionary: where they first differ it ends or has the smaller
      character. */
  ghost predicate Before(left: string, right: string) {
    exists k: nat :: DifferAt(left, right, k)
  }

  predicate DifferAt(left: string, right: string, k: nat) {
    && k <= |left| && k < |right| && left[..k] == right[..k]
    && (k == |left| || left[k] < right[k])
  }

  lemma {:induction false} StringLeIsDictionary(left: string, right: string)
    ensures StringLe(left, right) <==> left == right || Before(left, right)
  {
    if left != [] && right != [] && left[0] == right[0] {
      StringLeIsDictionary(left[1..], right[1..]);
      assert left == [left[0]] + left[1..] && right == [right[0]] + right[1..];
      if Before(left[1..], right[1..]) {
        var k: nat :| DifferAt(left[1..], right[1..], k);
        assert left[..k + 1] == [left[0]] + left[1..][..k];
        assert right[..k + 1] == [right[0]] + right[1..][..k];
        assert DifferAt(left, right, k + 1);
      }
      if Before(left, right) {
        var k: nat :| DifferAt(left, right, k);
        assert k > 0;
        assert left[1..][..k - 1] == left[..k][1..] && right[1..][..k - 1] == right[..k][1..];
        assert DifferAt(left[1..], right[1..], k - 1);
      }
    } else {
      if Before(left, right) {
        var k: nat :| DifferAt(left, right, k);
        FirstDiffers(left, right, k);
      }
      assert left != right && StringLe(left, right) ==> DifferAt(left, right, 0);
    }
  }

  lemma FirstDiffers(left: string, right: string, k: nat)
    requires DifferAt(left, right, k)
    ensures k > 0 ==> left[0] == right[0]
  {
    assert k > 0 ==> left[0] == left[..k][0] && right[0] == right[..k][0];
  }

  /** Two keys, in the order of a dictionary each. */
  lemma ThenLeIsDictionary(a: string, a': string, b: string, b': string)
    ensures ThenLe(a, b, StringLe(a', b')) <==>
      Before(a, b) || (a == b && (a' == b' || Before(a', b')))
  {
    StringLeIsDictionary(a, b);
    StringLeIsDictionary(a', b');
  }

  lemma {:induction false} StringLeTotal(a: string, b: string)
    ensures StringLe(a, b) || StringLe(b, a)
    ensures StringLe(a, b) && StringLe(b, a) ==> a == b
    ensures StringLe(a, a)
  {
    if |a| > 0 {
      StringLeTotal(a[1..], a[1..]);
      if |b| > 0 {
        StringLeTotal(a[1..], b[1..]);
        if a[0] == b[0] && a[1..] == b[1..] {
          assert a == [a[0]] + a[1..] == [b[0]] + b[1..] == b;
        }
      }
    }
  }

  lemma {:induction false} StringLeTransitive(a: string, b: string, c: string)
    requires StringLe(a, b) && StringLe(b, c)
    ensures StringLe(a, c)
  {
    if |a| > 0 && a[0] == b[0] && b[0] == c[0] {
      StringLeTransitive(a[1..], b[1..], c[1..]);
    }
  }

  ghost predicate TotalPreorder<T(!new)>(le: (T, T) -> bool) {
    && (forall x, y :: le(x, y) || le(y, x))
    && (forall x, y, z :: le(x, y) && le(y, z) ==> le(x, z))
  }

  ghost predicate Sorted<T>(xs: seq<T>, le: (T, T) -> bool) {
    forall i, j :: 0 <= i < j < |xs| ==> le(xs[i], xs[j])
  }

  /** No two different elements of `xs` tie. */
  ghost predicate NoTies<T>(xs: seq<T>, le: (T, T) -> bool) {
    forall x, y :: x in xs && y in xs && le(x, y) && le(y, x) ==> x == y
  }

  /** Insert before the first element that `x` does not exceed, so earlier elements stay first. */
  function Insert<T>(x: T, xs: seq<T>, le: (T, T) -> bool): seq<T> {
    if xs == [] || le(x, xs[0]) then [x] + xs else [xs[0]] + Insert(x, xs[1..], le)
  }

  /** The result of `slice::sort_by`: a stable ascending sort. */
  function Sort<T>(xs: seq<T>, le: (T, T) -> bool): seq<T> {
    if xs == [] then [] else Insert(xs[0], Sort(xs[1..], le), le)
  }

  lemma {:induction false} InsertPermutes<T>(x: T, xs: seq<T>, le: (T, T) -> bool)
    ensures multiset(Insert(x, xs, le)) == multiset{x} + multiset(xs)
  {
    if xs != [] && !le(x, xs[0]) {
      InsertPermutes(x, xs[1..], le);
      assert xs == [xs[0]] + xs[1..];
    }
  }

  lemma {:induction false} SortPermutes<T>(xs: seq<T>, le: (T, T) -> bool)
    ensures multiset(Sort(xs, le)) == multiset(xs)
    ensures |Sort(xs, le)| == |xs|
    ensures forall x :: x in Sort(xs, le) <==> x in xs
  {
    if xs != [] {
      SortPermutes(xs[1..], le);
      InsertPermutes(xs[0], Sort(xs[1..], le), le);
      assert xs == [xs[0]] + xs[1..];
    }
    SameMultiset(Sort(xs, le), xs);
  }

  lemma SameMultiset<T>(xs: seq<T>, ys: seq<T>)
    requires multiset(xs) == multiset(ys)
    ensures |xs| == |ys|
    ensures forall x :: x in xs <==> x in ys
  {
    assert |multiset(xs)| == |xs| && |multiset(ys)| == |ys|;
    forall x ensures x in xs <==> x in ys {
      assert x in multiset(xs) <==> x in multiset(ys);
    }
  }

  lemma {:induction false} InsertSorted<T(!new)>(x: T, xs: seq<T>, le: (T, T) -> bool)
    requires TotalPreorder(le) && Sorted(xs, le)
    ensures Sorted(Insert(x, xs, le), le)
  {
    if xs != [] {
      if le(x, xs[0]) {
        forall j | 0 <= j < |xs| ensures le(x, xs[j]) {
          assert j > 0 ==> le(xs[0], xs[j]);
        }
      } else {
        var rest := Insert(x, xs[1..], le);
        InsertSorted(x, xs[1..], le);
        InsertPermutes(x, xs[1..], le);
        SameMultiset(rest, [x] + xs[1..]);
        forall j | 0 <= j < |rest| ensures le(xs[0], rest[j]) {
          assert rest[j] in rest;
          assert rest[j] in [x] + xs[1..];
          if rest[j] != x {
            var k :| 0 <= k < |xs[1..]| && xs[1..][k] == rest[j];
            assert xs[k + 1] == rest[j];
          }
        }
      }
    }
  }

  lemma {:induction false} SortSorts<T(!new)>(xs: seq<T>, le: (T, T) -> bool)
    requires TotalPreorder(le)
    ensures Sorted(Sort(xs, le), le)
  {
    if xs != [] {
      SortSorts(xs[1..], le);
      InsertSorted(xs[0], Sort(xs[1..], le), le);
    }
  }

  lemma {:induction false} SortKeepsSorted<T>(xs: seq<T>, le: (T, T) -> bool)
    requires Sorted(xs, le)
    ensures Sort(xs, le) == xs
  {
    if xs != [] {
      SortKeepsSorted(xs[1..], le);
    }
  }

  lemma TailMultiset<T>(xs: seq<T>)
    requires xs != []
    ensures multiset(xs[1..]) == multiset(xs) - multiset{xs[0]}
  {
    assert xs == [xs[0]] + xs[1..];
  }

  /** Two ascending arrangements of the same tie-free elements are the same sequence. */
  lemma {:induction false} SortedUnique<T(!new)>(xs: seq<T>, ys: seq<T>, le: (T, T) -> bool)
    requires TotalPreorder(le) && Sorted(xs, le) && Sorted(ys, le)
    requires multiset(xs) == multiset(ys) && NoTies(xs, le)
    ensures xs == ys
  {
    SameMultiset(xs, ys);
    if xs != [] {
      assert xs[0] in ys && ys[0] in xs;
      FirstIsLeast(xs, ys[0], le);
      FirstIsLeast(ys, xs[0], le);
      assert xs[0] == ys[0];
      TailMultiset(xs);
      TailMultiset(ys);
      SortedUnique(xs[1..], ys[1..], le);
    }
  }

  lemma FirstIsLeast<T(!new)>(xs: seq<T>, x: T, le: (T, T) -> bool)
    requires TotalPreorder(le) && Sorted(xs, le) && x in xs
    ensures le(xs[0], x)
  {
    var k :| 0 <= k < |xs| && xs[k] == x;
  }

  /** Sorting forgets the order its input came in. */
  lemma SortCanonical<T(!new)>(xs: seq<T>, ys: seq<T>, le: (T, T) -> bool)
    requires TotalPreorder(le) && multiset(xs) == multiset(ys) && NoTies(xs, le)
    ensures Sort(xs, le) == Sort(ys, le)
  {
    SortSorts(xs, le);
    SortSorts(ys, le);
    SortPermutes(xs, le);
    SortPermutes(ys, le);
    SortedUnique(Sort(xs, le), Sort(ys, le), le);
  }

  /** Of two different elements that tie, the one inserted last comes first. */
  lemma {:induction false} InsertShowsTies<T(!new)>(x: T, y: T, xs: seq<T>, le: (T, T) -> bool)
    requires TotalPreorder(le) && le(x, y) && le(y, x) && x != y
    ensures Insert(x, Insert(y, xs, le), le) != Insert(y, Insert(x, xs, le), le)
  {
    var here, there := Insert(x, Insert(y, xs, le), le), Insert(y, Insert(x, xs, le), le);
    if xs == [] || le(x, xs[0]) {
      assert xs == [] || le(y, xs[0]);
      assert here[0] == x && there[0] == y;
    } else {
      assert !le(y, xs[0]);
      InsertShowsTies(x, y, xs[1..], le);
      assert here[1..] == Insert(x, Insert(y, xs[1..], le), le);
      assert there[1..] == Insert(y, Insert(x, xs[1..], le), le);
    }
  }

  /** Any element can be moved to the front of a rearrangement. */
  lemma OneInFront<T>(xs: seq<T>, x: T) returns (rest: seq<T>)
    requires x in xs
    ensures multiset(xs) == multiset{x} + multiset(rest)
  {
    var k :| 0 <= k < |xs| && xs[k] == x;
    rest := Without(xs, k);
    WithoutMultiset(xs, k);
  }

  lemma SortPair<T>(x: T, y: T, rest: seq<T>, le: (T, T) -> bool)
    ensures Sort([x, y] + rest, le) == Insert(x, Insert(y, Sort(rest, le), le), le)
    ensures multiset([x, y] + rest) == multiset{x} + multiset{y} + multiset(rest)
  {
    assert ([x, y] + rest)[1..] == [y] + rest && ([y] + rest)[1..] == rest;
  }

  /** Two elements that tie are sorted in the order they come in. */
  lemma TiesKeepOrder<T(!new)>(xs: seq<T>, x: T, y: T, le: (T, T) -> bool)
    returns (one: seq<T>, other: seq<T>)
    requires TotalPreorder(le) && x in xs && y in xs && le(x, y) && le(y, x) && x != y
    ensures multiset(one) == multiset(xs) == multiset(other)
    ensures Sort(one, le) != Sort(other, le)
  {
    var without := OneInFront(xs, x);
    assert y in multiset(xs) && y in multiset(without);
    var rest := OneInFront(without, y);
    one, other := [x, y] + rest, [y, x] + rest;
    SortPair(x, y, rest, le);
    SortPair(y, x, rest, le);
    InsertShowsTies(x, y, Sort(rest, le), le);
  }

  /** Every rearrangement of `xs` is sorted to the same sequence. */
  ghost predicate OrderForgotten<T(!new)>(xs: seq<T>, le: (T, T) -> bool) {
    forall ys :: multiset(ys) == multiset(xs) ==> Sort(ys, le) == Sort(xs, le)
  }

  /** Sorting forgets the order its input came in exactly if no two different elements tie. */
  lemma SortForgetsExactly<T(!new)>(xs: seq<T>, le: (T, T) -> bool)
    requires TotalPreorder(le)
    ensures OrderForgotten(xs, le) <==> NoTies(xs, le)
  {
    if NoTies(xs, le) {
      forall ys | multiset(ys) == multiset(xs) ensures Sort(ys, le) == Sort(xs, le) {
        SortCanonical(xs, ys, le);
      }
    } else {
      var x, y :| x in xs && y in xs && le(x, y) && le(y, x) && x != y;
      var one, other := TiesKeepOrder(xs, x, y, le);
      assert Sort(one, le) != Sort(xs, le) || Sort(other, le) != Sort(xs, le);
    }
  }
}
