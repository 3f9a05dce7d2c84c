/** The JavaScript array methods the core is written with: `some`, `every`,
    `filter`, `map`, `indexOf` and `includes`, each over a sequence and a pure
    callback, with the meaning each promises stated as its contract. */
module JsArrays {
  import opened Wrappers

  /** `s.some(p)`: some element satisfies `p`. */
  function Any<T>(s: seq<T>, p: T -> bool): (r: bool)
    ensures r <==> exists i :: 0 <= i < |s| && p(s[i])
  {
    if s == [] then false
    else if p(s[0]) then true
    else
      var r := Any(s[1..], p);
      assert forall i :: 1 <= i < |s| ==> s[i] == s[1..][i - 1];
      r
  }

  /** `s.every(p)`: every element satisfies `p`. */
  function All<T>(s: seq<T>, p: T -> bool): (r: bool)
    ensures r <==> forall i :: 0 <= i < |s| ==> p(s[i])
  {
    if s == [] then true
    else if !p(s[0]) then false
    else
      var r := All(s[1..], p);
      assert forall i :: 1 <= i < |s| ==> s[i] == s[1..][i - 1];
      r
  }

  /** `s.filter(p)`: the elements that satisfy `p`, in their original order. */
  function Filter<T>(s: seq<T>, p: T -> bool): (r: seq<T>)
    ensures |r| <= |s|
    ensures forall i :: 0 <= i < |r| ==> p(r[i])
  {
    if s == [] then []
    else
      var rest := Filter(s[1..], p);
      if p(s[0]) then [s[0]] + rest else rest
  }

  /** Filtering a concatenation filters each part: `filter` keeps the relative
      order of what it keeps. */
  lemma {:induction false} FilterConcat<T>(a: seq<T>, b: seq<T>, p: T -> bool)
    ensures Filter(a + b, p) == Filter(a, p) + Filter(b, p)
  {
    if a == [] {
      assert a + b == b;
    } else {
      assert (a + b)[1..] == a[1..] + b;
      FilterConcat(a[1..], b, p);
    }
  }

  /** Filtering with a test every element passes changes nothing. */
  lemma {:induction false} FilterAllPass<T>(s: seq<T>, p: T -> bool)
    requires forall i :: 0 <= i < |s| ==> p(s[i])
    ensures Filter(s, p) == s
  {
    if s != [] {
      FilterAllPass(s[1..], p);
      assert s == [s[0]] + s[1..];
    }
  }

  /** `filter` keeps every occurrence of what passes, and none of what fails. */
  lemma {:induction false} FilterCount<T>(s: seq<T>, p: T -> bool, x: T)
    ensures multiset(Filter(s, p))[x] == if p(x) then multiset(s)[x] else 0
  {
    if s != [] {
      FilterCount(s[1..], p, x);
      assert s == [s[0]] + s[1..];
    }
  }

  /** `filter` drops at least one element when some element fails. */
  lemma {:induction false} FilterShrinks<T>(s: seq<T>, p: T -> bool, x: T)
    requires x in s && !p(x)
    ensures |Filter(s, p)| < |s|
  {
    if s[0] != x && p(s[0]) {
      FilterShrinks(s[1..], p, x);
    }
  }

  /** An element is kept by `filter` exactly when it occurs and passes. */
  lemma FilterMembership<T>(s: seq<T>, p: T -> bool, x: T)
    ensures x in Filter(s, p) <==> x in s && p(x)
  {
    FilterCount(s, p, x);
  }

  /** `s.map(f)`: the same length, `f` applied at every position. */
  function Map<T, U>(s: seq<T>, f: T -> U): (r: seq<U>)
    ensures |r| == |s|
    ensures forall i :: 0 <= i < |s| ==> r[i] == f(s[i])
  {
    if s == [] then [] else [f(s[0])] + Map(s[1..], f)
  }

  /** A value occurs in `s.map(f)` exactly when it is `f` of some element. */
  lemma MapMembership<T, U>(s: seq<T>, f: T -> U, y: U)
    ensures y in Map(s, f) <==> exists i :: 0 <= i < |s| && f(s[i]) == y
  {
    if y in Map(s, f) {
      var i :| 0 <= i < |s| && Map(s, f)[i] == y;
    }
  }

  /** One of two values occurs in `s.map(f)` exactly when one of them is `f`
      of some element. */
  lemma MapMembershipEither<T, U>(s: seq<T>, f: T -> U, a: U, b: U)
    ensures (a in Map(s, f) || b in Map(s, f)) <==> exists i :: 0 <= i < |s| && (f(s[i]) == a || f(s[i]) == b)
  {
    MapMembership(s, f, a);
    MapMembership(s, f, b);
  }

  /** `s.indexOf(x)`: the first position holding `x`, or -1. */
  function IndexOf<T(==)>(s: seq<T>, x: T): (r: int)
    ensures -1 <= r < |s|
    ensures r == -1 <==> x !in s
    ensures r >= 0 ==> s[r] == x && forall j :: 0 <= j < r ==> s[j] != x
  {
    if s == [] then -1
    else if s[0] == x then 0
    else
      var k := IndexOf(s[1..], x);
      if k == -1 then -1 else k + 1
  }
  /** A comparator that `sort` can rely on: `less` is asymmetric, and
      whatever is below `b` is below any `c` or `c` is below `b` (negative
      transitivity). Elements that are neither below the other tie. */
  ghost predicate IsStrictWeakOrder<T(!new)>(less: (T, T) -> bool) {
    && (forall a, b :: less(a, b) ==> !less(b, a))
    && (forall a, b, c :: less(a, b) ==> less(a, c) || less(c, b))
  }

  /** The position of the element a stable `sort` by `less` puts first:
      nothing is below it, and everything before it is above it (a tie
      keeps the earliest). */
  function FirstBy<T(!new)>(s: seq<T>, less: (T, T) -> bool): (i: nat)
    requires |s| > 0 && IsStrictWeakOrder(less)
    ensures i < |s|
    ensures forall j :: 0 <= j < |s| ==> !less(s[j], s[i])
    ensures forall j :: 0 <= j < i ==> less(s[i], s[j])
  {
    if |s| == 1 then 0
    else
      var n := |s| - 1;
      var k := FirstBy(s[..n], less);
      assert forall j :: 0 <= j < n ==> s[..n][j] == s[j];
      if less(s[n], s[k]) then
        assert forall j :: 0 <= j < n ==> less(s[n], s[j]) || less(s[j], s[k]);
        n
      else k
  }

  /** The position of the element a stable `sort` by `less` puts last:
      nothing is above it, and everything after it is below it (a tie keeps
      the latest). */
  function LastBy<T(!new)>(s: seq<T>, less: (T, T) -> bool): (i: nat)
    requires |s| > 0 && IsStrictWeakOrder(less)
    ensures i < |s|
    ensures forall j :: 0 <= j < |s| ==> !less(s[i], s[j])
    ensures forall j :: i < j < |s| ==> less(s[j], s[i])
  {
    if |s| == 1 then 0
    else
      var n := |s| - 1;
      var k := LastBy(s[..n], less);
      assert forall j :: 0 <= j < n ==> s[..n][j] == s[j];
      if !less(s[n], s[k]) then n else k
  }
  /** Converting every element with `f`, stopping at the first failure:
      all the results in order, or the position of the first element that
      fails together with its error. */
  function TryMap<T, U, E>(s: seq<T>, f: T -> Result<U, E>): (r: Result<seq<U>, (nat, E)>)
    ensures r.Success? ==> |r.value| == |s|
  {
    if s == [] then Success([])
    else
      var n := |s| - 1;
      match TryMap(s[..n], f)
      case Failure(x) => Failure(x)
      case Success(ys) =>
        match f(s[n])
        case Failure(e) => Failure((n, e))
        case Success(y) => Success(ys + [y])
  }

  /** `TryMap` succeeds exactly when every element converts, and then holds
      each element's result at its position; otherwise it reports the first
      element that fails and that element's error. */
  lemma {:induction false} TryMapMeaning<T, U, E>(s: seq<T>, f: T -> Result<U, E>)
    ensures TryMap(s, f).Success? <==> forall i :: 0 <= i < |s| ==> f(s[i]).Success?
    ensures TryMap(s, f).Success? ==> var ys := TryMap(s, f).value;
              |ys| == |s| && forall i :: 0 <= i < |s| ==> Success(ys[i]) == f(s[i])
    ensures TryMap(s, f).Failure? ==> var (k, e) := TryMap(s, f).error;
              k < |s| && f(s[k]) == Failure(e) && forall j :: 0 <= j < k ==> f(s[j]).Success?
  {
    if s != [] {
      var n := |s| - 1;
      TryMapMeaning(s[..n], f);
      assert forall j :: 0 <= j < n ==> s[..n][j] == s[j];
      if TryMap(s[..n], f).Failure? {
        var k := TryMap(s[..n], f).error.0;
        assert s[..n][k] == s[k];
      }
    }
  }

  /** A failure within a prefix is the failure of the whole sequence. */
  lemma {:induction false} TryMapPrefixFailure<T, U, E>(s: seq<T>, f: T -> Result<U, E>, i: nat)
    requires i <= |s| && TryMap(s[..i], f).Failure?
    ensures TryMap(s, f) == TryMap(s[..i], f)
    decreases |s|
  {
    if i < |s| {
      var n := |s| - 1;
      assert s[..n][..i] == s[..i];
      TryMapPrefixFailure(s[..n], f, i);
    } else {
      assert s[..i] == s;
    }
  }

  /** A `for (const [i, x] of s.entries())` loop that converts each element
      with `f`, pushes the result, and returns at the first failure. */
  method ConvertAll<T, U, E>(s: seq<T>, f: T -> Result<U, E>) returns (r: Result<seq<U>, (nat, E)>)
    ensures r == TryMap(s, f)
  {
    var out: seq<U> := [];
    var i := 0;
    while i < |s|
      invariant 0 <= i <= |s|
      invariant TryMap(s[..i], f) == Success(out)
    {
      assert s[..i + 1][..i] == s[..i];
      var y := f(s[i]);
      if y.Failure? {
        TryMapPrefixFailure(s, f, i + 1);
        return Failure((i, y.error));
      }
      out := out + [y.value];
      i := i + 1;
    }
    assert s[..i] == s;
    return Success(out);
  }
}
