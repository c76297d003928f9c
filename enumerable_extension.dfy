/**
 * Model of the sortedness checks of CK.Core.EnumerableExtension:
 * IsSortedStrict and IsSortedLarge, each with a default-comparer overload
 * and an overload taking an explicit Comparison<T> delegate.
 *
 * The enumerable is a sequence and the enumerator is an index into it.
 * A Comparison<T> is a total function returning a negative, zero or
 * positive number; a null delegate and a null enumerable are `None`.
 */
module EnumerableExtension {

  import opened Nullable

  /** The .NET delegate type Comparison<T>. */
  type Comparison<!T> = (T, T) -> int

  /**
   * The exceptions the checks throw: ArgumentNullException for a null
   * delegate, NullReferenceException when a null enumerable is asked for
   * its enumerator.
   */
  datatype Error = ArgumentNull(paramName: string) | NullReference

  datatype Result<R> = Ok(value: R) | Err(error: Error)

  /** Every adjacent pair (prev, current) compares below zero. */
  predicate AdjacentStrict<T>(s: seq<T>, comparison: Comparison<T>) {
    forall i :: 0 < i < |s| ==> comparison(s[i - 1], s[i]) < 0
  }

  /** Every adjacent pair (prev, current) compares at most zero. */
  predicate AdjacentLarge<T>(s: seq<T>, comparison: Comparison<T>) {
    forall i :: 0 < i < |s| ==> comparison(s[i - 1], s[i]) <= 0
  }

  /** Every pair of positions i < j compares below zero: strict ascending order. */
  ghost predicate GloballyStrict<T>(s: seq<T>, comparison: Comparison<T>) {
    forall i, j :: 0 <= i < j < |s| ==> comparison(s[i], s[j]) < 0
  }

  /** Every pair of positions i < j compares at most zero: large ascending order. */
  ghost predicate GloballyLarge<T>(s: seq<T>, comparison: Comparison<T>) {
    forall i, j :: 0 <= i < j < |s| ==> comparison(s[i], s[j]) <= 0
  }

  /** "Compares below" is transitive. */
  ghost predicate LessTransitive<T(!new)>(comparison: Comparison<T>) {
    forall x, y, z :: comparison(x, y) < 0 && comparison(y, z) < 0 ==> comparison(x, z) < 0
  }

  /** "Compares at most" is transitive. */
  ghost predicate LessOrEqualTransitive<T(!new)>(comparison: Comparison<T>) {
    forall x, y, z :: comparison(x, y) <= 0 && comparison(y, z) <= 0 ==> comparison(x, z) <= 0
  }

  /** Every value compares equal to itself. */
  ghost predicate SelfEqual<T(!new)>(comparison: Comparison<T>) {
    forall x :: comparison(x, x) == 0
  }

  /**
   * IsSortedStrict(source, comparison): a null comparison throws before the
   * source is touched; a null source then throws when asked for its
   * enumerator; otherwise the first adjacent pair comparing >= 0 makes the
   * answer false.
   */
  method IsSortedStrict<T>(source: Option<seq<T>>, comparison: Option<Comparison<T>>) returns (r: Result<bool>)
    ensures comparison.None? ==> r == Err(ArgumentNull("comparison"))
    ensures comparison.Some? && source.None? ==> r == Err(NullReference)
    ensures comparison.Some? && source.Some? ==> r.Ok? && (r.value <==> AdjacentStrict(source.value, comparison.value))
    ensures comparison.Some? && source.Some? && |source.value| <= 1 ==> r == Ok(true)
  {
    if comparison.None? {
      return Err(ArgumentNull("comparison"));
    }
    var compare := comparison.value;
    if source.None? {
      return Err(NullReference);
    }
    var items := source.value;
    if |items| == 0 {
      return Ok(true);
    }
    var prev := items[0];
    var n := 1;
    while n < |items|
      invariant 1 <= n <= |items|
      invariant prev == items[n - 1]
      invariant forall i :: 0 < i < n ==> compare(items[i - 1], items[i]) < 0
    {
      var current := items[n];
      if compare(prev, current) >= 0 {
        return Ok(false);
      }
      prev := current;
      n := n + 1;
    }
    return Ok(true);
  }

  /**
   * IsSortedLarge(source, comparison): as IsSortedStrict, but only a pair
   * comparing > 0 makes the answer false.
   */
  method IsSortedLarge<T>(source: Option<seq<T>>, comparison: Option<Comparison<T>>) returns (r: Result<bool>)
    ensures comparison.None? ==> r == Err(ArgumentNull("comparison"))
    ensures comparison.Some? && source.None? ==> r == Err(NullReference)
    ensures comparison.Some? && source.Some? ==> r.Ok? && (r.value <==> AdjacentLarge(source.value, comparison.value))
    ensures comparison.Some? && source.Some? && |source.value| <= 1 ==> r == Ok(true)
  {
    if comparison.None? {
      return Err(ArgumentNull("comparison"));
    }
    var compare := comparison.value;
    if source.None? {
      return Err(NullReference);
    }
    var items := source.value;
    if |items| == 0 {
      return Ok(true);
    }
    var prev := items[0];
    var n := 1;
    while n < |items|
      invariant 1 <= n <= |items|
      invariant prev == items[n - 1]
      invariant forall i :: 0 < i < n ==> compare(items[i - 1], items[i]) <= 0
    {
      var current := items[n];
      if compare(prev, current) > 0 {
        return Ok(false);
      }
      prev := current;
      n := n + 1;
    }
    return Ok(true);
  }

  /** Comparer<int>.Default.Compare: the sign of a - b. */
  function DefaultCompare(a: int, b: int): (r: int)
    ensures r < 0 <==> a < b
    ensures r == 0 <==> a == b
    ensures r > 0 <==> a > b
  {
    if a < b then -1 else if a > b then 1 else 0
  }

  /** The parameterless IsSortedStrict, for int elements: the comparison overload with the default comparer, which is never null. */
  method IsSortedStrictDefault(source: Option<seq<int>>) returns (r: Result<bool>)
    ensures source.None? ==> r == Err(NullReference)
    ensures source.Some? ==> r.Ok? && (r.value <==> AdjacentStrict(source.value, DefaultCompare))
    ensures source.Some? ==> r.Ok? && (r.value <==> forall i, j :: 0 <= i < j < |source.value| ==> source.value[i] < source.value[j])
  {
    r := IsSortedStrict(source, Some(DefaultCompare));
    if source.Some? {
      AdjacentStrictIsGlobal(source.value, DefaultCompare);
    }
  }

  /** The parameterless IsSortedLarge, for int elements: the comparison overload with the default comparer, which is never null. */
  method IsSortedLargeDefault(source: Option<seq<int>>) returns (r: Result<bool>)
    ensures source.None? ==> r == Err(NullReference)
    ensures source.Some? ==> r.Ok? && (r.value <==> AdjacentLarge(source.value, DefaultCompare))
    ensures source.Some? ==> r.Ok? && (r.value <==> forall i, j :: 0 <= i < j < |source.value| ==> source.value[i] <= source.value[j])
  {
    r := IsSortedLarge(source, Some(DefaultCompare));
    if source.Some? {
      AdjacentLargeIsGlobal(source.value, DefaultCompare);
    }
  }

  /** One step of the lifting: positions i < j of an adjacent-strict sequence compare below zero. */
  lemma {:induction false} StrictBetween<T(!new)>(s: seq<T>, comparison: Comparison<T>, i: nat, j: nat)
    requires AdjacentStrict(s, comparison) && LessTransitive(comparison)
    requires i < j < |s|
    ensures comparison(s[i], s[j]) < 0
    decreases j - i
  {
    if i + 1 < j {
      StrictBetween(s, comparison, i, j - 1);
    }
  }

  /** One step of the lifting: positions i < j of an adjacent-large sequence compare at most zero. */
  lemma {:induction false} LargeBetween<T(!new)>(s: seq<T>, comparison: Comparison<T>, i: nat, j: nat)
    requires AdjacentLarge(s, comparison) && LessOrEqualTransitive(comparison)
    requires i < j < |s|
    ensures comparison(s[i], s[j]) <= 0
    decreases j - i
  {
    if i + 1 < j {
      LargeBetween(s, comparison, i, j - 1);
    }
  }

  /** With a transitive comparison, the adjacent check decides strict ascending order. */
  lemma AdjacentStrictIsGlobal<T(!new)>(s: seq<T>, comparison: Comparison<T>)
    requires LessTransitive(comparison)
    ensures AdjacentStrict(s, comparison) <==> GloballyStrict(s, comparison)
  {
    if AdjacentStrict(s, comparison) {
      forall i, j | 0 <= i < j < |s|
        ensures comparison(s[i], s[j]) < 0
      {
        StrictBetween(s, comparison, i, j);
      }
    }
  }

  /** With a transitive comparison, the adjacent check decides large ascending order. */
  lemma AdjacentLargeIsGlobal<T(!new)>(s: seq<T>, comparison: Comparison<T>)
    requires LessOrEqualTransitive(comparison)
    ensures AdjacentLarge(s, comparison) <==> GloballyLarge(s, comparison)
  {
    if AdjacentLarge(s, comparison) {
      forall i, j | 0 <= i < j < |s|
        ensures comparison(s[i], s[j]) <= 0
      {
        LargeBetween(s, comparison, i, j);
      }
    }
  }

  /**
   * "Strict (no duplicates)": with a transitive comparison under which every
   * value equals itself, a strictly sorted sequence holds no value twice.
   */
  lemma StrictMeansNoDuplicates<T(!new)>(s: seq<T>, comparison: Comparison<T>)
    requires LessTransitive(comparison) && SelfEqual(comparison)
    requires AdjacentStrict(s, comparison)
    ensures forall i, j :: 0 <= i < j < |s| ==> s[i] != s[j]
  {
    forall i, j | 0 <= i < j < |s|
      ensures s[i] != s[j]
    {
      StrictBetween(s, comparison, i, j);
    }
  }

  /** A strictly sorted sequence is also large-sorted under the same comparison. */
  lemma StrictImpliesLarge<T>(s: seq<T>, comparison: Comparison<T>)
    ensures AdjacentStrict(s, comparison) ==> AdjacentLarge(s, comparison)
  {
  }

  /** An adjacent pair that compares equal passes the large check and fails the strict one. */
  lemma EqualNeighboursAreLargeNotStrict<T>(s: seq<T>, comparison: Comparison<T>, k: nat)
    requires 0 < k < |s| && comparison(s[k - 1], s[k]) == 0
    ensures !AdjacentStrict(s, comparison)
    ensures AdjacentLarge(s, comparison) <==> AdjacentLarge(s[..k], comparison) && AdjacentLarge(s[k..], comparison)
  {
    if AdjacentLarge(s[..k], comparison) && AdjacentLarge(s[k..], comparison) {
      forall i | 0 < i < |s|
        ensures comparison(s[i - 1], s[i]) <= 0
      {
        if i < k {
          assert s[..k][i - 1] == s[i - 1];
        } else if i > k {
          assert s[k..][i - k] == s[i];
        }
      }
    }
  }
}
