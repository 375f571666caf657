/**
 * The manufacturer filter of the catalog search: a condition object holding
 * the ids of the manufacturers to filter by, normalised on construction to
 * PHP ints in ascending numeric order (duplicates kept).
 */
module ManufacturerConditions {
  import opened Wrappers
  import opened Integerish
  import opened NumericSort

  /** The condition's name, under which the search engine looks up its handler. */
  const NAME: string := "manufacturer"

  /** The assertion failure raised for the first id that is not integerish. */
  datatype AssertionFailed = NotIntegerish(position: nat, id: RawId)

  /**
   * What the constructor stores for an accepted id list: every id converted
   * with `intval`, then sorted numerically.
   */
  function Normalize(raw: seq<RawId>): (ids: seq<int>)
    requires AllIntegerish(raw)
    ensures |ids| == |raw|
    ensures Sorted(ids)
    ensures multiset(ids) == multiset(IntvalAll(raw))
    ensures forall k :: 0 <= k < |ids| ==> PHP_INT_MIN <= ids[k] <= PHP_INT_MAX
  {
    var ints := IntvalAll(raw);
    var ids := SortSeq(ints);
    assert forall k :: 0 <= k < |ids| ==> ids[k] in multiset(ints);
    ids
  }

  /** The position of the first id the integerish check refuses. */
  function FirstRejected(raw: seq<RawId>): (k: nat)
    requires !AllIntegerish(raw)
    ensures k < |raw| && !IsIntegerish(raw[k])
    ensures forall j :: 0 <= j < k ==> IsIntegerish(raw[j])
    decreases |raw|
  {
    if !IsIntegerish(raw[0]) then 0
    else
      assert !AllIntegerish(raw[1..]) by {
        var j :| 0 <= j < |raw| && !IsIntegerish(raw[j]);
        assert raw[1..][j - 1] == raw[j];
      }
      1 + FirstRejected(raw[1..])
  }

  class ManufacturerCondition {
    /** The normalised ids; sorted in place once, during construction. */
    var manufacturerIds: array<int>

    ghost predicate Valid()
      reads this, manufacturerIds
    {
      Sorted(manufacturerIds[..])
    }

    /**
     * The part of the PHP constructor after the assertion: store the
     * `intval` of every id, then sort that array in place.
     */
    constructor (raw: seq<RawId>)
      requires AllIntegerish(raw)
      ensures fresh(manufacturerIds)
      ensures Valid()
      ensures manufacturerIds[..] == Normalize(raw)
    {
      var ints := IntvalAll(raw);
      manufacturerIds := new int[|ints|](k requires 0 <= k < |ints| => ints[k]);
      new;
      assert manufacturerIds[..] == ints;
      SortInPlace(manufacturerIds);
    }

    /**
     * The whole PHP constructor: the integerish assertion throws for the
     * first refused id; otherwise the normalised condition is built.
     */
    static method Create(raw: seq<RawId>) returns (r: Result<ManufacturerCondition, AssertionFailed>)
      ensures r.Failure? <==> !AllIntegerish(raw)
      ensures r.Failure? ==> r.error == NotIntegerish(FirstRejected(raw), raw[FirstRejected(raw)])
      ensures r.Success? ==> fresh(r.value) && fresh(r.value.manufacturerIds)
      ensures r.Success? ==> r.value.Valid() && r.value.manufacturerIds[..] == Normalize(raw)
    {
      if !AllIntegerish(raw) {
        var k := FirstRejected(raw);
        return Failure(NotIntegerish(k, raw[k]));
      }
      var c := new ManufacturerCondition(raw);
      return Success(c);
    }

    /** `getName`: the fixed condition name. */
    function GetName(): (name: string)
      ensures name == "manufacturer"
    {
      NAME
    }

    /** `getManufacturerIds`: a copy of the stored list, in ascending order; nothing changes. */
    method GetManufacturerIds() returns (ids: seq<int>)
      requires Valid()
      ensures ids == manufacturerIds[..]
      ensures Sorted(ids)
    {
      ids := manufacturerIds[..];
    }
  }

  /** Ints handed back to the constructor as ids. */
  function AsRawIds(ids: seq<int>): (raw: seq<RawId>)
    requires forall k :: 0 <= k < |ids| ==> PHP_INT_MIN <= ids[k] <= PHP_INT_MAX
    ensures |raw| == |ids| && AllIntegerish(raw)
    ensures forall k :: 0 <= k < |ids| ==> raw[k] == IntId(ids[k])
  {
    seq(|ids|, k requires 0 <= k < |ids| && PHP_INT_MIN <= ids[k] <= PHP_INT_MAX => IntId(ids[k]))
  }

  /** Converting a list with one element taken out. */
  lemma IntvalAllRemove(r: seq<RawId>, j: nat)
    requires AllIntegerish(r) && j < |r|
    ensures AllIntegerish(r[..j] + r[j + 1..])
    ensures multiset(r) == multiset(r[..j] + r[j + 1..]) + multiset{r[j]}
    ensures multiset(IntvalAll(r)) == multiset(IntvalAll(r[..j] + r[j + 1..])) + multiset{Intval(r[j])}
  {
    var rest := r[..j] + r[j + 1..];
    assert r == r[..j] + [r[j]] + r[j + 1..];
    assert AllIntegerish(rest) by {
      forall k | 0 <= k < |rest| ensures IsIntegerish(rest[k]) {
        if k < j { assert rest[k] == r[k]; } else { assert rest[k] == r[k + 1]; }
      }
    }
    var ints := IntvalAll(r);
    assert IntvalAll(rest) == ints[..j] + ints[j + 1..];
    assert ints == ints[..j] + [ints[j]] + ints[j + 1..];
  }

  /**
   * The conversion respects rearrangement: permuting the ids permutes their
   * `intval`s, and a permutation of an accepted list is accepted.
   */
  lemma {:induction false} IntvalAllPermutation(r1: seq<RawId>, r2: seq<RawId>)
    requires AllIntegerish(r1)
    requires multiset(r1) == multiset(r2)
    ensures AllIntegerish(r2)
    ensures multiset(IntvalAll(r1)) == multiset(IntvalAll(r2))
    decreases |r1|
  {
    PermutationIntegerish(r1, r2);
    if r1 == [] {
      assert |r2| == |multiset(r2)| == 0;
    } else {
      assert r1[0] in r2 by { assert r1[0] in multiset(r2); }
      var j :| 0 <= j < |r2| && r2[j] == r1[0];
      PermutationStep(r1, r2, j);
      IntvalAllPermutation(r1[1..], r2[..j] + r2[j + 1..]);
    }
  }

  /**
   * One step of the induction above: match the first id of `r1` with a copy
   * at position `j` of `r2`; the rests are permutations of each other, and
   * if their conversions are too then so are those of `r1` and `r2`.
   */
  lemma PermutationStep(r1: seq<RawId>, r2: seq<RawId>, j: nat)
    requires AllIntegerish(r1) && AllIntegerish(r2)
    requires multiset(r1) == multiset(r2)
    requires r1 != [] && j < |r2| && r2[j] == r1[0]
    ensures AllIntegerish(r1[1..]) && AllIntegerish(r2[..j] + r2[j + 1..])
    ensures multiset(r1[1..]) == multiset(r2[..j] + r2[j + 1..])
    ensures multiset(IntvalAll(r1[1..])) == multiset(IntvalAll(r2[..j] + r2[j + 1..])) ==>
              multiset(IntvalAll(r1)) == multiset(IntvalAll(r2))
  {
    var tail, rest := r1[1..], r2[..j] + r2[j + 1..];
    IntvalAllRemove(r2, j);
    IntvalAllDropFirst(r1);
    assert multiset(tail) + multiset{r1[0]} == multiset(rest) + multiset{r1[0]};
    MultisetCancel(multiset(tail), multiset(rest), r1[0]);
  }

  /** Converting a list without its first id. */
  lemma IntvalAllDropFirst(r: seq<RawId>)
    requires AllIntegerish(r) && r != []
    ensures AllIntegerish(r[1..])
    ensures multiset(r) == multiset(r[1..]) + multiset{r[0]}
    ensures multiset(IntvalAll(r)) == multiset(IntvalAll(r[1..])) + multiset{Intval(r[0])}
  {
    assert r == [r[0]] + r[1..];
    assert AllIntegerish(r[1..]) by {
      forall k | 0 <= k < |r| - 1 ensures IsIntegerish(r[1..][k]) {
        assert r[1..][k] == r[k + 1];
      }
    }
    assert IntvalAll(r) == [Intval(r[0])] + IntvalAll(r[1..]);
  }

  lemma MultisetCancel<T>(a: multiset<T>, b: multiset<T>, x: T)
    requires a + multiset{x} == b + multiset{x}
    ensures a == b
  {
    assert a == (a + multiset{x}) - multiset{x};
    assert b == (b + multiset{x}) - multiset{x};
  }

  lemma PermutationIntegerish(r1: seq<RawId>, r2: seq<RawId>)
    requires AllIntegerish(r1)
    requires multiset(r1) == multiset(r2)
    ensures AllIntegerish(r2)
  {
    forall k | 0 <= k < |r2| ensures IsIntegerish(r2[k]) {
      assert r2[k] in multiset(r1);
    }
  }

  /** The stored list does not depend on the order the ids were given in. */
  lemma NormalizeIgnoresOrder(r1: seq<RawId>, r2: seq<RawId>)
    requires AllIntegerish(r1)
    requires multiset(r1) == multiset(r2)
    ensures AllIntegerish(r2)
    ensures Normalize(r1) == Normalize(r2)
  {
    IntvalAllPermutation(r1, r2);
    SortSeqIgnoresOrder(IntvalAll(r1), IntvalAll(r2));
  }

  /** Constructing a condition from `getManufacturerIds()` of another gives back the same list. */
  lemma NormalizeIdempotent(raw: seq<RawId>)
    requires AllIntegerish(raw)
    ensures Normalize(AsRawIds(Normalize(raw))) == Normalize(raw)
  {
    var ids := Normalize(raw);
    assert IntvalAll(AsRawIds(ids)) == ids;
    SortSeqOfSorted(ids);
  }

  /** Giving an id as its decimal string instead of as an int yields the same stored list. */
  lemma StringOrIntSameIds(raw: seq<RawId>, k: nat, n: PhpInt)
    requires k < |raw|
    requires AllIntegerish(raw[k := IntId(n)])
    ensures AllIntegerish(raw[k := StrId(DecimalString(n))])
    ensures Normalize(raw[k := StrId(DecimalString(n))]) == Normalize(raw[k := IntId(n)])
  {
    DecimalStringIsIntegerish(n);
    var asString := raw[k := StrId(DecimalString(n))];
    var asInt := raw[k := IntId(n)];
    assert forall j :: 0 <= j < |raw| && j != k ==> asString[j] == asInt[j];
    assert IntvalAll(asString) == IntvalAll(asInt);
  }

  /** A list holding a non-numeric string is refused; for instance `[1, "abc"]`. */
  lemma NonNumericStringRefused(raw: seq<RawId>)
    requires raw == [IntId(1), StrId("abc")]
    ensures !AllIntegerish(raw) && FirstRejected(raw) == 1
  {
    RejectedExamples();
    assert !IsIntegerish(raw[1]);
  }
}
