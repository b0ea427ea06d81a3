/** The calculator's statistics (python/test_failure/statistics.py): mean,
    median and mode of a list of numbers. Python floats are exact reals
    here. The standard deviation and variance are not modelled. */
module Statistics {
  import opened Wrappers
  import opened Sorting

  /** The two exceptions these functions raise. */
  datatype Error = ValueError(message: string) | ZeroDivisionError(message: string)

  /** The key Python's `sorted` orders numbers by: the number itself. */
  function Value(x: real): real { x }

  /** `sum(numbers)`: the numbers added from the left, starting at 0. */
  function Sum(numbers: seq<real>): real {
    if numbers == [] then 0.0 else Sum(numbers[..|numbers| - 1]) + numbers[|numbers| - 1]
  }

  // ---------------------------------------------------------------------
  // calculate_mean
  // ---------------------------------------------------------------------

  /** `calculate_mean` as written: there is no empty check, so the empty
      list divides 0 by 0 and raises ZeroDivisionError instead of the
      documented ValueError; any other list has the sum divided by the
      count as its mean. */
  function Mean(numbers: seq<real>): (r: Result<real, Error>)
    ensures r.Err? <==> numbers == []
    ensures r.Err? ==> r.error == ZeroDivisionError("division by zero")
    ensures r.Ok? ==> r.value * (|numbers| as real) == Sum(numbers)
  {
    if |numbers| == 0 then Err(ZeroDivisionError("division by zero"))
    else Ok(Sum(numbers) / (|numbers| as real))
  }

  /** The mean with the check the docstring and the tests ask for: the
      documented ValueError exactly on the empty list, and otherwise the
      mean as written. */
  function CheckedMean(numbers: seq<real>): (r: Result<real, Error>)
    ensures r.Err? <==> numbers == []
    ensures r.Err? ==> r.error == ValueError("Cannot calculate mean of empty list")
    ensures r.Ok? ==> r == Mean(numbers) && r.value * (|numbers| as real) == Sum(numbers)
  {
    if numbers == [] then Err(ValueError("Cannot calculate mean of empty list"))
    else Mean(numbers)
  }

  /** The values the tests expect of the mean. */
  lemma MeanExamples()
    ensures CheckedMean([1.0, 2.0, 3.0, 4.0, 5.0]) == Ok(3.0)
    ensures CheckedMean([10.0, 20.0, 30.0]) == Ok(20.0)
    ensures CheckedMean([42.0]) == Ok(42.0)
  {
    assert [42.0][..0] == [];
    assert Sum([1.0]) == 1.0 by { assert [1.0][..0] == []; }
    assert Sum([1.0, 2.0]) == 3.0 by { assert [1.0, 2.0][..1] == [1.0]; }
    assert Sum([1.0, 2.0, 3.0]) == 6.0 by { assert [1.0, 2.0, 3.0][..2] == [1.0, 2.0]; }
    assert Sum([1.0, 2.0, 3.0, 4.0]) == 10.0 by { assert [1.0, 2.0, 3.0, 4.0][..3] == [1.0, 2.0, 3.0]; }
    assert Sum([1.0, 2.0, 3.0, 4.0, 5.0]) == 15.0 by { assert [1.0, 2.0, 3.0, 4.0, 5.0][..4] == [1.0, 2.0, 3.0, 4.0]; }
    assert Sum([10.0]) == 10.0 by { assert [10.0][..0] == []; }
    assert Sum([10.0, 20.0]) == 30.0 by { assert [10.0, 20.0][..1] == [10.0]; }
    assert Sum([10.0, 20.0, 30.0]) == 60.0 by { assert [10.0, 20.0, 30.0][..2] == [10.0, 20.0]; }
  }

  // ---------------------------------------------------------------------
  // calculate_median
  // ---------------------------------------------------------------------

  /** `calculate_median` as written: the element at index n // 2 of the
      sorted list, for odd and even lengths alike. */
  function Median(numbers: seq<real>): Result<real, Error> {
    if numbers == [] then Err(ValueError("Cannot calculate median of empty list"))
    else Ok(SortBy(numbers, Value)[|numbers| / 2])
  }

  /** A sorted rearrangement of `numbers`. */
  ghost predicate SortedPermutation(p: seq<real>, numbers: seq<real>) {
    multiset(p) == multiset(numbers) && SortedBy(p, Value)
  }

  /** The median raises exactly on the empty list; otherwise it is one of
      the numbers, the one at position n // 2 once they are sorted. */
  lemma MedianSpec(numbers: seq<real>)
    ensures Median(numbers).Err? <==> numbers == []
    ensures Median(numbers).Err? ==> Median(numbers).error == ValueError("Cannot calculate median of empty list")
    ensures Median(numbers).Ok? ==>
      && Median(numbers).value in numbers
      && exists p :: SortedPermutation(p, numbers) && |p| == |numbers| && p[|numbers| / 2] == Median(numbers).value
  {
    if numbers != [] {
      var p := SortBy(numbers, Value);
      SortPermutes(numbers, Value);
      SortSorted(numbers, Value);
      assert p[|numbers| / 2] in multiset(p);
      assert SortedPermutation(p, numbers);
    }
  }

  /** The last element of a sorted list is its largest. */
  lemma SortedLastIsMax(p: seq<real>)
    requires p != [] && SortedBy(p, Value)
    ensures forall x :: x in multiset(p) ==> x <= p[|p| - 1]
  {
    forall x | x in multiset(p)
      ensures x <= p[|p| - 1]
    {
      var i :| 0 <= i < |p| && p[i] == x;
      if i < |p| - 1 {
        assert Value(p[i]) <= Value(p[|p| - 1]);
      }
    }
  }

  /** Dropping the last element of a list keeps it sorted and removes that
      element once from its multiset. */
  lemma DropLast(p: seq<real>)
    requires p != []
    ensures SortedBy(p, Value) ==> SortedBy(p[..|p| - 1], Value)
    ensures multiset(p[..|p| - 1]) == multiset(p) - multiset{p[|p| - 1]}
  {
    assert p == p[..|p| - 1] + [p[|p| - 1]];
  }

  /** The sorted rearrangement is unique, so the median does not depend on
      which one is taken. */
  lemma {:induction false} SortedPermutationUnique(p: seq<real>, q: seq<real>)
    requires multiset(p) == multiset(q) && SortedBy(p, Value) && SortedBy(q, Value)
    ensures p == q
    decreases |p|
  {
    assert |p| == |q| by {
      assert |p| == |multiset(p)| && |q| == |multiset(q)|;
    }
    if p != [] {
      var n := |p| - 1;
      assert p[n] == q[n] by {
        SortedLastIsMax(p);
        SortedLastIsMax(q);
        assert p[n] in multiset(p) && q[n] in multiset(q);
      }
      DropLast(p);
      DropLast(q);
      SortedPermutationUnique(p[..n], q[..n]);
      SameInitAndLast(p, q);
    }
  }

  lemma SameInitAndLast(p: seq<real>, q: seq<real>)
    requires |p| == |q| > 0 && p[..|p| - 1] == q[..|q| - 1] && p[|p| - 1] == q[|q| - 1]
    ensures p == q
  {
    assert p == p[..|p| - 1] + [p[|p| - 1]] && q == q[..|q| - 1] + [q[|q| - 1]];
  }

  /** On an even length the median as written is the upper of the two
      middle elements: [1, 2, 3, 4] gives 3 where the tests expect 2.5. */
  lemma MedianEvenAsWritten()
    ensures Median([1.0, 2.0, 3.0, 4.0]) == Ok(3.0)
    ensures Median([1.0, 2.0, 3.0, 4.0, 5.0, 6.0]) == Ok(4.0)
  {
    SortOneToFour();
    SortOneToSix();
  }

  /** The median the tests expect: the mean of the two middle elements on
      an even length. */
  function TrueMedian(numbers: seq<real>): Result<real, Error> {
    if numbers == [] then Err(ValueError("Cannot calculate median of empty list"))
    else
      var sorted := SortBy(numbers, Value);
      var mid := |numbers| / 2;
      if |numbers| % 2 == 0 then Ok((sorted[mid - 1] + sorted[mid]) / 2.0) else Ok(sorted[mid])
  }

  /** The corrected median agrees with the one as written on odd lengths,
      and on even lengths lies between the two middle elements. */
  lemma TrueMedianSpec(numbers: seq<real>)
    ensures TrueMedian(numbers).Err? <==> numbers == []
    ensures |numbers| % 2 == 1 ==> TrueMedian(numbers) == Median(numbers)
    ensures numbers != [] && |numbers| % 2 == 0 ==>
      var sorted := SortBy(numbers, Value);
      sorted[|numbers| / 2 - 1] <= TrueMedian(numbers).value <= sorted[|numbers| / 2]
  {
    if numbers != [] && |numbers| % 2 == 0 {
      SortSorted(numbers, Value);
    }
  }

  /** The values the tests expect of the median on even lengths. */
  lemma TrueMedianEvenExamples()
    ensures TrueMedian([1.0, 2.0, 3.0, 4.0]) == Ok(2.5)
    ensures TrueMedian([1.0, 2.0, 3.0, 4.0, 5.0, 6.0]) == Ok(3.5)
  {
    SortOneToFour();
    SortOneToSix();
  }

  /** The values the tests expect of the median on odd lengths, where the
      median as written is already right. */
  lemma MedianOddExamples()
    ensures Median([1.0, 2.0, 3.0, 4.0, 5.0]) == Ok(3.0)
    ensures Median([1.0, 3.0, 2.0]) == Ok(2.0)
  {
    SortOfSorted([1.0, 2.0, 3.0, 4.0, 5.0], Value);
    SortOneThreeTwo();
  }

  lemma SortOneToFour()
    ensures SortBy([1.0, 2.0, 3.0, 4.0], Value) == [1.0, 2.0, 3.0, 4.0]
  {
    SortOfSorted([1.0, 2.0, 3.0, 4.0], Value);
  }

  lemma SortOneToSix()
    ensures SortBy([1.0, 2.0, 3.0, 4.0, 5.0, 6.0], Value) == [1.0, 2.0, 3.0, 4.0, 5.0, 6.0]
  {
    SortOfSorted([1.0, 2.0, 3.0, 4.0, 5.0, 6.0], Value);
  }

  lemma SortOneThreeTwo()
    ensures SortBy([1.0, 3.0, 2.0], Value) == [1.0, 2.0, 3.0]
  {
    var odd := [1.0, 3.0, 2.0];
    assert odd[..2] == [1.0, 3.0];
    assert SortBy([1.0, 3.0], Value) == [1.0, 3.0] by {
      SortOfSorted([1.0, 3.0], Value);
    }
    assert Insert(2.0, [3.0], Value) == [2.0, 3.0] by {
      assert [3.0][1..] == [];
    }
    assert Insert(2.0, [1.0, 3.0], Value) == [1.0, 2.0, 3.0] by {
      assert [1.0, 3.0][1..] == [3.0];
    }
  }

  // ---------------------------------------------------------------------
  // calculate_mode
  // ---------------------------------------------------------------------

  /** How often `x` occurs in `numbers`. */
  function Count(numbers: seq<real>, x: real): nat {
    multiset(numbers)[x]
  }

  /** `x` occurs in `numbers` at least as often as any other value. */
  ghost predicate IsMode(numbers: seq<real>, x: real) {
    x in numbers && forall y :: y in numbers ==> Count(numbers, y) <= Count(numbers, x)
  }

  /** No value occurs twice. */
  ghost predicate NoRepeats(s: seq<real>) {
    forall x :: multiset(s)[x] <= 1
  }

  /** `max(frequency.values())`, over the keys in insertion order. */
  function MaxFrequency(keys: seq<real>, frequency: map<real, nat>): (m: nat)
    requires forall k :: k in keys ==> k in frequency
    ensures forall k :: k in keys ==> frequency[k] <= m
    ensures keys != [] ==> exists k :: k in keys && frequency[k] == m
  {
    if keys == [] then 0
    else
      var last := keys[|keys| - 1];
      assert last in keys;
      var m := MaxFrequency(keys[..|keys| - 1], frequency);
      assert keys == keys[..|keys| - 1] + [last];
      if frequency[last] > m then frequency[last] else m
  }

  /** `[num for num, freq in frequency.items() if freq == max_freq]`. */
  function WithFrequency(keys: seq<real>, frequency: map<real, nat>, f: nat): (r: seq<real>)
    requires forall k :: k in keys ==> k in frequency
    ensures forall x :: x in r <==> x in keys && frequency[x] == f
    ensures multiset(r) <= multiset(keys)
  {
    if keys == [] then []
    else
      var last := keys[|keys| - 1];
      var init := keys[..|keys| - 1];
      assert keys == init + [last];
      WithFrequency(init, frequency, f) + (if frequency[last] == f then [last] else [])
  }

  /** `calculate_mode`: the frequency table is filled in one pass; the
      values of highest frequency are returned in ascending order, each
      once. */
  method CalculateMode(numbers: seq<real>) returns (r: Result<seq<real>, Error>)
    ensures r.Err? <==> numbers == []
    ensures r.Err? ==> r.error == ValueError("Cannot calculate mode of empty list")
    ensures r.Ok? ==> SortedBy(r.value, Value) && NoRepeats(r.value)
    ensures r.Ok? ==> forall x :: x in r.value <==> IsMode(numbers, x)
  {
    if numbers == [] {
      return Err(ValueError("Cannot calculate mode of empty list"));
    }
    var keys: seq<real> := [];
    var frequency: map<real, nat> := map[];
    for i := 0 to |numbers|
      invariant NoRepeats(keys)
      invariant forall x :: x in keys <==> x in frequency
      invariant forall x :: x in frequency <==> x in numbers[..i]
      invariant forall x :: x in frequency ==> frequency[x] == Count(numbers[..i], x)
    {
      var num := numbers[i];
      assert numbers[..i + 1] == numbers[..i] + [num];
      var isNew := num !in frequency;
      frequency := frequency[num := (if num in frequency then frequency[num] else 0) + 1];
      if isNew {
        keys := keys + [num];
      }
    }
    assert numbers[..|numbers|] == numbers;
    var maxFreq := MaxFrequency(keys, frequency);
    var modes := WithFrequency(keys, frequency, maxFreq);
    ModesAreModes(numbers, keys, frequency, maxFreq, modes);
    var sorted := SortBy(modes, Value);
    SortPermutes(modes, Value);
    SortSorted(modes, Value);
    assert forall x :: x in sorted <==> x in modes by {
      forall x ensures x in sorted <==> x in modes {
        assert x in sorted <==> x in multiset(sorted);
      }
    }
    return Ok(sorted);
  }

  /** The values of highest count in a complete frequency table are the modes. */
  lemma {:induction false} ModesAreModes(numbers: seq<real>, keys: seq<real>, frequency: map<real, nat>, maxFreq: nat, modes: seq<real>)
    requires numbers != [] && NoRepeats(keys)
    requires forall x :: x in keys <==> x in frequency
    requires forall x :: x in frequency <==> x in numbers
    requires forall x :: x in frequency ==> frequency[x] == Count(numbers, x)
    requires maxFreq == MaxFrequency(keys, frequency)
    requires modes == WithFrequency(keys, frequency, maxFreq)
    ensures NoRepeats(modes)
    ensures forall x :: x in modes <==> IsMode(numbers, x)
  {
    var first := numbers[0];
    assert first in numbers;
    assert first in frequency;
    assert first in keys;
    var top :| top in keys && frequency[top] == maxFreq;
    forall x
      ensures x in modes <==> IsMode(numbers, x)
    {
      if IsMode(numbers, x) {
        assert Count(numbers, top) <= Count(numbers, x);
      }
    }
    forall x
      ensures multiset(modes)[x] <= 1
    {
      assert multiset(modes)[x] <= multiset(keys)[x];
    }
  }
}
