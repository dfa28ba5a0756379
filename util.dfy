/** Util.java: array helpers. Java arrays are Dafny arrays; an ArrayList that
    a helper grows or updates is a sequence the helper returns. */
module Util {

  const IntMax: int := 0x7fff_ffff
  const IntMin: int := -0x8000_0000

  /** Two's-complement wrap-around of a Java int addition. */
  function Wrap32(n: int): (r: int)
    ensures IntMin <= r <= IntMax
    ensures (r - n) % 0x1_0000_0000 == 0
  {
    (n - IntMin) % 0x1_0000_0000 + IntMin
  }

  /** The integers lo, lo+1, ..., hi-1 (empty when hi <= lo), as IntStream.range. */
  function Range(lo: int, hi: int): (r: seq<int>)
    ensures |r| == if hi <= lo then 0 else hi - lo
    ensures forall k :: 0 <= k < |r| ==> r[k] == lo + k
    decreases hi - lo
  {
    if hi <= lo then [] else [lo] + Range(lo + 1, hi)
  }

  /** Every value of a range occurs in it exactly once. */
  lemma {:induction false} RangeOccurrences(lo: int, hi: int, v: int)
    ensures multiset(Range(lo, hi))[v] == if lo <= v < hi then 1 else 0
    decreases hi - lo
  {
    if lo < hi {
      RangeOccurrences(lo + 1, hi, v);
      assert Range(lo, hi) == [lo] + Range(lo + 1, hi);
    }
  }

  /** Swaps values in ns at indexes i and j; nothing at all happens when i == j. */
  method Swap(ns: array<int>, i: int, j: int)
    requires i == j || (0 <= i < ns.Length && 0 <= j < ns.Length)
    modifies ns
    ensures i != j ==> ns[i] == old(ns[j]) && ns[j] == old(ns[i])
    ensures forall k :: 0 <= k < ns.Length && k != i && k != j ==> ns[k] == old(ns[k])
    ensures ns[..] == old(ns[..]) || i != j
    ensures multiset(ns[..]) == old(multiset(ns[..]))
  {
    if i == j {
      return;
    }
    var tmp := ns[i];
    ns[i] := ns[j];
    ns[j] := tmp;
  }

  /** The Fisher-Yates shuffle shared by both permutation methods: afterwards
      the array holds the same values in some order. `draw(i)` is the value
      random.nextInt(i + 1) returns in the step for i. */
  method Shuffle(numbers: array<int>, draw: nat -> nat)
    requires forall i: nat :: draw(i) <= i
    modifies numbers
    ensures multiset(numbers[..]) == old(multiset(numbers[..]))
  {
    var i := numbers.Length - 1;
    while i >= 1
      invariant i < numbers.Length
      invariant multiset(numbers[..]) == old(multiset(numbers[..]))
    {
      var j := draw(i);
      Swap(numbers, i, j);
      i := i - 1;
    }
  }

  /** Returns numbers 0..max in random order (permutation(random, max)). */
  method Permutation(draw: nat -> nat, max: int) returns (numbers: array<int>)
    requires forall i: nat :: draw(i) <= i
    ensures numbers.Length == if max < 0 then 0 else max + 1
    ensures forall k :: 0 <= k < numbers.Length ==> 0 <= numbers[k] <= max
    ensures forall v :: 0 <= v <= max ==> multiset(numbers[..])[v] == 1
  {
    numbers := PermutationRange(draw, 0, max);
  }

  /** Returns numbers min..max in random order (permutation(random, min, max)). */
  method PermutationRange(draw: nat -> nat, min: int, max: int) returns (numbers: array<int>)
    requires forall i: nat :: draw(i) <= i
    ensures numbers.Length == if max < min then 0 else max - min + 1
    ensures multiset(numbers[..]) == multiset(Range(min, max + 1))
    ensures forall k :: 0 <= k < numbers.Length ==> min <= numbers[k] <= max
    ensures forall v :: min <= v <= max ==> multiset(numbers[..])[v] == 1
  {
    var r := Range(min, max + 1);
    numbers := new int[|r|](k requires 0 <= k < |r| => r[k]);
    assert numbers[..] == r;
    Shuffle(numbers, draw);
    forall v | true
      ensures multiset(numbers[..])[v] == if min <= v <= max then 1 else 0
    {
      RangeOccurrences(min, max + 1, v);
    }
    forall k | 0 <= k < numbers.Length
      ensures min <= numbers[k] <= max
    {
      assert numbers[k] in multiset(numbers[..]);
    }
  }

  /** The first index holding value, or -1 when there is none. */
  function FirstIndexOf(s: seq<int>, value: int): (r: int)
    ensures -1 <= r < |s|
    ensures r == -1 <==> value !in s
    ensures 0 <= r ==> s[r] == value && value !in s[..r]
  {
    if |s| == 0 then -1
    else if s[0] == value then 0
    else
      var r := FirstIndexOf(s[1..], value);
      if r == -1 then -1
      else
        assert s[1..][..r] == s[1..r + 1];
        r + 1
  }

  /** Util.findFirst. */
  method FindFirst(ns: array<int>, value: int) returns (i0: int)
    ensures i0 == FirstIndexOf(ns[..], value)
  {
    i0 := -1;
    for i := 0 to ns.Length
      invariant value !in ns[..i]
    {
      if ns[i] == value {
        i0 := i;
        break;
      }
    }
    FirstIndexOfUnique(ns[..], value, i0);
  }

  /** Util.indexOf, the same search as findFirst. */
  method IndexOf(numbers: array<int>, value: int) returns (index: int)
    ensures index == FirstIndexOf(numbers[..], value)
  {
    index := -1;
    var i := 0;
    while i < numbers.Length
      invariant 0 <= i <= numbers.Length
      invariant value !in numbers[..i]
      invariant index == -1
    {
      if numbers[i] == value {
        index := i;
        break;
      }
      i := i + 1;
    }
    FirstIndexOfUnique(numbers[..], value, index);
  }

  /** The first index is determined by the two properties the searches establish. */
  lemma FirstIndexOfUnique(s: seq<int>, value: int, r: int)
    requires (r == -1 && value !in s) || (0 <= r < |s| && s[r] == value && value !in s[..r])
    ensures r == FirstIndexOf(s, value)
  {
  }

  /** The loop of indexOfMinimum written as a recursion over the prefix: the
      first index of the minimum, provided some element is below IntMax,
      and -1 otherwise. */
  function IndexOfMinimumOf(s: seq<int>): (r: int)
    ensures -1 <= r < |s|
  {
    if |s| == 0 then -1
    else
      var r := IndexOfMinimumOf(s[..|s| - 1]);
      var min := if r == -1 then IntMax else s[r];
      if s[|s| - 1] < min then |s| - 1 else r
  }

  /** What IndexOfMinimumOf means. */
  lemma {:induction false} IndexOfMinimumOfIsFirstMinimum(s: seq<int>)
    ensures IndexOfMinimumOf(s) == -1 <==> forall k :: 0 <= k < |s| ==> s[k] >= IntMax
    ensures IndexOfMinimumOf(s) >= 0 ==>
      (var r := IndexOfMinimumOf(s);
      s[r] < IntMax &&
      (forall k :: 0 <= k < |s| ==> s[r] <= s[k]) &&
      (forall k :: 0 <= k < r ==> s[r] < s[k]))
  {
    if |s| > 0 {
      var t := s[..|s| - 1];
      IndexOfMinimumOfIsFirstMinimum(t);
      assert forall k :: 0 <= k < |t| ==> t[k] == s[k];
    }
  }

  /** Util.indexOfMinimum. */
  method IndexOfMinimum(numbers: array<int>) returns (index: int)
    ensures index == IndexOfMinimumOf(numbers[..])
    ensures index == -1 <==> forall k :: 0 <= k < numbers.Length ==> numbers[k] >= IntMax
    ensures index >= 0 ==>
      (numbers[index] < IntMax &&
      (forall k :: 0 <= k < numbers.Length ==> numbers[index] <= numbers[k]) &&
      (forall k :: 0 <= k < index ==> numbers[index] < numbers[k]))
  {
    index := -1;
    var min := IntMax;
    for i := 0 to numbers.Length
      invariant index == IndexOfMinimumOf(numbers[..i])
      invariant min == if index == -1 then IntMax else numbers[index]
    {
      assert numbers[..i + 1][..i] == numbers[..i];
      if numbers[i] < min {
        min := numbers[i];
        index := i;
      }
    }
    assert numbers[..numbers.Length] == numbers[..];
    IndexOfMinimumOfIsFirstMinimum(numbers[..]);
  }

  /** The sequence rotated so that the element at index moves to the start. */
  function RotatedBy(s: seq<int>, index: nat): (r: seq<int>)
    ensures |r| == |s|
  {
    seq(|s|, i requires 0 <= i < |s| => s[(i + index) % |s|])
  }

  /** A rotation by index < |s| moves the prefix s[..index] behind the rest,
      and so keeps the cyclic order and the elements. */
  lemma RotatedBySplits(s: seq<int>, index: nat)
    requires index < |s|
    ensures RotatedBy(s, index) == s[index..] + s[..index]
    ensures multiset(RotatedBy(s, index)) == multiset(s)
  {
    var r := RotatedBy(s, index);
    var t := s[index..] + s[..index];
    forall i | 0 <= i < |s|
      ensures r[i] == t[i]
    {
      ModBelowTwice(i + index, |s|);
    }
    assert r == t;
    assert s == s[..index] + s[index..];
  }

  lemma ModBelowTwice(a: int, n: int)
    requires 0 < n && 0 <= a < 2 * n
    ensures a % n == if a < n then a else a - n
  {
    if a >= n {
      assert a == n + (a - n);
    }
  }

  /** Util.rotate: a new array; the input is not changed. */
  method Rotate(numbers: array<int>, index: nat) returns (rv: array<int>)
    ensures fresh(rv)
    ensures rv[..] == RotatedBy(numbers[..], index)
  {
    var len := numbers.Length;
    rv := new int[len];
    for i := 0 to len
      invariant forall k :: 0 <= k < i ==> rv[k] == numbers[(k + index) % len]
    {
      rv[i] := numbers[(i + index) % len];
    }
  }

  /** Util.rotateInPlace: the same values as rotate, written into the input. */
  method RotateInPlace(numbers: array<int>, index: nat)
    modifies numbers
    ensures numbers[..] == RotatedBy(old(numbers[..]), index)
  {
    var newNumbers := Rotate(numbers, index);
    for i := 0 to numbers.Length
      invariant forall k :: 0 <= k < i ==> numbers[k] == newNumbers[k]
      invariant newNumbers[..] == RotatedBy(old(numbers[..]), index)
    {
      numbers[i] := newNumbers[i];
    }
    assert numbers[..] == newNumbers[..];
  }

  /** Util.ensureIndex: grows the list to at least index + 1 elements, filling
      with defVal; existing elements are kept. */
  method EnsureIndex<T>(arr: seq<T>, index: int, defVal: T) returns (r: seq<T>)
    ensures |r| == if |arr| < index + 1 then index + 1 else |arr|
    ensures r[..|arr|] == arr
    ensures forall k :: |arr| <= k < |r| ==> r[k] == defVal
  {
    r := arr;
    while |r| < index + 1
      invariant |arr| <= |r| <= if |arr| < index + 1 then index + 1 else |arr|
      invariant r[..|arr|] == arr
      invariant forall k :: |arr| <= k < |r| ==> r[k] == defVal
      decreases index + 1 - |r|
    {
      r := r + [defVal];
    }
  }

  /** Util.arrayListIncr: slot index changes by change (with int wrap-around);
      every other slot is kept. */
  method ArrayListIncr(numbers: seq<int>, index: int, change: int) returns (r: seq<int>)
    requires 0 <= index < |numbers|
    ensures |r| == |numbers|
    ensures r[index] == Wrap32(numbers[index] + change)
    ensures forall k :: 0 <= k < |r| && k != index ==> r[k] == numbers[k]
  {
    r := numbers[index := Wrap32(numbers[index] + change)];
  }

  /** Util.toIntArray: same length, same order. */
  method ToIntArray(list: seq<int>) returns (rv: array<int>)
    ensures rv[..] == list
  {
    rv := new int[|list|];
    for i := 0 to |list|
      invariant rv[..i] == list[..i]
    {
      rv[i] := list[i];
    }
  }
}
