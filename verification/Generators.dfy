// externals/catch/catch.hpp, lines 7359-7414: the generators of a test and the odometer they form.
module Generators {

  // ----- mixed-radix numbers, least significant digit first -----

  /** One index below its size for each generator. */
  ghost predicate Combination(sizes: seq<nat>, indices: seq<nat>) {
    |indices| == |sizes| && forall i :: 0 <= i < |sizes| ==> indices[i] < sizes[i]
  }

  function Product(sizes: seq<nat>): nat {
    if sizes == [] then 1 else sizes[0] * Product(sizes[1..])
  }

  function Number(sizes: seq<nat>, indices: seq<nat>): nat
    requires |indices| == |sizes|
  {
    if sizes == [] then 0 else indices[0] + sizes[0] * Number(sizes[1..], indices[1..])
  }

  /** What moveNext does to the indices, and whether it says there is more. */
  function Next(sizes: seq<nat>, indices: seq<nat>): (r: (seq<nat>, bool))
    requires |indices| == |sizes|
    ensures |r.0| == |sizes|
  {
    if sizes == [] then ([], false)
    else if indices[0] + 1 == sizes[0] then
      var (others, more) := Next(sizes[1..], indices[1..]);
      ([0] + others, more)
    else ([indices[0] + 1] + indices[1..], true)
  }

  lemma Below(size: nat, digit: nat, n: nat, p: nat)
    requires digit < size && n < p
    ensures digit + size * n < size * p
  {
    assert size * p == size * (n + 1) + size * (p - n - 1);
    assert size * (n + 1) == size * n + size;
  }

  lemma {:induction false} NumberInRange(sizes: seq<nat>, indices: seq<nat>)
    requires Combination(sizes, indices)
    ensures Number(sizes, indices) < Product(sizes)
  {
    if sizes != [] {
      NumberInRange(sizes[1..], indices[1..]);
      Below(sizes[0], indices[0], Number(sizes[1..], indices[1..]), Product(sizes[1..]));
    }
  }

  /** moveNext adds one; it says there is no more exactly when it wraps to zero. */
  lemma {:induction false} NextAddsOne(sizes: seq<nat>, indices: seq<nat>)
    requires Combination(sizes, indices)
    ensures var (next, more) := Next(sizes, indices);
            Combination(sizes, next)
            && (more <==> Number(sizes, indices) + 1 < Product(sizes))
            && Number(sizes, next) == if more then Number(sizes, indices) + 1 else 0
  {
    if sizes != [] {
      var next := Next(sizes, indices).0;
      NumberInRange(sizes[1..], indices[1..]);
      if indices[0] + 1 == sizes[0] {
        NextAddsOne(sizes[1..], indices[1..]);
        assert next[1..] == Next(sizes[1..], indices[1..]).0;
      } else {
        assert next[1..] == indices[1..];
      }
      Carry(sizes[0], indices[0], Number(sizes[1..], indices[1..]), Product(sizes[1..]));
    }
  }

  lemma Carry(size: nat, digit: nat, n: nat, p: nat)
    requires digit < size && n < p
    ensures digit + 1 < size ==> digit + size * n + 1 < size * p
    ensures digit + 1 == size ==> digit + size * n + 1 == size * (n + 1) && (n + 1 < p <==> size * (n + 1) < size * p)
  {
    assert size * (n + 1) == size * n + size;
    assert size * p == size * (n + 1) + size * (p - n - 1);
    Multiples(size, p - n - 1);
  }

  /** Different combinations have different numbers. */
  lemma {:induction false} NumberIsUnique(sizes: seq<nat>, a: seq<nat>, b: seq<nat>)
    requires Combination(sizes, a) && Combination(sizes, b)
    requires Number(sizes, a) == Number(sizes, b)
    ensures a == b
  {
    if sizes != [] {
      var x, y := Number(sizes[1..], a[1..]), Number(sizes[1..], b[1..]);
      SameDigit(sizes[0], a[0], x, b[0], y);
      NumberIsUnique(sizes[1..], a[1..], b[1..]);
      assert a == [a[0]] + a[1..] && b == [b[0]] + b[1..];
    }
  }

  lemma Multiples(size: nat, d: int)
    ensures d >= 1 ==> size * d >= size
    ensures d <= -1 ==> size * d <= 0 - size
  {
    if d >= 1 {
      assert size * d == size + size * (d - 1);
    } else if d <= -1 {
      assert size * d == size * (d + 1) - size;
    }
  }

  lemma SameDigit(size: nat, a: nat, x: nat, b: nat, y: nat)
    requires a < size && b < size && a + size * x == b + size * y
    ensures a == b && x == y
  {
    Multiples(size, x - y);
    assert size * (x - y) == size * x - size * y;
  }

  ghost function Zeros(n: nat): (z: seq<nat>)
    ensures |z| == n && forall i :: 0 <= i < n ==> z[i] == 0
  {
    seq(n, _ => 0)
  }

  lemma {:induction false} NumberOfZeros(sizes: seq<nat>)
    requires forall i :: 0 <= i < |sizes| ==> sizes[i] >= 1
    ensures Combination(sizes, Zeros(|sizes|)) && Number(sizes, Zeros(|sizes|)) == 0
  {
    if sizes != [] {
      NumberOfZeros(sizes[1..]);
      assert Zeros(|sizes|)[1..] == Zeros(|sizes| - 1);
    }
  }

  /** The indices below `i` back at zero, index `i` one further, the others as they were. */
  ghost function Carried(indices: seq<nat>, i: nat): (r: seq<nat>)
    ensures |r| == |indices|
    ensures forall j :: 0 <= j < |r| ==> r[j] == if j < i then 0 else if j == i then indices[j] + 1 else indices[j]
  {
    seq(|indices|, j requires 0 <= j < |indices| => if j < i then 0 else if j == i then indices[j] + 1 else indices[j])
  }

  lemma IsCarried(indices: seq<nat>, i: nat, now: seq<nat>)
    requires |now| == |indices|
    requires forall j :: 0 <= j < |now| ==> now[j] == if j < i then 0 else if j == i then indices[j] + 1 else indices[j]
    ensures now == Carried(indices, i)
  {
  }

  /** Where moveNext stops: at the first index that is not its size's last. */
  lemma {:induction false} NextStopsAt(sizes: seq<nat>, indices: seq<nat>, i: nat)
    requires |indices| == |sizes| && i <= |sizes| && forall j :: 0 <= j < i ==> indices[j] + 1 == sizes[j]
    ensures i == |sizes| ==> Next(sizes, indices) == (Carried(indices, i), false)
    ensures i < |sizes| && indices[i] + 1 != sizes[i] ==> Next(sizes, indices) == (Carried(indices, i), true)
  {
    if i > 0 {
      NextStopsAt(sizes[1..], indices[1..], i - 1);
      assert Carried(indices, i) == [0] + Carried(indices[1..], i - 1);
    } else if sizes != [] {
      assert Carried(indices, 0) == [indices[0] + 1] + indices[1..];
    }
  }

  /** The runs so far: one for each number below their count. */
  ghost predicate Counted(sizes: seq<nat>, runs: seq<seq<nat>>) {
    forall k :: 0 <= k < |runs| ==> Combination(sizes, runs[k]) && Number(sizes, runs[k]) == k
  }

  lemma NoRuns(sizes: seq<nat>)
    ensures Counted(sizes, [])
  {
  }

  lemma OneMoreRun(sizes: seq<nat>, runs: seq<seq<nat>>, indices: seq<nat>)
    requires Counted(sizes, runs) && Combination(sizes, indices) && Number(sizes, indices) == |runs|
    ensures Counted(sizes, runs + [indices])
  {
  }

  // ----- the generators -----

  class GeneratorInfo {
    const size: nat
    var currentIndex: nat

    constructor (size: nat)
      ensures this.size == size && currentIndex == 0
    {
      this.size, currentIndex := size, 0;
    }

    /** Lines 7365-7371. */
    method MoveNext() returns (more: bool)
      requires currentIndex < size
      modifies this
      ensures more <==> old(currentIndex) + 1 < size
      ensures currentIndex == if more then old(currentIndex) + 1 else 0
    {
      currentIndex := currentIndex + 1;
      if currentIndex == size {
        currentIndex := 0;
        return false;
      }
      return true;
    }
  }

  class GeneratorsForTest {
    var generatorsInOrder: seq<GeneratorInfo>

    ghost predicate Valid()
      reads this, generatorsInOrder
    {
      && (forall i, j :: 0 <= i < j < |generatorsInOrder| ==> generatorsInOrder[i] != generatorsInOrder[j])
      && forall i :: 0 <= i < |generatorsInOrder| ==> generatorsInOrder[i].currentIndex < generatorsInOrder[i].size
    }

    ghost function SizesInOrder(): (s: seq<nat>)
      reads this
      ensures |s| == |generatorsInOrder| && forall i :: 0 <= i < |s| ==> s[i] == generatorsInOrder[i].size
    {
      seq(|generatorsInOrder|, i requires 0 <= i < |generatorsInOrder| reads this => generatorsInOrder[i].size)
    }

    ghost function Indices(): (s: seq<nat>)
      reads this, generatorsInOrder
      ensures |s| == |generatorsInOrder| && forall i :: 0 <= i < |s| ==> s[i] == generatorsInOrder[i].currentIndex
    {
      seq(|generatorsInOrder|, i requires 0 <= i < |generatorsInOrder| reads this, generatorsInOrder =>
          generatorsInOrder[i].currentIndex)
    }

    /** Lines 7401-7409. */
    method MoveNext() returns (more: bool)
      requires Valid()
      modifies generatorsInOrder
      ensures Valid()
      ensures (Indices(), more) == Next(SizesInOrder(), old(Indices()))
    {
      ghost var sizes, start := SizesInOrder(), Indices();
      hide Next, Carried, Valid, Indices, SizesInOrder;
      var i := 0;
      while i < |generatorsInOrder|
        invariant i <= |generatorsInOrder| && Valid() && SizesInOrder() == sizes
        invariant forall j :: 0 <= j < i ==> start[j] + 1 == sizes[j] && Indices()[j] == 0
        invariant forall j :: i <= j < |start| ==> Indices()[j] == start[j]
      {
        var moved := MoveOne(i);
        if moved {
          NextStopsAt(sizes, start, i);
          IsCarried(start, i, Indices());
          return true;
        }
        i := i + 1;
      }
      NextStopsAt(sizes, start, i);
      IsCarried(start, i, Indices());
      return false;
    }

    /** One generator of the order. */
    method MoveOne(i: nat) returns (moved: bool)
      requires Valid() && i < |generatorsInOrder|
      modifies generatorsInOrder
      ensures Valid() && SizesInOrder() == old(SizesInOrder())
      ensures moved <==> old(Indices())[i] + 1 != SizesInOrder()[i]
      ensures Indices() == old(Indices())[i := if moved then old(Indices())[i] + 1 else 0]
    {
      moved := generatorsInOrder[i].MoveNext();
    }

    /** The loop a test is run in, do … while (moveNext()): from all zeros it runs once for every
        combination of indices, in the order of their numbers, and ends with all zeros again. */
    method RunAll() returns (ghost runs: seq<seq<nat>>)
      requires Valid() && Indices() == Zeros(|generatorsInOrder|)
      modifies generatorsInOrder
      ensures Valid() && Indices() == Zeros(|generatorsInOrder|)
      ensures |runs| == Product(SizesInOrder()) && Counted(SizesInOrder(), runs)
    {
      hide Next, Number, Product, Counted, Combination;
      ghost var sizes := SizesInOrder();
      NoRuns(sizes);
      NumberOfZeros(sizes);
      NumberInRange(sizes, Indices());
      OneMoreRun(sizes, [], Indices());
      runs := [] + [Indices()];
      NextAddsOne(sizes, Indices());
      var more := MoveNext();
      while more
        invariant Valid() && SizesInOrder() == sizes
        invariant 1 <= |runs| <= Product(sizes) && Counted(sizes, runs)
        invariant more <==> |runs| < Product(sizes)
        invariant Combination(sizes, Indices()) && Number(sizes, Indices()) == if more then |runs| else 0
        decreases Product(sizes) - |runs|
      {
        OneMoreRun(sizes, runs, Indices());
        runs := runs + [Indices()];
        NextAddsOne(sizes, Indices());
        more := MoveNext();
      }
      NumberIsUnique(sizes, Indices(), Zeros(|sizes|));
    }
  }

  /** Runs numbered in order hold every combination once. */
  lemma EveryCombinationOnce(sizes: seq<nat>, runs: seq<seq<nat>>, indices: seq<nat>)
    requires |runs| == Product(sizes)
    requires Counted(sizes, runs) && Combination(sizes, indices)
    ensures var k := Number(sizes, indices);
            k < |runs| && runs[k] == indices && forall j :: 0 <= j < |runs| && runs[j] == indices ==> j == k
  {
    NumberInRange(sizes, indices);
    NumberIsUnique(sizes, indices, runs[Number(sizes, indices)]);
  }
}
