// externals/easyloggingpp/easylogging++.h, lines 3381-3440: one wrapping counter per source location,
// and whether the k-th hit of a location is written.
module HitCounters {
  const MAX_LOG_PER_COUNTER := 100000

  /** Lines 3381-3386. */
  function Advance(hits: nat, n: nat): nat {
    (if hits < MAX_LOG_PER_COUNTER then hits else if n >= 1 then MAX_LOG_PER_COUNTER % n else 0) + 1
  }

  /** The counter after `k` calls with the same `n`. */
  function HitsAfter(k: nat, n: nat): nat {
    if k == 0 then 0 else Advance(HitsAfter(k - 1, n), n)
  }

  function Triggers(hits: nat, n: nat): bool {
    n >= 1 && hits != 0 && hits % n == 0
  }

  lemma Remainder(x: nat, n: nat, q: nat, r: nat)
    requires x == n * q + r && r < n
    ensures x % n == r
  {
    var d := q - x / n;
    assert n * d == n * q - n * (x / n);
    assert x == n * (x / n) + x % n;
    if d >= 1 {
      assert n * d == n + n * (d - 1);
    } else if d <= -1 {
      assert n * d == n * (d + 1) - n;
    }
  }

  lemma NextRemainder(x: nat, n: nat)
    requires n >= 1
    ensures (x + 1) % n == if x % n + 1 == n then 0 else x % n + 1
  {
    assert x == n * (x / n) + x % n;
    if x % n + 1 == n {
      assert n * (x / n + 1) == n * (x / n) + n;
      Remainder(x + 1, n, x / n + 1, 0);
    } else {
      Remainder(x + 1, n, x / n, x % n + 1);
    }
  }

  /** For n up to the limit the counter stays within it and keeps count modulo n across its resets. */
  lemma {:induction false} HitsKeepCount(k: nat, n: nat)
    requires 1 <= n <= MAX_LOG_PER_COUNTER
    ensures HitsAfter(k, n) <= MAX_LOG_PER_COUNTER && HitsAfter(k, n) % n == k % n
    ensures k >= 1 ==> HitsAfter(k, n) >= 1
  {
    if k >= 1 {
      HitsKeepCount(k - 1, n);
      var before := HitsAfter(k - 1, n);
      NextRemainder(k - 1, n);
      NextRemainder(before, n);
      Remainder(MAX_LOG_PER_COUNTER % n, n, 0, MAX_LOG_PER_COUNTER % n);
      NextRemainder(MAX_LOG_PER_COUNTER % n, n);
    }
  }

  lemma {:induction false} HitsBeyondLimit(k: nat, n: nat)
    requires n > MAX_LOG_PER_COUNTER
    ensures HitsAfter(k, n) == if k <= MAX_LOG_PER_COUNTER then k else MAX_LOG_PER_COUNTER + 1
  {
    if k >= 1 {
      HitsBeyondLimit(k - 1, n);
    }
  }

  /** The k-th call at a location is written, for every k, exactly when n divides k … */
  ghost predicate EveryNth(n: nat)
    requires n >= 1
  {
    forall k: nat {:trigger HitsAfter(k, n)} :: k >= 1 ==> (Triggers(HitsAfter(k, n), n) <==> k % n == 0)
  }

  /** … and that is so exactly for n up to 100000. Beyond, call n is missed, or for 100001 every
      later call is written. */
  lemma EveryNthExactly(n: nat)
    requires n >= 1
    ensures EveryNth(n) <==> n <= MAX_LOG_PER_COUNTER
  {
    hide HitsAfter;
    if n <= MAX_LOG_PER_COUNTER {
      forall k: nat | k >= 1 ensures Triggers(HitsAfter(k, n), n) <==> k % n == 0 {
        HitsKeepCount(k, n);
      }
    } else if n == MAX_LOG_PER_COUNTER + 1 {
      HitsBeyondLimit(n + 1, n);
      assert Triggers(HitsAfter(n + 1, n), n) && (n + 1) % n == 1;
    } else {
      HitsBeyondLimit(n, n);
      assert !Triggers(HitsAfter(n, n), n) && n % n == 0;
    }
  }

  /** With n one above the limit the call after the n-th is written too; with n two above it, none is. */
  lemma BeyondLimitMisses(k: nat)
    ensures Triggers(HitsAfter(100002, 100001), 100001) && 100002 % 100001 != 0
    ensures !Triggers(HitsAfter(k, 100002), 100002)
  {
    hide HitsAfter, Advance;
    HitsBeyondLimit(100002, 100001);
    HitsBeyondLimit(k, 100002);
    Remainder(100002, 100001, 1, 1);
  }

  // ----- many locations -----

  datatype Location = Location(filename: string, lineNumber: nat)

  datatype Call = Call(location: Location, n: nat)

  /** The counter of a location after these calls, in order. */
  function HitsAt(calls: seq<Call>, location: Location): nat {
    if calls == [] then 0
    else
      var before, last := HitsAt(calls[..|calls| - 1], location), calls[|calls| - 1];
      if last.location == location then Advance(before, last.n) else before
  }

  function CallsAt(calls: seq<Call>, location: Location): nat {
    if calls == [] then 0
    else CallsAt(calls[..|calls| - 1], location) + if calls[|calls| - 1].location == location then 1 else 0
  }

  /** Calls elsewhere do not disturb a location: its counter depends on how often it was called alone. */
  lemma {:induction false} LocationsAreIndependent(calls: seq<Call>, location: Location, n: nat)
    requires forall i :: 0 <= i < |calls| && calls[i].location == location ==> calls[i].n == n
    ensures HitsAt(calls, location) == HitsAfter(CallsAt(calls, location), n)
  {
    if calls != [] {
      LocationsAreIndependent(calls[..|calls| - 1], location, n);
    }
  }

  ghost predicate SameN(calls: seq<Call>, location: Location, n: nat) {
    forall i :: 0 <= i < |calls| && calls[i].location == location ==> calls[i].n == n
  }

  /** The last of these calls is written exactly if n divides the number of calls at its location. */
  lemma EveryNthCall(calls: seq<Call>, location: Location, n: nat)
    requires 1 <= n <= MAX_LOG_PER_COUNTER && SameN(calls, location, n)
    requires calls != [] && calls[|calls| - 1].location == location
    ensures Triggers(HitsAt(calls, location), n) <==> CallsAt(calls, location) % n == 0
  {
    LocationsAreIndependent(calls, location, n);
    HitsKeepCount(CallsAt(calls, location), n);
  }

  lemma {:induction false} NeverCalled(calls: seq<Call>, location: Location)
    requires forall k :: 0 <= k < |calls| ==> calls[k].location != location
    ensures HitsAt(calls, location) == 0
  {
    if calls != [] {
      NeverCalled(calls[..|calls| - 1], location);
    }
  }

  class HitCounter {
    const location: Location
    var hitCounts: nat

    constructor (location: Location)
      ensures this.location == location && hitCounts == 0
    {
      this.location, hitCounts := location, 0;
    }

    method ValidateHitCounts(n: nat)
      modifies this
      ensures hitCounts == Advance(old(hitCounts), n)
    {
      if hitCounts >= MAX_LOG_PER_COUNTER {
        hitCounts := if n >= 1 then MAX_LOG_PER_COUNTER % n else 0;
      }
      hitCounts := hitCounts + 1;
    }
  }

  class RegisteredHitCounters {
    var list: seq<HitCounter>
    ghost var calls: seq<Call>

    /** One counter per location called so far, holding what its calls come to. */
    ghost predicate Valid()
      reads this, list
    {
      && (forall i, j :: 0 <= i < j < |list| ==> list[i].location != list[j].location)
      && (forall i :: 0 <= i < |list| ==> list[i].hitCounts == HitsAt(calls, list[i].location))
      && forall k :: 0 <= k < |calls| ==> HasCounter(list, calls[k].location)
    }

    constructor ()
      ensures Valid() && list == [] && calls == []
    {
      list, calls := [], [];
    }

    /** Lines 3431-3440. */
    method ValidateEveryN(filename: string, lineNumber: nat, n: nat) returns (result: bool)
      requires Valid()
      modifies this, list
      ensures Valid()
      ensures calls == old(calls) + [Call(Location(filename, lineNumber), n)]
      ensures result <==> Triggers(HitsAt(calls, Location(filename, lineNumber)), n)
      ensures n == 0 ==> !result
      ensures 1 <= n <= MAX_LOG_PER_COUNTER && SameN(calls, Location(filename, lineNumber), n) ==>
                (result <==> CallsAt(calls, Location(filename, lineNumber)) % n == 0)
    {
      var location := Location(filename, lineNumber);
      var i := Registered(location);
      ghost var before := calls;
      list[i].ValidateHitCounts(n);
      calls := calls + [Call(location, n)];
      assert calls[..|before|] == before;
      assert HasCounter(list, location);
      result := n >= 1 && list[i].hitCounts != 0 && list[i].hitCounts % n == 0;
      if 1 <= n <= MAX_LOG_PER_COUNTER && SameN(calls, location, n) {
        EveryNthCall(calls, location, n);
      }
    }

    /** The counter of this location, registered first if there is none. */
    method Registered(location: Location) returns (i: nat)
      requires Valid()
      modifies this`list
      ensures Valid() && i < |list| && list[i].location == location
      ensures forall j :: 0 <= j < |list| ==> list[j] in old(list) || fresh(list[j])
    {
      i := 0;
      while i < |list| && list[i].location != location
        invariant i <= |list|
        invariant forall j :: 0 <= j < i ==> list[j].location != location
      {
        i := i + 1;
      }
      if i == |list| {
        forall k | 0 <= k < |calls| ensures calls[k].location != location {
          assert HasCounter(list, calls[k].location);
        }
        NeverCalled(calls, location);
        var counter := new HitCounter(location);
        StillHasCounters(list, counter);
        list := list + [counter];
      }
    }
  }

  ghost predicate HasCounter(list: seq<HitCounter>, location: Location) {
    exists i :: 0 <= i < |list| && list[i].location == location
  }

  lemma StillHasCounters(list: seq<HitCounter>, counter: HitCounter)
    ensures forall location :: HasCounter(list, location) ==> HasCounter(list + [counter], location)
  {
    forall location | HasCounter(list, location) ensures HasCounter(list + [counter], location) {
      var i :| 0 <= i < |list| && list[i].location == location;
      assert (list + [counter])[i] == list[i];
    }
  }
}
