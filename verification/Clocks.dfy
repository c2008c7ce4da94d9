/** Vector clocks: the partial order every ordering decision of the engine rests on. */
module Clocks {
  import opened Bytes

  datatype ReplicaId = ReplicaId(id: U64)

  /** The counters of a clock, all positive: a replica without a counter reads as zero, and two
      clocks with the same readings are the same map. Counters are unbounded here; see
      `FitsU64` for the range the source's `u64` gives them. */
  type Clock = m: map<ReplicaId, nat> | forall r :: r in m ==> m[r] > 0

  datatype Causality = Equal | Before | After | Concurrent

  function Get(c: Clock, r: ReplicaId): nat {
    if r in c then c[r] else 0
  }

  ghost predicate FitsU64(c: Clock) {
    |c| <= U64_MAX && forall r: ReplicaId :: Get(c, r) <= U64_MAX
  }

  /** `a` happened before or is `b`. */
  ghost predicate Leq(a: Clock, b: Clock) {
    forall r: ReplicaId :: Get(a, r) <= Get(b, r)
  }

  ghost function CompareSpec(a: Clock, b: Clock): Causality {
    if Leq(a, b) then (if Leq(b, a) then Causality.Equal else Before)
    else if Leq(b, a) then After
    else Concurrent
  }

  function Max(x: nat, y: nat): nat {
    if x < y then y else x
  }

  ghost function Join(a: Clock, b: Clock): Clock {
    map r | r in a.Keys + b.Keys :: Max(Get(a, r), Get(b, r))
  }

  lemma JoinReads(a: Clock, b: Clock, r: ReplicaId)
    ensures Get(Join(a, b), r) == Max(Get(a, r), Get(b, r))
  {
  }

  ghost function Ticked(c: Clock, replica: ReplicaId): (t: Clock)
    ensures Get(t, replica) == Get(c, replica) + 1
    ensures forall r: ReplicaId :: r != replica ==> Get(t, r) == Get(c, r)
  {
    c[replica := Get(c, replica) + 1]
  }

  // ---- The order ----

  lemma SameReadings(a: Clock, b: Clock)
    requires forall r: ReplicaId :: Get(a, r) == Get(b, r)
    ensures a == b
  {
    forall r: ReplicaId
      ensures r in a <==> r in b
    {
      assert Get(a, r) == Get(b, r);
    }
    assert a.Keys == b.Keys;
    forall r | r in a
      ensures a[r] == b[r]
    {
      assert Get(a, r) == Get(b, r);
    }
  }

  lemma LeqAntisymmetric(a: Clock, b: Clock)
    requires Leq(a, b) && Leq(b, a)
    ensures a == b
  {
    forall r: ReplicaId
      ensures Get(a, r) == Get(b, r)
    {
      assert Get(a, r) <= Get(b, r) && Get(b, r) <= Get(a, r);
    }
    SameReadings(a, b);
  }

  /** The verdict of `compare` on every pair, and its duality. */
  lemma CompareIsThePartialOrder(a: Clock, b: Clock)
    ensures CompareSpec(a, b) == Causality.Equal <==> a == b
    ensures CompareSpec(a, b) == Before <==> Leq(a, b) && a != b
    ensures CompareSpec(a, b) == After <==> CompareSpec(b, a) == Before
    ensures CompareSpec(a, b) == Concurrent <==> !Leq(a, b) && !Leq(b, a)
  {
    if Leq(a, b) && Leq(b, a) {
      LeqAntisymmetric(a, b);
    }
  }

  lemma LeqTransitive(a: Clock, b: Clock, c: Clock)
    requires Leq(a, b) && Leq(b, c)
    ensures Leq(a, c)
  {
    forall r: ReplicaId
      ensures Get(a, r) <= Get(c, r)
    {
      assert Get(a, r) <= Get(b, r) <= Get(c, r);
    }
  }

  /** `merge` is the least upper bound, hence commutative, associative and idempotent. */
  lemma JoinIsLeastUpperBound(a: Clock, b: Clock, bound: Clock)
    ensures Leq(a, Join(a, b)) && Leq(b, Join(a, b))
    ensures Leq(a, bound) && Leq(b, bound) ==> Leq(Join(a, b), bound)
  {
    forall r: ReplicaId
      ensures Get(Join(a, b), r) == Max(Get(a, r), Get(b, r))
    {
      JoinReads(a, b, r);
    }
  }

  lemma JoinCommutesAndIsIdempotent(a: Clock, b: Clock)
    ensures Join(a, b) == Join(b, a)
    ensures Join(a, a) == a
  {
  }

  lemma JoinIsAssociative(a: Clock, b: Clock, c: Clock)
    ensures Join(a, Join(b, c)) == Join(Join(a, b), c)
  {
    var left, right := Join(a, Join(b, c)), Join(Join(a, b), c);
    forall r: ReplicaId
      ensures Get(left, r) == Get(right, r)
    {
      JoinReads(a, Join(b, c), r);
      JoinReads(b, c, r);
      JoinReads(Join(a, b), c, r);
      JoinReads(a, b, r);
    }
    SameReadings(left, right);
  }

  lemma TickStrictlyAdvances(c: Clock, r: ReplicaId)
    ensures CompareSpec(c, Ticked(c, r)) == Before
    ensures CompareSpec(Ticked(c, r), c) == After
  {
    assert Get(Ticked(c, r), r) > Get(c, r);
  }

  /** A clock owned by one local computation, updated in place. */
  class VectorClock {
    var counters: Clock

    constructor ()
      ensures counters == map[]
    {
      counters := map[];
    }

    method Tick(replica: ReplicaId)
      modifies this
      ensures counters == Ticked(old(counters), replica)
    {
      var c := if replica in counters then counters[replica] else 0;
      counters := counters[replica := c + 1];
    }

    method Merge(other: Clock)
      modifies this
      ensures counters == Join(old(counters), other)
    {
      var todo := other.Keys;
      while todo != {}
        invariant todo <= other.Keys
        invariant forall r: ReplicaId :: r in todo ==> Get(counters, r) == Get(old(counters), r)
        invariant forall r: ReplicaId :: r !in todo ==> Get(counters, r) == Max(Get(old(counters), r), Get(other, r))
        decreases todo
      {
        var r :| r in todo;
        var e := if r in counters then counters[r] else 0;
        if other[r] > e {
          counters := counters[r := other[r]];
        }
        todo := todo - {r};
      }
      forall r: ReplicaId
        ensures Get(counters, r) == Get(Join(old(counters), other), r)
      {
        JoinReads(old(counters), other, r);
      }
      SameReadings(counters, Join(old(counters), other));
    }

    static method Compare(self: Clock, other: Clock) returns (verdict: Causality)
      ensures verdict == CompareSpec(self, other)
    {
      var selfAhead, otherAhead := false, false;
      var todo := self.Keys + other.Keys;
      while todo != {}
        invariant todo <= self.Keys + other.Keys
        invariant selfAhead <==> exists r :: r in self.Keys + other.Keys - todo && Get(self, r) > Get(other, r)
        invariant otherAhead <==> exists r :: r in self.Keys + other.Keys - todo && Get(other, r) > Get(self, r)
        decreases todo
      {
        var r :| r in todo;
        if Get(self, r) > Get(other, r) {
          selfAhead := true;
        }
        if Get(other, r) > Get(self, r) {
          otherAhead := true;
        }
        todo := todo - {r};
      }
      assert selfAhead <==> !Leq(self, other) by {
        if !Leq(self, other) {
          var r: ReplicaId :| Get(self, r) > Get(other, r);
          assert r in self.Keys + other.Keys - todo;
        }
      }
      assert otherAhead <==> !Leq(other, self) by {
        if !Leq(other, self) {
          var r: ReplicaId :| Get(other, r) > Get(self, r);
          assert r in self.Keys + other.Keys - todo;
        }
      }
      verdict := match (selfAhead, otherAhead)
        case (false, false) => Causality.Equal
        case (false, true) => Before
        case (true, false) => After
        case (true, true) => Concurrent;
    }
  }
}
