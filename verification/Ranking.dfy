/** Ranking of specs by a distance (src/core/infra/recommendation.go): dense priority ranks over the sorted
    distances, and the final order by rank, cost, vCPU and memory. */
module Ranking {

  datatype Spec = Spec(name: string, cost: real, vcpu: real, memory: real, rank: nat, score: real, distance: real)

  // ---------- ranks ----------

  ghost predicate IsPermutation(order: seq<nat>, n: nat) {
    && |order| == n
    && (forall i :: 0 <= i < n ==> order[i] < n)
    && (forall i, j :: 0 <= i < j < n ==> order[i] != order[j])
    && (forall k :: 0 <= k < n ==> k in order)
  }

  /** What `sort.Slice` leaves: some order in which the distances do not decrease. */
  ghost predicate IsSortedBy(distances: seq<real>, order: seq<nat>) {
    && IsPermutation(order, |distances|)
    && forall i, j :: 0 <= i <= j < |order| ==> distances[order[i]] <= distances[order[j]]
  }

  /** A step in the distances: `d` is one of them, and none lies within the tolerance above it. */
  ghost predicate IsStep(distances: seq<real>, tolerance: real, d: real) {
    d in distances && forall e :: e in distances ==> e <= d || e > d + tolerance
  }

  /** The steps below `x`. */
  ghost function Steps(distances: seq<real>, tolerance: real, x: real): (steps: set<real>)
    ensures forall d :: d in steps <==> IsStep(distances, tolerance, d) && d < x
  {
    set d | d in distances && IsStep(distances, tolerance, d) && d < x
  }

  /** The rank of a distance: one more than the steps below it. */
  ghost function Rank(distances: seq<real>, tolerance: real, x: real): nat {
    1 + |Steps(distances, tolerance, x)|
  }

  lemma NextRank(distances: seq<real>, order: seq<nat>, tolerance: real, i: nat)
    requires IsSortedBy(distances, order) && 0 < i < |order| && tolerance >= 0.0
    ensures var x, y := distances[order[i - 1]], distances[order[i]];
            Rank(distances, tolerance, y) == Rank(distances, tolerance, x) + if y - x > tolerance then 1 else 0
  {
    var x, y := distances[order[i - 1]], distances[order[i]];
    forall e | e in distances ensures e <= x || e >= y {
      var k :| 0 <= k < |distances| && distances[k] == e;
      assert k in order;
      var j :| 0 <= j < |order| && order[j] == k;
      assert j <= i - 1 ==> distances[order[j]] <= x;
      assert j >= i ==> distances[order[j]] >= y;
    }
    var before, after := Steps(distances, tolerance, x), Steps(distances, tolerance, y);
    assert x in distances && y in distances;
    if y - x > tolerance {
      assert IsStep(distances, tolerance, x);
      assert after == before + {x};
    } else {
      assert x < y ==> !IsStep(distances, tolerance, x);
      assert after == before;
    }
  }

  lemma FirstRank(distances: seq<real>, order: seq<nat>, tolerance: real)
    requires IsSortedBy(distances, order) && |order| > 0
    ensures Rank(distances, tolerance, distances[order[0]]) == 1
  {
    forall e | e in distances ensures e >= distances[order[0]] {
      var k :| 0 <= k < |distances| && distances[k] == e;
      assert k in order;
      var j :| 0 <= j < |order| && order[j] == k;
      assert distances[order[0]] <= distances[order[j]];
    }
    assert Steps(distances, tolerance, distances[order[0]]) == {};
  }

  function Score(max: real, min: real, d: real): real
    requires max >= min
  {
    (max - d) / (max - min + 0.0000001)
  }

  /** The rank as stored, in 16 bits. */
  function Stored(rank: nat): nat { rank % 0x1_0000 }

  /** The first loop: the ranks along the sorted distances. */
  method CountPriorities(distances: seq<real>, order: seq<nat>, tolerance: real) returns (priority: seq<nat>)
    requires |distances| > 0 && IsSortedBy(distances, order) && tolerance >= 0.0
    ensures |priority| == |distances|
    ensures forall k :: 0 <= k < |priority| ==> priority[k] == Rank(distances, tolerance, distances[order[k]])
  {
    var priorityCnt := 1;
    priority := [];
    FirstRank(distances, order, tolerance);
    for i := 0 to |distances|
      invariant |priority| == i && (i == 0 ==> priorityCnt == 1)
      invariant i > 0 ==> priorityCnt == Rank(distances, tolerance, distances[order[i - 1]])
      invariant forall k :: 0 <= k < i ==> priority[k] == Rank(distances, tolerance, distances[order[k]])
    {
      if i != 0 {
        NextRank(distances, order, tolerance, i);
        if distances[order[i]] - distances[order[i - 1]] > tolerance {
          priorityCnt := priorityCnt + 1;
        }
      }
      priority := priority + [priorityCnt];
    }
  }

  function Ranked(spec: Spec, rank: nat, max: real, min: real, d: real): Spec
    requires max >= min
  {
    spec.(rank := Stored(rank), distance := d, score := Score(max, min, d))
  }

  /** The second loop: ranks, scores and distances into the specs. */
  method StoreRanks(specs: array<Spec>, distances: seq<real>, order: seq<nat>, priority: seq<nat>)
    requires specs.Length == |distances| == |priority| > 0 && IsSortedBy(distances, order)
    modifies specs
    ensures forall j :: 0 <= j < specs.Length ==>
              specs[order[j]] == Ranked(old(specs[order[j]]), priority[j], distances[order[|order| - 1]], distances[order[0]],
                                        distances[order[j]])
  {
    var max, min := distances[order[|order| - 1]], distances[order[0]];
    for i := 0 to specs.Length
      invariant forall j :: 0 <= j < i ==>
                  specs[order[j]] == Ranked(old(specs[order[j]]), priority[j], max, min, distances[order[j]])
      invariant forall j :: i <= j < specs.Length ==> specs[order[j]] == old(specs[order[j]])
    {
      specs[order[i]] := Ranked(specs[order[i]], priority[i], max, min, distances[order[i]]);
    }
  }

  /** The loops of `RecommendVmLatency` (tolerance zero) and `RecommendVmLocation`, after the sorting. The list is
      not empty: the code indexes its last element. */
  method AssignRanks(specs: array<Spec>, distances: seq<real>, order: seq<nat>, tolerance: real)
    requires specs.Length == |distances| > 0 && IsSortedBy(distances, order) && tolerance >= 0.0
    modifies specs
    ensures forall k :: 0 <= k < specs.Length ==>
              specs[k] == old(specs[k]).(rank := Rank(distances, tolerance, distances[k]) % 0x1_0000, distance := distances[k],
                                         score := Score(distances[order[|order| - 1]], distances[order[0]], distances[k]))
    ensures tolerance == 0.0 ==> AreRanked(specs[..], distances)
  {
    var priority := CountPriorities(distances, order, tolerance);
    StoreRanks(specs, distances, order, priority);
    forall k | 0 <= k < specs.Length
      ensures specs[k] == Ranked(old(specs[k]), Rank(distances, tolerance, distances[k]), distances[order[|order| - 1]],
                                 distances[order[0]], distances[k])
    {
      assert k in order;
      var j :| 0 <= j < |order| && order[j] == k;
      assert specs[order[j]] == Ranked(old(specs[order[j]]), priority[j], distances[order[|order| - 1]], distances[order[0]],
                                       distances[order[j]]);
    }
  }

  /** The farthest spec scores zero, the nearest the most and less than one; a nearer spec scores higher. */
  lemma Scores(distances: seq<real>, order: seq<nat>, j: nat, k: nat)
    requires IsSortedBy(distances, order) && j < |distances| && k < |distances|
    ensures var max, min := distances[order[|order| - 1]], distances[order[0]];
            && min <= distances[j] <= max && 0.0 <= Score(max, min, distances[j]) < 1.0
            && (Score(max, min, distances[j]) < Score(max, min, distances[k]) <==> distances[j] > distances[k])
            && (distances[j] == max ==> Score(max, min, distances[j]) == 0.0)
  {
    var max, min := distances[order[|order| - 1]], distances[order[0]];
    assert j in order;
    var i :| 0 <= i < |order| && order[i] == j;
    assert distances[order[0]] <= distances[order[i]] <= distances[order[|order| - 1]];
    ScoreRange(max, min, distances[j]);
    ScoreOrder(max, min, distances[j], distances[k]);
    ZeroDivided(max - min + 0.0000001);
  }

  lemma ZeroDivided(c: real)
    requires c > 0.0
    ensures 0.0 / c == 0.0
  {
    assert 0.0 == (0.0 / c) * c;
  }

  lemma ScoreRange(max: real, min: real, d: real)
    requires min <= d <= max
    ensures 0.0 <= Score(max, min, d) < 1.0
  {
    Divided(max - d, max - min + 0.0000001);
  }

  lemma Divided(a: real, b: real)
    requires 0.0 <= a < b
    ensures 0.0 <= a / b < 1.0
  {
  }

  lemma ScoreOrder(max: real, min: real, d: real, e: real)
    requires max >= min
    ensures Score(max, min, d) < Score(max, min, e) <==> d > e
  {
    DividedOrder(max - d, max - e, max - min + 0.0000001);
  }

  lemma DividedOrder(a: real, b: real, c: real)
    requires c > 0.0
    ensures a / c < b / c <==> a < b
  {
    assert a == (a / c) * c && b == (b / c) * c;
  }

  // ---------- what the ranks say ----------

  lemma SubsetSize<T>(a: set<T>, b: set<T>)
    requires a <= b
    ensures |a| <= |b| && (|a| == |b| ==> a == b)
  {
    assert b == a + (b - a);
  }

  /** A spec ranks before another if and only if there is a step between their distances. */
  lemma RankIff(distances: seq<real>, tolerance: real, x: real, y: real)
    ensures Rank(distances, tolerance, x) < Rank(distances, tolerance, y)
            <==> exists d :: IsStep(distances, tolerance, d) && x <= d < y
  {
    var a, b := Steps(distances, tolerance, x), Steps(distances, tolerance, y);
    if x <= y {
      assert a <= b;
      SubsetSize(a, b);
      if d :| IsStep(distances, tolerance, d) && x <= d < y {
        assert d in b && d !in a;
      }
      if a != b {
        var d :| d in b && d !in a;
        assert IsStep(distances, tolerance, d) && x <= d < y;
      }
    } else {
      assert b <= a;
      SubsetSize(b, a);
    }
  }

  /** Without tolerance, ranks order the distances exactly. */
  lemma RankOrder(distances: seq<real>, x: real, y: real)
    requires x in distances && y in distances
    ensures Rank(distances, 0.0, x) < Rank(distances, 0.0, y) <==> x < y
  {
    RankIff(distances, 0.0, x, y);
    assert IsStep(distances, 0.0, x);
  }

  function Distinct(distances: seq<real>): (values: set<real>)
    ensures forall x :: x in values <==> x in distances
  {
    set x | x in distances
  }

  lemma RankInRange(distances: seq<real>, x: real)
    requires x in distances
    ensures 1 <= Rank(distances, 0.0, x) <= |Distinct(distances)|
  {
    var steps := Steps(distances, 0.0, x);
    assert steps <= Distinct(distances) - {x};
    SubsetSize(steps, Distinct(distances) - {x});
  }

  lemma RankExists(distances: seq<real>, order: seq<nat>, r: nat) returns (x: real)
    requires IsSortedBy(distances, order) && distances != [] && 1 <= r <= |Distinct(distances)|
    ensures x in distances && Rank(distances, 0.0, x) == r
  {
    FirstRank(distances, order, 0.0);
    LastRank(distances, order);
    var i := |order| - 1;
    x := distances[order[i]];
    while Rank(distances, 0.0, x) != r
      invariant 0 <= i < |order| && x == distances[order[i]] && Rank(distances, 0.0, x) >= r
      decreases i
    {
      NextRank(distances, order, 0.0, i);
      i := i - 1;
      x := distances[order[i]];
    }
  }

  /** Ranks run from one to the number of distinct distances, without gaps. */
  lemma RanksAreDense(distances: seq<real>, order: seq<nat>, r: nat)
    requires IsSortedBy(distances, order) && distances != []
    ensures (exists x :: x in distances && Rank(distances, 0.0, x) == r) <==> 1 <= r <= |Distinct(distances)|
  {
    forall x | x in distances ensures 1 <= Rank(distances, 0.0, x) <= |Distinct(distances)| { RankInRange(distances, x); }
    if 1 <= r <= |Distinct(distances)| {
      var x := RankExists(distances, order, r);
    }
  }

  lemma LastRank(distances: seq<real>, order: seq<nat>)
    requires IsSortedBy(distances, order) && distances != []
    ensures Rank(distances, 0.0, distances[order[|order| - 1]]) == |Distinct(distances)|
  {
    var max := distances[order[|order| - 1]];
    forall x | x in distances ensures x <= max {
      var k :| 0 <= k < |distances| && distances[k] == x;
      assert k in order;
      var j :| 0 <= j < |order| && order[j] == k;
      assert distances[order[j]] <= max;
    }
    forall x | x in distances ensures IsStep(distances, 0.0, x) {
    }
    assert Steps(distances, 0.0, max) == Distinct(distances) - {max};
  }

  ghost predicate StoredInOrder(distances: seq<real>) {
    forall x, y :: x in distances && y in distances ==>
      (Stored(Rank(distances, 0.0, x)) < Stored(Rank(distances, 0.0, y)) <==> x < y)
  }

  /** The stored 16-bit ranks order the specs as their distances do, if and only if there are at most 65535
      distinct distances. */
  lemma StoredInOrderIff(distances: seq<real>, order: seq<nat>)
    requires IsSortedBy(distances, order) && distances != []
    ensures StoredInOrder(distances) <==> |Distinct(distances)| <= 0xFFFF
  {
    if |Distinct(distances)| <= 0xFFFF {
      forall x, y | x in distances && y in distances
        ensures Stored(Rank(distances, 0.0, x)) < Stored(Rank(distances, 0.0, y)) <==> x < y
      {
        RankInRange(distances, x);
        RankInRange(distances, y);
        RankOrder(distances, x, y);
      }
    } else {
      var x := RankExists(distances, order, 1);
      var y := RankExists(distances, order, 0x1_0000);
      RankOrder(distances, x, y);
    }
  }

  // ---------- the final order ----------

  /** The comparator of the final sort. */
  predicate Before(a: Spec, b: Spec) {
    if a.rank != b.rank then a.rank < b.rank
    else if a.cost != b.cost then
      if a.cost >= 0.0 && b.cost >= 0.0 then a.cost < b.cost else a.cost >= 0.0
    else if a.vcpu != b.vcpu then a.vcpu < b.vcpu
    else a.memory < b.memory
  }

  ghost predicate Allowed(unknown: set<real>, a: Spec) {
    a.cost >= 0.0 || a.cost in unknown
  }

  /** What `sort.Slice` needs of its comparator, over specs whose negative costs are among `unknown`. */
  ghost predicate IsStrictWeakOrder(unknown: set<real>) {
    && (forall a, b :: Allowed(unknown, a) && Allowed(unknown, b) && Before(a, b) ==> !Before(b, a))
    && (forall a, b, c ::
          (Allowed(unknown, a) && Allowed(unknown, b) && Allowed(unknown, c) && !Before(a, b) && !Before(b, c))
          ==> !Before(a, c))
  }

  /** The comparator is a strict weak order if and only if there is at most one negative cost. */
  lemma StrictWeakOrderIff(unknown: set<real>)
    requires forall c :: c in unknown ==> c < 0.0
    ensures IsStrictWeakOrder(unknown) <==> forall c, d :: c in unknown && d in unknown ==> c == d
  {
    forall c, d | c in unknown && d in unknown && c != d ensures !IsStrictWeakOrder(unknown) {
      var a := Spec("", c, 1.0, 0.0, 1, 0.0, 0.0);
      var b := a.(cost := d);
      var e := a.(vcpu := 2.0);
      assert Allowed(unknown, a) && Allowed(unknown, b) && Allowed(unknown, e);
      assert !Before(a, b) && !Before(b, e) && Before(a, e);
    }
  }

  ghost predicate NoInversionNextDoor(specs: seq<Spec>) {
    forall i :: 0 < i < |specs| ==> !Before(specs[i], specs[i - 1])
  }

  /** With at most one negative cost, a list without neighbours out of order is sorted throughout: by rank, within
      a rank by cost with unknown costs last, within a cost by vCPU and memory. */
  lemma {:induction false} SortedThroughout(specs: seq<Spec>, unknown: set<real>, i: nat, j: nat)
    requires NoInversionNextDoor(specs) && i < j < |specs|
    requires forall c, d :: c in unknown && d in unknown ==> c == d
    requires forall k :: 0 <= k < |specs| ==> Allowed(unknown, specs[k])
    ensures !Before(specs[j], specs[i])
    ensures var a, b := specs[i], specs[j];
            && a.rank <= b.rank
            && (a.rank == b.rank ==>
                  && (b.cost >= 0.0 ==> 0.0 <= a.cost <= b.cost)
                  && (a.cost == b.cost ==> a.vcpu <= b.vcpu && (a.vcpu == b.vcpu ==> a.memory <= b.memory)))
    decreases j - i
  {
    if j > i + 1 {
      SortedThroughout(specs, unknown, i, j - 1);
      assert !Before(specs[j], specs[j - 1]);
    }
  }

  /** The ranks without tolerance, stored in the specs; every distance is that of some spec. */
  ghost predicate AreRanked(specs: seq<Spec>, distances: seq<real>) {
    && (forall k :: 0 <= k < |specs| ==>
          specs[k].distance in distances && specs[k].rank == Stored(Rank(distances, 0.0, specs[k].distance)))
    && (forall d :: d in distances ==> exists k :: 0 <= k < |specs| && specs[k].distance == d)
  }

  ghost predicate IsFinal(specs: seq<Spec>, unknown: set<real>) {
    && NoInversionNextDoor(specs)
    && (forall c, d :: c in unknown && d in unknown ==> c == d)
    && (forall k :: 0 <= k < |specs| ==> Allowed(unknown, specs[k]))
  }

  ghost predicate NearestFirst(specs: seq<Spec>) {
    forall i, j :: 0 <= i < j < |specs| ==> specs[i].distance <= specs[j].distance
  }

  /** The final list is ordered by distance if and only if there are at most 65535 distinct distances. */
  lemma NearestFirstIff(specs: seq<Spec>, unknown: set<real>, distances: seq<real>, order: seq<nat>)
    requires IsSortedBy(distances, order) && distances != [] && AreRanked(specs, distances) && IsFinal(specs, unknown)
    ensures NearestFirst(specs) <==> |Distinct(distances)| <= 0xFFFF
  {
    StoredInOrderIff(distances, order);
    if |Distinct(distances)| <= 0xFFFF {
      forall i, j | 0 <= i < j < |specs| ensures specs[i].distance <= specs[j].distance {
        SortedThroughout(specs, unknown, i, j);
      }
    } else {
      var x := RankExists(distances, order, 1);
      var y := RankExists(distances, order, 0x1_0000);
      RankOrder(distances, x, y);
      FarFirst(specs, unknown, distances, x, y);
    }
  }

  /** Of two distances, the one whose stored rank is lower comes first, though it be the farther. */
  lemma FarFirst(specs: seq<Spec>, unknown: set<real>, distances: seq<real>, x: real, y: real)
    requires AreRanked(specs, distances) && IsFinal(specs, unknown) && x in distances && y in distances && x < y
    requires Stored(Rank(distances, 0.0, y)) < Stored(Rank(distances, 0.0, x))
    ensures !NearestFirst(specs)
  {
    var i :| 0 <= i < |specs| && specs[i].distance == y;
    var j :| 0 <= j < |specs| && specs[j].distance == x;
    if j < i { SortedThroughout(specs, unknown, j, i); }
  }

  /** With two, it need not be. */
  lemma NotSorted(a: Spec)
    requires a.cost < 0.0
    ensures var specs := [a.(vcpu := 2.0), a.(cost := a.cost - 1.0), a.(vcpu := 1.0)];
            NoInversionNextDoor(specs) && Before(specs[2], specs[0])
  {
  }

  // ---------- ranking by cost ----------

  /** The comparator of `RecommendVmCost`. */
  predicate Cheaper(a: Spec, b: Spec) {
    if a.cost >= 0.0 && b.cost >= 0.0 then a.cost < b.cost else a.cost >= 0.0
  }

  /** It is a strict weak order on all specs: unknown costs tie. */
  lemma CheaperIsStrictWeakOrder(a: Spec, b: Spec, c: Spec)
    ensures Cheaper(a, b) ==> !Cheaper(b, a)
    ensures !Cheaper(a, b) && !Cheaper(b, c) ==> !Cheaper(a, c)
  {
  }

  /** A known cost comes before a larger one and before an unknown one, and nothing else comes before anything. */
  lemma CheaperIff(a: Spec, b: Spec)
    ensures Cheaper(a, b) <==> a.cost >= 0.0 && (b.cost < 0.0 || a.cost < b.cost)
  {
  }

  ghost predicate SortedByCost(specs: seq<Spec>) {
    forall i, j :: 0 <= i <= j < |specs| ==> !Cheaper(specs[j], specs[i])
  }

  /** So a sorted list has the known costs first, in order, and the unknown ones last. */
  lemma UnknownLast(specs: seq<Spec>, i: nat, j: nat)
    requires SortedByCost(specs) && i < j < |specs| && specs[j].cost >= 0.0
    ensures 0.0 <= specs[i].cost <= specs[j].cost
  {
    assert !Cheaper(specs[j], specs[i]);
  }

  /** The score of `RecommendVmCost`, between the last and the first cost. */
  function CostScore(specs: seq<Spec>, k: nat): real
    requires k < |specs| && specs[|specs| - 1].cost - specs[0].cost + 0.0000001 != 0.0
  {
    (specs[|specs| - 1].cost - specs[k].cost) / (specs[|specs| - 1].cost - specs[0].cost + 0.0000001)
  }

  /** Cheaper specs score higher if and only if the last cost is not below the first by more than the added constant:
      one unknown cost at the end of the list turns the scores around. */
  lemma CostScoreIff(specs: seq<Spec>, j: nat, k: nat)
    requires SortedByCost(specs) && j < |specs| && k < |specs| && specs[j].cost < specs[k].cost
    requires specs[|specs| - 1].cost - specs[0].cost + 0.0000001 != 0.0
    ensures CostScore(specs, j) > CostScore(specs, k) <==> specs[|specs| - 1].cost - specs[0].cost + 0.0000001 > 0.0
  {
    var max, c := specs[|specs| - 1].cost, specs[|specs| - 1].cost - specs[0].cost + 0.0000001;
    if c > 0.0 {
      DividedOrder(max - specs[k].cost, max - specs[j].cost, c);
    } else {
      DividedTurned(max - specs[k].cost, max - specs[j].cost, c);
    }
  }

  lemma DividedTurned(a: real, b: real, c: real)
    requires c < 0.0 && a < b
    ensures a / c > b / c
  {
    assert a == (a / c) * c && b == (b / c) * c;
  }

  /** If every cost is known, the last is the largest and the scores are the right way round. */
  lemma KnownCosts(specs: seq<Spec>)
    requires SortedByCost(specs) && specs != [] && forall k :: 0 <= k < |specs| ==> specs[k].cost >= 0.0
    ensures specs[|specs| - 1].cost - specs[0].cost + 0.0000001 > 0.0
  {
    assert !Cheaper(specs[|specs| - 1], specs[0]);
  }
}
