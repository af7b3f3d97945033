/** The second step of the latency matrix: rows swapped in place until row j carries the label of column j. */
module LatencyAlign {
  import opened LatencyMatrix

  /** Which original row stands at each place. */
  type Order = seq<nat>

  function Identity(n: nat): (order: Order)
    ensures |order| == n && forall i :: 0 <= i < n ==> order[i] == i
  {
    seq(n, i requires 0 <= i < n => i as nat)
  }

  function Swapped<T>(s: seq<T>, i: nat, j: nat): seq<T>
    requires i < |s| && j < |s|
  {
    s[i := s[j]][j := s[i]]
  }

  /** The place `rttIndexMapX` gives: 0 for a label it does not know. */
  function Place(index: map<string, int>, name: string): int {
    if name in index then index[name] else 0
  }

  function Reindexed(index: map<string, int>, name: string, r: int, other: string, org: int): map<string, int> {
    index[name := r][other := org]
  }

  ghost predicate Labelled(t: Table) {
    IsTable(t) && |t.xs| < SIZE && |t.ys| < SIZE && "" !in t.xs && "" !in t.ys
  }

  ghost predicate Ordered(rows: Matrix, t: Table, order: Order) {
    |rows| == |order| == SIZE && forall i :: 0 <= i < SIZE ==> order[i] < SIZE && rows[i] == Row(t, order[i])
  }

  ghost predicate IsPermutation(order: Order) {
    && (forall i :: 0 <= i < |order| ==> order[i] < |order|)
    && (forall i, j :: 0 <= i < j < |order| ==> order[i] != order[j])
  }

  /** `places[k]` is where row `k` stands; the header and the rows beyond `places` have not moved. */
  ghost predicate Inverse(order: Order, places: Order) {
    && 1 <= |places| <= |order| && places[0] == 0
    && (forall i :: 0 <= i < |places| ==> order[i] < |places|)
    && (forall k :: 0 <= k < |places| ==> places[k] < |places|)
    && (forall i {:trigger places[order[i]]} :: 0 <= i < |places| ==> places[order[i]] == i)
    && (forall k {:trigger order[places[k]]} :: 0 <= k < |places| ==> order[places[k]] == k)
    && (forall i :: |places| <= i < |order| ==> order[i] == i)
  }

  lemma InverseNext(order: Order, places: Order, r: nat, k: nat)
    requires Inverse(order, places) && 1 <= r < |places| && 1 <= k < |places|
    ensures places[k] < |order| && 0 < order[r] < |places|
    ensures Inverse(Swapped(order, r, places[k]), places[k := r][order[r] := places[k]])
  {
    var org, b := places[k], order[r];
    var order', places' := Swapped(order, r, org), places[k := r][b := org];
    assert order[places[k]] == k && places[order[r]] == r && order[places[0]] == 0;
    forall c | 0 <= c < |places| ensures order'[places'[c]] == c {
      assert order[places[c]] == c;
    }
    forall i | 0 <= i < |places| ensures places'[order'[i]] == i {
      assert places[order[i]] == i;
    }
  }

  /** The index knows the place of every row. */
  ghost predicate Indexed(index: map<string, int>, xs: seq<string>, places: Order) {
    && |places| == |xs| + 1 && (forall l :: l in index <==> l in xs)
    && forall a :: 0 <= a < |xs| ==> index[xs[a]] == places[a + 1]
  }

  lemma IndexedNext(index: map<string, int>, xs: seq<string>, places: Order, a: nat, r: nat, b: nat)
    requires Distinct(xs) && Indexed(index, xs, places) && a < |xs| && b < |xs|
    ensures Indexed(Reindexed(index, xs[a], r, xs[b], places[a + 1]), xs, places[a + 1 := r][b + 1 := places[a + 1]])
  {
  }

  // ---------- the header still in place ----------

  /** The first `r` columns have their rows. */
  ghost predicate Settled(order: Order, t: Table, r: nat) {
    && r <= |t.xs| < |order| && r <= |t.ys|
    && forall i :: 1 <= i <= r ==> 1 <= order[i] <= |t.xs| && t.xs[order[i] - 1] == t.ys[i - 1]
  }

  ghost predicate InPlace(order: Order, index: map<string, int>, t: Table, places: Order, r: nat) {
    Inverse(order, places) && Indexed(index, t.xs, places) && Settled(order, t, r)
  }

  /** The row of the next column has not been placed yet. */
  lemma NextIsLater(order: Order, t: Table, places: Order, r: nat, a: nat)
    requires IsTable(t) && Inverse(order, places) && |places| == |t.xs| + 1 && Settled(order, t, r)
    requires r < |t.ys| && a < |t.xs| && t.xs[a] == t.ys[r]
    ensures r < places[a + 1] <= |t.xs| && order[places[a + 1]] == a + 1 && 0 < order[r + 1] <= |t.xs|
  {
    assert order[places[a + 1]] == a + 1 && order[places[0]] == 0;
    assert places[order[r + 1]] == r + 1 || r == |t.xs|;
  }

  lemma SettledNext(order: Order, t: Table, r: nat, org: nat)
    requires Settled(order, t, r) && r < org <= |t.xs| && r < |t.ys|
    requires 1 <= order[org] <= |t.xs| && t.xs[order[org] - 1] == t.ys[r]
    ensures Settled(Swapped(order, r + 1, org), t, r + 1)
  {
  }

  lemma InPlaceNext(order: Order, index: map<string, int>, t: Table, places: Order, r: nat, a: nat)
    requires IsTable(t) && InPlace(order, index, t, places, r) && r < |t.ys| && a < |t.xs| && t.xs[a] == t.ys[r]
    requires r < places[a + 1] <= |t.xs| && order[places[a + 1]] == a + 1 && 0 < order[r + 1] <= |t.xs|
    ensures InPlace(Swapped(order, r + 1, places[a + 1]),
                    Reindexed(index, t.xs[a], r + 1, t.xs[order[r + 1] - 1], places[a + 1]), t,
                    places[a + 1 := r + 1][order[r + 1] := places[a + 1]], r + 1)
  {
    SettledNext(order, t, r, places[a + 1]);
    InverseNext(order, places, r + 1, a + 1);
    IndexedNext(index, t.xs, places, a, r + 1, order[r + 1] - 1);
  }

  // ---------- the header swapped away ----------

  /** The header stands at row `h`, and no later column label leads there. */
  ghost predicate Displaced(order: Order, index: map<string, int>, ys: seq<string>, r: nat, h: nat) {
    && 1 <= h <= r <= |ys| < |order| && order[h] == 0
    && (forall i :: 0 <= i < |order| && i != h ==> order[i] != 0)
    && (forall j :: r <= j < |ys| ==> 0 <= Place(index, ys[j]) < |order| && Place(index, ys[j]) != h)
  }

  lemma DisplacedStart(order: Order, index: map<string, int>, t: Table, places: Order, r: nat, other: string)
    requires IsTable(t) && InPlace(order, index, t, places, r) && r < |t.ys| < |order| && t.ys[r] !in t.xs
    requires IsPermutation(order)
    requires other == if 0 < order[r + 1] <= |t.xs| then t.xs[order[r + 1] - 1] else ""
    ensures Place(index, t.ys[r]) == 0
    ensures Displaced(Swapped(order, r + 1, 0), Reindexed(index, t.ys[r], r + 1, other, 0), t.ys, r + 1, r + 1)
  {
    var index' := Reindexed(index, t.ys[r], r + 1, other, 0);
    forall j | r + 1 <= j < |t.ys| ensures 0 <= Place(index', t.ys[j]) < |order| && Place(index', t.ys[j]) != r + 1 {
      if t.ys[j] in t.xs && t.ys[j] != other {
        var a :| 0 <= a < |t.xs| && t.xs[a] == t.ys[j];
        assert order[places[a + 1]] == a + 1;
      }
    }
  }

  lemma DisplacedNext(order: Order, index: map<string, int>, ys: seq<string>, r: nat, h: nat, other: string)
    requires Distinct(ys) && Displaced(order, index, ys, r, h) && r < |ys|
    ensures 0 <= Place(index, ys[r]) < |order|
    ensures var org := Place(index, ys[r]);
            Displaced(Swapped(order, r + 1, org), Reindexed(index, ys[r], r + 1, other, org), ys, r + 1, h)
  {
  }

  // ---------- the loop ----------

  /** After the first `r` columns: the header in place, or displaced to row `h`. */
  ghost predicate Phase(order: Order, index: map<string, int>, t: Table, places: Order, r: nat, h: nat) {
    && IsPermutation(order) && |order| == SIZE && r <= |t.ys|
    && if h == 0 then InPlace(order, index, t, places, r) && forall j :: 0 <= j < r ==> t.ys[j] in t.xs
       else Displaced(order, index, t.ys, r, h) && t.ys[h - 1] !in t.xs
  }

  lemma PhaseAway(order: Order, index: map<string, int>, t: Table, places: Order, r: nat, h: nat)
    requires Labelled(t) && Phase(order, index, t, places, r, h) && r < |t.ys| && h != 0
    ensures 0 <= Place(index, t.ys[r]) < SIZE
    ensures var org := Place(index, t.ys[r]);
            Phase(Swapped(order, r + 1, org), Reindexed(index, t.ys[r], r + 1, Cell(t, order[r + 1], 0), org), t, places,
                  r + 1, h)
  {
    DisplacedNext(order, index, t.ys, r, h, Cell(t, order[r + 1], 0));
    SwapPermutes(order, r + 1, Place(index, t.ys[r]));
  }

  lemma PhaseStart(order: Order, index: map<string, int>, t: Table, places: Order, r: nat)
    requires Labelled(t) && Phase(order, index, t, places, r, 0) && r < |t.ys| && t.ys[r] !in t.xs
    ensures Place(index, t.ys[r]) == 0
    ensures Phase(Swapped(order, r + 1, 0), Reindexed(index, t.ys[r], r + 1, Cell(t, order[r + 1], 0), 0), t, places,
                  r + 1, r + 1)
  {
    DisplacedStart(order, index, t, places, r, Cell(t, order[r + 1], 0));
    SwapPermutes(order, r + 1, 0);
  }

  lemma PhaseInPlace(order: Order, index: map<string, int>, t: Table, places: Order, r: nat, a: nat)
    returns (places': Order)
    requires Labelled(t) && Phase(order, index, t, places, r, 0) && r < |t.ys| && a < |t.xs| && t.xs[a] == t.ys[r]
    ensures Place(index, t.ys[r]) == places[a + 1] && places[a + 1] < SIZE
    ensures Phase(Swapped(order, r + 1, places[a + 1]),
                  Reindexed(index, t.ys[r], r + 1, Cell(t, order[r + 1], 0), places[a + 1]), t, places', r + 1, 0)
  {
    NextIsLater(order, t, places, r, a);
    InPlaceNext(order, index, t, places, r, a);
    SwapPermutes(order, r + 1, places[a + 1]);
    places' := places[a + 1 := r + 1][order[r + 1] := places[a + 1]];
  }

  lemma PhaseNext(order: Order, index: map<string, int>, t: Table, places: Order, r: nat, h: nat,
                  name: string, other: string, org: int)
    returns (places': Order, h': nat)
    requires Labelled(t) && Phase(order, index, t, places, r, h) && r < |t.ys| && name == t.ys[r]
    requires org == Place(index, name) && 0 <= org < SIZE && other == Cell(t, order[r + 1], 0)
    ensures Phase(Swapped(order, r + 1, org), Reindexed(index, name, r + 1, other, org), t, places', r + 1, h')
  {
    places', h' := places, h;
    if h != 0 {
      PhaseAway(order, index, t, places, r, h);
    } else if t.ys[r] in t.xs {
      var a :| 0 <= a < |t.xs| && t.xs[a] == t.ys[r];
      places' := PhaseInPlace(order, index, t, places, r, a);
    } else {
      PhaseStart(order, index, t, places, r);
      h' := r + 1;
    }
  }

  lemma PlaceInRange(order: Order, index: map<string, int>, t: Table, places: Order, r: nat, h: nat)
    requires Labelled(t) && Phase(order, index, t, places, r, h) && r < |t.ys|
    ensures 0 <= Place(index, t.ys[r]) < SIZE
  {
    if h != 0 {
      PhaseAway(order, index, t, places, r, h);
    } else if t.ys[r] in t.xs {
      var a :| 0 <= a < |t.xs| && t.xs[a] == t.ys[r];
      assert index[t.xs[a]] == places[a + 1];
    }
  }

  lemma PhaseBegin(t: Table, index: map<string, int>)
    requires Labelled(t) && IsIndex(index, t.xs)
    ensures Phase(Identity(SIZE), index, t, Identity(|t.xs| + 1), 0, 0)
  {
  }

  lemma PhaseEnd(order: Order, index: map<string, int>, t: Table, places: Order, h: nat)
    requires Phase(order, index, t, places, |t.ys|, h)
    ensures IsPermutation(order)
    ensures order[0] == 0 <==> forall y :: y in t.ys ==> y in t.xs
    ensures order[0] == 0 ==> Settled(order, t, |t.ys|) && forall i :: |t.xs| < i < SIZE ==> order[i] == i
  {
    assert h != 0 ==> order[0] != 0 && t.ys[h - 1] in t.ys;
  }

  lemma OrderedSwap(rows: Matrix, t: Table, order: Order, i: nat, j: nat)
    requires Ordered(rows, t, order) && i < SIZE && j < SIZE
    ensures Ordered(Swapped(rows, i, j), t, Swapped(order, i, j))
    ensures var top := Swapped(rows, i, j)[j]; |top| == SIZE && top[0] == Cell(t, order[i], 0)
  {
  }

  lemma SwapPermutes(order: Order, i: nat, j: nat)
    requires IsPermutation(order) && i < |order| && j < |order|
    ensures IsPermutation(Swapped(order, i, j))
  {
  }

  method SwapRows(rows: array<seq<string>>, i: nat, j: nat)
    requires i < rows.Length && j < rows.Length
    modifies rows
    ensures rows[..] == Swapped(old(rows[..]), i, j)
  {
    rows[i], rows[j] := rows[j], rows[i];
  }

  /** One turn of the loop: the row labelled `refVal`, or the header if there is none, goes to place `r + 1`. */
  method AlignColumn(rows: array<seq<string>>, r: nat, refVal: string, index: map<string, int>, ghost t: Table,
                     ghost order: Order, ghost places: Order, ghost h: nat)
      returns (index': map<string, int>, ghost order': Order, ghost places': Order, ghost h': nat)
    requires Labelled(t) && r < |t.ys| && refVal == t.ys[r]
    requires Ordered(rows[..], t, order) && Phase(order, index, t, places, r, h)
    modifies rows
    ensures Ordered(rows[..], t, order') && Phase(order', index', t, places', r + 1, h')
  {
    PlaceInRange(order, index, t, places, r, h);
    var orgIndex := Place(index, refVal);
    OrderedSwap(rows[..], t, order, r + 1, orgIndex);
    SwapRows(rows, r + 1, orgIndex);
    var other := rows[orgIndex][0];
    places', h' := PhaseNext(order, index, t, places, r, h, refVal, other, orgIndex);
    order' := Swapped(order, r + 1, orgIndex);
    index' := Reindexed(index, refVal, r + 1, other, orgIndex);
  }

  /** The rows are only permuted; the header stays at the top if and only if every column label is also a row
      label, and then the row of each column stands at the column's place. */
  method Align(rows: array<seq<string>>, rttIndexMapX: map<string, int>, ghost t: Table) returns (ghost order: Order)
    requires Labelled(t) && Shows(rows, t) && IsIndex(rttIndexMapX, t.xs)
    modifies rows
    ensures Ordered(rows[..], t, order) && IsPermutation(order)
    ensures order[0] == 0 <==> forall y :: y in t.ys ==> y in t.xs
    ensures order[0] == 0 ==> Settled(order, t, |t.ys|) && forall i :: |t.xs| < i < SIZE ==> order[i] == i
  {
    order := Identity(SIZE);
    ghost var places, h := Identity(|t.xs| + 1), 0;
    var index := rttIndexMapX;
    PhaseBegin(t, index);
    var header := rows[0];
    var refIndex := 1;
    while refIndex < SIZE && header[refIndex] != ""
      invariant 1 <= refIndex <= |t.ys| + 1
      invariant Ordered(rows[..], t, order) && Phase(order, index, t, places, refIndex - 1, h)
    {
      index, order, places, h := AlignColumn(rows, refIndex - 1, header[refIndex], index, t, order, places, h);
      refIndex := refIndex + 1;
    }
    assert refIndex - 1 == |t.ys|;
    PhaseEnd(order, index, t, places, h);
  }
}
