/** The last steps of the latency matrix: region names for labels, missing rows filled from their columns,
    and what the whole pipeline makes of the benchmark replies. */
module LatencyFill {
  import opened LatencyMatrix
  import opened LatencyAlign

  // ---------- region names ----------

  /** The first column without a label. */
  function Blank(header: seq<string>, from: nat): (k: nat)
    requires |header| == SIZE && 1 <= from <= SIZE
    ensures from <= k <= SIZE && (k < SIZE ==> header[k] == "") && forall i :: from <= i < k ==> header[i] != ""
    decreases SIZE - from
  {
    if from == SIZE || header[from] == "" then from else Blank(header, from + 1)
  }

  function Region(regions: map<string, string>, name: string): string {
    if name in regions then regions[name] else name
  }

  /** Labels up to column `k` replaced, in the header and in the first cells of the rows. */
  ghost predicate Renamed(from: Matrix, to: Matrix, regions: map<string, string>, k: nat) {
    && IsMatrix(from) && IsMatrix(to) && 1 <= k <= SIZE
    && (forall i, j :: 1 <= i < SIZE && 1 <= j < SIZE ==> to[i][j] == from[i][j])
    && (forall i :: 1 <= i < k ==> to[0][i] == Region(regions, from[0][i]))
    && (forall i :: 1 <= i < k ==> to[i][0] == if from[0][i] in regions then regions[from[0][i]] else from[i][0])
    && (forall i :: k <= i < SIZE ==> to[0][i] == from[0][i] && to[i][0] == from[i][0])
    && to[0][0] == from[0][0]
  }

  ghost predicate IsMatrix(rows: Matrix) {
    |rows| == SIZE && forall i :: 0 <= i < SIZE ==> |rows[i]| == SIZE
  }

  function RenameOne(rows: Matrix, i: nat, name: string): Matrix
    requires |rows| == SIZE && |rows[0]| == SIZE && i < SIZE && |rows[i]| == SIZE
  {
    rows[0 := rows[0][i := name]][i := rows[i][0 := name]]
  }

  lemma RenamedNext(from: Matrix, to: Matrix, regions: map<string, string>, i: nat)
    requires Renamed(from, to, regions, i) && i < SIZE
    ensures var name := from[0][i];
            Renamed(from, if name in regions then RenameOne(to, i, regions[name]) else to, regions, i + 1)
  {
  }

  method RenameColumn(rows: array<seq<string>>, i: nat, regions: map<string, string>, ghost was: Matrix)
    requires 1 <= i < SIZE && Renamed(was, rows[..], regions, i)
    modifies rows
    ensures Renamed(was, rows[..], regions, i + 1)
  {
    RenamedNext(was, rows[..], regions, i);
    var targetSpecId := rows[0][i];
    if targetSpecId in regions {
      rows[0] := rows[0][i := regions[targetSpecId]];
      rows[i] := rows[i][0 := regions[targetSpecId]];
      assert rows[..] == RenameOne(old(rows[..]), i, regions[targetSpecId]);
    }
  }

  method Rename(rows: array<seq<string>>, regions: map<string, string>)
    requires IsMatrix(rows[..])
    modifies rows
    ensures Renamed(old(rows[..]), rows[..], regions, Blank(old(rows[..])[0], 1))
  {
    ghost var was := rows[..];
    ghost var k := Blank(was[0], 1);
    var i := 1;
    while i < SIZE && rows[0][i] != ""
      invariant Renamed(was, rows[..], regions, i) && i <= k
    {
      RenameColumn(rows, i, regions, was);
      i := i + 1;
    }
    assert i == k;
  }

  // ---------- filling ----------

  predicate Missing(rows: Matrix, i: nat)
    requires i < |rows| && |rows[i]| == SIZE
  {
    rows[i][1] == ""
  }

  /** The rows missing among the first `n` take the values of their columns, from the top down. */
  function FilledCell(rows: Matrix, n: nat, i: nat, j: nat): string
    requires |rows| == SIZE && (forall k :: 0 <= k < SIZE ==> |rows[k]| == SIZE) && i < SIZE && j < SIZE
  {
    if 1 <= i < n && 1 <= j && Missing(rows, i) then
      if j < i && Missing(rows, j) then rows[i][j] else rows[j][i]
    else rows[i][j]
  }

  /** The first row without a label. */
  ghost predicate IsStop(rows: Matrix, stopAtBlank: bool, n: nat)
    requires IsMatrix(rows)
  {
    && 1 <= n <= SIZE && (!stopAtBlank ==> n == SIZE)
    && (stopAtBlank ==> (n < SIZE ==> rows[n][0] == "") && forall i :: 1 <= i < n ==> rows[i][0] != "")
  }

  method FillRow(rows: array<seq<string>>, i: nat)
    requires IsMatrix(rows[..]) && 1 <= i < SIZE
    modifies rows
    ensures IsMatrix(rows[..])
    ensures forall k :: 0 <= k < SIZE && k != i ==> rows[k] == old(rows[k])
    ensures rows[i][0] == old(rows[i][0])
    ensures forall j :: 1 <= j < SIZE ==> rows[i][j] == old(rows[..])[j][i]
  {
    for j := 1 to SIZE
      invariant IsMatrix(rows[..]) && rows[i][0] == old(rows[i][0])
      invariant forall k :: 0 <= k < SIZE && k != i ==> rows[k] == old(rows[k])
      invariant forall l :: 1 <= l < j ==> rows[i][l] == old(rows[..])[l][i]
      invariant forall l :: j <= l < SIZE ==> rows[i][l] == old(rows[..])[i][l]
    {
      rows[i] := rows[i][j := rows[j][i]];
    }
  }

  /** The fill of `RunLatencyBenchmark`, which stops at the first row without a label, or of
      `RunAllBenchmarks`, which does not. */
  method Fill(rows: array<seq<string>>, stopAtBlank: bool) returns (n: nat)
    requires IsMatrix(rows[..])
    modifies rows
    ensures IsMatrix(rows[..]) && IsStop(old(rows[..]), stopAtBlank, n)
    ensures forall i, j :: 0 <= i < SIZE && 0 <= j < SIZE ==> rows[i][j] == FilledCell(old(rows[..]), n, i, j)
  {
    ghost var was := rows[..];
    n := 1;
    while n < SIZE && !(stopAtBlank && rows[n][0] == "")
      invariant 1 <= n <= SIZE && IsMatrix(rows[..])
      invariant forall i, j :: 0 <= i < SIZE && 0 <= j < SIZE ==> rows[i][j] == FilledCell(was, n, i, j)
      invariant stopAtBlank ==> forall i :: 1 <= i < n ==> was[i][0] != ""
    {
      if rows[n][1] == "" {
        FillRow(rows, n);
      }
      n := n + 1;
    }
  }

  ghost predicate IsFilled(rows: Matrix, filled: Matrix, n: nat) {
    && IsMatrix(rows) && IsMatrix(filled) && 1 <= n <= SIZE
    && forall i, j :: 0 <= i < SIZE && 0 <= j < SIZE ==> filled[i][j] == FilledCell(rows, n, i, j)
  }

  /** Every missing row equals its column, whatever else was missing; rows that were there are untouched. */
  lemma FilledRows(rows: Matrix, filled: Matrix, n: nat, i: nat)
    requires IsFilled(rows, filled, n) && 1 <= i < SIZE
    ensures i < n && Missing(rows, i) ==> forall j :: 1 <= j < SIZE ==> filled[i][j] == filled[j][i]
    ensures i >= n || !Missing(rows, i) ==> filled[i] == rows[i]
  {
    if i < n && Missing(rows, i) {
      forall j | 1 <= j < SIZE ensures filled[i][j] == filled[j][i] {
        assert filled[i][j] == FilledCell(rows, n, i, j) && filled[j][i] == FilledCell(rows, n, j, i);
      }
    } else {
      forall j | 0 <= j < SIZE ensures filled[i][j] == rows[i][j] {
        assert filled[i][j] == FilledCell(rows, n, i, j);
      }
    }
  }

  /** Both fills do the same if nothing lies beyond the first row without a label. */
  lemma FillsAgree(rows: Matrix, one: Matrix, other: Matrix, n: nat)
    requires IsFilled(rows, one, n) && IsFilled(rows, other, SIZE)
    requires forall i, j :: n <= i < SIZE && 1 <= j < SIZE ==> rows[i][j] == "" && rows[j][i] == ""
    ensures one == other
  {
    forall i | 0 <= i < SIZE ensures one[i] == other[i] {
      forall j | 0 <= j < SIZE ensures one[i][j] == other[i][j] {
        assert one[i][j] == FilledCell(rows, n, i, j) && other[i][j] == FilledCell(rows, SIZE, i, j);
        assert n <= i && 1 <= j ==> rows[i][j] == rows[j][i];
      }
    }
  }

  // ---------- the whole pipeline ----------

  /** What was last reported for a pair, or nothing. */
  function Value(t: Table, source: string, target: string): string {
    if (source, target) in t.value then t.value[(source, target)] else ""
  }

  /** The value of a pair in the finished matrix: as reported if the source reported the first column; otherwise
      the reverse pair's, unless an earlier row was missing too. */
  function Reported(t: Table, i: nat, j: nat): string
    requires 1 <= i <= |t.ys| && 1 <= j <= |t.ys|
  {
    var source, target := t.ys[i - 1], t.ys[j - 1];
    if Value(t, source, t.ys[0]) != "" || (j < i && Value(t, target, t.ys[0]) == "") then Value(t, source, target)
    else Value(t, target, source)
  }

  lemma AlignedCells(rows: Matrix, t: Table, order: Order)
    requires Labelled(t) && Ordered(rows, t, order) && order[0] == 0 && Settled(order, t, |t.ys|)
    ensures IsMatrix(rows) && rows[0] == Row(t, 0)
    ensures forall i :: 1 <= i <= |t.ys| ==> rows[0][i] == rows[i][0] == t.ys[i - 1]
    ensures forall i, j :: 1 <= i <= |t.ys| && 1 <= j <= |t.ys| ==> rows[i][j] == Value(t, t.ys[i - 1], t.ys[j - 1])
  {
    forall i | 1 <= i <= |t.ys| ensures rows[i] == Row(t, order[i]) && t.xs[order[i] - 1] == t.ys[i - 1] {
    }
  }

  /** From the matrix before the fill to the finished one. */
  lemma FinishedCells(rows: Matrix, filled: Matrix, t: Table, n: nat)
    requires Labelled(t) && IsFilled(rows, filled, n) && |t.ys| < n
    requires forall i, j :: 1 <= i <= |t.ys| && 1 <= j <= |t.ys| ==> rows[i][j] == Value(t, t.ys[i - 1], t.ys[j - 1])
    ensures forall i, j :: 1 <= i <= |t.ys| && 1 <= j <= |t.ys| ==> filled[i][j] == Reported(t, i, j)
  {
    forall i, j | 1 <= i <= |t.ys| && 1 <= j <= |t.ys| ensures filled[i][j] == Reported(t, i, j) {
      assert filled[i][j] == FilledCell(rows, n, i, j);
      assert rows[i][1] == Value(t, t.ys[i - 1], t.ys[0]) && rows[j][1] == Value(t, t.ys[j - 1], t.ys[0]);
    }
  }

  lemma BlankAt(t: Table)
    requires Labelled(t)
    ensures Blank(Row(t, 0), 1) == |t.ys| + 1
  {
    var h := Row(t, 0);
    forall i | 1 <= i <= |t.ys| ensures h[i] != "" {
      assert h[i] == t.ys[i - 1] && t.ys[i - 1] in t.ys;
    }
    assert |t.ys| + 1 < SIZE ==> h[|t.ys| + 1] == "";
  }

  ghost predicate SameLabels(rows: Matrix, t: Table, regions: map<string, string>)
    requires IsMatrix(rows) && |t.ys| < SIZE
  {
    forall i :: 1 <= i <= |t.ys| ==> rows[0][i] == rows[i][0] == Region(regions, t.ys[i - 1])
  }

  /** Aligned rows, renamed: labels agree and the cells are those reported. */
  lemma NamedCells(aligned: Matrix, named: Matrix, t: Table, order: Order, regions: map<string, string>)
    requires Labelled(t) && Ordered(aligned, t, order) && order[0] == 0 && Settled(order, t, |t.ys|)
    requires |aligned[0]| == SIZE && Renamed(aligned, named, regions, Blank(aligned[0], 1))
    ensures SameLabels(named, t, regions)
    ensures forall i, j :: 1 <= i <= |t.ys| && 1 <= j <= |t.ys| ==> named[i][j] == Value(t, t.ys[i - 1], t.ys[j - 1])
  {
    AlignedCells(aligned, t, order);
    BlankAt(t);
    RenamedCells(aligned, named, t, regions);
  }

  lemma RenamedCells(from: Matrix, to: Matrix, t: Table, regions: map<string, string>)
    requires |t.ys| + 1 <= SIZE && Renamed(from, to, regions, |t.ys| + 1)
    requires forall i :: 1 <= i <= |t.ys| ==> from[0][i] == from[i][0] == t.ys[i - 1]
    ensures SameLabels(to, t, regions)
    ensures forall i, j :: 1 <= i <= |t.ys| && 1 <= j <= |t.ys| ==> to[i][j] == from[i][j]
  {
  }

  lemma NotStopped(named: Matrix, t: Table, regions: map<string, string>, stopAtBlank: bool, n: nat)
    requires Labelled(t) && IsMatrix(named) && SameLabels(named, t, regions) && IsStop(named, stopAtBlank, n)
    requires stopAtBlank ==> "" !in regions.Values
    ensures |t.ys| < n
  {
    if stopAtBlank {
      forall i | 1 <= i <= |t.ys| ensures named[i][0] != "" {
        var name := t.ys[i - 1];
        assert name in t.ys;
        assert name in regions ==> regions[name] in regions.Values;
      }
    }
  }

  /** Row and column i carry the same name, and each cell holds what was last reported for its pair, or for the
      reverse pair if the source's own row was missing. */
  ghost predicate IsLatencyMap(rows: Matrix, t: Table, regions: map<string, string>)
    requires IsMatrix(rows) && |t.ys| < SIZE
  {
    && SameLabels(rows, t, regions)
    && forall i, j :: 1 <= i <= |t.ys| && 1 <= j <= |t.ys| ==> rows[i][j] == Reported(t, i, j)
  }

  lemma FinishedMap(named: Matrix, filled: Matrix, t: Table, regions: map<string, string>, stopAtBlank: bool, n: nat)
    requires Labelled(t) && IsFilled(named, filled, n) && SameLabels(named, t, regions) && IsStop(named, stopAtBlank, n)
    requires stopAtBlank ==> "" !in regions.Values
    requires forall i, j :: 1 <= i <= |t.ys| && 1 <= j <= |t.ys| ==> named[i][j] == Value(t, t.ys[i - 1], t.ys[j - 1])
    ensures IsLatencyMap(filled, t, regions)
  {
    NotStopped(named, t, regions, stopAtBlank, n);
    FinishedCells(named, filled, t, n);
    forall i | 1 <= i <= |t.ys| ensures filled[0][i] == named[0][i] && filled[i][0] == named[i][0] {
      assert filled[0][i] == FilledCell(named, n, 0, i) && filled[i][0] == FilledCell(named, n, i, 0);
    }
  }

  /** The matrix behind the latency map, end to end, when every column label is also a row label. (Otherwise
      `Align` has swapped the header away.) */
  method LatencyMap(replies: seq<Reply>, regions: map<string, string>, stopAtBlank: bool) returns (rows: array<seq<string>>)
    requires Labelled(TableOf(replies)) && (stopAtBlank ==> "" !in regions.Values)
    ensures IsMatrix(rows[..])
    ensures (forall y :: y in TableOf(replies).ys ==> y in TableOf(replies).xs) ==>
              IsLatencyMap(rows[..], TableOf(replies), regions)
  {
    var index;
    rows, index := Build(replies);
    ghost var order := Align(rows, index, TableOf(replies));
    Finish(rows, regions, stopAtBlank, TableOf(replies), order);
  }

  method Finish(rows: array<seq<string>>, regions: map<string, string>, stopAtBlank: bool, ghost t: Table, ghost order: Order)
    requires Labelled(t) && Ordered(rows[..], t, order) && (stopAtBlank ==> "" !in regions.Values)
    requires order[0] == 0 ==> Settled(order, t, |t.ys|)
    modifies rows
    ensures IsMatrix(rows[..]) && (order[0] == 0 ==> IsLatencyMap(rows[..], t, regions))
  {
    ghost var aligned := rows[..];
    Rename(rows, regions);
    ghost var named := rows[..];
    var n := Fill(rows, stopAtBlank);
    if order[0] == 0 {
      NamedCells(aligned, named, t, order, regions);
      FinishedMap(named, rows[..], t, regions, stopAtBlank, n);
    }
  }

  // ---------- what "last reported" means ----------

  function ValuesOf(results: seq<Result>, target: string): seq<string> {
    if results == [] then []
    else
      var r := results[|results| - 1];
      ValuesOf(results[..|results| - 1], target) + if r.target == target then [r.rtt] else []
  }

  /** Everything reported for a pair, in order. */
  function Reports(replies: seq<Reply>, source: string, target: string): seq<string> {
    if replies == [] then []
    else
      var k := replies[|replies| - 1];
      Reports(replies[..|replies| - 1], source, target)
      + if k.source == source then ValuesOf(k.results, target) else []
  }

  lemma {:induction false} ResultsValue(t: Table, results: seq<Result>, from: string, source: string, target: string)
    ensures var u, values := AddResults(t, from, results), ValuesOf(results, target);
            if from == source && values != [] then
              (source, target) in u.value && u.value[(source, target)] == values[|values| - 1]
            else Value(u, source, target) == Value(t, source, target)
                 && ((source, target) in u.value <==> (source, target) in t.value)
    decreases |results|
  {
    if results != [] { ResultsValue(t, results[..|results| - 1], from, source, target); }
  }

  /** A pair has a value if and only if it was reported, and then the latest one. */
  lemma {:induction false} ValueIsLastReport(replies: seq<Reply>, source: string, target: string)
    ensures var t, reports := TableOf(replies), Reports(replies, source, target);
            && ((source, target) in t.value <==> reports != [])
            && Value(t, source, target) == if reports == [] then "" else reports[|reports| - 1]
    decreases |replies|
  {
    if replies != [] {
      var k, t := replies[|replies| - 1], TableOf(replies[..|replies| - 1]);
      ValueIsLastReport(replies[..|replies| - 1], source, target);
      ResultsValue(t.(xs := AddLabel(t.xs, k.source)), k.results, k.source, source, target);
    }
  }
}
