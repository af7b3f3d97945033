/** The latency matrix of src/core/infra/benchmark.go: built from the benchmark replies, its rows put into
    the order of its columns, its missing rows filled from their columns. */
module LatencyMatrix {

  const SIZE := 300

  /** What one VM reported: its label, and a value for each target label. */
  datatype Result = Result(target: string, rtt: string)
  datatype Reply = Reply(source: string, results: seq<Result>)

  /** The replies digested: the row labels and column labels in order of first appearance, and the latest
      value of each pair. */
  datatype Table = Table(xs: seq<string>, ys: seq<string>, value: map<(string, string), string>)

  type Matrix = seq<seq<string>>

  // ---------- the table of a report ----------

  function AddLabel(labels: seq<string>, name: string): seq<string> {
    if name in labels then labels else labels + [name]
  }

  function AddResults(t: Table, source: string, results: seq<Result>): Table {
    if results == [] then t
    else
      var r, u := results[|results| - 1], AddResults(t, source, results[..|results| - 1]);
      u.(ys := AddLabel(u.ys, r.target), value := u.value[(source, r.target) := r.rtt])
  }

  function TableOf(replies: seq<Reply>): Table {
    if replies == [] then Table([], [], map[])
    else
      var k, t := replies[|replies| - 1], TableOf(replies[..|replies| - 1]);
      AddResults(t.(xs := AddLabel(t.xs, k.source)), k.source, k.results)
  }

  ghost predicate Distinct(labels: seq<string>) {
    forall i, j :: 0 <= i < j < |labels| ==> labels[i] != labels[j]
  }

  ghost predicate IsTable(t: Table) {
    Distinct(t.xs) && Distinct(t.ys) && forall p :: p in t.value ==> p.0 in t.xs && p.1 in t.ys
  }

  lemma AddLabelDistinct(labels: seq<string>, name: string)
    requires Distinct(labels)
    ensures Distinct(AddLabel(labels, name)) && name in AddLabel(labels, name)
    ensures labels <= AddLabel(labels, name)
  {
  }

  lemma {:induction false} AddResultsTable(t: Table, source: string, results: seq<Result>)
    requires IsTable(t) && source in t.xs
    ensures var u := AddResults(t, source, results); IsTable(u) && u.xs == t.xs && t.ys <= u.ys
    decreases |results|
  {
    if results != [] {
      var r, v := results[|results| - 1], AddResults(t, source, results[..|results| - 1]);
      AddResultsTable(t, source, results[..|results| - 1]);
      AddLabelDistinct(v.ys, r.target);
    }
  }

  lemma {:induction false} TableOfTable(replies: seq<Reply>)
    ensures IsTable(TableOf(replies))
    decreases |replies|
  {
    if replies != [] {
      var k, t := replies[|replies| - 1], TableOf(replies[..|replies| - 1]);
      TableOfTable(replies[..|replies| - 1]);
      AddLabelDistinct(t.xs, k.source);
      AddResultsTable(t.(xs := AddLabel(t.xs, k.source)), k.source, k.results);
    }
  }

  /** Labels are only ever added. */
  lemma {:induction false} ResultsGrow(t: Table, source: string, results: seq<Result>, b: nat)
    requires b <= |results|
    ensures AddResults(t, source, results[..b]).ys <= AddResults(t, source, results).ys
    ensures AddResults(t, source, results[..b]).xs == t.xs
    decreases |results|
  {
    if b == |results| {
      assert results[..b] == results;
      if b > 0 {
        ResultsGrow(t, source, results[..b - 1], b - 1);
        assert results[..b - 1][..b - 1] == results[..b - 1];
      }
    } else {
      ResultsGrow(t, source, results[..|results| - 1], b);
      assert results[..|results| - 1][..b] == results[..b];
    }
  }

  lemma {:induction false} TableGrows(replies: seq<Reply>, a: nat)
    requires a <= |replies|
    ensures TableOf(replies[..a]).xs <= TableOf(replies).xs && TableOf(replies[..a]).ys <= TableOf(replies).ys
    decreases |replies|
  {
    if a == |replies| {
      assert replies[..a] == replies;
    } else {
      var k, t := replies[|replies| - 1], TableOf(replies[..|replies| - 1]);
      TableGrows(replies[..|replies| - 1], a);
      assert replies[..|replies| - 1][..a] == replies[..a];
      ResultsGrow(t.(xs := AddLabel(t.xs, k.source)), k.source, k.results, 0);
      ResultsGrow(t.(xs := AddLabel(t.xs, k.source)), k.source, k.results, |k.results|);
      assert k.results[..|k.results|] == k.results;
    }
  }

  lemma Fits(replies: seq<Reply>, a: nat, b: nat)
    requires a < |replies| && b <= |replies[a].results|
    ensures var t, k := TableOf(replies[..a]), replies[a];
            && |AddLabel(t.xs, k.source)| <= |TableOf(replies).xs|
            && |AddResults(t.(xs := AddLabel(t.xs, k.source)), k.source, k.results[..b]).ys| <= |TableOf(replies).ys|
  {
    var t, k := TableOf(replies[..a]), replies[a];
    assert replies[..a + 1][..a] == replies[..a];
    TableGrows(replies, a + 1);
    ResultsGrow(t.(xs := AddLabel(t.xs, k.source)), k.source, k.results, b);
    ResultsGrow(t.(xs := AddLabel(t.xs, k.source)), k.source, k.results, |k.results|);
    assert k.results[..|k.results|] == k.results;
  }

  // ---------- the matrix of a table ----------

  function Cell(t: Table, i: nat, j: nat): string {
    if i == 0 && j == 0 then ""
    else if i == 0 then if j <= |t.ys| then t.ys[j - 1] else ""
    else if j == 0 then if i <= |t.xs| then t.xs[i - 1] else ""
    else if i <= |t.xs| && j <= |t.ys| && (t.xs[i - 1], t.ys[j - 1]) in t.value then t.value[(t.xs[i - 1], t.ys[j - 1])]
    else ""
  }

  function Row(t: Table, i: nat): (r: seq<string>)
    ensures |r| == SIZE && forall j :: 0 <= j < SIZE ==> r[j] == Cell(t, i, j)
  {
    seq(SIZE, j requires 0 <= j < SIZE => Cell(t, i, j))
  }

  /** Row labels and their places, as kept in `rttIndexMapX`. */
  ghost predicate IsIndex(index: map<string, int>, labels: seq<string>) {
    && (forall l :: l in index <==> l in labels)
    && (forall i :: 0 <= i < |labels| ==> index[labels[i]] == i + 1)
  }

  lemma AddRow(t: Table, source: string, i: nat)
    requires IsTable(t) && source !in t.xs
    ensures var u := t.(xs := t.xs + [source]);
            Row(u, i) == if i == |t.xs| + 1 then Row(t, i)[0 := source] else Row(t, i)
  {
    var u := t.(xs := t.xs + [source]);
    forall j | 0 <= j < SIZE ensures Cell(u, i, j) == if i == |t.xs| + 1 && j == 0 then source else Cell(t, i, j) {
    }
  }

  lemma AddColumn(t: Table, target: string, i: nat)
    requires IsTable(t) && target !in t.ys && |t.ys| + 1 < SIZE
    ensures var u := t.(ys := t.ys + [target]);
            Row(u, i) == if i == 0 then Row(t, i)[|t.ys| + 1 := target] else Row(t, i)
  {
    var u := t.(ys := t.ys + [target]);
    forall j | 0 <= j < SIZE ensures Cell(u, i, j) == if i == 0 && j == |t.ys| + 1 then target else Cell(t, i, j) {
    }
  }

  lemma SetValue(t: Table, x: nat, y: nat, rtt: string, i: nat)
    requires IsTable(t) && 0 < x <= |t.xs| && 0 < y <= |t.ys| < SIZE
    ensures var u := t.(value := t.value[(t.xs[x - 1], t.ys[y - 1]) := rtt]);
            Row(u, i) == if i == x then Row(t, i)[y := rtt] else Row(t, i)
  {
    var u := t.(value := t.value[(t.xs[x - 1], t.ys[y - 1]) := rtt]);
    forall j | 0 <= j < SIZE ensures Cell(u, i, j) == if i == x && j == y then rtt else Cell(t, i, j) {
    }
  }

  ghost predicate Shows(rows: array<seq<string>>, t: Table)
    reads rows
  {
    rows.Length == SIZE && forall i :: 0 <= i < SIZE ==> rows[i] == Row(t, i)
  }

  /** A new row label goes to the first cell of the next row. */
  method EnsureRow(rows: array<seq<string>>, ghost t: Table, source: string, index: map<string, int>, cnt: nat)
      returns (index': map<string, int>, cnt': nat)
    requires IsTable(t) && Shows(rows, t) && IsIndex(index, t.xs) && cnt == |t.xs| + 1 && |AddLabel(t.xs, source)| < SIZE
    modifies rows
    ensures Shows(rows, t.(xs := AddLabel(t.xs, source))) && IsIndex(index', AddLabel(t.xs, source))
    ensures cnt' == |AddLabel(t.xs, source)| + 1
    ensures source in index' && 0 < index'[source] <= |AddLabel(t.xs, source)|
            && AddLabel(t.xs, source)[index'[source] - 1] == source
  {
    AddLabelDistinct(t.xs, source);
    index', cnt' := index, cnt;
    if source !in index {
      forall i: nat ensures Row(t.(xs := t.xs + [source]), i) == if i == cnt then Row(t, i)[0 := source] else Row(t, i) {
        AddRow(t, source, i);
      }
      index', cnt' := index[source := cnt], cnt + 1;
      rows[cnt] := rows[cnt][0 := source];
    }
  }

  /** A new column label goes to the next cell of the first row. */
  method EnsureColumn(rows: array<seq<string>>, ghost t: Table, target: string, index: map<string, int>, cnt: nat)
      returns (index': map<string, int>, cnt': nat)
    requires IsTable(t) && Shows(rows, t) && IsIndex(index, t.ys) && cnt == |t.ys| + 1 && |AddLabel(t.ys, target)| < SIZE
    modifies rows
    ensures Shows(rows, t.(ys := AddLabel(t.ys, target))) && IsIndex(index', AddLabel(t.ys, target))
    ensures cnt' == |AddLabel(t.ys, target)| + 1
  {
    index', cnt' := index, cnt;
    if target !in index {
      forall i: nat ensures Row(t.(ys := t.ys + [target]), i) == if i == 0 then Row(t, i)[cnt := target] else Row(t, i) {
        AddColumn(t, target, i);
      }
      index', cnt' := index[target := cnt], cnt + 1;
      rows[0] := rows[0][cnt := target];
    }
  }

  method SetCell(rows: array<seq<string>>, ghost t: Table, iX: int, iY: int, rtt: string)
    requires IsTable(t) && Shows(rows, t) && 0 < iX <= |t.xs| < SIZE && 0 < iY <= |t.ys| < SIZE
    modifies rows
    ensures Shows(rows, t.(value := t.value[(t.xs[iX - 1], t.ys[iY - 1]) := rtt]))
  {
    forall i: nat ensures Row(t.(value := t.value[(t.xs[iX - 1], t.ys[iY - 1]) := rtt]), i)
                          == if i == iX then Row(t, i)[iY := rtt] else Row(t, i) {
      SetValue(t, iX, iY, rtt, i);
    }
    rows[iX] := rows[iX][iY := rtt];
  }

  /** One result of the reply shown in row `iX`. */
  method AddCell(rows: array<seq<string>>, ghost t: Table, iX: int, m: Result, index: map<string, int>, cnt: nat)
      returns (ghost t': Table, index': map<string, int>, cnt': nat)
    requires IsTable(t) && Shows(rows, t) && IsIndex(index, t.ys) && cnt == |t.ys| + 1 && |AddLabel(t.ys, m.target)| < SIZE
    requires 0 < iX <= |t.xs| < SIZE
    modifies rows
    ensures t' == t.(ys := AddLabel(t.ys, m.target), value := t.value[(t.xs[iX - 1], m.target) := m.rtt]) && IsTable(t')
    ensures Shows(rows, t') && IsIndex(index', t'.ys) && cnt' == |t'.ys| + 1
  {
    AddLabelDistinct(t.ys, m.target);
    index', cnt' := EnsureColumn(rows, t, m.target, index, cnt);
    t' := t.(ys := AddLabel(t.ys, m.target));
    var iY := index'[m.target];
    SetCell(rows, t', iX, iY, m.rtt);
    t' := t'.(value := t'.value[(t.xs[iX - 1], m.target) := m.rtt]);
  }

  method BlankRows() returns (rows: array<seq<string>>)
    ensures fresh(rows) && Shows(rows, Table([], [], map[]))
  {
    var blank := seq(SIZE, _ => "");
    rows := new seq<string>[SIZE](_ => blank);
    forall i | 0 <= i < SIZE ensures rows[i] == Row(Table([], [], map[]), i) {
      assert blank == Row(Table([], [], map[]), i);
    }
  }

  method Build(replies: seq<Reply>) returns (rows: array<seq<string>>, rttIndexMapX: map<string, int>)
    requires |TableOf(replies).xs| < SIZE && |TableOf(replies).ys| < SIZE
    ensures fresh(rows) && Shows(rows, TableOf(replies)) && IsIndex(rttIndexMapX, TableOf(replies).xs)
  {
    rows := BlankRows();
    ghost var t := Table([], [], map[]);
    rttIndexMapX := map[];
    var rttIndexMapY: map<string, int> := map[];
    var cntTargetX, cntTargetY := 1, 1;
    for a := 0 to |replies|
      invariant t == TableOf(replies[..a]) && IsTable(t) && cntTargetX == |t.xs| + 1 && cntTargetY == |t.ys| + 1
      invariant Shows(rows, t) && IsIndex(rttIndexMapX, t.xs) && IsIndex(rttIndexMapY, t.ys)
    {
      t, rttIndexMapX, cntTargetX, rttIndexMapY, cntTargetY :=
        AddReply(rows, replies, a, t, rttIndexMapX, cntTargetX, rttIndexMapY, cntTargetY);
    }
    assert replies[..|replies|] == replies;
  }

  /** One round of the outer loop: the row of the source, then its results. */
  method AddReply(rows: array<seq<string>>, replies: seq<Reply>, a: nat, ghost t: Table,
                  indexX: map<string, int>, cntX: nat, indexY: map<string, int>, cntY: nat)
      returns (ghost t': Table, indexX': map<string, int>, cntX': nat, indexY': map<string, int>, cntY': nat)
    requires a < |replies| && |TableOf(replies).xs| < SIZE && |TableOf(replies).ys| < SIZE
    requires t == TableOf(replies[..a]) && IsTable(t) && Shows(rows, t)
    requires IsIndex(indexX, t.xs) && cntX == |t.xs| + 1 && IsIndex(indexY, t.ys) && cntY == |t.ys| + 1
    modifies rows
    ensures t' == TableOf(replies[..a + 1]) && IsTable(t') && Shows(rows, t')
    ensures IsIndex(indexX', t'.xs) && cntX' == |t'.xs| + 1 && IsIndex(indexY', t'.ys) && cntY' == |t'.ys| + 1
  {
    var k := replies[a];
    Fits(replies, a, 0);
    AddLabelDistinct(t.xs, k.source);
    indexX', cntX' := EnsureRow(rows, t, k.source, indexX, cntX);
    ghost var named := t.(xs := AddLabel(t.xs, k.source));
    assert replies[..a + 1][..a] == replies[..a];
    t', indexY', cntY' := AddResultCells(rows, replies, a, named, indexX'[k.source], indexY, cntY);
  }

  /** The inner loop: the results of one reply, into row `iX`. */
  method AddResultCells(rows: array<seq<string>>, replies: seq<Reply>, a: nat, ghost t: Table, iX: int,
                        index: map<string, int>, cnt: nat)
      returns (ghost t': Table, index': map<string, int>, cnt': nat)
    requires a < |replies| && |TableOf(replies).xs| < SIZE && |TableOf(replies).ys| < SIZE
    requires t == TableOf(replies[..a]).(xs := AddLabel(TableOf(replies[..a]).xs, replies[a].source))
    requires IsTable(t) && |t.xs| < SIZE && 0 < iX <= |t.xs| && t.xs[iX - 1] == replies[a].source
    requires Shows(rows, t) && IsIndex(index, t.ys) && cnt == |t.ys| + 1
    modifies rows
    ensures t' == AddResults(t, replies[a].source, replies[a].results) && t'.xs == t.xs && IsTable(t')
    ensures Shows(rows, t') && IsIndex(index', t'.ys) && cnt' == |t'.ys| + 1
  {
    var k := replies[a];
    t', index', cnt' := t, index, cnt;
    for b := 0 to |k.results|
      invariant t' == AddResults(t, k.source, k.results[..b]) && t'.xs == t.xs && IsTable(t')
      invariant Shows(rows, t') && IsIndex(index', t'.ys) && cnt' == |t'.ys| + 1
    {
      var m := k.results[b];
      assert k.results[..b + 1][..b] == k.results[..b];
      Fits(replies, a, b + 1);
      t', index', cnt' := AddCell(rows, t', iX, m, index', cnt');
    }
    assert k.results[..|k.results|] == k.results;
  }
}
