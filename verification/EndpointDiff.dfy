/** Endpoints moved, added, removed and kept between two versions of the API
    (docs/docs_tools/swagger-diff-analyzer.py). */
module EndpointDiff {

  /** A path and a method. */
  type Endpoint = (string, string)

  /** An endpoint that was moved, and where to. */
  type Move = (Endpoint, Endpoint)

  ghost function Olds(moves: seq<Move>): (r: set<Endpoint>)
    ensures forall e :: e in r <==> exists k :: 0 <= k < |moves| && moves[k].0 == e
  {
    set k | 0 <= k < |moves| :: moves[k].0
  }

  ghost function News(moves: seq<Move>): (r: set<Endpoint>)
    ensures forall e :: e in r <==> exists k :: 0 <= k < |moves| && moves[k].1 == e
  {
    set k | 0 <= k < |moves| :: moves[k].1
  }

  /** Moves pair endpoints one to one, each pair similar enough. */
  ghost predicate IsMatching(moves: seq<Move>, removed: set<Endpoint>, added: set<Endpoint>, similarity: Move -> real) {
    && (forall k :: 0 <= k < |moves| ==> moves[k].0 in removed && moves[k].1 in added && similarity(moves[k]) > 0.6)
    && (forall j, k :: 0 <= j < k < |moves| ==> moves[j].0 != moves[k].0 && moves[j].1 != moves[k].1)
  }

  /** No pair that is left would be similar enough. */
  ghost predicate IsMaximal(moves: seq<Move>, removed: set<Endpoint>, added: set<Endpoint>, similarity: Move -> real) {
    forall r, a :: r in removed && a in added && r !in Olds(moves) && a !in News(moves) ==> similarity((r, a)) <= 0.6
  }

  lemma AddMove(moves: seq<Move>, r: Endpoint, a: Endpoint)
    ensures Olds(moves + [(r, a)]) == Olds(moves) + {r} && News(moves + [(r, a)]) == News(moves) + {a}
  {
    var all := moves + [(r, a)];
    assert all[|moves|] == (r, a);
    forall e | e in Olds(moves) ensures e in Olds(all) {
      var k :| 0 <= k < |moves| && moves[k].0 == e;
      assert all[k].0 == e;
    }
    forall e | e in News(moves) ensures e in News(all) {
      var k :| 0 <= k < |moves| && moves[k].1 == e;
      assert all[k].1 == e;
    }
  }

  /** The inner loop: some endpoint still unmatched that is similar enough, if there is one. */
  method FindMatch(r: Endpoint, added: set<Endpoint>, similarity: Move -> real) returns (found: bool, a: Endpoint)
    ensures found ==> a in added && similarity((r, a)) > 0.6
    ensures !found ==> forall b :: b in added ==> similarity((r, b)) <= 0.6
  {
    var todo := added;
    while todo != {}
      invariant todo <= added && forall b :: b in added && b !in todo ==> similarity((r, b)) <= 0.6
    {
      a :| a in todo;
      if similarity((r, a)) > 0.6 {
        return true, a;
      }
      todo := todo - {a};
    }
    return false, r;
  }

  /** `find_moved_endpoints`; sets are walked in no particular order. */
  method FindMovedEndpoints(oldPaths: set<Endpoint>, newPaths: set<Endpoint>, similarity: Move -> real)
      returns (moves: seq<Move>)
    ensures IsMatching(moves, oldPaths - newPaths, newPaths - oldPaths, similarity)
    ensures IsMaximal(moves, oldPaths - newPaths, newPaths - oldPaths, similarity)
  {
    var trulyNew, trulyRemoved := newPaths - oldPaths, oldPaths - newPaths;
    var todo := trulyRemoved;
    moves := [];
    while todo != {}
      invariant todo <= oldPaths - newPaths && todo !! Olds(moves)
      invariant trulyNew == newPaths - oldPaths - News(moves)
      invariant IsMatching(moves, oldPaths - newPaths, newPaths - oldPaths, similarity)
      invariant forall r, a :: (r in oldPaths - newPaths && r !in todo && r !in Olds(moves) && a in trulyNew) ==>
                  similarity((r, a)) <= 0.6
    {
      var r :| r in todo;
      todo := todo - {r};
      var found, a := FindMatch(r, trulyNew, similarity);
      if found {
        AddMove(moves, r, a);
        forall k | 0 <= k < |moves| ensures moves[k].0 != r && moves[k].1 != a {
          assert moves[k].0 in Olds(moves) && moves[k].1 in News(moves);
        }
        moves := moves + [(r, a)];
        trulyRemoved := trulyRemoved - {r};
        trulyNew := trulyNew - {a};
      }
    }
  }

  datatype Report = Report(moves: seq<Move>, added: set<Endpoint>, removed: set<Endpoint>, common: set<Endpoint>)

  /** Every old endpoint is removed, moved or kept, and every new one added, moved to or kept; never two of them. */
  ghost predicate IsAccount(r: Report, oldPaths: set<Endpoint>, newPaths: set<Endpoint>) {
    && r.removed + Olds(r.moves) + r.common == oldPaths
    && r.removed !! Olds(r.moves) && r.removed !! r.common && Olds(r.moves) !! r.common
    && r.added + News(r.moves) + r.common == newPaths
    && r.added !! News(r.moves) && r.added !! r.common && News(r.moves) !! r.common
    && r.common == oldPaths * newPaths
  }

  method AnalyzeEndpointChanges(oldPaths: set<Endpoint>, newPaths: set<Endpoint>, similarity: Move -> real)
      returns (r: Report)
    ensures IsAccount(r, oldPaths, newPaths)
    ensures IsMatching(r.moves, oldPaths - newPaths, newPaths - oldPaths, similarity)
    ensures forall o, n :: o in r.removed && n in r.added ==> similarity((o, n)) <= 0.6
  {
    var moves := FindMovedEndpoints(oldPaths, newPaths, similarity);
    var movedOld, movedNew := {}, {};
    for k := 0 to |moves|
      invariant movedOld == Olds(moves[..k]) && movedNew == News(moves[..k])
    {
      assert moves[..k + 1] == moves[..k] + [(moves[k].0, moves[k].1)];
      AddMove(moves[..k], moves[k].0, moves[k].1);
      movedOld, movedNew := movedOld + {moves[k].0}, movedNew + {moves[k].1};
    }
    assert moves[..|moves|] == moves;
    r := Report(moves, newPaths - oldPaths - movedNew, oldPaths - newPaths - movedOld, oldPaths * newPaths - movedOld);
    assert Olds(moves) <= oldPaths - newPaths && News(moves) <= newPaths - oldPaths;
  }

  lemma {:induction false} MovesCount(moves: seq<Move>)
    requires forall j, k :: 0 <= j < k < |moves| ==> moves[j].0 != moves[k].0 && moves[j].1 != moves[k].1
    ensures |Olds(moves)| == |moves| == |News(moves)|
  {
    if moves == [] {
      assert Olds(moves) == {} && News(moves) == {};
    } else {
      var init, last := moves[..|moves| - 1], moves[|moves| - 1];
      MovesCount(init);
      NewInMoves(moves);
    }
  }

  lemma NewInMoves(moves: seq<Move>)
    requires moves != []
    requires forall j, k :: 0 <= j < k < |moves| ==> moves[j].0 != moves[k].0 && moves[j].1 != moves[k].1
    ensures var init, last := moves[..|moves| - 1], moves[|moves| - 1];
            && last.0 !in Olds(init) && Olds(moves) == Olds(init) + {last.0}
            && last.1 !in News(init) && News(moves) == News(init) + {last.1}
  {
    var init, last := moves[..|moves| - 1], moves[|moves| - 1];
    assert moves == init + [(last.0, last.1)];
    AddMove(init, last.0, last.1);
  }

  /** The books balance: what was removed makes up for what was added. */
  lemma Balance(r: Report, oldPaths: set<Endpoint>, newPaths: set<Endpoint>, similarity: Move -> real)
    requires IsAccount(r, oldPaths, newPaths) && IsMatching(r.moves, oldPaths - newPaths, newPaths - oldPaths, similarity)
    ensures |oldPaths| + |r.added| == |newPaths| + |r.removed|
  {
    MovesCount(r.moves);
    assert |oldPaths| == |r.removed + Olds(r.moves)| + |r.common|;
    assert |newPaths| == |r.added + News(r.moves)| + |r.common|;
  }
}
