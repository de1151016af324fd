/**
 * The level structure of the breadth-first search.  Its queue holds nodes
 * whose move strings never get shorter from front to back and differ in
 * length by at most one.  Every move string shorter than the front's ends
 * in an expanded key, and every one no longer than the front's in a visited
 * key.  No queued key is reached by a move string shorter than its own.
 * So the first complete node polled carries a shortest solution.
 */
module Layers {
  import opened Pieces
  import opened Rules
  import opened Pushes
  import opened Completion
  import opened Keys
  import opened Search
  import opened Exploration

  /** Every move string shorter than d leads to a key of s. */
  ghost predicate Below(g: Grid, p0: seq<Piece>, d: int, s: set<string>)
    requires g.Valid() && AllInBounds(g, p0)
  {
    forall ms {:trigger Key(Replay(g, p0, ms))} :: ValidMoves(ms) && |ms| < d ==> Key(Replay(g, p0, ms)) in s
  }

  /** No move string shorter than d leads to the key k. */
  ghost predicate Unreached(g: Grid, p0: seq<Piece>, d: int, k: string)
    requires g.Valid() && AllInBounds(g, p0)
  {
    forall ms {:trigger Key(Replay(g, p0, ms))} :: ValidMoves(ms) && |ms| < d ==> Key(Replay(g, p0, ms)) != k
  }

  /**
   * The queued keys with the lengths of their move strings: lengths never
   * decrease and the last is at most one more than the first; move strings
   * shorter than the first length lead to expanded keys, those up to it to
   * visited keys; and no queued key is met by a shorter move string.
   */
  ghost predicate Layered(g: Grid, p0: seq<Piece>, keys: seq<string>, depths: seq<int>,
                          visited: set<string>, closed: set<string>)
    requires g.Valid() && AllInBounds(g, p0)
  {
    |depths| == |keys| &&
    (forall a, b :: 0 <= a <= b < |depths| ==> depths[a] <= depths[b]) &&
    (depths != [] ==>
      depths[|depths| - 1] <= depths[0] + 1 &&
      Below(g, p0, depths[0], closed) && Below(g, p0, depths[0] + 1, visited)) &&
    (forall a :: 0 <= a < |depths| ==> Unreached(g, p0, depths[a], keys[a]))
  }

  /** The queue holding only the start, with no moves, is layered. */
  lemma LayeredStart(g: Grid, p0: seq<Piece>)
    requires g.Valid() && Sane(g, p0)
    ensures Layered(g, p0, [Key(p0)], [0], {Key(p0)}, {})
  {
    forall ms | ValidMoves(ms) && |ms| < 1 ensures Key(Replay(g, p0, ms)) in {Key(p0)} {
      assert ms == [];
    }
  }

  /** A move string one push past an expanded key leads to a visited key. */
  lemma PastExpanded(g: Grid, p0: seq<Piece>, reps: map<string, seq<Piece>>, closed: set<string>, ms: seq<char>)
    requires g.Valid() && Sane(g, p0) && RepsOk(g, reps) && AllExpanded(g, reps, closed)
    requires ValidMoves(ms) && ms != []
    requires Key(Replay(g, p0, ms[..|ms| - 1])) in closed
    ensures Key(Replay(g, p0, ms)) in reps
  {
    var init := ms[..|ms| - 1];
    var i := MoveIndex(ms[|ms| - 1]);
    var k := Key(Replay(g, p0, init));
    assert Expanded(g, reps, k);
    ReplaySane(g, p0, init);
    MoveKeysAgree(g, reps[k], Replay(g, p0, init), i);
  }

  /**
   * No move string shorter than the depth below which every key is expanded
   * completes the puzzle.
   */
  lemma FrontShortest(g: Grid, p0: seq<Piece>, reps: map<string, seq<Piece>>, closed: set<string>,
                      d: int, ms: seq<char>)
    requires g.Valid() && Sane(g, p0) && RepsOk(g, reps) && AllExpanded(g, reps, closed)
    requires Below(g, p0, d, closed)
    requires ValidMoves(ms) && Complete(Replay(g, p0, ms))
    ensures d <= |ms|
  {
    if |ms| < d {
      var k := Key(Replay(g, p0, ms));
      assert Expanded(g, reps, k);
      ReplaySane(g, p0, ms);
      CompleteKeysAgree(Replay(g, p0, ms), reps[k]);
    }
  }

  /** After a round the lengths stay ordered: the rest kept its order and the new ones are one longer than the front. */
  lemma StepOrdered(depths: seq<int>, depths': seq<int>, n: int)
    requires depths != [] && n == |depths| - 1 && n <= |depths'|
    requires forall a, b :: 0 <= a <= b < |depths| ==> depths[a] <= depths[b]
    requires depths[|depths| - 1] <= depths[0] + 1
    requires forall j :: 0 <= j < n ==> depths'[j] == depths[j + 1]
    requires forall j :: n <= j < |depths'| ==> depths'[j] == depths[0] + 1
    ensures forall a, b :: 0 <= a <= b < |depths'| ==> depths'[a] <= depths'[b]
    ensures depths' != [] ==> depths[0] <= depths'[0] <= depths[0] + 1
    ensures depths' != [] ==> depths'[|depths'| - 1] <= depths'[0] + 1
    ensures depths' != [] && depths'[0] == depths[0] + 1 ==> forall j :: 1 <= j < |depths| ==> depths[j] == depths[0] + 1
  {
  }

  /**
   * After a round, with the front's length d and the new front's length
   * d + 1, the keys met by strings of length d are expanded.
   */
  lemma StepBelowClosed(g: Grid, p0: seq<Piece>, keys: seq<string>, depths: seq<int>,
                        visited: set<string>, closed: set<string>)
    requires g.Valid() && AllInBounds(g, p0) && keys != []
    requires Layered(g, p0, keys, depths, visited, closed) && Waiting(visited, keys, closed)
    requires forall j :: 1 <= j < |depths| ==> depths[j] == depths[0] + 1
    ensures Below(g, p0, depths[0] + 1, closed + {keys[0]})
  {
    var d := depths[0];
    forall ms | ValidMoves(ms) && |ms| < d + 1 ensures Key(Replay(g, p0, ms)) in closed + {keys[0]} {
      var k := Key(Replay(g, p0, ms));
      if |ms| == d && k !in closed {
        forall j | 1 <= j < |keys| ensures keys[j] != k {
          assert Unreached(g, p0, depths[j], keys[j]);
        }
      }
    }
  }

  /** Strings one longer than an expanded depth lead to visited keys. */
  lemma StepBelowVisited(g: Grid, p0: seq<Piece>, reps: map<string, seq<Piece>>, closed: set<string>, d: int)
    requires g.Valid() && Sane(g, p0) && RepsOk(g, reps) && AllExpanded(g, reps, closed)
    requires 1 <= d && Below(g, p0, d, closed) && Below(g, p0, d, reps.Keys)
    ensures Below(g, p0, d + 1, reps.Keys)
  {
    forall ms | ValidMoves(ms) && |ms| < d + 1 ensures Key(Replay(g, p0, ms)) in reps.Keys {
      if |ms| == d {
        var init := ms[..|ms| - 1];
        assert ValidMoves(init) && |init| < d;
        assert Key(Replay(g, p0, init)) in closed;
        PastExpanded(g, p0, reps, closed, ms);
      }
    }
  }

  /**
   * One breadth-first round keeps the queue layered: the front key, whose
   * strings are d long, is expanded and leaves; the rest keep their order;
   * the keys appended are new and d + 1 long.
   */
  lemma LayerStep(g: Grid, p0: seq<Piece>, keys: seq<string>, depths: seq<int>, visited: set<string>,
                  closed: set<string>, keys': seq<string>, depths': seq<int>, visited': set<string>,
                  closed': set<string>, reps': map<string, seq<Piece>>)
    requires g.Valid() && Sane(g, p0) && keys != []
    requires Layered(g, p0, keys, depths, visited, closed) && Waiting(visited, keys, closed) && 0 <= depths[0]
    requires closed' == closed + {keys[0]} && visited <= visited' == reps'.Keys
    requires RepsOk(g, reps') && AllExpanded(g, reps', closed')
    requires |keys| - 1 <= |keys'| == |depths'|
    requires forall j :: 0 <= j < |keys| - 1 ==> keys'[j] == keys[j + 1] && depths'[j] == depths[j + 1]
    requires forall j :: |keys| - 1 <= j < |keys'| ==> depths'[j] == depths[0] + 1 && keys'[j] !in visited
    ensures Layered(g, p0, keys', depths', visited', closed')
  {
    var d := depths[0];
    StepOrdered(depths, depths', |keys| - 1);
    forall a | 0 <= a < |depths'| ensures Unreached(g, p0, depths'[a], keys'[a]) {
      if a < |keys| - 1 {
        assert Unreached(g, p0, depths[a + 1], keys[a + 1]);
      } else {
        forall ms | ValidMoves(ms) && |ms| < depths'[a] ensures Key(Replay(g, p0, ms)) != keys'[a] {
          assert Key(Replay(g, p0, ms)) in visited;
        }
      }
    }
    if depths' != [] {
      if depths'[0] == d {
        assert Below(g, p0, d, closed');
        assert Below(g, p0, d + 1, visited');
      } else {
        StepBelowClosed(g, p0, keys, depths, visited, closed);
        assert Below(g, p0, d + 1, visited');
        StepBelowVisited(g, p0, reps', closed', d + 1);
      }
    }
  }
}
