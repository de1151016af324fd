/**
 * The search space of the solvers: the four pushes in the order of the
 * direction tables, replaying a move string from the starting pieces, and
 * the argument that a search whose every visited state was expanded without
 * finding a complete one has proved that no move string completes the puzzle.
 */
module Search {
  import opened Pieces
  import opened Merging
  import opened Rules
  import opened Pushes
  import opened Completion
  import opened Keys
  import opened Universe

  /** The direction tables, index by index: up, down, left, right. */
  const DX: seq<int> := [0, 0, -1, 1]
  const DY: seq<int> := [-1, 1, 0, 0]
  const MoveChars: seq<char> := ['U', 'D', 'L', 'R']

  lemma DirectionIsUnit(i: int)
    requires 0 <= i < 4
    ensures IsUnit(DX[i], DY[i])
  {
  }

  /** A move string uses only the four move letters. */
  predicate ValidMoves(ms: seq<char>)
  {
    forall k :: 0 <= k < |ms| ==> ms[k] in MoveChars
  }

  /** The table index of a move letter. */
  function MoveIndex(m: char): (i: nat)
    requires m in MoveChars
    ensures i < 4 && MoveChars[i] == m
  {
    if m == 'U' then 0 else if m == 'D' then 1 else if m == 'L' then 2 else 3
  }

  /** The push in direction i of the tables. */
  function Push(g: Grid, ps: seq<Piece>, i: int): (r: seq<Piece>)
    requires g.Valid() && AllInBounds(g, ps) && 0 <= i < 4
    ensures AllInBounds(g, r)
  {
    DirectionIsUnit(i);
    Move(g, ps, DX[i], DY[i])
  }

  /** The pieces after pushing, in turn, in each direction of the move string. */
  function Replay(g: Grid, ps: seq<Piece>, ms: seq<char>): (r: seq<Piece>)
    requires g.Valid() && AllInBounds(g, ps) && ValidMoves(ms)
    ensures AllInBounds(g, r)
    decreases |ms|
  {
    if ms == [] then ps
    else
      var i := MoveIndex(ms[|ms| - 1]);
      Push(g, Replay(g, ps, ms[..|ms| - 1]), i)
  }

  /** Appending a move letter pushes once more in its direction. */
  lemma ReplayAppend(g: Grid, ps: seq<Piece>, ms: seq<char>, i: int)
    requires g.Valid() && AllInBounds(g, ps) && ValidMoves(ms) && 0 <= i < 4
    ensures ValidMoves(ms + [MoveChars[i]])
    ensures Replay(g, ps, ms + [MoveChars[i]]) == Push(g, Replay(g, ps, ms), i)
  {
    assert (ms + [MoveChars[i]])[..|ms|] == ms;
    assert MoveIndex(MoveChars[i]) == i;
  }

  /** Every reachable configuration keeps the board invariant. */
  lemma {:induction false} ReplaySane(g: Grid, ps: seq<Piece>, ms: seq<char>)
    requires g.Valid() && Sane(g, ps) && ValidMoves(ms)
    ensures Sane(g, Replay(g, ps, ms))
    decreases |ms|
  {
    if ms != [] {
      var i := MoveIndex(ms[|ms| - 1]);
      ReplaySane(g, ps, ms[..|ms| - 1]);
      MovePreservesSane(g, Replay(g, ps, ms[..|ms| - 1]), DX[i], DY[i]);
    }
  }

  /** Every reachable configuration has the starting colours. */
  lemma {:induction false} ReplayColors(g: Grid, ps: seq<Piece>, ms: seq<char>)
    requires g.Valid() && AllInBounds(g, ps) && ValidMoves(ms)
    ensures ColorsOf(Replay(g, ps, ms)) == ColorsOf(ps)
    decreases |ms|
  {
    if ms != [] {
      var i := MoveIndex(ms[|ms| - 1]);
      ReplayColors(g, ps, ms[..|ms| - 1]);
      MoveKeepsColors(g, Replay(g, ps, ms[..|ms| - 1]), DX[i], DY[i]);
    }
  }

  /** Lists with the same members have the same colours. */
  lemma ColorsOfSameMembers(a: seq<Piece>, b: seq<Piece>)
    requires SameMembers(a, b)
    ensures ColorsOf(a) == ColorsOf(b)
  {
    forall c | c in ColorsOf(a) ensures c in ColorsOf(b) {
      var p :| p in a && p.color == c;
    }
    forall c | c in ColorsOf(b) ensures c in ColorsOf(a) {
      var p :| p in b && p.color == c;
    }
  }

  /**
   * A state holding the same pieces as a reachable configuration has its key
   * in the finite universe of the starting board and colours.
   */
  lemma ReachedKeyInUniverse(g: Grid, p0: seq<Piece>, ms: seq<char>, ps: seq<Piece>)
    requires g.Valid() && Sane(g, p0) && ValidMoves(ms)
    requires AllInBounds(g, ps) && NoDup(ps) && SameMembers(ps, Replay(g, p0, ms))
    ensures Key(ps) in KeyUniverse(g, ColorsOf(p0))
  {
    ReplayColors(g, p0, ms);
    ColorsOfSameMembers(ps, Replay(g, p0, ms));
    KeyInUniverse(g, ColorsOf(p0), ps);
  }

  /** The move string ms reaches a configuration whose key is k. */
  ghost predicate ReachedBy(g: Grid, p0: seq<Piece>, ms: seq<char>, k: string)
    requires g.Valid() && AllInBounds(g, p0)
  {
    ValidMoves(ms) && Key(Replay(g, p0, ms)) == k
  }

  /** Some move string reaches a configuration whose key is k. */
  ghost predicate Reached(g: Grid, p0: seq<Piece>, k: string)
    requires g.Valid() && AllInBounds(g, p0)
  {
    exists ms :: ReachedBy(g, p0, ms, k)
  }

  /**
   * The keys of the configurations reachable from p0: the distinct states a
   * search can meet.  They are drawn from the finite key universe.
   */
  ghost function ReachableKeys(g: Grid, p0: seq<Piece>): set<string>
    requires g.Valid() && AllInBounds(g, p0)
  {
    set k | k in KeyUniverse(g, ColorsOf(p0)) && Reached(g, p0, k)
  }

  /**
   * Every key of a set is reached.  The quantifier fires only where
   * reachability of a particular key is asked about.
   */
  ghost predicate AllReached(g: Grid, p0: seq<Piece>, keys: set<string>)
    requires g.Valid() && AllInBounds(g, p0)
  {
    forall k {:trigger Reached(g, p0, k)} :: k in keys ==> Reached(g, p0, k)
  }

  /** Reached keys of the universe are reachable keys. */
  lemma ReachedSubset(g: Grid, p0: seq<Piece>, keys: set<string>)
    requires g.Valid() && AllInBounds(g, p0)
    requires keys <= KeyUniverse(g, ColorsOf(p0)) && AllReached(g, p0, keys)
    ensures keys <= ReachableKeys(g, p0)
  {
    forall k | k in keys ensures k in ReachableKeys(g, p0) {
      assert Reached(g, p0, k);
    }
  }

  /** Every move string reaches a key of ReachableKeys, and there are no more keys than the universe holds. */
  lemma ReplayKeyReachable(g: Grid, p0: seq<Piece>, ms: seq<char>)
    requires g.Valid() && Sane(g, p0) && ValidMoves(ms)
    ensures Key(Replay(g, p0, ms)) in ReachableKeys(g, p0) && Reached(g, p0, Key(Replay(g, p0, ms)))
    ensures |ReachableKeys(g, p0)| <= |KeyUniverse(g, ColorsOf(p0))|
  {
    var r := Replay(g, p0, ms);
    ReplaySane(g, p0, ms);
    ReachedKeyInUniverse(g, p0, ms, r);
    assert ReachedBy(g, p0, ms, Key(r));
    DifferenceSplit({}, ReachableKeys(g, p0), KeyUniverse(g, ColorsOf(p0)));
    assert ReachableKeys(g, p0) - {} == ReachableKeys(g, p0);
    assert KeyUniverse(g, ColorsOf(p0)) - {} == KeyUniverse(g, ColorsOf(p0));
  }

  /** Sorting keeps the board invariant and the members. */
  lemma SortedSane(g: Grid, ps: seq<Piece>)
    requires g.Valid() && Sane(g, ps)
    ensures Sane(g, SortPieces(ps)) && SameMembers(SortPieces(ps), ps)
  {
    var s := SortPieces(ps);
    SortPiecesSpec(ps);
    NoDupPermutation(ps, s);
    forall p ensures p in s <==> p in ps {
      assert p in s <==> p in multiset(s);
      assert p in ps <==> p in multiset(ps);
    }
  }

  /** Configurations with the same key push to configurations with the same key. */
  lemma MoveKeysAgree(g: Grid, a: seq<Piece>, b: seq<Piece>, i: int)
    requires g.Valid() && Sane(g, a) && Sane(g, b) && Key(a) == Key(b) && 0 <= i < 4
    ensures Key(Push(g, a, i)) == Key(Push(g, b, i))
  {
    KeyOfSameMembers(a, b);
    MoveRespectsMembers(g, a, b, DX[i], DY[i]);
    MovePreservesSane(g, a, DX[i], DY[i]);
    MovePreservesSane(g, b, DX[i], DY[i]);
    KeyOfSameMembers(Push(g, a, i), Push(g, b, i));
  }

  /** Configurations with the same key are complete together. */
  lemma CompleteKeysAgree(a: seq<Piece>, b: seq<Piece>)
    requires NoDup(a) && NoDup(b) && Key(a) == Key(b)
    ensures Complete(a) <==> Complete(b)
  {
    KeyOfSameMembers(a, b);
    CompleteByMembers(a, b);
    CompleteByMembers(b, a);
  }

  /**
   * A search state holding the same pieces as the configuration its move
   * string reaches, possibly in another order (computing a key sorts them).
   * Both keep the board invariant, so having the same key is having the same
   * pieces (KeyOfSameMembers).
   */
  ghost predicate Tracks(g: Grid, p0: seq<Piece>, ps: seq<Piece>, moves: seq<char>)
    requires g.Valid() && Sane(g, p0)
  {
    Sane(g, ps) && ValidMoves(moves) && Key(ps) == Key(Replay(g, p0, moves))
  }

  /** The starting pieces track the empty move string. */
  lemma TracksStart(g: Grid, p0: seq<Piece>)
    requires g.Valid() && Sane(g, p0)
    ensures Tracks(g, p0, p0, [])
  {
    assert Replay(g, p0, []) == p0;
  }

  /**
   * A tracking state holds the pieces of its configuration, is complete
   * exactly when it is, and has a reachable key.
   */
  lemma TracksKey(g: Grid, p0: seq<Piece>, ps: seq<Piece>, moves: seq<char>)
    requires g.Valid() && Sane(g, p0) && Tracks(g, p0, ps, moves)
    ensures SameMembers(ps, Replay(g, p0, moves))
    ensures Complete(ps) <==> Complete(Replay(g, p0, moves))
    ensures Key(ps) in KeyUniverse(g, ColorsOf(p0)) && Reached(g, p0, Key(ps))
  {
    ReplaySane(g, p0, moves);
    KeyOfSameMembers(ps, Replay(g, p0, moves));
    CompleteKeysAgree(ps, Replay(g, p0, moves));
    ReplayKeyReachable(g, p0, moves);
  }

  /**
   * Pushing a tracking state, and sorting the result, tracks the move string
   * extended by that push.
   */
  lemma SuccessorTracks(g: Grid, p0: seq<Piece>, ps: seq<Piece>, moves: seq<char>, i: int)
    requires g.Valid() && Sane(g, p0) && Tracks(g, p0, ps, moves) && 0 <= i < 4
    ensures Tracks(g, p0, Push(g, ps, i), moves + [MoveChars[i]])
    ensures Tracks(g, p0, SortPieces(Push(g, ps, i)), moves + [MoveChars[i]])
    ensures Key(SortPieces(Push(g, ps, i))) == Key(Push(g, ps, i))
  {
    var m := Push(g, ps, i);
    var r := Replay(g, p0, moves);
    ReplayAppend(g, p0, moves, i);
    ReplaySane(g, p0, moves);
    MovePreservesSane(g, ps, DX[i], DY[i]);
    MoveKeysAgree(g, ps, r, i);
    SortedSane(g, m);
    KeyOfSameMembers(SortPieces(m), m);
  }

  /** Sorting a tracking state's pieces keeps it tracking, with the same key and completeness. */
  lemma SortedTracks(g: Grid, p0: seq<Piece>, ps: seq<Piece>, moves: seq<char>)
    requires g.Valid() && Sane(g, p0) && Tracks(g, p0, ps, moves)
    ensures Tracks(g, p0, SortPieces(ps), moves) && Key(SortPieces(ps)) == Key(ps)
    ensures Complete(SortPieces(ps)) <==> Complete(ps)
  {
    var s := SortPieces(ps);
    SortedSane(g, ps);
    KeyOfSameMembers(s, ps);
    CompleteKeysAgree(s, ps);
  }

  /** Each visited key stands for a configuration with that key that keeps the board invariant. */
  ghost predicate RepsOk(g: Grid, reps: map<string, seq<Piece>>)
    requires g.Valid()
  {
    forall k {:trigger reps[k]} :: k in reps ==> Sane(g, reps[k]) && Key(reps[k]) == k
  }

  /** A visited key whose configuration is not complete and whose four successors were visited. */
  ghost predicate Expanded(g: Grid, reps: map<string, seq<Piece>>, k: string)
    requires g.Valid() && RepsOk(g, reps) && k in reps
  {
    !Complete(reps[k]) &&
    forall i :: 0 <= i < 4 ==> Key(Push(g, reps[k], i)) in reps
  }

  /** Every visited key is expanded. */
  ghost predicate Closed(g: Grid, reps: map<string, seq<Piece>>)
    requires g.Valid()
  {
    RepsOk(g, reps) && forall k {:trigger Expanded(g, reps, k)} :: k in reps ==> Expanded(g, reps, k)
  }

  /** A configuration whose key is expanded pushes to a visited key. */
  lemma PushVisited(g: Grid, reps: map<string, seq<Piece>>, ps: seq<Piece>, i: int)
    requires g.Valid() && Closed(g, reps) && Sane(g, ps) && Key(ps) in reps && 0 <= i < 4
    ensures Key(Push(g, ps, i)) in reps
  {
    var k := Key(ps);
    assert Expanded(g, reps, k);
    MoveKeysAgree(g, reps[k], ps, i);
  }

  /** When every visited key is expanded, every reachable configuration was visited. */
  lemma {:induction false} ReachedIsVisited(g: Grid, p0: seq<Piece>, reps: map<string, seq<Piece>>, ms: seq<char>)
    requires g.Valid() && Sane(g, p0) && Closed(g, reps) && Key(p0) in reps
    requires ValidMoves(ms)
    ensures Key(Replay(g, p0, ms)) in reps
    decreases |ms|
  {
    if ms != [] {
      var init := ms[..|ms| - 1];
      ReachedIsVisited(g, p0, reps, init);
      ReplaySane(g, p0, init);
      PushVisited(g, reps, Replay(g, p0, init), MoveIndex(ms[|ms| - 1]));
    }
  }

  /**
   * A search that ends with every visited key expanded has shown that no
   * move string leads to a complete configuration.
   */
  lemma NoSolutionWhenClosed(g: Grid, p0: seq<Piece>, reps: map<string, seq<Piece>>, ms: seq<char>)
    requires g.Valid() && Sane(g, p0) && Closed(g, reps) && Key(p0) in reps
    requires ValidMoves(ms)
    ensures !Complete(Replay(g, p0, ms))
  {
    ReachedIsVisited(g, p0, reps, ms);
    var k := Key(Replay(g, p0, ms));
    assert Expanded(g, reps, k);
    ReplaySane(g, p0, ms);
    CompleteKeysAgree(Replay(g, p0, ms), reps[k]);
  }

  /**
   * A search that ends with every visited key expanded, having visited only
   * reachable keys, has visited exactly the reachable keys.
   */
  lemma ClosedIsReachable(g: Grid, p0: seq<Piece>, reps: map<string, seq<Piece>>)
    requires g.Valid() && Sane(g, p0) && Closed(g, reps) && Key(p0) in reps
    requires reps.Keys <= KeyUniverse(g, ColorsOf(p0)) && AllReached(g, p0, reps.Keys)
    ensures reps.Keys == ReachableKeys(g, p0)
  {
    ReachedSubset(g, p0, reps.Keys);
    forall k | k in ReachableKeys(g, p0) ensures k in reps {
      var ms :| ReachedBy(g, p0, ms, k);
      ReachedIsVisited(g, p0, reps, ms);
    }
  }
}
