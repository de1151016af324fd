/**
 * The bookkeeping of the iterative searches, on values: the set of visited
 * keys, the keys of the nodes still waiting, the keys already expanded, and
 * (as proof state only) one configuration standing for each visited key.
 * Each lemma here is one step of a search loop, so that the loops themselves
 * only plug in their variables.
 */
module Exploration {
  import opened Pieces
  import opened Rules
  import opened Pushes
  import opened Completion
  import opened Keys
  import opened Universe
  import opened Search

  /** One map extends another: every key keeps its value. */
  ghost predicate Extends(small: map<string, seq<Piece>>, big: map<string, seq<Piece>>)
  {
    forall k :: k in small ==> k in big && big[k] == small[k]
  }

  /**
   * From (visited, reps, keys) to (visited', reps', keys') the searches only
   * added keys, each both visited and waiting, every key visited now was
   * visited before or is waiting, and the keys appended to the waiting ones
   * were not visited before.
   */
  ghost predicate Recorded(visited: set<string>, reps: map<string, seq<Piece>>, keys: seq<string>,
                           visited': set<string>, reps': map<string, seq<Piece>>, keys': seq<string>)
  {
    visited' == reps'.Keys && visited <= visited' && Extends(reps, reps') && keys <= keys' &&
    |visited'| - |visited| == |keys'| - |keys| &&
    (forall k :: k in visited' ==> k in visited || k in keys') &&
    (forall j :: |keys| <= j < |keys'| ==> keys'[j] !in visited)
  }

  /** The pushes of ps in the directions lo..hi-1 of the tables have visited keys. */
  ghost predicate PushesIn(g: Grid, ps: seq<Piece>, visited: set<string>, lo: int, hi: int)
    requires g.Valid() && AllInBounds(g, ps)
  {
    forall d :: 0 <= d < 4 && lo <= d < hi ==> Key(Push(g, ps, d)) in visited
  }

  /**
   * The invariant of the inner loop that pushes the current configuration ps
   * in the directions i..3: the new keys are recorded, are reachable, and
   * stand for configurations keeping the board invariant, and every push
   * already made has a visited key.
   */
  ghost predicate Gathered(g: Grid, p0: seq<Piece>, ps: seq<Piece>,
                           visited: set<string>, reps: map<string, seq<Piece>>, keys: seq<string>,
                           visited': set<string>, reps': map<string, seq<Piece>>, keys': seq<string>, i: int)
    requires g.Valid() && AllInBounds(g, p0) && AllInBounds(g, ps)
  {
    Recorded(visited, reps, keys, visited', reps', keys') &&
    visited' <= KeyUniverse(g, ColorsOf(p0)) && AllReached(g, p0, visited') && RepsOk(g, reps') && PushesIn(g, ps, visited', i, 4)
  }

  /** Each visited key is waiting or expanded. */
  ghost predicate Waiting(visited: set<string>, keys: seq<string>, closed: set<string>)
  {
    forall k :: k in visited ==> k in closed || k in keys
  }

  /** Each expanded key is visited, its configuration incomplete and its four successors visited. */
  ghost predicate AllExpanded(g: Grid, reps: map<string, seq<Piece>>, closed: set<string>)
    requires g.Valid() && RepsOk(g, reps)
  {
    forall k :: k in closed ==> k in reps && Expanded(g, reps, k)
  }

  /**
   * The loop invariant of an iterative search: the visited keys are keys of
   * reachable configurations, the starting key
   * is among them, each is waiting or expanded, and each expanded key's
   * configuration is incomplete with all four successors visited.
   */
  ghost predicate Explored(g: Grid, p0: seq<Piece>, visited: set<string>, keys: seq<string>,
                           closed: set<string>, reps: map<string, seq<Piece>>)
    requires g.Valid() && AllInBounds(g, p0)
  {
    visited == reps.Keys && visited <= KeyUniverse(g, ColorsOf(p0)) && AllReached(g, p0, visited) && RepsOk(g, reps) && Key(p0) in visited &&
    Waiting(visited, keys, closed) && AllExpanded(g, reps, closed)
  }

  /** The search starts with the starting key visited and waiting. */
  lemma ExploredStart(g: Grid, p0: seq<Piece>)
    requires g.Valid() && Sane(g, p0)
    ensures Explored(g, p0, {Key(p0)}, [Key(p0)], {}, map[Key(p0) := p0])
  {
    ReplayKeyReachable(g, p0, []);
    assert Replay(g, p0, []) == p0;
    RepsOkUpdate(g, map[], Key(p0), p0);
    assert map[][Key(p0) := p0] == map[Key(p0) := p0];
    assert Waiting({Key(p0)}, [Key(p0)], {});
  }

  /** Before the first push nothing has been added. */
  lemma GatherStart(g: Grid, p0: seq<Piece>, ps: seq<Piece>,
                    visited: set<string>, reps: map<string, seq<Piece>>, keys: seq<string>)
    requires g.Valid() && AllInBounds(g, p0) && AllInBounds(g, ps)
    requires visited == reps.Keys && visited <= KeyUniverse(g, ColorsOf(p0)) && AllReached(g, p0, visited)
    requires RepsOk(g, reps)
    ensures Gathered(g, p0, ps, visited, reps, keys, visited, reps, keys, 4)
  {
    assert Recorded(visited, reps, keys, visited, reps, keys);
  }

  /** A push whose key was already visited adds nothing. */
  lemma GatherSeen(g: Grid, p0: seq<Piece>, ps: seq<Piece>,
                   visited: set<string>, reps: map<string, seq<Piece>>, keys: seq<string>,
                   visited': set<string>, reps': map<string, seq<Piece>>, keys': seq<string>, i: int, h: string)
    requires g.Valid() && AllInBounds(g, p0) && AllInBounds(g, ps) && 0 <= i < 4
    requires Gathered(g, p0, ps, visited, reps, keys, visited', reps', keys', i + 1)
    requires h == Key(Push(g, ps, i)) && h in visited'
    ensures Gathered(g, p0, ps, visited, reps, keys, visited', reps', keys', i)
  {
    assert PushesIn(g, ps, visited', i, 4);
  }

  /** Recording a new key keeps the record. */
  lemma RecordNew(visited: set<string>, reps: map<string, seq<Piece>>, keys: seq<string>,
                  visited': set<string>, reps': map<string, seq<Piece>>, keys': seq<string>,
                  h: string, m: seq<Piece>)
    requires Recorded(visited, reps, keys, visited', reps', keys') && h !in visited'
    ensures Recorded(visited, reps, keys, visited' + {h}, reps'[h := m], keys' + [h])
    ensures |visited' + {h}| == |visited'| + 1
  {
    assert keys <= keys' + [h];
    forall k | k in visited' + {h} ensures k in visited || k in keys' + [h] {
      if k in visited' && k !in visited {
        var j :| 0 <= j < |keys'| && keys'[j] == k;
        assert (keys' + [h])[j] == k;
      }
    }
    forall j | |keys| <= j < |keys' + [h]| ensures (keys' + [h])[j] !in visited {
      if j < |keys'| {
        assert (keys' + [h])[j] == keys'[j];
      }
    }
  }

  /** A configuration that keeps the board invariant may stand for its own key. */
  lemma RepsOkUpdate(g: Grid, reps: map<string, seq<Piece>>, h: string, m: seq<Piece>)
    requires g.Valid() && RepsOk(g, reps) && Sane(g, m) && Key(m) == h
    ensures RepsOk(g, reps[h := m])
  {
    var r := reps[h := m];
    forall k | k in r ensures Sane(g, r[k]) && Key(r[k]) == k {
      if k != h {
        assert r[k] == reps[k];
      }
    }
  }

  /** The push of a tracking configuration may stand for its key. */
  lemma RepsOkNew(g: Grid, p0: seq<Piece>, ps: seq<Piece>, moves: seq<char>,
                  reps: map<string, seq<Piece>>, i: int, h: string)
    requires g.Valid() && Sane(g, p0) && Tracks(g, p0, ps, moves) && 0 <= i < 4
    requires RepsOk(g, reps) && h == Key(Push(g, ps, i))
    ensures RepsOk(g, reps[h := Push(g, ps, i)])
  {
    SuccessorTracks(g, p0, ps, moves, i);
    RepsOkUpdate(g, reps, h, Push(g, ps, i));
  }

  /** The key of a push of a tracking configuration is reachable. */
  lemma PushInUniverse(g: Grid, p0: seq<Piece>, ps: seq<Piece>, moves: seq<char>, i: int)
    requires g.Valid() && Sane(g, p0) && Tracks(g, p0, ps, moves) && 0 <= i < 4
    ensures Key(Push(g, ps, i)) in KeyUniverse(g, ColorsOf(p0)) && Reached(g, p0, Key(Push(g, ps, i)))
  {
    SuccessorTracks(g, p0, ps, moves, i);
    TracksKey(g, p0, Push(g, ps, i), moves + [MoveChars[i]]);
  }

  /** Visiting the key of the push in direction i extends the pushes visited down to i. */
  lemma PushesVisitedNew(g: Grid, ps: seq<Piece>, visited: set<string>, i: int, h: string)
    requires g.Valid() && AllInBounds(g, ps) && 0 <= i < 4
    requires PushesIn(g, ps, visited, i + 1, 4) && h == Key(Push(g, ps, i))
    ensures PushesIn(g, ps, visited + {h}, i, 4)
  {
  }

  /** Once the push in direction i has a visited key, the pushes visited reach up to i. */
  lemma PushesVisitedUp(g: Grid, ps: seq<Piece>, visited: set<string>, visited': set<string>, i: int)
    requires g.Valid() && AllInBounds(g, ps) && 0 <= i < 4
    requires PushesIn(g, ps, visited, 0, i) && visited <= visited' && Key(Push(g, ps, i)) in visited'
    ensures PushesIn(g, ps, visited', 0, i + 1)
  {
  }

  /**
   * A push of a tracking configuration whose key is new is recorded: the key
   * is visited and waiting, and the pushed configuration stands for it.
   */
  lemma GatherNew(g: Grid, p0: seq<Piece>, ps: seq<Piece>, moves: seq<char>,
                  visited: set<string>, reps: map<string, seq<Piece>>, keys: seq<string>,
                  visited': set<string>, reps': map<string, seq<Piece>>, keys': seq<string>, i: int, h: string)
    requires g.Valid() && Sane(g, p0) && Tracks(g, p0, ps, moves) && 0 <= i < 4
    requires Gathered(g, p0, ps, visited, reps, keys, visited', reps', keys', i + 1)
    requires h == Key(Push(g, ps, i)) && h !in visited'
    ensures Gathered(g, p0, ps, visited, reps, keys, visited' + {h}, reps'[h := Push(g, ps, i)], keys' + [h], i)
    ensures |visited' + {h}| == |visited'| + 1
  {
    RecordNew(visited, reps, keys, visited', reps', keys', h, Push(g, ps, i));
    RepsOkNew(g, p0, ps, moves, reps', i, h);
    PushInUniverse(g, p0, ps, moves, i);
    PushesVisitedNew(g, ps, visited', i, h);
  }

  /** The key k0 whose four pushes are visited, and whose configuration is incomplete, is expanded. */
  lemma ExpandedNow(g: Grid, reps: map<string, seq<Piece>>, k0: string, ps: seq<Piece>)
    requires g.Valid() && RepsOk(g, reps) && k0 in reps
    requires Sane(g, ps) && Key(ps) == k0 && !Complete(ps)
    requires PushesIn(g, ps, reps.Keys, 0, 4)
    ensures Expanded(g, reps, k0)
  {
    var r := reps[k0];
    forall d | 0 <= d < 4 ensures Key(Push(g, r, d)) in reps {
      MoveKeysAgree(g, r, ps, d);
    }
    CompleteKeysAgree(r, ps);
  }

  /** Keys expanded before stay expanded when the map grows. */
  lemma ExpandedGrows(g: Grid, reps: map<string, seq<Piece>>, reps': map<string, seq<Piece>>, closed: set<string>)
    requires g.Valid() && RepsOk(g, reps) && RepsOk(g, reps') && Extends(reps, reps')
    requires AllExpanded(g, reps, closed)
    ensures AllExpanded(g, reps', closed)
  {
    forall k | k in closed ensures k in reps' && Expanded(g, reps', k) {
      assert Expanded(g, reps, k);
    }
  }

  /** Closing one more expanded key keeps every closed key expanded. */
  lemma ExpandedAdd(g: Grid, reps: map<string, seq<Piece>>, closed: set<string>, k0: string)
    requires g.Valid() && RepsOk(g, reps) && AllExpanded(g, reps, closed)
    requires k0 in reps && Expanded(g, reps, k0)
    ensures AllExpanded(g, reps, closed + {k0})
  {
    forall k | k in closed + {k0} ensures k in reps && Expanded(g, reps, k) {
      if k != k0 {
        assert k in closed;
      }
    }
  }

  /** Taking k0 from either end of the waiting list and closing it keeps every visited key accounted for. */
  lemma WaitingAfterExpand(visited: set<string>, keys: seq<string>, closed: set<string>, k0: string,
                           rest: seq<string>, visited': set<string>, reps: map<string, seq<Piece>>,
                           reps': map<string, seq<Piece>>, keys': seq<string>)
    requires Waiting(visited, keys, closed) && (keys == [k0] + rest || keys == rest + [k0])
    requires Recorded(visited, reps, rest, visited', reps', keys')
    ensures Waiting(visited', keys', closed + {k0})
  {
    forall k | k in visited' ensures k in closed + {k0} || k in keys' {
      if k in visited && k !in closed && k != k0 {
        assert k in keys;
        var j :| 0 <= j < |keys| && keys[j] == k;
        var j' := if keys == [k0] + rest then j - 1 else j;
        assert rest[j'] == k;
        assert keys'[j'] == k;
      }
    }
  }

  /**
   * Expanding the waiting key k0 (taken from either end of the waiting list)
   * whose four pushes are now visited closes it.
   */
  lemma Expand(g: Grid, p0: seq<Piece>, visited: set<string>, keys: seq<string>, closed: set<string>,
               reps: map<string, seq<Piece>>, k0: string, rest: seq<string>, ps: seq<Piece>,
               visited': set<string>, reps': map<string, seq<Piece>>, keys': seq<string>)
    requires g.Valid() && AllInBounds(g, p0) && Explored(g, p0, visited, keys, closed, reps)
    requires keys == [k0] + rest || keys == rest + [k0]
    requires k0 in visited && Sane(g, ps) && Key(ps) == k0 && !Complete(ps)
    requires Gathered(g, p0, ps, visited, reps, rest, visited', reps', keys', 0)
    ensures Explored(g, p0, visited', keys', closed + {k0}, reps')
  {
    ExpandedNow(g, reps', k0, ps);
    ExpandedGrows(g, reps, reps', closed);
    ExpandedAdd(g, reps', closed, k0);
    WaitingAfterExpand(visited, keys, closed, k0, rest, visited', reps, reps', keys');
  }

  /**
   * In the recursive search, the keys a finished child added are expanded,
   * and so are those its earlier siblings added.
   */
  lemma ExpandedChild(g: Grid, base: set<string>, reps1: map<string, seq<Piece>>, reps2: map<string, seq<Piece>>)
    requires g.Valid() && RepsOk(g, reps1) && RepsOk(g, reps2) && Extends(reps1, reps2)
    requires base <= reps1.Keys
    requires AllExpanded(g, reps1, reps1.Keys - base) && AllExpanded(g, reps2, reps2.Keys - reps1.Keys)
    ensures AllExpanded(g, reps2, reps2.Keys - base)
  {
    ExpandedGrows(g, reps1, reps2, reps1.Keys - base);
    forall k | k in reps2.Keys - base ensures k in reps2 && Expanded(g, reps2, k) {
      if k in reps1.Keys {
        assert k in reps1.Keys - base;
      } else {
        assert k in reps2.Keys - reps1.Keys;
      }
    }
  }

  /** In the recursive search, the expanded key h closes the call that added it. */
  lemma ExpandedCall(g: Grid, visited: set<string>, reps: map<string, seq<Piece>>, h: string)
    requires g.Valid() && RepsOk(g, reps) && h in reps && Expanded(g, reps, h)
    requires AllExpanded(g, reps, reps.Keys - (visited + {h}))
    ensures AllExpanded(g, reps, reps.Keys - visited)
  {
    forall k | k in reps.Keys - visited ensures k in reps && Expanded(g, reps, k) {
      if k != h {
        assert k in reps.Keys - (visited + {h});
      }
    }
  }

  /**
   * In the recursive search, the sorted pieces of a tracking state track
   * the same moves, have its key and completeness, and may stand for that
   * key once it is visited.
   */
  lemma VisitSorted(g: Grid, p0: seq<Piece>, ps: seq<Piece>, moves: seq<char>,
                    reps: map<string, seq<Piece>>, h: string)
    requires g.Valid() && Sane(g, p0) && Tracks(g, p0, ps, moves) && RepsOk(g, reps) && h == Key(ps)
    ensures Tracks(g, p0, SortPieces(ps), moves) && Key(SortPieces(ps)) == h
    ensures Complete(SortPieces(ps)) <==> Complete(ps)
    ensures RepsOk(g, reps[h := SortPieces(ps)])
  {
    SortedTracks(g, p0, ps, moves);
    RepsOkUpdate(g, reps, h, SortPieces(ps));
  }

  /** A map extending one with a new key added extends the one without it. */
  lemma ExtendsAdded(reps: map<string, seq<Piece>>, h: string, m: seq<Piece>, reps': map<string, seq<Piece>>)
    requires h !in reps && Extends(reps[h := m], reps')
    ensures Extends(reps, reps')
  {
    forall k | k in reps ensures k in reps' && reps'[k] == reps[k] {
      assert k in reps[h := m] && reps[h := m][k] == reps[k];
    }
  }

  /** A recursive search from no visited keys that ends unsuccessfully has expanded every key it visited. */
  lemma ExpandedAll(g: Grid, reps: map<string, seq<Piece>>)
    requires g.Valid() && RepsOk(g, reps) && AllExpanded(g, reps, reps.Keys - {})
    ensures Closed(g, reps)
  {
    forall k | k in reps ensures Expanded(g, reps, k) {
      assert k in reps.Keys - {};
    }
  }

  /** A search whose waiting list is empty has closed every visited key. */
  lemma ExploredClosed(g: Grid, p0: seq<Piece>, visited: set<string>, closed: set<string>,
                       reps: map<string, seq<Piece>>)
    requires g.Valid() && AllInBounds(g, p0) && Explored(g, p0, visited, [], closed, reps)
    ensures Closed(g, reps) && Key(p0) in reps
  {
    forall k | k in reps ensures Expanded(g, reps, k) {
      assert k in closed;
    }
  }

  /** What the visited set gained it took from the rest of the universe. */
  lemma RestShrinks(u: set<string>, visited: set<string>, visited': set<string>, n: int, n': int)
    requires visited <= visited' <= u && |visited'| - |visited| == n' - n
    ensures |u - visited| == |u - visited'| + (n' - n) && n <= n'
  {
    DifferenceSplit(visited, visited', u);
    assert visited' == visited + (visited' - visited);
    assert visited * (visited' - visited) == {};
  }

  /**
   * When the frontier runs dry, no move string completes the puzzle, and the
   * keys met are exactly the keys of the reachable configurations.
   */
  lemma ExhaustedNoSolution(g: Grid, p0: seq<Piece>, visited: set<string>, closed: set<string>,
                            reps: map<string, seq<Piece>>)
    requires g.Valid() && Sane(g, p0) && Explored(g, p0, visited, [], closed, reps)
    ensures forall ms :: ValidMoves(ms) ==> !Complete(Replay(g, p0, ms))
    ensures visited == ReachableKeys(g, p0) && 1 <= |visited|
  {
    ExploredClosed(g, p0, visited, closed, reps);
    forall ms | ValidMoves(ms) ensures !Complete(Replay(g, p0, ms)) {
      NoSolutionWhenClosed(g, p0, reps, ms);
    }
    ClosedIsReachable(g, p0, reps);
  }

  /** A subset is no larger. */
  lemma SubsetSize(a: set<string>, b: set<string>)
    requires a <= b
    ensures |a| <= |b|
  {
    DifferenceSplit({}, a, b);
    assert a - {} == a && b - {} == b;
  }
}
