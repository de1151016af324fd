/**
 * The three solvers: breadth-first with a queue, depth-first with a stack,
 * and recursive depth-first.  Each explores states by copying a GameState,
 * pushing it in one of the four directions, and remembering the key of every
 * state it has met.  Wall-clock readings are parameters.
 */
module Solver {
  import opened Pieces
  import opened Merging
  import opened Rules
  import opened Pushes
  import opened Completion
  import opened Keys
  import opened Universe
  import opened Search
  import opened States
  import opened Exploration
  import opened Layers

  /** The counters a search keeps. */
  class SearchStats {
    var visitedNodes: int
    var solutionNodes: int

    constructor ()
      ensures visitedNodes == 0 && solutionNodes == 0
    {
      visitedNodes := 0;
      solutionNodes := 0;
    }

    method Reset()
      modifies this
      ensures visitedNodes == 0 && solutionNodes == 0
    {
      visitedNodes := 0;
      solutionNodes := 0;
    }
  }

  /** A state to explore and the moves that led to it. */
  datatype GameNode = GameNode(state: GameState, moves: seq<char>)

  /** The outcome of a search: the moves found (if any), the states counted, the elapsed milliseconds. */
  datatype SearchResult = SearchResult(solution: Option<seq<char>>, visitedNodes: int, executionTimeMillis: int)

  /** The quotient of a natural number by a positive divisor brackets it. */
  lemma QuotientBounds(n: int, b: int)
    requires n >= 0 && b > 0
    ensures n / b >= 0 && (n / b) * b <= n < (n / b) * b + b
  {
    var q, r := n / b, n % b;
    assert n == q * b + r && 0 <= r < b;
  }

  /** Java's integer division of a long by a positive divisor: the quotient is truncated toward zero. */
  function JavaDiv(a: int, b: int): (q: int)
    requires b > 0
    ensures a >= 0 ==> q >= 0 && q * b <= a < q * b + b
    ensures a < 0 ==> q <= 0 && q * b - b < a <= q * b
  {
    if a >= 0 then
      QuotientBounds(a, b);
      a / b
    else
      QuotientBounds(-a, b);
      var m := (-a) / b;
      assert (-m) * b == -(m * b);
      -m
  }

  /**
   * Elapsed milliseconds between two nanosecond readings: the whole
   * milliseconds in the interval, rounded toward zero.
   */
  function ElapsedMillis(startNanos: int, endNanos: int): (ms: int)
    ensures startNanos <= endNanos ==>
      0 <= ms && ms * 1_000_000 <= endNanos - startNanos < (ms + 1) * 1_000_000
    ensures endNanos < startNanos ==>
      ms <= 0 && (ms - 1) * 1_000_000 < endNanos - startNanos <= ms * 1_000_000
  {
    JavaDiv(endNanos - startNanos, 1_000_000)
  }

  /**
   * getStateHash: sorts the state's own piece list by (colour, x, y) and
   * writes each piece as "color,x,y;".
   */
  method GetStateHash(state: GameState) returns (hash: string)
    modifies state
    ensures state.pieces == SortPieces(old(state.pieces))
    ensures state.initialState == old(state.initialState)
    ensures hash == Key(old(state.pieces))
  {
    var pieces := SortPieces(state.pieces);
    state.pieces := pieces;
    hash := [];
    for k := 0 to |pieces|
      invariant state.pieces == pieces && state.initialState == old(state.initialState)
      invariant hash == Encode(pieces[..k])
    {
      EncodePrefix(pieces, k);
      // one piece's appends: colour, ',', x, ',', y, ';'
      hash := hash + PieceStr(pieces[k]);
    }
    assert pieces[..|pieces|] == pieces;
  }

  /** A copy of the state, pushed in direction i; the state itself is left as it was. */
  method PushedCopy(current: GameState, i: int, ghost g: Grid, ghost ps: seq<Piece>) returns (next: GameState)
    requires current.Valid() && current.Grid() == g && current.pieces == ps
    requires g.Valid() && AllInBounds(g, ps) && 0 <= i < 4
    ensures fresh(next) && fresh(next.barriers) && next.Valid() && next.initialState == null
    ensures next.Grid() == g
    ensures next.pieces == Push(g, ps, i)
  {
    next := current.Copy();
    DirectionIsUnit(i);
    next.MovePieces(DX[i], DY[i]);
  }

  /** One successor of an iterative search: copy the state, push it, and take the copy's key. */
  method Successor(current: GameState, i: int, ghost g: Grid, ghost ps: seq<Piece>) returns (next: GameState, hash: string)
    requires current.Valid() && current.Grid() == g && current.pieces == ps
    requires g.Valid() && AllInBounds(g, ps) && 0 <= i < 4
    ensures fresh(next) && fresh(next.barriers) && next.Valid() && next.initialState == null
    ensures next.Grid() == g
    ensures next.pieces == SortPieces(Push(g, ps, i))
    ensures hash == Key(Push(g, ps, i))
  {
    next := PushedCopy(current, i, g, ps);
    hash := GetStateHash(next);
  }

  /** The objects of the states of some nodes. */
  ghost function StatesOf(nodes: seq<GameNode>): set<object>
  {
    (set n | n in nodes :: n.state as object) + (set n | n in nodes :: n.state.barriers as object)
  }

  /** The lengths of the move strings of some nodes. */
  ghost function Depths(nodes: seq<GameNode>): (r: seq<int>)
    ensures |r| == |nodes| && forall j :: 0 <= j < |nodes| ==> r[j] == |nodes[j].moves|
  {
    seq(|nodes|, j requires 0 <= j < |nodes| => |nodes[j].moves|)
  }

  /** Appending a node adds its state and its barrier array. */
  lemma StatesOfAppend(nodes: seq<GameNode>, n: GameNode, stats: SearchStats)
    requires stats !in StatesOf(nodes)
    ensures StatesOf(nodes + [n]) == StatesOf(nodes) + {n.state, n.state.barriers}
    ensures stats !in StatesOf(nodes + [n])
  {
  }

  /** The states of the waiting nodes: each valid, on the board g, holding the pieces confs lists for it. */
  ghost predicate Stored(nodes: seq<GameNode>, confs: seq<seq<Piece>>, g: Grid)
    reads StatesOf(nodes)
  {
    |confs| == |nodes| &&
    forall j :: 0 <= j < |nodes| ==>
      nodes[j].state.Valid() && nodes[j].state.Grid() == g && nodes[j].state.pieces == confs[j]
  }

  /** A waiting entry: pieces c holding what moves reach from p0, and their key k, visited. */
  ghost predicate Waits(g: Grid, p0: seq<Piece>, c: seq<Piece>, moves: seq<char>, k: string, visited: set<string>)
    requires g.Valid() && Sane(g, p0)
  {
    Tracks(g, p0, c, moves) && k == Key(c) && k in visited
  }

  /** What the waiting nodes stand for, entry by entry. */
  ghost predicate Pending(nodes: seq<GameNode>, confs: seq<seq<Piece>>, keys: seq<string>, visited: set<string>,
                          g: Grid, p0: seq<Piece>)
    requires g.Valid() && Sane(g, p0)
  {
    |confs| == |nodes| && |keys| == |nodes| &&
    forall j :: 0 <= j < |nodes| ==> Waits(g, p0, confs[j], nodes[j].moves, keys[j], visited)
  }

  /** The state of the first waiting node, and those behind it. */
  lemma StoredFirst(nodes: seq<GameNode>, confs: seq<seq<Piece>>, g: Grid)
    requires Stored(nodes, confs, g) && nodes != []
    ensures nodes[0].state.Valid() && nodes[0].state.Grid() == g && nodes[0].state.pieces == confs[0]
    ensures Stored(nodes[1..], confs[1..], g)
  {

  }

  /** The state of the last waiting node, and those before it. */
  lemma StoredLast(nodes: seq<GameNode>, confs: seq<seq<Piece>>, g: Grid)
    requires Stored(nodes, confs, g) && nodes != []
    ensures nodes[|nodes| - 1].state.Valid() && nodes[|nodes| - 1].state.Grid() == g
    ensures nodes[|nodes| - 1].state.pieces == confs[|confs| - 1]
    ensures Stored(nodes[..|nodes| - 1], confs[..|confs| - 1], g)
  {

  }

  /** A node appended to the waiting nodes, with the pieces its state holds. */
  lemma StoredAppend(nodes: seq<GameNode>, confs: seq<seq<Piece>>, g: Grid, n: GameNode, c: seq<Piece>)
    requires Stored(nodes, confs, g)
    requires n.state.Valid() && n.state.Grid() == g && n.state.pieces == c
    ensures Stored(nodes + [n], confs + [c], g)
  {

  }

  /** What the first waiting node stands for, and those behind it. */
  lemma PendingFirst(nodes: seq<GameNode>, confs: seq<seq<Piece>>, keys: seq<string>, visited: set<string>,
                     g: Grid, p0: seq<Piece>)
    requires g.Valid() && Sane(g, p0) && Pending(nodes, confs, keys, visited, g, p0) && nodes != []
    ensures Waits(g, p0, confs[0], nodes[0].moves, keys[0], visited)
    ensures keys == [keys[0]] + keys[1..] && Pending(nodes[1..], confs[1..], keys[1..], visited, g, p0)
  {
    FirstSplit(keys);
  }

  /** A non-empty list is its first element followed by the rest: the front of a queue. */
  lemma FirstSplit<T>(s: seq<T>)
    requires s != []
    ensures s == [s[0]] + s[1..]
  {
  }

  /** The last element of a non-empty sequence: the top of a stack. */
  function Last<T>(s: seq<T>): (r: T)
    requires s != []
    ensures r in s
  {
    s[|s| - 1]
  }

  /** A non-empty list is its front followed by its last element. */
  lemma LastSplit<T>(s: seq<T>)
    requires s != []
    ensures s == s[..|s| - 1] + [s[|s| - 1]]
  {
  }

  /** What the last waiting node stands for, and those before it. */
  lemma PendingLast(nodes: seq<GameNode>, confs: seq<seq<Piece>>, keys: seq<string>, visited: set<string>,
                    g: Grid, p0: seq<Piece>)
    requires g.Valid() && Sane(g, p0) && Pending(nodes, confs, keys, visited, g, p0) && nodes != []
    ensures Waits(g, p0, confs[|confs| - 1], nodes[|nodes| - 1].moves, keys[|keys| - 1], visited)
    ensures Pending(nodes[..|nodes| - 1], confs[..|confs| - 1], keys[..|keys| - 1], visited, g, p0)
  {

  }

  /** A tracking node appended to the waiting nodes, its key now visited. */
  lemma PendingAppend(nodes: seq<GameNode>, confs: seq<seq<Piece>>, keys: seq<string>, visited: set<string>,
                      g: Grid, p0: seq<Piece>, n: GameNode, c: seq<Piece>, h: string)
    requires g.Valid() && Sane(g, p0) && Pending(nodes, confs, keys, visited, g, p0)
    requires Tracks(g, p0, c, n.moves) && h == Key(c)
    ensures Pending(nodes + [n], confs + [c], keys + [h], visited + {h}, g, p0)
  {

  }

  /** The starting node stands for the starting pieces and no moves. */
  lemma PendingStart(n: GameNode, g: Grid, p0: seq<Piece>)
    requires g.Valid() && Sane(g, p0) && n.moves == []
    ensures Pending([n], [p0], [Key(p0)], {Key(p0)}, g, p0)
  {
    TracksStart(g, p0);
    assert Waits(g, p0, [p0][0], [n][0].moves, [Key(p0)][0], {Key(p0)});
  }

  /**
   * The state of an iterative search between rounds: the waiting nodes with
   * their pieces and keys, the visited and expanded keys, and the count of
   * visited keys.
   */
  ghost predicate Searching(nodes: seq<GameNode>, confs: seq<seq<Piece>>, keys: seq<string>, visited: set<string>,
                            closed: set<string>, reps: map<string, seq<Piece>>, count: int, g: Grid, p0: seq<Piece>)
    requires g.Valid() && Sane(g, p0)
    reads StatesOf(nodes)
  {
    Stored(nodes, confs, g) && Pending(nodes, confs, keys, visited, g, p0) &&
    Explored(g, p0, visited, keys, closed, reps) && count == |visited|
  }

  /**
   * Keeps a successor whose key is new: records the key, counts the node and
   * offers it to the frontier.
   */
  method Offer(current: GameNode, i: int, next: GameState, hash: string, frontier: seq<GameNode>,
               visited: set<string>, stats: SearchStats,
               ghost g: Grid, ghost p0: seq<Piece>, ghost ps: seq<Piece>, ghost confs: seq<seq<Piece>>,
               ghost keys: seq<string>, ghost reps: map<string, seq<Piece>>,
               ghost visited0: set<string>, ghost keys0: seq<string>, ghost reps0: map<string, seq<Piece>>)
    returns (frontier': seq<GameNode>, visited': set<string>, ghost confs': seq<seq<Piece>>,
             ghost keys': seq<string>, ghost reps': map<string, seq<Piece>>)
    requires g.Valid() && Sane(g, p0) && 0 <= i < 4
    requires Tracks(g, p0, ps, current.moves)
    requires next.Valid() && next.Grid() == g && next.pieces == SortPieces(Push(g, ps, i))
    requires hash == Key(Push(g, ps, i)) && hash !in visited
    requires Gathered(g, p0, ps, visited0, reps0, keys0, visited, reps, keys, i + 1)
    requires Stored(frontier, confs, g) && Pending(frontier, confs, keys, visited, g, p0)
    requires stats !in StatesOf(frontier)
    modifies stats
    ensures Gathered(g, p0, ps, visited0, reps0, keys0, visited', reps', keys', i)
    ensures Stored(frontier', confs', g) && Pending(frontier', confs', keys', visited', g, p0)
    ensures stats !in StatesOf(frontier')
    ensures stats.visitedNodes == old(stats.visitedNodes) + 1 && |visited'| == |visited| + 1
    ensures frontier' == frontier + [GameNode(next, current.moves + [MoveChars[i]])]
  {
    stats.visitedNodes := stats.visitedNodes + 1;
    var node := GameNode(next, current.moves + [MoveChars[i]]);
    ghost var c := SortPieces(Push(g, ps, i));
    SuccessorTracks(g, p0, ps, current.moves, i);
    GatherNew(g, p0, ps, current.moves, visited0, reps0, keys0, visited, reps, keys, i, hash);
    StoredAppend(frontier, confs, g, node, c);
    StatesOfAppend(frontier, node, stats);
    PendingAppend(frontier, confs, keys, visited, g, p0, node, c, hash);
    frontier', visited', confs' := frontier + [node], visited + {hash}, confs + [c];
    keys', reps' := keys + [hash], reps[hash := Push(g, ps, i)];
  }

  /**
   * One pass of the successor loop: copy the current state, push it in
   * direction i and keep the successor if its key is new.
   */
  method TryPush(current: GameNode, i: int, frontier: seq<GameNode>, visited: set<string>, stats: SearchStats,
                 ghost g: Grid, ghost p0: seq<Piece>, ghost ps: seq<Piece>, ghost confs: seq<seq<Piece>>,
                 ghost keys: seq<string>, ghost reps: map<string, seq<Piece>>,
                 ghost visited0: set<string>, ghost keys0: seq<string>, ghost reps0: map<string, seq<Piece>>)
    returns (frontier': seq<GameNode>, visited': set<string>, ghost confs': seq<seq<Piece>>,
             ghost keys': seq<string>, ghost reps': map<string, seq<Piece>>)
    requires g.Valid() && Sane(g, p0) && 0 <= i < 4
    requires current.state.Valid() && current.state.Grid() == g && current.state.pieces == ps
    requires Tracks(g, p0, ps, current.moves)
    requires Gathered(g, p0, ps, visited0, reps0, keys0, visited, reps, keys, i + 1)
    requires Stored(frontier, confs, g) && Pending(frontier, confs, keys, visited, g, p0)
    requires stats !in StatesOf(frontier)
    modifies stats
    ensures Gathered(g, p0, ps, visited0, reps0, keys0, visited', reps', keys', i)
    ensures Stored(frontier', confs', g) && Pending(frontier', confs', keys', visited', g, p0)
    ensures stats !in StatesOf(frontier')
    ensures stats.visitedNodes - old(stats.visitedNodes) == |visited'| - |visited|
    ensures frontier <= frontier' && forall j :: |frontier| <= j < |frontier'| ==> |frontier'[j].moves| == |current.moves| + 1
  {
    var next, hash := Successor(current.state, i, g, ps);
    if hash !in visited {
      frontier', visited', confs', keys', reps' :=
        Offer(current, i, next, hash, frontier, visited, stats, g, p0, ps, confs, keys, reps, visited0, keys0, reps0);
    } else {
      GatherSeen(g, p0, ps, visited0, reps0, keys0, visited, reps, keys, i, hash);
      frontier', visited', confs', keys', reps' := frontier, visited, confs, keys, reps;
    }
  }

  /**
   * The inner loop of the iterative searches: push a copy of the current
   * state in each direction from right to up, and keep each successor whose
   * key is new, counting it.
   */
  method PushSuccessors(current: GameNode, frontier: seq<GameNode>, visited: set<string>, stats: SearchStats,
                        ghost g: Grid, ghost p0: seq<Piece>, ghost ps: seq<Piece>, ghost confs: seq<seq<Piece>>,
                        ghost keys: seq<string>, ghost reps: map<string, seq<Piece>>)
    returns (frontier': seq<GameNode>, visited': set<string>, ghost confs': seq<seq<Piece>>,
             ghost keys': seq<string>, ghost reps': map<string, seq<Piece>>)
    requires g.Valid() && Sane(g, p0)
    requires current.state.Valid() && current.state.Grid() == g && current.state.pieces == ps
    requires Tracks(g, p0, ps, current.moves)
    requires Stored(frontier, confs, g) && Pending(frontier, confs, keys, visited, g, p0)
    requires stats !in StatesOf(frontier)
    requires visited == reps.Keys && visited <= KeyUniverse(g, ColorsOf(p0)) && AllReached(g, p0, visited)
    requires RepsOk(g, reps)
    modifies stats
    ensures Gathered(g, p0, ps, visited, reps, keys, visited', reps', keys', 0)
    ensures Stored(frontier', confs', g) && Pending(frontier', confs', keys', visited', g, p0)
    ensures stats !in StatesOf(frontier')
    ensures stats.visitedNodes - old(stats.visitedNodes) == |visited'| - |visited|
    ensures frontier <= frontier' && forall j :: |frontier| <= j < |frontier'| ==> |frontier'[j].moves| == |current.moves| + 1
  {
    frontier', visited', confs', keys', reps' := frontier, visited, confs, keys, reps;
    GatherStart(g, p0, ps, visited, reps, keys);
    var i := 3;
    while i >= 0
      invariant -1 <= i <= 3
      invariant Gathered(g, p0, ps, visited, reps, keys, visited', reps', keys', i + 1)
      invariant Stored(frontier', confs', g)
      invariant Pending(frontier', confs', keys', visited', g, p0)
      invariant stats !in StatesOf(frontier')
      invariant stats.visitedNodes - old(stats.visitedNodes) == |visited'| - |visited|
      invariant frontier <= frontier'
      invariant forall j :: |frontier| <= j < |frontier'| ==> |frontier'[j].moves| == |current.moves| + 1
    {
      frontier', visited', confs', keys', reps' :=
        TryPush(current, i, frontier', visited', stats, g, p0, ps, confs', keys', reps', visited, keys, reps);
      i := i - 1;
    }
  }

  /** The first node's objects are among those of the nodes. */
  lemma StatesOfFirst(nodes: seq<GameNode>)
    requires nodes != []
    ensures StatesOf(nodes[1..]) <= StatesOf(nodes)
  {
    forall n | n in nodes[1..] ensures n in nodes {
    }
  }

  /** The last node's objects are among those of the nodes. */
  lemma StatesOfLast(nodes: seq<GameNode>)
    requires nodes != []
    ensures StatesOf(nodes[..|nodes| - 1]) <= StatesOf(nodes)
  {
    forall n | n in nodes[..|nodes| - 1] ensures n in nodes {
    }
  }

  /**
   * One round of an iterative search once the removed node is known not to
   * be complete: the node's successors with new keys join the other waiting
   * nodes, and its key counts as expanded.
   */
  method ExpandNode(current: GameNode, rest: seq<GameNode>, visited: set<string>, stats: SearchStats,
                    ghost g: Grid, ghost p0: seq<Piece>, ghost u: set<string>, ghost c: seq<Piece>,
                    ghost restConfs: seq<seq<Piece>>, ghost k: string, ghost restKeys: seq<string>,
                    ghost keys: seq<string>, ghost closed: set<string>, ghost reps: map<string, seq<Piece>>)
    returns (frontier': seq<GameNode>, visited': set<string>, ghost confs': seq<seq<Piece>>,
             ghost keys': seq<string>, ghost closed': set<string>, ghost reps': map<string, seq<Piece>>)
    requires g.Valid() && Sane(g, p0) && u == KeyUniverse(g, ColorsOf(p0))
    requires current.state.Valid() && current.state.Grid() == g && current.state.pieces == c
    requires Waits(g, p0, c, current.moves, k, visited) && !Complete(c)
    requires Stored(rest, restConfs, g) && Pending(rest, restConfs, restKeys, visited, g, p0)
    requires stats !in StatesOf(rest)
    requires keys == [k] + restKeys || keys == restKeys + [k]
    requires Explored(g, p0, visited, keys, closed, reps) && stats.visitedNodes == |visited|
    modifies stats
    ensures Stored(frontier', confs', g) && Pending(frontier', confs', keys', visited', g, p0)
    ensures stats !in StatesOf(frontier')
    ensures Explored(g, p0, visited', keys', closed', reps') && stats.visitedNodes == |visited'|
    ensures |u - visited'| + |frontier'| < |u - visited| + |rest| + 1
    ensures rest <= frontier' && restKeys <= keys' && visited <= visited' && closed' == closed + {k}
    ensures forall j :: |rest| <= j < |frontier'| ==>
      |frontier'[j].moves| == |current.moves| + 1 && keys'[j] !in visited
  {
    frontier', visited', confs', keys', reps' :=
      PushSuccessors(current, rest, visited, stats, g, p0, c, restConfs, restKeys, reps);
    Expand(g, p0, visited, keys, closed, reps, k, restKeys, c, visited', reps', keys');
    RestShrinks(u, visited, visited', |visited|, |visited'|);
    closed' := closed + {k};
  }

  /**
   * One round of the breadth-first loop: the node at the front of the queue
   * leaves it; if it is complete its moves are the answer, and otherwise its
   * successors with new keys join the back.
   */
  method PollFront(queue: seq<GameNode>, visited: set<string>, stats: SearchStats,
                   ghost g: Grid, ghost p0: seq<Piece>, ghost u: set<string>, ghost confs: seq<seq<Piece>>,
                   ghost keys: seq<string>, ghost closed: set<string>, ghost reps: map<string, seq<Piece>>)
    returns (found: Option<seq<char>>, queue': seq<GameNode>, visited': set<string>, ghost confs': seq<seq<Piece>>,
             ghost keys': seq<string>, ghost closed': set<string>, ghost reps': map<string, seq<Piece>>)
    requires g.Valid() && Sane(g, p0) && u == KeyUniverse(g, ColorsOf(p0)) && queue != []
    requires Searching(queue, confs, keys, visited, closed, reps, stats.visitedNodes, g, p0)
    requires stats !in StatesOf(queue) && Layered(g, p0, keys, Depths(queue), visited, closed)
    modifies stats
    ensures found.Some? ==> forall ms :: ValidMoves(ms) && Complete(Replay(g, p0, ms)) ==> |found.value| <= |ms|
    ensures found.Some? ==>
      ValidMoves(found.value) && Complete(Replay(g, p0, found.value)) && 1 <= stats.visitedNodes <= |ReachableKeys(g, p0)|
    ensures found.Some? <==> Complete(confs[0])
    ensures found.Some? ==> found.value == queue[0].moves && stats.visitedNodes == old(stats.visitedNodes)
    ensures found.None? ==> Searching(queue', confs', keys', visited', closed', reps', stats.visitedNodes, g, p0)
    ensures found.None? ==> stats !in StatesOf(queue') && Layered(g, p0, keys', Depths(queue'), visited', closed')
    ensures found.None? ==> |u - visited'| + |queue'| < |u - visited| + |queue|
  {
    StoredFirst(queue, confs, g);
    PendingFirst(queue, confs, keys, visited, g, p0);
    var complete := NodeComplete(queue[0], g, p0, confs[0], keys[0], visited);
    if complete {
      ReachedSubset(g, p0, visited);
      SubsetSize(visited, ReachableKeys(g, p0));
      forall ms | ValidMoves(ms) && Complete(Replay(g, p0, ms)) ensures |queue[0].moves| <= |ms| {
        FrontShortest(g, p0, reps, closed, Depths(queue)[0], ms);
      }
      return Some(queue[0].moves), queue, visited, confs, keys, closed, reps;
    }
    found := None;
    queue', visited', confs', keys', closed', reps' := ExpandFront(queue, visited, stats, g, p0, u, confs, keys, closed, reps);
  }

  /**
   * A breadth-first round keeps the queue layered: the front leaves, the
   * rest stay in order, and the nodes appended are one move longer than the
   * front and have new keys.
   */
  lemma QueueRound(g: Grid, p0: seq<Piece>, queue: seq<GameNode>, keys: seq<string>, visited: set<string>,
                   closed: set<string>, queue': seq<GameNode>, keys': seq<string>, visited': set<string>,
                   closed': set<string>, reps': map<string, seq<Piece>>)
    requires g.Valid() && Sane(g, p0) && queue != [] && |keys| == |queue| && |keys'| == |queue'|
    requires Layered(g, p0, keys, Depths(queue), visited, closed) && Waiting(visited, keys, closed)
    requires closed' == closed + {keys[0]} && visited <= visited' == reps'.Keys
    requires RepsOk(g, reps') && AllExpanded(g, reps', closed')
    requires queue[1..] <= queue' && keys[1..] <= keys'
    requires forall j :: |queue| - 1 <= j < |queue'| ==>
      |queue'[j].moves| == |queue[0].moves| + 1 && keys'[j] !in visited
    ensures Layered(g, p0, keys', Depths(queue'), visited', closed')
  {
    LayerStep(g, p0, keys, Depths(queue), visited, closed, keys', Depths(queue'), visited', closed', reps');
  }

  /** The front node of the queue is not complete: it leaves, and its new successors join the back. */
  method ExpandFront(queue: seq<GameNode>, visited: set<string>, stats: SearchStats,
                     ghost g: Grid, ghost p0: seq<Piece>, ghost u: set<string>, ghost confs: seq<seq<Piece>>,
                     ghost keys: seq<string>, ghost closed: set<string>, ghost reps: map<string, seq<Piece>>)
    returns (queue': seq<GameNode>, visited': set<string>, ghost confs': seq<seq<Piece>>,
             ghost keys': seq<string>, ghost closed': set<string>, ghost reps': map<string, seq<Piece>>)
    requires g.Valid() && Sane(g, p0) && u == KeyUniverse(g, ColorsOf(p0)) && queue != []
    requires Searching(queue, confs, keys, visited, closed, reps, stats.visitedNodes, g, p0) && !Complete(confs[0])
    requires stats !in StatesOf(queue) && Layered(g, p0, keys, Depths(queue), visited, closed)
    modifies stats
    ensures Searching(queue', confs', keys', visited', closed', reps', stats.visitedNodes, g, p0)
    ensures stats !in StatesOf(queue') && Layered(g, p0, keys', Depths(queue'), visited', closed')
    ensures |u - visited'| + |queue'| < |u - visited| + |queue|
  {
    StoredFirst(queue, confs, g);
    PendingFirst(queue, confs, keys, visited, g, p0);
    StatesOfFirst(queue);
    queue', visited', confs', keys', closed', reps' :=
      ExpandNode(queue[0], queue[1..], visited, stats, g, p0, u, confs[0], confs[1..], keys[0], keys[1..],
                 keys, closed, reps);
    QueueRound(g, p0, queue, keys, visited, closed, queue', keys', visited', closed', reps');
  }

  /** A new counter, and a node holding a copy of the initial state and no moves. */
  method StartNode(initialState: GameState, ghost g: Grid, ghost p0: seq<Piece>)
    returns (stats: SearchStats, initialNode: GameNode)
    requires initialState.Valid() && g == initialState.Grid() && p0 == initialState.pieces
    ensures fresh(stats) && fresh(initialNode.state) && fresh(initialNode.state.barriers)
    ensures stats.visitedNodes == 0 && initialNode.moves == []
    ensures Stored([initialNode], [p0], g) && stats !in StatesOf([initialNode])
  {
    stats := new SearchStats();
    var start := initialState.Copy();
    initialNode := GameNode(start, []);
    StatesOfAppend([], initialNode, stats);
  }

  /**
   * The start shared by the iterative searches: a new counter, a node
   * holding a copy of the initial state and no moves, and the key of the
   * initial state, visited and counted.  Computing the key sorts the
   * caller's own piece list; the copy was taken before.
   */
  method StartSearch(initialState: GameState, ghost g: Grid, ghost p0: seq<Piece>)
    returns (stats: SearchStats, initialNode: GameNode, visited: set<string>,
             ghost confs: seq<seq<Piece>>, ghost keys: seq<string>, ghost reps: map<string, seq<Piece>>)
    requires initialState.Valid() && g == initialState.Grid() && p0 == initialState.pieces && Sane(g, p0)
    modifies initialState
    ensures fresh(stats) && initialState.pieces == SortPieces(p0)
    ensures initialState.initialState == old(initialState.initialState)
    ensures initialNode.moves == [] && initialNode.state.pieces == p0
    ensures Stored([initialNode], confs, g) && stats !in StatesOf([initialNode])
    ensures Pending([initialNode], confs, keys, visited, g, p0)
    ensures Explored(g, p0, visited, keys, {}, reps)
    ensures stats.visitedNodes == |visited| == 1 && confs == [p0]
    ensures visited == {Key(p0)} && keys == [Key(p0)]
  {
    stats, initialNode := StartNode(initialState, g, p0);
    var h0 := GetStateHash(initialState);
    visited := {h0};
    stats.visitedNodes := stats.visitedNodes + 1;
    confs, keys, reps := [p0], [h0], map[h0 := p0];
    ExploredStart(g, p0);
    PendingStart(initialNode, g, p0);
  }

  /**
   * Whether a polled node's state is complete; the moves of a complete one
   * solve the puzzle.
   */
  method NodeComplete(current: GameNode, ghost g: Grid, ghost p0: seq<Piece>, ghost c: seq<Piece>,
                      ghost k: string, ghost visited: set<string>) returns (complete: bool)
    requires g.Valid() && Sane(g, p0)
    requires current.state.Valid() && current.state.Grid() == g && current.state.pieces == c
    requires Waits(g, p0, c, current.moves, k, visited)
    ensures complete <==> Complete(c)
    ensures complete ==> ValidMoves(current.moves) && Complete(Replay(g, p0, current.moves))
  {
    complete := current.state.IsGameComplete();
    TracksKey(g, p0, c, current.moves);
  }

  /**
   * The breadth-first loop: poll the front of the queue, return its moves
   * if it is complete, and otherwise offer its new successors.
   */
  method BFSLoop(queue: seq<GameNode>, visited: set<string>, stats: SearchStats,
                 ghost g: Grid, ghost p0: seq<Piece>, ghost confs: seq<seq<Piece>>,
                 ghost keys: seq<string>, ghost closed: set<string>, ghost reps: map<string, seq<Piece>>)
    returns (solution: Option<seq<char>>)
    requires g.Valid() && Sane(g, p0)
    requires Searching(queue, confs, keys, visited, closed, reps, stats.visitedNodes, g, p0)
    requires stats !in StatesOf(queue) && Layered(g, p0, keys, Depths(queue), visited, closed)
    modifies stats
    ensures solution.Some? ==> ValidMoves(solution.value) && Complete(Replay(g, p0, solution.value))
    ensures solution.Some? ==> forall ms :: ValidMoves(ms) && Complete(Replay(g, p0, ms)) ==> |solution.value| <= |ms|
    ensures solution.None? ==> forall ms :: ValidMoves(ms) ==> !Complete(Replay(g, p0, ms))
    ensures 1 <= stats.visitedNodes <= |ReachableKeys(g, p0)|
    ensures solution.None? ==> stats.visitedNodes == |ReachableKeys(g, p0)|
    ensures queue != [] && Complete(confs[0]) ==>
      solution == Some(queue[0].moves) && stats.visitedNodes == old(stats.visitedNodes)
  {
    ghost var firstComplete := queue != [] && Complete(confs[0]);
    ghost var queue0, confs0, visited0 := queue, confs, visited;
    ghost var u := KeyUniverse(g, ColorsOf(p0));
    var queue, visited := queue, visited;
    ghost var confs, keys, closed, reps := confs, keys, closed, reps;
    while queue != []
      invariant Searching(queue, confs, keys, visited, closed, reps, stats.visitedNodes, g, p0)
      invariant stats !in StatesOf(queue) && Layered(g, p0, keys, Depths(queue), visited, closed)
      invariant firstComplete ==> queue == queue0 && confs == confs0 && visited == visited0
      decreases |u - visited| + |queue|
    {
      var found: Option<seq<char>>;
      found, queue, visited, confs, keys, closed, reps :=
        PollFront(queue, visited, stats, g, p0, u, confs, keys, closed, reps);
      assert firstComplete ==> found.Some?;
      if found.Some? {
        return found;
      }
    }
    ExhaustedNoSolution(g, p0, visited, closed, reps);
    return None;
  }

  /**
   * solveBFSWithStats: breadth-first search from a copy of the initial
   * state.  A solution found replays to a complete configuration; when none
   * is found no move string completes the puzzle.  The count is the number
   * of distinct keys met, at most the number of keys the board allows.
   * Computing the starting key sorts the caller's own piece list.
   */
  method SolveBFS(initialState: GameState, startNanos: int, endNanos: int) returns (result: SearchResult)
    requires initialState.Valid() && Sane(initialState.Grid(), initialState.pieces)
    modifies initialState
    ensures initialState.pieces == SortPieces(old(initialState.pieces))
    ensures initialState.initialState == old(initialState.initialState)
    ensures result.solution.Some? ==>
      ValidMoves(result.solution.value) &&
      Complete(Replay(old(initialState.Grid()), old(initialState.pieces), result.solution.value))
    ensures result.solution.Some? ==>
      forall ms :: ValidMoves(ms) && Complete(Replay(old(initialState.Grid()), old(initialState.pieces), ms)) ==>
        |result.solution.value| <= |ms|
    ensures result.solution.None? ==>
      forall ms :: ValidMoves(ms) ==> !Complete(Replay(old(initialState.Grid()), old(initialState.pieces), ms))
    ensures 1 <= result.visitedNodes <= |ReachableKeys(old(initialState.Grid()), old(initialState.pieces))|
    ensures result.solution.None? ==>
      result.visitedNodes == |ReachableKeys(old(initialState.Grid()), old(initialState.pieces))|
    ensures Complete(old(initialState.pieces)) ==> result.solution == Some([]) && result.visitedNodes == 1
    ensures result.executionTimeMillis == ElapsedMillis(startNanos, endNanos)
  {
    ghost var g, p0 := initialState.Grid(), initialState.pieces;
    var stats, initialNode, visited, confs, keys, reps := StartSearch(initialState, g, p0);
    LayeredStart(g, p0);
    assert Depths([initialNode]) == [0];
    var solution := BFSLoop([initialNode], visited, stats, g, p0, confs, keys, {}, reps);
    result := SearchResult(solution, stats.visitedNodes, ElapsedMillis(startNanos, endNanos));
  }

  /**
   * One round of the depth-first loop: the node on top of the stack leaves
   * it; if it is complete its moves are the answer, and otherwise its
   * successors with new keys are pushed on it.
   */
  method PopBack(stack: seq<GameNode>, visited: set<string>, stats: SearchStats,
                 ghost g: Grid, ghost p0: seq<Piece>, ghost u: set<string>, ghost confs: seq<seq<Piece>>,
                 ghost keys: seq<string>, ghost closed: set<string>, ghost reps: map<string, seq<Piece>>)
    returns (found: Option<seq<char>>, stack': seq<GameNode>, visited': set<string>, ghost confs': seq<seq<Piece>>,
             ghost keys': seq<string>, ghost closed': set<string>, ghost reps': map<string, seq<Piece>>)
    requires g.Valid() && Sane(g, p0) && u == KeyUniverse(g, ColorsOf(p0)) && stack != []
    requires Searching(stack, confs, keys, visited, closed, reps, stats.visitedNodes, g, p0)
    requires stats !in StatesOf(stack)
    modifies stats
    ensures found.Some? ==>
      ValidMoves(found.value) && Complete(Replay(g, p0, found.value)) && 1 <= stats.visitedNodes <= |ReachableKeys(g, p0)|
    ensures found.Some? <==> Complete(Last(confs))
    ensures found.Some? ==> found.value == Last(stack).moves && stats.visitedNodes == old(stats.visitedNodes)
    ensures found.None? ==> Searching(stack', confs', keys', visited', closed', reps', stats.visitedNodes, g, p0)
    ensures found.None? ==> stats !in StatesOf(stack')
    ensures found.None? ==> |u - visited'| + |stack'| < |u - visited| + |stack|
  {
    var top := |stack| - 1;
    StoredLast(stack, confs, g);
    PendingLast(stack, confs, keys, visited, g, p0);
    var complete := NodeComplete(stack[top], g, p0, confs[top], keys[top], visited);
    if complete {
      ReachedSubset(g, p0, visited);
      SubsetSize(visited, ReachableKeys(g, p0));
      return Some(stack[top].moves), stack, visited, confs, keys, closed, reps;
    }
    found := None;
    stack', visited', confs', keys', closed', reps' := ExpandTop(stack, visited, stats, g, p0, u, confs, keys, closed, reps);
  }

  /** The top node of the stack is not complete: it is popped, and its new successors are pushed. */
  method ExpandTop(stack: seq<GameNode>, visited: set<string>, stats: SearchStats,
                   ghost g: Grid, ghost p0: seq<Piece>, ghost u: set<string>, ghost confs: seq<seq<Piece>>,
                   ghost keys: seq<string>, ghost closed: set<string>, ghost reps: map<string, seq<Piece>>)
    returns (stack': seq<GameNode>, visited': set<string>, ghost confs': seq<seq<Piece>>,
             ghost keys': seq<string>, ghost closed': set<string>, ghost reps': map<string, seq<Piece>>)
    requires g.Valid() && Sane(g, p0) && u == KeyUniverse(g, ColorsOf(p0)) && stack != []
    requires Searching(stack, confs, keys, visited, closed, reps, stats.visitedNodes, g, p0)
    requires !Complete(confs[|confs| - 1]) && stats !in StatesOf(stack)
    modifies stats
    ensures Searching(stack', confs', keys', visited', closed', reps', stats.visitedNodes, g, p0)
    ensures stats !in StatesOf(stack')
    ensures |u - visited'| + |stack'| < |u - visited| + |stack|
  {
    var top := |stack| - 1;
    StoredLast(stack, confs, g);
    PendingLast(stack, confs, keys, visited, g, p0);
    StatesOfLast(stack);
    LastSplit(keys);
    stack', visited', confs', keys', closed', reps' :=
      ExpandNode(stack[top], stack[..top], visited, stats, g, p0, u, confs[top], confs[..top], keys[top], keys[..top],
                 keys, closed, reps);
  }

  /**
   * The depth-first loop: pop the top of the stack, return its moves if it
   * is complete, and otherwise push its new successors.
   */
  method DFSLoop(stack: seq<GameNode>, visited: set<string>, stats: SearchStats,
                 ghost g: Grid, ghost p0: seq<Piece>, ghost confs: seq<seq<Piece>>,
                 ghost keys: seq<string>, ghost closed: set<string>, ghost reps: map<string, seq<Piece>>)
    returns (solution: Option<seq<char>>)
    requires g.Valid() && Sane(g, p0)
    requires Searching(stack, confs, keys, visited, closed, reps, stats.visitedNodes, g, p0)
    requires stats !in StatesOf(stack)
    modifies stats
    ensures solution.Some? ==> ValidMoves(solution.value) && Complete(Replay(g, p0, solution.value))
    ensures solution.None? ==> forall ms :: ValidMoves(ms) ==> !Complete(Replay(g, p0, ms))
    ensures 1 <= stats.visitedNodes <= |ReachableKeys(g, p0)|
    ensures solution.None? ==> stats.visitedNodes == |ReachableKeys(g, p0)|
    ensures stack != [] && Complete(Last(confs)) ==>
      solution == Some(Last(stack).moves) && stats.visitedNodes == old(stats.visitedNodes)
  {
    ghost var firstComplete := stack != [] && Complete(Last(confs));
    ghost var stack0, confs0, visited0 := stack, confs, visited;
    ghost var u := KeyUniverse(g, ColorsOf(p0));
    var stack, visited := stack, visited;
    ghost var confs, keys, closed, reps := confs, keys, closed, reps;
    while stack != []
      invariant Searching(stack, confs, keys, visited, closed, reps, stats.visitedNodes, g, p0)
      invariant stats !in StatesOf(stack)
      invariant firstComplete ==> stack == stack0 && confs == confs0 && visited == visited0
      decreases |u - visited| + |stack|
    {
      var found: Option<seq<char>>;
      found, stack, visited, confs, keys, closed, reps :=
        PopBack(stack, visited, stats, g, p0, u, confs, keys, closed, reps);
      assert firstComplete ==> found.Some?;
      if found.Some? {
        return found;
      }
    }
    ExhaustedNoSolution(g, p0, visited, closed, reps);
    return None;
  }

  /**
   * solveDFSWithStats: depth-first search from a copy of the initial state,
   * with the same guarantees as the breadth-first search.
   */
  method SolveDFS(initialState: GameState, startNanos: int, endNanos: int) returns (result: SearchResult)
    requires initialState.Valid() && Sane(initialState.Grid(), initialState.pieces)
    modifies initialState
    ensures initialState.pieces == SortPieces(old(initialState.pieces))
    ensures initialState.initialState == old(initialState.initialState)
    ensures result.solution.Some? ==>
      ValidMoves(result.solution.value) &&
      Complete(Replay(old(initialState.Grid()), old(initialState.pieces), result.solution.value))
    ensures result.solution.None? ==>
      forall ms :: ValidMoves(ms) ==> !Complete(Replay(old(initialState.Grid()), old(initialState.pieces), ms))
    ensures 1 <= result.visitedNodes <= |ReachableKeys(old(initialState.Grid()), old(initialState.pieces))|
    ensures result.solution.None? ==>
      result.visitedNodes == |ReachableKeys(old(initialState.Grid()), old(initialState.pieces))|
    ensures Complete(old(initialState.pieces)) ==> result.solution == Some([]) && result.visitedNodes == 1
    ensures result.executionTimeMillis == ElapsedMillis(startNanos, endNanos)
  {
    ghost var g, p0 := initialState.Grid(), initialState.pieces;
    var stats, initialNode, visited, confs, keys, reps := StartSearch(initialState, g, p0);
    var solution := DFSLoop([initialNode], visited, stats, g, p0, confs, keys, {}, reps);
    result := SearchResult(solution, stats.visitedNodes, ElapsedMillis(startNanos, endNanos));
  }

  /** A visited set that gained a key outside it, within the universe, leaves less of the universe. */
  lemma GrowingShrinksRest(u: set<string>, visited: set<string>, visited': set<string>, h: string)
    requires h !in visited && visited + {h} <= visited' <= u
    ensures |u - visited'| < |u - visited|
  {
    SubsetSize(visited + {h}, visited');
    RestShrinks(u, visited, visited', |visited|, |visited'|);
  }

  /**
   * recursiveDFSHelperWithStats: a complete state returns its moves; otherwise
   * its key is taken (sorting its pieces), a visited key returns nothing, and
   * a new key is visited, counted, and its four pushes searched in turn, up
   * first, until one returns moves.  The visited set is shared by all calls,
   * so it is passed in and handed back.  When a call returns nothing, its own
   * key is visited and every key it added is expanded.
   */
  method RecursiveDFSHelper(currentState: GameState, currentMoves: seq<char>, visited: set<string>,
                            stats: SearchStats, ghost g: Grid, ghost p0: seq<Piece>, ghost u: set<string>,
                            ghost reps: map<string, seq<Piece>>)
    returns (solution: Option<seq<char>>, visited': set<string>, ghost reps': map<string, seq<Piece>>)
    requires g.Valid() && Sane(g, p0) && u == KeyUniverse(g, ColorsOf(p0))
    requires currentState.Valid() && currentState.Grid() == g
    requires Tracks(g, p0, currentState.pieces, currentMoves)
    requires visited == reps.Keys && visited <= u && AllReached(g, p0, visited) && RepsOk(g, reps)
    modifies currentState, stats
    ensures visited <= visited' <= u && AllReached(g, p0, visited')
    ensures visited' == reps'.Keys && RepsOk(g, reps') && Extends(reps, reps')
    ensures stats.visitedNodes - old(stats.visitedNodes) == |visited'| - |visited|
    ensures solution.Some? ==> ValidMoves(solution.value) && Complete(Replay(g, p0, solution.value))
    ensures Complete(old(currentState.pieces)) ==>
      solution == Some(currentMoves) && visited' == visited && currentState.pieces == old(currentState.pieces)
    ensures currentState.initialState == old(currentState.initialState)
    ensures !Complete(old(currentState.pieces)) ==> currentState.pieces == SortPieces(old(currentState.pieces))
    ensures solution.None? ==>
      Key(old(currentState.pieces)) in visited' && AllExpanded(g, reps', reps'.Keys - visited)
    decreases |u - visited|, 4
  {
    var complete := currentState.IsGameComplete();
    TracksKey(g, p0, currentState.pieces, currentMoves);
    if complete {
      return Some(currentMoves), visited, reps;
    }
    solution, visited', reps' := VisitState(currentState, currentMoves, visited, stats, g, p0, u, reps);
  }

  /**
   * The part of recursiveDFSHelperWithStats after the completeness check:
   * take the key of a state that is not complete, sorting its pieces; return
   * nothing if the key was visited, and otherwise visit and count it and
   * search from its four pushes.
   */
  method VisitState(currentState: GameState, currentMoves: seq<char>, visited: set<string>,
                    stats: SearchStats, ghost g: Grid, ghost p0: seq<Piece>, ghost u: set<string>,
                    ghost reps: map<string, seq<Piece>>)
    returns (solution: Option<seq<char>>, visited': set<string>, ghost reps': map<string, seq<Piece>>)
    requires g.Valid() && Sane(g, p0) && u == KeyUniverse(g, ColorsOf(p0))
    requires currentState.Valid() && currentState.Grid() == g
    requires Tracks(g, p0, currentState.pieces, currentMoves) && !Complete(currentState.pieces)
    requires visited == reps.Keys && visited <= u && AllReached(g, p0, visited) && RepsOk(g, reps)
    modifies currentState, stats
    ensures visited <= visited' <= u && AllReached(g, p0, visited')
    ensures visited' == reps'.Keys && RepsOk(g, reps') && Extends(reps, reps')
    ensures stats.visitedNodes - old(stats.visitedNodes) == |visited'| - |visited|
    ensures solution.Some? ==> ValidMoves(solution.value) && Complete(Replay(g, p0, solution.value))
    ensures currentState.pieces == SortPieces(old(currentState.pieces))
    ensures currentState.initialState == old(currentState.initialState)
    ensures solution.None? ==>
      Key(old(currentState.pieces)) in visited' && AllExpanded(g, reps', reps'.Keys - visited)
    decreases |u - visited|, 3
  {
    ghost var ps := currentState.pieces;
    var stateHash := GetStateHash(currentState);
    if stateHash in visited {
      return None, visited, reps;
    }
    ghost var sorted := currentState.pieces;
    assert stateHash in u && Reached(g, p0, stateHash) && Tracks(g, p0, sorted, currentMoves) && Key(sorted) == stateHash &&
           !Complete(sorted) && RepsOk(g, reps[stateHash := sorted]) by {
      TracksKey(g, p0, ps, currentMoves);
      VisitSorted(g, p0, ps, currentMoves, reps, stateHash);
    }
    solution, visited', reps' :=
      SearchChildren(currentState, currentMoves, visited, stats, g, p0, u, reps, sorted, stateHash);
  }

  /**
   * The rest of recursiveDFSHelperWithStats once the key h of the current
   * state is known to be new: visit and count it, then search from each of
   * its four pushes in turn, up first, until one returns moves.  When none
   * does, h is expanded, and so is every key added since.
   */
  method SearchChildren(currentState: GameState, currentMoves: seq<char>, visited: set<string>,
                        stats: SearchStats, ghost g: Grid, ghost p0: seq<Piece>, ghost u: set<string>,
                        ghost reps: map<string, seq<Piece>>, ghost sorted: seq<Piece>, h: string)
    returns (solution: Option<seq<char>>, visited': set<string>, ghost reps': map<string, seq<Piece>>)
    requires g.Valid() && Sane(g, p0) && u == KeyUniverse(g, ColorsOf(p0))
    requires currentState.Valid() && currentState.Grid() == g && currentState.pieces == sorted
    requires Tracks(g, p0, sorted, currentMoves) && Key(sorted) == h && !Complete(sorted)
    requires h !in visited && h in u && visited <= u && visited == reps.Keys
    requires Reached(g, p0, h) && AllReached(g, p0, visited) && RepsOk(g, reps[h := sorted])
    modifies stats
    ensures visited <= visited' <= u && AllReached(g, p0, visited')
    ensures visited' == reps'.Keys && RepsOk(g, reps') && Extends(reps, reps')
    ensures stats.visitedNodes - old(stats.visitedNodes) == |visited'| - |visited|
    ensures solution.Some? ==> ValidMoves(solution.value) && Complete(Replay(g, p0, solution.value))
    ensures solution.None? ==> h in visited' && AllExpanded(g, reps', reps'.Keys - visited)
    decreases |u - visited|, 2
  {
    ghost var reps1 := reps[h := sorted];
    visited', reps' := visited + {h}, reps1;
    stats.visitedNodes := stats.visitedNodes + 1;
    assert AllExpanded(g, reps', reps'.Keys - (visited + {h})) by {
      assert reps'.Keys - (visited + {h}) == {};
    }
    solution, visited', reps' :=
      ChildrenLoop(currentState, currentMoves, visited', stats, g, p0, u, reps', sorted, h, visited, reps);
  }

  /**
   * The loop of recursiveDFSHelperWithStats over the four pushes, up first,
   * entered with the current key h just visited on top of outer: it stops
   * at the first push whose search returns moves.
   */
  method ChildrenLoop(currentState: GameState, currentMoves: seq<char>, visited: set<string>,
                      stats: SearchStats, ghost g: Grid, ghost p0: seq<Piece>, ghost u: set<string>,
                      ghost reps: map<string, seq<Piece>>, ghost sorted: seq<Piece>, ghost h: string,
                      ghost outer: set<string>, ghost reps0: map<string, seq<Piece>>)
    returns (solution: Option<seq<char>>, visited': set<string>, ghost reps': map<string, seq<Piece>>)
    requires g.Valid() && Sane(g, p0) && u == KeyUniverse(g, ColorsOf(p0))
    requires currentState.Valid() && currentState.Grid() == g && currentState.pieces == sorted
    requires Tracks(g, p0, sorted, currentMoves) && Key(sorted) == h && !Complete(sorted)
    requires h !in outer && visited == outer + {h} && visited <= u && AllReached(g, p0, visited)
    requires visited == reps.Keys && outer == reps0.Keys && reps == reps0[h := sorted] && RepsOk(g, reps)
    requires AllExpanded(g, reps, reps.Keys - (outer + {h}))
    modifies stats
    ensures visited <= visited' <= u && AllReached(g, p0, visited')
    ensures visited' == reps'.Keys && RepsOk(g, reps') && Extends(reps0, reps')
    ensures stats.visitedNodes - old(stats.visitedNodes) == |visited'| - |visited|
    ensures solution.Some? ==> ValidMoves(solution.value) && Complete(Replay(g, p0, solution.value))
    ensures solution.None? ==> h in visited' && AllExpanded(g, reps', reps'.Keys - outer)
    decreases |u - outer|, 1
  {
    visited', reps' := visited, reps;
    for i := 0 to 4
      invariant visited <= visited' <= u && visited' == reps'.Keys && AllReached(g, p0, visited')
      invariant RepsOk(g, reps') && Extends(reps, reps')
      invariant stats.visitedNodes - old(stats.visitedNodes) == |visited'| - |visited|
      invariant PushesIn(g, sorted, visited', 0, i)
      invariant AllExpanded(g, reps', reps'.Keys - (outer + {h}))
    {
      solution, visited', reps' :=
        SearchChild(currentState, currentMoves, i, visited', stats, g, p0, u, reps', sorted, h, outer, reps);
      if solution.Some? {
        ExtendsAdded(reps0, h, sorted, reps');
        return;
      }
    }
    ExpandedNow(g, reps', h, sorted);
    ExpandedCall(g, outer, reps', h);
    ExtendsAdded(reps0, h, sorted, reps');
    solution := None;
  }

  /**
   * One pass of the recursive search's loop: push a copy of the current
   * state in direction i and search from it.  The current state's key h was
   * new to the visited set outer of the enclosing call.  When the child
   * returns nothing, its key is visited and the keys added since h stay
   * expanded.
   */
  method SearchChild(currentState: GameState, currentMoves: seq<char>, i: int, visited: set<string>,
                     stats: SearchStats, ghost g: Grid, ghost p0: seq<Piece>, ghost u: set<string>,
                     ghost reps: map<string, seq<Piece>>, ghost sorted: seq<Piece>, ghost h: string,
                     ghost outer: set<string>, ghost reps1: map<string, seq<Piece>>)
    returns (found: Option<seq<char>>, visited': set<string>, ghost reps': map<string, seq<Piece>>)
    requires g.Valid() && Sane(g, p0) && u == KeyUniverse(g, ColorsOf(p0)) && 0 <= i < 4
    requires currentState.Valid() && currentState.Grid() == g && currentState.pieces == sorted
    requires Tracks(g, p0, sorted, currentMoves)
    requires h !in outer && outer + {h} <= visited <= u && AllReached(g, p0, visited) && visited == reps.Keys
    requires RepsOk(g, reps) && Extends(reps1, reps)
    requires PushesIn(g, sorted, visited, 0, i)
    requires AllExpanded(g, reps, reps.Keys - (outer + {h}))
    modifies stats
    ensures visited <= visited' <= u && AllReached(g, p0, visited')
    ensures visited' == reps'.Keys && RepsOk(g, reps') && Extends(reps1, reps')
    ensures stats.visitedNodes - old(stats.visitedNodes) == |visited'| - |visited|
    ensures found.Some? ==> ValidMoves(found.value) && Complete(Replay(g, p0, found.value))
    ensures found.None? ==>
      PushesIn(g, sorted, visited', 0, i + 1) && AllExpanded(g, reps', reps'.Keys - (outer + {h}))
    decreases |u - outer|, 0
  {
    var nextState := PushedCopy(currentState, i, g, sorted);
    var newMoves := currentMoves + [MoveChars[i]];
    SuccessorTracks(g, p0, sorted, currentMoves, i);
    GrowingShrinksRest(u, outer, visited, h);
    found, visited', reps' := RecursiveDFSHelper(nextState, newMoves, visited, stats, g, p0, u, reps);
    if found.None? {
      ExpandedChild(g, outer + {h}, reps, reps');
      PushesVisitedUp(g, sorted, visited, visited', i);
    }
  }

  /**
   * solveRecursiveDFSWithStats: the recursive search from the initial state
   * itself, with no moves and nothing visited.  A complete initial state
   * returns no moves and counts nothing.
   */
  method SolveRecursiveDFS(initialState: GameState, startNanos: int, endNanos: int) returns (result: SearchResult)
    requires initialState.Valid() && Sane(initialState.Grid(), initialState.pieces)
    modifies initialState
    ensures Complete(old(initialState.pieces)) ==> result.solution == Some([]) && result.visitedNodes == 0
    ensures Complete(old(initialState.pieces)) ==> initialState.pieces == old(initialState.pieces)
    ensures initialState.initialState == old(initialState.initialState)
    ensures !Complete(old(initialState.pieces)) ==> initialState.pieces == SortPieces(old(initialState.pieces))
    ensures result.solution.Some? ==>
      ValidMoves(result.solution.value) &&
      Complete(Replay(old(initialState.Grid()), old(initialState.pieces), result.solution.value))
    ensures result.solution.None? ==>
      forall ms :: ValidMoves(ms) ==> !Complete(Replay(old(initialState.Grid()), old(initialState.pieces), ms))
    ensures 0 <= result.visitedNodes <= |ReachableKeys(old(initialState.Grid()), old(initialState.pieces))|
    ensures result.solution.None? ==>
      result.visitedNodes == |ReachableKeys(old(initialState.Grid()), old(initialState.pieces))|
    ensures result.executionTimeMillis == ElapsedMillis(startNanos, endNanos)
  {
    ghost var g, p0 := initialState.Grid(), initialState.pieces;
    ghost var u := KeyUniverse(g, ColorsOf(p0));
    var stats := new SearchStats();
    stats.Reset();
    TracksStart(g, p0);
    var solution, visited, reps := RecursiveDFSHelper(initialState, [], {}, stats, g, p0, u, map[]);
    if solution.None? {
      ExpandedAll(g, reps);
      forall ms | ValidMoves(ms) ensures !Complete(Replay(g, p0, ms)) {
        NoSolutionWhenClosed(g, p0, reps, ms);
      }
      ClosedIsReachable(g, p0, reps);
    }
    ReachedSubset(g, p0, visited);
    SubsetSize(visited, ReachableKeys(g, p0));
    result := SearchResult(solution, stats.visitedNodes, ElapsedMillis(startNanos, endNanos));
  }
}
