/**
 * The puzzle state: the piece list, the barrier grid and an optional saved
 * initial snapshot.  Each method is proved against the functions of the
 * Rules, Merging and Completion modules.
 */
module States {
  import opened Pieces
  import opened Merging
  import opened Rules
  import opened Completion

  /** The contents of a barrier array, row by row: cells[y][x] is a[y, x]. */
  function CellsOf(a: array2<int>): seq<seq<int>>
    reads a
  {
    seq(a.Length0, y requires 0 <= y < a.Length0 reads a =>
      seq(a.Length1, x requires 0 <= x < a.Length1 reads a => a[y, x]))
  }

  /** Arrays with the same dimensions and entries have the same contents. */
  lemma CellsOfEqual(a: array2<int>, b: array2<int>)
    requires a.Length0 == b.Length0 && a.Length1 == b.Length1
    requires forall y, x :: 0 <= y < a.Length0 && 0 <= x < a.Length1 ==> a[y, x] == b[y, x]
    ensures CellsOf(a) == CellsOf(b)
  {
    forall y | 0 <= y < a.Length0 ensures CellsOf(a)[y] == CellsOf(b)[y] {
      assert forall x :: 0 <= x < a.Length1 ==> CellsOf(a)[y][x] == CellsOf(b)[y][x];
    }
  }

  class GameState {
    var pieces: seq<Piece>
    const barriers: array2<int>
    const width: int
    const height: int
    var initialState: GameState?

    /** The barrier array is height x width, and so is that of the snapshot, which is a separate object. */
    ghost predicate Valid()
      reads this
    {
      barriers.Length0 == height && barriers.Length1 == width &&
      (initialState != null ==>
        initialState != this && initialState.barriers != barriers &&
        initialState.width == width && initialState.height == height &&
        initialState.barriers.Length0 == height && initialState.barriers.Length1 == width)
    }

    /** The board as a value. */
    function Grid(): Rules.Grid
      reads barriers
    {
      Rules.Grid(width, height, CellsOf(barriers))
    }

    lemma GridValid()
      requires Valid()
      ensures Grid().Valid()
    {
    }

    /** A new state with no pieces and no barriers. */
    constructor (width: int, height: int)
      requires 0 <= width && 0 <= height
      ensures Valid() && fresh(barriers)
      ensures this.width == width && this.height == height
      ensures pieces == [] && initialState == null
      ensures forall y, x :: 0 <= y < height && 0 <= x < width ==> barriers[y, x] == 0
    {
      this.width := width;
      this.height := height;
      pieces := [];
      barriers := new int[height, width]((y, x) => 0);
      initialState := null;
    }

    /** A deep copy: equal pieces and barriers in new objects, without a snapshot. */
    method Copy() returns (r: GameState)
      requires Valid()
      ensures fresh(r) && fresh(r.barriers) && r.Valid()
      ensures r.width == width && r.height == height && r.initialState == null
      ensures r.pieces == pieces && r.Grid() == Grid()
    {
      r := new GameState(width, height);
      var k := 0;
      while k < |pieces|
        invariant 0 <= k <= |pieces|
        invariant r.pieces == pieces[..k] && r.initialState == null
      {
        var p := pieces[k];
        r.pieces := r.pieces + [Piece(p.color, p.x, p.y)];
        k := k + 1;
      }
      for y := 0 to height
        invariant r.pieces == pieces && r.initialState == null
        invariant forall yy, x :: 0 <= yy < y && 0 <= x < width ==> r.barriers[yy, x] == barriers[yy, x]
      {
        for x := 0 to width
          invariant r.pieces == pieces && r.initialState == null
          invariant forall yy, xx :: 0 <= yy < y && 0 <= xx < width ==> r.barriers[yy, xx] == barriers[yy, xx]
          invariant forall xx :: 0 <= xx < x ==> r.barriers[y, xx] == barriers[y, xx]
        {
          r.barriers[y, x] := barriers[y, x];
        }
      }
      CellsOfEqual(r.barriers, barriers);
    }

    /** Keeps a deep copy of the current state for reset. */
    method SaveInitialState()
      requires Valid()
      modifies this
      ensures Valid() && pieces == old(pieces)
      ensures initialState != null && fresh(initialState)
      ensures initialState.pieces == pieces && initialState.Grid() == Grid()
      ensures initialState.initialState == null
    {
      initialState := Copy();
    }

    /**
     * Restores the saved pieces and barriers; without a snapshot nothing
     * changes.
     */
    method Reset()
      requires Valid()
      modifies this, barriers
      ensures Valid() && initialState == old(initialState)
      ensures old(initialState) != null ==>
        pieces == old(initialState.pieces) && Grid() == old(initialState.Grid())
      ensures old(initialState) == null ==> pieces == old(pieces) && unchanged(barriers)
    {
      if initialState != null {
        var src := initialState;
        pieces := [];
        for k := 0 to |src.pieces|
          invariant initialState == src && src.pieces == old(src.pieces)
          invariant pieces == src.pieces[..k]
        {
          var p := src.pieces[k];
          pieces := pieces + [Piece(p.color, p.x, p.y)];
        }
        for y := 0 to height
          invariant initialState == src && pieces == src.pieces
          invariant forall yy, x :: 0 <= yy < y && 0 <= x < width ==> barriers[yy, x] == src.barriers[yy, x]
        {
          for x := 0 to width
            invariant initialState == src && pieces == src.pieces
            invariant forall yy, xx :: 0 <= yy < y && 0 <= xx < width ==> barriers[yy, xx] == src.barriers[yy, xx]
            invariant forall xx :: 0 <= xx < x ==> barriers[y, xx] == src.barriers[y, xx]
          {
            barriers[y, x] := src.barriers[y, x];
          }
        }
        CellsOfEqual(barriers, src.barriers);
      }
    }

    /** canMove for the piece at index i (the source compares piece references; here indices). */
    method CanMove(i: nat, dx: int, dy: int) returns (can: bool)
      requires Valid() && i < |pieces|
      ensures can == Rules.CanMove(Grid(), pieces, i, dx, dy)
    {
      var newX := pieces[i].x + dx;
      var newY := pieces[i].y + dy;
      if newX < 0 || newX >= width || newY < 0 || newY >= height {
        return false;
      }
      if barriers[newY, newX] == 1 {
        return false;
      }
      var k := 0;
      while k < |pieces|
        invariant 0 <= k <= |pieces|
        invariant Blocker(pieces, i, newX, newY, k) == Blocker(pieces, i, newX, newY, 0)
      {
        var other := pieces[k];
        if k != i && other.x == newX && other.y == newY {
          if other.color == pieces[i].color {
            return true;
          } else {
            return false;
          }
        }
        k := k + 1;
      }
      return true;
    }

    /**
     * movePieces: collect the pieces that can move, move them all one cell,
     * and if any moved, recurse and then merge.
     */
    method MovePieces(dx: int, dy: int)
      requires Valid() && IsUnit(dx, dy) && AllInBounds(Grid(), pieces)
      modifies this
      ensures Valid() && initialState == old(initialState)
      ensures pieces == Move(Grid(), old(pieces), dx, dy)
      decreases Distance(Grid(), pieces, dx, dy)
    {
      ghost var before := pieces;
      var movable := MovableIndices(dx, dy);
      StepAll(movable, dx, dy);
      if |movable| == 0 {
        NothingMoves(Grid(), before, dx, dy);
        return;
      }
      assert Rules.CanMove(Grid(), before, movable[0], dx, dy);
      StepProgress(Grid(), before, dx, dy);
      MovePieces(dx, dy);
      MergePieces();
    }

    /** The first loop of movePieces: the indices, in order, of the pieces that can move. */
    method MovableIndices(dx: int, dy: int) returns (movable: seq<nat>)
      requires Valid()
      ensures forall m :: 0 <= m < |movable| ==> movable[m] < |pieces|
      ensures forall a, b :: 0 <= a < b < |movable| ==> movable[a] < movable[b]
      ensures forall j :: 0 <= j < |pieces| ==> (Rules.CanMove(Grid(), pieces, j, dx, dy) <==> j in movable)
    {
      movable := [];
      var k := 0;
      while k < |pieces|
        invariant 0 <= k <= |pieces|
        invariant forall m :: 0 <= m < |movable| ==> movable[m] < k
        invariant forall a, b :: 0 <= a < b < |movable| ==> movable[a] < movable[b]
        invariant forall j :: 0 <= j < k ==> (Rules.CanMove(Grid(), pieces, j, dx, dy) <==> j in movable)
      {
        var can := CanMove(k, dx, dy);
        if can {
          movable := movable + [k];
        }
        k := k + 1;
      }
    }

    /**
     * The second loop of movePieces: each collected piece steps by (dx, dy),
     * x first and then y, which together is one synchronous step.
     */
    method StepAll(movable: seq<nat>, dx: int, dy: int)
      requires Valid()
      requires forall m :: 0 <= m < |movable| ==> movable[m] < |pieces|
      requires forall a, b :: 0 <= a < b < |movable| ==> movable[a] < movable[b]
      requires forall j :: 0 <= j < |pieces| ==> (Rules.CanMove(Grid(), pieces, j, dx, dy) <==> j in movable)
      modifies this
      ensures Valid() && initialState == old(initialState)
      ensures pieces == Step(Grid(), old(pieces), dx, dy)
    {
      ghost var before := pieces;
      for m := 0 to |movable|
        invariant Valid() && initialState == old(initialState)
        invariant |pieces| == |before|
        invariant forall j :: 0 <= j < |before| ==>
          pieces[j] == if j in movable[..m] then Shift(before[j], dx, dy) else before[j]
      {
        var j := movable[m];
        assert j !in movable[..m];
        pieces := pieces[j := pieces[j].(x := pieces[j].x + dx)];
        pieces := pieces[j := pieces[j].(y := pieces[j].y + dy)];
        assert movable[..m + 1] == movable[..m] + [j];
      }
      assert movable[..|movable|] == movable;
    }

    /** mergePieces: delete the later of the first identical pair, until there is none. */
    method MergePieces()
      modifies this
      ensures pieces == Merge(old(pieces)) && initialState == old(initialState)
    {
      ghost var original := pieces;
      var merged := true;
      while merged
        invariant Dedup(pieces) == Dedup(original)
        invariant !merged ==> NoDup(pieces)
        invariant initialState == old(initialState)
        decreases |pieces| + (if merged then 1 else 0)
      {
        merged := false;
        ghost var start := pieces;
        var i := 0;
        while i < |pieces|
          invariant pieces == start && initialState == old(initialState)
          invariant 0 <= i <= |pieces| && !merged
          invariant forall a, b :: 0 <= a < i && a < b < |pieces| ==> pieces[a] != pieces[b]
        {
          var j := i + 1;
          while j < |pieces|
            invariant pieces == start && initialState == old(initialState)
            invariant i + 1 <= j <= |pieces| && !merged
            invariant forall b :: i < b < j ==> pieces[i] != pieces[b]
          {
            var p1 := pieces[i];
            var p2 := pieces[j];
            if p1.color == p2.color && p1.x == p2.x && p1.y == p2.y {
              assert pieces[j] in pieces[..j] by { assert pieces[..j][i] == pieces[j]; }
              DedupRemoveRepeat(pieces, {}, j);
              pieces := RemoveAt(pieces, j);
              merged := true;
              break;
            }
            j := j + 1;
          }
          if merged {
            break;
          }
          i := i + 1;
        }
      }
      MergeIsDedup(original);
      DedupOfNoDup(pieces, {});
    }

    /**
     * isGameComplete: count the pieces of each colour, then check no count
     * exceeds one.  The counted colours are visited in the order they were
     * first seen (the source walks the map's values in hash order; the answer
     * does not depend on the order).
     */
    method IsGameComplete() returns (complete: bool)
      ensures complete == Complete(pieces)
    {
      var colorCount: map<int, int> := map[];
      var colors: seq<int> := [];
      for k := 0 to |pieces|
        invariant forall c :: c in colorCount <==> c in colors
        invariant forall n :: 0 <= n < |colors| ==> colors[n] in colorCount
        invariant forall c :: c in colorCount ==> colorCount[c] == ColorCount(pieces[..k], c)
        invariant forall c :: c !in colorCount ==> ColorCount(pieces[..k], c) == 0
      {
        var color := pieces[k].color;
        assert pieces[..k + 1][..k] == pieces[..k];
        if color !in colorCount {
          colors := colors + [color];
        }
        colorCount := colorCount[color := (if color in colorCount then colorCount[color] else 0) + 1];
      }
      assert pieces[..|pieces|] == pieces;
      CompleteIffCountsAtMostOne(pieces);
      for m := 0 to |colors|
        invariant forall n :: 0 <= n < m ==> colorCount[colors[n]] <= 1
      {
        if colorCount[colors[m]] > 1 {
          assert ColorCount(pieces, colors[m]) > 1;
          return false;
        }
      }
      forall c ensures ColorCount(pieces, c) <= 1 {
        if c in colors {
          var n :| 0 <= n < |colors| && colors[n] == c;
        }
      }
      return true;
    }
  }
}
