/**
 * The transition rules of a push.
 *
 * A push in direction (dx, dy) moves, simultaneously, every piece that can
 * step one cell that way, and repeats until no piece can; on the way back out
 * of the recursion the pieces are merged.  `Move` is that operation as the
 * source writes it; `Slide` is the same recursion without the merges.
 */
module Rules {
  import opened Pieces
  import opened Merging

  /** The board: its size and the barrier grid, indexed cells[y][x]. */
  datatype Grid = Grid(width: int, height: int, cells: seq<seq<int>>)
  {
    predicate Valid()
    {
      0 <= width && |cells| == height &&
      forall y :: 0 <= y < |cells| ==> |cells[y]| == width
    }

    predicate InBounds(x: int, y: int)
    {
      0 <= x < width && 0 <= y < height
    }

    /** In bounds and not a barrier (a barrier cell holds 1). */
    predicate Open(x: int, y: int)
      requires Valid()
    {
      InBounds(x, y) && cells[y][x] != 1
    }
  }

  /** One of the four unit moves. */
  predicate IsUnit(dx: int, dy: int)
  {
    (dx == 0 && (dy == 1 || dy == -1)) || (dy == 0 && (dx == 1 || dx == -1))
  }

  predicate At(p: Piece, x: int, y: int)
  {
    p.x == x && p.y == y
  }

  function Shift(p: Piece, dx: int, dy: int): Piece
  {
    Piece(p.color, p.x + dx, p.y + dy)
  }

  /** j is the first index other than i, in list order, whose piece lies on (x, y). */
  predicate FirstOtherAt(ps: seq<Piece>, i: int, j: int, x: int, y: int)
  {
    0 <= j < |ps| && j != i && At(ps[j], x, y) &&
    forall k :: 0 <= k < j && k != i ==> !At(ps[k], x, y)
  }

  /** The scan of canMove over the piece list, from index k on. */
  function Blocker(ps: seq<Piece>, i: nat, x: int, y: int, k: nat): (r: Option<nat>)
    requires k <= |ps|
    decreases |ps| - k
    ensures r.Some? ==> (k <= r.value < |ps| && r.value != i && At(ps[r.value], x, y) &&
      forall j :: k <= j < r.value && j != i ==> !At(ps[j], x, y))
    ensures r.None? ==> forall j :: k <= j < |ps| && j != i ==> !At(ps[j], x, y)
  {
    if k == |ps| then None
    else if k != i && At(ps[k], x, y) then Some(k)
    else Blocker(ps, i, x, y, k + 1)
  }

  /**
   * canMove: piece i may step by (dx, dy) iff the target is in bounds, is not
   * a barrier, and the first other piece on it (if any) has the same colour.
   */
  function CanMove(g: Grid, ps: seq<Piece>, i: nat, dx: int, dy: int): (r: bool)
    requires g.Valid() && i < |ps|
    ensures r <==> (g.Open(ps[i].x + dx, ps[i].y + dy) &&
      forall j :: FirstOtherAt(ps, i, j, ps[i].x + dx, ps[i].y + dy) ==> ps[j].color == ps[i].color)
  {
    var tx, ty := ps[i].x + dx, ps[i].y + dy;
    if !g.InBounds(tx, ty) then false
    else if g.cells[ty][tx] == 1 then false
    else
      match Blocker(ps, i, tx, ty, 0)
      case None => true
      case Some(j) => ps[j].color == ps[i].color
  }

  /**
   * One synchronous step: every piece that can move (judged on `ps`) moves
   * one cell.  Each piece keeps its colour and either stays or advances by
   * (dx, dy), and a piece that moved lands on an open cell.
   */
  function Step(g: Grid, ps: seq<Piece>, dx: int, dy: int): (r: seq<Piece>)
    requires g.Valid()
    ensures |r| == |ps|
    ensures forall i :: 0 <= i < |ps| ==>
      r[i].color == ps[i].color && (r[i] == ps[i] || r[i] == Shift(ps[i], dx, dy))
    ensures forall i :: 0 <= i < |ps| && r[i] != ps[i] ==> g.Open(r[i].x, r[i].y)
  {
    seq(|ps|, i requires 0 <= i < |ps| =>
      if CanMove(g, ps, i, dx, dy) then Shift(ps[i], dx, dy) else ps[i])
  }

  /** Some piece can move; for a unit move, exactly when a step changes the list. */
  predicate AnyMovable(g: Grid, ps: seq<Piece>, dx: int, dy: int)
    requires g.Valid()
    ensures IsUnit(dx, dy) ==> (AnyMovable(g, ps, dx, dy) <==> Step(g, ps, dx, dy) != ps)
  {
    exists i :: 0 <= i < |ps| && CanMove(g, ps, i, dx, dy)
  }

  predicate AllInBounds(g: Grid, ps: seq<Piece>)
  {
    forall p :: p in ps ==> g.InBounds(p.x, p.y)
  }

  predicate AllOpen(g: Grid, ps: seq<Piece>)
    requires g.Valid()
  {
    forall p :: p in ps ==> g.Open(p.x, p.y)
  }

  /** Two pieces on one cell have one colour. */
  predicate Stackable(p: Piece, q: Piece)
  {
    p.x == q.x && p.y == q.y ==> p.color == q.color
  }

  /**
   * Pieces that share a cell have the same colour.  The quantifier fires only
   * on a pair a proof names through Stackable.
   */
  predicate OneColorPerCell(ps: seq<Piece>)
  {
    forall p, q {:trigger Stackable(p, q)} :: p in ps && q in ps ==> Stackable(p, q)
  }

  /** The invariant of every reachable configuration. */
  predicate Sane(g: Grid, ps: seq<Piece>)
    requires g.Valid()
  {
    AllOpen(g, ps) && OneColorPerCell(ps) && NoDup(ps)
  }

  /** Cells a piece still has to travel before it reaches the wall in direction (dx, dy). */
  function Remaining(g: Grid, p: Piece, dx: int, dy: int): nat
    requires g.InBounds(p.x, p.y)
  {
    if dx == 1 then g.width - 1 - p.x
    else if dx == -1 then p.x
    else if dy == 1 then g.height - 1 - p.y
    else if dy == -1 then p.y
    else 0
  }

  /** The termination measure of a push: the sum of the remaining distances. */
  function Distance(g: Grid, ps: seq<Piece>, dx: int, dy: int): nat
    requires AllInBounds(g, ps)
    decreases |ps|
  {
    if ps == [] then 0
    else
      assert forall p :: p in ps[1..] ==> p in ps;
      Remaining(g, ps[0], dx, dy) + Distance(g, ps[1..], dx, dy)
  }

  /** Distance is monotone in the pointwise remaining distances, strictly if one of them is. */
  lemma {:induction false} DistanceCompare(g: Grid, a: seq<Piece>, b: seq<Piece>, dx: int, dy: int)
    requires AllInBounds(g, a) && AllInBounds(g, b) && |a| == |b|
    requires forall i :: 0 <= i < |a| ==> Remaining(g, b[i], dx, dy) <= Remaining(g, a[i], dx, dy)
    ensures Distance(g, b, dx, dy) <= Distance(g, a, dx, dy)
    ensures (exists i :: 0 <= i < |a| && Remaining(g, b[i], dx, dy) < Remaining(g, a[i], dx, dy))
      ==> Distance(g, b, dx, dy) < Distance(g, a, dx, dy)
    decreases |a|
  {
    if a != [] {
      var a', b' := a[1..], b[1..];
      assert forall p :: p in a' ==> p in a;
      assert forall p :: p in b' ==> p in b;
      forall i | 0 <= i < |a'| ensures Remaining(g, b'[i], dx, dy) <= Remaining(g, a'[i], dx, dy) {
        assert a'[i] == a[i + 1] && b'[i] == b[i + 1];
      }
      DistanceCompare(g, a', b', dx, dy);
      assert Distance(g, a, dx, dy) == Remaining(g, a[0], dx, dy) + Distance(g, a', dx, dy);
      assert Distance(g, b, dx, dy) == Remaining(g, b[0], dx, dy) + Distance(g, b', dx, dy);
      if exists i :: 0 <= i < |a| && Remaining(g, b[i], dx, dy) < Remaining(g, a[i], dx, dy) {
        var i :| 0 <= i < |a| && Remaining(g, b[i], dx, dy) < Remaining(g, a[i], dx, dy);
        if i > 0 {
          assert a'[i - 1] == a[i] && b'[i - 1] == b[i];
        }
      }
    }
  }

  /** When no piece can move, a step and a push leave the pieces as they are. */
  lemma NothingMoves(g: Grid, ps: seq<Piece>, dx: int, dy: int)
    requires g.Valid() && IsUnit(dx, dy) && AllInBounds(g, ps) && !AnyMovable(g, ps, dx, dy)
    ensures Step(g, ps, dx, dy) == ps && Move(g, ps, dx, dy) == ps
  {
    assert forall i :: 0 <= i < |ps| ==> Step(g, ps, dx, dy)[i] == ps[i];
  }

  /** A step keeps pieces in bounds, and when some piece moves the measure drops. */
  lemma StepProgress(g: Grid, ps: seq<Piece>, dx: int, dy: int)
    requires g.Valid() && IsUnit(dx, dy) && AllInBounds(g, ps)
    ensures AllInBounds(g, Step(g, ps, dx, dy))
    ensures AnyMovable(g, ps, dx, dy) ==> Distance(g, Step(g, ps, dx, dy), dx, dy) < Distance(g, ps, dx, dy)
  {
    var s := Step(g, ps, dx, dy);
    forall p | p in s ensures g.InBounds(p.x, p.y) {
      var i :| 0 <= i < |s| && s[i] == p;
      assert ps[i] in ps;
    }
    forall i | 0 <= i < |ps|
      ensures Remaining(g, s[i], dx, dy) <= Remaining(g, ps[i], dx, dy)
      ensures CanMove(g, ps, i, dx, dy) ==> Remaining(g, s[i], dx, dy) < Remaining(g, ps[i], dx, dy)
    {
      assert ps[i] in ps;
    }
    DistanceCompare(g, ps, s, dx, dy);
  }

  /** q lies where p could have slid: same colour, same cross coordinate, not behind p. */
  predicate Advanced(p: Piece, q: Piece, dx: int, dy: int)
  {
    q.color == p.color &&
    (if dx > 0 then q.x >= p.x else if dx < 0 then q.x <= p.x else q.x == p.x) &&
    (if dy > 0 then q.y >= p.y else if dy < 0 then q.y <= p.y else q.y == p.y)
  }

  /**
   * The recursion of movePieces without its merges: step until nothing can
   * move.  Pieces keep their index, colour and cross coordinate.
   */
  function Slide(g: Grid, ps: seq<Piece>, dx: int, dy: int): (r: seq<Piece>)
    requires g.Valid() && IsUnit(dx, dy) && AllInBounds(g, ps)
    decreases Distance(g, ps, dx, dy)
    ensures |r| == |ps| && AllInBounds(g, r)
    ensures !AnyMovable(g, r, dx, dy)
    ensures forall i :: 0 <= i < |ps| ==> Advanced(ps[i], r[i], dx, dy)
  {
    if !AnyMovable(g, ps, dx, dy) then ps
    else
      StepProgress(g, ps, dx, dy);
      Slide(g, Step(g, ps, dx, dy), dx, dy)
  }

  /**
   * movePieces as written: if no piece can move, return the list untouched
   * (without merging); otherwise step, recurse, and merge after the recursive
   * call returns.
   */
  function Move(g: Grid, ps: seq<Piece>, dx: int, dy: int): (r: seq<Piece>)
    requires g.Valid() && IsUnit(dx, dy) && AllInBounds(g, ps)
    decreases Distance(g, ps, dx, dy)
    ensures AllInBounds(g, r)
  {
    if !AnyMovable(g, ps, dx, dy) then ps
    else
      StepProgress(g, ps, dx, dy);
      Merge(Move(g, Step(g, ps, dx, dy), dx, dy))
  }
}
