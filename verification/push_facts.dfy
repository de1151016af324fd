/**
 * What a push guarantees: pieces stay on open cells, a cell never holds two
 * colours, merging once is enough, a push reaches a fixed point (so pushing
 * twice is pushing once), pieces only advance along the push, and the result
 * depends only on which pieces are present, not on their order in the list.
 */
module Pushes {
  import opened Pieces
  import opened Merging
  import opened Rules

  /** Whether piece p may enter the next cell, judged only by the pieces present in ps. */
  predicate Enterable(g: Grid, ps: seq<Piece>, p: Piece, dx: int, dy: int)
    requires g.Valid()
  {
    g.Open(p.x + dx, p.y + dy) &&
    forall q :: q in ps && At(q, p.x + dx, p.y + dy) ==> q.color == p.color
  }

  /** The colours present. */
  function ColorsOf(ps: seq<Piece>): set<int>
  {
    set p | p in ps :: p.color
  }

  /**
   * While each cell holds one colour, "the first other piece on the target has
   * my colour" is the same as "no piece of another colour is on the target".
   */
  lemma CanMoveEnterable(g: Grid, ps: seq<Piece>, i: nat, dx: int, dy: int)
    requires g.Valid() && IsUnit(dx, dy) && i < |ps| && OneColorPerCell(ps)
    ensures CanMove(g, ps, i, dx, dy) <==> Enterable(g, ps, ps[i], dx, dy)
  {
    if CanMove(g, ps, i, dx, dy) {
      CanMoveThenEnterable(g, ps, i, dx, dy);
    }
    if Enterable(g, ps, ps[i], dx, dy) {
      EnterableThenCanMove(g, ps, i, dx, dy);
    }
  }

  /** A piece that can move finds only its own colour on the target cell. */
  lemma CanMoveThenEnterable(g: Grid, ps: seq<Piece>, i: nat, dx: int, dy: int)
    requires g.Valid() && IsUnit(dx, dy) && i < |ps| && OneColorPerCell(ps) && CanMove(g, ps, i, dx, dy)
    ensures Enterable(g, ps, ps[i], dx, dy)
  {
    var tx, ty := ps[i].x + dx, ps[i].y + dy;
    forall q | q in ps && At(q, tx, ty) ensures q.color == ps[i].color {
      var j :| 0 <= j < |ps| && ps[j] == q;
      var b := Blocker(ps, i, tx, ty, 0);
      assert b.Some?;
      assert FirstOtherAt(ps, i, b.value, tx, ty);
      assert ps[b.value] in ps && Stackable(ps[b.value], q);
    }
  }

  /** A piece that finds only its own colour on an open target cell can move. */
  lemma EnterableThenCanMove(g: Grid, ps: seq<Piece>, i: nat, dx: int, dy: int)
    requires g.Valid() && i < |ps| && Enterable(g, ps, ps[i], dx, dy)
    ensures CanMove(g, ps, i, dx, dy)
  {
    var tx, ty := ps[i].x + dx, ps[i].y + dy;
    forall j | FirstOtherAt(ps, i, j, tx, ty) ensures ps[j].color == ps[i].color {
      assert ps[j] in ps;
    }
  }

  /** A step keeps every piece on an open cell. */
  lemma StepKeepsOpen(g: Grid, ps: seq<Piece>, dx: int, dy: int)
    requires g.Valid() && AllOpen(g, ps)
    ensures AllOpen(g, Step(g, ps, dx, dy))
  {
    var s := Step(g, ps, dx, dy);
    forall p | p in s ensures g.Open(p.x, p.y) {
      var i :| 0 <= i < |s| && s[i] == p;
      StepOpenAt(g, ps, i, dx, dy);
    }
  }

  /** The piece at index i after a step is on an open cell. */
  lemma StepOpenAt(g: Grid, ps: seq<Piece>, i: int, dx: int, dy: int)
    requires g.Valid() && AllOpen(g, ps) && 0 <= i < |ps|
    ensures g.Open(Step(g, ps, dx, dy)[i].x, Step(g, ps, dx, dy)[i].y)
  {
    assert ps[i] in ps;
  }

  /**
   * A step keeps "one colour per cell": a differently coloured occupant always
   * blocks, and the pieces move together from one snapshot.
   */
  lemma StepKeepsOneColor(g: Grid, ps: seq<Piece>, dx: int, dy: int)
    requires g.Valid() && IsUnit(dx, dy) && OneColorPerCell(ps)
    ensures OneColorPerCell(Step(g, ps, dx, dy))
  {
    var s := Step(g, ps, dx, dy);
    forall p, q | p in s && q in s && p.x == q.x && p.y == q.y ensures p.color == q.color {
      var i :| 0 <= i < |s| && s[i] == p;
      var j :| 0 <= j < |s| && s[j] == q;
      StepColorsAt(g, ps, i, j, dx, dy);
    }
  }

  /** The pieces at indices i and j after a step, if on one cell, have one colour. */
  lemma StepColorsAt(g: Grid, ps: seq<Piece>, i: int, j: int, dx: int, dy: int)
    requires g.Valid() && IsUnit(dx, dy) && OneColorPerCell(ps) && 0 <= i < |ps| && 0 <= j < |ps|
    requires At(Step(g, ps, dx, dy)[i], Step(g, ps, dx, dy)[j].x, Step(g, ps, dx, dy)[j].y)
    ensures Step(g, ps, dx, dy)[i].color == Step(g, ps, dx, dy)[j].color
  {
    assert ps[i] in ps && ps[j] in ps && Stackable(ps[i], ps[j]);
    CanMoveEnterable(g, ps, i, dx, dy);
    CanMoveEnterable(g, ps, j, dx, dy);
  }

  /** The unmerged slide keeps pieces on open cells with one colour per cell. */
  lemma {:induction false} SlideKeepsInvariant(g: Grid, ps: seq<Piece>, dx: int, dy: int)
    requires g.Valid() && IsUnit(dx, dy) && AllOpen(g, ps) && OneColorPerCell(ps)
    ensures AllOpen(g, Slide(g, ps, dx, dy)) && OneColorPerCell(Slide(g, ps, dx, dy))
    decreases Distance(g, ps, dx, dy)
  {
    if AnyMovable(g, ps, dx, dy) {
      StepProgress(g, ps, dx, dy);
      StepKeepsOpen(g, ps, dx, dy);
      StepKeepsOneColor(g, ps, dx, dy);
      SlideKeepsInvariant(g, Step(g, ps, dx, dy), dx, dy);
    }
  }

  /**
   * movePieces merges once per level of its recursion; since merging is
   * idempotent this is the same as sliding to the end and merging once.
   */
  lemma {:induction false} MoveIsMergedSlide(g: Grid, ps: seq<Piece>, dx: int, dy: int)
    requires g.Valid() && IsUnit(dx, dy) && AllInBounds(g, ps)
    ensures Move(g, ps, dx, dy) ==
      if AnyMovable(g, ps, dx, dy) then Merge(Slide(g, ps, dx, dy)) else ps
    decreases Distance(g, ps, dx, dy)
  {
    if AnyMovable(g, ps, dx, dy) {
      var s := Step(g, ps, dx, dy);
      StepProgress(g, ps, dx, dy);
      MoveIsMergedSlide(g, s, dx, dy);
      if AnyMovable(g, s, dx, dy) {
        MergeIdempotent(Slide(g, s, dx, dy));
      }
    }
  }

  /** A push keeps the configuration invariant: open cells, one colour per cell, no duplicates. */
  lemma MovePreservesSane(g: Grid, ps: seq<Piece>, dx: int, dy: int)
    requires g.Valid() && IsUnit(dx, dy) && Sane(g, ps)
    ensures Sane(g, Move(g, ps, dx, dy))
  {
    MoveIsMergedSlide(g, ps, dx, dy);
    if AnyMovable(g, ps, dx, dy) {
      SlideKeepsInvariant(g, ps, dx, dy);
    }
  }

  /** With one colour per cell, whether anything can move depends only on the pieces present. */
  lemma AnyMovableByMembers(g: Grid, a: seq<Piece>, b: seq<Piece>, dx: int, dy: int)
    requires g.Valid() && IsUnit(dx, dy) && OneColorPerCell(a) && OneColorPerCell(b)
    requires SameMembers(a, b)
    ensures AnyMovable(g, a, dx, dy) ==> AnyMovable(g, b, dx, dy)
  {
    if AnyMovable(g, a, dx, dy) {
      var i :| 0 <= i < |a| && CanMove(g, a, i, dx, dy);
      CanMoveEnterable(g, a, i, dx, dy);
      assert a[i] in b;
      var j :| 0 <= j < |b| && b[j] == a[i];
      EnterableByMembers(g, a, b, a[i], dx, dy);
      CanMoveEnterable(g, b, j, dx, dy);
    }
  }

  /** Whether a piece may enter the next cell depends only on which pieces are present. */
  lemma EnterableByMembers(g: Grid, a: seq<Piece>, b: seq<Piece>, p: Piece, dx: int, dy: int)
    requires g.Valid() && SameMembers(a, b)
    ensures Enterable(g, a, p, dx, dy) == Enterable(g, b, p, dx, dy)
  {
  }

  /** After a push no piece can move in that direction any more. */
  lemma MoveFixedPoint(g: Grid, ps: seq<Piece>, dx: int, dy: int)
    requires g.Valid() && IsUnit(dx, dy) && AllInBounds(g, ps) && OneColorPerCell(ps)
    ensures !AnyMovable(g, Move(g, ps, dx, dy), dx, dy)
  {
    MoveIsMergedSlide(g, ps, dx, dy);
    if AnyMovable(g, ps, dx, dy) {
      var s := Slide(g, ps, dx, dy);
      SlideOneColor(g, ps, dx, dy);
      AnyMovableByMembers(g, Merge(s), s, dx, dy);
    }
  }

  /** The slide keeps one colour per cell (pieces only need to be in bounds). */
  lemma {:induction false} SlideOneColor(g: Grid, ps: seq<Piece>, dx: int, dy: int)
    requires g.Valid() && IsUnit(dx, dy) && AllInBounds(g, ps) && OneColorPerCell(ps)
    ensures OneColorPerCell(Slide(g, ps, dx, dy))
    decreases Distance(g, ps, dx, dy)
  {
    if AnyMovable(g, ps, dx, dy) {
      StepProgress(g, ps, dx, dy);
      StepKeepsOneColor(g, ps, dx, dy);
      SlideOneColor(g, Step(g, ps, dx, dy), dx, dy);
    }
  }

  /** Pushing twice in the same direction is pushing once. */
  lemma MoveTwice(g: Grid, ps: seq<Piece>, dx: int, dy: int)
    requires g.Valid() && IsUnit(dx, dy) && AllInBounds(g, ps) && OneColorPerCell(ps)
    ensures Move(g, Move(g, ps, dx, dy), dx, dy) == Move(g, ps, dx, dy)
  {
    MoveFixedPoint(g, ps, dx, dy);
  }

  /** Index-wise advancement, followed by a merge, gives advancement between the sets of pieces. */
  lemma TracksThroughMerge(ps: seq<Piece>, s: seq<Piece>, r: seq<Piece>, dx: int, dy: int)
    requires |s| == |ps| && forall i :: 0 <= i < |ps| ==> Advanced(ps[i], s[i], dx, dy)
    requires SameMembers(r, s)
    ensures forall p :: p in ps ==> exists q :: q in r && Advanced(p, q, dx, dy)
    ensures forall q :: q in r ==> exists p :: p in ps && Advanced(p, q, dx, dy)
  {
    forall p | p in ps ensures exists q :: q in r && Advanced(p, q, dx, dy) {
      var i :| 0 <= i < |ps| && ps[i] == p;
      assert s[i] in s;
    }
    forall q | q in r ensures exists p :: p in ps && Advanced(p, q, dx, dy) {
      var i :| 0 <= i < |s| && s[i] == q;
      assert ps[i] in ps;
    }
  }

  /**
   * Every piece ends up somewhere ahead of where it was, with its colour and
   * cross coordinate, and every resulting piece came from such a piece.
   */
  lemma MoveTracksPieces(g: Grid, ps: seq<Piece>, dx: int, dy: int)
    requires g.Valid() && IsUnit(dx, dy) && AllInBounds(g, ps)
    ensures forall p :: p in ps ==> exists q :: q in Move(g, ps, dx, dy) && Advanced(p, q, dx, dy)
    ensures forall q :: q in Move(g, ps, dx, dy) ==> exists p :: p in ps && Advanced(p, q, dx, dy)
  {
    MoveIsMergedSlide(g, ps, dx, dy);
    if AnyMovable(g, ps, dx, dy) {
      TracksThroughMerge(ps, Slide(g, ps, dx, dy), Move(g, ps, dx, dy), dx, dy);
    } else {
      TracksThroughMerge(ps, ps, ps, dx, dy);
    }
  }

  /** Advancement keeps colours, so sets of pieces related by it have the same colours. */
  lemma ColorsFromTracks(ps: seq<Piece>, r: seq<Piece>, dx: int, dy: int)
    requires forall p :: p in ps ==> exists q :: q in r && Advanced(p, q, dx, dy)
    requires forall q :: q in r ==> exists p :: p in ps && Advanced(p, q, dx, dy)
    ensures ColorsOf(r) == ColorsOf(ps)
  {
    ColorsReached(ps, r, dx, dy);
    ColorsKept(ps, r, dx, dy);
  }

  /** Each piece advanced from ps has a colour of ps. */
  lemma ColorsReached(ps: seq<Piece>, r: seq<Piece>, dx: int, dy: int)
    requires forall q :: q in r ==> exists p :: p in ps && Advanced(p, q, dx, dy)
    ensures ColorsOf(r) <= ColorsOf(ps)
  {
    forall c | c in ColorsOf(r) ensures c in ColorsOf(ps) {
      var q :| q in r && q.color == c;
      var p :| p in ps && Advanced(p, q, dx, dy);
      ColorOfMember(ps, p);
    }
  }

  /** Each piece of ps advances to one in r, of its colour. */
  lemma ColorsKept(ps: seq<Piece>, r: seq<Piece>, dx: int, dy: int)
    requires forall p :: p in ps ==> exists q :: q in r && Advanced(p, q, dx, dy)
    ensures ColorsOf(ps) <= ColorsOf(r)
  {
    forall c | c in ColorsOf(ps) ensures c in ColorsOf(r) {
      var p :| p in ps && p.color == c;
      var q :| q in r && Advanced(p, q, dx, dy);
      ColorOfMember(r, q);
    }
  }

  /** A present piece's colour is among the colours present. */
  lemma ColorOfMember(ps: seq<Piece>, p: Piece)
    requires p in ps
    ensures p.color in ColorsOf(ps)
  {
  }

  /** A push never changes the set of colours present. */
  lemma MoveKeepsColors(g: Grid, ps: seq<Piece>, dx: int, dy: int)
    requires g.Valid() && IsUnit(dx, dy) && AllInBounds(g, ps)
    ensures ColorsOf(Move(g, ps, dx, dy)) == ColorsOf(ps)
  {
    MoveTracksPieces(g, ps, dx, dy);
    ColorsFromTracks(ps, Move(g, ps, dx, dy), dx, dy);
  }

  /** Pieces present after a step, from the pieces present before it. */
  lemma StepMembers(g: Grid, a: seq<Piece>, b: seq<Piece>, dx: int, dy: int)
    requires g.Valid() && IsUnit(dx, dy) && OneColorPerCell(a) && OneColorPerCell(b)
    requires SameMembers(a, b)
    ensures forall p :: p in Step(g, a, dx, dy) ==> p in Step(g, b, dx, dy)
  {
    var sa := Step(g, a, dx, dy);
    forall p | p in sa ensures p in Step(g, b, dx, dy) {
      var i :| 0 <= i < |sa| && sa[i] == p;
      StepMemberAt(g, a, b, i, dx, dy);
    }
  }

  /** The piece at index i after a step of a is present after a step of b. */
  lemma StepMemberAt(g: Grid, a: seq<Piece>, b: seq<Piece>, i: int, dx: int, dy: int)
    requires g.Valid() && IsUnit(dx, dy) && OneColorPerCell(a) && OneColorPerCell(b)
    requires SameMembers(a, b) && 0 <= i < |a|
    ensures Step(g, a, dx, dy)[i] in Step(g, b, dx, dy)
  {
    assert a[i] in b;
    var j :| 0 <= j < |b| && b[j] == a[i];
    CanMoveEnterable(g, a, i, dx, dy);
    CanMoveEnterable(g, b, j, dx, dy);
    EnterableByMembers(g, a, b, a[i], dx, dy);
    assert Step(g, b, dx, dy)[j] == Step(g, a, dx, dy)[i];
  }

  /**
   * A push gives the same pieces whatever the order of the list: the result
   * depends only on which pieces are present.  This is what makes it sound for
   * the searches to identify configurations by a sorted key.
   */
  lemma {:induction false} MoveRespectsMembers(g: Grid, a: seq<Piece>, b: seq<Piece>, dx: int, dy: int)
    requires g.Valid() && IsUnit(dx, dy)
    requires AllInBounds(g, a) && AllInBounds(g, b) && OneColorPerCell(a) && OneColorPerCell(b)
    requires SameMembers(a, b)
    ensures SameMembers(Move(g, a, dx, dy), Move(g, b, dx, dy))
    decreases Distance(g, a, dx, dy)
  {
    AnyMovableByMembers(g, a, b, dx, dy);
    AnyMovableByMembers(g, b, a, dx, dy);
    if AnyMovable(g, a, dx, dy) {
      var sa, sb := Step(g, a, dx, dy), Step(g, b, dx, dy);
      StepProgress(g, a, dx, dy);
      StepProgress(g, b, dx, dy);
      StepMembers(g, a, b, dx, dy);
      StepMembers(g, b, a, dx, dy);
      StepKeepsOneColor(g, a, dx, dy);
      StepKeepsOneColor(g, b, dx, dy);
      MoveRespectsMembers(g, sa, sb, dx, dy);
    }
  }
}
