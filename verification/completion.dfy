/**
 * The end condition of the puzzle: no colour occurs on more than one piece.
 */
module Completion {
  import opened Pieces
  import opened Merging

  /** No two pieces have the same colour; a board with at most one piece is complete. */
  predicate Complete(ps: seq<Piece>)
    ensures |ps| <= 1 ==> Complete(ps)
  {
    forall i, j :: 0 <= i < j < |ps| ==> ps[i].color != ps[j].color
  }

  /**
   * The number of pieces of colour c, counted left to right as
   * isGameComplete does.  It never exceeds the number of pieces.
   */
  function ColorCount(ps: seq<Piece>, c: int): (r: nat)
    ensures r <= |ps|
  {
    if ps == [] then 0
    else ColorCount(ps[..|ps| - 1], c) + (if ps[|ps| - 1].color == c then 1 else 0)
  }

  /** A colour is counted iff some piece has it. */
  lemma {:induction false} ColorCountPositive(ps: seq<Piece>, c: int)
    ensures ColorCount(ps, c) > 0 <==> exists k :: 0 <= k < |ps| && ps[k].color == c
  {
    if ps != [] {
      var init := ps[..|ps| - 1];
      ColorCountPositive(init, c);
      if exists k :: 0 <= k < |init| && init[k].color == c {
        var k :| 0 <= k < |init| && init[k].color == c;
        assert ps[k].color == c;
      }
      if exists k :: 0 <= k < |ps| && ps[k].color == c {
        var k :| 0 <= k < |ps| && ps[k].color == c;
        if k < |init| { assert init[k].color == c; }
      }
    }
  }

  /** isGameComplete's test: complete iff every colour is counted at most once. */
  lemma {:induction false} CompleteIffCountsAtMostOne(ps: seq<Piece>)
    ensures Complete(ps) <==> forall c :: ColorCount(ps, c) <= 1
  {
    if ps != [] {
      var init, last := ps[..|ps| - 1], ps[|ps| - 1];
      CompleteIffCountsAtMostOne(init);
      ColorCountPositive(init, last.color);
      if Complete(ps) {
        assert Complete(init) by {
          forall i, j | 0 <= i < j < |init| ensures init[i].color != init[j].color {
            assert init[i] == ps[i] && init[j] == ps[j];
          }
        }
        forall k | 0 <= k < |init| ensures init[k].color != last.color {
          assert init[k] == ps[k];
        }
        forall c ensures ColorCount(ps, c) <= 1 {
          assert ColorCount(ps, c) == ColorCount(init, c) + (if last.color == c then 1 else 0);
          assert ColorCount(init, c) <= 1;
          if c == last.color {
            assert !exists k :: 0 <= k < |init| && init[k].color == c;
          }
        }
      } else {
        var i, j :| 0 <= i < j < |ps| && ps[i].color == ps[j].color;
        if j < |init| {
          assert init[i] == ps[i] && init[j] == ps[j];
          var c :| ColorCount(init, c) > 1;
          assert ColorCount(ps, c) > 1;
        } else {
          assert init[i].color == last.color;
          assert ColorCount(ps, last.color) > 1;
        }
      }
    }
  }

  /** Between duplicate-free lists with the same pieces, completeness agrees. */
  lemma CompleteByMembers(a: seq<Piece>, b: seq<Piece>)
    requires NoDup(a) && NoDup(b) && SameMembers(a, b)
    ensures Complete(a) ==> Complete(b)
  {
    if Complete(a) {
      forall i, j | 0 <= i < j < |b| ensures b[i].color != b[j].color {
        assert b[i] in a && b[j] in a;
        var i' :| 0 <= i' < |a| && a[i'] == b[i];
        var j' :| 0 <= j' < |a| && a[j'] == b[j];
        assert b[i] != b[j];
        assert i' != j';
      }
    }
  }
}
