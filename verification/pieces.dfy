/**
 * Pieces of the stacking puzzle.
 *
 * A piece has a colour and a cell (x, y).  The game engine keeps pieces as
 * values (`Piece`); `ColoredPiece` is the mutable object the source uses,
 * whose colour is fixed at construction and whose coordinates are updated in
 * place.
 */
module Pieces {

  datatype Option<T> = None | Some(value: T)

  /** The value of a piece: its colour and the cell it occupies. */
  datatype Piece = Piece(color: int, x: int, y: int)

  /** A piece object: the colour never changes, the coordinates are updated in place. */
  class ColoredPiece {
    const color: int
    var x: int
    var y: int

    /** The value currently held by this object. */
    function Value(): Piece
      reads this
    {
      Piece(color, x, y)
    }

    constructor (color: int, x: int, y: int)
      ensures Value() == Piece(color, x, y)
    {
      this.color := color;
      this.x := x;
      this.y := y;
    }

    method GetColor() returns (c: int)
      ensures c == Value().color
    {
      c := color;
    }

    method GetX() returns (r: int)
      ensures r == Value().x
    {
      r := x;
    }

    method GetY() returns (r: int)
      ensures r == Value().y
    {
      r := y;
    }

    /** Moves the piece horizontally; its colour and row stay as they were. */
    method SetX(x: int)
      modifies this
      ensures Value() == old(Value()).(x := x)
    {
      this.x := x;
    }

    /** Moves the piece vertically; its colour and column stay as they were. */
    method SetY(y: int)
      modifies this
      ensures Value() == old(Value()).(y := y)
    {
      this.y := y;
    }

    /** Shifting a piece by (dx, dy) with the two setters, as a push does, keeps its colour. */
    method Shift(dx: int, dy: int)
      modifies this
      ensures Value() == Piece(color, old(x) + dx, old(y) + dy)
    {
      var nx := GetX();
      SetX(nx + dx);
      var ny := GetY();
      SetY(ny + dy);
    }
  }
}
