/**
 * The finite set of keys a search can meet.  Every state reachable from a
 * board has its pieces on cells of the board, in the colours it started with,
 * without duplicates; so its key is the key of some subset of the finitely
 * many (colour, cell) pieces.  The searches use this set to bound their
 * visited sets.
 */
module Universe {
  import opened Pieces
  import opened Merging
  import opened Rules
  import opened Keys
  import opened Pushes

  /** A non-empty set has an element. */
  lemma NonEmpty<T>(s: set<T>)
    requires s != {}
    ensures exists x :: x in s
  {
    assert (forall x :: x !in s) ==> s == {};
  }

  /** Every piece of one of the colours on a cell of the board. */
  function PieceUniverse(g: Grid, colors: set<int>): (r: set<Piece>)
    ensures forall p :: p in r <==> p.color in colors && g.InBounds(p.x, p.y)
  {
    set c, x, y | c in colors && 0 <= x < g.width && 0 <= y < g.height :: Piece(c, x, y)
  }

  /** Some duplicate-free list of the pieces of a finite set. */
  ghost function ListOf(s: set<Piece>): (r: seq<Piece>)
    ensures NoDup(r) && forall p :: p in r <==> p in s
    decreases s
  {
    if s == {} then []
    else
      NonEmpty(s);
      var p :| p in s;
      var t := ListOf(s - {p});
      assert forall i :: 0 <= i < |t| ==> t[i] != p by {
        forall i | 0 <= i < |t| ensures t[i] != p {
          assert t[i] in t;
        }
      }
      [p] + t
  }

  /**
   * The keys of the lists made of the pieces of chosen followed by any
   * selection, in order, of the pieces of rest.
   */
  ghost function KeysFrom(rest: seq<Piece>, chosen: seq<Piece>): set<string>
    decreases |rest|
  {
    if rest == [] then {Key(chosen)}
    else KeysFrom(rest[1..], chosen) + KeysFrom(rest[1..], chosen + [rest[0]])
  }

  /** The keys of all sets of pieces of the given colours on the board. */
  ghost function KeyUniverse(g: Grid, colors: set<int>): set<string>
  {
    KeysFrom(ListOf(PieceUniverse(g, colors)), [])
  }

  /**
   * A duplicate-free list holding the pieces of chosen and some pieces of
   * rest has its key among those of KeysFrom(rest, chosen).
   */
  lemma {:induction false} KeysFromContains(rest: seq<Piece>, chosen: seq<Piece>, ps: seq<Piece>)
    requires NoDup(ps) && NoDup(chosen) && NoDup(rest)
    requires forall p :: p in chosen ==> p !in rest
    requires forall p :: p in chosen ==> p in ps
    requires forall p :: p in ps ==> p in chosen || p in rest
    ensures Key(ps) in KeysFrom(rest, chosen)
    decreases |rest|
  {
    if rest == [] {
      KeyOfSameMembers(ps, chosen);
    } else {
      var x := rest[0];
      assert rest == [x] + rest[1..];
      if x in ps {
        var c := chosen + [x];
        assert forall i, j :: 0 <= i < j < |c| ==> c[i] != c[j] by {
          forall i, j | 0 <= i < j < |c| ensures c[i] != c[j] {
            if j == |chosen| {
              assert c[i] in chosen;
            }
          }
        }
        KeysFromContains(rest[1..], c, ps);
      } else {
        KeysFromContains(rest[1..], chosen, ps);
      }
    }
  }

  /** A duplicate-free in-bounds list in those colours has its key in the universe. */
  lemma KeyInUniverse(g: Grid, colors: set<int>, ps: seq<Piece>)
    requires AllInBounds(g, ps) && NoDup(ps) && ColorsOf(ps) <= colors
    ensures Key(ps) in KeyUniverse(g, colors)
  {
    var u := PieceUniverse(g, colors);
    forall p | p in ps ensures p in u {
      assert p.color in ColorsOf(ps);
    }
    KeysFromContains(ListOf(u), [], ps);
  }

  /** Removing a middle set splits the difference. */
  lemma DifferenceSplit<T>(v: set<T>, m: set<T>, a: set<T>)
    requires v <= m <= a
    ensures |a - v| == |m - v| + |a - m|
  {
    assert a - v == (m - v) + (a - m);
    assert (m - v) * (a - m) == {};
  }
}
