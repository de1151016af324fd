/**
 * The key of a search state: the pieces sorted by (colour, x, y) and written
 * out as decimal text, "color,x,y;" per piece.  Two duplicate-free piece
 * lists have the same key exactly when they hold the same pieces.
 */
module Keys {
  import opened Pieces
  import opened Merging

  /** The comparator of getStateHash: by colour, then x, then y. */
  predicate Less(p: Piece, q: Piece)
  {
    p.color < q.color ||
    (p.color == q.color && (p.x < q.x || (p.x == q.x && p.y < q.y)))
  }

  predicate LessEq(p: Piece, q: Piece)
  {
    p == q || Less(p, q)
  }

  /** Every pair of positions is in order (equal pieces may repeat). */
  predicate Sorted(s: seq<Piece>)
  {
    forall i, j :: 0 <= i < j < |s| ==> LessEq(s[i], s[j])
  }

  /**
   * Inserts p into a list in front of the first piece not smaller than it.
   * The result is one longer (InsertMultiset says with what).
   */
  function Insert(p: Piece, s: seq<Piece>): (r: seq<Piece>)
    ensures |r| == |s| + 1
  {
    if s == [] then [p]
    else if LessEq(p, s[0]) then [p] + s
    else [s[0]] + Insert(p, s[1..])
  }

  /** Inserting adds exactly the one piece. */
  lemma {:induction false} InsertMultiset(p: Piece, s: seq<Piece>)
    ensures multiset(Insert(p, s)) == multiset(s) + multiset{p}
  {
    if s == [] {
      assert Insert(p, s) == [p];
    } else if LessEq(p, s[0]) {
      assert Insert(p, s) == [p] + s;
    } else {
      var t := Insert(p, s[1..]);
      InsertMultiset(p, s[1..]);
      assert Insert(p, s) == [s[0]] + t;
      assert s == [s[0]] + s[1..];
      assert multiset(Insert(p, s)) == multiset{s[0]} + multiset(t);
      assert multiset(s) == multiset{s[0]} + multiset(s[1..]);
    }
  }

  /** Inserting into a sorted list keeps it sorted. */
  lemma {:induction false} InsertSorted(p: Piece, s: seq<Piece>)
    requires Sorted(s)
    ensures Sorted(Insert(p, s))
  {
    if s != [] && !LessEq(p, s[0]) {
      InsertSorted(p, s[1..]);
      InsertHeadBound(p, s);
      ConsSorted(s[0], Insert(p, s[1..]));
    }
  }

  /** Once p goes behind the head of a sorted list, the head is no larger than anything after it. */
  lemma InsertHeadBound(p: Piece, s: seq<Piece>)
    requires Sorted(s) && s != [] && !LessEq(p, s[0])
    ensures forall q :: q in Insert(p, s[1..]) ==> LessEq(s[0], q)
  {
    var t := Insert(p, s[1..]);
    InsertMultiset(p, s[1..]);
    forall q | q in t ensures LessEq(s[0], q) {
      assert q in multiset(t);
      if q != p {
        var k :| 0 <= k < |s[1..]| && s[1..][k] == q;
        assert s[k + 1] == q;
      }
    }
  }

  /** A sorted list stays sorted with a head no larger than any of its pieces. */
  lemma ConsSorted(x: Piece, t: seq<Piece>)
    requires Sorted(t) && forall q :: q in t ==> LessEq(x, q)
    ensures Sorted([x] + t)
  {
    var r := [x] + t;
    forall i, j | 0 <= i < j < |r| ensures LessEq(r[i], r[j]) {
      if i == 0 {
        assert r[j] in t;
      } else {
        assert r[i] == t[i - 1] && r[j] == t[j - 1];
      }
    }
  }

  /**
   * The sorted order of the pieces (the list sort that getStateHash
   * performs): as long as s (SortPiecesSpec says it is a sorted
   * rearrangement).
   */
  function SortPieces(s: seq<Piece>): (r: seq<Piece>)
    ensures |r| == |s|
  {
    if s == [] then []
    else Insert(s[|s| - 1], SortPieces(s[..|s| - 1]))
  }

  /** Sorting yields a sorted rearrangement of the same pieces. */
  lemma SortPiecesSpec(s: seq<Piece>)
    ensures Sorted(SortPieces(s)) && multiset(SortPieces(s)) == multiset(s)
  {
    SortPiecesSorted(s);
    SortPiecesMultiset(s);
  }

  lemma {:induction false} SortPiecesSorted(s: seq<Piece>)
    ensures Sorted(SortPieces(s))
    decreases |s|
  {
    if s != [] {
      SortPiecesSorted(s[..|s| - 1]);
      InsertSorted(s[|s| - 1], SortPieces(s[..|s| - 1]));
    }
  }

  lemma {:induction false} SortPiecesMultiset(s: seq<Piece>)
    ensures multiset(SortPieces(s)) == multiset(s)
    decreases |s|
  {
    if s != [] {
      var init, last := s[..|s| - 1], s[|s| - 1];
      SortPiecesMultiset(init);
      InsertMultiset(last, SortPieces(init));
      assert SortPieces(s) == Insert(last, SortPieces(init));
      assert s == init + [last];
      assert multiset(s) == multiset(init) + multiset{last};
    }
  }

  lemma MultisetTail(a: seq<Piece>)
    requires a != []
    ensures multiset(a[1..]) == multiset(a) - multiset{a[0]}
  {
    assert a == [a[0]] + a[1..];
  }

  /** There is only one sorted arrangement of a multiset of pieces. */
  lemma {:induction false} SortedUnique(a: seq<Piece>, b: seq<Piece>)
    requires Sorted(a) && Sorted(b) && multiset(a) == multiset(b)
    ensures a == b
    decreases |a|
  {
    if a != [] {
      assert |b| == |multiset(b)| == |multiset(a)| == |a|;
      assert a[0] in multiset(b) && b[0] in multiset(a);
      var i :| 0 <= i < |b| && b[i] == a[0];
      var j :| 0 <= j < |a| && a[j] == b[0];
      assert LessEq(b[0], a[0]) && LessEq(a[0], b[0]);
      assert a[0] == b[0];
      MultisetTail(a);
      MultisetTail(b);
      SortedUnique(a[1..], b[1..]);
    }
  }

  /** Sorting reorders and nothing else. */
  lemma SortPermutationInvariant(a: seq<Piece>, b: seq<Piece>)
    requires multiset(a) == multiset(b)
    ensures SortPieces(a) == SortPieces(b)
  {
    SortPiecesSpec(a);
    SortPiecesSpec(b);
    SortedUnique(SortPieces(a), SortPieces(b));
  }

  /** The decimal digit of d. */
  function Digit(d: int): char
    requires 0 <= d < 10
  {
    "0123456789"[d]
  }

  /** The decimal text of n, most significant digit first, without leading zeros. */
  function NatStr(n: nat): (r: string)
    ensures |r| >= 1
    ensures forall k :: 0 <= k < |r| ==> '0' <= r[k] <= '9'
  {
    if n < 10 then [Digit(n)] else NatStr(n / 10) + [Digit(n % 10)]
  }

  /** The decimal text of an int as a StringBuilder appends it: a minus sign for negatives. */
  function IntStr(n: int): (r: string)
    ensures |r| >= 1
    ensures forall k :: 0 <= k < |r| ==> r[k] == '-' || '0' <= r[k] <= '9'
    ensures n < 0 <==> r[0] == '-'
  {
    if n < 0 then "-" + NatStr(-n) else NatStr(n)
  }

  lemma DigitInjective(a: int, b: int)
    requires 0 <= a < 10 && 0 <= b < 10 && Digit(a) == Digit(b)
    ensures a == b
  {
  }

  /** Numbers from 10 on take at least two digits. */
  lemma NatStrLong(n: nat)
    ensures n < 10 <==> |NatStr(n)| == 1
  {
    if n >= 10 {
      assert |NatStr(n)| == |NatStr(n / 10)| + 1;
    }
  }

  /** Different numbers have different decimal texts. */
  lemma {:induction false} NatStrInjective(a: nat, b: nat)
    requires NatStr(a) == NatStr(b)
    ensures a == b
  {
    NatStrLong(a);
    NatStrLong(b);
    if a < 10 {
      DigitInjective(a, b);
    } else {
      var sa, sb := NatStr(a), NatStr(b);
      assert sa[..|sa| - 1] == NatStr(a / 10) && sb[..|sb| - 1] == NatStr(b / 10);
      NatStrInjective(a / 10, b / 10);
      assert sa[|sa| - 1] == Digit(a % 10) && sb[|sb| - 1] == Digit(b % 10);
      DigitInjective(a % 10, b % 10);
    }
  }

  lemma {:induction false} IntStrInjective(a: int, b: int)
    requires IntStr(a) == IntStr(b)
    ensures a == b
  {
    if a < 0 && b < 0 {
      var m, n := -a, -b;
      NegativeStr(a);
      NegativeStr(b);
      assert NatStr(m) == NatStr(n);
      NatStrInjective(m, n);
    } else if a >= 0 && b >= 0 {
      assert NatStr(a) == IntStr(a) && NatStr(b) == IntStr(b);
      NatStrInjective(a, b);
    }
  }

  /** After its minus sign, a negative number's text is that of its magnitude. */
  lemma NegativeStr(n: int)
    requires n < 0
    ensures IntStr(n)[1..] == NatStr(-n)
  {
    assert IntStr(n) == "-" + NatStr(-n);
  }

  /**
   * The text of one piece: "color,x,y;".  It is at least six characters long
   * and its only ';' is the last, so a key splits into pieces at each ';'.
   */
  function PieceStr(p: Piece): (r: string)
    ensures |r| >= 6 && r[|r| - 1] == ';'
    ensures forall k :: 0 <= k < |r| - 1 ==> r[k] != ';'
  {
    IntStr(p.color) + "," + IntStr(p.x) + "," + IntStr(p.y) + ";"
  }

  /** The texts of the pieces, one after another: empty exactly for no pieces. */
  function Encode(ps: seq<Piece>): (r: string)
    decreases |ps|, 1
    ensures |r| >= 6 * |ps|
    ensures r == [] <==> ps == []
  {
    if ps == [] then [] else EncodeFirst(ps)
  }

  /**
   * The text of a non-empty list: its first piece's text, then the rest's.
   * A separate function, so that a key's text is spelled out only where a
   * proof asks for it (EncodeCons).
   */
  function EncodeFirst(ps: seq<Piece>): (r: string)
    requires ps != []
    decreases |ps|, 0
    ensures |r| >= 6 * |ps|
  {
    PieceStr(ps[0]) + Encode(ps[1..])
  }

  /** A non-empty list's text starts with its first piece's. */
  lemma EncodeCons(ps: seq<Piece>)
    requires ps != []
    ensures Encode(ps) == PieceStr(ps[0]) + Encode(ps[1..])
  {
    assert Encode(ps) == EncodeFirst(ps);
  }

  /** A one-piece list's text is that piece's. */
  lemma EncodeSingle(p: Piece)
    ensures Encode([p]) == PieceStr(p)
  {
    EncodeCons([p]);
    assert [p][1..] == [];
  }

  /** Appending a piece appends its text, as the loop of getStateHash does. */
  lemma {:induction false} EncodeAppend(ps: seq<Piece>, p: Piece)
    ensures Encode(ps + [p]) == Encode(ps) + PieceStr(p)
    decreases |ps|
  {
    if ps == [] {
      assert ps + [p] == [p];
      EncodeSingle(p);
    } else {
      var q := ps + [p];
      assert q[0] == ps[0] && q[1..] == ps[1..] + [p];
      EncodeAppend(ps[1..], p);
      EncodeConsAppend(q, ps, p);
    }
  }

  /** The text of a list's first k + 1 pieces extends that of its first k. */
  lemma EncodePrefix(ps: seq<Piece>, k: int)
    requires 0 <= k < |ps|
    ensures Encode(ps[..k + 1]) == Encode(ps[..k]) + PieceStr(ps[k])
  {
    assert ps[..k + 1] == ps[..k] + [ps[k]];
    EncodeAppend(ps[..k], ps[k]);
  }

  /** One step of EncodeAppend: the list's first piece leads the text before and after the append. */
  lemma EncodeConsAppend(q: seq<Piece>, ps: seq<Piece>, p: Piece)
    requires ps != [] && q == ps + [p] && q[0] == ps[0] && q[1..] == ps[1..] + [p]
    requires Encode(ps[1..] + [p]) == Encode(ps[1..]) + PieceStr(p)
    ensures Encode(q) == Encode(ps) + PieceStr(p)
  {
    EncodeCons(q);
    EncodeCons(ps);
    AppendAssoc(PieceStr(ps[0]), Encode(ps[1..]), PieceStr(p));
  }

  lemma AppendAssoc(a: string, b: string, c: string)
    ensures a + (b + c) == (a + b) + c
  {
  }

  /** Neither separator occurs in the text of a number. */
  lemma NoSeparators(n: int)
    ensures ',' !in IntStr(n) && ';' !in IntStr(n)
  {
  }

  /** In u + [sep] + v, with sep not in u, the first sep is at position |u|. */
  lemma FirstSeparator(u: string, v: string, sep: char, w: string)
    requires w == u + [sep] + v && sep !in u
    ensures w[|u|] == sep
    ensures forall k :: 0 <= k < |u| ==> w[k] != sep
  {
    forall k | 0 <= k < |u| ensures w[k] != sep {
      assert w[k] == u[k];
    }
  }

  /** Cutting at the first occurrence of a separator that neither head contains. */
  lemma SplitAt(u: string, v: string, u': string, v': string, sep: char)
    requires u + [sep] + v == u' + [sep] + v'
    requires sep !in u && sep !in u'
    ensures u == u' && v == v'
  {
    var w := u + [sep] + v;
    FirstSeparator(u, v, sep, w);
    FirstSeparator(u', v', sep, w);
    assert |u| == |u'|;
    assert u == w[..|u|] == u';
    assert v == w[|u| + 1..] == v';
  }

  /** The text of a piece followed by more text, grouped at its first separator. */
  lemma PieceStrShape(p: Piece, rest: string)
    ensures PieceStr(p) + rest ==
      IntStr(p.color) + [','] + (IntStr(p.x) + [','] + (IntStr(p.y) + [';'] + rest))
  {
    var c, x, y := IntStr(p.color), IntStr(p.x), IntStr(p.y);
    calc {
      PieceStr(p) + rest;
      c + [','] + x + [','] + y + [';'] + rest;
      c + [','] + (x + [','] + (y + [';'] + rest));
    }
  }

  /** A piece's text and what follows it determine the piece and the rest. */
  lemma PieceStrPrefix(p: Piece, rest: string, q: Piece, rest': string)
    requires PieceStr(p) + rest == PieceStr(q) + rest'
    ensures p == q && rest == rest'
  {
    var cp, xp, yp := IntStr(p.color), IntStr(p.x), IntStr(p.y);
    var cq, xq, yq := IntStr(q.color), IntStr(q.x), IntStr(q.y);
    NoSeparators(p.color); NoSeparators(p.x); NoSeparators(p.y);
    NoSeparators(q.color); NoSeparators(q.x); NoSeparators(q.y);
    var tp, tq := yp + [';'] + rest, yq + [';'] + rest';
    var sp, sq := xp + [','] + tp, xq + [','] + tq;
    PieceStrShape(p, rest);
    PieceStrShape(q, rest');
    SplitAt(cp, sp, cq, sq, ',');
    SplitAt(xp, tp, xq, tq, ',');
    SplitAt(yp, rest, yq, rest', ';');
    IntStrInjective(p.color, q.color);
    IntStrInjective(p.x, q.x);
    IntStrInjective(p.y, q.y);
  }

  /** Different piece lists have different texts. */
  lemma {:induction false} EncodeInjective(a: seq<Piece>, b: seq<Piece>)
    requires Encode(a) == Encode(b)
    ensures a == b
  {
    if a != [] && b != [] {
      EncodeCons(a);
      EncodeCons(b);
      PieceStrPrefix(a[0], Encode(a[1..]), b[0], Encode(b[1..]));
      EncodeInjective(a[1..], b[1..]);
      assert a == [a[0]] + a[1..] && b == [b[0]] + b[1..];
    }
  }

  /**
   * getStateHash as a value: the text of the sorted pieces.  At least six
   * characters per piece, and empty exactly for an empty board.
   */
  function Key(ps: seq<Piece>): (r: string)
    ensures |r| >= 6 * |ps|
    ensures r == [] <==> ps == []
  {
    Encode(SortPieces(ps))
  }

  /** Lists with the same key hold the same pieces, each as often; and conversely. */
  lemma KeyCharacterises(a: seq<Piece>, b: seq<Piece>)
    ensures Key(a) == Key(b) <==> multiset(a) == multiset(b)
  {
    if Key(a) == Key(b) {
      EncodeInjective(SortPieces(a), SortPieces(b));
      SortPiecesSpec(a);
      SortPiecesSpec(b);
    }
    if multiset(a) == multiset(b) {
      SortPermutationInvariant(a, b);
    }
  }

  /** In a duplicate-free list every piece occurs once. */
  lemma {:induction false} NoDupMultiplicity(a: seq<Piece>, p: Piece)
    requires NoDup(a)
    ensures multiset(a)[p] == if p in a then 1 else 0
  {
    if a != [] {
      assert a == [a[0]] + a[1..];
      assert NoDup(a[1..]) by {
        forall i, j | 0 <= i < j < |a[1..]| ensures a[1..][i] != a[1..][j] {
          assert a[1..][i] == a[i + 1] && a[1..][j] == a[j + 1];
        }
      }
      NoDupMultiplicity(a[1..], p);
      if a[0] == p {
        assert p !in a[1..] by {
          forall k | 0 <= k < |a[1..]| ensures a[1..][k] != p {
            assert a[1..][k] == a[k + 1];
          }
        }
      }
    }
  }

  /** Duplicate-free lists with the same members have the same key. */
  lemma KeyOfSameMembers(a: seq<Piece>, b: seq<Piece>)
    requires NoDup(a) && NoDup(b)
    ensures Key(a) == Key(b) <==> SameMembers(a, b)
  {
    if SameMembers(a, b) {
      forall p ensures multiset(a)[p] == multiset(b)[p] {
        NoDupMultiplicity(a, p);
        NoDupMultiplicity(b, p);
      }
      assert multiset(a) == multiset(b);
    }
    KeyCharacterises(a, b);
    if Key(a) == Key(b) {
      forall p ensures p in a <==> p in b {
        assert p in a <==> p in multiset(a);
        assert p in b <==> p in multiset(b);
      }
    }
  }

  /** Two equal entries at different positions are counted twice. */
  lemma CountAtLeastTwo(s: seq<Piece>, i: int, j: int)
    requires 0 <= i < j < |s|
    ensures s[i] == s[j] ==> multiset(s)[s[i]] >= 2
  {
    assert s == s[..j] + s[j..];
    assert s[..j][i] == s[i] && s[j..][0] == s[j];
    assert multiset(s) == multiset(s[..j]) + multiset(s[j..]);
  }

  /** Reordering a duplicate-free list leaves it duplicate-free. */
  lemma NoDupPermutation(a: seq<Piece>, b: seq<Piece>)
    requires NoDup(a) && multiset(a) == multiset(b)
    ensures NoDup(b)
  {
    forall i, j | 0 <= i < j < |b| ensures b[i] != b[j] {
      NoDupMultiplicity(a, b[i]);
      CountAtLeastTwo(b, i, j);
    }
  }
}
