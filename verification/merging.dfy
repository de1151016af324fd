/**
 * Merging of co-located pieces of the same colour.
 *
 * `Merge` follows the source's do-while: find the first pair (i, j), i < j,
 * of identical pieces in scan order, delete the later one, and start again
 * until no pair is left.  `Dedup` is an independent reference definition:
 * keep the first occurrence of every piece, in order.  The two are proved
 * equal, from which idempotence and the other properties follow.
 */
module Merging {
  import opened Pieces

  /** No piece value occurs twice. */
  predicate NoDup(s: seq<Piece>)
  {
    forall i, j :: 0 <= i < j < |s| ==> s[i] != s[j]
  }

  /** Both sequences hold the same piece values (ignoring order and repetition). */
  ghost predicate SameMembers(a: seq<Piece>, b: seq<Piece>)
  {
    forall p :: p in a <==> p in b
  }

  /** The sequence without its element at index j: one copy of s[j] fewer, the rest in order. */
  function RemoveAt(s: seq<Piece>, j: nat): (r: seq<Piece>)
    requires j < |s|
    ensures |r| == |s| - 1
    ensures multiset(r) == multiset(s) - multiset{s[j]}
    ensures forall k :: 0 <= k < j ==> r[k] == s[k]
    ensures forall k :: j <= k < |r| ==> r[k] == s[k + 1]
  {
    assert s == s[..j] + [s[j]] + s[j + 1..];
    s[..j] + s[j + 1..]
  }

  /** No identical pair (a, b) comes before (i, j) in the nested-loop scan order. */
  predicate NoDupBefore(s: seq<Piece>, i: nat, j: nat)
  {
    forall a, b :: 0 <= a < b < |s| && (a < i || (a == i && b < j)) ==> s[a] != s[b]
  }

  /**
   * The nested-loop scan of mergePieces, resumed at outer index i and inner
   * index j: the first identical pair in scan order, if any.
   */
  function FindDup(s: seq<Piece>, i: nat, j: nat): (r: Option<(nat, nat)>)
    requires i <= |s| && i < j
    requires NoDupBefore(s, i, j)
    decreases |s| - i, |s| + 1 - j
    ensures r.None? ==> NoDup(s)
    ensures r.Some? ==> var (a, b) := r.value;
      a < b < |s| && s[a] == s[b] && NoDupBefore(s, a, b)
  {
    if i == |s| then None
    else if j >= |s| then FindDup(s, i + 1, i + 2)
    else if s[i] == s[j] then Some((i, j))
    else FindDup(s, i, j + 1)
  }

  /**
   * The first identical pair in the scan order of mergePieces; there is none
   * exactly when the list has no repeated piece.
   */
  function FirstDup(s: seq<Piece>): (r: Option<(nat, nat)>)
    ensures r.None? <==> NoDup(s)
    ensures r.Some? ==> var (a, b) := r.value;
      a < b < |s| && s[a] == s[b] && NoDupBefore(s, a, b)
  {
    var r := FindDup(s, 0, 1);
    assert r.Some? ==> !NoDup(s) by {
      if r.Some? { assert s[r.value.0] == s[r.value.1]; }
    }
    r
  }

  /** mergePieces as written: delete the later piece of the first identical pair, repeatedly. */
  function Merge(s: seq<Piece>): (r: seq<Piece>)
    decreases |s|
    ensures NoDup(r)
    ensures SameMembers(r, s)
    ensures |r| <= |s|
  {
    match FirstDup(s)
    case None => s
    case Some((i, j)) =>
      assert s[j] in RemoveAt(s, j) by { assert RemoveAt(s, j)[i] == s[i]; }
      Merge(RemoveAt(s, j))
  }

  /** Reference definition: the first occurrence of every piece not in `seen`, in order. */
  function DedupFrom(s: seq<Piece>, seen: set<Piece>): seq<Piece>
    decreases |s|
  {
    if s == [] then []
    else if s[0] in seen then DedupFrom(s[1..], seen)
    else [s[0]] + DedupFrom(s[1..], seen + {s[0]})
  }

  function Dedup(s: seq<Piece>): seq<Piece>
  {
    DedupFrom(s, {})
  }

  /** Deleting a repeated occurrence does not change the deduplicated sequence. */
  lemma {:induction false} DedupRemoveRepeat(s: seq<Piece>, seen: set<Piece>, j: nat)
    requires j < |s|
    requires s[j] in seen || s[j] in s[..j]
    ensures DedupFrom(RemoveAt(s, j), seen) == DedupFrom(s, seen)
    decreases j
  {
    if j == 0 {
      assert RemoveAt(s, 0) == s[1..];
    } else {
      var t := RemoveAt(s, j);
      assert t[0] == s[0];
      assert t[1..] == RemoveAt(s[1..], j - 1);
      var seen' := if s[0] in seen then seen else seen + {s[0]};
      assert s[j] == s[1..][j - 1];
      assert s[j] in seen' || s[j] in s[1..][..j - 1] by {
        if s[j] !in seen && s[j] != s[0] {
          var k :| 0 <= k < j && s[k] == s[j];
          assert k != 0;
          assert s[1..][..j - 1][k - 1] == s[k];
        }
      }
      DedupRemoveRepeat(s[1..], seen', j - 1);
    }
  }

  /** A sequence without repetitions, disjoint from `seen`, is its own deduplication. */
  lemma {:induction false} DedupOfNoDup(s: seq<Piece>, seen: set<Piece>)
    requires NoDup(s)
    requires forall p :: p in s ==> p !in seen
    ensures DedupFrom(s, seen) == s
    decreases |s|
  {
    if s != [] {
      var t, seen' := s[1..], seen + {s[0]};
      assert s[0] !in seen;
      assert NoDup(t) by {
        forall i, j | 0 <= i < j < |t| ensures t[i] != t[j] {
          assert t[i] == s[i + 1] && t[j] == s[j + 1];
        }
      }
      forall p | p in t ensures p !in seen' {
        var k :| 0 <= k < |t| && t[k] == p;
        assert s[k + 1] == p;
      }
      DedupOfNoDup(t, seen');
      assert DedupFrom(s, seen) == [s[0]] + DedupFrom(t, seen');
      assert s == [s[0]] + t;
    }
  }

  /** The merge loop of the source computes the reference deduplication. */
  lemma {:induction false} MergeIsDedup(s: seq<Piece>)
    ensures Merge(s) == Dedup(s)
    decreases |s|
  {
    match FirstDup(s)
    case None =>
      DedupOfNoDup(s, {});
    case Some((i, j)) =>
      assert s[j] in s[..j] by { assert s[..j][i] == s[j]; }
      DedupRemoveRepeat(s, {}, j);
      MergeIsDedup(RemoveAt(s, j));
  }

  /** Merging a sequence without repetitions leaves it as it is. */
  lemma MergeOfNoDup(s: seq<Piece>)
    requires NoDup(s)
    ensures Merge(s) == s
  {
  }

  /** Merging twice is merging once. */
  lemma MergeIdempotent(s: seq<Piece>)
    ensures Merge(Merge(s)) == Merge(s)
  {
    MergeOfNoDup(Merge(s));
  }
}
