/**
 * What the two position statements of MusicMenuRelationMapper do to the order
 * of a menu: the per-row effect of each, that a move inside the menu keeps its
 * positions a permutation of 0..N-1 and the relative order of the tracks it
 * does not move, and that the re-rank turns distinct positions into exactly
 * 0..N-1 in the same order.
 */
module RelationOrder {
  import opened Base
  import opened MenuRelationMapper

  /** Indices of the live rows of menu `m`. */
  function Live(rows: seq<Relation>, m: string): set<int>
  {
    Matching(rows, InMenu(m))
  }

  /** N, the number of live rows of menu `m` (what `count(menuId)` returns). */
  function Size(rows: seq<Relation>, m: string): nat
  {
    Count(rows, InMenu(m))
  }

  /** Appending a row adds its index to the live set exactly when it is a live row of the menu. */
  lemma LiveAppend(rows: seq<Relation>, x: Relation, m: string)
    ensures Live(rows + [x], m) == Live(rows, m) + (if Matches(InMenu(m), x) then {|rows|} else {})
    ensures Size(rows + [x], m) == Size(rows, m) + (if Matches(InMenu(m), x) then 1 else 0)
  {
    var rows' := rows + [x];
    MatchingStep(rows', InMenu(m), |rows|);
    assert MatchingUpTo(rows', InMenu(m), |rows|) == Live(rows, m);
  }

  /** The positions held by the rows whose indices are in `s`. */
  function Image(rows: seq<Relation>, s: set<int>): set<int>
  {
    set i | i in s && 0 <= i < |rows| :: rows[i].position
  }

  /** The set {0, ..., n-1}. */
  function Range(n: int): (r: set<int>)
    ensures forall k :: k in r <==> 0 <= k < n
    ensures n >= 0 ==> |r| == n
    decreases n
  {
    if n <= 0 then {} else Range(n - 1) + {n - 1}
  }

  /** No two live rows of the menu share a position. */
  predicate DistinctPositions(rows: seq<Relation>, m: string)
  {
    forall i, j :: i in Live(rows, m) && j in Live(rows, m) && i != j ==> rows[i].position != rows[j].position
  }

  /** The invariant that a menu's live positions are a permutation of 0..N-1. */
  predicate Dense(rows: seq<Relation>, m: string)
  {
    DistinctPositions(rows, m) && forall i :: i in Live(rows, m) ==> 0 <= rows[i].position < Size(rows, m)
  }

  // ---------------------------------------------------------------- counting sets

  lemma SubsetCard(a: set<int>, b: set<int>)
    requires a <= b
    ensures |b| == |a| + |b - a|
  {
    assert b == a + (b - a);
  }

  lemma ProperSubsetCard(a: set<int>, b: set<int>, x: int)
    requires a <= b && x in b && x !in a
    ensures |a| < |b|
  {
    SubsetCard(a, b);
    assert x in b - a;
  }

  lemma SubsetEqualCard(a: set<int>, b: set<int>)
    requires a <= b && |a| == |b|
    ensures a == b
  {
    SubsetCard(a, b);
    assert b - a == {};
  }

  function Prefix(s: set<int>, n: int): set<int>
  {
    set i | i in s && i < n
  }

  lemma PrefixStep(s: set<int>, n: int)
    ensures Prefix(s, n + 1) == Prefix(s, n) + (if n in s then {n} else {})
  {
  }

  lemma ImageAdd(rows: seq<Relation>, t: set<int>, k: int)
    requires 0 <= k < |rows|
    ensures Image(rows, t + {k}) == Image(rows, t) + {rows[k].position}
  {
  }

  /** The indices in `s` are rows of the table holding pairwise distinct positions. */
  predicate DistinctOn(rows: seq<Relation>, s: set<int>)
  {
    (forall i :: i in s ==> 0 <= i < |rows|) &&
    forall i, j :: i in s && j in s && i != j ==> rows[i].position != rows[j].position
  }

  lemma ImageMisses(rows: seq<Relation>, s: set<int>, t: set<int>, k: int)
    requires DistinctOn(rows, s)
    requires t <= s && k in s && k !in t
    ensures 0 <= k < |rows| && rows[k].position !in Image(rows, t)
  {
    forall i | i in t && 0 <= i < |rows| ensures rows[i].position != rows[k].position {
      assert i in s && i != k;
    }
  }

  /** Distinct positions on `s` give an image as large as `s`, counted over the indices below `n`. */
  lemma {:induction false} ImageCardUpTo(rows: seq<Relation>, s: set<int>, n: nat)
    requires DistinctOn(rows, s)
    ensures |Image(rows, Prefix(s, n))| == |Prefix(s, n)|
  {
    if n > 0 {
      var t := Prefix(s, n - 1);
      ImageCardUpTo(rows, s, n - 1);
      PrefixStep(s, n - 1);
      if n - 1 in s {
        assert n - 1 !in t && t <= s;
        ImageMisses(rows, s, t, n - 1);
        ImageAdd(rows, t, n - 1);
        assert |t + {n - 1}| == |t| + 1;
        assert |Image(rows, t) + {rows[n - 1].position}| == |Image(rows, t)| + 1;
      }
    }
  }

  lemma ImageCard(rows: seq<Relation>, s: set<int>)
    requires DistinctOn(rows, s)
    ensures |Image(rows, s)| == |s|
  {
    ImageCardUpTo(rows, s, |rows|);
    assert Prefix(s, |rows|) == s;
  }

  lemma LiveInRange(rows: seq<Relation>, m: string)
    ensures forall i :: i in Live(rows, m) ==> 0 <= i < |rows|
  {
  }

  /**
   * Dense means exactly this: distinct positions that are, as a set, 0..N-1.
   */
  lemma DenseIsExactRange(rows: seq<Relation>, m: string)
    ensures Dense(rows, m) <==> DistinctPositions(rows, m) && Image(rows, Live(rows, m)) == Range(Size(rows, m))
  {
    var live, n := Live(rows, m), Size(rows, m);
    if DistinctPositions(rows, m) {
      ImageCard(rows, live);
      if Dense(rows, m) {
        SubsetEqualCard(Image(rows, live), Range(n));
      } else if Image(rows, live) == Range(n) {
        forall i | i in live ensures 0 <= rows[i].position < n {
          assert rows[i].position in Image(rows, live);
        }
      }
    }
  }

  // ---------------------------------------------------------------- updatePosition

  /** The position a live row of the menu holds after the move. */
  function Shifted(p: int, start: int, end: int): int
  {
    if Min(start, end) <= p <= Max(start, end) then MovedPosition(p, start, end) else p
  }

  lemma ShiftedFacts(p: int, q: int, start: int, end: int, n: int)
    ensures p != q ==> Shifted(p, start, end) != Shifted(q, start, end)
    ensures 0 <= p < n && 0 <= start < n && 0 <= end < n ==> 0 <= Shifted(p, start, end) < n
    ensures p != start && q != start ==> (p < q <==> Shifted(p, start, end) < Shifted(q, start, end))
  {
  }

  /**
   * The per-row effect of `updatePosition`: only the position of live rows of
   * the menu inside [min(start,end), max(start,end)] changes; the row at `start`
   * goes to `end`; moving up shifts [end, start) by +1, moving down shifts
   * (start, end] by -1; start == end changes nothing.
   */
  lemma MoveEffect(rows: seq<Relation>, m: string, start: int, end: int, i: int)
    requires 0 <= i < |rows|
    ensures var r, r' := rows[i], MoveRows(rows, m, start, end)[i];
      && r'.id == r.id && r'.menuId == r.menuId && r'.musicId == r.musicId && r'.deleted == r.deleted
      && (r.deleted || r.menuId != m || r.position < Min(start, end) || r.position > Max(start, end) ==> r' == r)
      && (!r.deleted && r.menuId == m && r.position == start ==> r'.position == end)
      && (!r.deleted && r.menuId == m && start > end && end <= r.position < start ==> r'.position == r.position + 1)
      && (!r.deleted && r.menuId == m && start < end && start < r.position <= end ==> r'.position == r.position - 1)
      && (start == end ==> r' == r)
  {
  }

  lemma MoveKeepsLive(rows: seq<Relation>, m: string, start: int, end: int, m': string)
    ensures Live(MoveRows(rows, m, start, end), m') == Live(rows, m')
    ensures Size(MoveRows(rows, m, start, end), m') == Size(rows, m')
  {
    var rows' := MoveRows(rows, m, start, end);
    assert forall i :: 0 <= i < |rows| ==> (Matches(InMenu(m'), rows'[i]) <==> Matches(InMenu(m'), rows[i]));
    assert Live(rows', m') == Live(rows, m');
  }

  lemma MovePositionOfLive(rows: seq<Relation>, m: string, start: int, end: int, i: int)
    requires i in Live(rows, m)
    ensures 0 <= i < |rows|
    ensures MoveRows(rows, m, start, end)[i].position == Shifted(rows[i].position, start, end)
  {
  }

  /**
   * A move between two positions of a dense menu keeps it dense, sends the
   * one row at `start` to `end`, and keeps the relative order of every other
   * pair of tracks.
   */
  lemma MovePreservesDense(rows: seq<Relation>, m: string, start: int, end: int)
    requires Dense(rows, m)
    requires 0 <= start < Size(rows, m) && 0 <= end < Size(rows, m)
    ensures Dense(MoveRows(rows, m, start, end), m)
    ensures Size(MoveRows(rows, m, start, end), m) == Size(rows, m)
    ensures forall i :: i in Live(rows, m) && rows[i].position == start ==>
      MoveRows(rows, m, start, end)[i].position == end
    ensures forall i, j :: i in Live(rows, m) && j in Live(rows, m) && rows[i].position != start && rows[j].position != start ==>
      (rows[i].position < rows[j].position <==> MoveRows(rows, m, start, end)[i].position < MoveRows(rows, m, start, end)[j].position)
  {
    var rows' := MoveRows(rows, m, start, end);
    var n := Size(rows, m);
    MoveKeepsLive(rows, m, start, end, m);
    forall i | i in Live(rows, m)
      ensures rows'[i].position == Shifted(rows[i].position, start, end)
      ensures 0 <= rows'[i].position < n
    {
      MovePositionOfLive(rows, m, start, end, i);
      ShiftedFacts(rows[i].position, rows[i].position, start, end, n);
    }
    forall i, j | i in Live(rows', m) && j in Live(rows', m) && i != j
      ensures rows'[i].position != rows'[j].position
      ensures rows[i].position != start && rows[j].position != start ==>
        (rows[i].position < rows[j].position <==> rows'[i].position < rows'[j].position)
    {
      ShiftedFacts(rows[i].position, rows[j].position, start, end, n);
    }
  }

  /** A move in menu `m` leaves every row outside that menu as it was. */
  lemma MoveOtherMenus(rows: seq<Relation>, m: string, start: int, end: int, m': string)
    requires m' != m
    ensures forall i :: i in Live(rows, m') ==> MoveRows(rows, m, start, end)[i] == rows[i]
    ensures Dense(rows, m') ==> Dense(MoveRows(rows, m, start, end), m')
  {
    MoveKeepsLive(rows, m, start, end, m');
  }

  // ---------------------------------------------------------------- updateBatchPosition

  /** The rows the subquery counts for a row at position `p`. */
  function Below(rows: seq<Relation>, m: string, p: int): set<int>
  {
    Matching(rows, InMenuBelow(m, p))
  }

  lemma RankKeepsLive(rows: seq<Relation>, m: string, m': string)
    ensures Live(RankRows(rows, m), m') == Live(rows, m')
    ensures Size(RankRows(rows, m), m') == Size(rows, m')
  {
    var rows' := RankRows(rows, m);
    assert forall i :: 0 <= i < |rows| ==> (Matches(InMenu(m'), rows'[i]) <==> Matches(InMenu(m'), rows[i]));
    assert Live(rows', m') == Live(rows, m');
  }

  /** Rows below a lower position are among the rows below a higher one, and strictly fewer when a live row sits at the lower one. */
  lemma BelowMonotone(rows: seq<Relation>, m: string, i: int, j: int)
    requires i in Live(rows, m) && j in Live(rows, m)
    ensures rows[i].position <= rows[j].position ==> |Below(rows, m, rows[i].position)| <= |Below(rows, m, rows[j].position)|
    ensures rows[i].position < rows[j].position ==> |Below(rows, m, rows[i].position)| < |Below(rows, m, rows[j].position)|
  {
    var bi, bj := Below(rows, m, rows[i].position), Below(rows, m, rows[j].position);
    if rows[i].position <= rows[j].position {
      assert bi <= bj;
      SubsetCard(bi, bj);
      if rows[i].position < rows[j].position {
        assert i in bj && i !in bi;
        ProperSubsetCard(bi, bj, i);
      }
    }
  }

  lemma BelowBound(rows: seq<Relation>, m: string, i: int)
    requires i in Live(rows, m)
    ensures |Below(rows, m, rows[i].position)| < Size(rows, m)
  {
    ProperSubsetCard(Below(rows, m, rows[i].position), Live(rows, m), i);
  }

  /**
   * The per-row effect of `updateBatchPosition`: rows outside the live menu are
   * untouched; a live row of the menu gets the number of live rows of the menu
   * with a strictly smaller old position.
   */
  lemma RankEffect(rows: seq<Relation>, m: string, i: int)
    requires 0 <= i < |rows|
    ensures var r, r' := rows[i], RankRows(rows, m)[i];
      && (r.deleted || r.menuId != m ==> r' == r)
      && (!r.deleted && r.menuId == m ==>
            r' == r.(position := |set j | 0 <= j < |rows| && !rows[j].deleted && rows[j].menuId == m && rows[j].position < r.position|))
  {
    var r := rows[i];
    if !r.deleted && r.menuId == m {
      assert Below(rows, m, r.position) == set j | 0 <= j < |rows| && !rows[j].deleted && rows[j].menuId == m && rows[j].position < r.position;
    }
  }

  /**
   * The re-rank keeps the relative order of the menu's live rows in both
   * directions and, when their old positions are distinct, makes them exactly
   * 0..N-1.
   */
  lemma RankMakesDense(rows: seq<Relation>, m: string)
    ensures Size(RankRows(rows, m), m) == Size(rows, m)
    ensures forall i, j :: i in Live(rows, m) && j in Live(rows, m) ==>
      (rows[i].position < rows[j].position <==> RankRows(rows, m)[i].position < RankRows(rows, m)[j].position)
    ensures DistinctPositions(rows, m) ==> Dense(RankRows(rows, m), m)
  {
    var rows' := RankRows(rows, m);
    RankKeepsLive(rows, m, m);
    forall i | i in Live(rows, m)
      ensures rows'[i].position == |Below(rows, m, rows[i].position)| < Size(rows, m)
    {
      BelowBound(rows, m, i);
    }
    forall i, j | i in Live(rows, m) && j in Live(rows, m)
      ensures rows[i].position < rows[j].position <==> rows'[i].position < rows'[j].position
      ensures rows[i].position != rows[j].position ==> rows'[i].position != rows'[j].position
    {
      BelowMonotone(rows, m, i, j);
      BelowMonotone(rows, m, j, i);
    }
  }

  /** In a dense menu the positions below that of a live row are exactly 0..p-1. */
  lemma BelowImage(rows: seq<Relation>, m: string, i: int)
    requires Dense(rows, m) && i in Live(rows, m)
    ensures Image(rows, Below(rows, m, rows[i].position)) == Range(rows[i].position)
  {
    var live, p := Live(rows, m), rows[i].position;
    var b := Below(rows, m, p);
    var img := Image(rows, b);
    DenseIsExactRange(rows, m);
    forall k | k in img ensures 0 <= k < p {
      var j :| j in b && 0 <= j < |rows| && rows[j].position == k;
      assert j in live;
    }
    forall k | 0 <= k < p ensures k in img {
      assert k in Image(rows, live);
      var j :| j in live && 0 <= j < |rows| && rows[j].position == k;
      assert j in b;
    }
    assert img == Range(p);
  }

  /** In a dense menu a live row's position is the number of live rows below it. */
  lemma RankOfDenseAt(rows: seq<Relation>, m: string, i: int)
    requires Dense(rows, m) && i in Live(rows, m)
    ensures |Below(rows, m, rows[i].position)| == rows[i].position
  {
    var b := Below(rows, m, rows[i].position);
    assert b <= Live(rows, m);
    ImageCard(rows, b);
    BelowImage(rows, m, i);
  }

  /** On a dense menu the re-rank changes nothing: running it twice is running it once. */
  lemma RankOfDenseIsIdentity(rows: seq<Relation>, m: string)
    requires Dense(rows, m)
    ensures RankRows(rows, m) == rows
  {
    forall i | 0 <= i < |rows| ensures RankRows(rows, m)[i] == rows[i] {
      if i in Live(rows, m) {
        RankOfDenseAt(rows, m, i);
      }
    }
  }

  lemma RankOtherMenus(rows: seq<Relation>, m: string, m': string)
    requires m' != m
    ensures forall i :: i in Live(rows, m') ==> RankRows(rows, m)[i] == rows[i]
    ensures Dense(rows, m') ==> Dense(RankRows(rows, m), m')
  {
    RankKeepsLive(rows, m, m');
  }
}
