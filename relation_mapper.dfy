/**
 * The `music_menu_relation` table and the two hand-written UPDATE statements of
 * MusicMenuRelationMapper, plus the generic table operations the services call
 * (count, save, removeBatchByIds, delete-by-condition).
 *
 * Every statement is one atomic transition: the new value of each row is
 * computed from the table as it was before the statement (for
 * `updateBatchPosition` this is the snapshot taken by the derived table `t2`).
 * The table uses logical deletion, so a removed row stays in `rows` with
 * `deleted` set, and every query below ignores deleted rows.
 */
module MenuRelationMapper {
  import opened Base

  /** One row of `music_menu_relation`; `position` is the ordinal of the track in its menu. */
  datatype Relation = Relation(id: string, menuId: string, musicId: string, position: int, deleted: bool)

  function Min(a: int, b: int): int { if a <= b then a else b }
  function Max(a: int, b: int): int { if a <= b then b else a }

  /** The WHERE clauses the playlist code issues; each one carries the `deleted = '0'` filter. */
  datatype Where =
    | InMenu(menuId: string)
    | InMenuWithMusic(menuId: string, musicId: string)
    | InMoveWindow(menuId: string, start: int, end: int)
    | InMenuBelow(menuId: string, bound: int)

  predicate Matches(w: Where, r: Relation)
  {
    !r.deleted &&
    match w
    case InMenu(m) => r.menuId == m
    case InMenuWithMusic(m, music) => r.menuId == m && r.musicId == music
    case InMoveWindow(m, s, e) => r.menuId == m && Min(s, e) <= r.position <= Max(s, e)
    case InMenuBelow(m, p) => r.menuId == m && r.position < p
  }

  /** Indices of the rows among the first `n` that satisfy `w`. */
  function MatchingUpTo(rows: seq<Relation>, w: Where, n: int): set<int>
  {
    set i | 0 <= i < n && i < |rows| && Matches(w, rows[i])
  }

  /** Indices of all rows that satisfy `w`. */
  function Matching(rows: seq<Relation>, w: Where): set<int>
  {
    MatchingUpTo(rows, w, |rows|)
  }

  /** `SELECT count(1) ... WHERE w`. */
  function Count(rows: seq<Relation>, w: Where): nat
  {
    |Matching(rows, w)|
  }

  lemma MatchingStep(rows: seq<Relation>, w: Where, n: nat)
    requires n < |rows|
    ensures MatchingUpTo(rows, w, n + 1) == MatchingUpTo(rows, w, n) + (if Matches(w, rows[n]) then {n} else {})
    ensures |MatchingUpTo(rows, w, n + 1)| == |MatchingUpTo(rows, w, n)| + (if Matches(w, rows[n]) then 1 else 0)
  {
    var a, b := MatchingUpTo(rows, w, n), MatchingUpTo(rows, w, n + 1);
    assert b == a + (if Matches(w, rows[n]) then {n} else {});
    assert n !in a;
  }

  // ---------------------------------------------------------------- updatePosition

  /** The CASE expression of `updatePosition`, applied to a row inside the BETWEEN window. */
  function MovedPosition(p: int, start: int, end: int): int
  {
    if p == start then end
    else if start > end then p + 1
    else if start < end then p - 1
    else p
  }

  function MoveRow(r: Relation, menuId: string, start: int, end: int): Relation
  {
    if Matches(InMoveWindow(menuId, start, end), r) then r.(position := MovedPosition(r.position, start, end)) else r
  }

  /** The table after `updatePosition(menuId, start, end)`. */
  function MoveRows(rows: seq<Relation>, menuId: string, start: int, end: int): (r: seq<Relation>)
    ensures |r| == |rows|
  {
    seq(|rows|, i requires 0 <= i < |rows| => MoveRow(rows[i], menuId, start, end))
  }

  lemma MoveRowsOf(rows: seq<Relation>, menuId: string, start: int, end: int, out: seq<Relation>)
    requires |out| == |rows|
    requires forall k :: 0 <= k < |rows| ==> out[k] == MoveRow(rows[k], menuId, start, end)
    ensures out == MoveRows(rows, menuId, start, end)
  {
  }

  // ---------------------------------------------------------------- updateBatchPosition

  /** The new position the subquery gives a row: how many active rows of the menu sit strictly below it in the snapshot. */
  function RankRow(snapshot: seq<Relation>, menuId: string, r: Relation): Relation
  {
    if Matches(InMenu(menuId), r) then r.(position := Count(snapshot, InMenuBelow(menuId, r.position))) else r
  }

  /** The table after `updateBatchPosition(menuId)`. */
  function RankRows(rows: seq<Relation>, menuId: string): (r: seq<Relation>)
    ensures |r| == |rows|
  {
    seq(|rows|, i requires 0 <= i < |rows| => RankRow(rows, menuId, rows[i]))
  }

  lemma RankRowsOf(rows: seq<Relation>, menuId: string, out: seq<Relation>)
    requires |out| == |rows|
    requires forall k :: 0 <= k < |rows| ==> out[k] == RankRow(rows, menuId, rows[k])
    ensures out == RankRows(rows, menuId)
  {
  }

  // ---------------------------------------------------------------- generic deletes

  /** Logical `removeBatchByIds`: every live row whose id is listed becomes deleted. */
  function RemoveByIds(rows: seq<Relation>, ids: seq<string>): (r: seq<Relation>)
    ensures |r| == |rows|
  {
    seq(|rows|, i requires 0 <= i < |rows| =>
      if !rows[i].deleted && rows[i].id in ids then rows[i].(deleted := true) else rows[i])
  }

  /** Logical `delete(... in(menuId, menuIds))`: every live row of a listed menu becomes deleted. */
  function RemoveByMenuIds(rows: seq<Relation>, menuIds: seq<string>): (r: seq<Relation>)
    ensures |r| == |rows|
  {
    seq(|rows|, i requires 0 <= i < |rows| =>
      if !rows[i].deleted && rows[i].menuId in menuIds then rows[i].(deleted := true) else rows[i])
  }

  /** The relation table, updated in place by SQL statements. */
  class RelationTable {
    var rows: seq<Relation>

    constructor (initial: seq<Relation>)
      ensures rows == initial
    {
      rows := initial;
    }

    /** `SELECT count(1) WHERE w`: a read-only scan. */
    method CountWhere(w: Where) returns (n: nat)
      ensures n == Count(rows, w)
    {
      n := 0;
      var i := 0;
      while i < |rows|
        invariant 0 <= i <= |rows|
        invariant n == |MatchingUpTo(rows, w, i)|
      {
        MatchingStep(rows, w, i);
        if Matches(w, rows[i]) {
          n := n + 1;
        }
        i := i + 1;
      }
    }

    /** `save(entity)`: appends the row. */
    method Save(r: Relation)
      modifies this
      ensures rows == old(rows) + [r]
    {
      rows := rows + [r];
    }

    /**
     * `updatePosition(menuId, start, end)`. Each row in the window is rewritten
     * from its own old position; `matched` is the statement's update count.
     */
    method UpdatePosition(menuId: string, start: int, end: int) returns (matched: nat)
      modifies this
      ensures rows == MoveRows(old(rows), menuId, start, end)
      ensures matched == Count(old(rows), InMoveWindow(menuId, start, end))
    {
      var snapshot := rows;
      var w := InMoveWindow(menuId, start, end);
      matched := CountWhere(w);
      var out: seq<Relation> := [];
      var i := 0;
      while i < |snapshot|
        invariant 0 <= i <= |snapshot|
        invariant |out| == i
        invariant forall k :: 0 <= k < i ==> out[k] == MoveRow(snapshot[k], menuId, start, end)
      {
        var r := snapshot[i];
        if Matches(w, r) {
          r := r.(position := MovedPosition(r.position, start, end));
        }
        out := out + [r];
        i := i + 1;
      }
      MoveRowsOf(snapshot, menuId, start, end, out);
      rows := out;
    }

    /** The value the SET clause of `updateBatchPosition` gives one row of `t1`. */
    method RankOne(menuId: string, r: Relation) returns (ranked: Relation)
      ensures ranked == RankRow(rows, menuId, r)
    {
      ranked := r;
      if Matches(InMenu(menuId), r) {
        var cnt := CountWhere(InMenuBelow(menuId, r.position));
        ranked := r.(position := cnt);
      }
    }

    /**
     * `updateBatchPosition(menuId)`. The loop walks `t1`; for each live row of the
     * menu the correlated `count(1)` is a scan of the snapshot `t2`, which is the
     * unmodified table until the single assignment at the end.
     */
    method UpdateBatchPosition(menuId: string) returns (matched: nat)
      modifies this
      ensures rows == RankRows(old(rows), menuId)
      ensures matched == Count(old(rows), InMenu(menuId))
    {
      var snapshot := rows;
      matched := CountWhere(InMenu(menuId));
      var out: seq<Relation> := [];
      var i := 0;
      while i < |snapshot|
        invariant rows == snapshot
        invariant 0 <= i <= |snapshot|
        invariant |out| == i
        invariant forall k :: 0 <= k < i ==> out[k] == RankRow(snapshot, menuId, snapshot[k])
      {
        var r := RankOne(menuId, snapshot[i]);
        out := out + [r];
        i := i + 1;
      }
      RankRowsOf(snapshot, menuId, out);
      rows := out;
    }

    /** `removeBatchByIds(ids)` under logical deletion. */
    method RemoveBatchByIds(ids: seq<string>)
      modifies this
      ensures rows == RemoveByIds(old(rows), ids)
    {
      rows := RemoveByIds(rows, ids);
    }

    /** `delete(new LambdaQueryWrapper().in(menuId, menuIds))` under logical deletion. */
    method DeleteByMenuIds(menuIds: seq<string>)
      modifies this
      ensures rows == RemoveByMenuIds(old(rows), menuIds)
    {
      rows := RemoveByMenuIds(rows, menuIds);
    }
  }
}
