/**
 * MusicMenuRelationServiceImpl: adding, removing and moving the tracks of a
 * playlist, each one `@Transactional` call made of the relation table's
 * statements, run one after the other on the shared table.
 */
module MenuRelationService {
  import opened Base
  import opened MenuRelationMapper
  import opened RelationOrder

  const DuplicateMusic: string := "已存在该歌曲"

  /** The row `addMusic` saves: the caller's ids, a live row, at position `position`. */
  function NewRelation(id: string, menuId: string, musicId: string, position: int): Relation
  {
    Relation(id, menuId, musicId, position, false)
  }

  /**
   * The table after a successful `addMusic`: on an empty menu the row is saved
   * at 0; on a menu of N > 0 tracks it is saved at N and then moved to 0.
   */
  function AddedRows(rows: seq<Relation>, id: string, menuId: string, musicId: string): (r: seq<Relation>)
    ensures |r| == |rows| + 1
  {
    var n := Size(rows, menuId);
    if n > 0 then MoveRows(rows + [NewRelation(id, menuId, musicId, n)], menuId, n, 0)
    else rows + [NewRelation(id, menuId, musicId, 0)]
  }

  /** The table after `deleteMusic(menuId, ids)`: the listed rows are deleted, then the menu is re-ranked. */
  function DeletedRows(rows: seq<Relation>, menuId: string, ids: seq<string>): (r: seq<Relation>)
    ensures |r| == |rows|
  {
    RankRows(RemoveByIds(rows, ids), menuId)
  }

  class RelationService {
    const table: RelationTable

    constructor (table: RelationTable)
      ensures this.table == table
    {
      this.table := table;
    }

    /**
     * `addMusic`: refuses a track the menu already holds, otherwise saves the
     * new row and puts it first.
     */
    method AddMusic(id: string, menuId: string, musicId: string) returns (r: Outcome<bool>)
      modifies table
      ensures Count(old(table.rows), InMenuWithMusic(menuId, musicId)) > 0 ==>
        r == Err(DuplicateMusic) && table.rows == old(table.rows)
      ensures Count(old(table.rows), InMenuWithMusic(menuId, musicId)) == 0 ==>
        r == Ok(true) && table.rows == AddedRows(old(table.rows), id, menuId, musicId)
    {
      var count := table.CountWhere(InMenuWithMusic(menuId, musicId));
      if count > 0 {
        return Err(DuplicateMusic);
      }
      var musicNum := table.CountWhere(InMenu(menuId));
      if musicNum > 0 {
        table.Save(NewRelation(id, menuId, musicId, musicNum));
        var start, end := musicNum, 0;
        var _ := table.UpdatePosition(menuId, start, end);
      } else {
        table.Save(NewRelation(id, menuId, musicId, 0));
      }
      return Ok(true);
    }

    /** `deleteMusic`: deletes the listed relation rows, then re-ranks the menu. */
    method DeleteMusic(menuId: string, ids: seq<string>) returns (r: bool)
      modifies table
      ensures r
      ensures table.rows == DeletedRows(old(table.rows), menuId, ids)
    {
      table.RemoveBatchByIds(ids);
      var _ := table.UpdateBatchPosition(menuId);
      return true;
    }

    /** `moveMusic`: exactly one `updatePosition`. */
    method MoveMusic(menuId: string, start: int, end: int) returns (r: bool)
      modifies table
      ensures r
      ensures table.rows == MoveRows(old(table.rows), menuId, start, end)
    {
      var _ := table.UpdatePosition(menuId, start, end);
      return true;
    }
  }

  /** Appending a live row of the menu at position N keeps a dense menu dense, now with N+1 rows. */
  lemma AppendAtEndDense(rows: seq<Relation>, x: Relation, m: string)
    requires Dense(rows, m)
    requires Matches(InMenu(m), x) && x.position == Size(rows, m)
    ensures Size(rows + [x], m) == Size(rows, m) + 1
    ensures Dense(rows + [x], m)
  {
    var rows1 := rows + [x];
    LiveAppend(rows, x, m);
    forall i | i in Live(rows1, m) && i < |rows| ensures rows1[i] == rows[i] && i in Live(rows, m) { }
  }

  /**
   * A successful add on a dense menu: the menu grows by one, stays dense, the
   * new track is first and every earlier track moves down by one; other
   * rows are untouched.
   */
  lemma AddKeepsDense(rows: seq<Relation>, id: string, menuId: string, musicId: string)
    requires Dense(rows, menuId)
    ensures var rows' := AddedRows(rows, id, menuId, musicId);
      && Size(rows', menuId) == Size(rows, menuId) + 1
      && Dense(rows', menuId)
      && rows'[|rows|] == NewRelation(id, menuId, musicId, 0)
      && (forall i :: i in Live(rows, menuId) ==> rows'[i] == rows[i].(position := rows[i].position + 1))
      && (forall i :: 0 <= i < |rows| && i !in Live(rows, menuId) ==> rows'[i] == rows[i])
  {
    var n := Size(rows, menuId);
    if n > 0 {
      var x := NewRelation(id, menuId, musicId, n);
      var rows1 := rows + [x];
      var rows' := MoveRows(rows1, menuId, n, 0);
      AppendAtEndDense(rows, x, menuId);
      MovePreservesDense(rows1, menuId, n, 0);
      MoveKeepsLive(rows1, menuId, n, 0, menuId);
      MoveEffect(rows1, menuId, n, 0, |rows|);
      forall i | i in Live(rows, menuId) ensures rows'[i] == rows[i].(position := rows[i].position + 1) {
        MoveEffect(rows1, menuId, n, 0, i);
      }
      forall i | 0 <= i < |rows| && i !in Live(rows, menuId) ensures rows'[i] == rows[i] {
        MoveEffect(rows1, menuId, n, 0, i);
      }
    } else {
      var x := NewRelation(id, menuId, musicId, 0);
      AppendAtEndDense(rows, x, menuId);
    }
  }

  /** A successful add leaves every other menu exactly as it was. */
  lemma AddOtherMenus(rows: seq<Relation>, id: string, menuId: string, musicId: string, m: string)
    requires m != menuId
    ensures Live(AddedRows(rows, id, menuId, musicId), m) == Live(rows, m)
    ensures forall i :: i in Live(rows, m) ==> AddedRows(rows, id, menuId, musicId)[i] == rows[i]
  {
    var n := Size(rows, menuId);
    var x := NewRelation(id, menuId, musicId, if n > 0 then n else 0);
    LiveAppend(rows, x, m);
    if n > 0 {
      MoveOtherMenus(rows + [x], menuId, n, 0, m);
      MoveKeepsLive(rows + [x], menuId, n, 0, m);
    }
  }

  /**
   * After `deleteMusic` the live rows of the menu are its old live rows whose
   * ids are not listed, and the menu is dense again with its survivors in
   * their old order.
   */
  lemma DeleteReranks(rows: seq<Relation>, menuId: string, ids: seq<string>)
    requires DistinctPositions(rows, menuId)
    ensures var rows' := DeletedRows(rows, menuId, ids);
      && Live(rows', menuId) == set i | i in Live(rows, menuId) && rows[i].id !in ids
      && Dense(rows', menuId)
      && (forall i, j :: i in Live(rows', menuId) && j in Live(rows', menuId) ==>
            (rows[i].position < rows[j].position <==> rows'[i].position < rows'[j].position))
  {
    var removed := RemoveByIds(rows, ids);
    assert Live(removed, menuId) == set i | i in Live(rows, menuId) && rows[i].id !in ids;
    assert DistinctPositions(removed, menuId);
    RankMakesDense(removed, menuId);
    RankKeepsLive(removed, menuId, menuId);
  }

  /**
   * `removeBatchByIds(ids)` is not restricted to the menu: in every other menu
   * a listed row is deleted too, and the survivors keep their rows, positions
   * included, because only the named menu is re-ranked.
   */
  lemma DeleteOtherMenus(rows: seq<Relation>, menuId: string, ids: seq<string>, m: string)
    requires m != menuId
    ensures var rows' := DeletedRows(rows, menuId, ids);
      && Live(rows', m) == set i | i in Live(rows, m) && rows[i].id !in ids
      && (forall i :: i in Live(rows', m) ==> rows'[i] == rows[i])
  {
    var removed := RemoveByIds(rows, ids);
    assert Live(removed, m) == set i | i in Live(rows, m) && rows[i].id !in ids;
    RankKeepsLive(removed, menuId, m);
    RankOtherMenus(removed, menuId, m);
  }

  /**
   * So an id of another menu in the list leaves a gap there: deleting "b" of
   * menu "m2" through menu "m1" leaves "m2" with its one track at position 1.
   */
  lemma ForeignIdLeavesGap()
    ensures var rows := [Relation("a", "m1", "x", 0, false), Relation("b", "m2", "y", 0, false), Relation("c", "m2", "z", 1, false)];
      Dense(rows, "m2") && !Dense(DeletedRows(rows, "m1", ["b"]), "m2")
  {
    var rows := [Relation("a", "m1", "x", 0, false), Relation("b", "m2", "y", 0, false), Relation("c", "m2", "z", 1, false)];
    LiveOfThree(rows, "m2");
    assert Live(rows, "m2") == {1, 2};
    var rows' := DeletedRows(rows, "m1", ["b"]);
    DeleteOtherMenus(rows, "m1", ["b"], "m2");
    assert Live(rows', "m2") == {2};
    assert rows'[2].position == 1;
  }

  /** The live rows of a menu in a table of three rows. */
  lemma LiveOfThree(rows: seq<Relation>, m: string)
    requires |rows| == 3
    ensures Live(rows, m) == set i | 0 <= i < 3 && Matches(InMenu(m), rows[i])
  {
    MatchingStep(rows, InMenu(m), 0);
    MatchingStep(rows, InMenu(m), 1);
    MatchingStep(rows, InMenu(m), 2);
  }
}
