/**
 * MusicMenuServiceImpl: the owner's paged playlist listing and the cascading
 * playlist delete, over the `music_menu` table and the relation table.
 */
module MenuService {
  import opened Base
  import opened MenuRelationMapper

  /** One row of `music_menu`, with the inherited audit and logical-delete columns that matter here. */
  datatype Menu = Menu(id: string, title: Option<string>, createBy: Option<string>, createTime: int, deleted: bool)

  /** Logical `removeBatchByIds` on `music_menu`. */
  function RemoveMenus(menus: seq<Menu>, ids: seq<string>): (r: seq<Menu>)
    ensures |r| == |menus|
  {
    seq(|menus|, i requires 0 <= i < |menus| =>
      if !menus[i].deleted && menus[i].id in ids then menus[i].(deleted := true) else menus[i])
  }

  /** The `music_menu` table. */
  class MenuTable {
    var rows: seq<Menu>

    constructor (initial: seq<Menu>)
      ensures rows == initial
    {
      rows := initial;
    }

    method RemoveBatchByIds(ids: seq<string>)
      modifies this
      ensures rows == RemoveMenus(old(rows), ids)
    {
      rows := RemoveMenus(rows, ids);
    }
  }

  class MenuService {
    const menus: MenuTable
    const relations: RelationTable

    constructor (menus: MenuTable, relations: RelationTable)
      ensures this.menus == menus && this.relations == relations
    {
      this.menus := menus;
      this.relations := relations;
    }

    /**
     * `deleteMenu(ids)`: with a null or empty list nothing happens; otherwise
     * the relations of the listed menus are deleted, then the menus themselves.
     */
    method DeleteMenu(ids: Option<seq<string>>) returns (r: bool)
      modifies menus, relations
      ensures r
      ensures (ids.None? || ids.value == []) ==>
        menus.rows == old(menus.rows) && relations.rows == old(relations.rows)
      ensures ids.Some? && ids.value != [] ==>
        relations.rows == RemoveByMenuIds(old(relations.rows), ids.value) && menus.rows == RemoveMenus(old(menus.rows), ids.value)
    {
      if ids.Some? && |ids.value| > 0 {
        relations.DeleteByMenuIds(ids.value);
        menus.RemoveBatchByIds(ids.value);
      }
      return true;
    }
  }

  /** Every live relation belongs to a live menu. */
  predicate RelationsReferToLiveMenus(menus: seq<Menu>, relations: seq<Relation>)
  {
    forall i :: 0 <= i < |relations| && !relations[i].deleted ==>
      exists j :: 0 <= j < |menus| && !menus[j].deleted && menus[j].id == relations[i].menuId
  }

  /**
   * The cascade in `deleteMenu`: a listed menu and all of its relations stop
   * being live, nothing else changes, and so no live relation is left
   * pointing at a deleted menu.
   */
  lemma DeleteMenuCascade(menus: seq<Menu>, relations: seq<Relation>, ids: seq<string>)
    requires RelationsReferToLiveMenus(menus, relations)
    ensures var menus', relations' := RemoveMenus(menus, ids), RemoveByMenuIds(relations, ids);
      && (forall j :: 0 <= j < |menus| ==> menus'[j] == (if !menus[j].deleted && menus[j].id in ids then menus[j].(deleted := true) else menus[j]))
      && (forall i :: 0 <= i < |relations| ==> (!relations'[i].deleted <==> !relations[i].deleted && relations[i].menuId !in ids))
      && (forall i :: 0 <= i < |relations| && relations[i].menuId !in ids ==> relations'[i] == relations[i])
      && RelationsReferToLiveMenus(menus', relations')
  {
    var menus', relations' := RemoveMenus(menus, ids), RemoveByMenuIds(relations, ids);
    forall i | 0 <= i < |relations'| && !relations'[i].deleted
      ensures exists j :: 0 <= j < |menus'| && !menus'[j].deleted && menus'[j].id == relations'[i].menuId
    {
      var j :| 0 <= j < |menus| && !menus[j].deleted && menus[j].id == relations[i].menuId;
      assert !menus'[j].deleted;
    }
  }

  // ---------------------------------------------------------------- getPageList

  /**
   * The WHERE clause of `getPageList`: a live menu created by the caller and,
   * when the title filter is not blank, whose title matches `LIKE '%title%'`
   * with the filter bound unescaped. A null user id binds `create_by = NULL`,
   * and a null title never matches LIKE, so no such row satisfies it.
   */
  predicate Selected(m: Menu, title: Option<string>, userId: Option<string>)
  {
    !m.deleted && userId.Some? && m.createBy == userId
    && (IsBlank(title) || (m.title.Some? && LikeMatch("%" + title.value + "%", m.title.value)))
  }

  function Filter(menus: seq<Menu>, title: Option<string>, userId: Option<string>): (r: seq<Menu>)
    ensures forall m :: multiset(r)[m] == (if Selected(m, title, userId) then multiset(menus)[m] else 0)
  {
    if menus == [] then []
    else
      assert menus == [menus[0]] + menus[1..];
      (if Selected(menus[0], title, userId) then [menus[0]] else []) + Filter(menus[1..], title, userId)
  }

  /** `ORDER BY create_time DESC`. */
  predicate SortedDesc(s: seq<Menu>)
  {
    forall i, j :: 0 <= i < j < |s| ==> s[i].createTime >= s[j].createTime
  }

  function InsertDesc(x: Menu, s: seq<Menu>): (r: seq<Menu>)
    requires SortedDesc(s)
    ensures SortedDesc(r)
    ensures multiset(r) == multiset(s) + multiset{x}
    ensures |r| == |s| + 1
    ensures r[0] == x || (s != [] && r[0] == s[0])
  {
    if s == [] || x.createTime >= s[0].createTime then ConsSorted(x, s); [x] + s
    else
      assert s == [s[0]] + s[1..];
      var t := InsertDesc(x, s[1..]);
      assert t[0] == x || t[0] == s[1];
      ConsSorted(s[0], t);
      assert multiset([s[0]] + t) == multiset{s[0]} + multiset(t);
      [s[0]] + t
  }

  lemma ConsSorted(x: Menu, t: seq<Menu>)
    requires SortedDesc(t) && (t == [] || x.createTime >= t[0].createTime)
    ensures SortedDesc([x] + t)
  {
  }

  /** The rows in `create_time` descending order (rows with equal times in some order). */
  function SortDesc(s: seq<Menu>): (r: seq<Menu>)
    ensures SortedDesc(r)
    ensures multiset(r) == multiset(s)
    ensures |r| == |s|
  {
    if s == [] then []
    else
      assert s == [s[0]] + s[1..];
      InsertDesc(s[0], SortDesc(s[1..]))
  }

  /** The pagination plug-in's single-page cap (`setMaxLimit(1000)`). */
  const MaxLimit: int := 1000

  /** Rows per page after the cap: a negative or too large size becomes the cap. */
  function PageLimit(size: int): nat
  {
    if size < 0 || size > MaxLimit then MaxLimit else size
  }

  /** Rows skipped before page `current` (pages count from 1; anything below 1 is the first page). */
  function PageOffset(current: int, size: int): nat
  {
    if current <= 1 then 0 else (current - 1) * PageLimit(size)
  }

  datatype Page = Page(records: seq<Menu>, total: nat)

  function Min(a: int, b: int): int { if a <= b then a else b }

  /**
   * The rows of page `current` of `sorted`: at most one page of them, in their
   * order, and all of them when the first page is asked for and they fit.
   */
  function PageSlice(sorted: seq<Menu>, current: int, size: int): (r: seq<Menu>)
    ensures |r| <= PageLimit(size)
    ensures forall m :: m in r ==> m in sorted
    ensures SortedDesc(sorted) ==> SortedDesc(r)
    ensures current <= 1 && |sorted| <= PageLimit(size) ==> r == sorted
  {
    var from := Min(PageOffset(current, size), |sorted|);
    var to := Min(from + PageLimit(size), |sorted|);
    assert current <= 1 && |sorted| <= PageLimit(size) ==> sorted[from..to] == sorted;
    sorted[from..to]
  }

  /** `getPageList(page, musicMenu)` for the caller `userId`. */
  function GetPageList(menus: seq<Menu>, title: Option<string>, userId: Option<string>, current: int, size: int): (p: Page)
    ensures |p.records| <= PageLimit(size)
    ensures p.total == |Filter(menus, title, userId)|
  {
    var sorted := SortDesc(Filter(menus, title, userId));
    Page(PageSlice(sorted, current, size), |sorted|)
  }

  /** A page holds only selected menus of the table, newest first. */
  lemma PageIsSelected(menus: seq<Menu>, title: Option<string>, userId: Option<string>, current: int, size: int)
    ensures var p := GetPageList(menus, title, userId, current, size);
      SortedDesc(p.records) && forall m :: m in p.records ==> m in menus && Selected(m, title, userId)
  {
    var filtered := Filter(menus, title, userId);
    FilterMembers(menus, title, userId);
    SortMembers(filtered);
  }

  lemma FilterMembers(menus: seq<Menu>, title: Option<string>, userId: Option<string>)
    ensures forall m :: m in Filter(menus, title, userId) ==> m in menus && Selected(m, title, userId)
  {
    forall m | m in Filter(menus, title, userId) ensures m in menus && Selected(m, title, userId) {
      assert multiset(Filter(menus, title, userId))[m] > 0;
    }
  }

  lemma SortMembers(s: seq<Menu>)
    ensures forall m :: m in SortDesc(s) ==> m in s
  {
    forall m | m in SortDesc(s) ensures m in s {
      assert multiset(SortDesc(s))[m] > 0;
    }
  }

  /**
   * When the first page is large enough for every selected menu, it holds each
   * of them exactly as often as the table does, and nothing else.
   */
  lemma FirstPageIsWholeSelection(menus: seq<Menu>, title: Option<string>, userId: Option<string>, size: int)
    requires |Filter(menus, title, userId)| <= PageLimit(size)
    ensures forall m :: (multiset(GetPageList(menus, title, userId, 1, size).records)[m] ==
      if Selected(m, title, userId) then multiset(menus)[m] else 0)
  {
  }

  /** A blank title filter only narrows by owner and liveness. */
  lemma BlankTitleIgnored(m: Menu, title: Option<string>, userId: Option<string>)
    requires IsBlank(title)
    ensures Selected(m, title, userId) <==> !m.deleted && userId.Some? && m.createBy == userId
  {
  }

  /** A filter without LIKE wildcards or escapes selects the titles that contain it. */
  lemma LiteralTitleFilter(m: Menu, title: string, userId: Option<string>)
    requires !IsBlank(Some(title)) && NoLikeWildcards(title)
    ensures Selected(m, Some(title), userId) <==>
      !m.deleted && userId.Some? && m.createBy == userId && m.title.Some? && ContainsSubstring(m.title.value, title)
  {
    if m.title.Some? {
      LikeContains(title, m.title.value);
    }
  }

  /** The filter `_` is a wildcard: it selects a menu titled "ab", which holds no '_'. */
  lemma WildcardTitleSelects(id: string, userId: string, createTime: int)
    ensures var m := Menu(id, Some("ab"), Some(userId), createTime, false);
      Selected(m, Some("_"), Some(userId)) && !ContainsSubstring("ab", "_")
  {
    LikeWildcardTitle();
    assert !IsJavaWhitespace("_"[0]);
  }

  /** Without a user id nothing is listed. */
  lemma NoUserNoRows(menus: seq<Menu>, title: Option<string>, current: int, size: int)
    ensures GetPageList(menus, title, None, current, size) == Page([], 0)
  {
  }
}
