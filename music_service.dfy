/**
 * MusicServiceImpl: the music catalog (`music` table, live rows only) and the
 * two storage directories on disk. Uploading stores the audio file under a
 * fresh name in the music directory and the row in the catalog; deleting
 * removes both files and the row; the delete path check keeps every file
 * deletion inside its directory; playing and downloading look a row up and
 * hand its stored file to the response builders.
 */
module MusicCatalog {
  import opened Base
  import opened JavaPaths
  import opened FileStore
  import opened FileParse
  import opened MediaResponse

  /** A row of `music` (inherited id, the columns the service reads and writes). */
  datatype Music = Music(
    id: Option<string>, title: Option<string>, singer: Option<string>, album: Option<string>,
    duration: Option<string>, filePath: Option<string>, fileName: Option<string>,
    fileSize: Option<string>, fileType: Option<string>, coverUrl: Option<string>,
    playCount: Option<int>, downloadCount: Option<int>)

  /** Live rows by id. */
  type Catalog = map<string, Music>

  // ---------------------------------------------------------------- messages

  const NoSuchMusic := "音乐文件不存在"
  const IllegalPath := "非法文件路径: "
  const NotRegularFile := "目标路径不是普通文件: "
  const EmptyUpload := "上传失败：文件不能为空"
  const NotAudio := "上传失败：文件不是有效的音频文件"
  const SaveFailed := "上传失败：数据库保存失败"
  const SystemFailure := "上传失败：系统异常"
  const Uploaded := "音乐文件上传成功"

  function DuplicateMessage(title: Option<string>, singer: Option<string>): string
  {
    "歌曲已存在：" + JavaStr(singer) + " - " + JavaStr(title)
  }

  // ---------------------------------------------------------------- locations

  /** `Paths.get(dir).toAbsolutePath().normalize()` for an absolute `dir`. */
  function Root(dir: string): Path
  {
    Normalize(Parse(dir))
  }

  /** `basePath.resolve(rel).normalize()`: where a delete looks for `rel`. */
  function DeleteTarget(dir: string, rel: string): Path
  {
    Normalize(Resolve(Root(dir), Parse(rel)))
  }

  /** `new File(dir + File.separator + rel)`: where upload, play and download put or find `rel`. */
  function StoredFile(dir: string, rel: string): Path
  {
    Locate(dir + "/" + rel)
  }

  // ---------------------------------------------------------------- deleting one stored file

  /** What `deleteMusicFile` / `deleteCoverFile` decide for a stored path. */
  datatype Deletion = Skipped | Refused(message: string) | Removed(target: Path)

  /**
   * The decision: a blank path is skipped; a path whose normal form leaves
   * the directory, or that names something other than a regular file, is
   * refused; anything else is deleted if it exists.
   */
  function PlanDeletion(fs: FileSystem, dir: string, filePath: Option<string>): (d: Deletion)
    ensures d.Skipped? <==> IsBlank(filePath)
    ensures d.Removed? ==> !IsBlank(filePath) && d.target == DeleteTarget(dir, filePath.value)
    ensures d.Removed? ==> StartsWith(d.target, Root(dir)) && (Exists(fs, d.target) ==> IsRegularFile(fs, d.target))
    ensures d.Refused? <==> (!IsBlank(filePath) &&
      (!StartsWith(DeleteTarget(dir, filePath.value), Root(dir)) ||
       (Exists(fs, DeleteTarget(dir, filePath.value)) && !IsRegularFile(fs, DeleteTarget(dir, filePath.value)))))
    ensures d.Refused? ==> d.message == (if StartsWith(DeleteTarget(dir, filePath.value), Root(dir)) then NotRegularFile else IllegalPath) + filePath.value
  {
    if IsBlank(filePath) then Skipped
    else
      var t := DeleteTarget(dir, filePath.value);
      if !StartsWith(t, Root(dir)) then Refused(IllegalPath + filePath.value)
      else if Exists(fs, t) && !IsRegularFile(fs, t) then Refused(NotRegularFile + filePath.value)
      else Removed(t)
  }

  /** The filesystem after a decision: `Files.deleteIfExists` of the target, or nothing. */
  function Apply(fs: FileSystem, d: Deletion): FileSystem
  {
    if d.Removed? then fs - {d.target} else fs
  }

  /**
   * Containment: a stored-file delete removes at most one node, that node is a
   * regular file, and it lies under the directory; every other node is kept.
   */
  lemma DeletionContained(fs: FileSystem, dir: string, filePath: Option<string>)
    ensures var after := Apply(fs, PlanDeletion(fs, dir, filePath));
      && (forall q :: q in after ==> q in fs && after[q] == fs[q])
      && (forall q :: q in fs && q !in after ==> StartsWith(q, Root(dir)) && IsRegularFile(fs, q))
      && |fs.Keys - after.Keys| <= 1
  {
    var d := PlanDeletion(fs, dir, filePath);
    var after := Apply(fs, d);
    if d.Removed? {
      assert fs.Keys - after.Keys <= {d.target};
    } else {
      assert fs.Keys - after.Keys == {};
    }
  }

  // ---------------------------------------------------------------- stored names

  /**
   * A random file name as `UUID.randomUUID().toString()` produces it: not
   * empty, no '/', and a first character that is neither '.' nor whitespace.
   */
  predicate RandomName(u: string)
  {
    |u| > 0 && '/' !in u && u[0] != '.' && !IsJavaWhitespace(u[0])
  }

  /** A character the string lacks is in none of its pieces. */
  lemma {:induction false} SplitAvoids(s: string, c: char)
    requires c !in s
    ensures forall i :: 0 <= i < |Split(s)| ==> c !in Split(s)[i]
    decreases |s|
  {
    if s != [] {
      assert s == [s[0]] + s[1..];
      SplitAvoids(s[1..], c);
    }
  }

  /** Splitting `u + t` when `u` has no slash: `u` joins the first piece of `t`. */
  lemma {:induction false} SplitPrefix(u: string, t: string)
    requires '/' !in u
    ensures Split(u + t)[0] == u + Split(t)[0]
    ensures Split(u + t)[1..] == Split(t)[1..]
    decreases |u|
  {
    if u == [] {
      assert u + t == t;
    } else {
      assert u == [u[0]] + u[1..];
      SplitPrefix(u[1..], t);
      assert (u + t)[0] == u[0];
      assert (u + t)[1..] == u[1..] + t;
      assert [u[0]] + (u[1..] + Split(t)[0]) == u + Split(t)[0];
    }
  }

  /**
   * The name an upload stores its file under, `uuid + "." + ext`, parses into
   * plain names only: the uuid part starts with neither '.' nor '/', and the
   * extension holds no '.', so no piece can be `.` or `..`.
   */
  lemma StoredNameIsPlain(uuid: string, ext: string)
    requires RandomName(uuid)
    requires '.' !in ext
    ensures var p := Parse(uuid + "." + ext);
      !p.absolute && |p.names| > 0 && forall i :: 0 <= i < |p.names| ==> PlainName(p.names[i])
  {
    var name := uuid + "." + ext;
    StoredPiecesPlain(uuid, ext);
    NonEmptyKeepsPlain(Split(name));
    assert name[0] == uuid[0];
  }

  /** The first piece of `uuid.ext` is plain, and no later piece holds a '.'. */
  lemma StoredPiecesPlain(uuid: string, ext: string)
    requires RandomName(uuid)
    requires '.' !in ext
    ensures var pieces := Split(uuid + "." + ext);
      PlainName(pieces[0]) && forall j :: 0 <= j < |pieces| && pieces[j] != "" ==> PlainName(pieces[j])
  {
    var u := uuid + ".";
    assert uuid + "." + ext == u + ext;
    assert '/' !in u;
    SplitPrefix(u, ext);
    SplitAvoids(ext, '.');
    var pieces := Split(u + ext);
    assert pieces[0][0] == uuid[0];
    forall j | 1 <= j < |pieces| && pieces[j] != "" ensures PlainName(pieces[j]) {
      assert pieces[j] == Split(ext)[j];
      assert '.' !in pieces[j];
    }
  }

  /** Dropping the empty pieces keeps only plain names when every non-empty piece is plain; a non-empty first piece survives. */
  lemma NonEmptyKeepsPlain(pieces: seq<string>)
    requires forall j :: 0 <= j < |pieces| && pieces[j] != "" ==> PlainName(pieces[j])
    ensures forall i :: 0 <= i < |NonEmpty(pieces)| ==> PlainName(NonEmpty(pieces)[i])
    ensures pieces != [] && pieces[0] != "" ==> |NonEmpty(pieces)| > 0
  {
    var r := NonEmpty(pieces);
    forall i | 0 <= i < |r| ensures PlainName(r[i]) {
      var j :| 0 <= j < |pieces| && pieces[j] == r[i];
    }
  }

  /**
   * The file an upload writes (`dir + "/" + uuid + "." + ext`) lies under the
   * directory, and it is exactly the node a later delete of that stored name
   * resolves to: upload and delete agree on where the file lives.
   */
  lemma UploadedFileLocation(dir: string, uuid: string, ext: string)
    requires |dir| > 0 && dir[0] == '/'
    requires RandomName(uuid)
    requires '.' !in ext
    ensures var name := uuid + "." + ext;
      && StoredFile(dir, name) == DeleteTarget(dir, name)
      && StartsWith(StoredFile(dir, name), Root(dir))
  {
    var name := uuid + "." + ext;
    StoredNameIsPlain(uuid, ext);
    var base := Root(dir);
    var rel := Parse(name);
    NormalizeIsNormal(Parse(dir));
    PlainRelativeStaysInside(base, rel);
    ParseJoin(dir, name);
    var joined := Parse(dir + "/" + name);
    assert joined == Path(true, Parse(dir).names + rel.names);
    FoldAppend(true, [], Parse(dir).names, rel.names);
    FoldPlain(true, base.names, rel.names);
  }

  /** A file at the stored name is what the delete of that name removes: upload then delete leaves no trace. */
  lemma UploadThenDeleteRemoves(fs: FileSystem, dir: string, uuid: string, ext: string, content: seq<byte>)
    requires |dir| > 0 && dir[0] == '/'
    requires RandomName(uuid)
    requires '.' !in ext
    ensures var name := uuid + "." + ext;
      var written := fs[StoredFile(dir, name) := RegularFile(content, true)];
      && PlanDeletion(written, dir, Some(name)) == Removed(StoredFile(dir, name))
      && Apply(written, PlanDeletion(written, dir, Some(name))) == fs - {StoredFile(dir, name)}
  {
    var name := uuid + "." + ext;
    UploadedFileLocation(dir, uuid, ext);
    assert name[0] == uuid[0];
  }

  // ---------------------------------------------------------------- duplicate checks

  /** `eq(column, value)`: SQL equality, under which a null value matches no row. */
  predicate SqlEq(column: Option<string>, value: Option<string>)
  {
    value.Some? && column == value
  }

  /** `ne(column, value)`: SQL inequality, which a null value also fails for every row. */
  predicate SqlNe(column: Option<string>, value: Option<string>)
  {
    value.Some? && column.Some? && column != value
  }

  /** The upload's `selectCount(title = ? AND singer = ?) > 0`. */
  predicate DuplicateOnUpload(catalog: Catalog, title: Option<string>, singer: Option<string>)
  {
    exists k :: k in catalog && SqlEq(catalog[k].title, title) && SqlEq(catalog[k].singer, singer)
  }

  /** The update's `selectCount(title = ? AND singer = ? AND id <> ?) > 0`. */
  predicate DuplicateOnUpdate(catalog: Catalog, title: Option<string>, singer: Option<string>, id: Option<string>)
  {
    exists k :: k in catalog && SqlEq(catalog[k].title, title) && SqlEq(catalog[k].singer, singer) && SqlNe(Some(k), id)
  }

  /** A null title or singer never finds a duplicate. */
  lemma NullNeverDuplicates(catalog: Catalog, title: Option<string>, singer: Option<string>, id: Option<string>)
    requires title.None? || singer.None?
    ensures !DuplicateOnUpload(catalog, title, singer) && !DuplicateOnUpdate(catalog, title, singer, id)
  {
  }

  /** No two live rows share a non-null title and singer. */
  predicate UniqueSongs(catalog: Catalog)
  {
    forall a, b :: a in catalog && b in catalog && a != b && catalog[a].title.Some? && catalog[a].singer.Some? ==>
      !(catalog[a].title == catalog[b].title && catalog[a].singer == catalog[b].singer)
  }

  // ---------------------------------------------------------------- the upload row

  /** The row `uploadMusic` saves. */
  function NewMusic(id: string, info: FileInfo, filePath: string, coverUrl: Option<string>): (m: Music)
    ensures m.id == Some(id) && m.filePath == Some(filePath) && m.coverUrl == coverUrl
    ensures m.title == info.title && m.singer == info.singer && m.fileType == Some(info.fileExtension)
    ensures m.fileName == Some(JavaStr(info.singer) + " - " + JavaStr(info.title))
    ensures m.playCount == Some(0) && m.downloadCount == Some(0)
  {
    Music(Some(id), info.title, info.singer, info.album, Some(info.duration), Some(filePath),
          Some(JavaStr(info.singer) + " - " + JavaStr(info.title)), Some(info.fileSize),
          Some(info.fileExtension), coverUrl, Some(0), Some(0))
  }

  /**
   * Saving the row of an upload that passed the duplicate check keeps the
   * catalog free of repeated songs, and once it is saved the same title and
   * singer are refused as a duplicate.
   */
  lemma NewMusicKeepsUnique(catalog: Catalog, newId: string, info: FileInfo, filePath: string, coverUrl: Option<string>)
    requires UniqueSongs(catalog) && newId !in catalog
    requires !DuplicateOnUpload(catalog, info.title, info.singer)
    ensures var catalog' := catalog[newId := NewMusic(newId, info, filePath, coverUrl)];
      && UniqueSongs(catalog')
      && (info.title.Some? && info.singer.Some? ==> DuplicateOnUpload(catalog', info.title, info.singer))
  {
    var row := NewMusic(newId, info, filePath, coverUrl);
    var catalog' := catalog[newId := row];
    forall a, b | a in catalog' && b in catalog' && a != b && catalog'[a].title.Some? && catalog'[a].singer.Some?
      ensures !(catalog'[a].title == catalog'[b].title && catalog'[a].singer == catalog'[b].singer)
    {
      if a == newId {
        assert !(SqlEq(catalog[b].title, info.title) && SqlEq(catalog[b].singer, info.singer));
      } else if b == newId {
        assert !(SqlEq(catalog[a].title, info.title) && SqlEq(catalog[a].singer, info.singer));
      }
    }
    if info.title.Some? && info.singer.Some? {
      assert SqlEq(catalog'[newId].title, info.title) && SqlEq(catalog'[newId].singer, info.singer);
    }
  }

  /** The cover an upload writes: only a non-empty embedded image is stored. */
  predicate HasCover(info: FileInfo)
  {
    info.coverImage.Some? && |info.coverImage.value| > 0
  }

  /** `updateById`: every non-null field of the argument overwrites the stored one. */
  function Merge(stored: Music, m: Music): Music
  {
    Music(stored.id,
      if m.title.Some? then m.title else stored.title,
      if m.singer.Some? then m.singer else stored.singer,
      if m.album.Some? then m.album else stored.album,
      if m.duration.Some? then m.duration else stored.duration,
      if m.filePath.Some? then m.filePath else stored.filePath,
      if m.fileName.Some? then m.fileName else stored.fileName,
      if m.fileSize.Some? then m.fileSize else stored.fileSize,
      if m.fileType.Some? then m.fileType else stored.fileType,
      if m.coverUrl.Some? then m.coverUrl else stored.coverUrl,
      if m.playCount.Some? then m.playCount else stored.playCount,
      if m.downloadCount.Some? then m.downloadCount else stored.downloadCount)
  }

  // ---------------------------------------------------------------- updateMusic

  /** `updateMusic(music)` as written: the duplicate check on the argument, then `updateById`. */
  function UpdateResult(catalog: Catalog, m: Music): (r: (Outcome<bool>, Catalog))
    ensures r.0.Err? <==> DuplicateOnUpdate(catalog, m.title, m.singer, m.id)
    ensures r.0.Err? ==> r.0.message == DuplicateMessage(m.title, m.singer) && r.1 == catalog
    ensures r.0 == Ok(true) <==> r.0.Ok? && m.id.Some? && m.id.value in catalog
    ensures r.0 == Ok(false) ==> r.1 == catalog
    ensures r.0 == Ok(true) ==> r.1 == catalog[m.id.value := Merge(catalog[m.id.value], m)]
  {
    if DuplicateOnUpdate(catalog, m.title, m.singer, m.id) then (Err(DuplicateMessage(m.title, m.singer)), catalog)
    else if m.id.Some? && m.id.value in catalog then (Ok(true), catalog[m.id.value := Merge(catalog[m.id.value], m)])
    else (Ok(false), catalog)
  }

  /**
   * The check looks at the argument, but `updateById` keeps the stored value
   * of every null field: an update that sets only the singer can give a row
   * the title and singer of another row.
   */
  lemma PartialUpdateDuplicates()
    ensures var row := Music(None, Some("t"), Some("a"), None, None, None, None, None, None, None, None, None);
      var catalog: Catalog := map["1" := row.(id := Some("1")), "2" := row.(id := Some("2"), singer := Some("b"))];
      var m := Music(Some("2"), None, Some("a"), None, None, None, None, None, None, None, None, None);
      UniqueSongs(catalog) && UpdateResult(catalog, m).0 == Ok(true) && !UniqueSongs(UpdateResult(catalog, m).1)
  {
    var row := Music(None, Some("t"), Some("a"), None, None, None, None, None, None, None, None, None);
    var catalog: Catalog := map["1" := row.(id := Some("1")), "2" := row.(id := Some("2"), singer := Some("b"))];
    var m := Music(Some("2"), None, Some("a"), None, None, None, None, None, None, None, None, None);
    var after := UpdateResult(catalog, m).1;
    assert after["2"].title == Some("t") && after["2"].singer == Some("a");
    assert after["1"] == catalog["1"];
  }

  /** The duplicate check on the row as it will be stored. */
  function CheckedUpdateResult(catalog: Catalog, m: Music): (r: (Outcome<bool>, Catalog))
    ensures r.0.Ok? || r.1 == catalog
    ensures r.0 == Ok(true) ==> m.id.Some? && m.id.value in catalog && r.1 == catalog[m.id.value := Merge(catalog[m.id.value], m)]
    ensures r.0 == Ok(false) ==> r.1 == catalog
  {
    if m.id.Some? && m.id.value in catalog then
      var merged := Merge(catalog[m.id.value], m);
      if DuplicateOnUpdate(catalog, merged.title, merged.singer, m.id) then (Err(DuplicateMessage(merged.title, merged.singer)), catalog)
      else (Ok(true), catalog[m.id.value := merged])
    else (Ok(false), catalog)
  }

  /** Checking the merged row keeps the catalog free of duplicate songs. */
  lemma CheckedUpdateKeepsUnique(catalog: Catalog, m: Music)
    requires UniqueSongs(catalog)
    requires forall k :: k in catalog ==> catalog[k].id == Some(k)
    ensures UniqueSongs(CheckedUpdateResult(catalog, m).1)
  {
    var r := CheckedUpdateResult(catalog, m);
    if r.0 == Ok(true) {
      var id := m.id.value;
      var merged := Merge(catalog[id], m);
      var after := r.1;
      forall a, b | a in after && b in after && a != b && after[a].title.Some? && after[a].singer.Some?
        ensures !(after[a].title == after[b].title && after[a].singer == after[b].singer)
      {
        if a == id {
          if after[a].title == after[b].title && after[a].singer == after[b].singer {
            assert SqlEq(catalog[b].title, merged.title) && SqlEq(catalog[b].singer, merged.singer) && SqlNe(Some(b), m.id);
            assert false;
          }
        } else if b == id {
          if after[a].title == after[b].title && after[a].singer == after[b].singer {
            assert SqlEq(catalog[a].title, merged.title) && SqlEq(catalog[a].singer, merged.singer) && SqlNe(Some(a), m.id);
            assert false;
          }
        }
      }
    }
  }

  // ---------------------------------------------------------------- the service

  class MusicService {
    /** `music.file.path` and `cover.file.path` made absolute against the working directory. */
    const musicDir: string
    const coverDir: string
    var catalog: Catalog
    var fs: FileSystem

    ghost predicate Valid()
      reads this
    {
      |musicDir| > 0 && musicDir[0] == '/' && |coverDir| > 0 && coverDir[0] == '/'
      && forall k :: k in catalog ==> catalog[k].id == Some(k)
    }

    constructor (musicDir: string, coverDir: string, catalog: Catalog, fs: FileSystem)
      requires |musicDir| > 0 && musicDir[0] == '/' && |coverDir| > 0 && coverDir[0] == '/'
      requires forall k :: k in catalog ==> catalog[k].id == Some(k)
      ensures Valid()
      ensures this.musicDir == musicDir && this.coverDir == coverDir && this.catalog == catalog && this.fs == fs
    {
      this.musicDir := musicDir;
      this.coverDir := coverDir;
      this.catalog := catalog;
      this.fs := fs;
    }

    /** `deleteMusicFile(filePath)` (with `dir` the music directory) and `deleteCoverFile` (the cover directory). */
    method DeleteStoredFile(dir: string, filePath: Option<string>) returns (r: Outcome<()>)
      modifies this
      ensures catalog == old(catalog)
      ensures var d := PlanDeletion(old(fs), dir, filePath);
        && (r.Err? <==> d.Refused?) && (d.Refused? ==> r.message == d.message)
        && fs == Apply(old(fs), d)
    {
      ghost var d := PlanDeletion(fs, dir, filePath);
      if IsBlank(filePath) {
        assert d == Skipped;
        return Ok(());
      }
      var basePath := Root(dir);
      var fileFullPath := DeleteTarget(dir, filePath.value);
      if !StartsWith(fileFullPath, basePath) {
        assert d == Refused(IllegalPath + filePath.value);
        return Err(IllegalPath + filePath.value);
      }
      if Exists(fs, fileFullPath) && !IsRegularFile(fs, fileFullPath) {
        assert d == Refused(NotRegularFile + filePath.value);
        return Err(NotRegularFile + filePath.value);
      }
      assert d == Removed(fileFullPath);
      fs := fs - {fileFullPath};
      return Ok(());
    }

    /**
     * `deleteMusic(id)`: an unknown id is an error; otherwise the music file,
     * then the cover file, then the row. A refused file step ends the call
     * with its error and leaves the row (the transaction rolls the database
     * back, but a file already deleted stays deleted).
     */
    method DeleteMusic(id: string) returns (r: Outcome<bool>)
      requires Valid()
      modifies this
      ensures Valid()
      ensures id !in old(catalog) ==> r == Err(NoSuchMusic) && catalog == old(catalog) && fs == old(fs)
      ensures id in old(catalog) ==>
        var m := old(catalog)[id];
        var first := PlanDeletion(old(fs), musicDir, m.filePath);
        var second := PlanDeletion(Apply(old(fs), first), coverDir, m.coverUrl);
        && (first.Refused? ==> r == Err(first.message) && fs == old(fs) && catalog == old(catalog))
        && (!first.Refused? && second.Refused? ==> r == Err(second.message) && fs == Apply(old(fs), first) && catalog == old(catalog))
        && (!first.Refused? && !second.Refused? ==> r == Ok(true) && fs == Apply(Apply(old(fs), first), second) && catalog == old(catalog) - {id})
    {
      if id !in catalog {
        return Err(NoSuchMusic);
      }
      var music := catalog[id];
      var deleted := DeleteStoredFile(musicDir, music.filePath);
      if deleted.Err? {
        return Err(deleted.message);
      }
      deleted := DeleteStoredFile(coverDir, music.coverUrl);
      if deleted.Err? {
        return Err(deleted.message);
      }
      catalog := catalog - {id};
      return Ok(true);
    }

    /**
     * `updateMusic(music)`: refuses a title and singer another row already
     * has, then `updateById`, which reports whether a live row had the id.
     */
    method UpdateMusic(m: Music) returns (r: Outcome<bool>)
      requires Valid()
      modifies this
      ensures Valid() && fs == old(fs)
      ensures (r, catalog) == UpdateResult(old(catalog), m)
    {
      if DuplicateOnUpdate(catalog, m.title, m.singer, m.id) {
        return Err(DuplicateMessage(m.title, m.singer));
      }
      if m.id.Some? && m.id.value in catalog {
        catalog := catalog[m.id.value := Merge(catalog[m.id.value], m)];
        return Ok(true);
      }
      return Ok(false);
    }

    /**
     * `uploadMusic(file)`. `isAudio` is the content sniffer's verdict,
     * `sizeText`, `probe` and `tags` what the size formatter and the metadata
     * reader report, `uuid`/`coverUuid` the random names, `newId` the id the
     * row gets and `saved` what `save` returns. Empty, non-audio and duplicate
     * uploads are refused before anything is written. A save that reports
     * failure deletes the stored music file (not the cover) before failing.
     */
    method UploadMusic(file: Upload, isAudio: bool, sizeText: string, probe: AudioProbe, tags: Tags,
                       uuid: string, coverUuid: string, newId: string, saved: bool) returns (r: Outcome<string>)
      requires Valid()
      modifies this
      ensures Valid()
      ensures var info := ParseMusicFileWithTags(file, sizeText, probe, tags);
        var filePath := uuid + "." + info.fileExtension;
        var musicFile := StoredFile(musicDir, filePath);
        var coverUrl := if HasCover(info) then Some(coverUuid + ".jpg") else None;
        var written := old(fs)[musicFile := RegularFile(file.bytes, true)];
        var withCover := if HasCover(info) then written[StoredFile(coverDir, coverUuid + ".jpg") := RegularFile(info.coverImage.value, true)] else written;
        && (file.bytes == [] ==> r == Err(EmptyUpload) && fs == old(fs) && catalog == old(catalog))
        && (file.bytes != [] && !isAudio ==> r == Err(NotAudio) && fs == old(fs) && catalog == old(catalog))
        && (file.bytes != [] && isAudio && DuplicateOnUpload(old(catalog), info.title, info.singer) ==>
              r == Err(DuplicateMessage(info.title, info.singer)) && fs == old(fs) && catalog == old(catalog))
        && (file.bytes != [] && isAudio && !DuplicateOnUpload(old(catalog), info.title, info.singer) ==>
              && (newId in old(catalog) ==> r == Err(SystemFailure) && fs == withCover && catalog == old(catalog))
              && (newId !in old(catalog) && saved ==>
                    r == Ok(Uploaded) && fs == withCover && catalog == old(catalog)[newId := NewMusic(newId, info, filePath, coverUrl)])
              && (newId !in old(catalog) && !saved ==>
                    r == Err(SaveFailed) && fs == withCover - {musicFile} && catalog == old(catalog)))
    {
      if file.bytes == [] {
        return Err(EmptyUpload);
      }
      if !isAudio {
        return Err(NotAudio);
      }
      var fileInfo := ParseMusicFileWithTags(file, sizeText, probe, tags);
      var title, singer := fileInfo.title, fileInfo.singer;
      if DuplicateOnUpload(catalog, title, singer) {
        return Err(DuplicateMessage(title, singer));
      }
      var filePath := uuid + "." + fileInfo.fileExtension;
      var saveFile := StoredFile(musicDir, filePath);
      fs := fs[saveFile := RegularFile(file.bytes, true)];
      var coverUrl: Option<string> := None;
      if HasCover(fileInfo) {
        var coverFileName := coverUuid + ".jpg";
        fs := fs[StoredFile(coverDir, coverFileName) := RegularFile(fileInfo.coverImage.value, true)];
        coverUrl := Some(coverFileName);
      }
      if newId in catalog {
        return Err(SystemFailure);
      }
      if saved {
        catalog := catalog[newId := NewMusic(newId, fileInfo, filePath, coverUrl)];
        return Ok(Uploaded);
      }
      if Exists(fs, saveFile) {
        fs := fs - {saveFile};
      }
      return Err(SaveFailed);
    }
  }

  /**
   * An upload that passes every check stores its file under the music
   * directory, where a later delete of the row's `filePath` finds it.
   */
  lemma UploadStaysInside(musicDir: string, uuid: string, file: Upload, sizeText: string, probe: AudioProbe, tags: Tags)
    requires |musicDir| > 0 && musicDir[0] == '/'
    requires RandomName(uuid)
    ensures var name := uuid + "." + ParseMusicFileWithTags(file, sizeText, probe, tags).fileExtension;
      StartsWith(StoredFile(musicDir, name), Root(musicDir)) && StoredFile(musicDir, name) == DeleteTarget(musicDir, name)
  {
    UploadedFileLocation(musicDir, uuid, ParseMusicFileWithTags(file, sizeText, probe, tags).fileExtension);
  }

  /**
   * As written, the metadata map has no title or singer, so the duplicate
   * check binds nulls and never fires: the same song can be uploaded any
   * number of times.
   */
  lemma AsWrittenNeverDuplicate(catalog: Catalog, file: Upload, sizeText: string, probe: AudioProbe)
    ensures var info := ParseMusicFileWithTags(file, sizeText, probe, NoTags);
      !DuplicateOnUpload(catalog, info.title, info.singer)
  {
  }

  /** With the tags read, a song already in the catalog is refused. */
  lemma TaggedDuplicateRefused(catalog: Catalog, k: string, file: Upload, sizeText: string, probe: AudioProbe, tags: Tags)
    requires k in catalog && catalog[k].title == tags.title && catalog[k].singer == tags.singer
    requires tags.title.Some? && tags.singer.Some?
    ensures var info := ParseMusicFileWithTags(file, sizeText, probe, tags);
      DuplicateOnUpload(catalog, info.title, info.singer)
  {
    var info := ParseMusicFileWithTags(file, sizeText, probe, tags);
    assert SqlEq(catalog[k].title, info.title) && SqlEq(catalog[k].singer, info.singer);
  }

  // ---------------------------------------------------------------- play and download

  /** `filePath == null || filePath.trim().isEmpty()`. */
  predicate BlankPath(p: Option<string>)
  {
    p.None? || Trim(p.value) == []
  }

  /**
   * `FileParseUtil.isAudioFile(file)`: the content sniffer's verdict
   * (`sniff`), where an unreadable or missing file reads as not audio.
   */
  predicate IsAudioFile(fs: FileSystem, p: Path, sniff: Path -> bool)
  {
    IsRegularFile(fs, p) && CanRead(fs, p) && sniff(p)
  }

  /** `downloadMusic(id)`. */
  function DownloadMusic(catalog: Catalog, fs: FileSystem, musicDir: string, id: string,
                         sniff: Path -> bool, encode: string -> string, probe: Probe): Response
  {
    if id !in catalog || BlankPath(catalog[id].filePath) then Bare(404)
    else
      var m := catalog[id];
      var file := StoredFile(musicDir, m.filePath.value);
      if !IsAudioFile(fs, file, sniff) then Bare(404)
      else DownloadResponse(fs, file, SafeFileName(m.title, m.singer, m.fileType), encode, probe)
  }

  /** `playMusic(id, request)`. */
  function PlayMusic(catalog: Catalog, fs: FileSystem, musicDir: string, id: string,
                     rangeHeader: Option<string>, ranges: RangeParse, now: int, encode: string -> string): Response
  {
    if id !in catalog || BlankPath(catalog[id].filePath) then Bare(404)
    else
      var m := catalog[id];
      var file := StoredFile(musicDir, m.filePath.value);
      if !Exists(fs, file) || !IsRegularFile(fs, file) then Bare(404)
      else PlayResponse(fs, file, m.title, m.singer, m.fileType, rangeHeader, ranges, now, encode)
  }

  /**
   * An unknown id or a blank stored path is answered 404 before the
   * filesystem is consulted: the answer is the same whatever is on disk.
   */
  lemma LookupGuards(catalog: Catalog, fs1: FileSystem, fs2: FileSystem, musicDir: string, id: string,
                     sniff: Path -> bool, encode: string -> string, probe: Probe,
                     rangeHeader: Option<string>, ranges: RangeParse, now: int)
    requires id !in catalog || BlankPath(catalog[id].filePath)
    ensures DownloadMusic(catalog, fs1, musicDir, id, sniff, encode, probe) == Bare(404)
    ensures DownloadMusic(catalog, fs1, musicDir, id, sniff, encode, probe) == DownloadMusic(catalog, fs2, musicDir, id, sniff, encode, probe)
    ensures PlayMusic(catalog, fs1, musicDir, id, rangeHeader, ranges, now, encode) == Bare(404)
    ensures PlayMusic(catalog, fs1, musicDir, id, rangeHeader, ranges, now, encode) == PlayMusic(catalog, fs2, musicDir, id, rangeHeader, ranges, now, encode)
  {
  }

  /**
   * `downloadMusic`: 404 exactly when the row is missing, its path is blank,
   * or the stored file is not a readable audio file; otherwise the download
   * response for that file under its safe name.
   */
  lemma DownloadMusicSpec(catalog: Catalog, fs: FileSystem, musicDir: string, id: string,
                          sniff: Path -> bool, encode: string -> string, probe: Probe)
    ensures var r := DownloadMusic(catalog, fs, musicDir, id, sniff, encode, probe);
      && (r.status == 404 <==> (id !in catalog || BlankPath(catalog[id].filePath)
                               || !IsAudioFile(fs, StoredFile(musicDir, catalog[id].filePath.value), sniff)))
      && (r.status == 200 ==>
            && r.body == WholeFile(StoredFile(musicDir, catalog[id].filePath.value))
            && Values(r.headers, ContentDisposition) == ["attachment; filename=\"" + encode(SafeFileName(catalog[id].title, catalog[id].singer, catalog[id].fileType)) + "\""])
  {
    if id in catalog && !BlankPath(catalog[id].filePath) {
      var m := catalog[id];
      var file := StoredFile(musicDir, m.filePath.value);
      DownloadResponseSpec(fs, file, SafeFileName(m.title, m.singer, m.fileType), encode, probe);
    }
  }

  /**
   * `playMusic`: 404 exactly when the row is missing, its path is blank, or
   * the stored file is not a readable regular file; 500 for a row without a
   * file type; otherwise the play response for the stored file.
   */
  lemma PlayMusicSpec(catalog: Catalog, fs: FileSystem, musicDir: string, id: string,
                      rangeHeader: Option<string>, ranges: RangeParse, now: int, encode: string -> string)
    ensures var r := PlayMusic(catalog, fs, musicDir, id, rangeHeader, ranges, now, encode);
      && (r.status == 404 <==> (id !in catalog || BlankPath(catalog[id].filePath)
                               || !IsRegularFile(fs, StoredFile(musicDir, catalog[id].filePath.value))
                               || !CanRead(fs, StoredFile(musicDir, catalog[id].filePath.value))))
      && (r.status == 500 <==> r.status != 404 && catalog[id].fileType.None?)
      && (r.status != 404 && r.status != 500 ==>
            var m := catalog[id];
            var file := StoredFile(musicDir, m.filePath.value);
            r == Serve(file, PlayHeaders(encode(SafeFileName(m.title, m.singer, m.fileType)), now),
                       MimeType(m.fileType.value), Length(fs, file), HasText(rangeHeader), ranges))
  {
    if id in catalog && !BlankPath(catalog[id].filePath) {
      var m := catalog[id];
      var file := StoredFile(musicDir, m.filePath.value);
      var r := PlayMusic(catalog, fs, musicDir, id, rangeHeader, ranges, now, encode);
      if !Exists(fs, file) || !IsRegularFile(fs, file) {
        assert r == Bare(404);
      } else {
        assert r == PlayResponse(fs, file, m.title, m.singer, m.fileType, rangeHeader, ranges, now, encode);
        PlayResponseSpec(fs, file, m.title, m.singer, m.fileType, rangeHeader, ranges, now, encode);
      }
    }
  }
}
