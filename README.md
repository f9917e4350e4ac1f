# cloudMusic — a Dafny model of its core

cloudMusic is a small music-streaming application. It has two parts:

- a Spring/MyBatis-Plus backend, which keeps a music catalog and user playlists ("menus") and streams or downloads audio files;
- a Vue/Pinia web client, which drives an `<audio>` element and keeps a play history.

This project models the logic of that core and proves properties of it. There is one Dafny module per source file, plus two helper modules: `Base` (nullable values, `Outcome`, decimal rendering, Java and JavaScript string primitives) and `FileStore` (the filesystem as a map from normalized paths to nodes).

| module | what it models |
|---|---|
| `MenuRelationMapper` | the `music_menu_relation` table as a class over `seq<Relation>`, the CASE move `updatePosition`, the snapshot re-rank `updateBatchPosition`, counts, save and logical deletes |
| `RelationOrder` | what the two statements do to a menu's order: a move keeps the positions a permutation of `0..N-1`, and the re-rank makes distinct positions exactly `0..N-1` in the same order |
| `MenuRelationService` | `addMusic` (saved at N, then moved to 0), `deleteMusic` (delete, then re-rank), `moveMusic` |
| `MenuService` | the `deleteMenu` cascade and the `getPageList` filter, order and page |
| `FileParse` | extension, MIME switch, safe file name, the `%02d:%02d` duration and the `parseMusicFile` map (both `FileParseUtil` revisions) |
| `MediaResponse` | the download and play responses, the `HttpHeaders` they fill, and the range decision of section 4 of RFC 7233 |
| `RangeResource` | the bounded `InputStream` over a `RandomAccessFile` that a 206 response streams |
| `JavaPaths` | `java.nio.file.Path` parse, `resolve`, `normalize` and `startsWith`, component by component |
| `MusicCatalog` | `MusicServiceImpl`: the containment-checked file deletes, `deleteMusic`, `uploadMusic` with its checks and compensating delete, `updateMusic`, and the guards of `downloadMusic`/`playMusic` |
| `Audit` | `AuditInterceptor`: which fields an INSERT or UPDATE stamps, over a class chain of declared fields |
| `Envelope` | the `Result` factories |
| `Player` | the client's player store (`stores/music.ts`): a `PlayerStore` class whose every method is proved equal to a function on a `State` value, plus `formatTime` |
| `UserSession` | the client's login store over a `localStorage` map |
| `ClientDownload` | the client's download helper: MIME type, download name, and the download-count bump |

Things the model takes as inputs rather than computing:

- the current user id, the clock (`now`) and random names (UUIDs, new ids);
- the answers of library code the model cannot see: Spring's Range parser, the Tika content sniffer, the jaudiotagger reader, `Files.probeContentType`, `URLEncoder.encode` and `formatFileSize`;
- on the client, the fetched blob URL (`None` when the request failed) and whether `play()` resolved.

Each `@Transactional` service call is one atomic step. Every row a SQL statement writes is computed from the table as it was before the statement.

## Model

| member | source | states |
|---|---|---|
| MenuRelationMapper.RelationTable.CountWhere | cloudMusic/src/main/java/org/xioamila/service/impl/MusicMenuRelationServiceImpl.java:34-42 | the count loop returns the number of live rows that satisfy the WHERE clause |
| MenuRelationMapper.RelationTable.Save | cloudMusic/src/main/java/org/xioamila/service/impl/MusicMenuRelationServiceImpl.java:45-46 | `save` appends the row and changes nothing else |
| MenuRelationMapper.RelationTable.UpdatePosition | cloudMusic/src/main/java/org/xioamila/mapper/MusicMenuRelationMapper.java:29-40 | every row is rewritten from its own old value by the CASE move; the update count is the number of live rows of the menu inside the BETWEEN window |
| MenuRelationMapper.RelationTable.RankOne | cloudMusic/src/main/java/org/xioamila/mapper/MusicMenuRelationMapper.java:49-56 | the SET value of one row is the count of live rows of the menu with a strictly smaller position |
| MenuRelationMapper.RelationTable.UpdateBatchPosition | cloudMusic/src/main/java/org/xioamila/mapper/MusicMenuRelationMapper.java:47-59 | each live row of the menu is re-ranked against the unmodified snapshot `t2`; other rows are kept; the update count is the menu's size |
| MenuRelationMapper.RelationTable.RemoveBatchByIds | cloudMusic/src/main/java/org/xioamila/service/impl/MusicMenuRelationServiceImpl.java:65 | every live row whose id is listed becomes logically deleted |
| MenuRelationMapper.RelationTable.DeleteByMenuIds | cloudMusic/src/main/java/org/xioamila/service/impl/MusicMenuServiceImpl.java:45 | every live row of a listed menu becomes logically deleted |
| RelationOrder.LiveAppend | cloudMusic/src/main/java/org/xioamila/service/impl/MusicMenuRelationServiceImpl.java:46 | a saved row joins a menu's live rows exactly when it is a live row of that menu, and the count grows by one exactly then |
| RelationOrder.DenseIsExactRange | cloudMusic/src/main/java/org/xioamila/mapper/MusicMenuRelationMapper.java:52-57 | a menu is dense (distinct positions, all in `0..N-1`) exactly when its positions are distinct and form the set `{0..N-1}` |
| RelationOrder.ShiftedFacts | cloudMusic/src/main/java/org/xioamila/mapper/MusicMenuRelationMapper.java:32-38 | the move is injective on positions, stays in `0..N-1` when start and end do, and keeps the order of every pair not at `start` |
| RelationOrder.MoveEffect | cloudMusic/src/main/java/org/xioamila/mapper/MusicMenuRelationMapper.java:31-38 | the per-row effect: only live rows of the menu inside `[min, max]` change; the row at `start` goes to `end`; moving up shifts `[end, start)` by +1, moving down shifts `(start, end]` by -1; `start == end` changes nothing |
| RelationOrder.MoveKeepsLive | cloudMusic/src/main/java/org/xioamila/mapper/MusicMenuRelationMapper.java:37 | the move never changes which rows are live in any menu |
| RelationOrder.MovePositionOfLive | cloudMusic/src/main/java/org/xioamila/mapper/MusicMenuRelationMapper.java:31-38 | the new position of a live row of the menu is its shifted position |
| RelationOrder.MovePreservesDense | cloudMusic/src/main/java/org/xioamila/mapper/MusicMenuRelationMapper.java:29-40 | with `start` and `end` below N, the move keeps a dense menu dense with the same size; the row at `start` goes to `end`; every other pair keeps its relative order |
| RelationOrder.MoveOtherMenus | cloudMusic/src/main/java/org/xioamila/mapper/MusicMenuRelationMapper.java:37-38 | rows of every other menu are untouched, and their density is kept |
| RelationOrder.RankKeepsLive | cloudMusic/src/main/java/org/xioamila/mapper/MusicMenuRelationMapper.java:57 | the re-rank never changes which rows are live in any menu |
| RelationOrder.BelowMonotone | cloudMusic/src/main/java/org/xioamila/mapper/MusicMenuRelationMapper.java:55 | a lower position has no more rows below it, and strictly fewer when the positions differ |
| RelationOrder.BelowBound | cloudMusic/src/main/java/org/xioamila/mapper/MusicMenuRelationMapper.java:50-55 | the count below a live row is smaller than the menu's size |
| RelationOrder.RankEffect | cloudMusic/src/main/java/org/xioamila/mapper/MusicMenuRelationMapper.java:48-57 | the per-row effect: rows outside the live menu are kept; a live row gets the number of live rows of the menu with a strictly smaller position |
| RelationOrder.RankMakesDense | cloudMusic/src/main/java/org/xioamila/mapper/MusicMenuRelationMapper.java:47-59 | the re-rank keeps the size and the relative order in both directions, and turns distinct positions into exactly `0..N-1` |
| RelationOrder.BelowImage | cloudMusic/src/main/java/org/xioamila/mapper/MusicMenuRelationMapper.java:52-55 | in a dense menu the positions below a live row's position `p` are exactly `0..p-1` |
| RelationOrder.RankOfDenseAt | cloudMusic/src/main/java/org/xioamila/mapper/MusicMenuRelationMapper.java:49-55 | in a dense menu each live row's position equals the count of rows below it |
| RelationOrder.RankOfDenseIsIdentity | cloudMusic/src/main/java/org/xioamila/mapper/MusicMenuRelationMapper.java:47-59 | on a dense menu the re-rank changes nothing, so re-ranking twice is re-ranking once |
| RelationOrder.RankOtherMenus | cloudMusic/src/main/java/org/xioamila/mapper/MusicMenuRelationMapper.java:53-57 | rows of every other menu are untouched, and their density is kept |
| MenuRelationService.AddedRows | cloudMusic/src/main/java/org/xioamila/service/impl/MusicMenuRelationServiceImpl.java:41-56 | a successful add adds exactly one row to the table |
| MenuRelationService.DeletedRows | cloudMusic/src/main/java/org/xioamila/service/impl/MusicMenuRelationServiceImpl.java:65-67 | a delete keeps every row (logical deletion) |
| MenuRelationService.RelationService.AddMusic | cloudMusic/src/main/java/org/xioamila/service/impl/MusicMenuRelationServiceImpl.java:33-59 | a track the menu already holds is refused with "已存在该歌曲" and the table is unchanged; otherwise the call returns true: an empty menu gets the row at 0, and a menu of N gets it at N and then moves it to 0 |
| MenuRelationService.RelationService.DeleteMusic | cloudMusic/src/main/java/org/xioamila/service/impl/MusicMenuRelationServiceImpl.java:63-70 | returns true; the listed rows are deleted, then the menu is re-ranked |
| MenuRelationService.RelationService.MoveMusic | cloudMusic/src/main/java/org/xioamila/service/impl/MusicMenuRelationServiceImpl.java:74-78 | returns true; the table is exactly the result of one `updatePosition` |
| MenuRelationService.AppendAtEndDense | cloudMusic/src/main/java/org/xioamila/service/impl/MusicMenuRelationServiceImpl.java:45-46 | saving a live row at position N on a dense menu of N keeps it dense, with N+1 rows |
| MenuRelationService.AddKeepsDense | cloudMusic/src/main/java/org/xioamila/service/impl/MusicMenuRelationServiceImpl.java:41-58 | on a dense menu, an add grows the menu by one and keeps it dense (`0..N-1` becomes `0..N`); the new row is at 0, every earlier track moves down by one, and other rows are kept |
| MenuRelationService.AddOtherMenus | cloudMusic/src/main/java/org/xioamila/service/impl/MusicMenuRelationServiceImpl.java:41-56 | an add leaves every other menu's live rows and their values as they were |
| MenuRelationService.DeleteReranks | cloudMusic/src/main/java/org/xioamila/service/impl/MusicMenuRelationServiceImpl.java:63-69 | the menu's live rows become its old live rows whose ids are not listed, and the menu is dense again with its survivors in their old order |
| MenuRelationService.DeleteOtherMenus | cloudMusic/src/main/java/org/xioamila/service/impl/MusicMenuRelationServiceImpl.java:63-69 | `removeBatchByIds` is not limited to the menu: in every other menu the listed rows die too, and the survivors keep their rows and positions, since only the named menu is re-ranked |
| MenuRelationService.ForeignIdLeavesGap | cloudMusic/src/main/java/org/xioamila/service/impl/MusicMenuRelationServiceImpl.java:65-67 | a concrete table where deleting another menu's id through this menu leaves that menu with a gap in its positions |
| MenuService.RemoveMenus | cloudMusic/src/main/java/org/xioamila/service/impl/MusicMenuServiceImpl.java:47 | logical `removeBatchByIds` on the menu table keeps every row |
| MenuService.MenuTable.RemoveBatchByIds | cloudMusic/src/main/java/org/xioamila/service/impl/MusicMenuServiceImpl.java:47 | the listed live menus become deleted |
| MenuService.MenuService.DeleteMenu | cloudMusic/src/main/java/org/xioamila/service/impl/MusicMenuServiceImpl.java:42-51 | returns true; a null or empty list changes nothing; otherwise the menus' relations are deleted, then the menus |
| MenuService.DeleteMenuCascade | cloudMusic/src/main/java/org/xioamila/service/impl/MusicMenuServiceImpl.java:43-48 | exactly the listed menus and their relations stop being live, everything else is kept, and no live relation is left pointing at a deleted menu |
| MenuService.Filter | cloudMusic/src/main/java/org/xioamila/service/impl/MusicMenuServiceImpl.java:33-36 | every menu is kept exactly as often as it occurs when it is selected, and dropped otherwise |
| MenuService.InsertDesc | cloudMusic/src/main/java/org/xioamila/service/impl/MusicMenuServiceImpl.java:36 | inserting into a list sorted by `create_time` descending keeps it sorted, and adds the row to its multiset |
| MenuService.SortDesc | cloudMusic/src/main/java/org/xioamila/service/impl/MusicMenuServiceImpl.java:36 | `ORDER BY create_time DESC` gives a sorted permutation |
| MenuService.PageSlice | cloudMusic/src/main/java/org/xioamila/service/impl/MusicMenuServiceImpl.java:37 | a page is at most one page long, holds rows of the list in their order, and is the whole list on a first page it fits in |
| MenuService.GetPageList | cloudMusic/src/main/java/org/xioamila/service/impl/MusicMenuServiceImpl.java:31-38 | the page holds at most the capped page size, and the total counts every selected menu, the title filter being MySQL `LIKE '%title%'` with the filter unescaped |
| MenuService.PageIsSelected | cloudMusic/src/main/java/org/xioamila/service/impl/MusicMenuServiceImpl.java:33-37 | a page holds only live menus of the caller whose title matches `LIKE '%title%'` when the filter is not blank, newest first |
| MenuService.FirstPageIsWholeSelection | cloudMusic/src/main/java/org/xioamila/service/impl/MusicMenuServiceImpl.java:31-38 | when everything fits, the first page holds every menu the LIKE-filtered query selects as often as the table does and nothing else |
| MenuService.BlankTitleIgnored | cloudMusic/src/main/java/org/xioamila/service/impl/MusicMenuServiceImpl.java:33-35 | a title filter that is null or made only of `Character.isWhitespace` characters (U+3000 included) selects by owner and liveness alone |
| MenuService.LiteralTitleFilter | cloudMusic/src/main/java/org/xioamila/service/impl/MusicMenuServiceImpl.java:33-34 | a filter without '%', '_' or a backslash selects exactly the titles that contain it |
| MenuService.WildcardTitleSelects | cloudMusic/src/main/java/org/xioamila/service/impl/MusicMenuServiceImpl.java:34 | the unescaped filter `_` selects a menu titled "ab", which does not contain '_' |
| MenuService.NoUserNoRows | cloudMusic/src/main/java/org/xioamila/service/impl/MusicMenuServiceImpl.java:36 | a null user id binds `create_by = NULL`, so the page is empty with total 0 |
| FileParse.Extension | cloudMusic/src/main/java/org/xioamila/common/utils/FileParseUtil.java:46-50 | the extension holds no '.', and it is "" for a null name or a name without '.' |
| FileParse.ExtensionOfName | cloudMusic/src/main/java/org/xioamila/util/FileParseUtil.java:43-48 | for any stem and any `ext` without '.', the extension of `stem.ext` is the lower-cased `ext` |
| FileParse.MimeType | cloudMusic/src/main/java/org/xioamila/common/utils/FileParseUtil.java:143-160 | the result is `application/octet-stream` exactly for strings other than mp3, wav, ogg, m4a, flac and aac; those six map to `audio/` types |
| FileParse.MimeTypeDistinguishes | cloudMusic/src/main/java/org/xioamila/util/FileParseUtil.java:140-157 | no two known extensions share a MIME type |
| FileParse.CleanField | cloudMusic/src/main/java/org/xioamila/common/utils/FileParseUtil.java:184-194 | a null part becomes the default; a part that is empty once the invalid characters are deleted and the rest trimmed becomes the default; otherwise the result is that cleaned text; every result is clean: no invalid character, nothing to trim, not empty |
| FileParse.CleanedIsClean | cloudMusic/src/main/java/org/xioamila/common/utils/FileParseUtil.java:189-190 | removing the invalid characters and trimming gives a clean part unless nothing is left |
| FileParse.DefaultIsClean | cloudMusic/src/main/java/org/xioamila/common/utils/FileParseUtil.java:193-194 | a default passes the cleaning unchanged, so defaulting before or after cleaning agrees |
| FileParse.CleanFieldOfClean | cloudMusic/src/main/java/org/xioamila/common/utils/FileParseUtil.java:189-190 | a clean part comes through verbatim |
| FileParse.CleanFieldIdempotent | cloudMusic/src/main/java/org/xioamila/common/utils/FileParseUtil.java:189-194 | cleaning twice is cleaning once |
| FileParse.NamePartsValid | cloudMusic/src/main/java/org/xioamila/common/utils/FileParseUtil.java:197 | the singer, '-' and title prefix of `singer-title.type` contains no invalid character |
| FileParse.SafeFileName | cloudMusic/src/main/java/org/xioamila/common/utils/FileParseUtil.java:182-205 | a prefix of `singer-title.type` exactly 255 characters long when the full name is longer, and the full name otherwise; no invalid character in the singer and title parts |
| FileParse.SafeFileNameDefaults | cloudMusic/src/main/java/org/xioamila/common/utils/FileParseUtil.java:184-186 | with all fields null the name is `未知歌手-未知标题.mp3` |
| FileParse.SafeFileNameEmptyTitle | cloudMusic/src/main/java/org/xioamila/common/utils/FileParseUtil.java:189-194 | a title made only of invalid characters (`***`, say) takes the default: with a clean singer and a short type the name is `singer-未知标题.type` |
| FileParse.SafeFileNameOfClean | cloudMusic/src/main/java/org/xioamila/util/FileParseUtil.java:179-202 | clean, short fields give exactly `singer-title.` followed by the lower-cased type |
| FileParse.Format02d | cloudMusic/src/main/java/org/xioamila/common/utils/FileParseUtil.java:104 | `%02d` prints at least two characters |
| FileParse.FormatDuration | cloudMusic/src/main/java/org/xioamila/common/utils/FileParseUtil.java:102-104 | the text contains the ':' separator |
| FileParse.DurationRoundTrip | cloudMusic/src/main/java/org/xioamila/util/FileParseUtil.java:99-101 | for a non-negative length the seconds are below 60, minutes * 60 + seconds is the length, and the `mm:ss` text parses back to it |
| FileParse.FormatDurationOfNat | cloudMusic/src/main/java/org/xioamila/common/utils/FileParseUtil.java:102-104 | for a non-negative length, Java's truncating `/` and `%` agree with Euclidean ones, and the text is the two padded parts |
| FileParse.Pad2Parses | cloudMusic/src/main/java/org/xioamila/common/utils/FileParseUtil.java:104 | a padded number parses back to itself |
| FileParse.ParseDuration | cloudMusic/src/main/java/org/xioamila/common/utils/FileParseUtil.java:75-122 | "不支持的音频格式" exactly for an unsupported format; "未知时长" exactly for an empty upload or any other read failure; otherwise a clock text that reads back as the track length |
| FileParse.ParseMusicFile | cloudMusic/src/main/java/org/xioamila/common/utils/FileParseUtil.java:42-68 | as written: title, singer, album and cover are absent; the MIME type is specific exactly for the six known extensions; the extension holds no '.' |
| FileParse.ParseMusicFileWithTags | cloudMusic/src/main/java/org/xioamila/service/impl/MusicServiceImpl.java:68-75 | the map the upload reads: the file's entries plus the tag values, and the same extension |
| FileParse.AsWrittenHasNoTags | cloudMusic/src/main/java/org/xioamila/util/FileParseUtil.java:39-65 | the function as written equals the tagged one given no tags |
| FileStore.Locate | cloudMusic/src/main/java/org/xioamila/service/impl/MusicServiceImpl.java:185 | `new File(s)` names a normal path, absolute exactly when `s` starts with '/' |
| FileStore.Length | cloudMusic/src/main/java/org/xioamila/common/utils/FileParseUtil.java:289 | `file.length()` is the byte count of a regular file |
| MediaResponse.HttpHeaders.Add | cloudMusic/src/main/java/org/xioamila/common/utils/FileParseUtil.java:226-230 | `add` appends one value to the header and keeps the others |
| MediaResponse.HttpHeaders.Set | cloudMusic/src/main/java/org/xioamila/common/utils/FileParseUtil.java:342 | `setContentLength` makes the value the header's only one |
| MediaResponse.Ok | cloudMusic/src/main/java/org/xioamila/common/utils/FileParseUtil.java:240-244 | 200 with the body, a single `Content-Length` and `Content-Type`, and every other header kept |
| MediaResponse.DownloadHeaders | cloudMusic/src/main/java/org/xioamila/common/utils/FileParseUtil.java:225-230 | an attachment disposition with the encoded name, `no-cache, no-store, must-revalidate`, `Pragma: no-cache`, `Expires: 0` |
| MediaResponse.DownloadResponseSpec | cloudMusic/src/main/java/org/xioamila/util/FileParseUtil.java:210-247 | 404 exactly for a missing or unreadable file; 500 exactly when the probe fails; otherwise 200 with the whole file, the no-cache attachment headers, the file's length and the probed MIME type (`application/octet-stream` when none) |
| MediaResponse.CreateDownloadResponse | cloudMusic/src/main/java/org/xioamila/common/utils/FileParseUtil.java:213-250 | filling `HttpHeaders` step by step gives exactly the download response |
| MediaResponse.RangeDecision | cloudMusic/src/main/java/org/xioamila/common/utils/FileParseUtil.java:320-338 | 400 exactly for an unparsable header; 416 without `Content-Range` exactly when the count of ranges is not one; 206 exactly for one range with `start <= end < len`, whose length is then between 1 and `len - start` |
| MediaResponse.SpringRangeInsideFile | cloudMusic/src/main/java/org/xioamila/common/utils/FileParseUtil.java:327-345 | on the pairs Spring's `getRangeStart`/`getRangeEnd` produce (start at least 0, end at most len-1), a served range lies in a non-empty file, so the logged percentage never divides by zero; one range of an empty file is always the 416 with `bytes */0` |
| MediaResponse.RangeResponseSpec | cloudMusic/src/main/java/org/xioamila/common/utils/FileParseUtil.java:315-357 | the answer is 206, 400 or 416; a rejected range gets the bare 400 or 416, an impossible one 416 with `bytes */len`, and a served one 206 with `bytes start-end/len`, `Content-Length` set to the range length, and the MIME type |
| MediaResponse.RangeRejected | cloudMusic/src/main/java/org/xioamila/common/utils/FileParseUtil.java:320-324 | an unparsable header or a count other than one leaves the headers alone and answers the bare 400 or 416 |
| MediaResponse.RangeUnsatisfiable | cloudMusic/src/main/java/org/xioamila/common/utils/FileParseUtil.java:332-338 | a range outside the file adds `Content-Range: bytes */len` and answers 416 with the headers and no body |
| MediaResponse.RangePartial | cloudMusic/src/main/java/org/xioamila/common/utils/FileParseUtil.java:341-351 | a served range answers 206 with the range headers and a body of `end - start + 1` bytes from `start` |
| MediaResponse.RangeKeeps | cloudMusic/src/main/java/org/xioamila/common/utils/FileParseUtil.java:341-350 | a served range keeps every header other than range, length and type |
| MediaResponse.HandleRangeRequest | cloudMusic/src/main/java/org/xioamila/common/utils/FileParseUtil.java:315-357 | the method fills the headers as the decision calls for and returns the decision's response |
| MediaResponse.PlayHeaders | cloudMusic/src/main/java/org/xioamila/common/utils/FileParseUtil.java:271-283 | inline disposition with the encoded name, `Accept-Ranges: bytes`, `public, max-age=3600`, `Expires` one hour after now, and no range, length, type or pragma |
| MediaResponse.NewPlayHeaders | cloudMusic/src/main/java/org/xioamila/common/utils/FileParseUtil.java:271-283 | the four `add` calls produce exactly the playback headers |
| MediaResponse.ServeSpec | cloudMusic/src/main/java/org/xioamila/common/utils/FileParseUtil.java:288-304 | 200 exactly without a Range header, with the whole file and its length; with one, the range decision answers; 200 and 206 keep the playback headers and carry the MIME type |
| MediaResponse.PlayResponseSpec | cloudMusic/src/main/java/org/xioamila/common/utils/FileParseUtil.java:259-310 | 404 exactly for a missing or unreadable file; 500 exactly for a null file type (the MIME switch throws); otherwise served with the playback headers named after the safe file name |
| MediaResponse.CreatePlayResponse | cloudMusic/src/main/java/org/xioamila/common/utils/FileParseUtil.java:259-310 | filling `HttpHeaders` step by step gives exactly the play response |
| RangeResource.RangeStream.constructor | cloudMusic/src/main/java/org/xioamila/common/utils/FileParseUtil.java:371-375 | open and seek to `start`, with nothing delivered |
| RangeResource.RangeStream.ReadByte | cloudMusic/src/main/java/org/xioamila/common/utils/FileParseUtil.java:378-387 | -1 once `length` bytes are out or at end of file; a closed file fails; otherwise the next byte, counted and appended to what was delivered |
| RangeResource.RangeStream.Read | cloudMusic/src/main/java/org/xioamila/common/utils/FileParseUtil.java:390-400 | -1 once `length` bytes are out; the file is asked for `min(len, length - bytesRead)`; bound violations and a closed file fail; `bytesRead` grows by exactly the count returned; the bytes land in `b[off..]` and extend the delivered bytes |
| RangeResource.RangeStream.CopyOut | cloudMusic/src/main/java/org/xioamila/common/utils/FileParseUtil.java:394-396 | a successful file read of `n` bytes puts the next `n` bytes at `b[off..off+n]`, leaves the rest of `b` alone, and advances the position and `bytesRead` by `n` |
| RangeResource.RangeStream.Close | cloudMusic/src/main/java/org/xioamila/common/utils/FileParseUtil.java:403-405 | closes the file and keeps the counters |
| RangeResource.GetInputStream | cloudMusic/src/main/java/org/xioamila/common/utils/FileParseUtil.java:370-407 | fails exactly when the file cannot be opened for reading or `start` is negative; otherwise a fresh stream over the file that has delivered nothing |
| RangeResource.DeliveredIsPrefixOfWindow | cloudMusic/src/main/java/org/xioamila/common/utils/FileParseUtil.java:362-412 | whatever was read, the delivered bytes are a prefix of `file[start .. start+length)` and never more than `length` |
| JavaPaths.Parse | cloudMusic/src/main/java/org/xioamila/service/impl/MusicServiceImpl.java:302 | a path is absolute exactly when the string starts with '/', and its names are the non-empty pieces |
| JavaPaths.ParseJoin | cloudMusic/src/main/java/org/xioamila/service/impl/MusicServiceImpl.java:96 | `dir + "/" + name` has the names of `dir` followed by those of `name`, and is absolute when `dir` is absolute or empty |
| JavaPaths.Resolve | cloudMusic/src/main/java/org/xioamila/service/impl/MusicServiceImpl.java:305 | an absolute argument replaces the base; a relative one appends its names |
| JavaPaths.NormalizeIsNormal | cloudMusic/src/main/java/org/xioamila/service/impl/MusicServiceImpl.java:302 | `normalize` gives a path with no `.` and no cancellable `..`, keeps it absolute or relative, and is idempotent |
| JavaPaths.NormalizeOfNormal | cloudMusic/src/main/java/org/xioamila/service/impl/MusicServiceImpl.java:305 | a normal path is its own normal form |
| JavaPaths.SplitJoin | cloudMusic/src/main/java/org/xioamila/service/impl/MusicServiceImpl.java:96 | the pieces of `a/b` are the pieces of `a` followed by those of `b` |
| JavaPaths.FoldAppend | cloudMusic/src/main/java/org/xioamila/service/impl/MusicServiceImpl.java:305 | normalizing a concatenation processes the second part after the first |
| JavaPaths.PlainRelativeStaysInside | cloudMusic/src/main/java/org/xioamila/service/impl/MusicServiceImpl.java:305-308 | a relative path of plain names resolves to the base's names followed by its own, which passes the `startsWith` check |
| JavaPaths.TraversalRefused | cloudMusic/src/main/java/org/xioamila/service/impl/MusicServiceImpl.java:305-311 | concrete cases: `../secret.mp3` and an absolute path fail the check, and `a/../b.mp3` passes it |
| MusicCatalog.PlanDeletion | cloudMusic/src/main/java/org/xioamila/service/impl/MusicServiceImpl.java:293-328 | skipped exactly for a path that is null or made only of `Character.isWhitespace` characters; refused (with "非法文件路径: " or "目标路径不是普通文件: ") exactly when the normal target leaves the directory or exists but is not a regular file; otherwise the target is removed, and it lies under the directory |
| MusicCatalog.DeletionContained | cloudMusic/src/main/java/org/xioamila/service/impl/MusicServiceImpl.java:300-318 | a stored-file delete removes at most one node, a regular file under the directory, and keeps every other node |
| MusicCatalog.StoredNameIsPlain | cloudMusic/src/main/java/org/xioamila/service/impl/MusicServiceImpl.java:94 | `uuid.ext` parses into plain relative names: none is `.` or `..` |
| MusicCatalog.UploadedFileLocation | cloudMusic/src/main/java/org/xioamila/service/impl/MusicServiceImpl.java:91-96 | the file an upload writes lies under the music directory and is the node a delete of the stored name resolves to |
| MusicCatalog.UploadThenDeleteRemoves | cloudMusic/src/main/java/org/xioamila/service/impl/MusicServiceImpl.java:96-100 | deleting the stored name of a freshly written file removes exactly that file |
| MusicCatalog.NullNeverDuplicates | cloudMusic/src/main/java/org/xioamila/service/impl/MusicServiceImpl.java:80-84 | under SQL equality, a null title or singer never finds a duplicate |
| MusicCatalog.NewMusicKeepsUnique | cloudMusic/src/main/java/org/xioamila/service/impl/MusicServiceImpl.java:81-139 | saving the row of an upload that passed the duplicate check keeps the catalog free of repeated title-singer pairs, and afterwards the same tagged song is refused as a duplicate |
| MusicCatalog.UpdateResult | cloudMusic/src/main/java/org/xioamila/service/impl/MusicServiceImpl.java:249-264 | as written: refused with the duplicate message exactly when another row has the argument's title and singer; true exactly when a live row has the id, which then receives the non-null fields; the catalog is otherwise unchanged |
| MusicCatalog.PartialUpdateDuplicates | cloudMusic/src/main/java/org/xioamila/service/impl/MusicServiceImpl.java:253-263 | a concrete unique catalog that a singer-only update makes non-unique |
| MusicCatalog.CheckedUpdateResult | cloudMusic/src/main/java/org/xioamila/service/impl/MusicServiceImpl.java:252-263 | the corrected check, run on the merged row: a refused or missed update keeps the catalog, and a successful one stores the merged row |
| MusicCatalog.CheckedUpdateKeepsUnique | cloudMusic/src/main/java/org/xioamila/service/impl/MusicServiceImpl.java:252-263 | the corrected update keeps a duplicate-free catalog duplicate-free |
| MusicCatalog.MusicService.DeleteStoredFile | cloudMusic/src/main/java/org/xioamila/service/impl/MusicServiceImpl.java:293-328 | fails exactly when the decision refuses, with its message; the filesystem becomes the decision applied; the catalog is kept |
| MusicCatalog.MusicService.DeleteMusic | cloudMusic/src/main/java/org/xioamila/service/impl/MusicServiceImpl.java:266-288 | an unknown id fails with "音乐文件不存在" and changes nothing; otherwise the music file, then the cover, then the row; a refused file step ends the call with its error before the row is removed |
| MusicCatalog.MusicService.UpdateMusic | cloudMusic/src/main/java/org/xioamila/service/impl/MusicServiceImpl.java:249-264 | the method's result and new catalog are the as-written update; files are kept |
| MusicCatalog.MusicService.UploadMusic | cloudMusic/src/main/java/org/xioamila/service/impl/MusicServiceImpl.java:53-160 | refuses an empty file, then a non-audio file, then a duplicate, each before writing; otherwise writes the file (and the cover when there is one); a failed save deletes the music file but not the cover; a successful one adds the new row |
| MusicCatalog.UploadStaysInside | cloudMusic/src/main/java/org/xioamila/service/impl/MusicServiceImpl.java:91-100 | the uploaded file lies under the music directory where the delete finds it |
| MusicCatalog.AsWrittenNeverDuplicate | cloudMusic/src/main/java/org/xioamila/service/impl/MusicServiceImpl.java:68-87 | as written, the duplicate check of an upload never fires |
| MusicCatalog.TaggedDuplicateRefused | cloudMusic/src/main/java/org/xioamila/service/impl/MusicServiceImpl.java:79-87 | with the tags read, an upload of a song already in the catalog is a duplicate |
| MusicCatalog.LookupGuards | cloudMusic/src/main/java/org/xioamila/service/impl/MusicServiceImpl.java:166-177 | an unknown id or blank path is 404 for both play and download, whatever is on disk |
| MusicCatalog.DownloadMusicSpec | cloudMusic/src/main/java/org/xioamila/service/impl/MusicServiceImpl.java:162-207 | 404 exactly for a missing row, a blank path or a stored file that is not a readable audio file; a 200 sends the stored file as an attachment under its safe name |
| MusicCatalog.PlayMusicSpec | cloudMusic/src/main/java/org/xioamila/service/impl/MusicServiceImpl.java:209-247 | 404 exactly for a missing row, a blank path or a stored file that is not a readable regular file; 500 exactly for a null file type; otherwise the play response for the stored file |
| Audit.LookupSpec | cloudMusic/src/main/java/org/xioamila/common/interceptor/AuditInterceptor.java:143-154 | `hasField` holds exactly when some class of the chain declares the name; `getDeclaredField` finds it exactly then, at the nearest declaration |
| Audit.InsertStampsAll | cloudMusic/src/main/java/org/xioamila/common/interceptor/AuditInterceptor.java:119-128 | an insert on a well-typed entity stamps both times with the same `now` and both users with the same id; no other field changes |
| Audit.UpdateKeepsCreate | cloudMusic/src/main/java/org/xioamila/common/interceptor/AuditInterceptor.java:129-133 | an update stamps only the update pair; the create fields and all others are kept |
| Audit.MistypedFieldUntouched | cloudMusic/src/main/java/org/xioamila/common/interceptor/AuditInterceptor.java:159-171 | a failed `Field.set` (wrong type) is swallowed and leaves the field as it was |
| Audit.StampIdempotent | cloudMusic/src/main/java/org/xioamila/common/interceptor/AuditInterceptor.java:119-138 | stamping twice with the same time and user is stamping once |
| Audit.SetFieldValue | cloudMusic/src/main/java/org/xioamila/common/interceptor/AuditInterceptor.java:159-171 | the value lands when the field is declared and the type fits; otherwise nothing changes |
| Audit.SetAuditFields | cloudMusic/src/main/java/org/xioamila/common/interceptor/AuditInterceptor.java:119-138 | the entity's fields become the stamped fields |
| Audit.ProcessEntityFields | cloudMusic/src/main/java/org/xioamila/common/interceptor/AuditInterceptor.java:75-96 | every reachable entity object (the parameter, or each non-null map value) is stamped once, and every non-entity is kept |
| Audit.Intercept | cloudMusic/src/main/java/org/xioamila/common/interceptor/AuditInterceptor.java:26-66 | the call always proceeds; INSERT stamps with the create fields, UPDATE without; any other command changes nothing |
| Envelope.FactoriesAgree | cloudMusic/src/main/java/org/xioamila/vo/Result.java:20-60 | only `error` fails; `success(m)` is `success(m, null)`; `data` is injective; the Boolean and null messages differ |
| Envelope.FactoriesInjective | cloudMusic/src/main/java/org/xioamila/vo/Result.java:20-60 | each factory's message and payload can be read back from the envelope; no success envelope equals an error one; `data(x)` equals `success(m, y)` exactly when the payloads agree and `m` is the message `data` picks |
| UserSession.UserStore.constructor | cloud-music-front/src/stores/user.ts:12-14 | nobody is signed in and the storage is the browser's |
| UserSession.UserStore.Login | cloud-music-front/src/stores/user.ts:16-21 | sets the user and token, logs in, and stores the token under `music_token` |
| UserSession.UserStore.Logout | cloud-music-front/src/stores/user.ts:23-28 | clears the user and token, logs out, and removes only `music_token` |
| UserSession.UserStore.CheckLoginStatus | cloud-music-front/src/stores/user.ts:30-36 | a saved non-empty token is taken up and logs in; without one the session is unchanged; the user info and storage are never touched; the flag-iff-token invariant holds |
| ClientDownload.LastPiece | cloud-music-front/src/utils/download.ts:83 | `split('.').pop()` is the suffix after the last '.', or the whole string when there is none |
| ClientDownload.MimeOf | cloud-music-front/src/utils/download.ts:85-95 | `application/octet-stream` exactly for strings outside the seven known extensions |
| ClientDownload.GetMimeType | cloud-music-front/src/utils/download.ts:78-96 | always one of the eight MIME map values; `application/octet-stream` exactly for a missing or empty name or a lower-cased last piece outside the seven keys |
| ClientDownload.MimeOfNameIsMimeOfType | cloud-music-front/src/utils/download.ts:83-95 | for any stem, `stem.type` has the same MIME type as `type` |
| ClientDownload.GetDownloadFileName | cloud-music-front/src/utils/download.ts:101-105 | defined exactly when title and singer are non-null (`replace` throws otherwise); with no forbidden character in singer and title the name is exactly `singer-title.fileType`, with no trimming and no defaults; in general the name ends in `.` and the file type ("null" when absent), no forbidden character appears before the type, and a dot-free type gives the name the type's own MIME type |
| ClientDownload.DownloadNameParts | cloud-music-front/src/utils/download.ts:102-103 | the stripped parts contain no forbidden character, and parts without one come through verbatim |
| ClientDownload.DownloadMusicFile | cloud-music-front/src/utils/download.ts:9-73 | the fetch comes first; success exactly when the fetch succeeded and the name exists; then the file is saved under its name and MIME type and the bumped count is sent |
| ClientDownload.CountSentAfterSave | cloud-music-front/src/utils/download.ts:46-57 | a count is sent only after the save, and it is one more than a non-negative stored count |
| Player.LoopModeCycle | cloud-music-front/src/stores/music.ts:271-276 | none → one → all → none: every step changes the mode and three steps come back |
| Player.FindIndex | cloud-music-front/src/stores/music.ts:303 | the first index with the id, or -1 exactly when no entry has it |
| Player.NextIndex | cloud-music-front/src/stores/music.ts:304 | always in range; 0 when the track is missing or last; otherwise the following index |
| Player.PrevIndex | cloud-music-front/src/stores/music.ts:313 | always in range; the last index when the track is first or missing; otherwise the preceding index |
| Player.NextThenPrev | cloud-music-front/src/stores/music.ts:300-315 | for a track in the list, next then previous comes back, and so does previous then next |
| Player.AddToHistoryKeeps | cloud-music-front/src/stores/music.ts:131-136 | a known id leaves the history alone; a new track goes in front of the old entries, at most 49 of which stay; afterwards the track is present, the 50 cap holds and ids stay unique |
| Player.LoadHistory | cloud-music-front/src/stores/music.ts:130-140 | the history changes only on a successful load, and then by the history update |
| Player.LoadKeepsHistory | cloud-music-front/src/stores/music.ts:88-144 | `loadMusic` keeps the history capped and duplicate-free |
| Player.PlayKeepsHistory | cloud-music-front/src/stores/music.ts:147-159 | `playMusic` keeps the history capped and duplicate-free |
| Player.NavigationKeepsHistory | cloud-music-front/src/stores/music.ts:300-315 | `playNext` and `playPrevious` keep the history capped and duplicate-free |
| Player.PlayEndKeepsHistory | cloud-music-front/src/stores/music.ts:282-297 | `handlePlayEnd` keeps the history capped and duplicate-free |
| Player.ToggleKeepsHistory | cloud-music-front/src/stores/music.ts:225-236 | `togglePlay` keeps the history capped and duplicate-free |
| Player.OperationsKeepHistory | cloud-music-front/src/stores/music.ts:88-315 | every operation of the store keeps the history capped and duplicate-free |
| Player.LoadSpec | cloud-music-front/src/stores/music.ts:88-144 | the old blob URL is revoked first; loading ends; success exactly when the fetch worked and the element exists, and then the track is current, its URL is in the element, it is in the history (in front if new), and it plays exactly when auto-play was asked, the element is ready and `play()` resolved; a failure stops playback and keeps the history |
| Player.PlayLoadedToggles | cloud-music-front/src/stores/music.ts:147-159 | playing the loaded track toggles it exactly as `togglePlay` does, without touching the history |
| Player.TogglePlaySpec | cloud-music-front/src/stores/music.ts:225-236 | a no-op without a current track or a ready element; otherwise the play flag flips when the pause or resume succeeds |
| Player.ToggleLoopSpec | cloud-music-front/src/stores/music.ts:271-279 | the mode advances one step, the element loops exactly in mode 'one', and three toggles restore the mode |
| Player.NavigationSpec | cloud-music-front/src/stores/music.ts:300-315 | a no-op without a current track or with an empty list; otherwise plays a track of the list: the one after (or before), wrapping around, and the first (or last) when the current track is not listed |
| Player.PlayEndSpec | cloud-music-front/src/stores/music.ts:282-297 | mode 'one' rewinds the element and changes nothing else; mode 'all' with tracks plays the next; otherwise playback stops at time 0 |
| Player.PlayerStore.constructor | cloud-music-front/src/stores/music.ts:7-21 | the store starts in the initial state |
| Player.PlayerStore.FetchMusicList | cloud-music-front/src/stores/music.ts:30-55 | the list becomes the fetched records, or empty on failure |
| Player.PlayerStore.InitAudioElement | cloud-music-front/src/stores/music.ts:162-165 | the element is attached and marked ready |
| Player.PlayerStore.LoadMusic | cloud-music-front/src/stores/music.ts:88-144 | loading starts, the held blob URL is revoked, then the audio is attached; the new state and thrown error are those of the load function |
| Player.PlayerStore.AttachAudio | cloud-music-front/src/stores/music.ts:98-104 | a failed fetch stops playback and ends loading; otherwise the new blob URL and track are taken up and the element part runs |
| Player.PlayerStore.SetAudioSource | cloud-music-front/src/stores/music.ts:106-143 | without an element it throws "音频播放器未就绪"; otherwise the element gets the blob URL, plays only when auto-play was asked, the element is ready and `play()` resolved, and the track enters the history |
| Player.PlayerStore.CleanupBlobUrl | cloud-music-front/src/stores/music.ts:325-330 | a held blob URL is revoked and forgotten |
| Player.PlayerStore.PauseMusic | cloud-music-front/src/stores/music.ts:198-204 | with an element, playback stops; without one nothing changes |
| Player.PlayerStore.ResumeMusic | cloud-music-front/src/stores/music.ts:207-222 | plays when the element and a source exist and `play()` resolves; a rejected `play()` clears the flag and rethrows; without element or source it throws "播放器未就绪" |
| Player.PlayerStore.PlayMusic | cloud-music-front/src/stores/music.ts:147-159 | the new state and thrown error are those of the play function |
| Player.PlayerStore.TogglePlayback | cloud-music-front/src/stores/music.ts:225-236 | the new state and thrown error are those of the toggle function |
| Player.PlayerStore.ToggleLoopMode | cloud-music-front/src/stores/music.ts:271-279 | the new state is the loop-toggle function's |
| Player.PlayerStore.PlayNext | cloud-music-front/src/stores/music.ts:300-306 | the new state is the next-track function's |
| Player.PlayerStore.PlayPrevious | cloud-music-front/src/stores/music.ts:309-315 | the new state is the previous-track function's |
| Player.PlayerStore.HandlePlayEnd | cloud-music-front/src/stores/music.ts:282-297 | the new state is the end-of-track function's |
| Player.PadStart2 | cloud-music-front/src/stores/music.ts:321 | a text of two or more characters is kept; a shorter one is left-padded with '0' to two |
| Player.FormatTimeClock | cloud-music-front/src/stores/music.ts:318-322 | for a non-negative time: the whole minutes, ':' and the two-digit remaining seconds, which reads back as the whole seconds |
| Player.MinutesAndSeconds | cloud-music-front/src/stores/music.ts:319-320 | for a non-negative time, `floor(s/60)` and `floor(s % 60)` are the quotient and remainder of the whole seconds |
| Player.FormatTimeNegative | cloud-music-front/src/stores/music.ts:318-322 | JavaScript's signs survive: -5 seconds formats as "-1:-5" |
| Base.IntToStringRoundTrip | cloudMusic/src/main/java/org/xioamila/common/utils/FileParseUtil.java:341 | the signed decimal text parses back to the number, so distinct numbers print differently, and it starts with '-' exactly for negatives |
| Base.NatToStringRoundTrip | cloudMusic/src/main/java/org/xioamila/common/utils/FileParseUtil.java:334 | the decimal text of a length parses back to it, so the `Content-Range` numbers are unambiguous |
| Base.Trim | cloudMusic/src/main/java/org/xioamila/common/utils/FileParseUtil.java:189-190 | `trim()` returns an infix `s[k..k+|r|]` whose every cut-off character is at most U+0020 and which neither starts nor ends with such a character |
| Base.RemoveChars | cloudMusic/src/main/java/org/xioamila/common/utils/FileParseUtil.java:189-190 | a character occurs in the result exactly when it occurs in the input outside the class; the result is never longer |
| Base.RemoveCharsAppend | cloudMusic/src/main/java/org/xioamila/common/utils/FileParseUtil.java:189-190 | deletion distributes over concatenation, so the kept characters stay in order and with their repeats |
| Base.RemoveCharsKeeps | cloud-music-front/src/utils/download.ts:102-103 | text with none of the class's characters passes through unchanged |
| Base.LastIndexOf | cloudMusic/src/main/java/org/xioamila/common/utils/FileParseUtil.java:49 | the index of the last occurrence, or -1 when there is none |
| Base.ClockRoundTrip | cloudMusic/src/main/java/org/xioamila/common/utils/FileParseUtil.java:104 | a minutes text and two-digit seconds below 60 read back as `60 * m + sec` |
| Base.LikeContains | cloudMusic/src/main/java/org/xioamila/service/impl/MusicMenuServiceImpl.java:34 | MySQL `s LIKE '%t%'` holds exactly when `s` contains `t`, for a `t` without wildcards or escapes |
| Base.LikeLiteralPrefix | cloudMusic/src/main/java/org/xioamila/service/impl/MusicMenuServiceImpl.java:34 | `s LIKE 't%'` holds exactly when `s` starts with `t`, for a `t` without wildcards or escapes |

## Left out

- Play and download have no path-containment check in this revision: both build `dir + "/" + filePath` and use it directly. The model does the same.
- `entity/Music.java` as shown declares neither `coverUrl` nor `downloadCount`, although `MusicServiceImpl` sets both. The model's `Music` row carries them, as the service code expects.
- `FileParse.ParseMusicFile`'s stub never reads tags. The upload is modelled with `ParseMusicFileWithTags` and an explicit `tags` input (see Findings).
- File I/O failures are not modelled:
  - IOExceptions from `transferTo`, the cover write and `Files.deleteIfExists`;
  - the temporary copy in `parseDuration` (any failure there is the `ReadFailed` probe);
  - short reads of `RandomAccessFile` beyond what the file holds.
- Logical deletion in the catalog is modelled as removal from the map of live rows. For the relation and menu tables a deleted row keeps its place with `deleted` set.
- Positions are bound as strings. MySQL then compares `#{start} > #{end}` and `BETWEEN` on the bound values; the model compares them as integers.
- The count query comes from a `LambdaQueryWrapper`, so it sees only live rows (`deleted = '0'`), as the generated SQL would.
- `toLowerCase` is modelled on ASCII letters only.
- The `LIKE` of the title filter is modelled under a binary collation: characters match only themselves. The schema is not part of this model; under MySQL's default case- and accent-insensitive collation, `LIKE` would also match titles that differ in case or accents.
- `MusicMenuRelation.position` is a `String`, and `t1.position > t2.position` in the re-rank compares two column values. The model reads the column as an integer. Under a VARCHAR column "10" sorts before "9", and `RelationOrder.RankMakesDense` would not describe the re-rank.
- `FileStore.Locate` resolves `..` lexically. Symbolic links are not modelled, and the operating system resolves `new File(s)` through them.
- RangeDecision: the parser oracle `RangeParse` may give any (start, end) pair. Spring's `getRangeStart`/`getRangeEnd` never give a negative start or an end past the last byte. On such a pair the model answers 206 (for (-1, -1) on an empty file, say), where the source's logged percentage would divide by zero and the answer would be 500. `MediaResponse.SpringRangeInsideFile` shows that the pairs Spring does produce never reach that case.
- String length counts Unicode scalar values, where Java counts UTF-16 units. This matters for the 255-character cut of names outside the Basic Multilingual Plane.
- `formatFileSize` uses floating-point `Math.log10`/`Math.pow` and `DecimalFormat`. The model takes its text as the input `sizeText`.
- Library code the model cannot see is taken as inputs: the Tika content sniffer (`isAudio`, `sniff`), the jaudiotagger reader (`AudioProbe`), `Files.probeContentType` (`Probe`), `URLEncoder.encode` (`encode`) and Spring's `HttpRange` parser (`RangeParse`). A `MediaType.parseMediaType` failure is not modelled.
- `getDescription`, `contentLength` and `getFilename` of the range resource are constant accessors that the model does not represent.
- Pagination follows the MyBatis-Plus plug-in rules as configured: the page size is capped at 1000 and pages count from 1. The count query and `searchCount` options are not modelled.
- On the client, an async operation is modelled as running to completion before the next one starts.
- Promises the client does not await (`playMusic` inside `playNext`, `playPrevious` and `handlePlayEnd`) lose their errors; the model keeps only their state.
- Player: the `timeupdate`/`loadedmetadata`/`error`/`loadstart`/`canplay` listeners, volume, mute, playback rate, `setCurrentTime`, `preloadFirstSong`, `enableAutoPlay`/`disableAutoPlay`, the pagination fields and `loading` are left out. They carry no logic beyond assigning a field.
- `Player.FormatTime` is proved only for finite times. NaN and Infinity are not modelled, because `real` has neither.
- A failed fetch, and a rejected `play()`, rethrow the browser's own error. The model names each one with a fixed `Failure` value.
- The client's MIME map is a plain object, so keys such as `constructor` would hit `Object.prototype`. The model treats the map as holding only its seven keys.
- `downloadMusicFile` leaks its object URL when `getDownloadFileName` throws. Object URLs, the DOM link, the loading overlay and the progress callback are not modelled.
- Interceptor reflection is modelled as a chain of declared-field maps. `Field.set` failing for any reason other than a type mismatch (a final or inaccessible field) is not modelled.
- Audit.Accepts: a field type is one of `Date`, `String` or a type assignable from neither. A field declared `Object`, `Serializable`, `Cloneable` or `Comparable` would accept both a `Date` and a `String`, and the model has no kind for it.
- The JWT, BCrypt and password code, the controllers, configuration classes, the `listMusic` query and the other mappers and services are not part of this model.

## Findings

| source | as written | input that shows it | evidently intended | confidence | as-written member | corrected member |
|---|---|---|---|---|---|---|
| cloudMusic/src/main/java/org/xioamila/common/utils/FileParseUtil.java:42-68 | `parseMusicFile` never puts `title`, `singer`, `album` or `coverImage` into the map. So `uploadMusic` reads them as null, and its duplicate check `eq(title, null)` matches no row. | Upload the same tagged file twice: both uploads are accepted, and a cover is never stored. | Read the tags, so that a song already in the catalog is refused | high — not executed | MusicCatalog.AsWrittenNeverDuplicate | MusicCatalog.TaggedDuplicateRefused |
| cloudMusic/src/main/java/org/xioamila/service/impl/MusicServiceImpl.java:253-263 | `updateMusic` checks for duplicates using the argument's title and singer. `updateById` then keeps the stored value of every null field. | Take rows "1" (t, a) and "2" (t, b), and update {id "2", singer "a"}: the check binds `title = NULL` and passes, and row 2 becomes (t, a). | Check the row as it will be stored | medium — not executed | MusicCatalog.PartialUpdateDuplicates | MusicCatalog.CheckedUpdateKeepsUnique |
