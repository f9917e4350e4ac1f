/**
 * The web client's download helper: the Blob MIME type from a file type,
 * the name the browser saves the file under, and the download-count bump
 * sent once the file has been handed over.
 */
module ClientDownload {
  import opened Base

  const OctetStream := "application/octet-stream"

  /** The keys of the client's MIME map. */
  const KnownExtensions: set<string> := {"mp3", "wav", "flac", "aac", "m4a", "ogg", "wma"}

  /** `filename.split('.').pop()`: the text after the last '.', or all of it. */
  function LastPiece(s: string): (r: string)
    ensures '.' !in r
    ensures '.' !in s ==> r == s
    ensures |r| <= |s| && r == s[|s| - |r|..]
  {
    s[LastIndexOf(s, '.') + 1..]
  }

  /** The values of the client's MIME map. */
  const MimeValues: set<string> :=
    {"audio/mpeg", "audio/wav", "audio/flac", "audio/aac", "audio/mp4", "audio/ogg", "audio/x-ms-wma", OctetStream}

  /** The MIME map, with a miss falling back to a byte stream. */
  function MimeOf(ext: string): (m: string)
    ensures m == OctetStream <==> ext !in KnownExtensions
    ensures m in MimeValues
  {
    match ext
    case "mp3" => "audio/mpeg"
    case "wav" => "audio/wav"
    case "flac" => "audio/flac"
    case "aac" => "audio/aac"
    case "m4a" => "audio/mp4"
    case "ogg" => "audio/ogg"
    case "wma" => "audio/x-ms-wma"
    case _ => OctetStream
  }

  /**
   * `getMimeType(filename)`: a missing or empty name is a byte stream;
   * otherwise the map on the lower-cased last piece.
   */
  function GetMimeType(filename: Option<string>): (m: string)
    ensures m in MimeValues
    ensures m == OctetStream <==> filename.None? || filename.value == "" || Lower(LastPiece(filename.value)) !in KnownExtensions
  {
    if filename.None? || filename.value == "" then OctetStream
    else MimeOf(Lower(LastPiece(filename.value)))
  }

  /** A stored file type (no dot) and a full file name ending in it get the same type, whatever the name before it. */
  lemma MimeOfNameIsMimeOfType(stem: string, fileType: string)
    requires fileType != "" && '.' !in fileType
    ensures GetMimeType(Some(stem + "." + fileType)) == GetMimeType(Some(fileType))
  {
    SplitAtLast(stem, '.', fileType);
  }

  /** The characters the client strips from names. */
  const Forbidden: set<char> := {'<', '>', ':', '"', '/', '\\', '|', '?', '*'}

  /**
   * `getDownloadFileName(music)`: `singer-title.fileType` with the forbidden
   * characters removed from singer and title, nothing trimmed and no
   * defaults; a null file type prints as "null". A null title or singer
   * makes `replace` throw.
   */
  function GetDownloadFileName(title: Option<string>, singer: Option<string>, fileType: Option<string>): (r: Option<string>)
    ensures r.Some? <==> title.Some? && singer.Some?
    ensures r.Some? ==> var ext := JavaStr(fileType);
      && |r.value| > |ext|
      && r.value[|r.value| - |ext| - 1..] == "." + ext
      && (forall i :: 0 <= i < |r.value| - |ext| ==> r.value[i] !in Forbidden)
    ensures r.Some? && fileType.Some? && fileType.value != "" && '.' !in fileType.value ==>
      GetMimeType(r) == GetMimeType(fileType)
    ensures r.Some? && (forall c :: c in singer.value + title.value ==> c !in Forbidden) ==>
      r.value == singer.value + "-" + title.value + "." + JavaStr(fileType)
  {
    if title.None? || singer.None? then None
    else
      var stem := RemoveChars(singer.value, Forbidden) + "-" + RemoveChars(title.value, Forbidden);
      var name := stem + "." + JavaStr(fileType);
      DownloadStemClean(singer.value, title.value);
      DownloadNameParts(title.value, singer.value, fileType);
      NameEndsWithType(stem, JavaStr(fileType));
      assert fileType.Some? && fileType.value != "" && '.' !in fileType.value ==>
        GetMimeType(Some(name)) == GetMimeType(fileType) by {
        if fileType.Some? && fileType.value != "" && '.' !in fileType.value {
          MimeOfNameIsMimeOfType(stem, fileType.value);
        }
      }
      Some(name)
  }

  /** The `singer-title` stem holds no forbidden character. */
  lemma DownloadStemClean(singer: string, title: string)
    ensures forall c :: c in RemoveChars(singer, Forbidden) + "-" + RemoveChars(title, Forbidden) ==> c !in Forbidden
  {
  }

  /** A clean stem, a '.' and the type: the name ends in `.type` and nothing before the type is forbidden. */
  lemma NameEndsWithType(stem: string, ext: string)
    requires forall c :: c in stem ==> c !in Forbidden
    ensures var name := stem + "." + ext;
      && name[|name| - |ext| - 1..] == "." + ext
      && forall i :: 0 <= i < |name| - |ext| ==> name[i] !in Forbidden
  {
    var name := stem + "." + ext;
    assert name[|stem|..] == "." + ext;
    forall i | 0 <= i < |name| - |ext| ensures name[i] !in Forbidden {
      if i < |stem| {
        assert name[i] == stem[i] && stem[i] in stem;
      }
    }
  }

  /** Title and singer without forbidden characters come through verbatim, and the stripped parts hold none. */
  lemma DownloadNameParts(title: string, singer: string, fileType: Option<string>)
    ensures var cleanSinger := RemoveChars(singer, Forbidden);
      var cleanTitle := RemoveChars(title, Forbidden);
      && (forall c :: c in cleanSinger + cleanTitle ==> c !in Forbidden)
      && ((forall c :: c in singer + title ==> c !in Forbidden) ==> cleanSinger == singer && cleanTitle == title)
  {
    RemoveCharsKeeps(singer, Forbidden);
    RemoveCharsKeeps(title, Forbidden);
  }

  /** The row fields the download helper reads. */
  datatype Track = Track(id: string, title: Option<string>, singer: Option<string>, fileType: Option<string>, downloadCount: Option<int>)

  /** What `downloadMusicFile` does, in order. */
  datatype Effect =
    | Fetch(id: string)
    | SaveAs(name: string, mime: string)
    | SendCount(id: string, count: int)

  /** `(music.downloadCount || 0) + 1`: a missing or zero count counts as 0. */
  function BumpedCount(count: Option<int>): int
  {
    (if count.Some? && count.value != 0 then count.value else 0) + 1
  }

  /**
   * `downloadMusicFile(music)`: fetch the file (`fetched` says whether the
   * request succeeded), hand it to the browser under its download name, then
   * send the bumped count; the result says whether the file was handed over.
   * A failing count update is only logged.
   */
  function DownloadMusicFile(music: Track, fetched: bool): (r: (bool, seq<Effect>))
    ensures r.1 != [] && r.1[0] == Fetch(music.id)
    ensures r.0 <==> fetched && music.title.Some? && music.singer.Some?
    ensures r.0 ==> r.1 == [Fetch(music.id),
                            SaveAs(GetDownloadFileName(music.title, music.singer, music.fileType).value, GetMimeType(music.fileType)),
                            SendCount(music.id, BumpedCount(music.downloadCount))]
    ensures !r.0 ==> r.1 == [Fetch(music.id)]
  {
    if !fetched then (false, [Fetch(music.id)])
    else
      var name := GetDownloadFileName(music.title, music.singer, music.fileType);
      if name.None? then (false, [Fetch(music.id)])
      else (true, [Fetch(music.id), SaveAs(name.value, GetMimeType(music.fileType)), SendCount(music.id, BumpedCount(music.downloadCount))])
  }

  /** The count is sent only after the file was saved, and it is one more than the stored count. */
  lemma CountSentAfterSave(music: Track, fetched: bool)
    ensures var effects := DownloadMusicFile(music, fetched).1;
      forall i :: 0 <= i < |effects| && effects[i].SendCount? ==>
        (exists j :: 0 <= j < i && effects[j].SaveAs?) && effects[i].count == BumpedCount(music.downloadCount)
    ensures music.downloadCount.Some? && music.downloadCount.value >= 0 ==> BumpedCount(music.downloadCount) == music.downloadCount.value + 1
  {
    var r := DownloadMusicFile(music, fetched);
    if r.0 {
      assert |r.1| == 3 && r.1[0].Fetch? && r.1[1].SaveAs? && r.1[2] == SendCount(music.id, BumpedCount(music.downloadCount));
    } else {
      assert r.1 == [Fetch(music.id)];
    }
  }
}
