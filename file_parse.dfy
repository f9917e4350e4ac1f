/**
 * The pure helpers of FileParseUtil: extension extraction, the `%02d:%02d`
 * duration text, the extension-to-MIME switch, the safe download name and
 * the metadata map `parseMusicFile` builds. The older util/FileParseUtil.java
 * carries the same helpers line for line, so one module models both.
 */
module FileParse {
  import opened Base

  // ---------------------------------------------------------------- extension

  /** Lower-casing never introduces a character that is not a letter. */
  lemma LowerKeeps(s: string, c: char)
    requires !('a' <= c <= 'z') && c !in s
    ensures c !in Lower(s)
  {
  }

  /** The file extension: the text after the last '.', lower-cased; "" for a missing name or a name without '.'. */
  function Extension(name: Option<string>): (e: string)
    ensures '.' !in e
    ensures (name.None? || '.' !in name.value) ==> e == ""
  {
    if name.Some? && '.' in name.value then
      var tail := name.value[LastIndexOf(name.value, '.') + 1..];
      LowerKeeps(tail, '.');
      Lower(tail)
    else ""
  }

  /** Whatever precedes it, a final `.ext` is read back as the lower-cased `ext`. */
  lemma ExtensionOfName(stem: string, ext: string)
    requires '.' !in ext
    ensures Extension(Some(stem + "." + ext)) == Lower(ext)
  {
    SplitAtLast(stem, '.', ext);
  }

  // ---------------------------------------------------------------- MIME type

  const OctetStream := "application/octet-stream"

  /** The extensions the private `getMimeType` switch knows. */
  const AudioExtensions: set<string> := {"mp3", "wav", "ogg", "m4a", "flac", "aac"}

  /** The switch of `getMimeType`: the six audio extensions, everything else is a byte stream. */
  function MimeType(ext: string): (m: string)
    ensures m == OctetStream <==> ext !in AudioExtensions
    ensures ext in AudioExtensions ==> "audio/" <= m
  {
    match ext
    case "mp3" => "audio/mpeg"
    case "wav" => "audio/wav"
    case "ogg" => "audio/ogg"
    case "m4a" => "audio/mp4"
    case "flac" => "audio/flac"
    case "aac" => "audio/aac"
    case _ => OctetStream
  }

  /** No two known extensions share a MIME type. */
  lemma MimeTypeDistinguishes(a: string, b: string)
    requires a in AudioExtensions && MimeType(a) == MimeType(b)
    ensures a == b
  {
  }

  // ---------------------------------------------------------------- safe file name

  /** `INVALID_FILENAME_CHARS`: `\ / : * ? " < > |`. */
  const InvalidChars: set<char> := {'\\', '/', ':', '*', '?', '"', '<', '>', '|'}

  const MaxFileName := 255

  /** A name part as the cleaning leaves it: no invalid character, nothing to trim, not empty. */
  predicate IsClean(s: string)
  {
    s != [] && !IsTrimmed(s[0]) && !IsTrimmed(s[|s| - 1]) && forall i :: 0 <= i < |s| ==> s[i] !in InvalidChars
  }

  type CleanPart = s: string | IsClean(s) witness "x"

  const UnknownTitle: CleanPart := "未知标题"
  const UnknownSinger: CleanPart := "未知歌手"

  lemma TrimClean(s: string)
    requires s == [] || (!IsTrimmed(s[0]) && !IsTrimmed(s[|s| - 1]))
    ensures Trim(s) == s
  {
  }

  /**
   * One name part: the invalid characters are deleted, the rest trimmed, and
   * an empty result becomes the default. A null part becomes the default
   * directly: the default is already clean, so cleaning it changes nothing.
   */
  function CleanField(s: Option<string>, fallback: CleanPart): (r: CleanPart)
    ensures s.None? ==> r == fallback
    ensures s.Some? && Trim(RemoveChars(s.value, InvalidChars)) == [] ==> r == fallback
    ensures s.Some? && Trim(RemoveChars(s.value, InvalidChars)) != [] ==> r == Trim(RemoveChars(s.value, InvalidChars))
  {
    if s.None? then fallback
    else
      var c := Trim(RemoveChars(s.value, InvalidChars));
      if c == [] then fallback
      else
        CleanedIsClean(s.value);
        c
  }

  /** Deleting the invalid characters and trimming leaves a clean part unless nothing is left. */
  lemma CleanedIsClean(s: string)
    requires Trim(RemoveChars(s, InvalidChars)) != []
    ensures IsClean(Trim(RemoveChars(s, InvalidChars)))
  {
    var d := RemoveChars(s, InvalidChars);
    var c := Trim(d);
    forall i | 0 <= i < |c| ensures c[i] !in InvalidChars {
      assert c[i] in c;
    }
  }

  /** The default passes the cleaning unchanged. */
  lemma DefaultIsClean(fallback: CleanPart)
    ensures Trim(RemoveChars(fallback, InvalidChars)) == fallback
  {
    RemoveCharsKeeps(fallback, InvalidChars);
    TrimClean(fallback);
  }

  /** A part that is already clean passes through unchanged, so cleaning twice is cleaning once. */
  lemma CleanFieldOfClean(s: string, fallback: CleanPart)
    requires IsClean(s)
    ensures CleanField(Some(s), fallback) == s
  {
    RemoveCharsKeeps(s, InvalidChars);
    TrimClean(s);
  }

  lemma CleanFieldIdempotent(s: Option<string>, fallback: CleanPart)
    ensures CleanField(Some(CleanField(s, fallback)), fallback) == CleanField(s, fallback)
  {
    CleanFieldOfClean(CleanField(s, fallback), fallback);
  }

  /** Text without capital letters is its own lower case. */
  lemma LowerOfLower(s: string)
    requires forall i :: 0 <= i < |s| ==> !('A' <= s[i] <= 'Z')
    ensures Lower(s) == s
  {
  }

  /** `singer-title.type` before truncation. */
  function FullFileName(title: Option<string>, singer: Option<string>, fileType: Option<string>): string
  {
    CleanField(singer, UnknownSinger) + "-" + CleanField(title, UnknownTitle) + "." + Lower(if fileType.None? then "mp3" else fileType.value)
  }

  /** The singer and title parts of `singer-title.type` carry no invalid character. */
  lemma NamePartsValid(singer: string, title: string, fileType: string)
    requires IsClean(singer) && IsClean(title)
    ensures var full := singer + "-" + title + "." + fileType;
      forall i :: 0 <= i < |singer| + 1 + |title| ==> full[i] !in InvalidChars
  {
    var full := singer + "-" + title + "." + fileType;
    forall i | 0 <= i < |singer| + 1 + |title|
      ensures full[i] !in InvalidChars
    {
      if i < |singer| {
        assert full[i] == singer[i];
      } else if i == |singer| {
        assert full[i] == '-';
      } else {
        assert full[i] == title[i - |singer| - 1];
      }
    }
  }

  /**
   * `generateSafeFileName`: the full name cut to 255 characters. No character
   * of the singer and title parts is invalid; only the file type is not cleaned.
   */
  function SafeFileName(title: Option<string>, singer: Option<string>, fileType: Option<string>): (r: string)
    ensures |r| == if |FullFileName(title, singer, fileType)| > MaxFileName then MaxFileName else |FullFileName(title, singer, fileType)|
    ensures r <= FullFileName(title, singer, fileType)
    ensures |FullFileName(title, singer, fileType)| <= MaxFileName ==> r == FullFileName(title, singer, fileType)
    ensures forall i :: 0 <= i < |r| && i < |CleanField(singer, UnknownSinger)| + 1 + |CleanField(title, UnknownTitle)| ==> r[i] !in InvalidChars
  {
    var full := FullFileName(title, singer, fileType);
    NamePartsValid(CleanField(singer, UnknownSinger), CleanField(title, UnknownTitle), Lower(if fileType.None? then "mp3" else fileType.value));
    if |full| > MaxFileName then full[..MaxFileName] else full
  }

  /** Missing fields fall back to the defaults and the `mp3` type. */
  lemma SafeFileNameDefaults()
    ensures SafeFileName(None, None, None) == UnknownSinger + "-" + UnknownTitle + ".mp3"
  {
    var name := UnknownSinger + "-" + UnknownTitle + ".mp3";
    assert |name| == 13;
    LowerOfLower("mp3");
    assert FullFileName(None, None, None) == name;
  }

  /** A title made only of invalid characters (`***`, say) gives `singer-未知标题.type`. */
  lemma SafeFileNameEmptyTitle(title: string, singer: string, fileType: string)
    requires forall i :: 0 <= i < |title| ==> title[i] in InvalidChars
    requires IsClean(singer)
    requires |singer| + |fileType| + 6 <= MaxFileName
    ensures SafeFileName(Some(title), Some(singer), Some(fileType)) == singer + "-" + UnknownTitle + "." + Lower(fileType)
  {
    AllInvalidDefaults(title, UnknownTitle);
    CleanFieldOfClean(singer, UnknownSinger);
    assert |UnknownTitle| == 4;
  }

  /** A part made only of invalid characters cleans to nothing and takes the default. */
  lemma AllInvalidDefaults(s: string, fallback: CleanPart)
    requires forall i :: 0 <= i < |s| ==> s[i] in InvalidChars
    ensures CleanField(Some(s), fallback) == fallback
  {
  }

  /** Clean, short fields are kept verbatim: the name is `singer-title.type`. */
  lemma SafeFileNameOfClean(title: string, singer: string, fileType: string)
    requires IsClean(title) && IsClean(singer)
    requires |singer| + |title| + |fileType| + 2 <= MaxFileName
    ensures SafeFileName(Some(title), Some(singer), Some(fileType)) == singer + "-" + title + "." + Lower(fileType)
  {
    CleanFieldOfClean(title, UnknownTitle);
    CleanFieldOfClean(singer, UnknownSinger);
  }

  // ---------------------------------------------------------------- duration

  /** Java's `int` division, which truncates toward zero (divisor positive). */
  function JavaDiv(a: int, b: int): int
    requires b > 0
  {
    if a >= 0 then a / b else -((-a) / b)
  }

  function JavaRem(a: int, b: int): int
    requires b > 0
  {
    a - b * JavaDiv(a, b)
  }

  /** `String.format("%02d", i)`: at least two digits, a sign when negative. */
  function Format02d(i: int): (s: string)
    ensures |s| >= 2
  {
    if i >= 0 then Pad2(i) else "-" + NatToString(-i)
  }

  /** `%02d:%02d` of the minutes and seconds of a track length in seconds. */
  function FormatDuration(seconds: int): (d: string)
    ensures ':' in d
  {
    var minutes, rest := JavaDiv(seconds, 60), JavaRem(seconds, 60);
    var d := Format02d(minutes) + ":" + Format02d(rest);
    assert d[|Format02d(minutes)|] == ':';
    d
  }

  /** A non-negative track length splits into minutes and seconds below 60 and reads back unchanged. */
  lemma DurationRoundTrip(seconds: int)
    ensures seconds >= 0 ==> ParseClock(FormatDuration(seconds)) == Some(seconds)
    ensures seconds >= 0 ==> 0 <= JavaRem(seconds, 60) < 60 && JavaDiv(seconds, 60) * 60 + JavaRem(seconds, 60) == seconds
  {
    if seconds >= 0 {
      var m := seconds / 60;
      FormatDurationOfNat(seconds);
      Pad2Parses(m);
      ClockRoundTrip(Pad2(m), m, seconds % 60);
    }
  }

  lemma FormatDurationOfNat(seconds: int)
    requires seconds >= 0
    ensures JavaDiv(seconds, 60) == seconds / 60 && JavaRem(seconds, 60) == seconds % 60
    ensures FormatDuration(seconds) == Pad2(seconds / 60) + ":" + Pad2(seconds % 60)
    ensures (seconds / 60) * 60 + seconds % 60 == seconds
  {
  }

  lemma Pad2Parses(n: nat)
    ensures ParseNat(Pad2(n)) == Some(n)
  {
    Pad2Value(n);
  }

  /** What jaudiotagger reports for the temporary copy of the upload. */
  datatype AudioProbe =
    | TrackLength(seconds: int)
    | CannotRead        // `CannotReadException`: a format the reader does not support
    | ReadFailed        // any other IO, tag or frame failure, including creating the temporary file

  const UnknownDuration := "未知时长"
  const UnsupportedFormat := "不支持的音频格式"

  /** `parseDuration`: an empty upload and failed reads give fixed texts, a readable file its clock text. */
  function ParseDuration(isEmpty: bool, probe: AudioProbe): (d: string)
    ensures d == UnsupportedFormat <==> !isEmpty && probe.CannotRead?
    ensures d == UnknownDuration <==> isEmpty || probe.ReadFailed?
    ensures !isEmpty && probe.TrackLength? && probe.seconds >= 0 ==> ParseClock(d) == Some(probe.seconds)
  {
    if isEmpty then UnknownDuration
    else match probe
      case TrackLength(s) =>
        DurationRoundTrip(s);
        assert ':' !in UnsupportedFormat && ':' !in UnknownDuration;
        FormatDuration(s)
      case CannotRead => UnsupportedFormat
      case ReadFailed => UnknownDuration
  }

  // ---------------------------------------------------------------- parseMusicFile

  /** An uploaded multipart file: its bytes and the client's file name. */
  datatype Upload = Upload(bytes: seq<byte>, originalName: Option<string>)

  /** The entries of the map `parseMusicFile` returns; an entry it never puts reads as null. */
  datatype FileInfo = FileInfo(
    fileExtension: string, fileSize: string, duration: string, mimeType: string,
    title: Option<string>, singer: Option<string>, album: Option<string>, coverImage: Option<seq<byte>>)

  /** Tag values a metadata reader could supply. */
  datatype Tags = Tags(title: Option<string>, singer: Option<string>, album: Option<string>, cover: Option<seq<byte>>)

  const NoTags := Tags(None, None, None, None)

  /**
   * `parseMusicFile` as written: extension, size text, duration and MIME
   * type. It never reads the tags, so `title`, `singer`, `album` and
   * `coverImage` are always absent. `sizeText` stands for `formatFileSize`.
   */
  function ParseMusicFile(file: Upload, sizeText: string, probe: AudioProbe): (info: FileInfo)
    ensures info.title.None? && info.singer.None? && info.album.None? && info.coverImage.None?
    ensures info.mimeType != OctetStream <==> info.fileExtension in AudioExtensions
    ensures '.' !in info.fileExtension
  {
    var ext := Extension(file.originalName);
    FileInfo(ext, sizeText, ParseDuration(file.bytes == [], probe), MimeType(ext), None, None, None, None)
  }

  /** The map the upload code expects: the same entries plus the tags of the file. */
  function ParseMusicFileWithTags(file: Upload, sizeText: string, probe: AudioProbe, tags: Tags): (info: FileInfo)
    ensures info.title == tags.title && info.singer == tags.singer
    ensures info.album == tags.album && info.coverImage == tags.cover
    ensures info.fileExtension == Extension(file.originalName)
  {
    ParseMusicFile(file, sizeText, probe).(title := tags.title, singer := tags.singer, album := tags.album, coverImage := tags.cover)
  }

  /** The function as written is the tagged one fed with no tags at all. */
  lemma AsWrittenHasNoTags(file: Upload, sizeText: string, probe: AudioProbe)
    ensures ParseMusicFile(file, sizeText, probe) == ParseMusicFileWithTags(file, sizeText, probe, NoTags)
  {
  }
}
