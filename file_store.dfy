/**
 * The filesystem the music service reads and writes, as a map from
 * normalized absolute paths to nodes. `new File(s)` and `Paths.get(s)` both
 * name the node at the normal form of the parsed string.
 */
module FileStore {
  import opened Base
  import opened JavaPaths

  /** A regular file with its bytes, or a directory; either may be unreadable to the process. */
  datatype Node = RegularFile(content: seq<byte>, readable: bool) | Directory(readable: bool)

  type FileSystem = map<Path, Node>

  /** The node a path string denotes. */
  function Locate(s: string): (p: Path)
    ensures IsNormal(p) && p.absolute == (|s| > 0 && s[0] == '/')
  {
    NormalizeIsNormal(Parse(s));
    Normalize(Parse(s))
  }

  /** `File.exists()`. */
  predicate Exists(fs: FileSystem, p: Path) { p in fs }

  /** `File.isFile()` / `Files.isRegularFile`. */
  predicate IsRegularFile(fs: FileSystem, p: Path) { p in fs && fs[p].RegularFile? }

  /** `File.canRead()`. */
  predicate CanRead(fs: FileSystem, p: Path) { p in fs && fs[p].readable }

  /** `File.length()`: the byte count of a regular file, 0 for anything else. */
  function Length(fs: FileSystem, p: Path): (n: nat)
    ensures IsRegularFile(fs, p) ==> n == |fs[p].content|
  {
    if IsRegularFile(fs, p) then |fs[p].content| else 0
  }
}
