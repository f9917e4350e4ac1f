/**
 * The bounded `InputStream` that `createRangeResource` hands to the 206
 * response: a `RandomAccessFile` positioned at `start` whose reads stop once
 * `length` bytes have been delivered in all.
 *
 * The `RandomAccessFile` underneath follows the JDK: opening a missing,
 * non-regular or unreadable file fails, a negative seek fails, `read()`
 * returns -1 at end of file, and `read(b, off, n)` checks its bounds first,
 * returns 0 for `n == 0`, fails on a closed file, returns -1 at end of file
 * and otherwise copies up to `n` bytes.
 */
module RangeResource {
  import opened Base
  import opened JavaPaths
  import opened FileStore

  function Min(a: int, b: int): int { if a <= b then a else b }

  class RangeStream {
    /** The bytes of the file the stream was opened on. */
    const content: seq<byte>
    const start: int
    const length: int
    /** The file position of the underlying `RandomAccessFile`. */
    var cursor: int
    var bytesRead: int
    var closed: bool

    /** The position is `start` plus what was delivered, and no more than `length` bytes were delivered. */
    ghost predicate Valid()
      reads this
    {
      0 <= start && 0 <= bytesRead && cursor == start + bytesRead
      && (bytesRead > 0 ==> bytesRead <= length && cursor <= |content|)
    }

    /** The bytes handed out so far, in order. */
    ghost function Delivered(): seq<byte>
      reads this
      requires Valid()
    {
      if bytesRead == 0 then [] else content[start..cursor]
    }

    /** No read can deliver anything more. */
    ghost predicate Exhausted()
      reads this
    {
      bytesRead >= length || cursor >= |content|
    }

    /** `new RandomAccessFile(file, "r")` followed by `seek(start)`, with `bytesRead = 0`. */
    constructor (content: seq<byte>, start: int, length: int)
      requires 0 <= start
      ensures Valid() && Delivered() == []
      ensures this.content == content && this.start == start && this.length == length
      ensures cursor == start && bytesRead == 0 && !closed
    {
      this.content := content;
      this.start := start;
      this.length := length;
      cursor := start;
      bytesRead := 0;
      closed := false;
    }

    /**
     * `read()`: -1 once `length` bytes are out; otherwise the next byte of the
     * file, or -1 at its end, counting only a byte actually read.
     */
    method ReadByte() returns (r: Outcome<int>)
      requires Valid()
      modifies this
      ensures Valid() && closed == old(closed)
      ensures old(bytesRead) >= length ==> r == Ok(-1) && unchanged(this)
      ensures old(bytesRead) < length && old(closed) ==> r.Err? && unchanged(this)
      ensures old(bytesRead) < length && !old(closed) && old(cursor) >= |content| ==> r == Ok(-1) && unchanged(this)
      ensures old(bytesRead) < length && !old(closed) && old(cursor) < |content| ==>
        r == Ok(content[old(cursor)] as int) && bytesRead == old(bytesRead) + 1 && cursor == old(cursor) + 1
        && Delivered() == old(Delivered()) + [content[old(cursor)]]
      ensures old(Exhausted()) && r.Ok? ==> r.value == -1
    {
      if bytesRead >= length {
        return Ok(-1);
      }
      if closed {
        return Err("Stream Closed");
      }
      if cursor >= |content| {
        return Ok(-1);
      }
      var result := content[cursor] as int;
      cursor := cursor + 1;
      bytesRead := bytesRead + 1;
      assert content[start..cursor] == content[start..cursor - 1] + [content[cursor - 1]];
      return Ok(result);
    }

    /**
     * `read(b, off, len)`: -1 once `length` bytes are out; otherwise the file
     * is asked for `min(len, length - bytesRead)` bytes, they land in
     * `b[off..]`, and `bytesRead` grows by the count returned.
     */
    method Read(b: array<byte>, off: int, len: int) returns (r: Outcome<int>)
      requires Valid()
      modifies this, b
      ensures Valid() && closed == old(closed)
      ensures old(bytesRead) >= length ==> r == Ok(-1) && unchanged(this) && unchanged(b)
      ensures r.Err? ==> unchanged(this) && unchanged(b)
      ensures r.Err? <==> (old(bytesRead) < length &&
        var maxRead := Min(len, length - old(bytesRead));
        (off < 0 || maxRead < 0 || maxRead > b.Length - off || (maxRead > 0 && old(closed))))
      ensures r.Ok? && r.value == -1 ==> unchanged(this) && unchanged(b)
      ensures r.Ok? && old(bytesRead) < length ==>
        var maxRead := Min(len, length - old(bytesRead));
        && 0 <= off && 0 <= maxRead <= b.Length - off
        && r.value == (if maxRead == 0 then 0 else if old(cursor) >= |content| then -1
                       else Min(maxRead, |content| - old(cursor)))
      ensures r == Ok(0) ==> unchanged(this) && unchanged(b)
      ensures r.Ok? && r.value > 0 ==>
        && r.value <= Min(len, length - old(bytesRead))
        && bytesRead == old(bytesRead) + r.value && cursor == old(cursor) + r.value
        && 0 <= off && off + r.value <= b.Length
        && b[..] == old(b[..off]) + content[old(cursor)..cursor] + old(b[off + r.value..])
        && Delivered() == old(Delivered()) + content[old(cursor)..cursor]
      ensures old(Exhausted()) && r.Ok? ==> r.value <= 0
    {
      if bytesRead >= length {
        return Ok(-1);
      }
      var maxRead := Min(len, length - bytesRead);
      if off < 0 || maxRead < 0 || maxRead > b.Length - off {
        return Err("IndexOutOfBoundsException");
      }
      if maxRead == 0 {
        return Ok(0);
      }
      if closed {
        return Err("Stream Closed");
      }
      if cursor >= |content| {
        return Ok(-1);
      }
      var n := Min(maxRead, |content| - cursor);
      CopyOut(b, off, n);
      return Ok(n);
    }

    /** The copying tail of `read(b, off, len)`: the next `n` bytes of the file land in `b[off..off+n]`. */
    method CopyOut(b: array<byte>, off: int, n: int)
      requires Valid() && 0 < n && 0 <= off && off + n <= b.Length
      requires cursor + n <= |content| && bytesRead + n <= length
      modifies this, b
      ensures Valid() && closed == old(closed)
      ensures bytesRead == old(bytesRead) + n && cursor == old(cursor) + n
      ensures b[..] == old(b[..off]) + content[old(cursor)..cursor] + old(b[off + n..])
      ensures Delivered() == old(Delivered()) + content[old(cursor)..cursor]
    {
      var p := cursor;
      forall i | off <= i < off + n {
        b[i] := content[p + i - off];
      }
      assert b[..] == old(b[..off]) + content[p..p + n] + old(b[off + n..]);
      cursor := cursor + n;
      bytesRead := bytesRead + n;
      assert content[start..cursor] == content[start..p] + content[p..cursor];
    }

    /** `close()`: closes the file; the counters stay. */
    method Close()
      modifies this
      ensures closed && cursor == old(cursor) && bytesRead == old(bytesRead)
    {
      closed := true;
    }
  }

  /**
   * `getInputStream()` of the range resource: fails when the file cannot be
   * opened for reading or `start` is negative, and otherwise yields a fresh
   * stream over the file's bytes that has delivered nothing yet.
   */
  method GetInputStream(fs: FileSystem, path: Path, start: int, length: int) returns (r: Outcome<RangeStream>)
    ensures r.Err? <==> !IsRegularFile(fs, path) || !CanRead(fs, path) || start < 0
    ensures r.Ok? ==>
      && fresh(r.value) && r.value.Valid() && r.value.Delivered() == []
      && r.value.content == fs[path].content && r.value.start == start && r.value.length == length
      && !r.value.closed
  {
    if !IsRegularFile(fs, path) || !CanRead(fs, path) {
      return Err("FileNotFoundException");
    }
    if start < 0 {
      return Err("Negative seek offset");
    }
    var s := new RangeStream(fs[path].content, start, length);
    return Ok(s);
  }

  /**
   * Whatever reads were made, the stream has delivered a prefix of the
   * requested window `content[start .. start + length)` of the file.
   */
  lemma DeliveredIsPrefixOfWindow(s: RangeStream)
    requires s.Valid()
    ensures var window := s.content[Min(s.start, |s.content|)..Min(s.start + if s.length < 0 then 0 else s.length, |s.content|)];
      s.Delivered() <= window && |s.Delivered()| <= if s.length < 0 then 0 else s.length
  {
    if s.bytesRead > 0 {
      var hi := Min(s.start + s.length, |s.content|);
      assert s.start <= s.cursor <= hi;
      assert s.Delivered() == s.content[s.start..s.cursor];
      assert s.content[s.start..s.cursor] == s.content[s.start..hi][..s.cursor - s.start];
    }
  }
}
