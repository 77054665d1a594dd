/**
 * The open-file handle: a seek position, the open flags and mode, a
 * modification time and a closed bit over a content buffer that other handles
 * (and the stored entry) may share.
 *
 * The same class also represents the entries held by the storage: an entry is
 * the `file` that was created for a path, and every open duplicates it.
 */
module Handle {
  import opened Common
  import opened Flags
  import opened Buffer

  /** io.SeekStart, io.SeekCurrent, io.SeekEnd. */
  const SeekStart: int := 0
  const SeekCurrent: int := 1
  const SeekEnd: int := 2

  /** The stat result: name, size (the buffer length), mode and mtime. */
  datatype FileInfo = FileInfo(name: Path, size: int, mode: FileMode, mtime: Time)

  class File {
    const name: Path
    const content: Content
    var position: int
    const flag: Flag
    const mode: FileMode
    var mtime: Time
    var isClosed: bool

    constructor (name: Path, content: Content, mode: FileMode, flag: Flag, mtime: Time)
      ensures this.name == name && this.content == content
      ensures this.mode == mode && this.flag == flag && this.mtime == mtime
      ensures position == 0 && !isClosed
    {
      this.name := name;
      this.content := content;
      this.mode := mode;
      this.flag := flag;
      this.mtime := mtime;
      position := 0;
      isClosed := false;
    }

    /** The handle's stat: its own name, mode and mtime, and the current length of the shared buffer. */
    function Stat(): (r: FileInfo)
      reads this, content
      ensures r.name == name && r.mode == mode && r.mtime == mtime
      ensures r.size == |content.bytes|
    {
      FileInfo(name, content.Len(), mode, mtime)
    }

    /**
     * A positioned read. It fails on a closed handle, then on a handle whose
     * flags do not allow reading; otherwise it reads the shared buffer.
     */
    function ReadAt(want: nat, off: int): (r: ReadResult)
      reads this, content
      ensures isClosed ==> r == ReadResult([], Some(Closed))
      ensures !isClosed && !ReadAllowed(flag) ==> r == ReadResult([], Some(ReadNotSupported))
      ensures r.err != Some(Closed) && r.err != Some(ReadNotSupported) <==> !isClosed && ReadAllowed(flag)
      ensures |r.data| <= want
      ensures |r.data| > 0 ==>
        0 <= off && off + |r.data| <= |content.bytes| && r.data == content.bytes[off..off + |r.data|]
      ensures r.err == None ==> |r.data| == want
      ensures !isClosed && ReadAllowed(flag) ==> r == ReadFrom(content.bytes, want, off)
      ensures !isClosed && ReadAllowed(flag) && off < 0 ==> r == ReadResult([], Some(NegativeOffset))
      ensures !isClosed && ReadAllowed(flag) && 0 <= off ==>
        && |r.data| == Min(want, Max(|content.bytes| - off, 0))
        && (r.err == Some(EOF) <==> off >= |content.bytes| || off + want > |content.bytes|)
        && (r.err == None || r.err == Some(EOF))
    {
      if isClosed then ReadResult([], Some(Closed))
      else if !IsReadAndWrite(flag) && !IsReadOnly(flag) then ReadResult([], Some(ReadNotSupported))
      else content.ReadAt(want, off)
    }

    /**
     * Reads at the current position and advances it by the number of bytes
     * read. End of data is reported only when no byte was read.
     */
    method Read(want: nat) returns (data: seq<byte>, err: Option<Error>)
      modifies this`position
      ensures data == old(ReadAt(want, position)).data
      ensures position == old(position) + |data|
      ensures err == (if old(ReadAt(want, position)).err == Some(EOF) && |data| != 0 then None
                      else old(ReadAt(want, position)).err)
      ensures err == Some(EOF) ==> data == []
      ensures 0 <= old(position) <= |content.bytes| ==> position <= |content.bytes|
    {
      var r := ReadAt(want, position);
      data, err := r.data, r.err;
      position := position + |data|;
      if err == Some(EOF) && |data| != 0 {
        err := None;
      }
    }

    /**
     * Moves the position without bounds checks: a negative or past-the-end
     * position is accepted. An unknown `whence` leaves the position alone.
     */
    method Seek(offset: int, whence: int) returns (pos: int, err: Option<Error>)
      modifies this`position
      ensures old(isClosed) ==> pos == 0 && err == Some(Closed) && position == old(position)
      ensures !old(isClosed) ==> err == None && pos == position
      ensures !old(isClosed) ==>
        position == (if whence == SeekCurrent then old(position) + offset
                     else if whence == SeekStart then offset
                     else if whence == SeekEnd then |content.bytes| + offset
                     else old(position))
    {
      if isClosed {
        return 0, Some(Closed);
      }
      if whence == SeekCurrent {
        position := position + offset;
      } else if whence == SeekStart {
        position := offset;
      } else if whence == SeekEnd {
        position := content.Len() + offset;
      }
      return position, None;
    }

    /**
     * A positioned write. It fails on a closed handle, then on a handle whose
     * flags do not allow writing, and in both cases changes nothing. Otherwise
     * it writes into the shared buffer, leaves the position just after the
     * written bytes and stamps the handle's mtime.
     */
    method WriteAt(p: seq<byte>, off: int, now: Time) returns (n: int, err: Option<Error>)
      modifies this`position, this`mtime, content
      ensures old(isClosed) ==> n == 0 && err == Some(Closed)
      ensures !old(isClosed) && !WriteAllowed(flag) ==> n == 0 && err == Some(WriteNotSupported)
      ensures old(isClosed) || !WriteAllowed(flag) ==>
        position == old(position) && mtime == old(mtime) && content.bytes == old(content.bytes)
      ensures !old(isClosed) && WriteAllowed(flag) ==> position == off + n && mtime == now
      ensures !old(isClosed) && WriteAllowed(flag) && off < 0 ==>
        n == 0 && err == Some(NegativeOffset) && content.bytes == old(content.bytes)
      ensures !old(isClosed) && WriteAllowed(flag) && 0 <= off ==>
        n == |p| && err == None && content.bytes == Overwrite(old(content.bytes), p, off)
    {
      if isClosed {
        return 0, Some(Closed);
      }
      if !IsReadAndWrite(flag) && !IsWriteOnly(flag) {
        return 0, Some(WriteNotSupported);
      }
      n, err := content.WriteAt(p, off);
      position := off + n;
      mtime := now;
    }

    /** Writes at the current position. */
    method Write(p: seq<byte>, now: Time) returns (n: int, err: Option<Error>)
      modifies this`position, this`mtime, content
      ensures old(isClosed) ==> n == 0 && err == Some(Closed)
      ensures !old(isClosed) && !WriteAllowed(flag) ==> n == 0 && err == Some(WriteNotSupported)
      ensures old(isClosed) || !WriteAllowed(flag) ==>
        position == old(position) && mtime == old(mtime) && content.bytes == old(content.bytes)
      ensures !old(isClosed) && WriteAllowed(flag) && 0 <= old(position) ==>
        n == |p| && err == None && position == old(position) + |p| && mtime == now &&
        content.bytes == Overwrite(old(content.bytes), p, old(position))
      ensures !old(isClosed) && WriteAllowed(flag) && old(position) < 0 ==>
        n == 0 && err == Some(NegativeOffset) && position == old(position) && mtime == now &&
        content.bytes == old(content.bytes)
    {
      n, err := WriteAt(p, position, now);
    }

    /** One-shot: the first call closes the handle, any later call fails. */
    method Close() returns (err: Option<Error>)
      modifies this`isClosed
      ensures isClosed
      ensures err == (if old(isClosed) then Some(Closed) else None)
    {
      if isClosed {
        return Some(Closed);
      }
      isClosed := true;
      return None;
    }

    /**
     * Resizes the shared buffer to `size` bytes and stamps the handle's mtime.
     * There is no closed check. A negative size makes Go's slice expression
     * panic, so the caller must not pass one.
     */
    method Truncate(size: int, now: Time) returns (err: Option<Error>)
      requires 0 <= size
      modifies this`mtime, content
      ensures err == None && mtime == now
      ensures content.bytes == Resize(old(content.bytes), size)
    {
      content.bytes := Resize(content.bytes, size);
      mtime := now;
      return None;
    }

    /**
     * A new handle on the same buffer, as opened with `flag`: O_TRUNC empties
     * the shared buffer (every handle on it sees that), and O_APPEND places the
     * new handle at the end of the buffer; otherwise it starts at 0.
     */
    method Duplicate(filename: Path, mode: FileMode, flag: Flag, now: Time) returns (h: File)
      modifies content
      ensures fresh(h)
      ensures h.name == filename && h.content == content && h.mode == mode && h.flag == flag
      ensures h.mtime == now && !h.isClosed
      ensures content.bytes == if IsTruncate(flag) then [] else old(content.bytes)
      ensures h.position == if IsAppend(flag) then |content.bytes| else 0
    {
      h := new File(filename, content, mode, flag, now);
      if IsTruncate(flag) {
        h.content.Truncate();
      }
      if IsAppend(flag) {
        h.position := h.content.Len();
      }
    }
  }

  /**
   * Handles opened on the same path share one buffer: after a write through
   * `h`, any `other` handle on that buffer reports the grown size in its stat
   * and reads back the written bytes at the write's offset.
   */
  method WriteSeenThroughOther(h: File, other: File, p: seq<byte>, off: int, now: Time) returns (n: int, err: Option<Error>)
    requires other.content == h.content
    modifies h`position, h`mtime, h.content
    ensures old(h.isClosed) || !WriteAllowed(h.flag) ==> other.Stat().size == old(|h.content.bytes|)
    ensures !old(h.isClosed) && WriteAllowed(h.flag) && 0 <= off ==>
      && other.Stat().size == Max(old(|h.content.bytes|), off + |p|)
      && (|p| > 0 && !other.isClosed && ReadAllowed(other.flag) ==> other.ReadAt(|p|, off) == ReadResult(p, None))
  {
    ghost var before := h.content.bytes;
    n, err := h.WriteAt(p, off, now);
    if !old(h.isClosed) && WriteAllowed(h.flag) && 0 <= off && |p| > 0 {
      ReadBackWritten(before, p, off);
    }
  }
}
