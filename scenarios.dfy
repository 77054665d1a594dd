/**
 * Concrete call sequences on a fresh, empty storage. Each method builds its
 * own filesystem; its postcondition states what a caller observes.
 */
module Scenarios {
  import opened Common
  import opened Flags
  import opened Buffer
  import opened Handle
  import opened Memfs
  import Paths

  /**
   * Symlink over a dangling symlink. `/l` points at the missing `/a`; a second
   * Symlink at `/l` reports no error, leaves `/l` pointing at `/a`, and creates
   * `/a` as a symlink holding the new target `/b`.
   */
  method SymlinkOverDanglingLink() returns (err: Option<Error>, linkTarget: Result<Path>, created: Result<Path>)
    ensures err == None
    ensures linkTarget == Ok(Bytes("/a"))
    ensures created == Ok(Bytes("/b"))
  {
    var a, b, l := Bytes("/a"), Bytes("/b"), Bytes("/l");
    assert a[1] != l[1];
    var fs := new Memory();
    var first := fs.Symlink(a, l, 2, 0);
    assert l in fs.files && a !in fs.files;
    fs.ResolveStep(l, 2);
    fs.ResolveStep(a, 1);
    err := fs.Symlink(b, l, 2, 1);
    linkTarget := fs.Readlink(l);
    created := fs.Readlink(a);
  }

  /** The same two calls with the existence test made by Lstat: the second is refused and creates nothing. */
  method SymlinkOverDanglingLinkNoFollow() returns (err: Option<Error>, linkTarget: Result<Path>, created: Result<Path>)
    ensures err == Some(Exist)
    ensures linkTarget == Ok(Bytes("/a"))
    ensures created == Err(NotExist)
  {
    var a, b, l := Bytes("/a"), Bytes("/b"), Bytes("/l");
    assert a[1] != l[1];
    var fs := new Memory();
    var first := fs.SymlinkNoFollow(a, l, 2, 0);
    err := fs.SymlinkNoFollow(b, l, 2, 1);
    linkTarget := fs.Readlink(l);
    created := fs.Readlink(a);
  }

  /**
   * A file created inside a new directory: after MkdirAll, Create and a write
   * of five bytes, Stat of the file reports size 5 under its base name.
   */
  method CreateInNewDirectory() returns (mkdirErr: Option<Error>, written: int, info: Result<FileInfo>)
    ensures mkdirErr == None && written == 5
    ensures info.Ok? && info.value.size == 5 && info.value.name == Bytes("f")
  {
    var d, f := Bytes("/a"), Bytes("/a/f");
    assert |d| != |f|;
    var fs := new Memory();
    mkdirErr := fs.MkdirAll(d, 0x1ED, 0);
    var r := fs.Create(f, 2, 1);
    var h := r.value;
    var e;
    written, e := h.Write(Bytes("hello"), 2);
    fs.ResolveStep(f, 2);
    fs.StatFollowsResolve(f, 2);
    info := fs.Stat(f, 2);
    assert Paths.TrimmedLength(f, 4) == 4 && Paths.LastSepBefore(f, 4) == 2;
  }

  /**
   * O_RDONLY is the flag value 0, so a handle opened read-only with O_CREATE
   * may neither read nor write, although the file is created.
   */
  method ReadOnlyCreateCannotRead() returns (stored: bool, read: ReadResult)
    ensures stored
    ensures read == ReadResult([], Some(ReadNotSupported))
  {
    var f := Bytes("/f");
    var fs := new Memory();
    var r := fs.OpenFile(f, O_RDONLY | O_CREATE, 0x1A4, 2, 0);
    stored := f in fs.files;
    read := r.value.ReadAt(1, 0);
  }

  /**
   * O_APPEND only places a handle at the end when it is opened. Two append
   * handles opened on the same empty entry both start at 0, so the second
   * write lands over the first.
   */
  method AppendHandlesOverwrite() returns (data: seq<byte>)
    ensures data == [3, 2]
  {
    var flag := O_WRONLY | O_CREATE | O_APPEND;
    var c := new Content();
    var entry := new File(Bytes("f"), c, 0x1A4, flag, 0);
    var h1 := entry.Duplicate(Bytes("f"), 0x1A4, flag, 0);
    var h2 := entry.Duplicate(Bytes("f"), 0x1A4, flag, 0);
    var n1, e1 := h1.Write([1, 2], 1);
    var n2, e2 := h2.Write([3], 2);
    data := c.bytes;
  }

  /**
   * Opening with O_TRUNC empties the buffer shared with handles opened
   * before: an earlier handle then reads end of data at its old position.
   */
  method TruncateSeenByEarlierHandle() returns (data: seq<byte>, err: Option<Error>)
    ensures data == [] && err == Some(EOF)
  {
    var f := Bytes("/f");
    var fs := new Memory();
    var r1 := fs.Create(f, 2, 0);
    var h1 := r1.value;
    var n, e := h1.Write([1, 2, 3], 1);
    var pos, se := h1.Seek(0, SeekStart);
    fs.ResolveStep(f, 2);
    var r2 := fs.OpenFile(f, O_RDWR | O_TRUNC, 0, 2, 2);
    data, err := h1.Read(3);
  }
}
