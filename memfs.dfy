/**
 * The filesystem facade: a map from paths to stored `file` entries, with
 * OpenFile, Stat, Lstat, ReadDir, Readlink, Symlink and MkdirAll on top.
 *
 * Symlink resolution in the facade recurses without a bound. Here every
 * resolving operation takes a `fuel` budget, one unit per path looked up; when
 * it runs out the result is Err(TooManyLinks), which stands for a resolution
 * that did not finish within the budget (for a cycle, one that never finishes).
 */
module Memfs {
  import opened Common
  import opened Flags
  import opened Paths
  import opened Buffer
  import opened Handle
  import opened Listing

  /** Where resolution of a path ends: at a stored entry that is not a symlink, or at a missing path. */
  datatype Located = Found(path: Path) | Absent(path: Path)

  /**
   * The target of a symlink entry: its stored bytes, verbatim when they are an
   * absolute path, else joined to the directory of the link. Other entries
   * resolve to themselves.
   */
  function ResolveLink(fullpath: Path, f: File): (r: (Path, bool))
    reads f.content
    ensures r.1 <==> IsSymlink(f.mode)
    ensures !r.1 ==> r.0 == fullpath
    ensures r.1 && IsAbs(f.content.bytes) ==> r.0 == f.content.bytes
    ensures r.1 && !IsAbs(f.content.bytes) ==> r.0 == Join(Dir(fullpath), f.content.bytes)
    ensures IsAbs(fullpath) ==> IsAbs(r.0)
  {
    if !IsSymlink(f.mode) then (fullpath, false)
    else
      var target := f.content.bytes;
      (if !IsAbs(target) then Join(Dir(fullpath), target) else target, true)
  }

  /** The open mode Create uses: read-write, create, truncate. */
  const CreateFlags: Flag := O_RDWR | O_CREATE | O_TRUNC
  /** The permission Create gives a new file: 0666. */
  const CreatePerm: FileMode := 0x1B6
  /** The flags of a whole-file write: write-only, create, truncate. */
  const WriteFileFlags: Flag := O_WRONLY | O_CREATE | O_TRUNC
  /** The mode Symlink stores its entries with: 0777 plus the symlink bit. */
  const SymlinkPerm: FileMode := 0x1FF | ModeSymlink

  /** The state of a handle just opened on buffer `c`. */
  ghost predicate OpenedOn(h: File, c: Content, name: Path, flag: Flag, perm: FileMode, now: Time)
    reads h, c
  {
    && h.content == c && h.name == name && h.mode == perm && h.flag == flag
    && h.mtime == now && !h.isClosed
    && h.position == (if IsAppend(flag) then |c.bytes| else 0)
  }

  class Memory {
    /** The storage: one entry per path. */
    var files: map<Path, File>

    /** An empty storage. */
    constructor ()
      ensures files == map[]
    {
      files := map[];
    }

    /** The buffers of the stored entries. */
    ghost function Contents(): set<Content>
      reads this
    {
      set p | p in files :: files[p].content
    }

    /** Every path stored before the call whose entry is still stored keeps the bytes it held. */
    twostate predicate BuffersKept()
      reads this, Contents()
    {
      forall p | p in old(files) && p in files :: files[p].content.bytes == old(files[p].content.bytes)
    }

    /**
     * Follows symlinks from `path` until a path that is missing or holds an
     * entry that is not a symlink.
     */
    function Resolve(path: Path, fuel: nat): (r: Result<Located>)
      reads this, Contents()
      decreases fuel
      ensures r.Err? ==> r.error == TooManyLinks
      ensures r.Ok? && r.value.Found? ==> r.value.path in files && !IsSymlink(files[r.value.path].mode)
      ensures r.Ok? && r.value.Absent? ==> r.value.path !in files
      ensures r.Ok? && IsAbs(path) ==> IsAbs(r.value.path)
    {
      if fuel == 0 then Err(TooManyLinks)
      else if path !in files then Ok(Absent(path))
      else
        var (target, isLink) := ResolveLink(path, files[path]);
        if isLink then Resolve(target, fuel - 1) else Ok(Found(path))
    }

    /** One step of Resolve. */
    lemma ResolveStep(path: Path, fuel: nat)
      ensures fuel == 0 ==> Resolve(path, fuel) == Err(TooManyLinks)
      ensures 0 < fuel && path !in files ==> Resolve(path, fuel) == Ok(Absent(path))
      ensures 0 < fuel && path in files && IsSymlink(files[path].mode) ==>
        Resolve(path, fuel) == Resolve(ResolveLink(path, files[path]).0, fuel - 1)
      ensures 0 < fuel && path in files && !IsSymlink(files[path].mode) ==>
        Resolve(path, fuel) == Ok(Found(path))
    {
    }

    /**
     * Where OpenFile with `flag` lands, decided in OpenFile's order: a missing
     * path fails without O_CREATE and is to be created with it; a stored path
     * fails under O_EXCL before any link is followed; a symlink is followed.
     */
    function Locate(path: Path, flag: Flag, fuel: nat): (r: Result<Located>)
      reads this, Contents()
      decreases fuel
      ensures r.Ok? && r.value.Found? ==> r.value.path in files && !IsSymlink(files[r.value.path].mode)
      ensures r.Ok? && r.value.Absent? ==> IsCreate(flag) && r.value.path !in files
    {
      if fuel == 0 then Err(TooManyLinks)
      else if path !in files then (if IsCreate(flag) then Ok(Absent(path)) else Err(NotExist))
      else if IsExclusive(flag) then Err(Exist)
      else
        var (target, isLink) := ResolveLink(path, files[path]);
        if isLink then Locate(target, flag, fuel - 1) else Ok(Found(path))
    }

    /** One step of Locate. */
    lemma LocateStep(path: Path, flag: Flag, fuel: nat)
      ensures fuel == 0 ==> Locate(path, flag, fuel) == Err(TooManyLinks)
      ensures 0 < fuel && path !in files ==>
        Locate(path, flag, fuel) == if IsCreate(flag) then Ok(Absent(path)) else Err(NotExist)
      ensures 0 < fuel && path in files && IsExclusive(flag) ==> Locate(path, flag, fuel) == Err(Exist)
      ensures 0 < fuel && path in files && !IsExclusive(flag) && IsSymlink(files[path].mode) ==>
        Locate(path, flag, fuel) == Locate(ResolveLink(path, files[path]).0, flag, fuel - 1)
      ensures 0 < fuel && path in files && !IsExclusive(flag) && !IsSymlink(files[path].mode) ==>
        Locate(path, flag, fuel) == Ok(Found(path))
    {
    }

    /** ErrExist comes exactly from O_EXCL on a stored path, before any link is followed. */
    lemma {:induction false} LocateExist(path: Path, flag: Flag, fuel: nat)
      ensures Locate(path, flag, fuel) == Err(Exist) <==> 0 < fuel && path in files && IsExclusive(flag)
      decreases fuel
    {
      LocateStep(path, flag, fuel);
      if 0 < fuel && path in files && !IsExclusive(flag) && IsSymlink(files[path].mode) {
        LocateExist(ResolveLink(path, files[path]).0, flag, fuel - 1);
      }
    }

    /** ErrNotExist only comes without O_CREATE. */
    lemma {:induction false} LocateNotExist(path: Path, flag: Flag, fuel: nat)
      ensures Locate(path, flag, fuel) == Err(NotExist) ==> !IsCreate(flag)
      decreases fuel
    {
      LocateStep(path, flag, fuel);
      if 0 < fuel && path in files && !IsExclusive(flag) && IsSymlink(files[path].mode) {
        LocateNotExist(ResolveLink(path, files[path]).0, flag, fuel - 1);
      }
    }

    /** With O_EXCL, success only ever creates the path itself. */
    lemma LocateExclusive(path: Path, flag: Flag, fuel: nat)
      requires IsExclusive(flag)
      ensures Locate(path, flag, fuel).Ok? ==> Locate(path, flag, fuel) == Ok(Absent(path))
    {
      LocateStep(path, flag, fuel);
    }

    /**
     * Without O_EXCL, OpenFile lands where resolution ends, except that a
     * missing end without O_CREATE is ErrNotExist.
     */
    lemma {:induction false} LocateFollowsResolve(path: Path, flag: Flag, fuel: nat)
      requires !IsExclusive(flag)
      ensures Locate(path, flag, fuel) ==
        (if Resolve(path, fuel).Ok? && Resolve(path, fuel).value.Absent? && !IsCreate(flag) then Err(NotExist)
         else Resolve(path, fuel))
      decreases fuel
    {
      if 0 < fuel && path in files {
        var (target, isLink) := ResolveLink(path, files[path]);
        if isLink {
          LocateFollowsResolve(target, flag, fuel - 1);
        }
      }
    }

    /** Extra fuel never changes a resolution that finished. */
    lemma {:induction false} ResolveMoreFuel(path: Path, fuel: nat, more: nat)
      requires Resolve(path, fuel) != Err(TooManyLinks)
      requires fuel <= more
      ensures Resolve(path, more) == Resolve(path, fuel)
      decreases fuel
    {
      if path in files {
        var (target, isLink) := ResolveLink(path, files[path]);
        if isLink {
          ResolveMoreFuel(target, fuel - 1, more - 1);
        }
      }
    }

    /** Two links pointing at each other never resolve, whatever the budget. */
    lemma {:induction false} LinkCycleNeverResolves(a: Path, b: Path, fuel: nat)
      requires a in files && b in files
      requires IsSymlink(files[a].mode) && IsSymlink(files[b].mode)
      requires IsAbs(a) && IsAbs(b)
      requires files[a].content.bytes == b && files[b].content.bytes == a
      ensures Resolve(a, fuel) == Err(TooManyLinks) && Resolve(b, fuel) == Err(TooManyLinks)
      decreases fuel
    {
      if fuel > 0 {
        LinkCycleNeverResolves(a, b, fuel - 1);
      }
    }

    /**
     * Stat of `filename`: the metadata of the entry its links lead to, under
     * the base name of `filename` itself.
     */
    function Stat(filename: Path, fuel: nat): (r: Result<FileInfo>)
      reads this, files.Values, Contents()
      decreases fuel
      ensures r.Ok? ==> r.value.name == Base(filename)
      ensures r.Err? ==> r.error == NotExist || r.error == TooManyLinks
    {
      if fuel == 0 then Err(TooManyLinks)
      else if filename !in files then Err(NotExist)
      else
        var f := files[filename];
        var (target, isLink) := ResolveLink(filename, f);
        var fi := if isLink then Stat(target, fuel - 1) else Ok(f.Stat());
        if fi.Err? then fi else Ok(fi.value.(name := Base(filename)))
    }

    /** One step of Stat. */
    lemma StatStep(filename: Path, fuel: nat)
      ensures fuel == 0 ==> Stat(filename, fuel) == Err(TooManyLinks)
      ensures 0 < fuel && filename !in files ==> Stat(filename, fuel) == Err(NotExist)
      ensures 0 < fuel && filename in files && IsSymlink(files[filename].mode) ==>
        var inner := Stat(ResolveLink(filename, files[filename]).0, fuel - 1);
        Stat(filename, fuel) == if inner.Err? then inner else Ok(inner.value.(name := Base(filename)))
      ensures 0 < fuel && filename in files && !IsSymlink(files[filename].mode) ==>
        Stat(filename, fuel) == Ok(files[filename].Stat().(name := Base(filename)))
    {
    }

    /** Stat fails exactly where resolution fails or ends at a missing path. */
    lemma {:induction false} StatFailsWithResolve(filename: Path, fuel: nat)
      ensures Resolve(filename, fuel).Err? ==> Stat(filename, fuel) == Err(TooManyLinks)
      ensures Resolve(filename, fuel).Ok? && Resolve(filename, fuel).value.Absent? ==>
        Stat(filename, fuel) == Err(NotExist)
      decreases fuel
    {
      if fuel > 0 && filename in files && IsSymlink(files[filename].mode) {
        ResolveStep(filename, fuel);
        StatStep(filename, fuel);
        StatFailsWithResolve(ResolveLink(filename, files[filename]).0, fuel - 1);
      }
    }

    /**
     * Stat reports what Open would open: where resolution ends at a stored
     * entry, the final entry's size, mode and mtime under the queried name.
     */
    lemma {:induction false} StatFollowsResolve(filename: Path, fuel: nat)
      requires Resolve(filename, fuel).Ok? && Resolve(filename, fuel).value.Found?
      ensures Stat(filename, fuel) == Ok(files[Resolve(filename, fuel).value.path].Stat().(name := Base(filename)))
      decreases fuel
    {
      ResolveStep(filename, fuel);
      StatStep(filename, fuel);
      if IsSymlink(files[filename].mode) {
        StatFollowsResolve(ResolveLink(filename, files[filename]).0, fuel - 1);
      }
    }

    /** Lstat: the entry's own metadata; a symlink is never followed. */
    function Lstat(filename: Path): (r: Result<FileInfo>)
      reads this, files.Values, Contents()
      ensures r.Ok? <==> filename in files
      ensures r.Err? ==> r.error == NotExist
      ensures r.Ok? ==> r.value.mode == files[filename].mode && r.value.size == |files[filename].content.bytes|
      ensures r.Ok? ==> r.value == files[filename].Stat()
    {
      if filename !in files then Err(NotExist) else Ok(files[filename].Stat())
    }

    /** Readlink: the stored target of a symlink entry, byte for byte. */
    function Readlink(link: Path): (r: Result<Path>)
      reads this, Contents()
      ensures link !in files ==> r == Err(NotExist)
      ensures link in files && !IsSymlink(files[link].mode) ==> r == Err(NotSymlink(link))
      ensures r.Ok? <==> link in files && IsSymlink(files[link].mode)
      ensures r.Ok? ==> r.value == files[link].content.bytes
    {
      if link !in files then Err(NotExist)
      else if !IsSymlink(files[link].mode) then Err(NotSymlink(link))
      else Ok(files[link].content.bytes)
    }

    /** For a symlink, Lstat describes the link: its size is the length of the target Readlink returns. */
    lemma LstatOfSymlink(link: Path)
      requires link in files && IsSymlink(files[link].mode)
      ensures Lstat(link).Ok? && Readlink(link).Ok?
      ensures IsSymlink(Lstat(link).value.mode) && Lstat(link).value.size == |Readlink(link).value|
    {
    }

    /**
     * Stand-in for the storage's `New`: a missing path gets a fresh entry with
     * an empty buffer; a stored directory is left alone; any other stored path
     * is an error. Creation of missing parent directories is not modelled.
     */
    method New(path: Path, mode: FileMode, flag: Flag, now: Time) returns (f: File?, err: Option<Error>)
      modifies this
      ensures path in old(files) ==> files == old(files) && f == null
      ensures path in old(files) ==>
        err == if IsDir(old(files)[path].mode) then None else Some(FileAlreadyExists(path))
      ensures path !in old(files) ==>
        && err == None && f != null && fresh(f) && fresh(f.content)
        && files == old(files)[path := f]
        && f.name == Base(path) && f.mode == mode && f.flag == flag && f.mtime == now
        && f.position == 0 && !f.isClosed && f.content.bytes == []
    {
      if path in files {
        f := null;
        err := if IsDir(files[path].mode) then None else Some(FileAlreadyExists(path));
        return;
      }
      var c := new Content();
      f := new File(Base(path), c, mode, flag, now);
      files := files[path := f];
      err := None;
    }

    /**
     * Opens `filename`. A missing path fails without O_CREATE and is created
     * with it; a stored path fails under O_EXCL before any link is followed;
     * a symlink is followed by opening its target; a directory cannot be
     * opened. The new handle shares the entry's buffer, as Duplicate makes it.
     */
    method OpenFile(filename: Path, flag: Flag, perm: FileMode, fuel: nat, now: Time) returns (r: Result<File>)
      modifies this, Contents()
      decreases fuel
      ensures OpenedAsLocated(old(Locate(filename, flag, fuel)), r, flag, perm, now)
    {
      LocateStep(filename, flag, fuel);
      if fuel == 0 {
        return Err(TooManyLinks);
      }
      if filename !in files {
        if !IsCreate(flag) {
          return Err(NotExist);
        }
        r := CreateAndOpen(filename, flag, perm, now);
        return;
      }
      if IsExclusive(flag) {
        return Err(Exist);
      }
      var (target, isLink) := ResolveLink(filename, files[filename]);
      if isLink {
        r := OpenFile(target, flag, perm, fuel - 1, now);
        return;
      }
      r := OpenStored(filename, flag, perm, now);
    }

    /**
     * OpenFile's outcome, given where Locate says it lands: an error leaves
     * the storage and every buffer as they were; a stored entry is opened; a
     * missing path is created and opened.
     */
    twostate predicate OpenedAsLocated(loc: Result<Located>, new r: Result<File>, flag: Flag, perm: FileMode, now: Time)
      reads this, Contents(), if r.Ok? then {r.value} else {}
    {
      match loc
      case Err(e) => r == Err(e) && files == old(files) && BuffersKept()
      case Ok(Found(q)) => OpenedStored(q, r, flag, perm, now)
      case Ok(Absent(q)) => CreatedAndOpened(q, r, flag, perm, now)
    }

    /**
     * OpenFile's outcome at the stored entry `q`: the storage keeps its
     * entries; a directory is refused; otherwise the result is a fresh handle
     * on `q`'s buffer, which O_TRUNC has emptied, and no other buffer changed.
     */
    twostate predicate OpenedStored(q: Path, new r: Result<File>, flag: Flag, perm: FileMode, now: Time)
      reads this, Contents(), if r.Ok? then {r.value} else {}
    {
      && files == old(files) && q in files
      && (IsDir(files[q].mode) ==> r == Err(CannotOpenDirectory(q)) && BuffersKept())
      && (!IsDir(files[q].mode) ==>
            && r.Ok? && fresh(r.value)
            && OpenedOn(r.value, files[q].content, q, flag, perm, now)
            && files[q].content.bytes == (if IsTruncate(flag) then [] else old(files[q].content.bytes))
            && forall p | p in files && files[p].content != files[q].content ::
                 files[p].content.bytes == old(files[p].content.bytes))
    }

    /**
     * OpenFile's outcome at the missing path `q`: a fresh empty entry with
     * mode `perm` is stored at `q` and nothing else changes; a directory mode
     * is refused, otherwise the result is a fresh handle on the new entry.
     */
    twostate predicate CreatedAndOpened(q: Path, new r: Result<File>, flag: Flag, perm: FileMode, now: Time)
      reads this, Contents(), if r.Ok? then {r.value} else {}
    {
      && q in files && fresh(files[q]) && fresh(files[q].content)
      && files == old(files)[q := files[q]]
      && files[q].content.bytes == [] && files[q].mode == perm && files[q].name == Base(q)
      && BuffersKept()
      && (IsDir(perm) ==> r == Err(CannotOpenDirectory(q)))
      && (!IsDir(perm) ==> r.Ok? && fresh(r.value) && OpenedOn(r.value, files[q].content, q, flag, perm, now))
    }

    /** The end of OpenFile at a stored entry: refuse a directory, else duplicate the entry. */
    method OpenStored(filename: Path, flag: Flag, perm: FileMode, now: Time) returns (r: Result<File>)
      requires filename in files
      modifies files[filename].content
      ensures OpenedStored(filename, r, flag, perm, now)
    {
      var f := files[filename];
      if IsDir(f.mode) {
        return Err(CannotOpenDirectory(filename));
      }
      var h := f.Duplicate(filename, perm, flag, now);
      return Ok(h);
    }

    /** The end of OpenFile at a missing path with O_CREATE: store a new entry, then open it. */
    method CreateAndOpen(filename: Path, flag: Flag, perm: FileMode, now: Time) returns (r: Result<File>)
      requires filename !in files
      modifies this
      ensures CreatedAndOpened(filename, r, flag, perm, now)
    {
      var f, err := New(filename, perm, flag, now);
      if IsDir(f.mode) {
        return Err(CannotOpenDirectory(filename));
      }
      var h := f.Duplicate(filename, perm, flag, now);
      return Ok(h);
    }

    /** Open: read-only, never creates or truncates, so the storage is left as it was. */
    method Open(filename: Path, fuel: nat, now: Time) returns (r: Result<File>)
      modifies this, Contents()
      ensures files == old(files) && BuffersKept()
      ensures old(Resolve(filename, fuel)).Err? ==> r == Err(TooManyLinks)
      ensures old(Resolve(filename, fuel)).Ok? && old(Resolve(filename, fuel)).value.Absent? ==> r == Err(NotExist)
      ensures old(Resolve(filename, fuel)).Ok? && old(Resolve(filename, fuel)).value.Found? ==>
        var q := old(Resolve(filename, fuel)).value.path;
        && (IsDir(files[q].mode) ==> r == Err(CannotOpenDirectory(q)))
        && (!IsDir(files[q].mode) ==>
              r.Ok? && fresh(r.value) && OpenedOn(r.value, files[q].content, q, O_RDONLY, 0, now))
      ensures r.Ok? ==> ReadAllowed(r.value.flag) && !WriteAllowed(r.value.flag)
    {
      LocateFollowsResolve(filename, O_RDONLY, fuel);
      r := OpenFile(filename, O_RDONLY, 0, fuel, now);
    }

    /**
     * Create: read-write, create, truncate. A missing path gets a new empty
     * entry; a stored file is emptied; either way the handle starts at 0.
     */
    method Create(filename: Path, fuel: nat, now: Time) returns (r: Result<File>)
      modifies this, Contents()
      ensures old(Resolve(filename, fuel)).Err? ==> r == Err(TooManyLinks) && files == old(files) && BuffersKept()
      ensures 0 < fuel && filename !in old(files) ==>
        && r.Ok? && r.value.name == filename
        && filename in files && fresh(files[filename]) && fresh(files[filename].content)
        && files[filename].mode == CreatePerm
        && files == old(files)[filename := files[filename]]
      ensures r.Ok? ==>
        && fresh(r.value) && r.value.name in files && files[r.value.name].content == r.value.content
        && r.value.content.bytes == [] && r.value.position == 0 && !r.value.isClosed
        && ReadAllowed(r.value.flag) && WriteAllowed(r.value.flag)
      ensures old(Resolve(filename, fuel)).Ok? && old(Resolve(filename, fuel)).value.Found? ==>
        OpenedStored(old(Resolve(filename, fuel)).value.path, r, CreateFlags, CreatePerm, now)
      ensures old(Resolve(filename, fuel)).Ok? && old(Resolve(filename, fuel)).value.Absent? ==>
        CreatedAndOpened(old(Resolve(filename, fuel)).value.path, r, CreateFlags, CreatePerm, now)
    {
      LocateFollowsResolve(filename, CreateFlags, fuel);
      r := OpenFile(filename, CreateFlags, CreatePerm, fuel, now);
    }

    /**
     * MkdirAll: a missing path becomes a directory entry; on a stored
     * directory it changes nothing and succeeds; on any other entry it fails.
     */
    method MkdirAll(path: Path, perm: FileMode, now: Time) returns (err: Option<Error>)
      modifies this
      ensures path in old(files) ==>
        files == old(files) && err == if IsDir(files[path].mode) then None else Some(FileAlreadyExists(path))
      ensures path !in old(files) ==>
        && err == None && path in files && fresh(files[path]) && fresh(files[path].content)
        && IsDir(files[path].mode)
        && files[path].mode == perm | ModeDir && files[path].content.bytes == []
        && files == old(files)[path := files[path]]
    {
      var _, e := New(path, perm | ModeDir, 0, now);
      err := e;
    }

    /**
     * Stand-in for the whole-file write helper the filesystem uses: open with
     * write-only, create and truncate, write all of `data`, close.
     */
    method WriteFile(filename: Path, data: seq<byte>, perm: FileMode, fuel: nat, now: Time) returns (err: Option<Error>)
      modifies this, Contents()
      ensures old(Resolve(filename, fuel)).Err? ==>
        err == Some(TooManyLinks) && files == old(files) && BuffersKept()
      ensures old(Resolve(filename, fuel)).Ok? && old(Resolve(filename, fuel)).value.Found? ==>
        var q := old(Resolve(filename, fuel)).value.path;
        && files == old(files)
        && (IsDir(files[q].mode) ==> err == Some(CannotOpenDirectory(q)) && BuffersKept())
        && (!IsDir(files[q].mode) ==>
              && err == None && files[q].content.bytes == data
              && forall p | p in files && files[p].content != files[q].content ::
                   files[p].content.bytes == old(files[p].content.bytes))
      ensures old(Resolve(filename, fuel)).Ok? && old(Resolve(filename, fuel)).value.Absent? ==>
        var q := old(Resolve(filename, fuel)).value.path;
        && q in files && fresh(files[q]) && fresh(files[q].content) && files == old(files)[q := files[q]]
        && files[q].mode == perm && BuffersKept()
        && (IsDir(perm) ==> err == Some(CannotOpenDirectory(q)))
        && (!IsDir(perm) ==> err == None && files[q].content.bytes == data)
    {
      LocateFollowsResolve(filename, WriteFileFlags, fuel);
      var handle := OpenFile(filename, WriteFileFlags, perm, fuel, now);
      if handle.Err? {
        return Some(handle.error);
      }
      var f := handle.value;
      var n, e := f.Write(data, now);
      err := e;
      if err == None && n < |data| {
        err := Some(ShortWrite);
      }
      var closeErr := f.Close();
      if closeErr.Some? && err == None {
        err := closeErr;
      }
    }
  
    /**
     * Symlink: fails with ErrExist when Stat of `link` succeeds, passes on any
     * other error than not-exist, and otherwise writes `target` as the data of
     * a symlink entry at `link`. Because Stat follows links, a `link` that is
     * itself a dangling symlink counts as missing, and the write then goes
     * through it to the missing path it points at.
     */
    method Symlink(target: Path, link: Path, fuel: nat, now: Time) returns (err: Option<Error>)
      modifies this, Contents()
      ensures old(Stat(link, fuel)).Ok? ==> err == Some(Exist) && files == old(files) && BuffersKept()
      ensures old(Stat(link, fuel)) == Err(TooManyLinks) ==>
        err == Some(TooManyLinks) && files == old(files) && BuffersKept()
      ensures 0 < fuel && link !in old(files) ==>
        && err == None && link in files && fresh(files[link]) && fresh(files[link].content)
        && files == old(files)[link := files[link]] && BuffersKept()
        && Readlink(link) == Ok(target)
      ensures link in old(files) && old(Resolve(link, fuel)).Ok? && old(Resolve(link, fuel)).value.Absent? ==>
        var q := old(Resolve(link, fuel)).value.path;
        && err == None && q != link && q in files && fresh(files[q]) && fresh(files[q].content)
        && files == old(files)[q := files[q]] && BuffersKept()
        && IsSymlink(files[q].mode) && files[q].content.bytes == target
        && Readlink(link) == old(Readlink(link))
    {
      var st := Stat(link, fuel);
      StatFailsWithResolve(link, fuel);
      if st.Ok? {
        return Some(Exist);
      }
      if !IsNotExist(st.error) {
        return Some(st.error);
      }
      err := WriteFile(link, target, SymlinkPerm, fuel, now);
    }

    /**
     * Symlink with the existence test made by Lstat, so that any entry at
     * `link`, a dangling symlink included, is reported as existing.
     */
    method SymlinkNoFollow(target: Path, link: Path, fuel: nat, now: Time) returns (err: Option<Error>)
      modifies this, Contents()
      ensures link in old(files) ==> err == Some(Exist) && files == old(files) && BuffersKept()
      ensures link !in old(files) && fuel == 0 ==>
        err == Some(TooManyLinks) && files == old(files) && BuffersKept()
      ensures 0 < fuel && link !in old(files) ==>
        && err == None && link in files && fresh(files[link]) && fresh(files[link].content)
        && files == old(files)[link := files[link]] && BuffersKept()
        && Readlink(link) == Ok(target)
    {
      var st := Lstat(link);
      if st.Ok? {
        return Some(Exist);
      }
      err := WriteFile(link, target, SymlinkPerm, fuel, now);
    }

    /** Stand-in for the storage's Children: the stored paths whose directory is `dir`. */
    function ChildPaths(dir: Path): set<Path>
      reads this
    {
      set p | p in files && p != dir && Dir(p) == dir
    }

    /** The stat of every stored entry, as one value. */
    function Infos(): (m: map<Path, FileInfo>)
      reads this, files.Values, Contents()
      ensures m.Keys == files.Keys
      ensures forall p | p in files :: m[p] == files[p].Stat()
    {
      map p | p in files :: files[p].Stat()
    }

    /** `s` lists the stat of each child of `dir`, one entry per child, sorted by name. */
    ghost predicate IsListingOf(s: seq<FileInfo>, dir: Path)
      reads this, files.Values, Contents()
    {
      SortedByName(s) && ListsAll(s, ChildPaths(dir), Infos())
    }

    /**
     * ReadDir: follows a symlink at `path`; a missing path fails with ENOENT;
     * otherwise the stats of the children, sorted by name. A path holding a
     * regular file is listed like any other (usually as empty).
     */
    method ReadDir(path: Path, fuel: nat) returns (r: Result<seq<FileInfo>>)
      decreases fuel
      ensures Resolve(path, fuel).Err? ==> r == Err(TooManyLinks)
      ensures Resolve(path, fuel).Ok? && Resolve(path, fuel).value.Absent? ==>
        r == Err(NoSuchEntry(Resolve(path, fuel).value.path))
      ensures Resolve(path, fuel).Ok? && Resolve(path, fuel).value.Found? ==>
        r.Ok? && IsListingOf(r.value, Resolve(path, fuel).value.path)
    {
      ResolveStep(path, fuel);
      if fuel == 0 {
        return Err(TooManyLinks);
      }
      if path in files {
        var (target, isLink) := ResolveLink(path, files[path]);
        if isLink {
          r := ReadDir(target, fuel - 1);
          return;
        }
      } else {
        return Err(NoSuchEntry(path));
      }
      var entries := ListChildren(path);
      r := Ok(entries);
    }

    /** The listing part of ReadDir: the stat of every child of `dir`, sorted by name. */
    method ListChildren(dir: Path) returns (entries: seq<FileInfo>)
      ensures IsListingOf(entries, dir)
    {
      ghost var paths, infos := ChildPaths(dir), Infos();
      var collected := CollectInfos(ChildPaths(dir), Infos());
      assert ListsAll(collected, paths, infos);
      entries := SortByName(collected);
      ListsAllPermuted(collected, entries, paths, infos);
      assert paths == ChildPaths(dir) && infos == Infos();
    }
  }

  /**
   * The stats of `paths` as a bag: one entry per path, so a stat shared by
   * two paths appears twice.
   */
  ghost function StatsOf(paths: set<Path>, infos: map<Path, FileInfo>): multiset<FileInfo>
    requires paths <= infos.Keys
    decreases paths
  {
    if paths == {} then multiset{}
    else
      var p :| p in paths;
      multiset{infos[p]} + StatsOf(paths - {p}, infos)
  }

  /** Whichever path is taken out first, the bag is the same. */
  lemma {:induction false} StatsOfRemove(paths: set<Path>, infos: map<Path, FileInfo>, p: Path)
    requires paths <= infos.Keys && p in paths
    ensures StatsOf(paths, infos) == multiset{infos[p]} + StatsOf(paths - {p}, infos)
    decreases paths
  {
    var q :| q in paths && StatsOf(paths, infos) == multiset{infos[q]} + StatsOf(paths - {q}, infos);
    if q != p {
      StatsOfRemove(paths - {q}, infos, p);
      StatsOfRemove(paths - {p}, infos, q);
      assert paths - {q} - {p} == paths - {p} - {q};
    }
  }

  /** The bag of stats has one entry per path. */
  lemma {:induction false} StatsOfSize(paths: set<Path>, infos: map<Path, FileInfo>)
    requires paths <= infos.Keys
    ensures |StatsOf(paths, infos)| == |paths|
    decreases paths
  {
    if paths != {} {
      var q :| q in paths && StatsOf(paths, infos) == multiset{infos[q]} + StatsOf(paths - {q}, infos);
      StatsOfSize(paths - {q}, infos);
    }
  }

  /** The bag holds nothing that is not some path's stat. */
  lemma {:induction false} StatsOfOnly(paths: set<Path>, infos: map<Path, FileInfo>, x: FileInfo)
    requires paths <= infos.Keys && x in StatsOf(paths, infos)
    ensures exists p | p in paths :: x == infos[p]
    decreases paths
  {
    var q :| q in paths && StatsOf(paths, infos) == multiset{infos[q]} + StatsOf(paths - {q}, infos);
    if x != infos[q] {
      StatsOfOnly(paths - {q}, infos, x);
    }
  }

  /** `s` holds the stat of every path of `paths`, one entry per path, and nothing else. */
  ghost predicate ListsAll(s: seq<FileInfo>, paths: set<Path>, infos: map<Path, FileInfo>)
    requires paths <= infos.Keys
  {
    multiset(s) == StatsOf(paths, infos)
  }

  /**
   * What a listing holds: as many entries as paths, every path's stat, and
   * only paths' stats.
   */
  lemma ListingContents(s: seq<FileInfo>, paths: set<Path>, infos: map<Path, FileInfo>)
    requires paths <= infos.Keys && ListsAll(s, paths, infos)
    ensures |s| == |paths|
    ensures forall p | p in paths :: infos[p] in s
    ensures forall i | 0 <= i < |s| :: exists p | p in paths :: s[i] == infos[p]
  {
    StatsOfSize(paths, infos);
    assert |s| == |multiset(s)|;
    forall p | p in paths ensures infos[p] in s {
      StatsOfRemove(paths, infos, p);
      assert infos[p] in multiset(s);
    }
    forall i | 0 <= i < |s| ensures exists p | p in paths :: s[i] == infos[p] {
      assert s[i] in multiset(s);
      StatsOfOnly(paths, infos, s[i]);
    }
  }

  /** Listing the same stats in another order is still a listing of them. */
  lemma ListsAllPermuted(s: seq<FileInfo>, t: seq<FileInfo>, paths: set<Path>, infos: map<Path, FileInfo>)
    requires paths <= infos.Keys
    requires ListsAll(s, paths, infos) && multiset(t) == multiset(s)
    ensures ListsAll(t, paths, infos)
  {
  }

  /** The loop of ReadDir: the stat of every child, in the storage's order. */
  method CollectInfos(paths: set<Path>, infos: map<Path, FileInfo>) returns (entries: seq<FileInfo>)
    requires paths <= infos.Keys
    ensures ListsAll(entries, paths, infos)
  {
    entries := [];
    var rest := paths;
    while rest != {}
      invariant rest <= paths
      invariant multiset(entries) + StatsOf(rest, infos) == StatsOf(paths, infos)
      decreases rest
    {
      var p :| p in rest;
      StatsOfRemove(rest, infos, p);
      entries := entries + [infos[p]];
      rest := rest - {p};
    }
  }
}
