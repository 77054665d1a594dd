# In-memory filesystem (memfs) model

A Dafny model of the in-memory filesystem of the NFS server helpers
(`helpers/memfs/memfs.go`). The filesystem keeps one entry per path; each entry
holds a byte buffer, a mode and an mtime. Opening a path makes a new handle
that shares the entry's buffer by reference. The model has three parts:

- **Open-file handles** (`handle.dfy`, class `Handle.File`): a seek position,
  the open flag, a mode, an mtime and a closed bit over a shared
  `Buffer.Content`. Read, Seek, Write, WriteAt, Close and Truncate update
  these fields (and the shared buffer) in place, and each states the new
  state as a function of the old one. ReadAt and Stat are functions that
  change nothing. Duplicate makes a new handle on the same buffer. The buffer operations are the value functions
  `Buffer.Overwrite`, `Buffer.Resize` and `Buffer.ReadFrom`.
- **Flag predicates** (`flags.dfy`): bit tests on Go's `os` open flags and
  file modes, with the Linux constant values. Read-only is the whole flag
  word being zero, so O_RDONLY|O_CREATE can neither read nor write.
- **The facade** (`memfs.dfy`, class `Memfs.Memory`): a map from paths to
  entries, with OpenFile, Open, Create, Stat, Lstat, Readlink, Symlink,
  MkdirAll and ReadDir. Symlink resolution is the value function
  `Memory.Resolve`. Every operation that follows links is specified through
  it: OpenFile opens, Stat describes and ReadDir lists the place where
  resolution ends.

The facade follows links by unbounded recursion. The model gives every
resolving operation a `fuel` budget: one unit per path looked up. When the
budget runs out, the result is `TooManyLinks`. `Memory.ResolveMoreFuel` shows
that more fuel never changes a result that did not run out.
`Memory.LinkCycleNeverResolves` shows that a two-link cycle runs out for any
budget.

`listing.dfy` holds the name order of directory listings: Go's byte-wise
string comparison and an insertion sort proved sorted and a permutation.
`paths.dfy` holds the path helpers.
The accessors `Buffer.Content.Len`, `Handle.File.Stat` and the predicate
`Paths.IsAbs` have no rows of their own: what they mean is stated where they
are used, in the contracts of Seek, Duplicate, Stat, `Handle.WriteSeenThroughOther`
and `Memfs.ResolveLink`. `scenarios.dfy` verifies the outcome of
small concrete sequences of calls on a fresh filesystem.

## Model

| member | source | states |
|---|---|---|
| Flags.ReadOnlyWithOtherBitsCannotRead | helpers/memfs/memfs.go:400-406 | O_RDONLY combined with any other bit except O_RDWR fails the read gate |
| Flags.AccessModeWithOtherFlags | helpers/memfs/memfs.go:400-410 | for an access mode combined with any other open flags: O_RDWR may read and write, O_WRONLY may only write, and O_RDONLY may read only when no other flag is given |
| Flags.FlagBitTests | helpers/memfs/memfs.go:384-402 | isCreate, isExclusive, isAppend, isTruncate and isReadAndWrite (and isWriteOnly, lines 408-410) each test their own bit: setting it makes the test hold, and adding any other bits never changes the answer |
| Flags.PermissionBitsIgnored | helpers/memfs/memfs.go:412-414 | permission bits never make a mode a symlink (isSymlink) or a directory (FileMode.IsDir) |
| Flags.DirAndSymlinkBits | helpers/memfs/memfs.go:412-414 | the symlink bit makes isSymlink hold and the directory bit makes IsDir hold, each without changing the other test |
| Flags.AccessModes | helpers/memfs/memfs.go:400-410 | which of O_RDONLY, O_WRONLY, O_RDWR and the Open, Create and whole-file-write flag words may read and which may write |
| Buffer.Content.Truncate | helpers/memfs/memfs.go:376-378 | the shared buffer becomes empty |
| Buffer.Resize | helpers/memfs/memfs.go:295-304 | the resized buffer has the requested length, keeps the common prefix and is zero past the old end |
| Buffer.ShrinkThenGrowZeroes | helpers/memfs/memfs.go:295-304 | truncating to n and then growing to m leaves zeros in [n, m), whatever the buffer held there |
| Buffer.ReadFrom | helpers/memfs/memfs.go:244 | stand-in for the buffer read: a negative offset is an error; otherwise it returns min(want, bytes left) bytes from the offset, with EOF exactly when fewer than `want` bytes were left |
| Buffer.Overwrite | helpers/memfs/memfs.go:279 | stand-in for the buffer write: the buffer grows to cover the write, the written range holds the data, the gap past the old end is zero and all other bytes are unchanged |
| Buffer.Content.WriteAt | helpers/memfs/memfs.go:279 | a negative offset changes nothing and is an error; otherwise all bytes are written and the buffer becomes the Overwrite of the old one |
| Buffer.ReadBackWritten | helpers/memfs/memfs.go:279 | reading back the range just written returns exactly the written bytes with no error |
| Handle.File.ReadAt | helpers/memfs/memfs.go:235-247 | a closed handle fails with ErrClosed, then a handle whose flag is not readable fails; otherwise the result is the buffer read at the offset: a negative offset is an error, else exactly min(want, bytes left) of the buffer's bytes from the offset, with EOF exactly when the offset is at or past the end or fewer than `want` bytes were left |
| Handle.File.Read | helpers/memfs/memfs.go:224-233 | returns what ReadAt at the current position returns, advances the position by exactly the number of bytes read, and drops EOF when some bytes were read |
| Handle.File.Seek | helpers/memfs/memfs.go:249-264 | on a closed handle: ErrClosed and the position unchanged; otherwise SeekStart sets, SeekCurrent adds and SeekEnd sets to buffer length plus offset, with no clamping; an unknown whence keeps the position; the new position is returned |
| Handle.File.WriteAt | helpers/memfs/memfs.go:270-284 | closed or not writable: an error and no change to position, mtime or buffer; otherwise the position becomes off + n, the mtime is the clock value, and the buffer is the Overwrite of the old one (or unchanged, with an error, for a negative offset) |
| Handle.File.Write | helpers/memfs/memfs.go:266-268 | WriteAt at the current position: the same gates; after a write the position has advanced by the length of the data; a negative position is an error that still stamps the mtime; any write that passes the gates stamps the mtime |
| Handle.WriteSeenThroughOther | helpers/memfs/memfs.go:326-333 | a handle's stat size is the shared buffer's length: after a write through one handle, every other handle on the same buffer reports the grown size (unchanged when the write is refused) and reads back the written bytes at the write's offset |
| Handle.File.Close | helpers/memfs/memfs.go:286-293 | one-shot: the first call closes the handle and succeeds, any later call returns ErrClosed |
| Handle.File.Truncate | helpers/memfs/memfs.go:295-304 | the shared buffer becomes Resize(old, size) and the mtime is the clock value |
| Handle.File.Duplicate | helpers/memfs/memfs.go:306-324 | a fresh open handle with the given name, mode and flag on the same buffer; O_TRUNC empties the shared buffer; O_APPEND starts the handle at the buffer's end, otherwise at 0 |
| Listing.NameLessIrreflexive | helpers/memfs/memfs.go:126 | no name sorts before itself |
| Listing.NameLessTransitive | helpers/memfs/memfs.go:126 | the name order is transitive |
| Listing.NameLessTotal | helpers/memfs/memfs.go:126 | of two different names, one sorts before the other |
| Listing.InsertByName | helpers/memfs/memfs.go:123-127 | inserting into a sorted listing keeps it sorted and adds exactly the one entry |
| Listing.SortByName | helpers/memfs/memfs.go:123-127 | the sorted listing is ordered by name and is a permutation of its input |
| Memfs.ResolveLink | helpers/memfs/memfs.go:71-89 | a non-symlink resolves to its own path; a symlink's stored target is used verbatim when it starts with the separator, else joined to the link's directory; absolute paths stay absolute |
| Memfs.Memory.Resolve | helpers/memfs/memfs.go:42-61 | resolution ends at a stored entry that is not a symlink, or at a path that is not stored, or runs out of budget |
| Memfs.Memory.ResolveMoreFuel | helpers/memfs/memfs.go:58-60 | a resolution that finishes gives the same result with any larger budget |
| Memfs.Memory.LinkCycleNeverResolves | helpers/memfs/memfs.go:58-60 | two symlinks pointing at each other never resolve, whatever the budget |
| Memfs.Memory.Locate | helpers/memfs/memfs.go:42-61 | where OpenFile lands, in its order of checks: an entry found there is stored and is not a symlink; a path to be created is missing and O_CREATE is set |
| Memfs.Memory.LocateExist | helpers/memfs/memfs.go:55-57 | ErrExist comes exactly from O_EXCL on a stored path, checked before any link is followed |
| Memfs.Memory.LocateNotExist | helpers/memfs/memfs.go:44-47 | ErrNotExist only comes without O_CREATE |
| Memfs.Memory.LocateExclusive | helpers/memfs/memfs.go:54-61 | with O_EXCL, a success only ever creates the queried path itself, never a link's target |
| Memfs.Memory.LocateFollowsResolve | helpers/memfs/memfs.go:42-61 | without O_EXCL, OpenFile lands where symlink resolution ends, except that a missing end without O_CREATE is ErrNotExist |
| Memfs.Memory.OpenFile | helpers/memfs/memfs.go:42-69 | errors as Locate says and nothing stored changes; at a stored directory, an error; at a stored file, a fresh handle on that entry's buffer, opened as Duplicate opens it; at a missing path with O_CREATE, a new empty entry with the given permission and a handle on it; other buffers are untouched |
| Memfs.Memory.OpenStored | helpers/memfs/memfs.go:63-68 | on a stored entry: a directory gives an error and changes nothing; otherwise a fresh handle on the entry's buffer, opened as Duplicate opens it, and no other buffer changes |
| Memfs.Memory.CreateAndOpen | helpers/memfs/memfs.go:48-68 | on a missing path: a new entry with an empty fresh buffer and the given permission is stored, nothing else in the map changes; a directory permission then gives an error, otherwise a fresh handle on the new entry |
| Memfs.Memory.Open | helpers/memfs/memfs.go:38-40 | never changes the storage; fails as resolution fails; the handle it returns may read but not write |
| Memfs.Memory.Create | helpers/memfs/memfs.go:34-36 | OpenFile with read-write, create and truncate and permission 0666: an exhausted budget changes nothing; where resolution ends at a stored entry, a directory is refused and a file is opened with its buffer emptied, the map unchanged and other buffers untouched; where it ends at a missing path, a new entry with permission 0666 is stored; every handle returned is read-write, at position 0, on the empty buffer of a stored entry |
| Memfs.Memory.Stat | helpers/memfs/memfs.go:91-112 | a successful Stat is named by the base of the queried path; failures are ErrNotExist or an exhausted budget |
| Memfs.Memory.StatFailsWithResolve | helpers/memfs/memfs.go:91-112 | Stat runs out of budget when resolution does, and fails with ErrNotExist when resolution ends at a missing path |
| Memfs.Memory.StatFollowsResolve | helpers/memfs/memfs.go:91-112 | when resolution ends at a stored entry, Stat reports that entry's size, mode and mtime under the queried base name |
| Memfs.Memory.Lstat | helpers/memfs/memfs.go:114-121 | succeeds exactly for a stored path and returns that entry's own stat (name, size, mode, mtime), never following a link |
| Memfs.Memory.LstatOfSymlink | helpers/memfs/memfs.go:114-121 | Lstat of a symlink has the symlink bit and the length of the target Readlink returns |
| Memfs.Memory.Readlink | helpers/memfs/memfs.go:183-198 | ErrNotExist for a missing path, a not-a-symlink error for another entry, otherwise the stored target bytes |
| Memfs.Memory.ReadDir | helpers/memfs/memfs.go:129-147 | a missing path fails with ENOENT naming the path where resolution ended; a symlink is followed; otherwise the result is sorted by name and, as a multiset, is exactly the stats of the children of the resolved path, one entry per child (two children with equal stats give two equal entries) |
| Memfs.Memory.ListChildren | helpers/memfs/memfs.go:137-146 | the listing is sorted by name and, as a multiset, is exactly the children's stats, one entry per child |
| Memfs.CollectInfos | helpers/memfs/memfs.go:138-142 | the loop collects one stat per child: the multiset of entries is exactly the bag of the children's stats |
| Memfs.ListingContents | helpers/memfs/memfs.go:137-146 | a listing has as many entries as children, holds every child's stat and holds nothing but children's stats |
| Memfs.ListsAllPermuted | helpers/memfs/memfs.go:144 | sorting keeps the listing a listing of the same children |
| Memfs.Memory.New | helpers/memfs/memfs.go:50 | stand-in for the storage's New: a missing path gets a fresh empty entry, a stored directory is left alone, another stored path is an error |
| Memfs.Memory.MkdirAll | helpers/memfs/memfs.go:149-152 | a missing path becomes a fresh entry with a fresh empty buffer and mode perm plus the directory bit, and nothing else changes; a stored directory succeeds unchanged; another stored entry is an error |
| Memfs.Memory.WriteFile | helpers/memfs/memfs.go:180 | stand-in for the whole-file write Symlink calls: the place where resolution of the path ends ends up holding exactly the data; other buffers are untouched |
| Memfs.Memory.Symlink | helpers/memfs/memfs.go:170-181 | ErrExist when Stat of the link succeeds; a missing link becomes a symlink entry whose Readlink is the target; a dangling symlink at the link is written through: the place its resolution ends becomes a fresh symlink entry with a fresh buffer holding the target, and Readlink of the link is unchanged (see Findings) |
| Memfs.Memory.SymlinkNoFollow | helpers/memfs/memfs.go:170-181 | corrected Symlink: any stored entry at the link, dangling symlink included, gives ErrExist and changes nothing; otherwise the link is created with the target |
| Scenarios.SymlinkOverDanglingLink | helpers/memfs/memfs.go:170-181 | with /l a symlink to the missing /a, Symlink("/b", "/l") returns no error, /l still reads /a, and /a is created holding /b |
| Scenarios.SymlinkOverDanglingLinkNoFollow | helpers/memfs/memfs.go:170-181 | the same calls with the corrected Symlink return ErrExist and create nothing |
| Scenarios.CreateInNewDirectory | helpers/memfs/memfs.go:149-152 | MkdirAll of /a, Create of /a/f and a write of five bytes: Stat of /a/f reports size 5 under the name f |
| Scenarios.ReadOnlyCreateCannotRead | helpers/memfs/memfs.go:404-406 | OpenFile with O_RDONLY\|O_CREATE creates the file, but its handle cannot read |
| Scenarios.AppendHandlesOverwrite | helpers/memfs/memfs.go:319-321 | two O_APPEND handles opened on an empty file both start at 0, so the second write overwrites the first |
| Scenarios.TruncateSeenByEarlierHandle | helpers/memfs/memfs.go:315-316 | opening with O_TRUNC empties the buffer an earlier handle still reads, which then sees end of data |

## Left out

- Storage (`Get`, `New`, `Children`, `Rename`, `Remove`, `newStorage`) and the buffer's `ReadAt`/`WriteAt` live in a file that is not part of this model. `Get` is an exact lookup in the `files` map, with no path cleaning. `Memory.New`, `Buffer.ReadFrom` and `Buffer.Overwrite` are small stand-ins with their own contracts, not source behaviour. `Memory.ChildPaths` is a stand-in definition of `Children` (the stored paths whose `Dir` is the directory) with no contract of its own. Creating missing parent directories in `New` is not modelled.
- Memfs.Memory.MkdirAll, Memfs.Memory.CreateAndOpen, Memfs.Memory.OpenFile, Memfs.Memory.Create: the storage's New also stores every missing ancestor of the path as a directory; the stand-in New does not, so MkdirAll("/a/b") with "/a" missing stores only "/a/b", and after Create("/a/f") with "/a" missing, ReadDir("/a") fails. Their "nothing else in the map changes" holds only in this model.
- Rename and Remove: they only delegate to the storage, so they are not modelled.
- Memfs.Memory.WriteFile: the whole-file write helper of the go-billy library is not part of this model. It is modelled as OpenFile with write-only, create and truncate, then Write, then Close, reporting a short write.
- `Paths.Dir`, `Paths.Base`, `Paths.Join`: stand-ins for Go's path/filepath. They split and join at `/` but do not clean `.`, `..` or repeated separators. The Windows volume rule of `filepath.IsAbs` is not modelled.
- Memfs.Memory.OpenFile: the error return after the storage's New (lines 51-53) is never taken, because the stand-in New cannot fail on a missing path. The "cannot open directory" message is the error value `CannotOpenDirectory(path)`.
- Memfs.Memory.Resolve, OpenFile, Stat, ReadDir, Symlink: the unbounded link recursion is bounded by `fuel`. A resolution longer than the budget, or a cycle, gives `TooManyLinks` instead of recursing forever.
- Handle.File.Truncate: a negative size makes Go's slice expression panic, so the method requires `size >= 0`.
- Position arithmetic uses unbounded integers. The int64 overflow of `position` and offsets is not modelled.
- `time.Now()` is a `now` parameter: writes, truncates and new handles record it.
- `New()` wrapping the filesystem in a chroot, `TempFile`, the `Join` method, `Capabilities`, `Lock`/`Unlock` (no-ops) and the `Name`/`fileInfo` accessors are not modelled.
- Error values are compared as values. Go's error strings and `PathError` fields beyond the path are not modelled.
- `example/osnfs/changeos.go` (wrappers over real-disk chmod, chown and chtimes) and `file/file_unix.go` (decoding platform stat structures) are not part of this model.

## Findings

| source | as written | input that shows it | evidently intended | confidence | as-written member | corrected member |
|---|---|---|---|---|---|---|
| helpers/memfs/memfs.go:170-181 | Symlink tests whether the link exists with Stat, which follows links, so an existing dangling symlink counts as missing; the whole-file write then follows that link and creates its missing target | `/l` is a symlink to the missing `/a`; Symlink("/b", "/l") returns nil, leaves `/l` unchanged and creates `/a` as a symlink holding `/b` | report ErrExist for any entry already stored at the link, as an existence test with Lstat does (symlink(2) gives EEXIST) | medium, not executed | Scenarios.SymlinkOverDanglingLink | Memfs.Memory.SymlinkNoFollow |
