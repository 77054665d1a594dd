/**
 * The open-flag and file-mode bit tests of the filesystem.
 * Flags are Go `int`s (64 bits); modes are `os.FileMode` (a uint32).
 * The constants are those of Go's os package on Linux.
 */
module Flags {

  type Flag = bv64
  type FileMode = bv32

  const O_RDONLY: Flag := 0x0
  const O_WRONLY: Flag := 0x1
  const O_RDWR: Flag := 0x2
  const O_CREATE: Flag := 0x40
  const O_EXCL: Flag := 0x80
  const O_TRUNC: Flag := 0x200
  const O_APPEND: Flag := 0x400

  const ModeDir: FileMode := 0x8000_0000
  const ModeSymlink: FileMode := 0x0800_0000

  predicate IsCreate(flag: Flag) { flag & O_CREATE != 0 }
  predicate IsExclusive(flag: Flag) { flag & O_EXCL != 0 }
  predicate IsAppend(flag: Flag) { flag & O_APPEND != 0 }
  predicate IsTruncate(flag: Flag) { flag & O_TRUNC != 0 }
  predicate IsReadAndWrite(flag: Flag) { flag & O_RDWR != 0 }

  /** Not a bit test: the whole flag word must be O_RDONLY, that is, zero. */
  predicate IsReadOnly(flag: Flag) { flag == O_RDONLY }

  predicate IsWriteOnly(flag: Flag) { flag & O_WRONLY != 0 }

  predicate IsSymlink(m: FileMode) { m & ModeSymlink != 0 }

  /** `os.FileMode.IsDir`. */
  predicate IsDir(m: FileMode) { m & ModeDir != 0 }

  /** The gate in front of every read of a handle. */
  predicate ReadAllowed(flag: Flag) { IsReadAndWrite(flag) || IsReadOnly(flag) }

  /** The gate in front of every write of a handle. */
  predicate WriteAllowed(flag: Flag) { IsReadAndWrite(flag) || IsWriteOnly(flag) }

  /**
   * Read access is all-or-nothing on the flag word: O_RDONLY combined with any
   * other bit except O_RDWR (O_CREATE, O_TRUNC, O_APPEND, ...) cannot read.
   */
  lemma ReadOnlyWithOtherBitsCannotRead(extra: Flag)
    requires extra != 0 && extra & O_RDWR == 0
    ensures !ReadAllowed(O_RDONLY | extra)
  {
  }

  /**
   * What an open mode lets a handle do: one access mode combined with any
   * other flags. O_RDWR reads and writes, O_WRONLY only writes, and O_RDONLY
   * reads only when no other flag at all is given.
   */
  lemma AccessModeWithOtherFlags(access: Flag, extra: Flag)
    requires access == O_RDONLY || access == O_WRONLY || access == O_RDWR
    requires extra & (O_WRONLY | O_RDWR) == 0
    ensures ReadAllowed(access | extra) <==> access == O_RDWR || (access == O_RDONLY && extra == 0)
    ensures WriteAllowed(access | extra) <==> access != O_RDONLY
  {
  }

  /**
   * The flag tests other than IsReadOnly each look at their own bit only:
   * setting it makes the test hold, and adding bits other than it never
   * changes the answer.
   */
  lemma FlagBitTests(flag: Flag, extra: Flag)
    ensures IsCreate(flag | O_CREATE) && IsExclusive(flag | O_EXCL) && IsAppend(flag | O_APPEND)
    ensures IsTruncate(flag | O_TRUNC) && IsReadAndWrite(flag | O_RDWR) && IsWriteOnly(flag | O_WRONLY)
    ensures extra & O_CREATE == 0 ==> (IsCreate(flag | extra) <==> IsCreate(flag))
    ensures extra & O_EXCL == 0 ==> (IsExclusive(flag | extra) <==> IsExclusive(flag))
    ensures extra & O_APPEND == 0 ==> (IsAppend(flag | extra) <==> IsAppend(flag))
    ensures extra & O_TRUNC == 0 ==> (IsTruncate(flag | extra) <==> IsTruncate(flag))
    ensures extra & O_RDWR == 0 ==> (IsReadAndWrite(flag | extra) <==> IsReadAndWrite(flag))
    ensures extra & O_WRONLY == 0 ==> (IsWriteOnly(flag | extra) <==> IsWriteOnly(flag))
  {
    OneFlagBit(flag, extra, O_CREATE);
    OneFlagBit(flag, extra, O_EXCL);
    OneFlagBit(flag, extra, O_APPEND);
    OneFlagBit(flag, extra, O_TRUNC);
    OneFlagBit(flag, extra, O_RDWR);
    OneFlagBit(flag, extra, O_WRONLY);
  }

  /** Setting `bit` sets it; or-ing in bits outside `bit` leaves `bit`'s test alone. */
  lemma OneFlagBit(flag: Flag, extra: Flag, bit: Flag)
    ensures (flag | bit) & bit == bit
    ensures extra & bit == 0 ==> (flag | extra) & bit == flag & bit
  {
  }

  /** OneFlagBit for mode words. */
  lemma OneModeBit(m: FileMode, extra: FileMode, bit: FileMode)
    ensures (m | bit) & bit == bit
    ensures extra & bit == 0 ==> (m | extra) & bit == m & bit
  {
  }

  /** Permission bits (the low nine) never make a mode a directory or a symlink. */
  lemma PermissionBitsIgnored(m: FileMode, perm: FileMode)
    ensures IsDir(m | (perm & 0x1FF)) <==> IsDir(m)
    ensures IsSymlink(m | (perm & 0x1FF)) <==> IsSymlink(m)
  {
    OneModeBit(m, perm & 0x1FF, ModeDir);
    OneModeBit(m, perm & 0x1FF, ModeSymlink);
  }

  /** Setting the directory or the symlink bit makes that test hold and leaves the other alone. */
  lemma DirAndSymlinkBits(m: FileMode)
    ensures IsDir(m | ModeDir) && IsSymlink(m | ModeSymlink)
    ensures IsSymlink(m | ModeDir) <==> IsSymlink(m)
    ensures IsDir(m | ModeSymlink) <==> IsDir(m)
  {
    OneModeBit(m, ModeDir, ModeSymlink);
    OneModeBit(m, ModeSymlink, ModeDir);
  }

  /** The three access modes, and the flag words used by Open and Create. */
  lemma AccessModes()
    ensures ReadAllowed(O_RDONLY) && !WriteAllowed(O_RDONLY)
    ensures !ReadAllowed(O_WRONLY) && WriteAllowed(O_WRONLY)
    ensures ReadAllowed(O_RDWR) && WriteAllowed(O_RDWR)
    ensures !ReadAllowed(O_RDONLY | O_CREATE)
    ensures !ReadAllowed(O_WRONLY | O_CREATE | O_TRUNC) && WriteAllowed(O_WRONLY | O_CREATE | O_TRUNC)
    ensures ReadAllowed(O_RDWR | O_CREATE | O_TRUNC) && WriteAllowed(O_RDWR | O_CREATE | O_TRUNC)
  {
  }
}
