/** Types shared by every part of the in-memory filesystem model. */
module Common {

  /** Go's `byte`. Go strings are byte strings, so paths and file data share it. */
  newtype byte = b: int | 0 <= b < 256

  /** A Go `string` holding a path (or a symlink target). */
  type Path = seq<byte>

  /** A clock reading, as returned by `time.Now()`; callers pass it in. */
  type Time = int

  /** The error values the filesystem returns. */
  datatype Error =
    | NotExist                    // os.ErrNotExist
    | Exist                       // os.ErrExist
    | CannotOpenDirectory(path: Path)
    | Closed                      // os.ErrClosed
    | ReadNotSupported
    | WriteNotSupported
    | NotSymlink(path: Path)      // the PathError of Readlink
    | NoSuchEntry(path: Path)     // the PathError{ENOENT} of ReadDir
    | EOF                         // io.EOF
    | NegativeOffset              // content ReadAt/WriteAt at an offset below zero
    | FileAlreadyExists(path: Path)
    | ShortWrite                  // io.ErrShortWrite
    | TooManyLinks                // the model's bound on symlink resolution ran out

  /** Go's `os.IsNotExist`: true of ErrNotExist and of a PathError carrying ENOENT. */
  predicate IsNotExist(e: Error) {
    e.NotExist? || e.NoSuchEntry?
  }

  /** A Go error return: `None` is `nil`. */
  datatype Option<T> = None | Some(value: T)

  /** A value-or-error return. */
  datatype Result<T> = Ok(value: T) | Err(error: Error)

  /** The bytes of an ASCII string literal, for writing paths in proofs. */
  function Bytes(s: string): seq<byte>
    requires forall i | 0 <= i < |s| :: s[i] as int < 256
  {
    seq(|s|, i requires 0 <= i < |s| => s[i] as int as byte)
  }
}
