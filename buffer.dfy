/**
 * The content buffer: one resizable byte sequence that every handle opened on
 * the same file shares by reference.
 *
 * The functions below give the meaning of the buffer operations on values;
 * the `Content` class applies them in place.
 */
module Buffer {
  import opened Common

  function Zeros(k: nat): (z: seq<byte>)
    ensures |z| == k && forall i | 0 <= i < k :: z[i] == 0
  {
    seq(k, _ => 0)
  }

  function Max(a: int, b: int): int { if a < b then b else a }
  function Min(a: int, b: int): int { if a < b then a else b }

  /**
   * The buffer after writing `p` at offset `off`: the buffer grows to cover the
   * write, the gap between the old end and `off` is zero, the written range
   * holds `p` and every other byte keeps its old value.
   */
  function Overwrite(b: seq<byte>, p: seq<byte>, off: nat): (r: seq<byte>)
    ensures |r| == Max(|b|, off + |p|)
    ensures r[off..off + |p|] == p
    ensures forall i | 0 <= i < |b| && !(off <= i < off + |p|) :: r[i] == b[i]
    ensures forall i | |b| <= i < off :: r[i] == 0
  {
    var padded := if off > |b| then b + Zeros(off - |b|) else b;
    var end := off + |p|;
    padded[..off] + p + (if end < |padded| then padded[end..] else [])
  }

  /**
   * The buffer resized to `size` bytes: shrinking drops the tail, growing pads
   * with zero bytes, and the common prefix is kept.
   */
  function Resize(b: seq<byte>, size: nat): (r: seq<byte>)
    ensures |r| == size
    ensures r[..Min(|b|, size)] == b[..Min(|b|, size)]
    ensures forall i | |b| <= i < size :: r[i] == 0
  {
    if size < |b| then b[..size] else b + Zeros(size - |b|)
  }

  /** What a positioned read returns: the bytes copied and the error. */
  datatype ReadResult = ReadResult(data: seq<byte>, err: Option<Error>)

  /**
   * A read of up to `want` bytes at `off`: as many bytes as the buffer holds
   * from `off`, with io.EOF when fewer than `want` were available (or `off` is
   * at or past the end) and an error for a negative offset.
   */
  function ReadFrom(b: seq<byte>, want: nat, off: int): (r: ReadResult)
    ensures off < 0 ==> r == ReadResult([], Some(NegativeOffset))
    ensures 0 <= off ==> |r.data| == Min(want, Max(|b| - off, 0))
    ensures 0 <= off && |r.data| > 0 ==> r.data == b[off..off + |r.data|]
    ensures 0 <= off ==> (r.err == Some(EOF) <==> off >= |b| || off + want > |b|)
    ensures 0 <= off ==> r.err == None || r.err == Some(EOF)
  {
    if off < 0 then ReadResult([], Some(NegativeOffset))
    else if off >= |b| then ReadResult([], Some(EOF))
    else
      var end := if off + want > |b| then |b| else off + want;
      ReadResult(b[off..end], if end - off < want then Some(EOF) else None)
  }

  /** Reading back the range just written returns exactly the written bytes. */
  lemma ReadBackWritten(b: seq<byte>, p: seq<byte>, off: nat)
    requires |p| > 0
    ensures ReadFrom(Overwrite(b, p, off), |p|, off) == ReadResult(p, None)
  {
  }

  /** Truncating to `n` and then growing to `m` leaves zeros in `[n, m)`. */
  lemma ShrinkThenGrowZeroes(b: seq<byte>, n: nat, m: nat)
    requires n < m
    ensures forall i | n <= i < m :: Resize(Resize(b, n), m)[i] == 0
  {
  }

  /** The byte buffer itself, shared by reference. */
  class Content {
    var bytes: seq<byte>

    constructor ()
      ensures bytes == []
    {
      bytes := [];
    }

    /** The buffer's length, which a handle's Stat reports as the size. */
    function Len(): (n: nat)
      reads this
      ensures n == |bytes|
    {
      |bytes|
    }

    /** Empties the buffer; every handle sharing it sees the empty buffer. */
    method Truncate()
      modifies this
      ensures bytes == []
    {
      bytes := [];
    }

    function ReadAt(want: nat, off: int): ReadResult
      reads this
    {
      ReadFrom(bytes, want, off)
    }

    method WriteAt(p: seq<byte>, off: int) returns (n: int, err: Option<Error>)
      modifies this
      ensures off < 0 ==> n == 0 && err == Some(NegativeOffset) && bytes == old(bytes)
      ensures 0 <= off ==> n == |p| && err == None && bytes == Overwrite(old(bytes), p, off)
    {
      if off < 0 {
        return 0, Some(NegativeOffset);
      }
      bytes := Overwrite(bytes, p, off);
      return |p|, None;
    }
  }
}
