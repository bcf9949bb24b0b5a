/** The growable byte buffer: a sequence of bytes with amortised cost. */
module GrowableBuffer {
  import opened Numbers

  type Byte = b: int | 0 <= b < 256

  class AntBuf {
    var buf: array?<Byte>
    var length: nat
    var ncurr: nat
    var nmAlloc: nat
    /** The bytes ever appended, and the bytes copied by all growths. */
    ghost var appended: nat
    ghost var copied: nat
    /** The length of the first allocation, whether an append made it, and how often it has grown since. */
    ghost var first: nat
    ghost var late: bool
    ghost var growths: nat

    ghost predicate Valid()
      reads this, buf
    {
      && (buf == null ==> length == 0) && (buf != null ==> length == buf.Length >= 1)
      && ncurr <= length && ncurr <= appended
      && copied <= length && copied <= 2 * appended
      && nmAlloc == growths + (if late then 1 else 0)
      && first * Pow2(growths) <= length
      && (growths == 0 ==> length == first) && (growths > 0 ==> length <= 2 * appended + 1)
    }

    ghost function Contents(): seq<Byte>
      requires Valid()
      reads this, buf
    {
      if buf == null then [] else buf[..ncurr]
    }

    constructor (length: nat)
      ensures Valid() && Contents() == [] && this.length == length
      ensures appended == 0 && copied == 0 && nmAlloc == 0
      ensures buf == null || fresh(buf)
    {
      this.length, ncurr, nmAlloc := length, 0, 0;
      appended, copied, first, late, growths := 0, 0, length, false, 0;
      if length == 0 {
        buf := null;
      } else {
        buf := new Byte[length](_ => 0);
      }
    }

    /** The amount to allocate for `needed` bytes. */
    function NextLength(needed: nat): nat
      reads this
    {
      if needed < 2 * length then 2 * length else needed
    }

    /** The first allocation. */
    method Start(size: nat)
      requires Valid() && (buf == null || length == 0)
      modifies this
      ensures Valid() && Contents() == old(Contents()) && buf != null && fresh(buf)
      ensures length == size + 500 && ncurr == old(ncurr) == 0 && appended == old(appended) && copied == old(copied)
    {
      length := size + 500;
      buf := new Byte[length](_ => 0);
      nmAlloc := 1;
      first, late, growths := length, true, 0;
    }

    /** Growing to a new block; appending the bytes it is for is what pays for the copy. */
    method Grow(size: nat)
      requires Valid() && buf != null && ncurr + size + 1 > length
      modifies this
      ensures buf != null && fresh(buf) && length == buf.Length >= 2 * old(length) && ncurr + size < length
      ensures ncurr == old(ncurr) && buf[..ncurr] == old(Contents())
      ensures appended == old(appended) + size && copied == old(copied) + ncurr
      ensures nmAlloc == old(nmAlloc) + 1
      ensures Valid()
    {
      var needed := NextLength(ncurr + size + 1);
      var newp := new Byte[needed](_ => 0);
      nmAlloc := nmAlloc + 1;
      Copy(newp, 0, buf[..ncurr]);
      GrowthDoubles(first, growths, length, needed);
      buf := newp;
      length := needed;
      appended, copied, growths := appended + size, copied + ncurr, growths + 1;
    }

    lemma GrowthDoubles(first: nat, growths: nat, length: nat, needed: nat)
      requires first * Pow2(growths) <= length && 2 * length <= needed
      ensures first * Pow2(growths + 1) <= needed
    {
      assert first * (2 * Pow2(growths)) == 2 * (first * Pow2(growths));
    }

    /** Room for size more bytes and one. */
    method MakeRoom(size: nat)
      requires Valid()
      modifies this
      ensures Valid() && Contents() == old(Contents())
      ensures buf != null && ncurr + size <= length && ncurr == old(ncurr) && appended == old(appended) + size
      ensures length == old(length) || (old(length) == 0 && length == size + 500) || length >= 2 * old(length) > 0
      ensures buf == old(buf) || fresh(buf)
      ensures ncurr + size <= appended
    {
      if buf == null || length == 0 {
        Start(size);
        appended := appended + size;
      } else {
        var needed := ncurr + size + 1;
        if needed > length {
          Grow(size);
        } else {
          appended := appended + size;
        }
      }
    }

    method Append(elem: seq<Byte>)
      requires Valid()
      modifies this, buf
      ensures Valid() && Contents() == old(Contents()) + elem
      ensures appended == old(appended) + |elem|
      ensures length == old(length) || (old(length) == 0 && length == |elem| + 500) || length >= 2 * old(length) > 0
      ensures buf == old(buf) || fresh(buf)
    {
      MakeRoom(|elem|);
      ghost var before := buf[..ncurr];
      Copy(buf, ncurr, elem);
      ncurr := ncurr + |elem|;
      assert buf[..ncurr] == before + elem;
    }

    /** ant_buf_clear. */
    method Clear()
      requires Valid()
      modifies this, buf
      ensures Valid() && Contents() == [] && length == old(length) && buf == old(buf)
      ensures appended == old(appended) && copied == old(copied) && nmAlloc == old(nmAlloc)
      ensures buf != null ==> forall i :: 0 <= i < old(ncurr) ==> buf[i] == 0
    {
      if buf != null {
        Copy(buf, 0, seq(ncurr, i => 0));
      }
      ncurr := 0;
    }
  }

  /** memcpy. */
  method Copy(dst: array<Byte>, at: nat, src: seq<Byte>)
    requires at + |src| <= dst.Length
    modifies dst
    ensures dst[..at] == old(dst[..at]) && dst[at..at + |src|] == src && dst[at + |src|..] == old(dst[at + |src|..])
  {
    for i := 0 to |src|
      invariant dst[..at] == old(dst[..at]) && dst[at + |src|..] == old(dst[at + |src|..])
      invariant dst[at..at + i] == src[..i]
    {
      dst[at + i] := src[i];
    }
  }

  // ----- whole runs -----

  datatype Op = Append(elem: seq<Byte>) | Clear

  function After(ops: seq<Op>): seq<Byte> {
    if |ops| == 0 then []
    else
      match ops[|ops| - 1]
      case Append(elem) => After(ops[..|ops| - 1]) + elem
      case Clear => []
  }

  /** The bytes appended altogether. */
  function Appended(ops: seq<Op>): nat {
    if |ops| == 0 then 0
    else Appended(ops[..|ops| - 1]) + match ops[|ops| - 1] case Append(elem) => |elem| case Clear => 0
  }

  /** Any sequence of appends and clears on a new buffer of any length: the buffer holds what was appended since
      the last clear, all growths together have copied at most two bytes for each byte appended, and the length
      is at least doubled by each growth but never exceeds twice the bytes appended, plus one. */
  method Replay(length: nat, ops: seq<Op>) returns (b: AntBuf)
    ensures fresh(b) && b.Valid() && (b.buf == null || fresh(b.buf))
    ensures b.Contents() == After(ops) && |b.Contents()| == b.ncurr <= b.length
    ensures b.copied <= 2 * Appended(ops)
    ensures b.first * Pow2(b.growths) <= b.length && b.nmAlloc <= b.growths + 1
    ensures b.length == b.first || b.length <= 2 * Appended(ops) + 1
    ensures b.appended == Appended(ops)
    decreases |ops|
  {
    if |ops| == 0 {
      b := new AntBuf(length);
    } else {
      b := Replay(length, ops[..|ops| - 1]);
      match ops[|ops| - 1]
      case Append(elem) =>
        b.Append(elem);
      case Clear =>
        b.Clear();
    }
  }
}
