/**
 The flash writer of src/mtd.rs over a model of NOR flash: erasing sets a block to 0xFF, and writing can only
 clear bits. The arithmetic on offsets is that of 32-bit words in a release build.
 */
module Mtd {
  import opened Bytes

  // ---- the arithmetic of erase_range ----

  function BlockSize(erasesize: u32): (bs: nat)
    ensures 1 <= bs < TWO32
  {
    if erasesize == 0 then 1 else erasesize
  }

  function DivCeil(n: nat, bs: nat): nat
    requires bs > 0
  {
    n / bs + (if n % bs == 0 then 0 else 1)
  }

  function RoundUp(n: nat, bs: nat): nat
    requires bs > 0
  {
    DivCeil(n, bs) * bs
  }

  function BlockStart(off: nat, bs: nat): (r: nat)
    requires bs > 0
    ensures r <= off
  {
    off - off % bs
  }

  // The end of the range as the program computes it: the sum saturates, the product wraps.
  function EraseEnd(start: u32, len: u32, bs: nat, size: u32): nat
    requires 0 < bs < TWO32
  {
    Min(ToU32(RoundUp(Min(start as int + len as int, TWO32 - 1), bs)), size)
  }

  // ---- multiples of the block size ----

  lemma TimesAtLeast(k: int, bs: nat)
    requires k >= 1
    ensures k * bs >= bs
  {
    assert k * bs == (k - 1) * bs + bs;
  }

  lemma Distributes(a: int, b: int, bs: nat)
    ensures (a - b) * bs == a * bs - b * bs
  {
  }

  lemma DivisionIsUnique(n: nat, bs: nat, q: nat, r: nat)
    requires bs > 0 && n == q * bs + r && r < bs
    ensures n / bs == q && n % bs == r
  {
    var p := n / bs;
    assert n == p * bs + n % bs;
    Distributes(q, p, bs);
    Distributes(p, q, bs);
    if q > p {
      TimesAtLeast(q - p, bs);
    } else if q < p {
      TimesAtLeast(p - q, bs);
    }
  }

  lemma RoundUpBounds(n: nat, bs: nat)
    requires bs > 0
    ensures n <= RoundUp(n, bs) < n + bs && RoundUp(n, bs) % bs == 0
  {
    var p := n / bs;
    assert n == p * bs + n % bs;
    assert (p + 1) * bs == p * bs + bs;
    DivisionIsUnique(RoundUp(n, bs), bs, DivCeil(n, bs), 0);
  }

  lemma RoundUpLeast(n: nat, bs: nat, m: nat)
    requires bs > 0 && n <= m && m % bs == 0
    ensures RoundUp(n, bs) <= m
  {
    RoundUpBounds(n, bs);
    var a, b := DivCeil(n, bs), m / bs;
    assert m == b * bs;
    Distributes(a, b, bs);
    if a > b {
      TimesAtLeast(a - b, bs);
    }
  }

  lemma NextMultiple(off: nat, bs: nat)
    requires bs > 0 && off % bs == 0
    ensures (off + bs) % bs == 0
  {
    var q := off / bs;
    assert off == q * bs;
    assert (q + 1) * bs == q * bs + bs;
    DivisionIsUnique(off + bs, bs, q + 1, 0);
  }

  // ---- the contents of the flash ----

  const ERASED: byte := 0xFF

  function ErasedBlock(flash: seq<byte>, off: nat, n: nat): (r: seq<byte>)
    requires off + n <= |flash|
    ensures |r| == |flash|
  {
    seq(|flash|, i requires 0 <= i < |flash| => if off <= i < off + n then ERASED else flash[i])
  }

  function Programmed(flash: seq<byte>, data: seq<byte>): (r: seq<byte>)
    requires |data| <= |flash|
    ensures |r| == |flash|
  {
    seq(|flash|, i requires 0 <= i < |flash| => if i < |data| then BitAnd(flash[i], data[i]) else flash[i])
  }

  datatype Device = Device(size: u32, erasesize: u32, bad: set<nat>)

  // What the erase request demands: a whole block inside the device that can be erased.
  predicate CanErase(d: Device, off: nat) {
    d.erasesize > 0 && off % d.erasesize == 0 && off + d.erasesize as int <= d.size && off !in d.bad
  }

  // Erasing block after block from `off`, up to the first that fails.
  function ErasedFrom(d: Device, flash: seq<byte>, off: nat, end: nat): (r: (seq<byte>, bool))
    requires |flash| == d.size
    ensures |r.0| == |flash|
    decreases if off < end then end - off else 0
  {
    if off >= end then (flash, true)
    else if !CanErase(d, off) then (flash, false)
    else ErasedFrom(d, ErasedBlock(flash, off, d.erasesize as int), off + d.erasesize as int, end)
  }

  class Flash {
    const dev: Device
    const cells: array<byte>

    ghost predicate Valid()
      reads this
    {
      cells.Length == dev.size
    }

    constructor (dev: Device, cells: array<byte>)
      requires cells.Length == dev.size
      ensures Valid() && this.dev == dev && this.cells == cells
    {
      this.dev, this.cells := dev, cells;
    }

    // MEMERASE
    method EraseBlock(off: nat, n: nat) returns (ok: bool)
      requires Valid() && n == BlockSize(dev.erasesize)
      modifies cells
      ensures ok <==> CanErase(dev, off)
      ensures ok ==> cells[..] == ErasedBlock(old(cells[..]), off, n)
      ensures !ok ==> cells[..] == old(cells[..])
    {
      if dev.erasesize == 0 || off % dev.erasesize != 0 || off + dev.erasesize as int > dev.size || off in dev.bad {
        return false;
      }
      for i := off to off + n
        invariant forall k :: 0 <= k < cells.Length ==> cells[k] == if off <= k < i then ERASED else old(cells[k])
      {
        cells[i] := ERASED;
      }
      return true;
    }

    // Writing from offset 0: bits that are clear stay clear.
    method Program(data: seq<byte>)
      requires Valid() && |data| <= cells.Length
      modifies cells
      ensures cells[..] == Programmed(old(cells[..]), data)
    {
      for i := 0 to |data|
        invariant forall k :: 0 <= k < cells.Length ==>
                    cells[k] == if k < i then BitAnd(old(cells[k]), data[k]) else old(cells[k])
      {
        cells[i] := BitAnd(cells[i], data[i]);
      }
    }

    /** Erase the blocks of [start, start + len); no step of the loop overflows. */
    method EraseRange(start: u32, len: u32) returns (ok: bool)
      requires Valid()
      modifies cells
      ensures var bs := BlockSize(dev.erasesize);
              (cells[..], ok)
              == ErasedFrom(dev, old(cells[..]), BlockStart(start, bs), EraseEnd(start, len, bs, dev.size))
    {
      var bs: u32 := BlockSize(dev.erasesize);
      var end := EraseEnd(start, len, bs, dev.size);
      var off: u32 := BlockStart(start, bs);
      hide EraseEnd, BlockStart;
      while off < end
        invariant ErasedFrom(dev, cells[..], off, end) == ErasedFrom(dev, old(cells[..]), BlockStart(start, bs), end)
        decreases end as int - off as int
      {
        ghost var before := cells[..];
        var r := EraseBlock(off, bs);
        if !r {
          return false;
        }
        assert off as int + bs as int <= dev.size < TWO32;
        off := off + bs;
      }
      return true;
    }

    // The exit status of `mtd write`.
    method Write(data: seq<byte>) returns (code: int)
      requires Valid()
      modifies cells
      ensures (cells[..], code) == Written(dev, old(cells[..]), data)
    {
      if |data| > dev.size {
        return 1;
      }
      var ok := EraseRange(0, |data|);
      if !ok {
        return 1;
      }
      Program(data);
      return 0;
    }

    method Erase() returns (code: int)
      requires Valid()
      modifies cells
      ensures (cells[..], code) == ErasedAll(dev, old(cells[..]))
    {
      var ok := EraseRange(0, dev.size);
      code := if ok then 0 else 1;
    }

    // The exit status of `mtd verify`.
    method Verify(data: seq<byte>) returns (code: int)
      requires Valid()
      ensures code == Verified(cells[..], data)
    {
      if |data| > dev.size {
        return 1;
      }
      var onFlash := cells[..|data|];
      return if onFlash == data then 0 else 2;
    }
  }

  function Written(d: Device, flash: seq<byte>, data: seq<byte>): (seq<byte>, int)
    requires |flash| == d.size
  {
    if |data| > d.size then (flash, 1)
    else
      var (erased, ok) := ErasedFrom(d, flash, 0, EraseEnd(0, |data|, BlockSize(d.erasesize), d.size));
      if ok then (Programmed(erased, data), 0) else (erased, 1)
  }

  function ErasedAll(d: Device, flash: seq<byte>): (seq<byte>, int)
    requires |flash| == d.size
  {
    var (erased, ok) := ErasedFrom(d, flash, 0, EraseEnd(0, d.size, BlockSize(d.erasesize), d.size));
    (erased, if ok then 0 else 1)
  }

  function Verified(flash: seq<byte>, data: seq<byte>): int {
    if |data| > |flash| then 1 else if flash[..|data|] == data then 0 else 2
  }
}
