/** What writing, erasing and verifying a flash partition leave on it, and when they succeed. */
module MtdMeaning {
  import opened Bytes
  import opened Mtd

  // ---- erasing block after block ----

  predicate IsBlock(d: Device, k: nat) { d.erasesize > 0 && k % d.erasesize == 0 }

  // Every block that starts in [off, end) can be erased.
  predicate AllErasable(d: Device, off: nat, end: nat) {
    forall k :: off <= k < end && IsBlock(d, k) ==> CanErase(d, k)
  }

  // Where erasing [off, end) block by block stops.
  function Stop(d: Device, off: nat, end: nat): (r: nat)
    requires d.erasesize > 0
    ensures r >= off
    ensures off < end && IsBlock(d, off) ==> r == RoundUp(end, d.erasesize)
  {
    if off < end then
      RoundUpBounds(end, d.erasesize);
      RoundUp(end, d.erasesize)
    else off
  }

  // Octets from `off` to `stop` erased, all others as they were.
  predicate ErasedBetween(before: seq<byte>, after: seq<byte>, off: nat, stop: nat) {
    && |after| == |before|
    && forall i :: 0 <= i < |before| ==> after[i] == if off <= i < stop then ERASED else before[i]
  }

  lemma NoBlockBetween(d: Device, off: nat, k: nat)
    requires IsBlock(d, off) && IsBlock(d, k) && k > off
    ensures k >= off + d.erasesize as int
  {
    var es: nat := d.erasesize;
    NextMultiple(off, es);
    if k < off + es {
      var q := off / es;
      assert off == q * es && k == q * es + (k - off);
      DivisionIsUnique(k, es, q, k - off);
    }
  }

  lemma AllErasableNext(d: Device, off: nat, end: nat)
    requires IsBlock(d, off) && off < end
    ensures AllErasable(d, off, end) <==> CanErase(d, off) && AllErasable(d, off + d.erasesize as int, end)
  {
    hide CanErase;
    if CanErase(d, off) && AllErasable(d, off + d.erasesize as int, end) {
      forall k | off <= k < end && IsBlock(d, k)
        ensures CanErase(d, k)
      {
        if k > off {
          NoBlockBetween(d, off, k);
        }
      }
    }
  }

  lemma StopNext(d: Device, off: nat, end: nat)
    requires IsBlock(d, off) && off < end
    ensures Stop(d, off, end) == Stop(d, off + d.erasesize as int, end) && off + d.erasesize as int <= Stop(d, off, end)
  {
    var es: nat := d.erasesize;
    NextMultiple(off, es);
    RoundUpBounds(end, es);
    NoBlockBetween(d, off, RoundUp(end, es));
    if off + es >= end {
      RoundUpLeast(end, es, off + es);
    }
  }

  /** All blocks of a range are erased exactly, and nothing else, when every one of them can be; otherwise it fails. */
  lemma {:induction false} ErasedFromExact(d: Device, flash: seq<byte>, off: nat, end: nat)
    requires |flash| == d.size && IsBlock(d, off)
    ensures var (after, ok) := ErasedFrom(d, flash, off, end);
            && (ok <==> AllErasable(d, off, end))
            && (ok ==> ErasedBetween(flash, after, off, Stop(d, off, end)))
    decreases if off < end then end - off else 0
  {
    hide AllErasable, Stop;
    if off >= end {
      assert AllErasable(d, off, end) && Stop(d, off, end) == off by { NothingToErase(d, off, end); }
    } else {
      AllErasableNext(d, off, end);
      StopNext(d, off, end);
      if CanErase(d, off) {
        NextMultiple(off, d.erasesize as int);
        ErasedFromExact(d, ErasedBlock(flash, off, d.erasesize as int), off + d.erasesize as int, end);
        hide ErasedFrom;
      }
    }
  }

  lemma NothingToErase(d: Device, off: nat, end: nat)
    requires off >= end && d.erasesize > 0
    ensures AllErasable(d, off, end) && Stop(d, off, end) == off
  {
  }

  /** A failure leaves the blocks before the first that cannot be erased erased, and everything else as it was. */
  lemma {:induction false} FailureErasesPrefix(d: Device, flash: seq<byte>, off: nat, end: nat) returns (k: nat)
    requires |flash| == d.size && IsBlock(d, off) && !ErasedFrom(d, flash, off, end).1
    ensures off <= k < end && IsBlock(d, k) && !CanErase(d, k) && AllErasable(d, off, k)
    ensures ErasedBetween(flash, ErasedFrom(d, flash, off, end).0, off, k)
    decreases if off < end then end - off else 0
  {
    hide AllErasable;
    if !CanErase(d, off) {
      k := off;
      NothingToErase(d, off, off);
    } else {
      NextMultiple(off, d.erasesize as int);
      k := FailureErasesPrefix(d, ErasedBlock(flash, off, d.erasesize as int), off + d.erasesize as int, end);
      AllErasableNext(d, off, k);
      hide ErasedFrom;
    }
  }

  // ---- writing ----

  lemma ZeroIsBlock(d: Device)
    requires d.erasesize > 0
    ensures IsBlock(d, 0)
  {
  }

  // Without blocks nothing can be erased.
  lemma NoErase(d: Device, flash: seq<byte>, end: nat)
    requires |flash| == d.size && d.erasesize == 0
    ensures ErasedFrom(d, flash, 0, end) == (flash, end == 0)
  {
  }

  // How many octets from the start are erased before the image is written.
  function Covered(d: Device, n: u32): nat {
    var end := EraseEnd(0, n, BlockSize(d.erasesize), d.size);
    if d.erasesize == 0 then 0 else Stop(d, 0, end)
  }

  lemma WrittenThrough(d: Device, flash: seq<byte>, data: seq<byte>)
    requires |flash| == d.size && |data| <= d.size && Written(d, flash, data).1 == 0
    ensures forall i :: 0 <= i < d.size ==>
              var was := if i < Covered(d, |data|) then ERASED else flash[i];
              Written(d, flash, data).0[i] == if i < |data| then BitAnd(was, data[i]) else was
  {
    hide EraseEnd, ErasedFrom, Stop, BitAnd;
    var end := EraseEnd(0, |data|, BlockSize(d.erasesize), d.size);
    if d.erasesize == 0 {
      NoErase(d, flash, end);
    } else {
      ZeroIsBlock(d);
      ErasedFromExact(d, flash, 0, end);
    }
  }

  // Without overflow the erased part reaches to the end of the last block of the image.
  lemma CoversImage(d: Device, n: u32)
    requires n <= d.size
    ensures var bs := BlockSize(d.erasesize);
            RoundUp(n, bs) < TWO32 && (d.erasesize > 0 || n == 0) ==> Covered(d, n) == RoundUp(n, bs)
    ensures RoundUp(n, BlockSize(d.erasesize)) >= TWO32 ==> d.erasesize > 0 && Covered(d, n) < n
  {
    var bs := BlockSize(d.erasesize);
    var up := RoundUp(n, bs);
    RoundUpBounds(n, bs);
    OneRound(n);
    assert EraseEnd(0, n, bs, d.size) == Min(ToU32(up), d.size);
    if up < TWO32 {
      if d.erasesize > 0 && n > 0 {
        ZeroIsBlock(d);
        var end := Min(up, d.size);
        hide EraseEnd, RoundUp;
        RoundUpLeast(end, bs, up);
        RoundUpBounds(end, bs);
        RoundUpLeast(n, bs, RoundUp(end, bs));
      } else if n == 0 {
        assert up == 0 by { RoundUpLeast(0, bs, 0); }
      }
    } else {
      var end := up - TWO32;
      assert EraseEnd(0, n, bs, d.size) == end;
      hide EraseEnd, RoundUp;
      ZeroIsBlock(d);
      OneBlock(end, bs);
      if n < bs {
        RoundUpLeast(n, bs, bs) by { DivisionIsUnique(bs, bs, 1, 0); }
      }
    }
  }

  lemma OneRound(n: nat)
    ensures RoundUp(n, 1) == n
  {
    RoundUpBounds(n, 1);
  }

  lemma OneBlock(end: nat, bs: nat)
    requires 0 < bs && end < bs
    ensures RoundUp(end, bs) <= bs
  {
    DivisionIsUnique(bs, bs, 1, 0);
    RoundUpLeast(end, bs, bs);
  }

  // The whole partition after the image was written to it.
  predicate HoldsImage(d: Device, before: seq<byte>, after: seq<byte>, data: seq<byte>) {
    var end := RoundUp(|data|, BlockSize(d.erasesize));
    && |after| == |before|
    && forall i :: 0 <= i < |after| ==>
         after[i] == if i < |data| then data[i] else if i < end then ERASED else before[i]
  }

  /**
   Writing is exact: the image, then erased octets up to the end of its last block, then every later block as it
   was; and the image verifies.
   */
  lemma WriteIsExact(d: Device, flash: seq<byte>, data: seq<byte>)
    requires |flash| == d.size && |data| <= d.size && RoundUp(|data|, BlockSize(d.erasesize)) < TWO32
    requires Written(d, flash, data).1 == 0
    ensures HoldsImage(d, flash, Written(d, flash, data).0, data)
    ensures Verified(Written(d, flash, data).0, data) == 0
  {
    hide BitAnd, Covered, RoundUp;
    WrittenThrough(d, flash, data);
    CoversImage(d, |data|);
    RoundUpBounds(|data|, BlockSize(d.erasesize));
    var after := Written(d, flash, data).0;
    if d.erasesize == 0 && data != [] {
      NothingWritten(d, flash, data);
    }
    hide Written;
    if d.erasesize == 0 {
      OneRound(0);
    }
    forall i | 0 <= i < |data|
      ensures after[i] == data[i]
    {
      AndOnes(data[i]);
    }
    assert after[..|data|] == data;
  }

  lemma NothingWritten(d: Device, flash: seq<byte>, data: seq<byte>)
    requires |flash| == d.size && d.erasesize == 0 && data != [] && |data| <= d.size
    ensures Written(d, flash, data).1 == 1
  {
    OneRound(|data|);
    hide RoundUp;
    NoErase(d, flash, EraseEnd(0, |data|, BlockSize(d.erasesize), d.size));
  }

  /** On a partition of whole blocks, writing succeeds exactly for images that fit and meet no bad block. */
  lemma WriteSucceedsIff(d: Device, flash: seq<byte>, data: seq<byte>)
    requires |flash| == d.size && IsBlock(d, d.size)
    ensures |data| <= d.size ==> RoundUp(|data|, BlockSize(d.erasesize)) <= d.size < TWO32
    ensures Written(d, flash, data).1 == 0 <==>
            |data| <= d.size && forall k :: 0 <= k < |data| && IsBlock(d, k) ==> k !in d.bad
    ensures |data| > d.size ==> Written(d, flash, data).0 == flash
  {
    if |data| <= d.size {
      var bs := BlockSize(d.erasesize);
      RoundUpLeast(|data|, bs, d.size);
      RoundUpBounds(|data|, bs);
      ZeroIsBlock(d);
      var end := EraseEnd(0, |data|, bs, d.size);
      assert end == RoundUp(|data|, bs);
      ErasedFromExact(d, flash, 0, end);
      BlocksOfImage(d, |data|, end);
      hide ErasedFrom, EraseEnd, RoundUp, Stop;
    }
  }

  lemma BlocksOfImage(d: Device, n: nat, end: nat)
    requires IsBlock(d, d.size) && n <= d.size && end == RoundUp(n, d.erasesize as int) <= d.size
    ensures AllErasable(d, 0, end) <==> forall k :: 0 <= k < n && IsBlock(d, k) ==> k !in d.bad
  {
    var es: nat := d.erasesize;
    RoundUpBounds(n, es);
    hide RoundUp;
    forall k: nat | k < end && IsBlock(d, k)
      ensures k < n && k + es <= d.size
    {
      if k >= n {
        RoundUpLeast(n, es, k);
      }
      NoBlockBetween(d, k, d.size as int);
    }
  }

  predicate VerifiesAfter(d: Device, flash: seq<byte>, data: seq<byte>)
    requires |flash| == d.size
  {
    Verified(Written(d, flash, data).0, data) == 0
  }

  // The image holds no set bit where the erased part stops short of it.
  predicate OnlyZerosBeyond(d: Device, data: seq<byte>)
    requires |data| <= d.size
  {
    forall i :: Covered(d, |data|) <= i < |data| ==> data[i] == 0
  }

  /**
   What is written verifies, whatever was on the flash before, exactly when rounding the image up to whole
   blocks does not overflow 32 bits, or the image holds only zero octets where the erased part stops short.
   */
  lemma WriteVerifiesIff(d: Device, data: seq<byte>, some: seq<byte>)
    requires |some| == d.size && |data| <= d.size && Written(d, some, data).1 == 0
    ensures (forall flash :: |flash| == d.size ==> VerifiesAfter(d, flash, data)) <==>
            RoundUp(|data|, BlockSize(d.erasesize)) < TWO32 || OnlyZerosBeyond(d, data)
  {
    hide RoundUp, Covered, Written, Verified;
    if RoundUp(|data|, BlockSize(d.erasesize)) < TWO32 || OnlyZerosBeyond(d, data) {
      forall flash: seq<byte> | |flash| == d.size
        ensures VerifiesAfter(d, flash, data)
      {
        SameStatus(d, some, flash, data);
        if RoundUp(|data|, BlockSize(d.erasesize)) < TWO32 {
          WriteIsExact(d, flash, data);
        } else {
          ZerosVerify(d, flash, data);
        }
      }
    } else {
      SameStatus(d, some, Zeros(d.size), data);
      OldBitsStay(d, data);
    }
  }

  lemma OldBitsStay(d: Device, data: seq<byte>)
    requires |data| <= d.size && !OnlyZerosBeyond(d, data) && Written(d, Zeros(d.size), data).1 == 0
    ensures !VerifiesAfter(d, Zeros(d.size), data)
  {
    hide Covered, BitAnd;
    var i :| Covered(d, |data|) <= i < |data| && data[i] != 0;
    WrittenThrough(d, Zeros(d.size), data);
    AndZero(0, data[i] as int);
    hide Written;
    assert Written(d, Zeros(d.size), data).0[..|data|][i] == 0;
  }

  lemma AndZero(a: nat, b: nat)
    ensures a == 0 || b == 0 ==> BitAnd(a, b) == 0
  {
  }

  lemma ZerosVerify(d: Device, flash: seq<byte>, data: seq<byte>)
    requires |flash| == d.size && |data| <= d.size && Written(d, flash, data).1 == 0
    requires OnlyZerosBeyond(d, data)
    ensures VerifiesAfter(d, flash, data)
  {
    hide Covered, ErasedFrom, EraseEnd, BitAnd;
    WrittenThrough(d, flash, data);
    var after := Written(d, flash, data).0;
    forall i | 0 <= i < |data|
      ensures after[i] == data[i]
    {
      AndOnes(data[i]);
      AndZero(flash[i], data[i] as int);
    }
    assert after[..|data|] == data;
  }

  // The exit status does not depend on what is on the flash.
  lemma SameStatus(d: Device, a: seq<byte>, b: seq<byte>, data: seq<byte>)
    requires |a| == |b| == d.size
    ensures Written(d, a, data).1 == Written(d, b, data).1
  {
    if |data| <= d.size {
      var end := EraseEnd(0, |data|, BlockSize(d.erasesize), d.size);
      if d.erasesize == 0 {
        NoErase(d, a, end);
        NoErase(d, b, end);
      } else {
        ZeroIsBlock(d);
        ErasedFromExact(d, a, 0, end);
        ErasedFromExact(d, b, 0, end);
      }
      hide EraseEnd, ErasedFrom;
    }
  }

  /** Verifying exits with 1 when the image is too long, with 0 when the flash begins with it, and with 2 otherwise. */
  lemma VerifyStatusIff(flash: seq<byte>, data: seq<byte>)
    ensures Verified(flash, data) == 1 <==> |data| > |flash|
    ensures Verified(flash, data) == 0 <==> data <= flash
    ensures Verified(flash, data) == 2 <==> |data| <= |flash| && exists i :: 0 <= i < |data| && flash[i] != data[i]
  {
    if |data| <= |flash| && flash[..|data|] != data {
      assert exists i :: 0 <= i < |data| && flash[..|data|][i] != data[i];
    }
  }

  // Writing fails with 1 and never touches the flash when the image is longer than it.
  lemma WriteStatus(d: Device, flash: seq<byte>, data: seq<byte>)
    requires |flash| == d.size
    ensures Written(d, flash, data).1 in {0, 1} && ErasedAll(d, flash).1 in {0, 1}
    ensures |data| > d.size ==> Written(d, flash, data) == (flash, 1)
  {
    hide ErasedFrom, EraseEnd;
  }

  /**
   The overflow at a device: 64 KiB blocks, one octet short of 4 GiB, and an image that reaches into its last block.
   The rounded end wraps to 0, nothing is erased, the exit status is 0, and the image is not on the flash.
   */
  lemma OverflowLosesImage(flash: seq<byte>, data: seq<byte>)
    requires |flash| == 0xFFFF_FFFF && |data| == 0xFFFF_0001
    ensures var d := Device(0xFFFF_FFFF, 0x1_0000, {});
            && RoundUp(|data|, 0x1_0000) == TWO32 && EraseEnd(0, |data|, 0x1_0000, d.size) == 0
            && Written(d, flash, data) == (Programmed(flash, data), 0)
            && (flash[0] == 0 && data[0] != 0 ==> Verified(Written(d, flash, data).0, data) == 2)
  {
    var d := Device(0xFFFF_FFFF, 0x1_0000, {});
    assert |data| / 0x1_0000 == 0xFFFF && |data| % 0x1_0000 == 1;
    assert RoundUp(|data|, 0x1_0000) == TWO32;
    hide RoundUp;
    assert EraseEnd(0, |data|, 0x1_0000, d.size) == 0;
    hide EraseEnd, BitAnd;
    if flash[0] == 0 && data[0] != 0 {
      AndZero(0, data[0] as int);
      assert Programmed(flash, data)[..|data|][0] == 0;
    }
  }

  /** Erasing a partition of whole blocks succeeds exactly when it has no bad block, and leaves it erased. */
  lemma EraseIsExact(d: Device, flash: seq<byte>)
    requires |flash| == d.size && IsBlock(d, d.size)
    ensures var (after, code) := ErasedAll(d, flash);
            && (code == 0 <==> forall k :: 0 <= k < d.size && IsBlock(d, k) ==> k !in d.bad)
            && (code == 0 ==> forall i :: 0 <= i < d.size ==> after[i] == ERASED)
  {
    var bs := BlockSize(d.erasesize);
    RoundUpLeast(d.size, bs, d.size);
    RoundUpBounds(d.size, bs);
    ZeroIsBlock(d);
    assert EraseEnd(0, d.size, bs, d.size) == d.size;
    ErasedFromExact(d, flash, 0, d.size);
    BlocksOfImage(d, d.size, d.size);
    hide ErasedFrom, EraseEnd, RoundUp;
  }
}
