/**
 SHA-256 as a buffered state machine (src/sha256.rs) against the one-shot definition of FIPS 180-4.
 */
module Sha256 {
  import opened Bytes

  type word = bv32

  const K: seq<word> :=
    [0x428a2f98, 0x71374491, 0xb5c0fbcf, 0xe9b5dba5, 0x3956c25b, 0x59f111f1, 0x923f82a4, 0xab1c5ed5] +
    [0xd807aa98, 0x12835b01, 0x243185be, 0x550c7dc3, 0x72be5d74, 0x80deb1fe, 0x9bdc06a7, 0xc19bf174] +
    [0xe49b69c1, 0xefbe4786, 0x0fc19dc6, 0x240ca1cc, 0x2de92c6f, 0x4a7484aa, 0x5cb0a9dc, 0x76f988da] +
    [0x983e5152, 0xa831c66d, 0xb00327c8, 0xbf597fc7, 0xc6e00bf3, 0xd5a79147, 0x06ca6351, 0x14292967] +
    [0x27b70a85, 0x2e1b2138, 0x4d2c6dfc, 0x53380d13, 0x650a7354, 0x766a0abb, 0x81c2c92e, 0x92722c85] +
    [0xa2bfe8a1, 0xa81a664b, 0xc24b8b70, 0xc76c51a3, 0xd192e819, 0xd6990624, 0xf40e3585, 0x106aa070] +
    [0x19a4c116, 0x1e376c08, 0x2748774c, 0x34b0bcb5, 0x391c0cb3, 0x4ed8aa4a, 0x5b9cca4f, 0x682e6ff3] +
    [0x748f82ee, 0x78a5636f, 0x84c87814, 0x8cc70208, 0x90befffa, 0xa4506ceb, 0xbef9a3f7, 0xc67178f2]

  const H0: seq<word> := [
    0x6a09e667, 0xbb67ae85, 0x3c6ef372, 0xa54ff53a, 0x510e527f, 0x9b05688c, 0x1f83d9ab, 0x5be0cd19]

  const TWO64: nat := 0x1_0000_0000_0000_0000

  // ---- the definition: FIPS 180-4, sections 3.2 and 4.1.2 ----

  // Addition modulo 2^32.
  function Add(x: word, y: word): word { x + y }
  function Sum(x: word, y: word, z: word, w: word): word { x + y + z + w }

  // A rotation right by n is (x >> n) | (x << 32 - n).
  function BigSigma0(x: word): word { ((x >> 2) | (x << 30)) ^ ((x >> 13) | (x << 19)) ^ ((x >> 22) | (x << 10)) }
  function BigSigma1(x: word): word { ((x >> 6) | (x << 26)) ^ ((x >> 11) | (x << 21)) ^ ((x >> 25) | (x << 7)) }
  function SmallSigma0(x: word): word { ((x >> 7) | (x << 25)) ^ ((x >> 18) | (x << 14)) ^ (x >> 3) }
  function SmallSigma1(x: word): word { ((x >> 17) | (x << 15)) ^ ((x >> 19) | (x << 13)) ^ (x >> 10) }
  function Ch(x: word, y: word, z: word): word { (x & y) ^ (!x & z) }
  function Maj(x: word, y: word, z: word): word { (x & y) ^ (x & z) ^ (y & z) }

  // ---- section 6.2.2: one block ----

  function WordAt(block: seq<byte>, t: nat): word
    requires 4 * t + 4 <= |block|
  {
    FromBe32(block[4 * t..4 * t + 4]) as word
  }

  // The message schedule.
  function W(block: seq<byte>, t: nat): word
    requires |block| == 64
  {
    if t < 16 then WordAt(block, t)
    else Sum(SmallSigma1(W(block, t - 2)), W(block, t - 7), SmallSigma0(W(block, t - 15)), W(block, t - 16))
  }

  datatype Vars = Vars(a: word, b: word, c: word, d: word, e: word, f: word, g: word, h: word)

  function Round(v: Vars, k: word, w: word): Vars {
    var t1 := Add(Sum(v.h, BigSigma1(v.e), Ch(v.e, v.f, v.g), k), w);
    var t2 := Add(BigSigma0(v.a), Maj(v.a, v.b, v.c));
    Vars(Add(t1, t2), v.a, v.b, v.c, Add(v.d, t1), v.e, v.f, v.g)
  }

  // The working variables after t rounds.
  function Rounds(v: Vars, block: seq<byte>, t: nat): Vars
    requires |block| == 64 && t <= 64
  {
    if t == 0 then v else Round(Rounds(v, block, t - 1), K[t - 1], W(block, t - 1))
  }

  type hashed = h: seq<word> | |h| == 8 witness H0

  function VarsOf(h: hashed): Vars { Vars(h[0], h[1], h[2], h[3], h[4], h[5], h[6], h[7]) }

  function AddVars(h: hashed, v: Vars): hashed {
    [Add(h[0], v.a), Add(h[1], v.b), Add(h[2], v.c), Add(h[3], v.d),
     Add(h[4], v.e), Add(h[5], v.f), Add(h[6], v.g), Add(h[7], v.h)]
  }

  function Compressed(h: hashed, block: seq<byte>): hashed
    requires |block| == 64
  {
    AddVars(h, Rounds(VarsOf(h), block, 64))
  }

  // The hash value after every whole block of m; a partial block at the end is not looked at.
  function Absorbed(h: hashed, m: seq<byte>): hashed
    decreases |m|
  {
    if |m| < 64 then h else Absorbed(Compressed(h, m[..64]), m[64..])
  }

  // ---- section 5.1.1: padding ----

  // The zero octets between the one bit and the length: as few as fill the block up to its last eight octets.
  function ZeroCount(length: nat): (k: nat)
    ensures k < 64
  {
    (119 - length % 64) % 64
  }

  function Be64(n: nat): (s: seq<byte>)
    requires n < TWO64
    ensures |s| == 8
  {
    Be32(n / 0x1_0000_0000) + Be32(n % 0x1_0000_0000)
  }

  function Pad(m: seq<byte>): seq<byte> {
    m + [0x80] + Zeros(ZeroCount(|m|)) + Be64(8 * |m| % TWO64)
  }

  function OctetsOf(w: word): (s: seq<byte>)
    ensures |s| == 4
  {
    Be32(w as int)
  }

  function WordBytes(h: seq<word>): (s: seq<byte>)
    ensures |s| == 4 * |h|
  {
    if h == [] then [] else OctetsOf(h[0]) + WordBytes(h[1..])
  }

  /** The message digest: the fold of the compression over the padded message. */
  function Digest(m: seq<byte>): (d: seq<byte>)
    ensures |d| == 32
  {
    WordBytes(Absorbed(H0, Pad(m)))
  }

  // ---- facts about the definition ----

  lemma ZeroCountIsLeast(length: nat, k: nat)
    ensures (length + 1 + ZeroCount(length)) % 64 == 56
    ensures (length + 1 + k) % 64 == 56 ==> ZeroCount(length) <= k
  {
    var q, r := length / 64, length % 64;
    assert length == 64 * q + r;
    assert ZeroCount(length) == if r <= 55 then 55 - r else 119 - r;
    hide ZeroCount;
    if (length + 1 + k) % 64 == 56 {
      var p := (length + 1 + k) / 64;
      assert r + 1 + k == 64 * (p - q) + 56;
    }
  }

  lemma PaddedSize(length: nat)
    ensures (length + 1 + ZeroCount(length) + 8) % 64 == 0
  {
    hide ZeroCount;
    ZeroCountIsLeast(length, 0);
  }

  lemma PaddedLength(m: seq<byte>)
    ensures |Pad(m)| % 64 == 0 && |m| + 9 <= |Pad(m)| < |m| + 73
  {
    PaddedSize(|m|);
    hide ZeroCount, Be64;
    assert |Pad(m)| == |m| + 1 + ZeroCount(|m|) + 8;
    hide Pad;
  }

  lemma {:induction false} AbsorbedInTurn(h: hashed, a: seq<byte>, b: seq<byte>)
    requires |a| % 64 == 0
    ensures Absorbed(h, a + b) == Absorbed(Absorbed(h, a), b)
    decreases |a|
  {
    hide Compressed;
    if a == [] {
      assert a + b == b;
    } else {
      assert (a + b)[..64] == a[..64] && (a + b)[64..] == a[64..] + b;
      AbsorbedInTurn(Compressed(h, a[..64]), a[64..], b);
    }
  }

  lemma AbsorbedBlock(h: hashed, block: seq<byte>)
    requires |block| == 64
    ensures Absorbed(h, block) == Compressed(h, block)
  {
    hide Compressed;
    assert block[..64] == block && block[64..] == [];
  }

  lemma Be64Injective(a: nat, b: nat)
    requires a < TWO64 && b < TWO64 && Be64(a) == Be64(b)
    ensures a == b
  {
    hide Be32;
    assert Be64(a)[..4] == Be64(b)[..4] && Be64(a)[4..] == Be64(b)[4..];
    Be32Injective(a / 0x1_0000_0000, b / 0x1_0000_0000);
    Be32Injective(a % 0x1_0000_0000, b % 0x1_0000_0000);
  }

  lemma Be32Injective(a: u32, b: u32)
    requires Be32(a) == Be32(b)
    ensures a == b
  {
    BigEndian(a);
    BigEndian(b);
  }

  // Counts that are close to each other are equal when they wrap to the same number.
  lemma CloseAndCongruent(a: nat, b: nat)
    requires a <= b < a + TWO64 && a % TWO64 == b % TWO64
    ensures a == b
  {
  }

  /** Distinct messages stay distinct once padded, whatever their lengths: the count may wrap, the padding is short. */
  lemma PadInjective(a: seq<byte>, b: seq<byte>)
    requires Pad(a) == Pad(b)
    ensures a == b
  {
    PaddedLength(a);
    PaddedLength(b);
    hide Be64, ZeroCount;
    assert Pad(a)[|Pad(a)| - 8..] == Be64(8 * |a| % TWO64);
    assert Pad(b)[|Pad(b)| - 8..] == Be64(8 * |b| % TWO64);
    Be64Injective(8 * |a| % TWO64, 8 * |b| % TWO64);
    if |a| <= |b| {
      CloseAndCongruent(8 * |a|, 8 * |b|);
    } else {
      CloseAndCongruent(8 * |b|, 8 * |a|);
    }
    assert Pad(a)[..|a|] == a && Pad(b)[..|b|] == b;
  }

  // ---- the arithmetic as the program writes it ----

  function ScheduleS0(x: word): word { x.RotateRight(7) ^ x.RotateRight(18) ^ (x >> 3) }
  function ScheduleS1(x: word): word { x.RotateRight(17) ^ x.RotateRight(19) ^ (x >> 10) }
  function RoundS0(x: word): word { x.RotateRight(2) ^ x.RotateRight(13) ^ x.RotateRight(22) }
  function RoundS1(x: word): word { x.RotateRight(6) ^ x.RotateRight(11) ^ x.RotateRight(25) }

  /** The rotate instructions compute the functions of the standard, which has shifts. */
  lemma Rotations(x: word)
    ensures ScheduleS0(x) == SmallSigma0(x) && ScheduleS1(x) == SmallSigma1(x)
    ensures RoundS0(x) == BigSigma0(x) && RoundS1(x) == BigSigma1(x)
  {
  }

  lemma ChosenBy(x: word, y: word, z: word)
    ensures (x & y) ^ (!x & z) == Ch(x, y, z)
  {
  }

  lemma MajorityOf(x: word, y: word, z: word)
    ensures (x & y) ^ (x & z) ^ (y & z) == Maj(x, y, z)
  {
  }

  // The program sums the schedule in the opposite order.
  lemma Reordered(a: word, b: word, c: word, d: word)
    ensures Sum(a, b, c, d) == Sum(d, c, b, a)
  {
  }

  lemma Scheduled(block: seq<byte>, t: nat)
    requires |block| == 64 && t >= 16
    ensures W(block, t) == Sum(W(block, t - 16), SmallSigma0(W(block, t - 15)), W(block, t - 7), SmallSigma1(W(block, t - 2)))
  {
    hide SmallSigma0, SmallSigma1, Sum;
    Reordered(W(block, t - 16), SmallSigma0(W(block, t - 15)), W(block, t - 7), SmallSigma1(W(block, t - 2)));
  }

  lemma FirstWords(block: seq<byte>, t: nat)
    requires |block| == 64 && t < 16
    ensures W(block, t) == FromBe32(block[4 * t..4 * t + 4]) as word
  {
  }

  lemma NextRound(v: Vars, block: seq<byte>, t: nat)
    requires |block| == 64 && t < 64
    ensures Rounds(v, block, t + 1) == Round(Rounds(v, block, t), K[t], W(block, t))
  {
    hide Round, W;
  }

  lemma AbsorbedMore(m: seq<byte>, block: seq<byte>)
    requires |m| % 64 == 0 && |block| == 64
    ensures Absorbed(H0, m + block) == Compressed(Absorbed(H0, m), block)
  {
    AbsorbedInTurn(H0, m, block);
    AbsorbedBlock(Absorbed(H0, m), block);
  }

  lemma LengthWraps(before: nat, more: nat)
    ensures (before % TWO64 + more) % TWO64 == (before + more) % TWO64
  {
  }

  lemma {:induction false} MultipleVanishes(k: nat, n: nat)
    ensures (n + k * TWO64) % TWO64 == n % TWO64
  {
    if k > 0 {
      MultipleVanishes(k - 1, n);
      assert n + k * TWO64 == n + (k - 1) * TWO64 + TWO64;
    }
  }

  lemma BitsWrap(length: nat)
    ensures length % TWO64 * 8 % TWO64 == 8 * length % TWO64
  {
    MultipleVanishes(8 * (length / TWO64), 8 * (length % TWO64));
    assert length == length / TWO64 * TWO64 + length % TWO64;
  }

  // How full the block is after the padding octet and some zeros.
  lemma FillAt(length: nat, whole: nat, fill: nat, zeros: nat)
    requires whole % 64 == 0 && fill < 64 && whole + fill == length + 1 + zeros && zeros <= ZeroCount(length)
    ensures fill == 56 <==> zeros == ZeroCount(length)
  {
  }

  lemma BlocksThen(whole: nat, fill: nat)
    requires whole % 64 == 0 && fill < 64 && (whole + fill) % 64 == 0
    ensures fill == 0
  {
  }

  lemma ZerosMore(n: nat)
    ensures Zeros(n + 1) == Zeros(n) + [0]
  {
  }

  lemma WordBytesCons(w: word, rest: seq<word>)
    ensures WordBytes([w] + rest) == OctetsOf(w) + WordBytes(rest)
  {
    hide OctetsOf;
    assert ([w] + rest)[1..] == rest;
  }

  // ---- the state machine ----

  method Schedule(block: seq<byte>) returns (w: array<word>)
    requires |block| == 64
    ensures fresh(w) && w.Length == 64
    ensures forall t :: 0 <= t < 64 ==> w[t] == W(block, t)
  {
    hide W, FromBe32, SmallSigma0, SmallSigma1, ScheduleS0, ScheduleS1, RoundS0, RoundS1, Sum;
    w := new word[64];
    for i := 0 to 16
      invariant forall t :: 0 <= t < i ==> w[t] == W(block, t)
    {
      FirstWords(block, i);
      w[i] := FromBe32(block[4 * i..4 * i + 4]) as word;
    }
    for i := 16 to 64
      invariant forall t :: 0 <= t < i ==> w[t] == W(block, t)
    {
      Scheduled(block, i);
      Rotations(w[i - 15]);
      Rotations(w[i - 2]);
      var s0 := ScheduleS0(w[i - 15]);
      var s1 := ScheduleS1(w[i - 2]);
      w[i] := Sum(w[i - 16], s0, w[i - 7], s1);
    }
  }

  method Mix(start: Vars, w: array<word>, block: seq<byte>) returns (v: Vars)
    requires |block| == 64 && w.Length == 64 && forall t :: 0 <= t < 64 ==> w[t] == W(block, t)
    ensures v == Rounds(start, block, 64)
  {
    var a, b, c, d, e, f, g, h := start.a, start.b, start.c, start.d, start.e, start.f, start.g, start.h;
    for i := 0 to 64
      invariant Vars(a, b, c, d, e, f, g, h) == Rounds(start, block, i)
    {
      hide W, Rounds, BigSigma0, BigSigma1, RoundS0, RoundS1, ScheduleS0, ScheduleS1, Add, Sum, Ch, Maj, K;
      Rotations(a);
      Rotations(e);
      NextRound(start, block, i);
      var s1 := RoundS1(e);
      ChosenBy(e, f, g);
      MajorityOf(a, b, c);
      var ch := (e & f) ^ (!e & g);
      var t1 := Add(Sum(h, s1, ch, K[i]), w[i]);
      var s0 := RoundS0(a);
      var maj := (a & b) ^ (a & c) ^ (b & c);
      var t2 := Add(s0, maj);
      h := g;
      g := f;
      f := e;
      e := Add(d, t1);
      d := c;
      c := b;
      b := a;
      a := Add(t1, t2);
    }
    v := Vars(a, b, c, d, e, f, g, h);
  }

  class Hasher {
    const h: array<word>
    const block: array<byte>
    var fill: nat
    var len: nat
    ghost var whole: seq<byte> // the octets of the blocks compressed so far

    ghost predicate Buffered()
      reads this, h, block
    {
      && h.Length == 8 && block.Length == 64 && fill < 64
      && |whole| % 64 == 0 && h[..] == Absorbed(H0, whole)
    }

    // Everything taken in so far.
    ghost function Fed(): seq<byte>
      requires Buffered()
      reads this, h, block
    {
      whole + block[..fill]
    }

    ghost predicate Valid()
      reads this, h, block
    {
      Buffered() && len == |Fed()| % TWO64
    }

    constructor ()
      ensures Valid() && Fed() == [] && fresh(h) && fresh(block)
    {
      h := new word[8](i requires 0 <= i < 8 => H0[i]);
      block := new byte[64](_ => 0);
      fill, len, whole := 0, 0, [];
      new;
      assert h[..] == H0;
    }

    method CopyIn(at: nat, data: seq<byte>)
      requires block.Length == 64 && at + |data| <= 64
      modifies block
      ensures block[..at + |data|] == old(block[..at]) + data
    {
      for i := 0 to |data|
        invariant block[..at] == old(block[..at])
        invariant forall j :: 0 <= j < i ==> block[at + j] == data[j]
      {
        block[at + i] := data[i];
      }
    }

    method Compress(data: seq<byte>)
      requires h.Length == 8 && |data| == 64
      modifies h
      ensures h[..] == Compressed(old(h[..]), data)
    {
      hide Rounds, W, Add;
      var w := Schedule(data);
      var v := Mix(VarsOf(h[..]), w, data);
      var mixed := [v.a, v.b, v.c, v.d, v.e, v.f, v.g, v.h];
      ghost var before := h[..];
      for i := 0 to 8
        invariant forall j :: 0 <= j < i ==> h[j] == Add(old(h[j]), mixed[j])
        invariant forall j :: i <= j < 8 ==> h[j] == old(h[j])
      {
        h[i] := Add(h[i], mixed[i]);
      }
      hide K, H0;
      assert h[..] == AddVars(before, v);
    }

    // Top up a partial block first.
    method TopUp(data: seq<byte>) returns (take: nat)
      requires Buffered() && fill > 0
      modifies `fill, `whole, h, block
      ensures Buffered() && take <= |data| && Fed() == old(Fed()) + data[..take]
      ensures fill == 0 || take == |data|
    {
      hide Compressed, Absorbed, H0;
      ghost var kept := block[..fill];
      take := if 64 - fill < |data| then 64 - fill else |data|;
      CopyIn(fill, data[..take]);
      fill := fill + take;
      if fill == 64 {
        assert block[..] == kept + data[..take];
        AbsorbedMore(whole, block[..]);
        Compress(block[..]);
        whole := whole + (kept + data[..take]);
        fill := 0;
      }
    }

    // Whole blocks straight from the input; the remainder is stashed.
    method Blocks(input: seq<byte>)
      requires Buffered() && fill == 0
      modifies `fill, `whole, h, block
      ensures Buffered() && Fed() == old(Fed()) + input
    {
      hide Compressed, Absorbed, H0;
      var data := input;
      while |data| >= 64
        invariant Buffered() && fill == 0 && whole + data == old(whole) + input
        decreases |data|
      {
        AbsorbedMore(whole, data[..64]);
        Compress(data[..64]);
        whole := whole + data[..64];
        data := data[64..];
      }
      CopyIn(0, data);
      fill := |data|;
      assert block[..fill] == data;
      assert old(Fed()) == old(whole);
    }

    /** Take in more octets, however they are split over the calls. */
    method Update(data: seq<byte>)
      requires Valid()
      modifies this, h, block
      ensures Valid() && Fed() == old(Fed()) + data
    {
      hide Compressed, Absorbed, H0;
      ghost var before := Fed();
      len := (len + |data|) % TWO64;
      LengthWraps(|before|, |data|);
      var take := 0;
      if fill > 0 {
        take := TopUp(data);
        if fill != 0 {
          assert data[..take] == data;
          return;
        }
      }
      assert data[..take] + data[take..] == data;
      Blocks(data[take..]);
    }

    /** The digest of everything taken in. */
    method Finish() returns (out: seq<byte>)
      requires Valid()
      modifies this, h, block
      ensures out == Digest(old(Fed()))
    {
      hide Compressed, Absorbed, H0, Be64;
      ghost var m := Fed();
      var bits := len * 8 % TWO64;
      assert bits == 8 * |m| % TWO64 by { BitsWrap(|m|); }
      Update([0x80]);
      ghost var zeros := 0;
      assert Fed() == m + [0x80] + Zeros(0);
      while fill != 56
        invariant Valid() && zeros <= ZeroCount(|m|)
        invariant Fed() == m + [0x80] + Zeros(zeros)
        decreases ZeroCount(|m|) - zeros
      {
        FillAt(|m|, |whole|, fill, zeros);
        ZerosMore(zeros);
        Update([0]);
        zeros := zeros + 1;
      }
      FillAt(|m|, |whole|, fill, zeros);
      Update(Be64(bits));
      assert fill == 0 && whole == Pad(m) by {
        assert Fed() == Pad(m);
        PaddedLength(m);
        BlocksThen(|whole|, fill);
      }
      out := WordsOut();
    }

    method WordsOut() returns (out: seq<byte>)
      requires h.Length == 8
      ensures out == WordBytes(h[..])
    {
      assert WordBytes([]) == [];
      hide WordBytes, OctetsOf;
      out := [];
      assert h[0..] == h[..];
      for i := 0 to 8
        invariant out + WordBytes(h[i..]) == WordBytes(h[..])
      {
        assert h[i..] == [h[i]] + h[i + 1..];
        WordBytesCons(h[i], h[i + 1..]);
        out := out + OctetsOf(h[i]);
      }
      assert h[8..] == [];
    }
  }

  /** One-shot convenience. */
  method DigestOf(data: seq<byte>) returns (d: seq<byte>)
    ensures d == Digest(data)
  {
    var s := new Hasher();
    assert s.Fed() + data == data;
    s.Update(data);
    d := s.Finish();
  }

  function Concat(chunks: seq<seq<byte>>): seq<byte> {
    if chunks == [] then [] else chunks[0] + Concat(chunks[1..])
  }

  lemma {:induction false} ConcatSnoc(chunks: seq<seq<byte>>, last: seq<byte>)
    ensures Concat(chunks + [last]) == Concat(chunks) + last
  {
    if chunks == [] {
      assert [last][1..] == [];
      assert [] + [last] == [last];
    } else {
      assert (chunks + [last])[1..] == chunks[1..] + [last];
      ConcatSnoc(chunks[1..], last);
    }
  }

  /** Streaming matches one-shot, for every way to cut the message into chunks. */
  method DigestOfChunks(chunks: seq<seq<byte>>) returns (d: seq<byte>)
    ensures d == Digest(Concat(chunks))
  {
    var s := new Hasher();
    for i := 0 to |chunks|
      invariant fresh(s) && fresh(s.h) && fresh(s.block)
      invariant s.Valid() && s.Fed() == Concat(chunks[..i])
    {
      assert chunks[..i + 1] == chunks[..i] + [chunks[i]];
      ConcatSnoc(chunks[..i], chunks[i]);
      s.Update(chunks[i]);
    }
    assert chunks[..|chunks|] == chunks;
    d := s.Finish();
  }
}
