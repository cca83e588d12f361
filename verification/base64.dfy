/** The base64 decoder of src/util.rs against RFC 4648, section 4. */
module Base64 {
  import opened Bytes
  import opened Text
  import opened Wrappers

  type sextet = n: int | 0 <= n < 64

  // ---- the alphabet (table 1) ----

  function Letter(v: sextet): byte {
    if v < 26 then 65 + v
    else if v < 52 then 97 + (v - 26)
    else if v < 62 then 48 + (v - 52)
    else if v == 62 then 43
    else 47
  }

  function Val(c: byte): Option<sextet> {
    if 65 <= c <= 90 then Some(c - 65)
    else if 97 <= c <= 122 then Some(c - 97 + 26)
    else if 48 <= c <= 57 then Some(c - 48 + 52)
    else if c == 43 then Some(62)
    else if c == 47 then Some(63)
    else None
  }

  lemma AlphabetIff(c: byte, v: sextet)
    ensures Val(c) == Some(v) <==> c == Letter(v)
  {
  }

  // '=' and is_ascii_whitespace
  predicate Skipped(c: byte) { c == 61 || c == 32 || c == 9 || c == 10 || c == 12 || c == 13 }

  // What is left of a text once padding and white space are dropped.
  function Significant(s: seq<byte>): seq<byte> {
    if s == [] then [] else (if Skipped(s[0]) then [] else [s[0]]) + Significant(s[1..])
  }

  function Vals(letters: seq<byte>): Option<seq<sextet>> {
    if letters == [] then Some([])
    else
      match (Val(letters[0]), Vals(letters[1..]))
      case (Some(v), Some(rest)) => Some([v] + rest)
      case _ => None
  }

  // ---- groups of 24 bits ----

  // The three octets of a group, each from the two sextets it spans.
  function First(a: sextet, b: sextet): byte { 4 * a as int + b as int / 16 }
  function Second(b: sextet, c: sextet): byte { 16 * (b as int % 16) + c as int / 4 }
  function Third(c: sextet, d: sextet): byte { 64 * (c as int % 4) + d as int }

  // Four sextets are three octets; at the end three are two octets and two are one, the bits left over are dropped.
  function Octets(s: seq<sextet>): (r: seq<byte>)
    ensures |r| == 6 * |s| / 8
  {
    if |s| >= 4 then [First(s[0], s[1]), Second(s[1], s[2]), Third(s[2], s[3])] + Octets(s[4..])
    else if |s| == 3 then [First(s[0], s[1]), Second(s[1], s[2])]
    else if |s| == 2 then [First(s[0], s[1])]
    else []
  }

  // The four sextets of a group, from the octets they span; zero bits fill the last group up.
  function Sextets(b: seq<byte>): seq<sextet> {
    if |b| >= 3 then
      [b[0] as int / 4, 16 * (b[0] as int % 4) + b[1] as int / 16, 4 * (b[1] as int % 16) + b[2] as int / 64, b[2] as int % 64]
      + Sextets(b[3..])
    else if |b| == 2 then [b[0] as int / 4, 16 * (b[0] as int % 4) + b[1] as int / 16, 4 * (b[1] as int % 16)]
    else if |b| == 1 then [b[0] as int / 4, 16 * (b[0] as int % 4)]
    else []
  }

  function Letters(s: seq<sextet>): (r: seq<byte>)
    ensures |r| == |s|
  {
    seq(|s|, i requires 0 <= i < |s| => Letter(s[i]))
  }

  /** The encoding: the letters of the groups, padded with '=' to a multiple of four. */
  function Encode(b: seq<byte>): seq<byte> {
    Letters(Sextets(b)) + (if |b| % 3 == 0 then [] else if |b| % 3 == 1 then [61, 61] else [61])
  }

  // ---- the decoder ----

  function Decoded(text: string): Option<seq<byte>> {
    match Vals(Significant(Utf8All(Trim(text))))
    case Some(s) => Some(Octets(s))
    case None => None
  }

  // The octet that a sextet completes, given the sextet before it.
  function Completed(last: sextet, v: sextet, bits: nat): byte {
    if bits == 4 then First(last, v) else if bits == 2 then Second(last, v) else Third(last, v)
  }

  lemma GroupThen(s: seq<sextet>)
    requires |s| >= 4
    ensures Octets(s) == [First(s[0], s[1]), Second(s[1], s[2]), Third(s[2], s[3])] + Octets(s[4..])
  {
    hide First, Second, Third;
  }

  lemma ShortSnoc(s: seq<sextet>, v: sextet)
    requires |s| < 4
    ensures |s| == 0 ==> Octets(s + [v]) == Octets(s)
    ensures |s| == 1 ==> Octets(s + [v]) == Octets(s) + [First(s[0], v)]
    ensures |s| == 2 ==> Octets(s + [v]) == Octets(s) + [Second(s[1], v)]
    ensures |s| == 3 ==> Octets(s + [v]) == Octets(s) + [Third(s[2], v)]
  {
    hide First, Second, Third;
    if |s| == 3 {
      GroupThen(s + [v]);
      assert (s + [v])[4..] == [];
    }
  }

  // One more sextet completes one more octet, except at the start of a group.
  lemma {:induction false} OctetsSnoc(s: seq<sextet>, v: sextet)
    ensures |s| % 4 == 0 ==> Octets(s + [v]) == Octets(s)
    ensures |s| % 4 != 0 ==> Octets(s + [v]) == Octets(s) + [Completed(s[|s| - 1], v, 6 - 2 * (|s| % 4))]
  {
    hide First, Second, Third, Octets;
    if |s| < 4 {
      ShortSnoc(s, v);
    } else {
      hide Completed;
      GroupThen(s + [v]);
      GroupThen(s);
      assert (s + [v])[4..] == s[4..] + [v];
      assert |s[4..]| % 4 == |s| % 4;
      OctetsSnoc(s[4..], v);
    }
  }

  // Or-ing a sextet into a shifted word adds it.
  lemma OrAdds(x: bv32, v: bv32)
    requires v < 64
    ensures (x << 6) | v == (x << 6) + v
  {
  }

  function PowerOf(bits: nat): (p: nat)
    ensures p > 0
  {
    if bits == 0 then 1 else 2 * PowerOf(bits - 1)
  }

  lemma Powers()
    ensures PowerOf(0) == 1 && PowerOf(2) == 4 && PowerOf(4) == 16 && PowerOf(6) == 64
  {
    assert PowerOf(1) == 2 && PowerOf(3) == 8 && PowerOf(5) == 32;
  }

  // The low fourteen bits of the accumulator: a sextet shifted up, and the next one.
  lemma LowWord(acc: u32, last: sextet, v: sextet) returns (p: nat)
    requires acc % 64 == last
    ensures ToU32(64 * acc as int + v as int) == 4096 * p + 64 * last as int + v as int
  {
    var q := acc as int / 64;
    p := q % 0x10_0000;
    var full := 64 * acc as int + v as int;
    var low := 64 * last as int + v as int;
    assert full == 4096 * q + low;
    assert full == 0x1_0000_0000 * (q / 0x10_0000) + (4096 * p + low);
  }

  lemma OctetOf(k: nat, t: byte)
    ensures (0x100 * k + t as int) % 0x100 == t
  {
  }

  lemma Shifted(high: nat, low: nat)
    ensures low < 4 ==> (4 * high + low) / 4 == high
    ensures low < 16 ==> (16 * high + low) / 16 == high
  {
  }

  lemma ThirdBits(p: nat, last: sextet, v: sextet)
    ensures (4096 * p + 64 * last as int + v as int) % 0x100 == Third(last, v)
  {
    var q, r := last as int / 4, last as int % 4;
    assert last as int == 4 * q + r;
    OctetOf(16 * p + q, Third(last, v));
  }

  lemma SecondBits(p: nat, last: sextet, v: sextet)
    ensures (4096 * p + 64 * last as int + v as int) / 4 % 0x100 == Second(last, v)
  {
    var q, r := last as int / 16, last as int % 16;
    assert last as int == 16 * q + r;
    var t := Second(last, v) as int;
    assert t == 16 * r + v as int / 4;
    OctetOf(4 * p + q, Second(last, v));
    Shifted(0x100 * (4 * p + q) + t, v as int % 4);
  }

  lemma FirstBits(p: nat, last: sextet, v: sextet)
    ensures (4096 * p + 64 * last as int + v as int) / 16 % 0x100 == First(last, v)
  {
    OctetOf(p, First(last, v));
    Shifted(0x100 * p + First(last, v) as int, v as int % 16);
  }

  // What is shifted out of the accumulator is never missed: the octet lies in the low fourteen bits.
  lemma LowBits(acc: u32, last: sextet, v: sextet, bits: nat)
    requires acc % 64 == last && bits in {0, 2, 4}
    ensures ToU32(64 * acc as int + v as int) / PowerOf(bits) % 0x100 == Completed(last, v, bits)
  {
    hide ToU32, First, Second, Third;
    var p := LowWord(acc, last, v);
    Powers();
    hide PowerOf;
    FirstBits(p, last, v);
    SecondBits(p, last, v);
    ThirdBits(p, last, v);
  }

  lemma LowSextet(acc: u32, v: sextet)
    ensures ToU32(64 * acc as int + v as int) % 64 == v
  {
    var p := LowWord(acc, acc % 64, v);
  }

  function Prepended(s: seq<sextet>, rest: Option<seq<sextet>>): Option<seq<sextet>> {
    match rest
    case Some(t) => Some(s + t)
    case None => None
  }

  lemma PrependNothing(rest: Option<seq<sextet>>)
    ensures Prepended([], rest) == rest
  {
    if rest.Some? {
      assert [] + rest.value == rest.value;
    }
  }

  lemma NextByte(c: byte, rest: seq<byte>, s: seq<sextet>)
    ensures Skipped(c) ==> Significant([c] + rest) == Significant(rest)
    ensures !Skipped(c) && Val(c) == None ==> Vals(Significant([c] + rest)) == None
    ensures !Skipped(c) && Val(c).Some? ==>
              Prepended(s, Vals(Significant([c] + rest))) == Prepended(s + [Val(c).value], Vals(Significant(rest)))
  {
    hide Skipped, Val;
    assert ([c] + rest)[1..] == rest;
    if !Skipped(c) {
      var tail := Significant(rest);
      assert ([c] + tail)[1..] == tail;
      if Val(c).Some? && Vals(tail).Some? {
        Regroup(s, [Val(c).value], Vals(tail).value);
      }
    }
  }

  lemma Nothing()
    ensures Octets([]) == [] && Vals(Significant([])) == Some([])
  {
  }

  // The bits left over after n sextets.
  function LeftOver(n: nat): nat { if n % 4 == 0 then 0 else 8 - 2 * (n % 4) }

  lemma NothingLeft()
    ensures LeftOver(0) == 0
  {
  }

  // What one more sextet does to the accumulator, the bits left over and the octets.
  lemma NextSextet(acc: u32, s: seq<sextet>, v: sextet, bits: nat)
    requires bits == LeftOver(|s|) && (s != [] ==> acc % 64 == s[|s| - 1])
    ensures var next := ToU32(64 * acc as int + v as int);
            && next % 64 == v
            && (bits < 2 ==> LeftOver(|s| + 1) == bits + 6 && Octets(s + [v]) == Octets(s))
            && (bits >= 2 ==> LeftOver(|s| + 1) == bits - 2
                              && Octets(s + [v]) == Octets(s) + [next / PowerOf(bits - 2) % 0x100])
  {
    hide Octets, Completed, PowerOf, ToU32;
    OctetsSnoc(s, v);
    LowSextet(acc, v);
    if s != [] && bits >= 2 {
      LowBits(acc, s[|s| - 1], v, bits - 2);
    }
  }

  method Decode(text: string) returns (r: Option<seq<byte>>)
    ensures r == Decoded(text)
  {
    hide Vals, Significant, Octets, Trim, Utf8All, PowerOf, Val, Skipped, ToU32, LeftOver;
    var bytes := Utf8All(Trim(text));
    var out: seq<byte> := [];
    var acc: u32 := 0;
    var bits: nat := 0;
    ghost var s: seq<sextet> := [];
    Nothing();
    assert bits == LeftOver(0) by { NothingLeft(); }
    assert bytes[0..] == bytes;
    PrependNothing(Vals(Significant(bytes)));
    for i := 0 to |bytes|
      invariant bits == LeftOver(|s|) && out == Octets(s)
      invariant s != [] ==> acc % 64 == s[|s| - 1]
      invariant Vals(Significant(bytes)) == Prepended(s, Vals(Significant(bytes[i..])))
    {
      assert bytes[i..] == [bytes[i]] + bytes[i + 1..];
      NextByte(bytes[i], bytes[i + 1..], s);
      if Skipped(bytes[i]) {
        continue;
      }
      if Val(bytes[i]) == None {
        return None;
      }
      var v := Val(bytes[i]).value;
      NextSextet(acc, s, v, bits);
      acc := ToU32(64 * acc as int + v as int);
      bits := bits + 6;
      s := s + [v];
      if bits >= 8 {
        bits := bits - 8;
        out := out + [acc / PowerOf(bits) % 0x100];
      }
    }
    assert bytes[|bytes|..] == [];
    assert s + [] == s;
    r := Some(out);
  }

  // ---- the inverse ----

  // A group's sextets give its octets back.
  lemma GroupBack(x: byte, y: byte, z: byte)
    ensures var a, b, c, d := x as int / 4, 16 * (x as int % 4) + y as int / 16, 4 * (y as int % 16) + z as int / 64, z as int % 64;
            First(a, b) == x && Second(b, c) == y && Third(c, d) == z
  {
    assert (16 * (x as int % 4) + y as int / 16) / 16 == x as int % 4;
    assert (16 * (x as int % 4) + y as int / 16) % 16 == y as int / 16;
    assert (4 * (y as int % 16) + z as int / 64) / 4 == y as int % 16;
    assert (4 * (y as int % 16) + z as int / 64) % 4 == z as int / 64;
  }

  lemma {:induction false} OctetsOfSextets(b: seq<byte>)
    ensures Octets(Sextets(b)) == b
  {
    hide First, Second, Third;
    if |b| >= 3 {
      var s := Sextets(b);
      assert s[4..] == Sextets(b[3..]);
      GroupBack(b[0], b[1], b[2]);
      hide Sextets;
      GroupThen(s);
      OctetsOfSextets(b[3..]);
      assert b == [b[0], b[1], b[2]] + b[3..];
      hide Octets;
    } else if |b| == 2 {
      GroupBack(b[0], b[1], 0);
    } else if |b| == 1 {
      GroupBack(b[0], 0, 0);
    }
  }

  lemma {:induction false} ValsOfLetters(s: seq<sextet>)
    ensures Vals(Letters(s)) == Some(s)
  {
    if s != [] {
      ValsOfLetters(s[1..]);
      AlphabetIff(Letter(s[0]), s[0]);
      assert Letters(s)[1..] == Letters(s[1..]) && Letters(s)[0] == Letter(s[0]);
      hide Val, Letter;
      assert [s[0]] + s[1..] == s;
    }
  }

  lemma {:induction false} SignificantConcat(a: seq<byte>, b: seq<byte>)
    ensures Significant(a + b) == Significant(a) + Significant(b)
  {
    if a == [] {
      assert a + b == b;
    } else {
      assert (a + b)[1..] == a[1..] + b;
      SignificantConcat(a[1..], b);
    }
  }

  lemma {:induction false} LettersAreSignificant(s: seq<sextet>)
    ensures Significant(Letters(s)) == Letters(s)
  {
    if s != [] {
      LettersAreSignificant(s[1..]);
      assert Letters(s)[1..] == Letters(s[1..]);
      assert !Skipped(Letter(s[0]));
    }
  }

  lemma EncodingIsSignificant(b: seq<byte>)
    ensures Significant(Encode(b)) == Letters(Sextets(b)) && |Encode(b)| % 4 == 0
  {
    hide Significant, Sextets, Letters;
    LettersAreSignificant(Sextets(b));
    SextetCount(b);
    var padding: seq<byte> := if |b| % 3 == 0 then [] else if |b| % 3 == 1 then [61, 61] else [61];
    SignificantConcat(Letters(Sextets(b)), padding);
    PaddingIsSkipped();
    assert Letters(Sextets(b)) + [] == Letters(Sextets(b));
  }

  lemma PaddingIsSkipped()
    ensures Significant([]) == [] && Significant([61]) == [] && Significant([61, 61]) == []
  {
    assert [61 as byte, 61][1..] == [61];
  }

  lemma {:induction false} SextetCount(b: seq<byte>)
    ensures |Sextets(b)| % 4 == if |b| % 3 == 0 then 0 else |b| % 3 + 1
  {
    if |b| >= 3 {
      SextetCount(b[3..]);
    }
  }

  predicate AllLetters(s: seq<byte>) { forall i :: 0 <= i < |s| ==> Val(s[i]).Some? }

  lemma AllLettersConcat(a: seq<byte>, b: seq<byte>)
    ensures AllLetters(a + b) <==> AllLetters(a) && AllLetters(b)
  {
    hide Val;
    if AllLetters(a + b) {
      assert forall i :: 0 <= i < |a| ==> a[i] == (a + b)[i];
      assert forall i :: 0 <= i < |b| ==> b[i] == (a + b)[|a| + i];
    }
  }

  lemma OneLetter(c: byte)
    ensures AllLetters([c]) <==> Val(c).Some?
    ensures AllLetters([])
  {
    assert [c][0] == c;
  }

  lemma AsciiByte(c: char)
    requires c as int < 0x80
    ensures Utf8All([c]) == [c as int]
    ensures IsSpace(c) ==> Skipped(c as int) || Val(c as int) == None
    ensures Significant([c as int]) == if Skipped(c as int) then [] else [c as int]
  {
    Utf8One(c);
    assert [c as int][1..] == [];
  }

  // Trimming drops skipped characters only, in a text that decodes.
  lemma {:induction false} TrimStartKeeps(text: string)
    requires IsAscii(text) && AllLetters(Significant(Utf8All(text)))
    ensures Significant(Utf8All(TrimStart(text))) == Significant(Utf8All(text)) && IsAscii(TrimStart(text))
  {
    hide Utf8All, Significant, IsSpace, Skipped, Val, AllLetters;
    if text != "" && IsSpace(text[0]) {
      var c, rest := text[0], text[1..];
      assert text == [c] + rest;
      AsciiByte(c);
      Utf8Concat([c], rest);
      SignificantConcat([c as int], Utf8All(rest));
      AllLettersConcat(Significant([c as int]), Significant(Utf8All(rest)));
      OneLetter(c as int);
      assert Significant(Utf8All(text)) == Significant(Utf8All(rest));
      TrimStartKeeps(rest);
    }
  }

  lemma {:induction false} TrimEndKeeps(text: string)
    requires IsAscii(text) && AllLetters(Significant(Utf8All(text)))
    ensures Significant(Utf8All(TrimEnd(text))) == Significant(Utf8All(text))
  {
    hide Utf8All, Significant, IsSpace, Skipped, Val, AllLetters;
    if text != "" && IsSpace(text[|text| - 1]) {
      var c, rest := text[|text| - 1], text[..|text| - 1];
      assert text == rest + [c];
      AsciiByte(c);
      Utf8Concat(rest, [c]);
      SignificantConcat(Utf8All(rest), [c as int]);
      AllLettersConcat(Significant(Utf8All(rest)), Significant([c as int]));
      OneLetter(c as int);
      assert Significant(Utf8All(text)) == Significant(Utf8All(rest));
      TrimEndKeeps(rest);
    }
  }

  lemma LettersAreLetters(s: seq<sextet>)
    ensures AllLetters(Letters(s))
  {
    forall i | 0 <= i < |s|
      ensures Val(Letters(s)[i]).Some?
    {
      AlphabetIff(Letter(s[i]), s[i]);
    }
  }

  /**
   Decoding undoes encoding for every octet string: with padding and ASCII white space left out or put in anywhere,
   and whatever white space around the text.
   */
  lemma DecodeInvertsEncode(before: string, text: string, after: string, b: seq<byte>)
    requires forall i :: 0 <= i < |before| ==> IsSpace(before[i])
    requires forall i :: 0 <= i < |after| ==> IsSpace(after[i])
    requires IsAscii(text) && Significant(Utf8All(text)) == Significant(Encode(b))
    ensures Decoded(before + text + after) == Some(b)
  {
    hide Significant, Utf8All, TrimStart, TrimEnd, Encode, Letters, Sextets, Octets, Vals, AllLetters, IsSpace;
    EncodingIsSignificant(b);
    LettersAreLetters(Sextets(b));
    TrimAround(before, text, after);
    TrimStartKeeps(text);
    TrimEndKeeps(TrimStart(text));
    SignificantDecodes(before + text + after, b);
  }

  // Only the letters of the trimmed text matter.
  lemma SignificantDecodes(text: string, b: seq<byte>)
    requires Significant(Utf8All(Trim(text))) == Significant(Encode(b))
    ensures Decoded(text) == Some(b)
  {
    hide Significant, Utf8All, Trim, Encode, Letters, Sextets, Octets, Vals;
    EncodingIsSignificant(b);
    ValsOfLetters(Sextets(b));
    OctetsOfSextets(b);
  }

  lemma {:induction false} ValsIff(letters: seq<byte>)
    ensures Vals(letters).Some? <==> AllLetters(letters)
  {
    hide Val;
    if letters != [] {
      ValsIff(letters[1..]);
      assert AllLetters(letters) <==> Val(letters[0]).Some? && AllLetters(letters[1..]) by {
        assert forall i :: 0 <= i < |letters[1..]| ==> letters[1..][i] == letters[i + 1];
        assert forall i :: 1 <= i < |letters| ==> letters[i] == letters[1..][i - 1];
      }
    }
  }

  // A letter of the alphabet, `=`, or a tab, line feed, form feed, carriage return or space.
  predicate Allowed(c: byte) {
    65 <= c <= 90 || 97 <= c <= 122 || 48 <= c <= 57 || c in {43, 47} || c in {61, 9, 10, 12, 13, 32}
  }

  predicate WellFormed(s: seq<byte>) { forall i :: 0 <= i < |s| ==> Allowed(s[i]) }

  lemma AllowedIff(c: byte)
    ensures Allowed(c) <==> Skipped(c) || Val(c).Some?
  {
  }

  lemma WellFormedCons(c: byte, rest: seq<byte>)
    ensures WellFormed([c] + rest) <==> Allowed(c) && WellFormed(rest)
  {
    hide Allowed;
    assert ([c] + rest)[0] == c;
    assert forall i :: 0 <= i < |rest| ==> ([c] + rest)[i + 1] == rest[i];
  }

  lemma {:induction false} SignificantLettersIff(s: seq<byte>)
    ensures AllLetters(Significant(s)) <==> WellFormed(s)
  {
    if s != [] {
      var c, rest := s[0], s[1..];
      assert s == [c] + rest;
      SignificantLettersIff(rest);
      WellFormedCons(c, rest);
      AllowedIff(c);
      AllLettersConcat([c], Significant(rest));
      OneLetter(c);
      assert Significant(s) == if Skipped(c) then Significant(rest) else [c] + Significant(rest);
      hide Val, Skipped, Allowed, WellFormed, AllLetters, Significant;
    }
  }

  /** A text decodes exactly when, once trimmed, it holds nothing but letters, padding and ASCII white space. */
  lemma DecodesIff(text: string)
    ensures Decoded(text).Some? <==> WellFormed(Utf8All(Trim(text)))
  {
    hide Val, Skipped, Vals, Significant, AllLetters, Utf8All, Trim, Octets, WellFormed;
    var bytes := Utf8All(Trim(text));
    ValsIff(Significant(bytes));
    SignificantLettersIff(bytes);
  }

  // ---- the test vectors of section 10, and the last letters ----

  /** `f` and `fo` of the test vectors: one and two octets, with two and one `=`. */
  lemma ShortVectors()
    ensures Encode([102]) == [90, 103, 61, 61] && Encode([102, 111]) == [90, 109, 56, 61]
  {
    EncodedAre([102], [25, 32]);
    EncodedAre([102, 111], [25, 38, 60]);
    hide Encode, Sextets;
  }

  /** The last two letters of the alphabet are `+` and `/`. */
  lemma LastLetters()
    ensures Encode([0xFB, 0xEF, 0xFF]) == [43, 43, 47, 47]
  {
    assert [0xFB as byte, 0xEF, 0xFF][3..] == [] && Sextets([0xFB, 0xEF, 0xFF]) == [62, 62, 63, 63] + [];
    EncodedAre([0xFB, 0xEF, 0xFF], [62, 62, 63, 63]);
    hide Encode, Sextets;
  }

  // The letters of given sextets, with their padding.
  lemma EncodedAre(b: seq<byte>, s: seq<sextet>)
    requires Sextets(b) == s
    ensures Encode(b) == Letters(s) + (if |b| % 3 == 0 then [] else if |b| % 3 == 1 then [61, 61] else [61])
  {
    hide Sextets, Letters;
  }

  lemma HelloEncodes()
    ensures Encode([104, 101, 108, 108, 111]) == [97, 71, 86, 115, 98, 71, 56, 61]
  {
    var b: seq<byte> := [104, 101, 108, 108, 111];
    assert b[3..] == [108, 111];
    assert Sextets([108, 111]) == [27, 6, 60];
    assert Sextets(b) == [26, 6, 21, 44] + [27, 6, 60] == [26, 6, 21, 44, 27, 6, 60];
    EncodedAre(b, [26, 6, 21, 44, 27, 6, 60]);
    hide Encode, Sextets;
  }

  lemma HelloBytes()
    ensures IsAscii("aGVsbG8=") && Utf8All("aGVsbG8=") == [97, 71, 86, 115, 98, 71, 56, 61]
  {
    AsciiBytes("aGVsbG8=");
    hide Utf8All;
  }

  /** `hello` decodes from its encoding. */
  lemma Hello()
    ensures Decoded("aGVsbG8=") == Some([104, 101, 108, 108, 111])
  {
    HelloEncodes();
    HelloBytes();
    hide *;
    DecodeInvertsEncode("", "aGVsbG8=", "", [104, 101, 108, 108, 111]);
    assert "" + "aGVsbG8=" + "" == "aGVsbG8=";
  }
}
