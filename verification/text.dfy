/** Rust strings: sequences of Unicode scalar values (Dafny's `char`) and their UTF-8 bytes (RFC 3629, section 3). */
module Text {
  import opened Bytes
  import opened Wrappers

  function Utf8(c: char): (s: seq<byte>)
    ensures 1 <= |s| <= 4
  {
    var n := c as int;
    if n < 0x80 then [n]
    else if n < 0x800 then [0xC0 + n / 0x40, 0x80 + n % 0x40]
    else if n < 0x1_0000 then [0xE0 + n / 0x1000, 0x80 + n / 0x40 % 0x40, 0x80 + n % 0x40]
    else [0xF0 + n / 0x4_0000, 0x80 + n / 0x1000 % 0x40, 0x80 + n / 0x40 % 0x40, 0x80 + n % 0x40]
  }

  /** The examples of RFC 3629, section 7. */
  lemma Rfc3629()
    ensures Utf8('A') == [0x41] && Utf8(0x391 as char) == [0xCE, 0x91]
    ensures Utf8(0x2262 as char) == [0xE2, 0x89, 0xA2] && Utf8(0x233B4 as char) == [0xF0, 0xA3, 0x8E, 0xB4]
  {
  }

  function Utf8All(s: string): seq<byte> {
    if s == "" then [] else Utf8(s[0]) + Utf8All(s[1..])
  }

  lemma {:induction false} Utf8Concat(a: string, b: string)
    ensures Utf8All(a + b) == Utf8All(a) + Utf8All(b)
  {
    if a == "" {
      assert a + b == b;
    } else {
      assert (a + b)[1..] == a[1..] + b;
      Utf8Concat(a[1..], b);
    }
  }

  lemma Utf8One(c: char)
    ensures Utf8All([c]) == Utf8(c)
  {
    assert [c][1..] == "";
  }

  predicate IsAscii(s: string) { forall i :: 0 <= i < |s| ==> s[i] as int < 0x80 }

  lemma {:induction false} AsciiBytes(s: string)
    requires IsAscii(s)
    ensures |Utf8All(s)| == |s|
    ensures forall i :: 0 <= i < |s| ==> Utf8All(s)[i] == s[i] as int
  {
    if s != "" {
      AsciiBytes(s[1..]);
    }
  }

  // ---- decoding ----

  predicate Continues(b: byte) { 0x80 <= b < 0xC0 }

  predicate IsScalar(n: int) { 0 <= n < 0xD800 || 0xE000 <= n < 0x11_0000 }

  /** The one character a chunk encodes, if it is exactly one: shortest form, no surrogate, nothing left over. */
  function DecodeOne(s: seq<byte>): Option<char> {
    if |s| == 1 && s[0] < 0x80 then Some(s[0] as char)
    else if |s| == 2 && 0xC0 <= s[0] < 0xE0 && Continues(s[1]) then
      Scalar((s[0] as int - 0xC0) * 0x40 + (s[1] as int - 0x80), 0x80)
    else if |s| == 3 && 0xE0 <= s[0] < 0xF0 && Continues(s[1]) && Continues(s[2]) then
      Scalar((s[0] as int - 0xE0) * 0x1000 + (s[1] as int - 0x80) * 0x40 + (s[2] as int - 0x80), 0x800)
    else if |s| == 4 && 0xF0 <= s[0] < 0xF8 && Continues(s[1]) && Continues(s[2]) && Continues(s[3]) then
      Scalar((s[0] as int - 0xF0) * 0x4_0000 + (s[1] as int - 0x80) * 0x1000
             + (s[2] as int - 0x80) * 0x40 + (s[3] as int - 0x80), 0x1_0000)
    else None
  }

  function Scalar(n: int, least: int): Option<char> {
    if n >= least && IsScalar(n) then Some(n as char) else None
  }

  // Number of continuation bytes that follow a lead byte.
  function Utf8Extra(lead: byte): nat {
    if lead < 0x80 then 0
    else if 0xC0 <= lead < 0xE0 then 1
    else if 0xE0 <= lead < 0xF0 then 2
    else if 0xF0 <= lead < 0xF8 then 3
    else 0
  }

  lemma DecodeEncode(c: char)
    ensures DecodeOne(Utf8(c)) == Some(c)
    ensures Utf8Extra(Utf8(c)[0]) == |Utf8(c)| - 1
  {
    var n := c as int;
    assert n / 0x1000 == n / 0x40 / 0x40 && n / 0x4_0000 == n / 0x1000 / 0x40;
  }

  // The text of a byte string, if it is valid UTF-8.
  function FromUtf8(s: seq<byte>): Option<string>
    decreases |s|
  {
    if s == [] then Some("")
    else
      var n := 1 + Utf8Extra(s[0]);
      if n > |s| then None
      else
        match (DecodeOne(s[..n]), FromUtf8(s[n..]))
        case (Some(c), Some(rest)) => Some([c] + rest)
        case _ => None
  }

  lemma {:induction false} FromUtf8All(s: string)
    ensures FromUtf8(Utf8All(s)) == Some(s)
  {
    if s != "" {
      hide Utf8, DecodeOne;
      DecodeEncode(s[0]);
      FromUtf8All(s[1..]);
      assert Utf8All(s)[..|Utf8(s[0])|] == Utf8(s[0]);
      assert Utf8All(s)[|Utf8(s[0])|..] == Utf8All(s[1..]);
      assert [s[0]] + s[1..] == s;
    }
  }

  // Two, three and four digits of base 64.
  lemma Digits64(a: nat, b: nat, c: nat, d: nat)
    requires b < 0x40 && c < 0x40 && d < 0x40
    ensures (a * 0x40 + b) / 0x40 == a && (a * 0x40 + b) % 0x40 == b
    ensures var n := a * 0x1000 + b * 0x40 + c; n / 0x1000 == a && n / 0x40 % 0x40 == b && n % 0x40 == c
    ensures var n := a * 0x4_0000 + b * 0x1000 + c * 0x40 + d;
            n / 0x4_0000 == a && n / 0x1000 % 0x40 == b && n / 0x40 % 0x40 == c && n % 0x40 == d
  {
    var two, three := a * 0x40 + b, a * 0x1000 + b * 0x40 + c;
    assert three == 0x40 * two + c;
    var four := a * 0x4_0000 + b * 0x1000 + c * 0x40 + d;
    assert four == 0x40 * three + d;
    assert three / 0x40 == two && four / 0x40 == three;
    assert three / 0x1000 == two / 0x40 && four / 0x1000 == three / 0x40 && four / 0x4_0000 == three / 0x1000;
  }

  // A chunk that decodes is the encoding of what it decodes to.
  lemma DecodeIsStrict(s: seq<byte>)
    requires DecodeOne(s).Some?
    ensures s == Utf8(DecodeOne(s).value)
    ensures Utf8Extra(s[0]) == |s| - 1
  {
    if |s| == 2 {
      Digits64(s[0] as int - 0xC0, s[1] as int - 0x80, 0, 0);
    } else if |s| == 3 {
      Digits64(s[0] as int - 0xE0, s[1] as int - 0x80, s[2] as int - 0x80, 0);
    } else if |s| == 4 {
      Digits64(s[0] as int - 0xF0, s[1] as int - 0x80, s[2] as int - 0x80, s[3] as int - 0x80);
    }
  }

  /** Exactly the encodings decode, each to its own text. */
  lemma {:induction false} FromUtf8Iff(s: seq<byte>, t: string)
    ensures FromUtf8(s) == Some(t) <==> s == Utf8All(t)
    decreases |s|
  {
    FromUtf8All(t);
    if FromUtf8(s) == Some(t) && s != [] {
      var n := 1 + Utf8Extra(s[0]);
      DecodeIsStrict(s[..n]);
      hide Utf8, DecodeOne, Utf8Extra;
      assert t == [t[0]] + t[1..];
      assert FromUtf8(s[n..]) == Some(t[1..]);
      FromUtf8Iff(s[n..], t[1..]);
      assert s == s[..n] + s[n..];
    }
  }

  // ---- white space ----

  // char::is_whitespace: Unicode White_Space.
  predicate IsSpace(c: char) {
    var n := c as int;
    9 <= n <= 13 || n == 0x20 || n == 0x85 || n == 0xA0 || n == 0x1680 || 0x2000 <= n <= 0x200A
    || n == 0x2028 || n == 0x2029 || n == 0x202F || n == 0x205F || n == 0x3000
  }

  /** White_Space is these 25 code points and no others. */
  lemma SpacesAre(c: char)
    ensures IsSpace(c) <==>
            c as int in {0x9, 0xA, 0xB, 0xC, 0xD, 0x20, 0x85, 0xA0, 0x1680, 0x2000, 0x2001, 0x2002, 0x2003, 0x2004, 0x2005,
                         0x2006, 0x2007, 0x2008, 0x2009, 0x200A, 0x2028, 0x2029, 0x202F, 0x205F, 0x3000}
  {
  }

  function TrimStart(s: string): (r: string)
    ensures r == "" || !IsSpace(r[0])
  {
    if s != "" && IsSpace(s[0]) then TrimStart(s[1..]) else s
  }

  function TrimEnd(s: string): (r: string)
    ensures r == "" || !IsSpace(r[|r| - 1])
    ensures r <= s
  {
    if s != "" && IsSpace(s[|s| - 1]) then TrimEnd(s[..|s| - 1]) else s
  }

  function Trim(s: string): string { TrimEnd(TrimStart(s)) }

  lemma {:induction false} TrimStartSkip(spaces: string, s: string)
    requires forall i :: 0 <= i < |spaces| ==> IsSpace(spaces[i])
    ensures TrimStart(spaces + s) == TrimStart(s)
  {
    if spaces == "" {
      assert spaces + s == s;
    } else {
      assert (spaces + s)[1..] == spaces[1..] + s;
      TrimStartSkip(spaces[1..], s);
    }
  }

  lemma {:induction false} TrimEndSkip(a: string, b: string)
    requires a != "" && !IsSpace(a[|a| - 1])
    ensures TrimEnd(a + b) == a + TrimEnd(b)
  {
    hide IsSpace;
    if b == "" {
      assert a + b == a;
      assert a + TrimEnd(b) == a;
    } else {
      assert (a + b)[..|a + b| - 1] == a + b[..|b| - 1];
      assert (a + b)[|a + b| - 1] == b[|b| - 1];
      TrimEndSkip(a, b[..|b| - 1]);
    }
  }

  lemma {:induction false} TrimSnoc(s: string, c: char)
    requires IsSpace(c)
    ensures Trim(s + [c]) == Trim(s)
  {
    hide IsSpace;
    if s == "" {
      assert s + [c] == [c];
      assert [c][1..] == "";
    } else if IsSpace(s[0]) {
      assert (s + [c])[1..] == s[1..] + [c];
      TrimSnoc(s[1..], c);
    } else {
      assert TrimStart(s + [c]) == s + [c];
      assert (s + [c])[..|s|] == s;
    }
  }

  lemma {:induction false} TrimAfterTrimEnd(s: string)
    ensures Trim(TrimEnd(s)) == Trim(s)
  {
    hide IsSpace;
    if s != "" && IsSpace(s[|s| - 1]) {
      TrimAfterTrimEnd(s[..|s| - 1]);
      assert s == s[..|s| - 1] + [s[|s| - 1]];
      TrimSnoc(s[..|s| - 1], s[|s| - 1]);
    }
  }

  // White space around a text is dropped.
  lemma {:induction false} TrimAround(before: string, s: string, after: string)
    requires forall i :: 0 <= i < |before| ==> IsSpace(before[i])
    requires forall i :: 0 <= i < |after| ==> IsSpace(after[i])
    ensures Trim(before + s + after) == Trim(s)
    decreases |after|
  {
    hide IsSpace, TrimStart, TrimEnd;
    if after == "" {
      TrimStartSkip(before, s);
      assert before + s + after == before + s;
    } else {
      var front, c := after[..|after| - 1], after[|after| - 1];
      TrimAround(before, s, front);
      TrimSnoc(before + s + front, c);
      assert before + s + after == before + s + front + [c];
    }
  }
}
