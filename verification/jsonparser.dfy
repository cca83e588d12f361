/**
 The parser object of src/json.rs, which advances an index over the bytes, and the printer, which appends to
 a growing string: both compute the functions of Json.
 */
module JsonParser {
  import opened Bytes
  import opened Text
  import opened Json
  import opened Wrappers

  // One turn of each loop.
  lemma ItemsUnfold(f: FloatIo, s: seq<byte>, items: seq<Value>)
    ensures var r, all := PValue(f, SkipWs(s)), PItems(f, s, items);
            && (r.Fail? ==> all == Fail(r.error))
            && (r.Done? ==>
                  && var next, more := SkipWs(r.rest), items + [r.value];
                  && (Peeks(next, ',') ==> all == PItems(f, next[1..], more))
                  && (Peeks(next, ']') ==> all == Done(Array(more), next[1..]))
                  && (!Peeks(next, ',') && !Peeks(next, ']') ==> all == Fail(ExpectedCommaOrClose)))
  {
  }

  lemma PairsUnfold(f: FloatIo, s: seq<byte>, pairs: seq<Pair>)
    ensures var r, all := PPair(f, SkipWs(s)), PPairs(f, s, pairs);
            && (r.Fail? ==> all == Fail(r.error))
            && (r.Done? ==>
                  && var next, more := SkipWs(r.rest), pairs + [r.value];
                  && (Peeks(next, ',') ==> all == PPairs(f, next[1..], more))
                  && (Peeks(next, '}') ==> all == Done(Object(more), next[1..]))
                  && (!Peeks(next, ',') && !Peeks(next, '}') ==> all == Fail(ExpectedCommaOrClose)))
  {
  }

  class Parser {
    const f: FloatIo
    const b: seq<byte>
    var i: nat

    constructor (f: FloatIo, b: seq<byte>)
      ensures this.f == f && this.b == b && i == 0
    {
      this.f, this.b, i := f, b, 0;
    }

    ghost predicate Valid()
      reads this
    {
      i <= |b|
    }

    ghost function Rest(): seq<byte>
      requires Valid()
      reads this
    {
      b[i..]
    }

    // The result and the new index are those of a parsing function.
    ghost predicate Agrees<T>(r: Result<T, Error>, p: Parsed<T>)
      reads this
    {
      && Valid()
      && match p
         case Done(v, rest) => r == Ok(v) && Rest() == rest
         case Fail(e) => r == Err(e)
    }

    method Ws()
      requires Valid()
      modifies this
      ensures Valid() && Rest() == SkipWs(old(Rest())) && i >= old(i)
    {
      while i < |b|
        invariant Valid() && i >= old(i) && SkipWs(Rest()) == SkipWs(old(Rest()))
      {
        if IsWs(b[i]) {
          assert Rest()[1..] == b[i + 1..];
          i := i + 1;
        } else {
          break;
        }
      }
    }

    function Peek(): (r: Option<byte>)
      requires Valid()
      reads this
      ensures r == if Rest() == [] then None else Some(Rest()[0])
    {
      if i < |b| then Some(b[i]) else None
    }

    method Expect(c: char) returns (r: Result<(), Error>)
      requires Valid() && c as int < 0x80
      modifies this
      ensures Agrees(r, if Peeks(old(Rest()), c) then Done((), old(Rest())[1..]) else Fail(Expected(c)))
      ensures i == old(i) + (if r.Ok? then 1 else 0)
    {
      if Peek() == Some(c as int) {
        i := i + 1;
        return Ok(());
      } else {
        return Err(Expected(c));
      }
    }

    method ParseHex4() returns (r: Result<nat, Error>)
      requires Valid()
      modifies this
      ensures Agrees(r, PHex(old(Rest()), 4, 0)) && i >= old(i)
    {
      hide HexValue;
      var v: nat := 0;
      for k := 0 to 4
        invariant Valid() && i >= old(i) && PHex(Rest(), 4 - k, v) == PHex(old(Rest()), 4, 0)
      {
        if i == |b| {
          return Err(TruncatedHex);
        }
        var c := b[i];
        assert Rest()[1..] == b[i + 1..];
        i := i + 1;
        match HexValue(c) {
          case Some(d) => v := v * 16 + d;
          case None => return Err(NonHex);
        }
      }
      return Ok(v);
    }

    method UnicodeEscape() returns (r: Result<char, Error>)
      requires Valid()
      modifies this
      ensures Agrees(r, PUnicode(old(Rest()))) && i >= old(i)
    {
      var hi :- ParseHex4();
      var cp: int := hi;
      if 0xD800 <= hi <= 0xDBFF {
        ghost var rest := Rest();
        if Peek() != Some('\\' as int) {
          return Err(LoneHighSurrogate);
        }
        i := i + 1;
        assert Rest() == rest[1..];
        var _ :- Expect('u');
        assert Rest() == rest[2..];
        var lo :- ParseHex4();
        if !(0xDC00 <= lo <= 0xDFFF) {
          return Err(BadLowSurrogate);
        }
        cp := 0x1_0000 + (hi - 0xD800) * 0x400 + (lo - 0xDC00);
      }
      match CodePoint(cp) {
        case Some(c) => return Ok(c);
        case None => return Err(InvalidCodePoint);
      }
    }

    // The body of the string loop for a byte that does not close the literal.
    method ParseChar() returns (r: Result<char, Error>)
      requires Valid() && Rest() != [] && Rest()[0] != '"' as int
      modifies this
      ensures Agrees(r, PChar(old(Rest()))) && (r.Ok? ==> i > old(i))
    {
      hide PUnicode, DecodeOne, SimpleEscape, Utf8Extra;
      ghost var s := Rest();
      var c := b[i];
      i := i + 1;
      if c == '\\' as int {
        if i == |b| {
          return Err(UnterminatedEscape);
        }
        var e := b[i];
        i := i + 1;
        assert s[1] == e && Rest() == s[2..];
        if e == 'u' as int {
          r := UnicodeEscape();
        } else {
          match SimpleEscape(e) {
            case Some(ch) => return Ok(ch);
            case None => return Err(BadEscape);
          }
        }
      } else {
        var start := i - 1;
        var end := start + 1 + Utf8Extra(c);
        if end > |b| {
          return Err(TruncatedUtf8);
        }
        assert b[start..end] == s[..1 + Utf8Extra(c)];
        match DecodeOne(b[start..end]) {
          case Some(ch) =>
            i := end;
            assert Rest() == s[1 + Utf8Extra(c)..];
            return Ok(ch);
          case None => return Err(InvalidUtf8);
        }
      }
    }

    method ParseString() returns (r: Result<string, Error>)
      requires Valid()
      modifies this
      ensures Agrees(r, PString(old(Rest()))) && (r.Ok? ==> i > old(i))
    {
      hide PChar;
      var _ :- Expect('"');
      var out := "";
      while true
        invariant Valid() && i > old(i) && PChars(Rest(), out) == PString(old(Rest()))
        decreases |b| - i
      {
        ghost var s := Rest();
        match Peek() {
          case None => return Err(UnterminatedString);
          case Some(c) =>
            if c == '"' as int {
              i := i + 1;
              assert Rest() == s[1..];
              return Ok(out);
            }
            var ch :- ParseChar();
            out := out + [ch];
        }
      }
      assert false;
    }

    method ParseNumeral() returns (r: Result<Value, Error>)
      requires Valid() && Rest() != [] && (Rest()[0] == '-' as int || IsDigit(Rest()[0]))
      modifies this
      ensures Agrees(r, PNumber(f, old(Rest()))) && (r.Ok? ==> i > old(i))
    {
      ghost var s := Rest();
      var start := i;
      if Peek() == Some('-' as int) {
        i := i + 1;
      }
      ghost var from := i;
      while i < |b|
        invariant Valid() && i >= from && ScanNumber(b[from..]) == (i - from) + ScanNumber(Rest())
      {
        if IsNumberByte(b[i]) {
          assert Rest()[1..] == b[i + 1..];
          i := i + 1;
        } else {
          break;
        }
      }
      assert from == start + 1 ==> b[from..] == s[1..];
      var text := b[start..i];
      assert text == s[..NumberLength(s)] && Rest() == s[NumberLength(s)..];
      match ParseNumber(f, text) {
        case Some(x) => return Ok(Num(x));
        case None => return Err(InvalidNumber);
      }
    }

    method Literal(word: seq<byte>) returns (found: bool)
      requires Valid()
      modifies this
      ensures Valid() && found == (word <= old(Rest()))
      ensures i == old(i) + (if found then |word| else 0)
    {
      if i + |word| <= |b| && b[i..i + |word|] == word {
        assert word == Rest()[..|word|];
        i := i + |word|;
        return true;
      }
      assert i + |word| <= |b| ==> b[i..i + |word|] == Rest()[..|word|];
      return false;
    }

    method ParseBoolean() returns (r: Result<Value, Error>)
      requires Valid()
      modifies this
      ensures Agrees(r, PBoolean(old(Rest()))) && (r.Ok? ==> i > old(i))
    {
      ghost var s := Rest();
      assert |TRUE()| > 0 && |FALSE()| > 0;
      var found := Literal(TRUE());
      if found {
        assert Rest() == s[|TRUE()|..];
        return Ok(Bool(true));
      }
      found := Literal(FALSE());
      if found {
        assert Rest() == s[|FALSE()|..];
        return Ok(Bool(false));
      }
      return Err(InvalidLiteral);
    }

    method ParseNull() returns (r: Result<Value, Error>)
      requires Valid()
      modifies this
      ensures Agrees(r, PNull(old(Rest()))) && (r.Ok? ==> i > old(i))
    {
      ghost var s := Rest();
      assert |NULL()| > 0;
      var found := Literal(NULL());
      if found {
        assert Rest() == s[|NULL()|..];
        return Ok(Null);
      }
      return Err(InvalidLiteral);
    }

    method ParseValue() returns (r: Result<Value, Error>)
      requires Valid()
      modifies this
      decreases |b| - i, 2
      ensures Agrees(r, PValue(f, old(Rest()))) && (r.Ok? ==> i > old(i))
    {
      hide PString, PBoolean, PNull, PNumber, PObject, PArray;
      match Peek() {
        case None => return Err(UnexpectedEnd);
        case Some(c) =>
          if c == '{' as int {
            r := ParseObject();
          } else if c == '[' as int {
            r := ParseArray();
          } else if c == '"' as int {
            var s :- ParseString();
            return Ok(Str(s));
          } else if c == 't' as int || c == 'f' as int {
            r := ParseBoolean();
          } else if c == 'n' as int {
            r := ParseNull();
          } else if c == '-' as int || IsDigit(c) {
            r := ParseNumeral();
          } else {
            return Err(UnexpectedByte);
          }
      }
    }

    method ParseArray() returns (r: Result<Value, Error>)
      requires Valid()
      modifies this
      decreases |b| - i, 1
      ensures Agrees(r, PArray(f, old(Rest()))) && (r.Ok? ==> i > old(i))
    {
      hide PValue, SkipWs, PItems;
      var _ :- Expect('[');
      var items: seq<Value> := [];
      Ws();
      if Peek() == Some(']' as int) {
        i := i + 1;
        return Ok(Array(items));
      }
      while true
        invariant Valid() && i > old(i) && PItems(f, Rest(), items) == PArray(f, old(Rest()))
        decreases |b| - i
      {
        ItemsUnfold(f, Rest(), items);
        Ws();
        var v :- ParseValue();
        items := items + [v];
        Ws();
        ghost var next := Rest();
        if Peek() == Some(',' as int) {
          i := i + 1;
          assert Rest() == next[1..];
        } else if Peek() == Some(']' as int) {
          i := i + 1;
          assert Rest() == next[1..];
          return Ok(Array(items));
        } else {
          return Err(ExpectedCommaOrClose);
        }
      }
      assert false;
    }

    method ParsePair() returns (r: Result<Pair, Error>)
      requires Valid()
      modifies this
      decreases |b| - i, 3
      ensures Agrees(r, PPair(f, old(Rest()))) && (r.Ok? ==> i > old(i))
    {
      hide PValue, PString, SkipWs;
      var key :- ParseString();
      Ws();
      ghost var colon := Rest();
      var _ :- Expect(':');
      assert Rest() == colon[1..];
      Ws();
      var v :- ParseValue();
      return Ok(Pair(key, v));
    }

    // The opening brace and what ends at once; otherwise the pairs follow.
    method OpenObject() returns (r: Result<bool, Error>)
      requires Valid()
      modifies this
      ensures Valid() && (r.Err? ==> PObject(f, old(Rest())) == Fail(r.error))
      ensures r.Ok? ==> i > old(i)
      ensures r == Ok(true) ==> PObject(f, old(Rest())) == Done(Object([]), Rest())
      ensures r == Ok(false) ==> PObject(f, old(Rest())) == PPairs(f, Rest(), [])
    {
      hide PPairs, SkipWs;
      var _ :- Expect('{');
      Ws();
      if Peek() == Some('}' as int) {
        i := i + 1;
        return Ok(true);
      }
      return Ok(false);
    }

    method ParseObject() returns (r: Result<Value, Error>)
      requires Valid()
      modifies this
      decreases |b| - i, 1
      ensures Agrees(r, PObject(f, old(Rest()))) && (r.Ok? ==> i > old(i))
    {
      hide PPair, SkipWs, PPairs, PObject;
      var closed :- OpenObject();
      var pairs: seq<Pair> := [];
      if closed {
        return Ok(Object(pairs));
      }
      while true
        invariant Valid() && i > old(i) && PPairs(f, Rest(), pairs) == PObject(f, old(Rest()))
        decreases |b| - i
      {
        PairsUnfold(f, Rest(), pairs);
        Ws();
        var pair :- ParsePair();
        pairs := pairs + [pair];
        Ws();
        ghost var next := Rest();
        if Peek() == Some(',' as int) {
          i := i + 1;
          assert Rest() == next[1..];
        } else if Peek() == Some('}' as int) {
          i := i + 1;
          assert Rest() == next[1..];
          return Ok(Object(pairs));
        } else {
          return Err(ExpectedCommaOrClose);
        }
      }
      assert false;
    }
  }

  // ---- the printer ----

  lemma EscapeAllSnoc(s: string, i: nat)
    requires i < |s|
    ensures EscapeAll(s[i..]) == Escape(s[i]) + EscapeAll(s[i + 1..])
  {
    hide Escape;
    assert s[i..][1..] == s[i + 1..];
  }

  method WriteStr(s: string, out: string) returns (r: string)
    ensures r == out + Quote(s)
  {
    hide Escape, EscapeAll;
    r := out + "\"";
    for i := 0 to |s|
      invariant r + EscapeAll(s[i..]) == out + "\"" + EscapeAll(s)
    {
      EscapeAllSnoc(s, i);
      r := r + Escape(s[i]);
    }
    EscapeNothing();
    assert s[|s|..] == "";
    r := r + "\"";
    Regroup(out, "\"", EscapeAll(s), "\"");
  }

  lemma EscapeNothing()
    ensures EscapeAll("") == ""
  {
  }

  // The elements from `i` on, each behind its comma except the first of all.
  function ItemsFrom(f: FloatIo, items: seq<Value>, i: nat): string
    requires i <= |items|
  {
    if i == 0 && items != [] then Print(f, items[0]) + PrintItems(f, items[1..]) else PrintItems(f, items[i..])
  }

  function PairsFrom(f: FloatIo, pairs: seq<Pair>, i: nat): string
    requires i <= |pairs|
  {
    if i == 0 && pairs != [] then PrintPair(f, pairs[0]) + PrintPairs(f, pairs[1..]) else PrintPairs(f, pairs[i..])
  }

  lemma ItemsFromStep(f: FloatIo, items: seq<Value>, i: nat)
    requires i < |items|
    ensures ItemsFrom(f, items, i) ==
            (if i > 0 then "," else "") + Print(f, items[i]) + ItemsFrom(f, items, i + 1)
  {
    hide Print;
    assert i > 0 ==> items[i..][1..] == items[i + 1..];
  }

  lemma PairsFromStep(f: FloatIo, pairs: seq<Pair>, i: nat)
    requires i < |pairs|
    ensures PairsFrom(f, pairs, i) ==
            (if i > 0 then "," else "") + PrintPair(f, pairs[i]) + PairsFrom(f, pairs, i + 1)
  {
    hide PrintPair;
    assert i > 0 ==> pairs[i..][1..] == pairs[i + 1..];
  }

  method WriteValue(f: FloatIo, v: Value, out: string) returns (r: string)
    ensures r == out + Print(f, v)
    decreases v, 1
  {
    match v {
      case Null => r := out + "null";
      case Bool(true) => r := out + "true";
      case Bool(false) => r := out + "false";
      case Num(x) => r := out + PrintNum(f, x);
      case Str(s) => r := WriteStr(s, out);
      case Array(items) => r := WriteArray(f, items, out);
      case Object(pairs) => r := WriteObject(f, pairs, out);
    }
  }

  method WriteArray(f: FloatIo, items: seq<Value>, out: string) returns (r: string)
    ensures r == out + Print(f, Array(items))
    decreases items, 2
  {
    r := out + "[";
    ghost var start := r;
    hide Print, ItemsFrom;
    for i := 0 to |items|
      invariant r + ItemsFrom(f, items, i) == start + ItemsFrom(f, items, 0)
    {
      ItemsFromStep(f, items, i);
      if i > 0 {
        r := r + ",";
      }
      r := WriteValue(f, items[i], r);
    }
    NothingLeft(f, items, []);
    r := r + "]";
    ClosedArray(f, items, out);
  }

  method WritePair(f: FloatIo, p: Pair, out: string) returns (r: string)
    ensures r == out + PrintPair(f, p)
    decreases p, 2
  {
    hide Print, Quote;
    r := WriteStr(p.key, out);
    r := r + ":";
    r := WriteValue(f, p.value, r);
    Regroup(out, Quote(p.key), ":", Print(f, p.value));
  }

  method WriteObject(f: FloatIo, pairs: seq<Pair>, out: string) returns (r: string)
    ensures r == out + Print(f, Object(pairs))
    decreases pairs, 2
  {
    r := out + "{";
    ghost var start := r;
    hide Print, PairsFrom, PrintPair;
    for i := 0 to |pairs|
      invariant r + PairsFrom(f, pairs, i) == start + PairsFrom(f, pairs, 0)
    {
      PairsFromStep(f, pairs, i);
      if i > 0 {
        r := r + ",";
      }
      r := WritePair(f, pairs[i], r);
    }
    NothingLeft(f, [], pairs);
    r := r + "}";
    ClosedObject(f, pairs, out);
  }

  lemma NothingLeft(f: FloatIo, items: seq<Value>, pairs: seq<Pair>)
    ensures ItemsFrom(f, items, |items|) == "" && PairsFrom(f, pairs, |pairs|) == ""
  {
  }

  lemma ClosedArray(f: FloatIo, items: seq<Value>, out: string)
    ensures out + "[" + ItemsFrom(f, items, 0) + "]" == out + Print(f, Array(items))
  {
    Regroup(out, "[", ItemsFrom(f, items, 0), "]");
    assert items == [] ==> PrintItems(f, items[0..]) == "";
  }

  lemma ClosedObject(f: FloatIo, pairs: seq<Pair>, out: string)
    ensures out + "{" + PairsFrom(f, pairs, 0) + "}" == out + Print(f, Object(pairs))
  {
    Regroup(out, "{", PairsFrom(f, pairs, 0), "}");
    assert pairs == [] ==> PrintPairs(f, pairs[0..]) == "";
  }

  method ToString(f: FloatIo, v: Value) returns (r: string)
    ensures r == Print(f, v)
  {
    r := WriteValue(f, v, "");
    assert "" + Print(f, v) == Print(f, v);
  }

  /** `Value::parse`: it terminates on every input and returns what `Parse` says. */
  method ParseDocument(f: FloatIo, input: string) returns (r: Result<Value, Error>)
    ensures r == Parse(f, Utf8All(input))
  {
    hide PValue, Utf8All;
    var p := new Parser(f, Utf8All(input));
    assert p.Rest() == Utf8All(input);
    p.Ws();
    var v :- p.ParseValue();
    p.Ws();
    if p.i != |p.b| {
      return Err(TrailingData);
    }
    return Ok(v);
  }

  // ---- valid UTF-8 input ----

  ghost predicate ValidUtf8(s: seq<byte>) { exists t: string :: s == Utf8All(t) }

  // The index stays on character boundaries, so neither UTF-8 error can be returned.
  ghost predicate Clean<T>(r: Parsed<T>) {
    match r
    case Done(_, rest) => ValidUtf8(rest)
    case Fail(e) => e != TruncatedUtf8 && e != InvalidUtf8
  }

  lemma ValidFront(s: seq<byte>)
    requires ValidUtf8(s) && s != []
    ensures var n := 1 + Utf8Extra(s[0]);
            n <= |s| && DecodeOne(s[..n]).Some? && ValidUtf8(s[n..]) && (s[0] < 0x80 ==> n == 1)
  {
    var t :| s == Utf8All(t);
    DecodeEncode(t[0]);
    assert s == Utf8(t[0]) + Utf8All(t[1..]);
    hide Utf8All, Utf8, DecodeOne;
    assert s[..|Utf8(t[0])|] == Utf8(t[0]);
    assert s[|Utf8(t[0])|..] == Utf8All(t[1..]);
  }

  lemma ValidNext(s: seq<byte>)
    requires ValidUtf8(s) && s != [] && s[0] < 0x80
    ensures ValidUtf8(s[1..])
  {
    ValidFront(s);
  }

  lemma {:induction false} WsClean(s: seq<byte>)
    requires ValidUtf8(s)
    ensures ValidUtf8(SkipWs(s))
  {
    if s != [] && IsWs(s[0]) {
      ValidNext(s);
      WsClean(s[1..]);
    }
  }

  lemma {:induction false} HexClean(s: seq<byte>, digits: nat, v: nat)
    requires ValidUtf8(s)
    ensures Clean(PHex(s, digits, v))
    decreases digits
  {
    if digits > 0 && s != [] && HexValue(s[0]).Some? {
      ValidNext(s);
      HexClean(s[1..], digits - 1, v * 16 + HexValue(s[0]).value);
    }
  }

  lemma UnicodeClean(s: seq<byte>)
    requires ValidUtf8(s)
    ensures Clean(PUnicode(s))
  {
    hide PHex;
    HexClean(s, 4, 0);
    if PHex(s, 4, 0).Done? {
      var rest := PHex(s, 4, 0).rest;
      if Peeks(rest, '\\') && Peeks(rest[1..], 'u') {
        ValidNext(rest);
        ValidNext(rest[1..]);
        assert rest[1..][1..] == rest[2..];
        HexClean(rest[2..], 4, 0);
      }
    }
  }

  lemma CharClean(s: seq<byte>)
    requires ValidUtf8(s) && s != [] && s[0] != '"' as int
    ensures Clean(PChar(s))
  {
    hide PUnicode, DecodeOne, Utf8Extra;
    ValidFront(s);
    if s[0] == '\\' as int && |s| >= 2 {
      ValidNext(s);
      assert s[1..][1..] == s[2..] && s[1..][0] == s[1];
      if s[1] == 'u' as int || SimpleEscape(s[1]).Some? {
        ValidNext(s[1..]);
        UnicodeClean(s[2..]);
      }
    }
  }

  lemma {:induction false} CharsClean(s: seq<byte>, out: string)
    requires ValidUtf8(s)
    ensures Clean(PChars(s, out))
    decreases |s|
  {
    hide PChar, ValidUtf8;
    if s != [] {
      if s[0] == '"' as int {
        ValidNext(s);
      } else {
        CharClean(s);
        if PChar(s).Done? {
          CharsClean(PChar(s).rest, out + [PChar(s).value]);
        }
      }
    }
  }

  lemma StringClean(s: seq<byte>)
    requires ValidUtf8(s)
    ensures Clean(PString(s))
  {
    if Peeks(s, '"') {
      ValidNext(s);
      CharsClean(s[1..], "");
    }
  }

  lemma {:induction false} DropAscii(s: seq<byte>, n: nat)
    requires ValidUtf8(s) && n <= |s| && forall i :: 0 <= i < n ==> s[i] < 0x80
    ensures ValidUtf8(s[n..])
  {
    hide ValidUtf8;
    if n == 0 {
      assert s[0..] == s;
    } else {
      ValidNext(s);
      DropAscii(s[1..], n - 1);
      assert s[1..][n - 1..] == s[n..];
    }
  }

  lemma {:induction false} NumberBytesAreAscii(s: seq<byte>)
    ensures forall i :: 0 <= i < ScanNumber(s) ==> s[i] < 0x80
  {
    if s != [] && IsNumberByte(s[0]) {
      NumberBytesAreAscii(s[1..]);
    }
  }

  lemma ScalarClean(f: FloatIo, s: seq<byte>)
    requires ValidUtf8(s)
    ensures Clean(PBoolean(s)) && Clean(PNull(s))
    ensures s != [] && (s[0] == '-' as int || IsDigit(s[0])) ==> Clean(PNumber(f, s))
  {
    hide Utf8All, ValidUtf8, ParseNumber;
    LiteralsAreAscii();
    DropLiteral(s, TRUE());
    DropLiteral(s, FALSE());
    DropLiteral(s, NULL());
    NumberBytesAreAscii(s);
    if s != [] {
      NumberBytesAreAscii(s[1..]);
    }
    DropAscii(s, NumberLength(s));
  }

  predicate AllAscii(word: seq<byte>) { forall i :: 0 <= i < |word| ==> word[i] < 0x80 }

  lemma LiteralsAreAscii()
    ensures AllAscii(TRUE()) && AllAscii(FALSE()) && AllAscii(NULL())
  {
    AsciiBytes("true");
    AsciiBytes("false");
    AsciiBytes("null");
    hide Utf8All;
  }

  lemma DropLiteral(s: seq<byte>, word: seq<byte>)
    requires ValidUtf8(s) && AllAscii(word)
    ensures word <= s ==> ValidUtf8(s[|word|..])
  {
    hide ValidUtf8;
    if word <= s {
      assert forall i :: 0 <= i < |word| ==> s[i] == word[i];
      DropAscii(s, |word|);
    }
  }

  /** On valid UTF-8 every step of the mutually recursive parser stays on a character boundary. */
  lemma {:induction false} ValueClean(f: FloatIo, s: seq<byte>)
    requires ValidUtf8(s)
    ensures Clean(PValue(f, s))
    decreases |s|, 1
  {
    hide ValidUtf8, PBoolean, PNull, PNumber, PString, PItems, PPairs;
    if s != [] {
      ScalarClean(f, s);
      StringClean(s);
      if Peeks(s, '[') || Peeks(s, '{') {
        ValidNext(s);
        WsClean(s[1..]);
        var inside := SkipWs(s[1..]);
        if Peeks(inside, ']') || Peeks(inside, '}') {
          ValidNext(inside);
        }
        ItemsClean(f, inside, []);
        PairsClean(f, inside, []);
      }
    }
  }

  lemma {:induction false} ItemsClean(f: FloatIo, s: seq<byte>, items: seq<Value>)
    requires ValidUtf8(s)
    ensures Clean(PItems(f, s, items))
    decreases |s|, 2
  {
    hide ValidUtf8, PValue;
    WsClean(s);
    ValueClean(f, SkipWs(s));
    match PValue(f, SkipWs(s)) {
      case Fail(_) =>
      case Done(v, rest) =>
        WsClean(rest);
        var next := SkipWs(rest);
        if Peeks(next, ',') {
          ValidNext(next);
          ItemsClean(f, next[1..], items + [v]);
        } else if Peeks(next, ']') {
          ValidNext(next);
        }
    }
  }

  lemma {:induction false} PairClean(f: FloatIo, s: seq<byte>)
    requires ValidUtf8(s)
    ensures Clean(PPair(f, s))
    decreases |s|, 1
  {
    hide ValidUtf8, PValue, PString;
    StringClean(s);
    match PString(s) {
      case Fail(_) =>
      case Done(_, rest) =>
        WsClean(rest);
        var colon := SkipWs(rest);
        if Peeks(colon, ':') {
          ValidNext(colon);
          WsClean(colon[1..]);
          ValueClean(f, SkipWs(colon[1..]));
        }
    }
  }

  lemma {:induction false} PairsClean(f: FloatIo, s: seq<byte>, pairs: seq<Pair>)
    requires ValidUtf8(s)
    ensures Clean(PPairs(f, s, pairs))
    decreases |s|, 2
  {
    hide ValidUtf8, PPair;
    WsClean(s);
    PairClean(f, SkipWs(s));
    match PPair(f, SkipWs(s)) {
      case Fail(_) =>
      case Done(p, rest) =>
        WsClean(rest);
        var next := SkipWs(rest);
        if Peeks(next, ',') {
          ValidNext(next);
          PairsClean(f, next[1..], pairs + [p]);
        } else if Peeks(next, '}') {
          ValidNext(next);
        }
    }
  }

  /** Parsing a string never reports broken UTF-8: both of those error returns are unreachable. */
  lemma Utf8ErrorsAreUnreachable(f: FloatIo, input: string)
    ensures Parse(f, Utf8All(input)) != Err(TruncatedUtf8) && Parse(f, Utf8All(input)) != Err(InvalidUtf8)
  {
    hide PValue, SkipWs;
    assert ValidUtf8(Utf8All(input));
    hide ValidUtf8, Utf8All;
    WsClean(Utf8All(input));
    ValueClean(f, SkipWs(Utf8All(input)));
  }
}
