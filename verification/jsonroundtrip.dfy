/** Parsing what was printed gives back the value, in any context (RFC 8259, sections 4 to 7). */
module JsonRoundTrip {
  import opened Bytes
  import opened Text
  import opened Json
  import opened Wrappers

  // ---- numbers ----

  function Power10(k: nat): nat { if k == 0 then 1 else 10 * Power10(k - 1) }

  lemma {:induction false} DecimalLength(n: nat, k: nat)
    requires k > 0 && n < Power10(k)
    ensures |Decimal(n)| <= k
  {
    if n >= 10 {
      DecimalLength(n / 10, k - 1);
    }
  }

  lemma {:induction false} DecimalValue(n: nat)
    ensures forall i :: 0 <= i < |Utf8All(Decimal(n))| ==> IsDigit(Utf8All(Decimal(n))[i])
    ensures DigitsValue(Utf8All(Decimal(n))) == n
  {
    var s := Utf8All(Decimal(n));
    AsciiBytes(Decimal(n));
    assert forall i :: 0 <= i < |s| ==> IsDigit(s[i]) by {
      assert forall i :: 0 <= i < |s| ==> '0' <= Decimal(n)[i] <= '9';
    }
    if n < 10 {
      assert s[..|s| - 1] == [];
    } else {
      DecimalValue(n / 10);
      Utf8Concat(Decimal(n / 10), [Digit(n % 10)]);
      Utf8One(Digit(n % 10));
      assert s[..|s| - 1] == Utf8All(Decimal(n / 10));
    }
  }

  lemma FifteenDigits(n: nat)
    requires n < 1_000_000_000_000_000
    ensures AreDigits(Utf8All(Decimal(n))) && DigitsValue(Utf8All(Decimal(n))) == n
  {
    assert Power10(15) == 1_000_000_000_000_000 by {
      assert Power10(5) == 100_000;
      assert Power10(10) == 10_000_000_000;
    }
    DecimalLength(n, 15);
    DecimalValue(n);
    AsciiBytes(Decimal(n));
  }

  lemma IntRoundTrip(f: FloatIo, n: int)
    requires -1_000_000_000_000_000 < n < 1_000_000_000_000_000
    ensures ParseNumber(f, Utf8All(PrintInt(n))) == Some(n as real)
    ensures forall c <- Utf8All(PrintInt(n)) :: IsNumberByte(c)
    ensures StartsNumber(Utf8All(PrintInt(n)))
  {
    hide Utf8, Decimal;
    var magnitude := if n < 0 then -n else n;
    var digits := Utf8All(Decimal(magnitude));
    FifteenDigits(magnitude);
    if n < 0 {
      Utf8Concat("-", Decimal(magnitude));
      AsciiBytes("-");
      var text := Utf8All(PrintInt(n));
      assert text == ['-' as int] + digits;
      assert text[1..] == digits;
      assert !IsDigit(text[0]) && text[0] in text;
    }
  }

  predicate StartsNumber(s: seq<byte>) { s != [] && (s[0] == '-' as int || IsDigit(s[0])) }

  // The host's own number text is one number token that it reads back.
  predicate ReadsBack(f: FloatIo, x: real) {
    var text := Utf8All(f.show(x));
    StartsNumber(text) && (forall c <- text :: IsNumberByte(c)) && !IsShortText(text) && f.parse(text) == Some(x)
  }

  // The greedy scan stops exactly where the printed number ends.
  predicate EndsNumber(post: seq<byte>) { post == [] || !IsNumberByte(post[0]) }

  lemma {:induction false} ScanExact(text: seq<byte>, post: seq<byte>)
    requires (forall c <- text :: IsNumberByte(c)) && EndsNumber(post)
    ensures ScanNumber(text + post) == |text|
  {
    if text == [] {
      assert text + post == post;
    } else {
      assert (text + post)[1..] == text[1..] + post;
      assert text[0] in text;
      ScanExact(text[1..], post);
    }
  }

  lemma NumberRoundTrip(f: FloatIo, x: real, post: seq<byte>)
    requires IsShort(x) || ReadsBack(f, x)
    requires EndsNumber(post)
    ensures StartsNumber(Utf8All(PrintNum(f, x)))
    ensures PNumber(f, Utf8All(PrintNum(f, x)) + post) == Done(Num(x), post)
  {
    hide Utf8All, IsShortText, ShortValue, PrintInt;
    var text := Utf8All(PrintNum(f, x));
    if IsShort(x) {
      IntRoundTrip(f, x.Floor);
    }
    assert ParseNumber(f, text) == Some(x);
    var s := text + post;
    ScanExact(text, post);
    ScanExact(text[1..], post);
    assert s[1..] == text[1..] + post;
    assert s[..|text|] == text && s[|text|..] == post;
  }

  // ---- strings ----

  lemma HexRoundTrip(d: nat)
    requires d < 16
    ensures HexDigit(d) as int < 0x80 && HexValue(HexDigit(d) as int) == Some(d)
  {
  }

  lemma FourHex(n: nat, tail: seq<byte>)
    requires n < 0x1_0000
    ensures PHex(Utf8All(Hex4(n)) + tail, 4, 0) == Done(n, tail)
  {
    var h := Hex4(n);
    var d3, d2, d1, d0 := n / 0x1000, n / 0x100 % 0x10, n / 0x10 % 0x10, n % 0x10;
    HexRoundTrip(d3);
    HexRoundTrip(d2);
    HexRoundTrip(d1);
    HexRoundTrip(d0);
    AsciiBytes(h);
    var s := Utf8All(h) + tail;
    hide HexValue, HexDigit, Utf8All;
    assert PHex(s, 4, 0) == PHex(s[1..], 3, d3);
    assert PHex(s[1..], 3, d3) == PHex(s[2..], 2, d3 * 16 + d2) by { assert s[1..][1..] == s[2..]; }
    var v := d3 * 16 + d2;
    assert PHex(s[2..], 2, v) == PHex(s[3..], 1, v * 16 + d1) by { assert s[2..][1..] == s[3..]; }
    assert PHex(s[3..], 1, v * 16 + d1) == PHex(s[4..], 0, (v * 16 + d1) * 16 + d0) by { assert s[3..][1..] == s[4..]; }
    assert s[4..] == tail;
    FromHexDigits(n);
  }

  lemma FromHexDigits(n: nat)
    requires n < 0x1_0000
    ensures ((n / 0x1000 * 16 + n / 0x100 % 0x10) * 16 + n / 0x10 % 0x10) * 16 + n % 0x10 == n
  {
    assert n / 0x100 == n / 0x1000 * 16 + n / 0x100 % 0x10;
    assert n / 0x10 == n / 0x100 * 16 + n / 0x10 % 0x10;
  }

  lemma PairArithmetic(cp: int)
    requires 0x1_0000 <= cp < 0x11_0000
    ensures var offset := cp - 0x1_0000;
            var hi, lo := 0xD800 + offset / 0x400, 0xDC00 + offset % 0x400;
            && 0xD800 <= hi <= 0xDBFF && 0xDC00 <= lo <= 0xDFFF
            && 0x1_0000 + (hi - 0xD800) * 0x400 + (lo - 0xDC00) == cp
  {
  }

  lemma SurrogatesRead(hi: nat, lo: nat, s: seq<byte>, middle: seq<byte>, tail: seq<byte>)
    requires 0xD800 <= hi <= 0xDBFF && 0xDC00 <= lo <= 0xDFFF
    requires PHex(s, 4, 0) == Done(hi, ['\\' as int, 'u' as int] + middle) && PHex(middle, 4, 0) == Done(lo, tail)
    ensures var cp := 0x1_0000 + (hi - 0xD800) * 0x400 + (lo - 0xDC00);
            IsScalar(cp) && PUnicode(s) == Done(cp as char, tail)
  {
    hide PHex;
    var rest := ['\\' as int, 'u' as int] + middle;
    assert rest[1..][0] == 'u' as int && rest[2..] == middle;
  }

  /** A surrogate pair decodes to its code point, for every code point outside the basic plane. */
  lemma SurrogatePairDecodes(c: char, tail: seq<byte>)
    requires c as int >= 0x1_0000
    ensures var offset := c as int - 0x1_0000;
            var hi, lo := 0xD800 + offset / 0x400, 0xDC00 + offset % 0x400;
            && hi < 0x1_0000
            && PUnicode(Utf8All(Hex4(hi)) + (['\\' as int, 'u' as int] + (Utf8All(Hex4(lo)) + tail))) == Done(c, tail)
  {
    hide Utf8All, PHex, Hex4, PUnicode;
    PairArithmetic(c as int);
    var offset := c as int - 0x1_0000;
    var hi, lo := 0xD800 + offset / 0x400, 0xDC00 + offset % 0x400;
    var middle := Utf8All(Hex4(lo)) + tail;
    FourHex(lo, tail);
    FourHex(hi, ['\\' as int, 'u' as int] + middle);
    SurrogatesRead(hi, lo, Utf8All(Hex4(hi)) + (['\\' as int, 'u' as int] + middle), middle, tail);
  }

  lemma ControlDecodes(c: char, tail: seq<byte>)
    requires c as int < 0x20
    ensures PUnicode(Utf8All(Hex4(c as int)) + tail) == Done(c, tail)
  {
    hide Utf8All, PHex, Hex4;
    FourHex(c as int, tail);
  }

  lemma EscapedChar(c: char, e: char, tail: seq<byte>)
    requires e as int < 0x80 && SimpleEscape(e as int) == Some(c) && e != 'u'
    ensures Peeks(Utf8All(['\\', e]), '\\')
    ensures PChar(Utf8All(['\\', e]) + tail) == Done(c, tail)
  {
    AsciiBytes(['\\', e]);
    var s := Utf8All(['\\', e]) + tail;
    hide Utf8All;
    assert s[2..] == tail;
  }

  lemma ControlChar(c: char, tail: seq<byte>)
    requires c as int < 0x20
    ensures PChar(Utf8All("\\u" + Hex4(c as int)) + tail) == Done(c, tail)
    ensures Peeks(Utf8All("\\u" + Hex4(c as int)), '\\')
  {
    AsciiBytes("\\u");
    assert Utf8All("\\u") == ['\\' as int, 'u' as int];
    hide Utf8All, PUnicode, Hex4;
    Utf8Concat("\\u", Hex4(c as int));
    ControlDecodes(c, tail);
    var digits := Utf8All(Hex4(c as int));
    var s := ['\\' as int, 'u' as int] + digits + tail;
    assert s[2..] == digits + tail;
    assert PChar(s) == PUnicode(s[2..]);
    hide PChar;
  }

  lemma PlainChar(c: char, tail: seq<byte>)
    requires c as int >= 0x20 && c != '"' && c != '\\'
    ensures Utf8(c)[0] != '"' as int && PChar(Utf8(c) + tail) == Done(c, tail)
  {
    DecodeEncode(c);
    assert Utf8(c)[0] != '"' as int && Utf8(c)[0] != '\\' as int;
    hide Utf8, DecodeOne, Utf8Extra;
    var s := Utf8(c) + tail;
    assert s[..|Utf8(c)|] == Utf8(c) && s[|Utf8(c)|..] == tail;
  }

  lemma CharRoundTrip(c: char, tail: seq<byte>)
    ensures var s := Utf8All(Escape(c)) + tail;
            Utf8All(Escape(c)) != [] && s[0] != '"' as int && PChar(s) == Done(c, tail)
  {
    hide Utf8All, PChar, Hex4;
    var n := c as int;
    if c == '"' { EscapedChar(c, '"', tail); }
    else if c == '\\' { EscapedChar(c, '\\', tail); }
    else if c == '\n' { EscapedChar(c, 'n', tail); }
    else if c == '\r' { EscapedChar(c, 'r', tail); }
    else if c == '\t' { EscapedChar(c, 't', tail); }
    else if n == 0x08 { EscapedChar(c, 'b', tail); }
    else if n == 0x0C { EscapedChar(c, 'f', tail); }
    else if n < 0x20 { ControlChar(c, tail); }
    else {
      Utf8One(c);
      PlainChar(c, tail);
    }
  }

  lemma {:induction false} CharsRoundTrip(t: string, out: string, post: seq<byte>)
    ensures PChars(Utf8All(EscapeAll(t) + "\"") + post, out) == Done(out + t, post)
  {
    hide Utf8All, Escape, PChar;
    if t == "" {
      AsciiBytes("\"");
      assert (Utf8All("\"") + post)[1..] == post;
      assert EscapeAll(t) + "\"" == "\"";
      assert out + t == out;
    } else {
      var tail := Utf8All(EscapeAll(t[1..]) + "\"") + post;
      Utf8Concat(Escape(t[0]), EscapeAll(t[1..]) + "\"");
      assert Escape(t[0]) + (EscapeAll(t[1..]) + "\"") == EscapeAll(t) + "\"";
      assert Utf8All(EscapeAll(t) + "\"") + post == Utf8All(Escape(t[0])) + tail;
      CharRoundTrip(t[0], tail);
      CharsRoundTrip(t[1..], out + [t[0]], post);
      assert out + [t[0]] + t[1..] == out + t;
    }
  }

  lemma QuoteBytes(t: string)
    ensures Utf8All(Quote(t)) == ['"' as int] + Utf8All(EscapeAll(t) + "\"")
  {
    Utf8One('"');
    hide Utf8All, EscapeAll;
    Utf8Concat("\"", EscapeAll(t) + "\"");
    assert "\"" + (EscapeAll(t) + "\"") == Quote(t);
  }

  /** Every string of Unicode scalar values survives quoting. */
  lemma StringRoundTrip(t: string, post: seq<byte>)
    ensures PString(Utf8All(Quote(t)) + post) == Done(t, post)
    ensures Peeks(Utf8All(Quote(t)), '"')
  {
    hide Utf8All, EscapeAll, PChars, Quote;
    QuoteBytes(t);
    CharsRoundTrip(t, "", post);
    var body := Utf8All(EscapeAll(t) + "\"");
    assert (['"' as int] + body + post)[1..] == body + post;
    assert "" + t == t;
  }

  // ---- values ----

  // Numbers are short integers or numbers that the host's own text carries.
  predicate Printable(f: FloatIo, v: Value) {
    match v
    case Num(x) => IsShort(x) || ReadsBack(f, x)
    case Array(items) => forall i :: 0 <= i < |items| ==> Printable(f, items[i])
    case Object(pairs) => forall i :: 0 <= i < |pairs| ==> Printable(f, pairs[i].value)
    case _ => true
  }

  function Printed(f: FloatIo, v: Value): seq<byte> { Utf8All(Print(f, v)) }

  // A printed value starts with a byte that is no white space and closes no bracket.
  predicate StartsValue(s: seq<byte>) {
    s != [] && !IsWs(s[0]) && s[0] != ']' as int && s[0] != '}' as int
  }

  lemma Literals(post: seq<byte>)
    ensures TRUE()[0] == 't' as int && FALSE()[0] == 'f' as int && NULL()[0] == 'n' as int
    ensures !(TRUE() <= FALSE() + post)
  {
    AsciiBytes("true");
    AsciiBytes("false");
    AsciiBytes("null");
    assert (FALSE() + post)[0] == 'f' as int;
  }

  lemma LiteralRoundTrip(f: FloatIo, v: Value, post: seq<byte>)
    requires v.Null? || v.Bool?
    ensures PValue(f, Printed(f, v) + post) == Done(v, post) && StartsValue(Printed(f, v))
  {
    Literals(post);
    var text := if v.Null? then NULL() else if v.b then TRUE() else FALSE();
    assert Printed(f, v) == text;
    hide Utf8All, TRUE, FALSE, NULL, Printed;
    var s := text + post;
    assert s[|text|..] == post;
    assert text <= s;
  }

  lemma CommaBytes(a: string, b: string)
    ensures Utf8All("," + a + b) == [',' as int] + (Utf8All(a) + Utf8All(b))
  {
    Utf8One(',');
    Utf8Concat(",", a);
    Utf8Concat("," + a, b);
    hide Utf8All;
  }

  lemma BracketBytes(open: char, a: string, b: string, close: char)
    requires open as int < 0x80 && close as int < 0x80
    ensures Utf8All([open] + (a + b) + [close]) == [open as int] + (Utf8All(a) + (Utf8All(b) + [close as int]))
  {
    Utf8One(open);
    Utf8One(close);
    Utf8Concat(a, b);
    Utf8Concat([open], a + b);
    Utf8Concat([open] + (a + b), [close]);
    hide Utf8All;
  }

  lemma SkipNothing(s: seq<byte>)
    requires s == [] || !IsWs(s[0])
    ensures SkipWs(s) == s
  {
  }

  lemma NumRoundTrip(f: FloatIo, x: real, post: seq<byte>)
    requires Printable(f, Num(x)) && EndsNumber(post)
    ensures StartsValue(Printed(f, Num(x))) && PValue(f, Printed(f, Num(x)) + post) == Done(Num(x), post)
  {
    hide Utf8All, PrintNum, PNumber, ReadsBack, IsShort;
    NumberRoundTrip(f, x, post);
  }

  lemma StrRoundTrip(f: FloatIo, s: string, post: seq<byte>)
    ensures StartsValue(Printed(f, Str(s))) && PValue(f, Printed(f, Str(s)) + post) == Done(Str(s), post)
  {
    hide Utf8All, Quote, PString;
    StringRoundTrip(s, post);
  }

  /** The round trip in context: the parser stops at the end of the printed value and leaves the rest. */
  lemma {:induction false} ValueRoundTrip(f: FloatIo, v: Value, post: seq<byte>)
    requires Printable(f, v) && EndsNumber(post)
    ensures StartsValue(Printed(f, v))
    ensures PValue(f, Printed(f, v) + post) == Done(v, post)
    decreases v, 1
  {
    hide Printed, PValue, StartsValue, EndsNumber;
    match v {
      case Null => LiteralRoundTrip(f, v, post);
      case Bool(_) => LiteralRoundTrip(f, v, post);
      case Num(x) => NumRoundTrip(f, x, post);
      case Str(s) => StrRoundTrip(f, s, post);
      case Array(items) => ArrayRoundTrip(f, items, post);
      case Object(pairs) => ObjectRoundTrip(f, pairs, post);
    }
  }

  lemma ItemsNext(f: FloatIo, s: seq<byte>, acc: seq<Value>, v: Value, more: seq<byte>)
    requires s != [] && !IsWs(s[0]) && PValue(f, s) == Done(v, [',' as int] + more)
    ensures PItems(f, s, acc) == PItems(f, more, acc + [v])
  {
    hide PValue;
    var next: seq<byte> := [',' as int] + more;
    SkipNothing(s);
    SkipNothing(next);
    assert next[1..] == more;
  }

  lemma ItemsLast(f: FloatIo, s: seq<byte>, acc: seq<Value>, v: Value, post: seq<byte>)
    requires s != [] && !IsWs(s[0]) && PValue(f, s) == Done(v, [']' as int] + post)
    ensures PItems(f, s, acc) == Done(Array(acc + [v]), post)
  {
    hide PValue;
    var next: seq<byte> := [']' as int] + post;
    SkipNothing(s);
    SkipNothing(next);
    assert next[1..] == post;
  }

  lemma PairsNext(f: FloatIo, s: seq<byte>, acc: seq<Pair>, p: Pair, more: seq<byte>)
    requires s != [] && !IsWs(s[0]) && PPair(f, s) == Done(p, [',' as int] + more)
    ensures PPairs(f, s, acc) == PPairs(f, more, acc + [p])
  {
    hide PPair;
    var next: seq<byte> := [',' as int] + more;
    SkipNothing(s);
    SkipNothing(next);
    assert next[1..] == more;
  }

  lemma PairsLast(f: FloatIo, s: seq<byte>, acc: seq<Pair>, p: Pair, post: seq<byte>)
    requires s != [] && !IsWs(s[0]) && PPair(f, s) == Done(p, ['}' as int] + post)
    ensures PPairs(f, s, acc) == Done(Object(acc + [p]), post)
  {
    hide PPair;
    var next: seq<byte> := ['}' as int] + post;
    SkipNothing(s);
    SkipNothing(next);
    assert next[1..] == post;
  }

  lemma OpenBracket(f: FloatIo, open: char, inside: seq<byte>)
    requires inside != [] && StartsValue(inside) && (open == '[' || open == '{')
    ensures PValue(f, [open as int] + inside) == if open == '[' then PItems(f, inside, []) else PPairs(f, inside, [])
  {
    hide PItems, PPairs;
    var s: seq<byte> := [open as int] + inside;
    assert s[1..] == inside;
    SkipNothing(inside);
  }

  lemma EmptyBrackets(f: FloatIo, post: seq<byte>)
    ensures PValue(f, ['[' as int, ']' as int] + post) == Done(Array([]), post)
    ensures PValue(f, ['{' as int, '}' as int] + post) == Done(Object([]), post)
  {
    var a: seq<byte>, o: seq<byte> := ['[' as int, ']' as int] + post, ['{' as int, '}' as int] + post;
    assert a[1..][1..] == post && o[1..][1..] == post;
    SkipNothing(a[1..]);
    SkipNothing(o[1..]);
  }

  // The printed items with the closing bracket, the first one without a comma.
  function ItemsBytes(f: FloatIo, items: seq<Value>): seq<byte>
    requires items != []
  {
    Printed(f, items[0]) + (Utf8All(PrintItems(f, items[1..])) + [']' as int])
  }

  lemma ItemsTail(f: FloatIo, items: seq<Value>)
    ensures Utf8All(PrintItems(f, items)) + [']' as int] ==
            if items == [] then [']' as int] else [',' as int] + ItemsBytes(f, items)
  {
    if items != [] {
      hide Utf8All, Print;
      CommaBytes(Print(f, items[0]), PrintItems(f, items[1..]));
    } else {
      assert Utf8All(PrintItems(f, items)) == [];
    }
  }

  lemma ItemsSplit(f: FloatIo, items: seq<Value>, post: seq<byte>)
    requires items != []
    ensures ItemsBytes(f, items) + post ==
            Printed(f, items[0]) + (if |items| == 1 then [']' as int] + post else [',' as int] + (ItemsBytes(f, items[1..]) + post))
    ensures Printed(f, items[0]) <= ItemsBytes(f, items)
  {
    ItemsTail(f, items[1..]);
    hide Utf8All, Printed, PrintItems;
  }

  lemma {:induction false} ItemsRoundTrip(f: FloatIo, items: seq<Value>, acc: seq<Value>, post: seq<byte>)
    requires items != [] && forall i :: 0 <= i < |items| ==> Printable(f, items[i])
    ensures ItemsBytes(f, items) != [] && StartsValue(ItemsBytes(f, items))
    ensures PItems(f, ItemsBytes(f, items) + post, acc) == Done(Array(acc + items), post)
    decreases items, 2
  {
    hide ItemsBytes, Printed, Printable, PValue, PPair, PItems;
    var first, rest := items[0], items[1..];
    var s := ItemsBytes(f, items) + post;
    ItemsSplit(f, items, post);
    if rest == [] {
      ValueRoundTrip(f, first, [']' as int] + post);
      ItemsLast(f, s, acc, first, post);
      assert acc + [first] == acc + items;
    } else {
      var more := ItemsBytes(f, rest) + post;
      ValueRoundTrip(f, first, [',' as int] + more);
      ItemsNext(f, s, acc, first, more);
      ItemsRoundTrip(f, rest, acc + [first], post);
      assert acc + [first] + rest == acc + items;
    }
  }

  lemma ArrayBytes(f: FloatIo, items: seq<Value>)
    ensures Printed(f, Array(items)) ==
            if items == [] then ['[' as int, ']' as int] else ['[' as int] + ItemsBytes(f, items)
  {
    if items == [] {
      BracketBytes('[', "", "", ']');
      assert Print(f, Array([])) == ['['] + ("" + "") + [']'];
    } else {
      assert Print(f, Array(items)) == ['['] + (Print(f, items[0]) + PrintItems(f, items[1..])) + [']'];
      hide Utf8All, Print, PrintItems;
      BracketBytes('[', Print(f, items[0]), PrintItems(f, items[1..]), ']');
    }
  }

  lemma {:induction false} ArrayRoundTrip(f: FloatIo, items: seq<Value>, post: seq<byte>)
    requires forall i :: 0 <= i < |items| ==> Printable(f, items[i])
    ensures StartsValue(Printed(f, Array(items)))
    ensures PValue(f, Printed(f, Array(items)) + post) == Done(Array(items), post)
    decreases items, 3
  {
    hide Printable, Printed, ItemsBytes, PItems, PValue;
    ArrayBytes(f, items);
    if items == [] {
      EmptyBrackets(f, post);
    } else {
      ItemsRoundTrip(f, items, [], post);
      OpenBracket(f, '[', ItemsBytes(f, items) + post);
      assert Printed(f, Array(items)) + post == ['[' as int] + (ItemsBytes(f, items) + post);
      assert [] + items == items;
    }
  }

  function PairBytes(f: FloatIo, p: Pair): seq<byte> { Utf8All(PrintPair(f, p)) }

  lemma {:induction false} PairRoundTrip(f: FloatIo, p: Pair, post: seq<byte>)
    requires Printable(f, p.value) && EndsNumber(post)
    ensures StartsValue(PairBytes(f, p))
    ensures PPair(f, PairBytes(f, p) + post) == Done(p, post)
    decreases p, 1
  {
    Utf8One(':');
    hide Utf8All, Quote, Print, PString, PValue;
    Utf8Concat(":", Print(f, p.value));
    Utf8Concat(Quote(p.key), ":" + Print(f, p.value));
    assert Quote(p.key) + (":" + Print(f, p.value)) == PrintPair(f, p);
    var after := [':' as int] + (Printed(f, p.value) + post);
    assert PairBytes(f, p) + post == Utf8All(Quote(p.key)) + after;
    StringRoundTrip(p.key, after);
    ValueRoundTrip(f, p.value, post);
    SkipNothing(after);
    assert after[1..] == Printed(f, p.value) + post;
    SkipNothing(after[1..]);
  }

  function PairsBytes(f: FloatIo, pairs: seq<Pair>): seq<byte>
    requires pairs != []
  {
    PairBytes(f, pairs[0]) + (Utf8All(PrintPairs(f, pairs[1..])) + ['}' as int])
  }

  lemma PairsTail(f: FloatIo, pairs: seq<Pair>)
    ensures Utf8All(PrintPairs(f, pairs)) + ['}' as int] ==
            if pairs == [] then ['}' as int] else [',' as int] + PairsBytes(f, pairs)
  {
    if pairs != [] {
      hide Utf8All, PrintPair;
      CommaBytes(PrintPair(f, pairs[0]), PrintPairs(f, pairs[1..]));
    } else {
      assert Utf8All(PrintPairs(f, pairs)) == [];
    }
  }

  lemma PairsSplit(f: FloatIo, pairs: seq<Pair>, post: seq<byte>)
    requires pairs != []
    ensures PairsBytes(f, pairs) + post ==
            PairBytes(f, pairs[0]) + (if |pairs| == 1 then ['}' as int] + post else [',' as int] + (PairsBytes(f, pairs[1..]) + post))
    ensures PairBytes(f, pairs[0]) <= PairsBytes(f, pairs)
  {
    PairsTail(f, pairs[1..]);
    hide Utf8All, PairBytes, PrintPairs;
  }

  lemma {:induction false} PairsRoundTrip(f: FloatIo, pairs: seq<Pair>, acc: seq<Pair>, post: seq<byte>)
    requires pairs != [] && forall i :: 0 <= i < |pairs| ==> Printable(f, pairs[i].value)
    ensures PairsBytes(f, pairs) != [] && StartsValue(PairsBytes(f, pairs))
    ensures PPairs(f, PairsBytes(f, pairs) + post, acc) == Done(Object(acc + pairs), post)
    decreases pairs, 2
  {
    hide PairsBytes, PairBytes, Printable, PValue, PPair, PPairs;
    var first, rest := pairs[0], pairs[1..];
    var s := PairsBytes(f, pairs) + post;
    PairsSplit(f, pairs, post);
    if rest == [] {
      PairRoundTrip(f, first, ['}' as int] + post);
      PairsLast(f, s, acc, first, post);
      assert acc + [first] == acc + pairs;
    } else {
      var more := PairsBytes(f, rest) + post;
      PairRoundTrip(f, first, [',' as int] + more);
      PairsNext(f, s, acc, first, more);
      PairsRoundTrip(f, rest, acc + [first], post);
      assert acc + [first] + rest == acc + pairs;
    }
  }

  lemma ObjectBytes(f: FloatIo, pairs: seq<Pair>)
    ensures Printed(f, Object(pairs)) ==
            if pairs == [] then ['{' as int, '}' as int] else ['{' as int] + PairsBytes(f, pairs)
  {
    if pairs == [] {
      BracketBytes('{', "", "", '}');
      assert Print(f, Object([])) == ['{'] + ("" + "") + ['}'];
    } else {
      assert Print(f, Object(pairs)) == ['{'] + (PrintPair(f, pairs[0]) + PrintPairs(f, pairs[1..])) + ['}'];
      hide Utf8All, PrintPair, PrintPairs;
      BracketBytes('{', PrintPair(f, pairs[0]), PrintPairs(f, pairs[1..]), '}');
    }
  }

  lemma {:induction false} ObjectRoundTrip(f: FloatIo, pairs: seq<Pair>, post: seq<byte>)
    requires forall i :: 0 <= i < |pairs| ==> Printable(f, pairs[i].value)
    ensures StartsValue(Printed(f, Object(pairs)))
    ensures PValue(f, Printed(f, Object(pairs)) + post) == Done(Object(pairs), post)
    decreases pairs, 3
  {
    hide Printable, Printed, PairsBytes, PPairs, PValue;
    ObjectBytes(f, pairs);
    if pairs == [] {
      EmptyBrackets(f, post);
    } else {
      PairsRoundTrip(f, pairs, [], post);
      OpenBracket(f, '{', PairsBytes(f, pairs) + post);
      assert Printed(f, Object(pairs)) + post == ['{' as int] + (PairsBytes(f, pairs) + post);
      assert [] + pairs == pairs;
    }
  }

  /** `Value::parse(v.to_string())` is `v`: key order, duplicate keys and every Unicode string kept. */
  lemma DocumentRoundTrip(f: FloatIo, v: Value)
    requires Printable(f, v)
    ensures Parse(f, Utf8All(Print(f, v))) == Ok(v)
  {
    hide Utf8All, Print, PValue;
    var text := Utf8All(Print(f, v));
    ValueRoundTrip(f, v, []);
    assert text + [] == text;
    SkipNothing(text);
  }
}
