/**
 JSON as text (RFC 8259): what may stand in the printed form, whoever reads it, and which texts the parser reads that
 the printer never writes.
 */
module JsonText {
  import opened Bytes
  import opened Text
  import opened Json
  import opened JsonRoundTrip
  import opened Wrappers

  // ---- the string grammar (section 7) ----

  // What may stand between two quotation marks: a character as it is, a short escape, a four-digit escape, or a
  // surrogate pair of them.
  datatype Unit = Plain(c: char) | Short(e: char) | Hex(digits: string) | Surrogates(high: string, low: string)

  // The value of a hexadecimal digit, upper or lower case.
  function Nibble(c: char): int {
    if '0' <= c <= '9' then c as int - '0' as int
    else if 'a' <= c <= 'f' then 10 + (c as int - 'a' as int)
    else if 'A' <= c <= 'F' then 10 + (c as int - 'A' as int)
    else -1
  }

  predicate IsHex4(s: string) { |s| == 4 && forall i :: 0 <= i < 4 ==> Nibble(s[i]) >= 0 }

  function Hex4Value(s: string): (n: int)
    requires IsHex4(s)
    ensures 0 <= n < 0x1_0000
  {
    0x1000 * Nibble(s[0]) + 0x100 * Nibble(s[1]) + 0x10 * Nibble(s[2]) + Nibble(s[3])
  }

  // The short escapes and what they stand for.
  function ShortMeaning(e: char): Option<char> {
    match e
    case '"' => Some('"')
    case '\\' => Some('\\')
    case '/' => Some('/')
    case 'b' => Some(8 as char)
    case 'f' => Some(12 as char)
    case 'n' => Some(10 as char)
    case 'r' => Some(13 as char)
    case 't' => Some(9 as char)
    case _ => None
  }

  predicate Fine(u: Unit) {
    match u
    case Plain(c) => c as int >= 0x20 && c != '"' && c != '\\'
    case Short(e) => ShortMeaning(e).Some?
    case Hex(digits) => IsHex4(digits) && !(0xD800 <= Hex4Value(digits) <= 0xDFFF)
    case Surrogates(high, low) =>
      IsHex4(high) && IsHex4(low) && 0xD800 <= Hex4Value(high) <= 0xDBFF && 0xDC00 <= Hex4Value(low) <= 0xDFFF
  }

  function UnitText(u: Unit): string {
    match u
    case Plain(c) => [c]
    case Short(e) => ['\\', e]
    case Hex(digits) => ['\\', 'u'] + digits
    case Surrogates(high, low) => ['\\', 'u'] + high + ['\\', 'u'] + low
  }

  function UnitMeaning(u: Unit): char
    requires Fine(u)
  {
    match u
    case Plain(c) => c
    case Short(e) => ShortMeaning(e).value
    case Hex(digits) => Hex4Value(digits) as char
    case Surrogates(high, low) => (0x1_0000 + 0x400 * (Hex4Value(high) - 0xD800) + (Hex4Value(low) - 0xDC00)) as char
  }

  predicate AllFine(us: seq<Unit>) { forall i :: 0 <= i < |us| ==> Fine(us[i]) }

  function UnitsText(us: seq<Unit>): string {
    if us == [] then "" else UnitText(us[0]) + UnitsText(us[1..])
  }

  function UnitsMeaning(us: seq<Unit>): string
    requires AllFine(us)
  {
    if us == [] then "" else [UnitMeaning(us[0])] + UnitsMeaning(us[1..])
  }

  // ---- the printer stays within the grammar ----

  // Four lower-case digits spell a number below 2^16.
  lemma Hex4IsDigits(n: nat)
    requires n < 0x1_0000
    ensures IsHex4(Hex4(n)) && Hex4Value(Hex4(n)) == n
  {
    FromHexDigits(n);
    var h := Hex4(n);
    assert Nibble(h[0]) == n / 0x1000 && Nibble(h[1]) == n / 0x100 % 0x10;
    assert Nibble(h[2]) == n / 0x10 % 0x10 && Nibble(h[3]) == n % 0x10;
  }

  // How the printer writes one character.
  function EscapeUnit(c: char): Unit {
    if c in {'"', '\\'} then Short(c)
    else if c as int == 10 then Short('n')
    else if c as int == 13 then Short('r')
    else if c as int == 9 then Short('t')
    else if c as int == 8 then Short('b')
    else if c as int == 12 then Short('f')
    else if c as int < 0x20 then Hex(Hex4(c as int))
    else Plain(c)
  }

  lemma EscapeIsUnit(c: char)
    ensures Fine(EscapeUnit(c)) && UnitText(EscapeUnit(c)) == Escape(c) && UnitMeaning(EscapeUnit(c)) == c
  {
    if c as int < 0x20 {
      Hex4IsDigits(c as int);
    }
  }

  function EscapeUnits(s: string): (r: seq<Unit>)
    ensures |r| == |s|
  {
    seq(|s|, i requires 0 <= i < |s| => EscapeUnit(s[i]))
  }

  lemma {:induction false} EscapesAreUnits(s: string)
    ensures AllFine(EscapeUnits(s))
    ensures UnitsText(EscapeUnits(s)) == EscapeAll(s) && UnitsMeaning(EscapeUnits(s)) == s
  {
    hide EscapeUnit, Escape, UnitText, Fine, UnitMeaning;
    var us := EscapeUnits(s);
    forall i | 0 <= i < |us| ensures Fine(us[i]) { EscapeIsUnit(s[i]); }
    if s != "" {
      EscapeIsUnit(s[0]);
      EscapesAreUnits(s[1..]);
      assert us[1..] == EscapeUnits(s[1..]);
      assert [s[0]] + s[1..] == s;
    }
  }

  /**
   A printed string is a quotation mark, grammatical characters and escapes that mean the string, and a quotation
   mark: whoever reads RFC 8259 reads the string back.
   */
  lemma QuoteIsGrammatical(s: string)
    ensures exists us: seq<Unit> :: AllFine(us) && Quote(s) == "\"" + UnitsText(us) + "\"" && UnitsMeaning(us) == s
  {
    hide UnitsText, UnitsMeaning, AllFine, EscapeAll;
    EscapesAreUnits(s);
  }

  predicate Visible(s: string) { forall i :: 0 <= i < |s| ==> s[i] as int >= 0x20 }

  lemma EscapeIsVisible(c: char)
    ensures Visible(Escape(c))
  {
    if c as int < 0x20 {
      assert forall d: nat :: d < 16 ==> HexDigit(d) as int >= 0x20;
    }
  }

  lemma {:induction false} EscapesAreVisible(s: string)
    ensures Visible(EscapeAll(s))
  {
    hide Escape;
    if s != "" {
      EscapeIsVisible(s[0]);
      EscapesAreVisible(s[1..]);
    }
  }

  lemma QuoteIsVisible(s: string)
    ensures Visible(Quote(s))
  {
    hide EscapeAll;
    EscapesAreVisible(s);
  }

  // The host's float text has no control characters.
  predicate FloatsVisible(f: FloatIo, v: Value) {
    match v
    case Num(x) => IsShort(x) || Visible(f.show(x))
    case Array(items) => forall i :: 0 <= i < |items| ==> FloatsVisible(f, items[i])
    case Object(pairs) => forall i :: 0 <= i < |pairs| ==> FloatsVisible(f, pairs[i].value)
    case _ => true
  }

  /** No control character ever stands in printed JSON, so a printed value is one line (RFC 8259, section 7). */
  lemma {:induction false} PrintIsVisible(f: FloatIo, v: Value)
    requires FloatsVisible(f, v)
    ensures Visible(Print(f, v))
    decreases v, 0
  {
    match v {
      case Null =>
      case Bool(_) =>
      case Num(x) => hide Decimal, IsShort;
      case Str(s) => QuoteIsVisible(s);
      case Array(items) =>
        if items != [] {
          hide Print;
          PrintIsVisible(f, items[0]);
          ItemsAreVisible(f, items[1..]);
        }
        ArrayIsVisible(f, items);
      case Object(pairs) =>
        if pairs != [] {
          hide Print, PrintPair;
          PairIsVisible(f, pairs[0]);
          PairsAreVisible(f, pairs[1..]);
        }
        ObjectIsVisible(f, pairs);
    }
  }

  lemma ArrayIsVisible(f: FloatIo, items: seq<Value>)
    requires items != [] ==> Visible(Print(f, items[0])) && Visible(PrintItems(f, items[1..]))
    ensures Visible(Print(f, Array(items)))
  {
    hide PrintItems;
    var inside := if items == [] then "" else Print(f, items[0]) + PrintItems(f, items[1..]);
    assert Print(f, Array(items)) == "[" + inside + "]";
    hide Print;
  }

  lemma ObjectIsVisible(f: FloatIo, pairs: seq<Pair>)
    requires pairs != [] ==> Visible(PrintPair(f, pairs[0])) && Visible(PrintPairs(f, pairs[1..]))
    ensures Visible(Print(f, Object(pairs)))
  {
    hide PrintPairs, PrintPair;
    var inside := if pairs == [] then "" else PrintPair(f, pairs[0]) + PrintPairs(f, pairs[1..]);
    assert Print(f, Object(pairs)) == "{" + inside + "}";
    hide Print;
  }

  lemma {:induction false} ItemsAreVisible(f: FloatIo, items: seq<Value>)
    requires forall i :: 0 <= i < |items| ==> FloatsVisible(f, items[i])
    ensures Visible(PrintItems(f, items))
    decreases items, 1
  {
    hide Print, FloatsVisible;
    if items != [] {
      PrintIsVisible(f, items[0]);
      ItemsAreVisible(f, items[1..]);
    }
  }

  lemma PairIsVisible(f: FloatIo, p: Pair)
    requires FloatsVisible(f, p.value)
    ensures Visible(PrintPair(f, p))
    decreases p, 0
  {
    hide Print, Quote, FloatsVisible;
    QuoteIsVisible(p.key);
    PrintIsVisible(f, p.value);
  }

  lemma {:induction false} PairsAreVisible(f: FloatIo, pairs: seq<Pair>)
    requires forall i :: 0 <= i < |pairs| ==> FloatsVisible(f, pairs[i].value)
    ensures Visible(PrintPairs(f, pairs))
    decreases pairs, 1
  {
    hide PrintPair, FloatsVisible;
    if pairs != [] {
      PairIsVisible(f, pairs[0]);
      PairsAreVisible(f, pairs[1..]);
    }
  }

  /** Printed values hold no line feed: a line-based protocol can carry them. */
  lemma PrintIsOneLine(f: FloatIo, v: Value)
    requires FloatsVisible(f, v)
    ensures '\n' !in Print(f, v) && '\r' !in Print(f, v)
  {
    hide Print, FloatsVisible;
    PrintIsVisible(f, v);
  }

  // An integer without leading zeros (section 6).
  predicate IsInt(s: string) {
    || s == "0"
    || (s != "" && '1' <= s[0] <= '9' && forall i :: 0 <= i < |s| ==> '0' <= s[i] <= '9')
    || (|s| >= 2 && s[0] == '-' && '1' <= s[1] <= '9' && forall i :: 1 <= i < |s| ==> '0' <= s[i] <= '9')
  }

  lemma {:induction false} DecimalHead(n: nat)
    ensures n > 0 ==> '1' <= Decimal(n)[0] <= '9'
  {
    if n >= 10 {
      DecimalHead(n / 10);
    }
  }

  /** Whole numbers below 10^15 print as RFC 8259 integers, without fraction, exponent or leading zero. */
  lemma PrintedIntIsGrammatical(n: int)
    ensures IsInt(PrintInt(n))
  {
    DecimalHead(if n < 0 then -n else n);
    hide Decimal;
    if n == 0 {
      assert Decimal(0) == "0" by { ZeroIs(); }
    }
  }

  lemma ZeroIs()
    ensures Decimal(0) == "0"
  {
  }

  lemma EscapeCons(c: char, rest: string)
    ensures EscapeAll([c] + rest) == Escape(c) + EscapeAll(rest)
  {
    hide Escape;
    assert ([c] + rest)[1..] == rest;
  }

  lemma EscapesOfThree(a: char, b: char, c: char)
    ensures EscapeAll([a, b, c]) == Escape(a) + (Escape(b) + (Escape(c) + ""))
  {
    hide Escape;
    EscapeCons(c, "");
    EscapeCons(b, [c]);
    EscapeCons(a, [b, c]);
    assert [a] + [b, c] == [a, b, c] && [b] + [c] == [b, c] && [c] + "" == [c];
  }

  /** Every kind of escape, to the letter. */
  lemma PrintedString()
    ensures Quote("\"\\/") == "\"\\\"\\\\/\"" && Quote("\n\r\t") == "\"\\n\\r\\t\""
    ensures Quote([8 as char, 12 as char, 0x1F as char]) == "\"\\b\\f\\u001f\""
  {
    EscapesOfThree('"', '\\', '/');
    EscapesOfThree('\n', '\r', '\t');
    EscapesOfThree(8 as char, 12 as char, 0x1F as char);
    hide EscapeAll;
    assert Escape(0x1F as char) == "\\u001f";
  }

  lemma ItemsOfTwo(f: FloatIo, a: Value, b: Value)
    ensures PrintItems(f, [a, b]) == "," + Print(f, a) + ("," + Print(f, b) + "")
  {
    assert [a, b][1..] == [b] && [b][1..] == [];
    hide Print;
    assert PrintItems(f, []) == "";
    assert PrintItems(f, [b]) == "," + Print(f, b) + "";
  }

  lemma ArrayOfThree(f: FloatIo, a: Value, b: Value, c: Value)
    ensures Print(f, Array([a, b, c])) == "[" + (Print(f, a) + ("," + Print(f, b) + ("," + Print(f, c) + ""))) + "]"
  {
    assert [a, b, c][1..] == [b, c];
    ItemsOfTwo(f, b, c);
    hide PrintItems;
  }

  lemma ObjectOfTwo(f: FloatIo, p: Pair, q: Pair)
    ensures Print(f, Object([p, q]))
         == "{" + (Quote(p.key) + ":" + Print(f, p.value) + ("," + (Quote(q.key) + ":" + Print(f, q.value)) + "")) + "}"
  {
    assert [p, q][1..] == [q] && [q][1..] == [];
    hide Quote;
    assert PrintPairs(f, []) == "";
    assert PrintPairs(f, [q]) == "," + PrintPair(f, q) + "";
  }

  /** A printed value of every kind, to the letter: no white space, pairs and items in order. */
  lemma PrintedValue(f: FloatIo)
    ensures Print(f, Array([Num(0.0), Num(-12.0), Null])) == "[0,-12,null]"
    ensures Print(f, Object([Pair("a", Array([])), Pair("b", Bool(true))])) == "{\"a\":[],\"b\":true}"
    ensures Print(f, Array([Object([]), Bool(false), Str("x")])) == "[{},false,\"x\"]"
  {
    Simple(f);
    ArrayOfThree(f, Num(0.0), Num(-12.0), Null);
    ArrayOfThree(f, Object([]), Bool(false), Str("x"));
    ObjectOfTwo(f, Pair("a", Array([])), Pair("b", Bool(true)));
    hide Quote, PrintNum;
    assert Print(f, Array([])) == "[" + "" + "]" && Print(f, Object([])) == "{" + "" + "}";
    assert Print(f, Bool(true)) == "true" && Print(f, Bool(false)) == "false" && Print(f, Null) == "null";
    assert Print(f, Num(0.0)) == "0" && Print(f, Num(-12.0)) == "-12" && Print(f, Str("x")) == "\"x\"";
    hide Print;
  }

  lemma Simple(f: FloatIo)
    ensures Quote("a") == "\"a\"" && Quote("b") == "\"b\"" && Quote("c") == "\"c\"" && Quote("x") == "\"x\""
    ensures PrintNum(f, 0.0) == "0" && PrintNum(f, -12.0) == "-12"
  {
    assert "a"[1..] == "" && "b"[1..] == "" && "c"[1..] == "" && "x"[1..] == "";
    assert (-12.0).Floor == -12 && (0.0).Floor == 0;
    assert Decimal(12) == Decimal(1) + [Digit(2)];
  }
}
