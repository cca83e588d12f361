/**
 JSON values, their printed form and the recursive-descent parser (src/json.rs), as functions on the bytes
 still to be read. The parser object that runs these functions is in JsonParser.
 */
module Json {
  import opened Bytes
  import opened Text
  import opened Wrappers

  datatype Value =
    | Null
    | Bool(b: bool)
    | Num(x: real)
    | Str(s: string)
    | Array(items: seq<Value>)
    | Object(pairs: seq<Pair>)

  datatype Pair = Pair(key: string, value: Value)

  // How the host prints and parses the numbers that are not integers of at most 15 digits.
  datatype FloatIo = FloatIo(show: real -> string, parse: seq<byte> -> Option<real>)

  // ---- printing ----

  predicate IsShort(x: real) {
    x == x.Floor as real && -1_000_000_000_000_000.0 < x < 1_000_000_000_000_000.0
  }

  function Digit(d: nat): char
    requires d < 10
  {
    (48 + d) as char
  }

  function Decimal(n: nat): (s: string)
    ensures s != ""
    ensures forall i :: 0 <= i < |s| ==> '0' <= s[i] <= '9'
  {
    if n < 10 then [Digit(n)] else Decimal(n / 10) + [Digit(n % 10)]
  }

  function PrintInt(n: int): string { if n < 0 then "-" + Decimal(-n) else Decimal(n) }

  function PrintNum(f: FloatIo, x: real): string { if IsShort(x) then PrintInt(x.Floor) else f.show(x) }

  function HexDigit(d: nat): char
    requires d < 16
  {
    if d < 10 then (48 + d) as char else (87 + d) as char
  }

  // {:04x}
  function Hex4(n: nat): (s: string)
    requires n < 0x1_0000
    ensures |s| == 4
  {
    [HexDigit(n / 0x1000), HexDigit(n / 0x100 % 0x10), HexDigit(n / 0x10 % 0x10), HexDigit(n % 0x10)]
  }

  function Escape(c: char): string {
    if c == '"' then "\\\""
    else if c == '\\' then "\\\\"
    else if c == '\n' then "\\n"
    else if c == '\r' then "\\r"
    else if c == '\t' then "\\t"
    else if c as int == 0x08 then "\\b"
    else if c as int == 0x0C then "\\f"
    else if c as int < 0x20 then "\\u" + Hex4(c as int)
    else [c]
  }

  function EscapeAll(s: string): string {
    if s == "" then "" else Escape(s[0]) + EscapeAll(s[1..])
  }

  function Quote(s: string): string { "\"" + EscapeAll(s) + "\"" }

  function Print(f: FloatIo, v: Value): string {
    match v
    case Null => "null"
    case Bool(b) => if b then "true" else "false"
    case Num(x) => PrintNum(f, x)
    case Str(s) => Quote(s)
    case Array(items) => "[" + (if items == [] then "" else Print(f, items[0]) + PrintItems(f, items[1..])) + "]"
    case Object(pairs) =>
      "{" + (if pairs == [] then "" else PrintPair(f, pairs[0]) + PrintPairs(f, pairs[1..])) + "}"
  }

  function PrintPair(f: FloatIo, p: Pair): string { Quote(p.key) + ":" + Print(f, p.value) }

  // Each further element behind its comma.
  function PrintItems(f: FloatIo, items: seq<Value>): string {
    if items == [] then "" else "," + Print(f, items[0]) + PrintItems(f, items[1..])
  }

  function PrintPairs(f: FloatIo, pairs: seq<Pair>): string {
    if pairs == [] then "" else "," + PrintPair(f, pairs[0]) + PrintPairs(f, pairs[1..])
  }

  // ---- parsing ----

  datatype Error =
    | UnexpectedByte | UnexpectedEnd | Expected(c: char) | ExpectedCommaOrClose
    | UnterminatedString | UnterminatedEscape | BadEscape
    | TruncatedUtf8 | InvalidUtf8
    | LoneHighSurrogate | BadLowSurrogate | InvalidCodePoint | TruncatedHex | NonHex
    | InvalidNumber | InvalidLiteral | TrailingData

  datatype Parsed<+T> = Done(value: T, rest: seq<byte>) | Fail(error: Error)

  predicate Advances<T>(r: Parsed<T>, s: seq<byte>) { r.Done? ==> |r.rest| < |s| }

  predicate IsWs(c: byte) { c == 32 || c == 9 || c == 10 || c == 13 }

  function SkipWs(s: seq<byte>): (r: seq<byte>)
    ensures |r| <= |s|
  {
    if s != [] && IsWs(s[0]) then SkipWs(s[1..]) else s
  }

  predicate Peeks(s: seq<byte>, c: char) { s != [] && s[0] == c as int }

  predicate IsDigit(c: byte) { 48 <= c <= 57 }

  predicate IsNumberByte(c: byte) {
    IsDigit(c) || c == '.' as int || c == 'e' as int || c == 'E' as int || c == '+' as int || c == '-' as int
  }

  function ScanNumber(s: seq<byte>): (n: nat)
    ensures n <= |s|
  {
    if s != [] && IsNumberByte(s[0]) then 1 + ScanNumber(s[1..]) else 0
  }

  function DigitsValue(s: seq<byte>): nat
    requires forall i :: 0 <= i < |s| ==> IsDigit(s[i])
  {
    if s == [] then 0
    else
      assert IsDigit(s[|s| - 1]);
      var digit: int := s[|s| - 1] as int - 48;
      10 * DigitsValue(s[..|s| - 1]) + digit
  }

  predicate AreDigits(s: seq<byte>) { 1 <= |s| <= 15 && forall i :: 0 <= i < |s| ==> IsDigit(s[i]) }

  predicate IsShortText(text: seq<byte>) {
    AreDigits(text) || (Peeks(text, '-') && AreDigits(text[1..]))
  }

  function ShortValue(text: seq<byte>): int
    requires IsShortText(text)
  {
    if AreDigits(text) then DigitsValue(text) else 0 - DigitsValue(text[1..])
  }

  function ParseNumber(f: FloatIo, text: seq<byte>): Option<real> {
    if IsShortText(text) then Some(ShortValue(text) as real) else f.parse(text)
  }

  // An optional minus sign, then the longest run of number bytes.
  function NumberLength(s: seq<byte>): (n: nat)
    ensures n <= |s|
  {
    if Peeks(s, '-') then 1 + ScanNumber(s[1..]) else ScanNumber(s)
  }

  function PNumber(f: FloatIo, s: seq<byte>): (r: Parsed<Value>)
    requires s != [] && (s[0] == '-' as int || IsDigit(s[0]))
    ensures Advances(r, s)
  {
    var n := NumberLength(s);
    match ParseNumber(f, s[..n])
    case Some(x) => Done(Num(x), s[n..])
    case None => Fail(InvalidNumber)
  }

  // char::to_digit(16)
  function HexValue(c: byte): Option<nat> {
    if IsDigit(c) then Some(c - 48)
    else if 97 <= c <= 102 then Some(c - 87)
    else if 65 <= c <= 70 then Some(c - 55)
    else None
  }

  function PHex(s: seq<byte>, digits: nat, v: nat): (r: Parsed<nat>)
    decreases digits
    ensures r.Done? ==> |r.rest| <= |s|
  {
    if digits == 0 then Done(v, s)
    else if s == [] then Fail(TruncatedHex)
    else
      match HexValue(s[0])
      case Some(d) => PHex(s[1..], digits - 1, v * 16 + d)
      case None => Fail(NonHex)
  }

  function CodePoint(cp: int): Option<char> { if IsScalar(cp) then Some(cp as char) else None }

  function PUnicode(s: seq<byte>): (r: Parsed<char>)
    ensures r.Done? ==> |r.rest| <= |s|
  {
    match PHex(s, 4, 0)
    case Fail(e) => Fail(e)
    case Done(hi, rest) =>
      if 0xD800 <= hi <= 0xDBFF then
        if !Peeks(rest, '\\') then Fail(LoneHighSurrogate)
        else if !Peeks(rest[1..], 'u') then Fail(Expected('u'))
        else
          match PHex(rest[2..], 4, 0)
          case Fail(e) => Fail(e)
          case Done(lo, last) =>
            if !(0xDC00 <= lo <= 0xDFFF) then Fail(BadLowSurrogate)
            else
              match CodePoint(0x1_0000 + (hi - 0xD800) * 0x400 + (lo - 0xDC00))
              case Some(c) => Done(c, last)
              case None => Fail(InvalidCodePoint)
      else
        match CodePoint(hi)
        case Some(c) => Done(c, rest)
        case None => Fail(InvalidCodePoint)
  }

  function SimpleEscape(e: byte): Option<char> {
    if e == '"' as int then Some('"')
    else if e == '\\' as int then Some('\\')
    else if e == '/' as int then Some('/')
    else if e == 'n' as int then Some('\n')
    else if e == 'r' as int then Some('\r')
    else if e == 't' as int then Some('\t')
    else if e == 'b' as int then Some(8 as char)
    else if e == 'f' as int then Some(12 as char)
    else None
  }

  // One character of a string literal, escaped or raw.
  function PChar(s: seq<byte>): (r: Parsed<char>)
    requires s != [] && s[0] != '"' as int
    ensures Advances(r, s)
  {
    if s[0] == '\\' as int then
      if |s| < 2 then Fail(UnterminatedEscape)
      else if s[1] == 'u' as int then PUnicode(s[2..])
      else
        match SimpleEscape(s[1])
        case Some(c) => Done(c, s[2..])
        case None => Fail(BadEscape)
    else
      var n := 1 + Utf8Extra(s[0]);
      if n > |s| then Fail(TruncatedUtf8)
      else
        match DecodeOne(s[..n])
        case Some(c) => Done(c, s[n..])
        case None => Fail(InvalidUtf8)
  }

  function PChars(s: seq<byte>, out: string): (r: Parsed<string>)
    decreases |s|
    ensures Advances(r, s)
  {
    if s == [] then Fail(UnterminatedString)
    else if s[0] == '"' as int then Done(out, s[1..])
    else
      match PChar(s)
      case Done(c, rest) => PChars(rest, out + [c])
      case Fail(e) => Fail(e)
  }

  function PString(s: seq<byte>): (r: Parsed<string>)
    ensures Advances(r, s)
  {
    if Peeks(s, '"') then PChars(s[1..], "") else Fail(Expected('"'))
  }

  function TRUE(): seq<byte> { Utf8All("true") }
  function FALSE(): seq<byte> { Utf8All("false") }
  function NULL(): seq<byte> { Utf8All("null") }

  function PBoolean(s: seq<byte>): (r: Parsed<Value>)
    ensures Advances(r, s)
  {
    if TRUE() <= s then assert |TRUE()| > 0; Done(Bool(true), s[|TRUE()|..])
    else if FALSE() <= s then assert |FALSE()| > 0; Done(Bool(false), s[|FALSE()|..])
    else Fail(InvalidLiteral)
  }

  function PNull(s: seq<byte>): (r: Parsed<Value>)
    ensures Advances(r, s)
  {
    if NULL() <= s then assert |NULL()| > 0; Done(Null, s[|NULL()|..]) else Fail(InvalidLiteral)
  }

  function PValue(f: FloatIo, s: seq<byte>): (r: Parsed<Value>)
    decreases |s|, 1
    ensures Advances(r, s)
  {
    if s == [] then Fail(UnexpectedEnd)
    else if s[0] == '{' as int then PObject(f, s)
    else if s[0] == '[' as int then PArray(f, s)
    else if s[0] == '"' as int then
      match PString(s)
      case Done(t, rest) => Done(Str(t), rest)
      case Fail(e) => Fail(e)
    else if s[0] == 't' as int || s[0] == 'f' as int then PBoolean(s)
    else if s[0] == 'n' as int then PNull(s)
    else if s[0] == '-' as int || IsDigit(s[0]) then PNumber(f, s)
    else Fail(UnexpectedByte)
  }

  function PArray(f: FloatIo, s: seq<byte>): (r: Parsed<Value>)
    decreases |s|, 0
    ensures Advances(r, s)
  {
    if !Peeks(s, '[') then Fail(Expected('['))
    else
      var inside := SkipWs(s[1..]);
      if Peeks(inside, ']') then Done(Array([]), inside[1..]) else PItems(f, inside, [])
  }

  function PItems(f: FloatIo, s: seq<byte>, items: seq<Value>): (r: Parsed<Value>)
    decreases |s|, 2
    ensures Advances(r, s)
  {
    match PValue(f, SkipWs(s))
    case Fail(e) => Fail(e)
    case Done(v, rest) =>
      var next := SkipWs(rest);
      if Peeks(next, ',') then PItems(f, next[1..], items + [v])
      else if Peeks(next, ']') then Done(Array(items + [v]), next[1..])
      else Fail(ExpectedCommaOrClose)
  }

  function PObject(f: FloatIo, s: seq<byte>): (r: Parsed<Value>)
    decreases |s|, 0
    ensures Advances(r, s)
  {
    if !Peeks(s, '{') then Fail(Expected('{'))
    else
      var inside := SkipWs(s[1..]);
      if Peeks(inside, '}') then Done(Object([]), inside[1..]) else PPairs(f, inside, [])
  }

  function PPairs(f: FloatIo, s: seq<byte>, pairs: seq<Pair>): (r: Parsed<Value>)
    decreases |s|, 2
    ensures Advances(r, s)
  {
    match PPair(f, SkipWs(s))
    case Fail(e) => Fail(e)
    case Done(p, rest) =>
      var next := SkipWs(rest);
      if Peeks(next, ',') then PPairs(f, next[1..], pairs + [p])
      else if Peeks(next, '}') then Done(Object(pairs + [p]), next[1..])
      else Fail(ExpectedCommaOrClose)
  }

  function PPair(f: FloatIo, s: seq<byte>): (r: Parsed<Pair>)
    decreases |s|, 1
    ensures Advances(r, s)
  {
    match PString(s)
    case Fail(e) => Fail(e)
    case Done(key, rest) =>
      var colon := SkipWs(rest);
      if !Peeks(colon, ':') then Fail(Expected(':'))
      else
        match PValue(f, SkipWs(colon[1..]))
        case Fail(e) => Fail(e)
        case Done(v, last) => Done(Pair(key, v), last)
  }

  function Parse(f: FloatIo, s: seq<byte>): Result<Value, Error> {
    match PValue(f, SkipWs(s))
    case Fail(e) => Err(e)
    case Done(v, rest) => if SkipWs(rest) == [] then Ok(v) else Err(TrailingData)
  }
}
