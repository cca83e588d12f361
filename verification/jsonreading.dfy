/**
 Texts that the parser reads and the printer never writes (RFC 8259): every spelling of a string, and white space
 around every token.
 */
module JsonReading {
  import opened Bytes
  import opened Text
  import opened Json
  import opened JsonRoundTrip
  import opened JsonText
  import opened Wrappers

  // ---- every spelling of a string ----

  lemma NibbleIsHexValue(c: char)
    requires c as int < 0x80
    ensures HexValue(c as int) == if Nibble(c) >= 0 then Some(Nibble(c)) else None
  {
  }

  // Four digits of either case.
  lemma HexReads(digits: string, tail: seq<byte>)
    requires IsHex4(digits)
    ensures IsAscii(digits) && PHex(Utf8All(digits) + tail, 4, 0) == Done(Hex4Value(digits), tail)
  {
    AsciiBytes(digits);
    var s := Utf8All(digits) + tail;
    forall i | 0 <= i < 4 ensures HexValue(s[i]) == Some(Nibble(digits[i])) { NibbleIsHexValue(digits[i]); }
    hide HexValue, Nibble, Utf8All;
    var d3, d2, d1, d0 := Nibble(digits[0]), Nibble(digits[1]), Nibble(digits[2]), Nibble(digits[3]);
    assert PHex(s, 4, 0) == PHex(s[1..], 3, d3);
    assert PHex(s[1..], 3, d3) == PHex(s[2..], 2, d3 * 16 + d2) by { assert s[1..][1..] == s[2..]; }
    var v := d3 * 16 + d2;
    assert PHex(s[2..], 2, v) == PHex(s[3..], 1, v * 16 + d1) by { assert s[2..][1..] == s[3..]; }
    assert PHex(s[3..], 1, v * 16 + d1) == PHex(s[4..], 0, (v * 16 + d1) * 16 + d0) by { assert s[3..][1..] == s[4..]; }
    assert s[4..] == tail;
  }

  lemma UnicodeBytes(digits: string, tail: seq<byte>)
    ensures Utf8All(['\\', 'u'] + digits) + tail == ['\\' as int, 'u' as int] + (Utf8All(digits) + tail)
  {
    AsciiBytes("\\u");
    assert Utf8All("\\u") == ['\\' as int, 'u' as int];
    hide Utf8All;
    Utf8Concat("\\u", digits);
    assert ['\\', 'u'] == "\\u";
  }

  lemma EscapedUnicode(s: seq<byte>)
    ensures PChar(['\\' as int, 'u' as int] + s) == PUnicode(s)
  {
    hide PUnicode;
    assert (['\\' as int, 'u' as int] + s)[2..] == s;
  }

  lemma HexUnitReads(digits: string, tail: seq<byte>)
    requires Fine(Hex(digits))
    ensures PChar(Utf8All(['\\', 'u'] + digits) + tail) == Done(UnitMeaning(Hex(digits)), tail)
  {
    hide Utf8All, PHex, PChar;
    HexReads(digits, tail);
    UnicodeBytes(digits, tail);
    EscapedUnicode(Utf8All(digits) + tail);
  }

  lemma SurrogateUnitReads(high: string, low: string, tail: seq<byte>)
    requires Fine(Surrogates(high, low))
    ensures PChar(Utf8All(['\\', 'u'] + high + ['\\', 'u'] + low) + tail) == Done(UnitMeaning(Surrogates(high, low)), tail)
  {
    var middle := Utf8All(low) + tail;
    hide Utf8All, PHex, PChar, PUnicode, IsHex4, Hex4Value;
    HexReads(low, tail);
    HexReads(high, ['\\' as int, 'u' as int] + middle);
    Utf8Concat(['\\', 'u'] + high, ['\\', 'u'] + low);
    assert ['\\', 'u'] + high + (['\\', 'u'] + low) == ['\\', 'u'] + high + ['\\', 'u'] + low;
    UnicodeBytes(low, tail);
    UnicodeBytes(high, ['\\' as int, 'u' as int] + middle);
    var s := Utf8All(high) + (['\\' as int, 'u' as int] + middle);
    SurrogatesRead(Hex4Value(high), Hex4Value(low), s, middle, tail);
    EscapedUnicode(s);
    assert Utf8All(['\\', 'u'] + high + ['\\', 'u'] + low) + tail == ['\\' as int, 'u' as int] + s;
  }

  lemma UnitReads(u: Unit, tail: seq<byte>)
    requires Fine(u)
    ensures var s := Utf8All(UnitText(u)) + tail;
            Utf8All(UnitText(u)) != [] && s[0] != '"' as int && PChar(s) == Done(UnitMeaning(u), tail)
  {
    hide Utf8All, PChar;
    match u {
      case Plain(c) =>
        Utf8One(c);
        PlainChar(c, tail);
      case Short(e) =>
        EscapedChar(ShortMeaning(e).value, e, tail);
      case Hex(digits) =>
        HexUnitReads(digits, tail);
        UnicodeBytes(digits, []);
        assert Utf8All(['\\', 'u'] + digits) + [] == Utf8All(['\\', 'u'] + digits);
      case Surrogates(high, low) =>
        SurrogateUnitReads(high, low, tail);
        var rest := high + ['\\', 'u'] + low;
        UnicodeBytes(rest, []);
        assert ['\\', 'u'] + high + ['\\', 'u'] + low == ['\\', 'u'] + rest;
        assert Utf8All(['\\', 'u'] + rest) + [] == Utf8All(['\\', 'u'] + rest);
    }
  }

  lemma {:induction false} UnitsRead(us: seq<Unit>, out: string, post: seq<byte>)
    requires AllFine(us)
    ensures PChars(Utf8All(UnitsText(us) + "\"") + post, out) == Done(out + UnitsMeaning(us), post)
  {
    hide Utf8All, UnitText, PChar, Fine, UnitMeaning;
    if us == [] {
      AsciiBytes("\"");
      assert (Utf8All("\"") + post)[1..] == post;
      assert UnitsText(us) + "\"" == "\"";
      assert out + "" == out;
    } else {
      var u, rest := us[0], us[1..];
      var tail := Utf8All(UnitsText(rest) + "\"") + post;
      Utf8Concat(UnitText(u), UnitsText(rest) + "\"");
      assert UnitText(u) + (UnitsText(rest) + "\"") == UnitsText(us) + "\"";
      assert Utf8All(UnitsText(us) + "\"") + post == Utf8All(UnitText(u)) + tail;
      UnitReads(u, tail);
      UnitsRead(rest, out + [UnitMeaning(u)], post);
      assert out + [UnitMeaning(u)] + UnitsMeaning(rest) == out + UnitsMeaning(us);
    }
  }

  /**
   Every string of the grammar is read as what it means: characters as they are, the eight short escapes, four
   hexadecimal digits of either case, and surrogate pairs, in any mixture.
   */
  lemma EverySpellingIsRead(us: seq<Unit>, post: seq<byte>)
    requires AllFine(us)
    ensures PString(Utf8All("\"" + UnitsText(us) + "\"") + post) == Done(UnitsMeaning(us), post)
  {
    Utf8One('"');
    hide Utf8All, UnitsText, UnitsMeaning, PChars, AllFine;
    Utf8Concat("\"", UnitsText(us) + "\"");
    assert "\"" + (UnitsText(us) + "\"") == "\"" + UnitsText(us) + "\"";
    UnitsRead(us, "", post);
    var body := Utf8All(UnitsText(us) + "\"");
    assert (['"' as int] + body + post)[1..] == body + post;
    assert "" + UnitsMeaning(us) == UnitsMeaning(us);
  }

  /** A backslash before anything else than these eight letters or `u` is an error. */
  lemma OtherEscapesFail(e: byte, tail: seq<byte>)
    requires e != 117
    ensures PChar([92, e] + tail).Done? <==> e in {34, 47, 92, 98, 102, 110, 114, 116}
    ensures e !in {34, 47, 92, 98, 102, 110, 114, 116} ==> PChar([92, e] + tail) == Fail(BadEscape)
  {
    hide PUnicode;
    assert ([92, e] + tail)[1] == e;
  }

  // ---- white space around every token ----

  // Space, tab, line feed and carriage return (section 2).
  predicate White(w: seq<byte>) { forall i :: 0 <= i < |w| ==> w[i] in {32, 9, 10, 13} }

  /** Nothing else is skipped between tokens. */
  lemma WhiteIff(c: byte)
    ensures IsWs(c) <==> c in {32, 9, 10, 13}
    ensures !IsWs(c) ==> forall s: seq<byte> :: SkipWs([c] + s) == [c] + s
  {
  }

  // The white space of one value: in empty brackets, and around each item or around each key and value.
  datatype Layout = Layout(inside: seq<byte>, kids: seq<Gaps>)
  datatype Gaps = Gaps(before: seq<byte>, afterKey: seq<byte>, afterColon: seq<byte>, layout: Layout, after: seq<byte>)

  predicate AllWhite(g: Gaps) { White(g.before) && White(g.afterKey) && White(g.afterColon) && White(g.after) }

  predicate LaysOut(v: Value, l: Layout) {
    match v
    case Array(items) =>
      White(l.inside) && |l.kids| == |items|
      && forall i :: 0 <= i < |items| ==> AllWhite(l.kids[i]) && LaysOut(items[i], l.kids[i].layout)
    case Object(pairs) =>
      White(l.inside) && |l.kids| == |pairs|
      && forall i :: 0 <= i < |pairs| ==> AllWhite(l.kids[i]) && LaysOut(pairs[i].value, l.kids[i].layout)
    case _ => true
  }

  // A value written with this white space.
  function Spaced(f: FloatIo, v: Value, l: Layout): seq<byte>
    requires LaysOut(v, l)
    decreases v, 0
  {
    match v
    case Array(items) => if items == [] then [91] + l.inside + [93] else [91] + SpacedItems(f, items, l.kids)
    case Object(pairs) => if pairs == [] then [123] + l.inside + [125] else [123] + SpacedPairs(f, pairs, l.kids)
    case _ => Printed(f, v)
  }

  predicate ItemsFit(items: seq<Value>, gaps: seq<Gaps>) {
    |items| == |gaps| && forall i :: 0 <= i < |items| ==> AllWhite(gaps[i]) && LaysOut(items[i], gaps[i].layout)
  }

  predicate PairsFit(pairs: seq<Pair>, gaps: seq<Gaps>) {
    |pairs| == |gaps| && forall i :: 0 <= i < |pairs| ==> AllWhite(gaps[i]) && LaysOut(pairs[i].value, gaps[i].layout)
  }

  function SpacedItems(f: FloatIo, items: seq<Value>, gaps: seq<Gaps>): seq<byte>
    requires items != [] && ItemsFit(items, gaps)
    decreases items, 1
  {
    gaps[0].before + (Spaced(f, items[0], gaps[0].layout) + (gaps[0].after
    + (if |items| == 1 then [93] else [44] + SpacedItems(f, items[1..], gaps[1..]))))
  }

  function SpacedPairs(f: FloatIo, pairs: seq<Pair>, gaps: seq<Gaps>): seq<byte>
    requires pairs != [] && PairsFit(pairs, gaps)
    decreases pairs, 1
  {
    var g := gaps[0];
    g.before + (Utf8All(Quote(pairs[0].key)) + (g.afterKey + ([58] + (g.afterColon
    + (Spaced(f, pairs[0].value, g.layout) + (g.after
    + (if |pairs| == 1 then [125] else [44] + SpacedPairs(f, pairs[1..], gaps[1..]))))))))
  }

  lemma {:induction false} SkipWhite(w: seq<byte>, s: seq<byte>)
    requires White(w) && (s == [] || !IsWs(s[0]))
    ensures SkipWs(w + s) == s
  {
    if w == [] {
      assert w + s == s;
      SkipNothing(s);
    } else {
      assert (w + s)[1..] == w[1..] + s;
      SkipWhite(w[1..], s);
    }
  }

  // White space and punctuation end a number.
  lemma WhiteEndsNumber(w: seq<byte>, c: byte, s: seq<byte>)
    requires White(w) && c in {44, 93, 125}
    ensures EndsNumber(w + ([c] + s))
    ensures SkipWs(w + ([c] + s)) == [c] + s
  {
    SkipWhite(w, [c] + s);
  }

  lemma ItemsSkip(f: FloatIo, s: seq<byte>, acc: seq<Value>, start: seq<byte>)
    requires SkipWs(s) == start && SkipWs(start) == start
    ensures PItems(f, s, acc) == PItems(f, start, acc)
  {
    hide PValue;
  }

  lemma PairsSkip(f: FloatIo, s: seq<byte>, acc: seq<Pair>, start: seq<byte>)
    requires SkipWs(s) == start && SkipWs(start) == start
    ensures PPairs(f, s, acc) == PPairs(f, start, acc)
  {
    hide PPair;
  }

  // One item with white space around it.
  lemma ItemReads(f: FloatIo, before: seq<byte>, text: seq<byte>, after: seq<byte>, c: byte, more: seq<byte>,
                  acc: seq<Value>, v: Value)
    requires White(before) && White(after) && c in {44, 93} && StartsValue(text)
    requires PValue(f, text + (after + ([c] + more))) == Done(v, after + ([c] + more))
    ensures PItems(f, before + (text + (after + ([c] + more))), acc) ==
            if c == 44 then PItems(f, more, acc + [v]) else Done(Array(acc + [v]), more)
    ensures SkipWs(before + (text + (after + ([c] + more)))) == text + (after + ([c] + more))
  {
    hide PValue;
    var rest := after + ([c] + more);
    SkipWhite(before, text + rest);
    WhiteEndsNumber(after, c, more);
    assert ([c] + more)[1..] == more;
  }

  lemma PairReads(f: FloatIo, key: string, g: Gaps, text: seq<byte>, v: Value, rest: seq<byte>)
    requires AllWhite(g) && StartsValue(text) && PValue(f, text + rest) == Done(v, rest)
    ensures PPair(f, Utf8All(Quote(key)) + (g.afterKey + ([58] + (g.afterColon + (text + rest))))) == Done(Pair(key, v), rest)
  {
    hide PValue, PString, Utf8All, Quote;
    var value := g.afterColon + (text + rest);
    StringRoundTrip(key, g.afterKey + ([58] + value));
    SkipWhite(g.afterKey, [58] + value);
    assert ([58] + value)[1..] == value;
    SkipWhite(g.afterColon, text + rest);
  }

  lemma PairsStep(f: FloatIo, before: seq<byte>, text: seq<byte>, after: seq<byte>, c: byte, more: seq<byte>,
                  acc: seq<Pair>, p: Pair)
    requires White(before) && White(after) && c in {44, 125} && StartsValue(text)
    requires PPair(f, text + (after + ([c] + more))) == Done(p, after + ([c] + more))
    ensures PPairs(f, before + (text + (after + ([c] + more))), acc) ==
            if c == 44 then PPairs(f, more, acc + [p]) else Done(Object(acc + [p]), more)
    ensures SkipWs(before + (text + (after + ([c] + more)))) == text + (after + ([c] + more))
  {
    hide PPair;
    var rest := after + ([c] + more);
    SkipWhite(before, text + rest);
    WhiteEndsNumber(after, c, more);
    assert ([c] + more)[1..] == more;
  }

  // What follows an item: a comma and the next ones, or the closing bracket.
  function ItemsAfter(f: FloatIo, items: seq<Value>, gaps: seq<Gaps>, post: seq<byte>): (r: seq<byte>)
    requires items != [] && ItemsFit(items, gaps)
  {
    if |items| == 1 then [93] + post else [44] + (SpacedItems(f, items[1..], gaps[1..]) + post)
  }

  lemma ItemsParts(f: FloatIo, items: seq<Value>, gaps: seq<Gaps>, post: seq<byte>)
    requires items != [] && ItemsFit(items, gaps)
    ensures SpacedItems(f, items, gaps) + post
         == gaps[0].before + (Spaced(f, items[0], gaps[0].layout) + (gaps[0].after + ItemsAfter(f, items, gaps, post)))
  {
    hide Spaced;
  }

  lemma {:induction false} SpacedItemsRead(f: FloatIo, items: seq<Value>, gaps: seq<Gaps>, acc: seq<Value>, post: seq<byte>)
    requires items != [] && ItemsFit(items, gaps) && forall i :: 0 <= i < |items| ==> Printable(f, items[i])
    ensures PItems(f, SpacedItems(f, items, gaps) + post, acc) == Done(Array(acc + items), post)
    ensures StartsValue(SkipWs(SpacedItems(f, items, gaps) + post))
    decreases items, 1
  {
    hide Spaced, SpacedItems, Printable, PValue, PItems, SkipWs, AllWhite, LaysOut;
    var g, text, tail := gaps[0], Spaced(f, items[0], gaps[0].layout), ItemsAfter(f, items, gaps, post);
    ItemsParts(f, items, gaps, post);
    assert White(g.before) && White(g.after) by { GapsAreWhite(g); }
    var more := if |items| == 1 then post else SpacedItems(f, items[1..], gaps[1..]) + post;
    var c: byte := if |items| == 1 then 93 else 44;
    assert tail == [c] + more;
    WhiteEndsNumber(g.after, c, more);
    SpacedReads(f, items[0], g.layout, g.after + ([c] + more));
    ItemReads(f, g.before, text, g.after, c, more, acc, items[0]);
    if |items| == 1 {
      assert acc + [items[0]] == acc + items;
    } else {
      SpacedItemsRead(f, items[1..], gaps[1..], acc + [items[0]], post);
      assert acc + [items[0]] + items[1..] == acc + items;
    }
  }

  lemma GapsAreWhite(g: Gaps)
    requires AllWhite(g)
    ensures White(g.before) && White(g.afterKey) && White(g.afterColon) && White(g.after)
  {
  }

  function PairsAfter(f: FloatIo, pairs: seq<Pair>, gaps: seq<Gaps>, post: seq<byte>): (r: seq<byte>)
    requires pairs != [] && PairsFit(pairs, gaps)
  {
    if |pairs| == 1 then [125] + post else [44] + (SpacedPairs(f, pairs[1..], gaps[1..]) + post)
  }

  // A key and its value with the white space between them.
  function SpacedPair(f: FloatIo, p: Pair, g: Gaps): seq<byte>
    requires LaysOut(p.value, g.layout)
  {
    Utf8All(Quote(p.key)) + (g.afterKey + ([58] + (g.afterColon + Spaced(f, p.value, g.layout))))
  }

  lemma PairsParts(f: FloatIo, pairs: seq<Pair>, gaps: seq<Gaps>, post: seq<byte>)
    requires pairs != [] && PairsFit(pairs, gaps)
    ensures SpacedPairs(f, pairs, gaps) + post
         == gaps[0].before + (SpacedPair(f, pairs[0], gaps[0]) + (gaps[0].after + PairsAfter(f, pairs, gaps, post)))
  {
    assert LaysOut(pairs[0].value, gaps[0].layout);
    hide *;
    var g, q := gaps[0], Utf8All(Quote(pairs[0].key));
    var x := Spaced(f, pairs[0].value, g.layout);
    var tail := PairsTail(f, pairs, gaps);
    SpacedPairsIs(f, pairs, gaps);
    SpacedPairIs(f, pairs[0], g);
    PairsTailIs(f, pairs, gaps, post);
    PairRegroup(g.before, q, g.afterKey, g.afterColon, x, g.after, tail, post);
  }

  function PairsTail(f: FloatIo, pairs: seq<Pair>, gaps: seq<Gaps>): seq<byte>
    requires pairs != [] && PairsFit(pairs, gaps)
  {
    if |pairs| == 1 then [125] else [44] + SpacedPairs(f, pairs[1..], gaps[1..])
  }

  lemma PairsTailIs(f: FloatIo, pairs: seq<Pair>, gaps: seq<Gaps>, post: seq<byte>)
    requires pairs != [] && PairsFit(pairs, gaps)
    ensures PairsTail(f, pairs, gaps) + post == PairsAfter(f, pairs, gaps, post)
  {
    hide SpacedPairs, LaysOut, AllWhite;
  }

  lemma SpacedPairsIs(f: FloatIo, pairs: seq<Pair>, gaps: seq<Gaps>)
    requires pairs != [] && PairsFit(pairs, gaps)
    ensures var g, tail := gaps[0], PairsTail(f, pairs, gaps);
            SpacedPairs(f, pairs, gaps)
            == g.before + (Utf8All(Quote(pairs[0].key)) + (g.afterKey + ([58] + (g.afterColon
               + (Spaced(f, pairs[0].value, g.layout) + (g.after + tail))))))
  {
    hide Spaced, Utf8All, Quote;
  }

  lemma SpacedPairIs(f: FloatIo, p: Pair, g: Gaps)
    requires LaysOut(p.value, g.layout)
    ensures SpacedPair(f, p, g)
         == Utf8All(Quote(p.key)) + (g.afterKey + ([58] + (g.afterColon + Spaced(f, p.value, g.layout))))
  {
    hide Spaced, Utf8All, Quote;
  }

  lemma PairRegroup(a: seq<byte>, q: seq<byte>, b: seq<byte>, c: seq<byte>, x: seq<byte>, d: seq<byte>, t: seq<byte>,
                    post: seq<byte>)
    ensures a + (q + (b + ([58] + (c + (x + (d + t)))))) + post
         == a + ((q + (b + ([58] + (c + x)))) + (d + (t + post)))
  {
    assert (q + (b + ([58] + (c + x)))) + (d + (t + post)) == q + (b + ([58] + (c + (x + (d + (t + post))))));
  }

  lemma QuoteStarts(key: string, s: seq<byte>)
    ensures StartsValue(Utf8All(Quote(key)) + s)
  {
    hide Utf8All, Quote, PString;
    StringRoundTrip(key, s);
  }

  lemma {:induction false} SpacedPairRead(f: FloatIo, p: Pair, g: Gaps, rest: seq<byte>)
    requires AllWhite(g) && LaysOut(p.value, g.layout) && Printable(f, p.value) && EndsNumber(rest)
    ensures StartsValue(SpacedPair(f, p, g)) && PPair(f, SpacedPair(f, p, g) + rest) == Done(p, rest)
    decreases p, 1
  {
    hide Spaced, Printable, PValue, PPair, Utf8All, Quote, AllWhite, LaysOut;
    var q, x := Utf8All(Quote(p.key)), Spaced(f, p.value, g.layout);
    SpacedReads(f, p.value, g.layout, rest);
    PairReads(f, p.key, g, x, p.value, rest);
    QuoteStarts(p.key, g.afterKey + ([58] + (g.afterColon + x)));
    assert SpacedPair(f, p, g) + rest == q + (g.afterKey + ([58] + (g.afterColon + (x + rest))));
  }

  lemma {:induction false} SpacedPairsRead(f: FloatIo, pairs: seq<Pair>, gaps: seq<Gaps>, acc: seq<Pair>, post: seq<byte>)
    requires pairs != [] && PairsFit(pairs, gaps) && forall i :: 0 <= i < |pairs| ==> Printable(f, pairs[i].value)
    ensures PPairs(f, SpacedPairs(f, pairs, gaps) + post, acc) == Done(Object(acc + pairs), post)
    ensures StartsValue(SkipWs(SpacedPairs(f, pairs, gaps) + post))
    decreases pairs, 2
  {
    hide SpacedPair, SpacedPairs, Printable, PPair, PPairs, SkipWs, AllWhite, LaysOut;
    var g, text, tail := gaps[0], SpacedPair(f, pairs[0], gaps[0]), PairsAfter(f, pairs, gaps, post);
    PairsParts(f, pairs, gaps, post);
    assert White(g.before) && White(g.after) by { GapsAreWhite(g); }
    var more := if |pairs| == 1 then post else SpacedPairs(f, pairs[1..], gaps[1..]) + post;
    var c: byte := if |pairs| == 1 then 125 else 44;
    assert tail == [c] + more;
    WhiteEndsNumber(g.after, c, more);
    SpacedPairRead(f, pairs[0], g, g.after + ([c] + more));
    PairsStep(f, g.before, text, g.after, c, more, acc, pairs[0]);
    if |pairs| == 1 {
      assert acc + [pairs[0]] == acc + pairs;
    } else {
      SpacedPairsRead(f, pairs[1..], gaps[1..], acc + [pairs[0]], post);
      assert acc + [pairs[0]] + pairs[1..] == acc + pairs;
    }
  }

  lemma EmptySpaced(f: FloatIo, w: seq<byte>, post: seq<byte>)
    requires White(w)
    ensures PValue(f, [91] + w + [93] + post) == Done(Array([]), post)
    ensures PValue(f, [123] + w + [125] + post) == Done(Object([]), post)
  {
    var a, o := [91] + w + [93] + post, [123] + w + [125] + post;
    WhiteEndsNumber(w, 93, post);
    WhiteEndsNumber(w, 125, post);
    hide SkipWs, White, EndsNumber;
    assert a[1..] == w + ([93] + post) && o[1..] == w + ([125] + post);
    assert ([93] + post)[1..] == post && ([125] + post)[1..] == post;
  }

  lemma OpenSpaced(f: FloatIo, open: byte, inside: seq<byte>)
    requires StartsValue(SkipWs(inside)) && open in {91, 123}
    ensures PValue(f, [open] + inside) == if open == 91 then PItems(f, inside, []) else PPairs(f, inside, [])
  {
    SkipNothing(SkipWs(inside));
    ItemsSkip(f, inside, [], SkipWs(inside));
    PairsSkip(f, inside, [], SkipWs(inside));
    hide PItems, PPairs, SkipWs;
    assert ([open] + inside)[1..] == inside;
  }

  /** White space around the tokens does not change what is read, nor where reading stops. */
  lemma {:induction false} SpacedReads(f: FloatIo, v: Value, l: Layout, post: seq<byte>)
    requires LaysOut(v, l) && Printable(f, v) && EndsNumber(post)
    ensures StartsValue(Spaced(f, v, l)) && PValue(f, Spaced(f, v, l) + post) == Done(v, post)
    decreases v, 0
  {
    hide PValue, PItems, PPairs, SpacedItems, SpacedPairs, SkipWs, Printed, White;
    match v {
      case Array(items) =>
        if items == [] {
          EmptySpaced(f, l.inside, post);
        } else {
          SpacedItemsRead(f, items, l.kids, [], post);
          OpenSpaced(f, 91, SpacedItems(f, items, l.kids) + post);
          assert [91] + SpacedItems(f, items, l.kids) + post == [91] + (SpacedItems(f, items, l.kids) + post);
          assert [] + items == items;
        }
      case Object(pairs) =>
        if pairs == [] {
          EmptySpaced(f, l.inside, post);
        } else {
          SpacedPairsRead(f, pairs, l.kids, [], post);
          OpenSpaced(f, 123, SpacedPairs(f, pairs, l.kids) + post);
          assert [123] + SpacedPairs(f, pairs, l.kids) + post == [123] + (SpacedPairs(f, pairs, l.kids) + post);
          assert [] + pairs == pairs;
        }
      case _ => ValueRoundTrip(f, v, post);
    }
  }

  lemma WhiteEnds(w: seq<byte>)
    requires White(w)
    ensures EndsNumber(w) && SkipWs(w) == []
  {
    SkipWhite(w, []);
    assert w + [] == w;
  }

  lemma ParsedWhole(f: FloatIo, s: seq<byte>, text: seq<byte>, rest: seq<byte>, v: Value)
    requires SkipWs(s) == text && PValue(f, text) == Done(v, rest) && SkipWs(rest) == []
    ensures Parse(f, s) == Ok(v)
  {
    hide PValue, SkipWs;
  }

  /** A document with any white space before, between and behind its tokens parses to its value. */
  lemma SpacedDocumentIsRead(f: FloatIo, v: Value, l: Layout, before: seq<byte>, after: seq<byte>)
    requires LaysOut(v, l) && Printable(f, v) && White(before) && White(after)
    ensures Parse(f, before + Spaced(f, v, l) + after) == Ok(v)
  {
    hide *;
    var text := Spaced(f, v, l);
    WhiteEnds(after);
    SpacedReads(f, v, l, after);
    assert (text + after) != [] && !IsWs((text + after)[0]) by { StartsOf(text, after); }
    SkipWhite(before, text + after);
    assert before + text + after == before + (text + after);
    ParsedWhole(f, before + text + after, text + after, after, v);
  }

  lemma StartsOf(text: seq<byte>, after: seq<byte>)
    requires StartsValue(text)
    ensures text + after != [] && !IsWs((text + after)[0])
  {
  }
}
