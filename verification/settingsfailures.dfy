/**
 Inputs of `apply_settings` (src/httpd.rs) for which parsing its output is not the old configuration overridden by
 the update: a header with a comment behind it, a key assigned twice, and values with line breaks.
 */
module SettingsFailures {
  import opened Text
  import opened ConfigFile
  import opened Settings
  import opened SettingsReading
  import opened SettingsLanding
  import opened SettingsMeaning
  import opened Wrappers

  // ---- texts of three lines ----

  // A line that comes back as it is from a text.
  predicate WholeLine(s: string) { OneLine(s) && (s == "" || s[|s| - 1] != '\r') }

  function ThreeLines(a: string, b: string, c: string): string { a + ['\n'] + (b + ['\n'] + (c + ['\n'] + "")) }

  lemma LinesOfThree(a: string, b: string, c: string)
    requires WholeLine(a) && WholeLine(b) && WholeLine(c)
    ensures Lines(ThreeLines(a, b, c)) == [a, b, c]
  {
    hide Lines;
    assert Lines("") == [] by { NoLines(); }
    LinesCons(c, "");
    LinesCons(b, c + ['\n'] + "");
    LinesCons(a, b + ['\n'] + (c + ['\n'] + ""));
  }

  lemma NoLines()
    ensures Lines("") == []
  {
  }

  lemma KeyLineIsNoHeader(key: string, x: string)
    requires PlainKey(key)
    ensures HeaderName(Trim(key + " = " + x)) == None
    ensures SplitKv(key + " = " + x).Some? && SplitKv(key + " = " + x).value.key == key
    ensures Read(key + " = " + x) == Assign(key, Stored(x))
  {
    hide Trim, TrimEnd, Before, SplitKv, Read, Stored, PlainKey, HeaderName;
    KeyLine("", key, x);
    assert "" + key == key;
    KeyLineTrimmed("", key, x);
    assert "" + (key + " = " + x) == key + " = " + x by { hide *; }
    FirstOf(key, TrimEnd(" " + x));
  }

  // A value that is stored as it is written.
  predicate PlainValue(x: string) { x != "" && Trim(x) == x && OneLine(x) && '#' !in x }

  lemma PlainValueIsStored(x: string)
    requires PlainValue(x)
    ensures Stored(x) == x
  {
    hide Trim;
    BeforeSkip(x, "", '#');
    assert x + "" == x;
  }

  lemma KeyLineIsWhole(key: string, x: string)
    requires PlainKey(key) && PlainValue(x)
    ensures WholeLine(key + " = " + x)
  {
    TrimmedEnds(x);
    EqualsIsNoSpace();
    hide Trim, IsSpace;
  }

  lemma HeaderIsWhole(name: string, tail: string)
    requires PlainSection(name) && (tail == "" || tail == " # c")
    ensures WholeLine("[" + name + "]" + tail)
  {
    hide Trim;
  }

  // ---- a comment behind a header ----

  // A header with a comment behind it, which only the parser takes for a header.
  lemma CommentedHeaderReads(name: string)
    requires PlainSection(name)
    ensures var raw := "[" + name + "] # c"; Read(raw) == Header(name) && HeaderName(Trim(raw)) == None
  {
    var plain, raw := "[" + name + "]", "[" + name + "] # c";
    hide IsSpace, Trim;
    assert raw == (plain + [' ']) + ['#'] + " c" && '#' !in plain + [' '];
    BeforeStop(plain + [' '], '#', " c");
    EqualsIsNoSpace();
    TrimSnoc(plain, ' ');
    BeforeSkip(plain, "", '#');
    assert plain + "" == plain;
    HeaderLine(name);
    hide Before, HeaderName;
    assert !IsSpace('c') by { LetterIsNoSpace(); }
    assert TrimStart(raw) == raw && TrimEnd(raw) == raw;
    TrimIsBoth(raw);
    assert raw[|raw| - 1] == 'c';
    assert HeaderName(raw) == None by { NoBracketAtEnd(raw); }
  }

  lemma NoBracketAtEnd(line: string)
    requires line != "" && line[|line| - 1] == 'c'
    ensures HeaderName(line) == None
  {
  }

  lemma LetterIsNoSpace()
    ensures !IsSpace('c')
  {
  }

  lemma HeaderIsNotSplit(raw: string)
    requires Read(raw).Header?
    ensures SplitKv(raw) == None
  {
    hide Trim, Before;
  }

  // Through the lines of two headers and one key.
  lemma ThreeReadings(a: string, b: string, c: string)
    ensures Readings([a, b, c]) == [Read(a), Read(b), Read(c)]
  {
    hide Read;
  }

  lemma LandingBehindComment(a: string, b: string, c: string, u: Update, other: string)
    requires HeaderName(Trim(a)) == Some(u.section) && Read(a) == Header(u.section) && u.section != ""
    requires HeaderName(Trim(b)) == None && Read(b) == Header(other)
    requires HeaderName(Trim(c)) == None && SplitKv(c).Some? && SplitKv(c).value.key == u.key && Read(c).Assign?
    ensures LandingOf([a, b, c], "", "", u) == Landing(other, 2, false)
  {
    HeaderIsNotSplit(b);
    hide Read, HeaderName, Trim, SplitKv, Readings, LandingOf;
    assert [a, b, c][1..] == [b, c] && [b, c][1..] == [c] && [c][1..] == [];
    assert Readings([]) == [] by { NoReadings(); }
    assert LandingOf([c], u.section, other, u) == Landing(other, 0, false) by { LandingNext([c], u.section, other, u); }
    assert LandingOf([b, c], u.section, u.section, u) == Landing(other, 1, false) by {
      LandingNext([b, c], u.section, u.section, u);
    }
    LandingNext([a, b, c], "", "", u);
  }

  lemma ValueOfThree(r1: Reading, r2: Reading, r3: Reading, section: string, key: string)
    ensures var c1, c2 := Next("", r1), Next(Next("", r1), r2);
            ValueAfter([r1, r2, r3], "", section, key, None) ==
            if Assigns(r3, c2, section, key) then Some(r3.value)
            else if Assigns(r2, c1, section, key) then Some(r2.value)
            else if Assigns(r1, "", section, key) then Some(r1.value) else None
  {
    assert [r1, r2, r3][1..] == [r2, r3] && [r2, r3][1..] == [r3] && [r3][1..] == [];
    var k1 := if Assigns(r1, "", section, key) then Some(r1.value) else None;
    var k2 := if Assigns(r2, Next("", r1), section, key) then Some(r2.value) else k1;
    assert ValueAfter([r3], Next(Next("", r1), r2), section, key, k2)
        == if Assigns(r3, Next(Next("", r1), r2), section, key) then Some(r3.value) else k2;
  }

  lemma GetOfThree(a: string, b: string, c: string, section: string, key: string)
    requires WholeLine(a) && WholeLine(b) && WholeLine(c)
    ensures Get(ParseText(ThreeLines(a, b, c)), section, key)
         == ValueAfter([Read(a), Read(b), Read(c)], "", section, key, None)
  {
    hide Read, Lines, ParseReadings, ThreeLines, ValueAfter, WholeLine, Readings;
    LinesOfThree(a, b, c);
    ThreeReadings(a, b, c);
    ParsedValue([Read(a), Read(b), Read(c)], map[], "", section, key);
  }

  /**
   A comment behind a header hides it from the rewrite only: the update of one section lands in the other, where the
   parser finds it, and the place it was for stays without the key.
   */
  lemma CommentedHeaderMisplacesUpdate(u: Update, x: string, other: string)
    requires PlainUpdate(u) && !BlankSecret(u) && u.section != "" && PlainSection(other) && other != u.section && PlainValue(x)
    ensures var text := ThreeLines("[" + u.section + "]", "[" + other + "] # c", u.key + " = " + x);
            && Get(ParseText(Apply(text, [u])), u.section, u.key) == None
            && Get(ParseText(Apply(text, [u])), other, u.key) == Some(Put(u.value))
            && ParseText(Apply(text, [u])) != Override(ParseText(text), [u])
  {
    hide *;
    var a, b, c := "[" + u.section + "]", "[" + other + "] # c", u.key + " = " + x;
    var text := ThreeLines(a, b, c);
    PlainParts(u);
    HeaderLine(u.section);
    CommentedHeaderReads(other);
    KeyLineIsNoHeader(u.key, x);
    assert "[" + u.section + "]" + "" == a && "[" + other + "]" + " # c" == b;
    HeaderIsWhole(u.section, "");
    HeaderIsWhole(other, " # c");
    KeyLineIsWhole(u.key, x);
    LinesOfThree(a, b, c);
    LandingBehindComment(a, b, c, u, other);
    GetOfThree(a, b, c, u.section, u.key);
    ValueOfThree(Read(a), Read(b), Read(c), u.section, u.key);
    OneIsApplied(text, u, Landing(other, 2, false), u.section);
    OneIsApplied(text, u, Landing(other, 2, false), other);
    assert !Assigns(Read(c), other, u.section, u.key) && !Assigns(Read(a), "", u.section, u.key)
           && !Assigns(Read(b), u.section, u.section, u.key) by { NoAssigns(u, other, Stored(x)); }
    assert Next("", Read(a)) == u.section && Next(u.section, Read(b)) == other by { Nexts(u, other); }
    OverrideOfOne(ParseText(text), u);
  }

  lemma NoAssigns(u: Update, other: string, x: string)
    requires other != u.section
    ensures !Assigns(Assign(u.key, x), other, u.section, u.key)
    ensures !Assigns(Header(u.section), "", u.section, u.key) && !Assigns(Header(other), u.section, u.section, u.key)
  {
  }

  lemma Nexts(u: Update, other: string)
    ensures Next("", Header(u.section)) == u.section && Next(u.section, Header(other)) == other
  {
  }

  // What one update with a known landing leaves at a place.
  lemma OneIsApplied(text: string, u: Update, l: Landing, section: string)
    requires PlainUpdate(u) && !BlankSecret(u) && LandingOf(Lines(text), "", "", u) == l
    ensures Get(ParseText(Apply(text, [u])), section, u.key)
         == if !l.beyond && section == l.place then Some(Put(u.value)) else Get(ParseText(text), section, u.key)
  {
    OnlyUpdate(text, u);
    hide PlainUpdate, ParseText, Apply, LandingOf, Lines, PrevailsIn, Get, Put, BlankSecret, InDomain;
    assert Asks([u], u);
    AppliedValue(text, [u], section, u.key);
  }

  lemma OverrideOfOne(cfg: Config, u: Update)
    requires !BlankSecret(u)
    ensures Get(Override(cfg, [u]), u.section, u.key) == Some(Stored(u.value))
  {
    hide Stored, BlankSecret;
    assert [u][1..] == [];
    assert Override(cfg, [u]) == Insert(cfg, u.section, u.key, Stored(u.value));
  }

  // ---- a key assigned twice ----

  lemma LandingBeforeDuplicate(a: string, b: string, c: string, u: Update)
    requires HeaderName(Trim(a)) == Some(u.section) && Read(a) == Header(u.section) && u.section != ""
    requires HeaderName(Trim(b)) == None && SplitKv(b).Some? && SplitKv(b).value.key == u.key && Read(b).Assign?
    requires Read(c).Assign? && Read(c).key == u.key
    ensures LandingOf([a, b, c], "", "", u) == Landing(u.section, 1, true)
  {
    hide Read, HeaderName, Trim, SplitKv, Readings, LandingOf;
    assert [a, b, c][1..] == [b, c] && [b, c][1..] == [c];
    LandingNext([a, b, c], "", "", u);
    LandingNext([b, c], u.section, u.section, u);
    assert Readings([c]) == [Read(c)] by { OneReadingOf(c); }
  }

  lemma OneReadingOf(c: string)
    ensures Readings([c]) == [Read(c)]
  {
    hide Read;
  }

  /** The rewrite changes the first of two assignments, the parser believes the second: the update is lost. */
  lemma LaterDuplicateShadowsUpdate(u: Update, x: string, y: string)
    requires PlainUpdate(u) && !BlankSecret(u) && u.section != "" && PlainValue(x) && PlainValue(y)
    ensures var text := ThreeLines("[" + u.section + "]", u.key + " = " + x, u.key + " = " + y);
            && Get(ParseText(Apply(text, [u])), u.section, u.key) == Some(y)
            && (ParseText(Apply(text, [u])) == Override(ParseText(text), [u]) ==> Stored(u.value) == y)
  {
    hide *;
    var a, b, c := "[" + u.section + "]", u.key + " = " + x, u.key + " = " + y;
    var text := ThreeLines(a, b, c);
    PlainParts(u);
    HeaderLine(u.section);
    KeyLineIsNoHeader(u.key, x);
    KeyLineIsNoHeader(u.key, y);
    PlainValueIsStored(y);
    assert "[" + u.section + "]" + "" == a;
    HeaderIsWhole(u.section, "");
    KeyLineIsWhole(u.key, x);
    KeyLineIsWhole(u.key, y);
    LinesOfThree(a, b, c);
    LandingBeforeDuplicate(a, b, c, u);
    GetOfThree(a, b, c, u.section, u.key);
    ValueOfThree(Read(a), Read(b), Read(c), u.section, u.key);
    OneIsApplied(text, u, Landing(u.section, 1, true), u.section);
    assert Assigns(Read(c), Next(Next("", Read(a)), Read(b)), u.section, u.key) by { LastAssigns(u, Stored(x), y); }
    OverrideOfOne(ParseText(text), u);
  }

  lemma LastAssigns(u: Update, x: string, y: string)
    ensures Assigns(Assign(u.key, y), Next(Next("", Header(u.section)), Assign(u.key, x)), u.section, u.key)
  {
  }

  // ---- values with line breaks ----

  lemma AssignedValueIsOneLine(raw: string)
    requires OneLine(raw) && Read(raw).Assign?
    ensures OneLine(Read(raw).value)
  {
    var line := Trim(Before(raw, '#'));
    TrimKeepsOneLine(Before(raw, '#'));
    hide Trim;
    if '=' in line {
      TrimKeepsOneLine(line[|Before(line, '=')| + 1..]);
    }
  }

  lemma {:induction false} TrimStartPart(s: string)
    ensures forall i :: 0 <= i < |TrimStart(s)| ==> TrimStart(s)[i] in s
  {
    hide IsSpace;
    if s != "" && IsSpace(s[0]) {
      TrimStartPart(s[1..]);
    }
  }

  lemma TrimKeepsOneLine(s: string)
    requires OneLine(s)
    ensures OneLine(Trim(s))
  {
    TrimStartPart(s);
    hide IsSpace;
    assert TrimEnd(TrimStart(s)) <= TrimStart(s);
  }

  lemma {:induction false} ParsedValueIsOneLine(lines: seq<string>, current: string, section: string, key: string,
                                                known: Option<string>)
    requires forall i :: 0 <= i < |lines| ==> OneLine(lines[i])
    requires known.Some? ==> OneLine(known.value)
    ensures var r := ValueAfter(Readings(lines), current, section, key, known); r.Some? ==> OneLine(r.value)
  {
    hide Read, Readings, OneLine;
    if lines == [] {
      assert Readings(lines) == [] by { NoReadings(); }
    } else {
      var raw, rest := lines[0], lines[1..];
      assert lines == [raw] + rest;
      ConsReading(raw, rest);
      assert ([Read(raw)] + Readings(rest))[1..] == Readings(rest);
      if Read(raw).Assign? {
        AssignedValueIsOneLine(raw);
      }
      ParsedValueIsOneLine(rest, Next(current, Read(raw)), section, key,
                           if Assigns(Read(raw), current, section, key) then Some(Read(raw).value) else known);
    }
  }

  /** No text parses to a value with a line break. */
  lemma NoParsedBreaks(text: string, section: string, key: string)
    ensures var r := Get(ParseText(text), section, key); r.Some? ==> OneLine(r.value)
  {
    hide Lines, Readings, ParseReadings, ValueAfter, OneLine;
    LinesAreLines(text);
    ParsedValueIsOneLine(Lines(text), "", section, key, None);
    ParsedValue(Readings(Lines(text)), map[], "", section, key);
  }

  /** A value that asks for a line break is never stored: the rewrite disagrees with the override on every text. */
  lemma BreakInValueNeverAgrees(text: string, given: seq<Update>, u: Update)
    requires DistinctlyAsked(given) && u in given && !BlankSecret(u) && '\n' in Stored(u.value)
    ensures ParseText(Apply(text, given)) != Override(ParseText(text), given)
  {
    hide EffectiveOnly, ParseText, Apply, Stored, Override, Distinct, Get, Pending, BlankSecret;
    NoParsedBreaks(Apply(text, given), u.section, u.key);
    EffectiveDistinct(given);
    EffectiveAsks(given);
    EffectiveAllAsk(given);
    OverrideIsEffective(ParseText(text), given);
    OverrideValue(ParseText(text), EffectiveOnly(given), u.section, u.key);
    PendingIs(EffectiveOnly(given), u);
  }

  /** Such a value, as a form sends it: two words with a break between them. */
  lemma BrokenValue(v: string, w: string)
    requires PlainValue(v) && PlainValue(w)
    ensures '\n' in Stored(v + ['\n'] + w)
  {
    var s := v + ['\n'] + w;
    TrimmedEnds(v);
    TrimmedEnds(w);
    BeforeSkip(s, "", '#');
    assert s + "" == s;
    hide IsSpace, Before;
    assert TrimStart(s) == s && TrimEnd(s) == s;
    assert s[|v|] == '\n';
  }

  lemma {:induction false} SpacesReadNothing(s: string)
    requires forall i :: 0 <= i < |s| ==> IsSpace(s[i])
    ensures Quiet(Reads(s))
    decreases |s|
  {
    var line := Before(s, '\n');
    BlankReads(line);
    ReadsStep(s, line);
    hide Read, Reads, IsSpace, Before;
    if |line| < |s| {
      SpacesReadNothing(s[|line| + 1..]);
    }
  }

  lemma BlankReads(s: string)
    requires forall i :: 0 <= i < |s| ==> IsSpace(s[i])
    ensures Read(s) == Nothing
  {
    EqualsIsNoSpace();
    hide IsSpace;
    assert '#' !in s;
    BeforeSkip(s, "", '#');
    assert s + "" == s;
    TrimStartOfSpaces(s);
  }

  lemma {:induction false} StoredWithSpaces(v: string, w: string)
    requires forall i :: 0 <= i < |w| ==> IsSpace(w[i])
    ensures Stored(v + w) == Stored(v)
    decreases |w|
  {
    hide Trim, IsSpace;
    if w == "" {
      assert v + w == v;
    } else {
      EqualsIsNoSpace();
      var front, c := w[..|w| - 1], w[|w| - 1];
      assert v + w == (v + front) + [c];
      StoredWithSpaces(v, front);
      if '#' in v + front {
        BeforeOfPrefix(v + front, [c], '#');
      } else {
        BeforeSkip(v + front, "", '#');
        BeforeSkip(v + front + [c], "", '#');
        assert v + front + "" == v + front && v + front + [c] + "" == v + front + [c];
        TrimSnoc(v + front, c);
      }
    }
  }

  lemma SpilledIs(value: string, line: string)
    requires line == Before(value, '\n')
    ensures |line| < |value| ==> Spilled(value) == Reads(value[|line| + 1..])
    ensures |line| == |value| ==> Spilled(value) == []
  {
    hide Reads, Before;
  }

  lemma SpilledSpaces(v: string, w: string)
    requires OneLine(v) && forall i :: 0 <= i < |w| ==> IsSpace(w[i])
    ensures Quiet(Spilled(v + w)) && Before(v + w, '\n') == v + Before(w, '\n')
  {
    hide Reads, IsSpace, Before, Spilled, OneLine;
    var front := Before(w, '\n');
    BeforeSkip(v, w, '\n') by { assert '\n' !in v by { NoBreak(v); } }
    SpilledIs(v + w, v + front);
    if |front| < |w| {
      DropPrefix(v, w, |front| + 1);
      assert |v + front| + 1 == |v| + (|front| + 1);
      var tail := w[|front| + 1..];
      assert forall i :: 0 <= i < |tail| ==> tail[i] == w[|front| + 1 + i];
      SpacesReadNothing(tail);
    }
  }

  lemma NoBreak(v: string)
    requires OneLine(v)
    ensures '\n' !in v
  {
  }

  /** Breaks in the white space at the end of a value do no harm: it is stored as asked for and spills blank lines. */
  lemma TrailingBreaksAreHarmless(v: string, w: string)
    requires OneLine(v) && forall i :: 0 <= i < |w| ==> IsSpace(w[i])
    ensures Put(v + w) == Stored(v + w) == Stored(v) && Quiet(Spilled(v + w))
  {
    hide Stored, Spilled, IsSpace, Before, Quiet;
    SpilledSpaces(v, w);
    StoredWithSpaces(v, w);
    StoredWithSpaces(v, Before(w, '\n'));
  }

  lemma SpilledAtBreak(v: string, tail: string)
    requires OneLine(v) && OneLine(tail)
    ensures Put(v + ['\n'] + tail) == Stored(v) && Spilled(v + ['\n'] + tail) == [Read(tail)]
  {
    BeforeStop(v, '\n', tail);
    OneLineReads(tail);
    hide Read, Reads, Stored, Before;
    assert (v + ['\n'] + tail)[|v| + 1..] == tail;
  }

  /**
   Behind a hash the rest of a value looks like a comment, but only up to the break: what follows is read as a line of
   its own, here an assignment that nobody asked for.
   */
  lemma BreakBehindHashInjects(u: Update, v: string, key: string, y: string)
    requires PlainKey(u.key) && PlainSection(u.section) && u.section != "" && !BlankSecret(u) && PlainKey(key) && key != u.key
    requires PlainValue(v) && PlainValue(y) && u.value == v + "#" + ['\n'] + (key + " = " + y)
    ensures Stored(u.value) == v
    ensures Get(ParseText(Apply("", [u])), u.section, u.key) == Some(v)
    ensures Get(ParseText(Apply("", [u])), u.section, key) == Some(y)
    ensures ParseText(Apply("", [u])) != Override(ParseText(""), [u])
  {
    hide *;
    StoredBeforeHash(v, ['\n'] + (key + " = " + y));
    StoredBeforeHash(v, "");
    assert u.value == v + "#" + (['\n'] + (key + " = " + y)) && v + "#" + "" == v + "#";
    PlainValueIsStored(y);
    KeyLineIsNoHeader(key, y);
    assert OneLine(v + "#") && OneLine(key + " = " + y) by { OneLines(v, key, y); }
    SpilledAtBreak(v + "#", key + " = " + y);
    var written := Assign(u.key, v);
    var injected := Assign(key, y);
    assert Readings(Lines(Apply("", [u]))) == [Nothing, Header(u.section), written, injected] by {
      InjectedReadings(u, v, injected);
    }
    InjectedValues(u, v, key, y, u.key);
    InjectedValues(u, v, key, y, key);
    GetOfReadings(Apply("", [u]), u.section, u.key);
    GetOfReadings(Apply("", [u]), u.section, key);
    EmptyOverride(u, key);
  }

  lemma OneLines(v: string, key: string, y: string)
    requires PlainValue(v) && PlainValue(y) && PlainKey(key)
    ensures OneLine(v + "#") && OneLine(key + " = " + y)
  {
    hide Trim;
  }

  lemma StoredBeforeHash(v: string, tail: string)
    requires PlainValue(v)
    ensures Stored(v + "#" + tail) == v
  {
    hide Trim;
    BeforeStop(v, '#', tail);
    assert v + ['#'] + tail == v + "#" + tail;
  }

  lemma GetOfReadings(text: string, section: string, key: string)
    ensures Get(ParseText(text), section, key) == ValueAfter(Readings(Lines(text)), "", section, key, None)
  {
    hide Lines, Readings, ParseReadings, ValueAfter;
    ParsedValue(Readings(Lines(text)), map[], "", section, key);
  }

  lemma EmptyOverride(u: Update, key: string)
    requires key != u.key && !BlankSecret(u)
    ensures Get(Override(ParseText(""), [u]), u.section, key) == None
  {
    hide Stored, BlankSecret;
    assert [u][1..] == [];
    assert Override(ParseText(""), [u]) == Insert(ParseText(""), u.section, u.key, Stored(u.value));
    assert Readings(Lines("")) == [];
  }

  lemma InjectedReadings(u: Update, v: string, injected: Reading)
    requires PlainKey(u.key) && PlainSection(u.section) && u.section != "" && !BlankSecret(u)
    requires Put(u.value) == v && Spilled(u.value) == [injected]
    ensures Readings(Lines(Apply("", [u]))) == [Nothing, Header(u.section), Assign(u.key, v), injected]
  {
    hide *;
    var outs := [Gap, Opened(u.section), Added(u)];
    OneNewSection(u);
    TextReads(outs);
    ApplyIs("", [u]);
    NothingRead();
    HeaderLine(u.section);
    SectionLine(u);
    OneLineReads("");
    OneLineReads("[" + u.section + "]");
    UpdateReads("", u.key, u.value);
    assert "" + u.key == u.key;
    FlatOfThree(Gap, Opened(u.section), Added(u));
    LinesOfOuts(u);
    assert [Nothing] + [Header(u.section)] + ([Assign(u.key, v)] + [injected])
        == [Nothing, Header(u.section), Assign(u.key, v), injected];
  }

  lemma ApplyIs(text: string, given: seq<Update>)
    ensures Apply(text, given) == TextOf(Rewrite(Lines(text), "", EffectiveOnly(given)))
  {
    hide Lines, Rewrite, TextOf, EffectiveOnly;
  }

  lemma LinesOfOuts(u: Update)
    ensures Line(Gap) == "" && Line(Opened(u.section)) == "[" + u.section + "]"
    ensures Line(Added(u)) == u.key + " = " + u.value
  {
  }

  lemma FlatOfThree(a: Out, b: Out, c: Out)
    ensures Flat([a, b, c]) == Reads(Line(a)) + Reads(Line(b)) + Reads(Line(c))
  {
    hide Line, Reads;
    assert [a, b, c][1..] == [b, c] && [b, c][1..] == [c] && [c][1..] == [];
    assert Flat([c]) == Reads(Line(c)) + [] == Reads(Line(c));
    assert Flat([b, c]) == Reads(Line(b)) + Reads(Line(c));
  }

  lemma SectionLine(u: Update)
    requires PlainSection(u.section)
    ensures OneLine("[" + u.section + "]") && OneLine("")
  {
    hide Trim;
  }

  lemma OneNewSection(u: Update)
    requires u.section != "" && !BlankSecret(u)
    ensures Rewrite(Lines(""), "", EffectiveOnly([u])) == [Gap, Opened(u.section), Added(u)]
  {
    EffectiveIs(u);
    hide Effective, BlankSecret;
    assert [u][1..] == [];
    assert EffectiveOnly([u]) == [u];
    assert Of([u], "") == Of([], "") == [] && NotOf([u], "") == [u] + NotOf([], "") == [u];
    assert Of([u], u.section) == [u] + Of([], u.section) == [u] && NotOf([u], u.section) == NotOf([], u.section) == [];
    hide Of, NotOf;
    assert Flush([u], "") == [] && Flush([u], u.section) == [Added(u)];
    hide Flush;
    assert NewSections([]) == [];
    assert NewSections([u]) == [Gap, Opened(u.section)] + [Added(u)] + [];
  }

  lemma InjectedValues(u: Update, v: string, key: string, y: string, asked: string)
    requires key != u.key && (asked == key || asked == u.key)
    ensures ValueAfter([Nothing, Header(u.section), Assign(u.key, v), Assign(key, y)], "", u.section, asked, None)
         == Some(if asked == key then y else v)
  {
    var all := [Nothing, Header(u.section), Assign(u.key, v), Assign(key, y)];
    var tail := [Header(u.section), Assign(u.key, v), Assign(key, y)];
    assert all[1..] == tail;
    assert tail[1..] == [Assign(u.key, v), Assign(key, y)];
    assert [Assign(u.key, v), Assign(key, y)][1..] == [Assign(key, y)] && [Assign(key, y)][1..] == [];
    var first := if asked == u.key then Some(v) else None;
    assert ValueAfter([Assign(key, y)], u.section, u.section, asked, first) == Some(if asked == key then y else v);
    assert ValueAfter(tail, "", u.section, asked, None)
        == ValueAfter([Assign(u.key, v), Assign(key, y)], u.section, u.section, asked, None);
  }

  // ---- the smallest inputs ----

  lemma Word(c: char)
    requires 'a' <= c <= 'z' || '0' <= c <= '9'
    ensures Trim([c]) == [c] && PlainValue([c]) && PlainSection([c])
    ensures 'a' <= c ==> PlainKey([c])
  {
    assert !IsSpace(c);
    hide IsSpace;
    assert TrimStart([c]) == [c] && TrimEnd([c]) == [c];
  }

  lemma Example(value: string)
    requires OneLine(value)
    ensures PlainUpdate(Update("a", "k", value)) && !BlankSecret(Update("a", "k", value))
  {
    Word('a');
    Word('k');
    OneLinePut(value);
    hide Trim, PlainKey, PlainSection, Spilled;
    assert "a" == ['a'] && "k" == ['k'];
  }

  lemma ShadowedExample()
    ensures var text, u := "[a]\nk = 1\nk = 2\n", Update("a", "k", "v");
            && Get(ParseText(Apply(text, [u])), "a", "k") == Some("2")
            && ParseText(Apply(text, [u])) != Override(ParseText(text), [u])
  {
    hide *;
    Example("v") by { Short(); }
    Word('1');
    Word('2');
    Word('v');
    PlainValueIsStored("v");
    LaterDuplicateShadowsUpdate(Update("a", "k", "v"), "1", "2");
    assert ThreeLines("[a]", "k = 1", "k = 2") == "[a]\nk = 1\nk = 2\n" by { Joined(); }
    assert "[" + "a" + "]" == "[a]" && "k" + " = " + "1" == "k = 1" && "k" + " = " + "2" == "k = 2";
  }

  lemma Short()
    ensures OneLine("v")
  {
  }

  lemma Joined()
    ensures ThreeLines("[a]", "k = 1", "k = 2") == "[a]\nk = 1\nk = 2\n"
    ensures ThreeLines("[a]", "[b] # c", "k = 1") == "[a]\n[b] # c\nk = 1\n"
  {
  }

  lemma MisplacedExample()
    ensures var text, u := "[a]\n[b] # c\nk = 1\n", Update("a", "k", "v");
            && Get(ParseText(Apply(text, [u])), "a", "k") == None
            && Get(ParseText(Apply(text, [u])), "b", "k") == Some("v")
            && ParseText(Apply(text, [u])) != Override(ParseText(text), [u])
  {
    hide *;
    Example("v") by { Short(); }
    Short();
    OneLinePut("v");
    Word('1');
    Word('b');
    Word('v');
    PlainValueIsStored("v");
    CommentedHeaderMisplacesUpdate(Update("a", "k", "v"), "1", "b");
    assert ThreeLines("[a]", "[b] # c", "k = 1") == "[a]\n[b] # c\nk = 1\n" by { Joined(); }
    assert "[" + "a" + "]" == "[a]" && "[" + "b" + "] # c" == "[b] # c" && "k" + " = " + "1" == "k = 1";
  }
}
