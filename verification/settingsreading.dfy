/**
 How the parser of src/config.rs reads what the rewrite of src/httpd.rs writes: line by line, and then whole texts,
 for every line that is kept and every update that is written.
 */
module SettingsReading {
  import opened Text
  import opened ConfigFile
  import opened Settings
  import opened Wrappers

  // ---- facts about splitting ----

  lemma {:induction false} BeforeSkip(a: string, b: string, c: char)
    requires c !in a
    ensures Before(a + b, c) == a + Before(b, c)
  {
    if a == "" {
      assert a + b == b;
    } else {
      var rest := Before(b, c);
      assert (a + b)[1..] == a[1..] + b && (a + b)[0] == a[0] != c;
      BeforeSkip(a[1..], b, c);
      assert Before(a + b, c) == [a[0]] + (a[1..] + rest);
      hide Before;
      assert [a[0]] + (a[1..] + rest) == a + rest;
    }
  }

  lemma BeforeStop(a: string, c: char, b: string)
    requires c !in a
    ensures Before(a + [c] + b, c) == a
  {
    BeforeSkip(a, [c] + b, c);
    assert a + [c] + b == a + ([c] + b);
    assert Before([c] + b, c) == "";
    assert a + "" == a;
  }

  // ---- how the parser reads one written line ----

  // What an update asks to be stored: a value without comment and white space around it.
  function Stored(value: string): string { Trim(Before(value, '#')) }

  predicate PlainKey(key: string) {
    key != "" && Trim(key) == key && key[0] != '[' && '#' !in key && '=' !in key && '\n' !in key
  }

  predicate PlainSection(section: string) {
    Trim(section) == section && '#' !in section && '\n' !in section
  }

  lemma TrimmedEnds(s: string)
    requires s != "" && Trim(s) == s
    ensures !IsSpace(s[0]) && !IsSpace(s[|s| - 1])
  {
    TrimStartShrinks(s);
    assert |TrimEnd(TrimStart(s))| <= |TrimStart(s)|;
  }

  lemma KeyLineTrimmed(indent: string, key: string, w: string)
    requires PlainKey(key) && forall i :: 0 <= i < |indent| ==> IsSpace(indent[i])
    ensures Trim(indent + (key + " = " + w)) == key + " =" + TrimEnd(" " + w)
  {
    hide IsSpace, Trim;
    TrimmedEnds(key);
    var body := key + " = " + w;
    assert Trim(indent + body) == TrimEnd(TrimStart(indent + body)) by { TrimIsBoth(indent + body); }
    TrimStartSkip(indent, body);
    assert TrimStart(body) == body;
    assert body == (key + " =") + (" " + w);
    EqualsIsNoSpace();
    TrimEndSkip(key + " =", " " + w);
  }

  lemma TrimIsBoth(s: string)
    ensures Trim(s) == TrimEnd(TrimStart(s))
  {
  }

  lemma EqualsIsNoSpace()
    ensures !IsSpace('=') && IsSpace(' ') && IsSpace('\r') && !IsSpace('#') && !IsSpace('[')
  {
  }

  lemma KeyLineSplits(key: string, w: string)
    requires PlainKey(key)
    ensures SplitAtEquals(key + " =" + TrimEnd(" " + w)) == Some(KeyValue(key, Trim(w)))
  {
    hide IsSpace, Trim;
    EqualsIsNoSpace();
    TrimSnoc(key, ' ');
    TrimAfterTrimEnd(" " + w);
    TrimIsBoth(" " + w);
    TrimIsBoth(w);
    TrimStartSkip(" ", w);
    SplitAt(key + " ", TrimEnd(" " + w));
    hide *;
    SpaceThenEquals(key, TrimEnd(" " + w));
  }

  lemma SpaceThenEquals(key: string, tail: string)
    ensures key + " " + "=" + tail == key + " =" + tail
  {
    assert key + " " + "=" == key + " =";
  }

  lemma FirstOf(key: string, tail: string)
    requires PlainKey(key)
    ensures key + " =" + tail != "" && (key + " =" + tail)[0] == key[0]
    ensures HeaderName(key + " =" + tail) == None
  {
    hide Trim;
  }

  lemma SplitAt(head: string, tail: string)
    requires '=' !in head
    ensures SplitAtEquals(head + "=" + tail) == Some(KeyValue(Trim(head), Trim(tail)))
  {
    hide Trim, Before;
    var line := head + "=" + tail;
    assert line == head + ['='] + tail;
    BeforeStop(head, '=', tail);
    assert line[|head|] == '=' && line[|head| + 1..] == tail;
  }

  lemma KeyLineBefore(indent: string, key: string, value: string)
    requires PlainKey(key) && forall i :: 0 <= i < |indent| ==> IsSpace(indent[i])
    ensures Before(indent + key + " = " + value, '#') == indent + (key + " = " + Before(value, '#'))
  {
    var prefix := indent + key + " = ";
    assert '#' !in prefix by { EqualsIsNoSpace(); }
    hide Before, IsSpace, PlainKey;
    BeforeSkip(prefix, value, '#');
    Regroup(indent, key + " = ", Before(value, '#'));
    Regroup(indent, key, " = ");
  }

  lemma AssignmentReads(raw: string, kv: KeyValue)
    requires var line := Trim(Before(raw, '#')); line != "" && line[0] != '[' && SplitAtEquals(line) == Some(kv)
    ensures Read(raw) == Assign(kv.key, kv.value) && SplitKv(raw) == Some(kv)
    ensures HeaderName(Trim(Before(raw, '#'))) == None
  {
    hide Trim, Before, SplitAtEquals;
  }

  lemma KeyLine(indent: string, key: string, value: string)
    requires PlainKey(key) && forall i :: 0 <= i < |indent| ==> IsSpace(indent[i])
    ensures var raw := indent + key + " = " + value;
            && Read(raw) == Assign(key, Stored(value)) && SplitKv(raw) == Some(KeyValue(key, Stored(value)))
            && HeaderName(Trim(Before(raw, '#'))) == None
  {
    var w := Before(value, '#');
    KeyLineBefore(indent, key, value);
    KeyLineTrimmed(indent, key, w);
    KeyLineSplits(key, w);
    FirstOf(key, TrimEnd(" " + w));
    AssignmentReads(indent + key + " = " + value, KeyValue(key, Trim(w))) by {
      hide *;
    }
    hide *;
    assert Stored(value) == Trim(w) by { StoredIs(value); }
  }

  lemma StoredIs(value: string)
    ensures Stored(value) == Trim(Before(value, '#'))
  {
  }

  lemma HeaderLine(section: string)
    requires PlainSection(section)
    ensures Read("[" + section + "]") == Header(section)
    ensures HeaderName(Trim("[" + section + "]")) == Some(section)
  {
    hide IsSpace;
    var line := "[" + section + "]";
    assert Before(line, '#') == line;
    assert !IsSpace('[') && !IsSpace(']') by { BracketsAreNoSpace(); }
    assert TrimStart(line) == line && TrimEnd(line) == line;
    assert line[1..|line| - 1] == section;
    assert HeaderName(line) == Some(section);
  }

  lemma BracketsAreNoSpace()
    ensures !IsSpace('[') && !IsSpace(']')
  {
  }

  // A line the rewrite may replace is an assignment to the parser.
  lemma SplitIsAssigned(raw: string)
    requires SplitKv(raw).Some?
    ensures Read(raw) == Assign(SplitKv(raw).value.key, SplitKv(raw).value.value)
  {
    hide Trim, Before;
  }

  // A trailing carriage return, which `lines` may have dropped, changes no reading.
  lemma ReadWithoutCr(line: string)
    ensures Read(DropCr(line)) == Read(line)
  {
    hide IsSpace, Trim, HeaderName, SplitAtEquals;
    EqualsIsNoSpace();
    if line != "" && line[|line| - 1] == '\r' {
      var body := line[..|line| - 1];
      assert line == body + ['\r'];
      if '#' in body {
        BeforeOfPrefix(body, ['\r'], '#');
      } else {
        BeforeSkip(body, ['\r'], '#');
        assert Before(['\r'], '#') == ['\r'] by { NoHash(); }
        assert Before(body, '#') == body;
        TrimSnoc(body, '\r');
      }
    }
  }

  lemma NoHash()
    ensures Before(['\r'], '#') == ['\r']
  {
    assert ['\r'][1..] == "";
  }

  lemma {:induction false} BeforeOfPrefix(a: string, b: string, c: char)
    requires c in a
    ensures Before(a + b, c) == Before(a, c)
  {
    if a[0] != c {
      assert (a + b)[1..] == a[1..] + b;
      BeforeOfPrefix(a[1..], b, c);
    }
  }

  lemma IndentIsSpace(raw: string)
    ensures var indent := Indent(raw); forall i :: 0 <= i < |indent| ==> IsSpace(indent[i]) && indent[i] in raw
  {
    hide IsSpace;
    TrimStartShrinks(raw);
  }

  lemma NothingRead()
    ensures Read("") == Nothing
  {
  }

  lemma LinesCons(line: string, rest: string)
    requires OneLine(line)
    ensures Lines(line + ['\n'] + rest) == [DropCr(line)] + Lines(rest)
  {
    hide DropCr, Before;
    var text := line + ['\n'] + rest;
    BeforeStop(line, '\n', rest);
    assert text[|line| + 1..] == rest;
  }

  lemma ReadingsCons(line: string, rest: seq<string>)
    ensures Readings([line] + rest) == [Read(line)] + Readings(rest)
  {
    hide Read;
  }

  // ---- how the parser reads what stands for one rewritten line ----

  predicate OneLine(s: string) { '\n' !in s }

  // The readings of the lines that a string with line breaks makes.
  function Reads(s: string): (r: seq<Reading>)
    ensures r != []
    decreases |s|
  {
    var line := Before(s, '\n');
    if |line| < |s| then [Read(line)] + Reads(s[|line| + 1..]) else [Read(s)]
  }

  // The first line of a value ends at its first break; the parser stores what that line holds.
  function Put(value: string): string { Stored(Before(value, '\n')) }

  // Whatever follows the first break of a value is read as lines of its own.
  function Spilled(value: string): seq<Reading> {
    var line := Before(value, '\n');
    if |line| < |value| then Reads(value[|line| + 1..]) else []
  }

  function Flat(outs: seq<Out>): seq<Reading> {
    if outs == [] then [] else Reads(Line(outs[0])) + Flat(outs[1..])
  }

  lemma {:induction false} TextLines(line: string, rest: string)
    ensures Readings(Lines(line + ['\n'] + rest)) == Reads(line) + Readings(Lines(rest))
    decreases |line|
  {
    var first := Before(line, '\n');
    ReadWithoutCr(first);
    hide Read, DropCr, Lines, Readings;
    if |first| < |line| {
      var tail := line[|first| + 1..];
      assert line == first + ['\n'] + tail;
      assert line + ['\n'] + rest == first + ['\n'] + (tail + ['\n'] + rest);
      LinesCons(first, tail + ['\n'] + rest);
      ReadingsCons(DropCr(first), Lines(tail + ['\n'] + rest));
      TextLines(tail, rest);
      var more := Reads(tail);
      hide Reads;
      assert [Read(first)] + (more + Readings(Lines(rest))) == [Read(first)] + more + Readings(Lines(rest));
    } else {
      assert first == line;
      LinesCons(line, rest);
      ReadingsCons(DropCr(line), Lines(rest));
    }
  }

  lemma TextCons(outs: seq<Out>)
    requires outs != []
    ensures TextOf(outs) == Line(outs[0]) + ['\n'] + TextOf(outs[1..])
  {
    hide Line;
  }

  /** What the parser reads in any rewritten text: each line as written, with the breaks that values bring along. */
  lemma {:induction false} TextReads(outs: seq<Out>)
    ensures Readings(Lines(TextOf(outs))) == Flat(outs)
  {
    if outs == [] {
    } else {
      hide Read, Line, TextOf, Lines, Readings, Reads;
      TextCons(outs);
      TextLines(Line(outs[0]), TextOf(outs[1..]));
      TextReads(outs[1..]);
    }
  }

  lemma ReadsStep(s: string, line: string)
    requires line == Before(s, '\n')
    ensures |line| < |s| ==> Reads(s) == [Read(line)] + Reads(s[|line| + 1..])
    ensures |line| == |s| ==> Reads(s) == [Read(s)]
  {
    hide Read, Before;
  }

  lemma DropPrefix(prefix: string, value: string, n: nat)
    requires n <= |value|
    ensures (prefix + value)[|prefix| + n..] == value[n..]
  {
  }

  lemma ReadsPrefixed(prefix: string, value: string)
    requires OneLine(prefix)
    ensures Reads(prefix + value) == [Read(prefix + Before(value, '\n'))] + Spilled(value)
  {
    hide Read, Reads;
    var first := Before(value, '\n');
    BeforeSkip(prefix, value, '\n');
    ReadsStep(prefix + value, prefix + first);
    hide Before;
    if |first| < |value| {
      DropPrefix(prefix, value, |first| + 1);
      assert |prefix + first| + 1 == |prefix| + (|first| + 1);
    } else {
      assert first == value;
    }
  }

  /** A written update is an assignment of the first line of its value; the other lines are read on their own. */
  lemma UpdateReads(indent: string, key: string, value: string)
    requires PlainKey(key) && forall i :: 0 <= i < |indent| ==> IsSpace(indent[i]) && indent[i] != '\n'
    ensures Reads(indent + key + " = " + value) == [Assign(key, Put(value))] + Spilled(value)
  {
    assert OneLine(indent + key + " = ");
    hide Read, Stored, Before, PlainKey, IsSpace, SplitKv, HeaderName, Reads, Spilled, OneLine;
    ReadsPrefixed(indent + key + " = ", value);
    KeyLine(indent, key, Before(value, '\n'));
  }

  // ---- the domain of the theorems ----

  predicate Quiet(rs: seq<Reading>) { forall i :: 0 <= i < |rs| ==> rs[i] == Nothing }

  // A plain key and section, and a value without breaks or whose further lines are blank, comments or noise.
  predicate PlainUpdate(u: Update) { PlainKey(u.key) && PlainSection(u.section) && Quiet(Spilled(u.value)) }

  predicate PlainUpdates(updates: seq<Update>) { forall i :: 0 <= i < |updates| ==> PlainUpdate(updates[i]) }

  function OutReading(o: Out): Reading {
    match o
    case Kept(raw) => Read(raw)
    case Replaced(_, u) => Assign(u.key, Put(u.value))
    case Added(u) => Assign(u.key, Put(u.value))
    case Gap => Nothing
    case Opened(section) => Header(section)
  }

  function OutReadings(outs: seq<Out>): (r: seq<Reading>)
    ensures |r| == |outs|
  {
    seq(|outs|, i requires 0 <= i < |outs| => OutReading(outs[i]))
  }

  predicate PlainOut(o: Out) {
    match o
    case Kept(raw) => OneLine(raw)
    case Replaced(raw, u) => OneLine(raw) && PlainUpdate(u)
    case Added(u) => PlainUpdate(u)
    case Gap => true
    case Opened(section) => PlainSection(section)
  }

  predicate PlainOuts(outs: seq<Out>) { forall i :: 0 <= i < |outs| ==> PlainOut(outs[i]) }

  lemma OneLineReads(s: string)
    requires OneLine(s)
    ensures Reads(s) == [Read(s)]
  {
    hide Read;
  }

  lemma OutReads(o: Out)
    requires PlainOut(o)
    ensures Reads(Line(o))[0] == OutReading(o) && Quiet(Reads(Line(o))[1..])
  {
    hide Put, Spilled, Trim, IsSpace, Read, Reads, Indent, PlainKey;
    match o {
      case Kept(raw) => OneLineReads(raw);
      case Replaced(raw, u) =>
        IndentIsSpace(raw);
        UpdateReads(Indent(raw), u.key, u.value);
      case Added(u) =>
        UpdateReads("", u.key, u.value);
        assert "" + u.key == u.key;
      case Gap =>
        NothingRead();
        OneLineReads("");
      case Opened(section) =>
        HeaderLine(section);
        OneLineReads("[" + section + "]");
    }
  }

  lemma {:induction false} QuietMeans(rs: seq<Reading>, current: string, section: string, key: string, known: Option<string>)
    requires Quiet(rs)
    ensures CurrentAfter(rs, current) == current && SectionsIn(rs, current) == {}
    ensures ValueAfter(rs, current, section, key, known) == known
  {
    if rs != [] {
      QuietMeans(rs[1..], current, section, key, known);
    }
  }

  lemma OneMeans(r: Reading, rs: seq<Reading>, current: string, section: string, key: string, known: Option<string>)
    ensures var all := [r] + rs;
            && ValueAfter(all, current, section, key, known)
               == ValueAfter(rs, Next(current, r), section, key,
                             if Assigns(r, current, section, key) then Some(r.value) else known)
            && SectionsIn(all, current) == (if r.Nothing? then {} else {Next(current, r)}) + SectionsIn(rs, Next(current, r))
            && CurrentAfter(all, current) == CurrentAfter(rs, Next(current, r))
  {
    assert ([r] + rs)[1..] == rs;
  }

  lemma FlatCons(outs: seq<Out>)
    requires PlainOuts(outs) && outs != []
    ensures var r, quiet := OutReading(outs[0]), Reads(Line(outs[0]))[1..];
            && Quiet(quiet) && Flat(outs) == [r] + (quiet + Flat(outs[1..]))
            && OutReadings(outs) == [r] + OutReadings(outs[1..])
  {
    hide PlainOut, OutReading, Line, Reads, Quiet;
    OutReads(outs[0]);
    OutReadingsCons(outs);
    hide OutReadings, PlainOuts;
    var r, quiet := OutReading(outs[0]), Reads(Line(outs[0]))[1..];
    assert Reads(Line(outs[0])) == [r] + quiet;
    Regroup([r], quiet, Flat(outs[1..]));
  }

  lemma OutReadingsCons(outs: seq<Out>)
    requires outs != []
    ensures OutReadings(outs) == [OutReading(outs[0])] + OutReadings(outs[1..])
  {
    hide OutReading;
  }

  // The quiet lines that a value brings along change nothing.
  lemma {:induction false} FlatMeans(outs: seq<Out>, current: string, section: string, key: string, known: Option<string>)
    requires PlainOuts(outs)
    ensures ValueAfter(Flat(outs), current, section, key, known) == ValueAfter(OutReadings(outs), current, section, key, known)
    ensures SectionsIn(Flat(outs), current) == SectionsIn(OutReadings(outs), current)
    decreases |outs|
  {
    hide ValueAfter, SectionsIn, CurrentAfter, Reads, Line, OutReading, PlainOut, Quiet;
    if outs == [] {
    } else {
      var r, quiet, tail := OutReading(outs[0]), Reads(Line(outs[0]))[1..], Flat(outs[1..]);
      var next := Next(current, r);
      var after := if Assigns(r, current, section, key) then Some(r.value) else known;
      FlatCons(outs);
      FlatMeans(outs[1..], next, section, key, after);
      hide Flat, OutReadings;
      OneMeans(r, quiet + tail, current, section, key, known);
      OneMeans(r, OutReadings(outs[1..]), current, section, key, known);
      AfterConcat(quiet, tail, next, section, key, after);
      QuietMeans(quiet, next, section, key, after);
    }
  }

  lemma {:induction false} LinesAreLines(text: string)
    ensures forall i :: 0 <= i < |Lines(text)| ==> OneLine(Lines(text)[i])
    decreases |text|
  {
    if text != "" {
      var line := Before(text, '\n');
      if |line| < |text| {
        LinesAreLines(text[|line| + 1..]);
      }
    }
  }
}
