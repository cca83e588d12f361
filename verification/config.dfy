/** The INI-style configuration text and its parser (src/config.rs). */
module ConfigFile {
  import opened Text
  import opened Wrappers

  type Section = map<string, string>
  type Config = map<string, Section>

  // ---- pieces of a line ----

  // The text before the first `c`, or all of it.
  function Before(s: string, c: char): (r: string)
    ensures r <= s && c !in r
    ensures |r| < |s| ==> s[|r|] == c
    ensures c !in s ==> r == s
  {
    if s == "" || s[0] == c then "" else [s[0]] + Before(s[1..], c)
  }

  datatype KeyValue = KeyValue(key: string, value: string)

  // split_once('='), both halves trimmed.
  function SplitAtEquals(line: string): Option<KeyValue> {
    if '=' in line
    then Some(KeyValue(Trim(Before(line, '=')), Trim(line[|Before(line, '=')| + 1..])))
    else None
  }

  // strip_prefix('[') and strip_suffix(']'), the rest trimmed.
  function HeaderName(line: string): Option<string> {
    if |line| >= 2 && line[0] == '[' && line[|line| - 1] == ']' then Some(Trim(line[1..|line| - 1])) else None
  }

  // ---- lines ----

  function DropCr(line: string): string {
    if line != "" && line[|line| - 1] == '\r' then line[..|line| - 1] else line
  }

  // str::lines
  function Lines(text: string): seq<string>
    decreases |text|
  {
    if text == "" then []
    else
      var line := Before(text, '\n');
      if |line| < |text| then [DropCr(line)] + Lines(text[|line| + 1..]) else [text]
  }

  // ---- the parser ----

  datatype Reading = Nothing | Header(name: string) | Assign(key: string, value: string)

  function Read(raw: string): Reading {
    var line := Trim(Before(raw, '#'));
    if line == "" then Nothing
    else
      match HeaderName(line)
      case Some(name) => Header(name)
      case None =>
        match SplitAtEquals(line)
        case Some(kv) => Assign(kv.key, kv.value)
        case None => Nothing
  }

  function SectionOf(cfg: Config, section: string): Section {
    if section in cfg then cfg[section] else map[]
  }

  function Insert(cfg: Config, section: string, key: string, value: string): Config {
    cfg[section := SectionOf(cfg, section)[key := value]]
  }

  function Get(cfg: Config, section: string, key: string): Option<string> {
    if section in cfg && key in cfg[section] then Some(cfg[section][key]) else None
  }

  function Readings(lines: seq<string>): (r: seq<Reading>)
    ensures |r| == |lines|
  {
    seq(|lines|, i requires 0 <= i < |lines| => Read(lines[i]))
  }

  function Record(cfg: Config, current: string, r: Reading): Config {
    match r
    case Nothing => cfg
    case Header(name) => cfg[name := SectionOf(cfg, name)]
    case Assign(key, value) => Insert(cfg, current, key, value)
  }

  function Next(current: string, r: Reading): string {
    match r
    case Header(name) => name
    case _ => current
  }

  // The configuration after more lines, from the section that is current.
  function ParseReadings(rs: seq<Reading>, cfg: Config, current: string): Config {
    if rs == [] then cfg else ParseReadings(rs[1..], Record(cfg, current, rs[0]), Next(current, rs[0]))
  }

  function ParseText(text: string): Config { ParseReadings(Readings(Lines(text)), map[], "") }

  method Parse(text: string) returns (cfg: Config)
    ensures cfg == ParseText(text)
  {
    cfg := map[];
    var current := "";
    var lines := Lines(text);
    ghost var rs := Readings(lines);
    for i := 0 to |lines|
      invariant ParseReadings(rs[i..], cfg, current) == ParseText(text)
    {
      assert rs[i..][0] == Read(lines[i]) && rs[i..][1..] == rs[i + 1..];
      var line := Trim(Before(lines[i], '#'));
      if line == "" {
        continue;
      }
      match HeaderName(line) {
        case Some(name) =>
          current := name;
          cfg := cfg[current := SectionOf(cfg, current)];
        case None =>
          match SplitAtEquals(line) {
            case Some(kv) => cfg := Insert(cfg, current, kv.key, kv.value);
            case None =>
          }
      }
    }
    assert rs[|lines|..] == [];
  }

  // ---- the parsed value of one key ----

  predicate Assigns(r: Reading, current: string, section: string, key: string) {
    r.Assign? && current == section && r.key == key
  }

  // The value of (section, key) after the lines, given the value `known` before them: the last one wins.
  function ValueAfter(rs: seq<Reading>, current: string, section: string, key: string, known: Option<string>): Option<string> {
    if rs == [] then known
    else
      ValueAfter(rs[1..], Next(current, rs[0]), section, key,
                 if Assigns(rs[0], current, section, key) then Some(rs[0].value) else known)
  }

  // The section that is current after the lines.
  function CurrentAfter(rs: seq<Reading>, current: string): string {
    if rs == [] then current else CurrentAfter(rs[1..], Next(current, rs[0]))
  }

  // The sections that the lines create.
  function SectionsIn(rs: seq<Reading>, current: string): set<string> {
    if rs == [] then {}
    else
      (if rs[0].Nothing? then {} else {Next(current, rs[0])}) + SectionsIn(rs[1..], Next(current, rs[0]))
  }

  lemma {:induction false} ParsedValue(rs: seq<Reading>, cfg: Config, current: string, section: string, key: string)
    ensures Get(ParseReadings(rs, cfg, current), section, key)
         == ValueAfter(rs, current, section, key, Get(cfg, section, key))
  {
    if rs != [] {
      ParsedValue(rs[1..], Record(cfg, current, rs[0]), Next(current, rs[0]), section, key);
    }
  }

  lemma {:induction false} ParsedSections(rs: seq<Reading>, cfg: Config, current: string)
    ensures ParseReadings(rs, cfg, current).Keys == cfg.Keys + SectionsIn(rs, current)
  {
    if rs != [] {
      ParsedSections(rs[1..], Record(cfg, current, rs[0]), Next(current, rs[0]));
    }
  }

  lemma {:induction false} AfterConcat(a: seq<Reading>, b: seq<Reading>, current: string, section: string, key: string,
                                       known: Option<string>)
    ensures CurrentAfter(a + b, current) == CurrentAfter(b, CurrentAfter(a, current))
    ensures SectionsIn(a + b, current) == SectionsIn(a, current) + SectionsIn(b, CurrentAfter(a, current))
    ensures ValueAfter(a + b, current, section, key, known)
         == ValueAfter(b, CurrentAfter(a, current), section, key, ValueAfter(a, current, section, key, known))
  {
    if a == [] {
      assert a + b == b;
    } else {
      assert (a + b)[1..] == a[1..] + b;
      AfterConcat(a[1..], b, Next(current, a[0]), section, key,
                  if Assigns(a[0], current, section, key) then Some(a[0].value) else known);
    }
  }

  // Two configurations are equal when they have the same sections and give every key the same value.
  lemma SameConfig(a: Config, b: Config)
    requires a.Keys == b.Keys
    requires forall section: string, key: string :: Get(a, section, key) == Get(b, section, key)
    ensures a == b
  {
    forall section | section in a
      ensures a[section] == b[section]
    {
      forall key: string
        ensures key in a[section] <==> key in b[section]
        ensures key in a[section] ==> a[section][key] == b[section][key]
      {
        assert Get(a, section, key) == Get(b, section, key);
      }
    }
  }
}
