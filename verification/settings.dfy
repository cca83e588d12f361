/** The line-preserving rewrite of the configuration by the settings form (src/httpd.rs). */
module Settings {
  import opened Text
  import opened ConfigFile
  import opened Wrappers

  datatype Update = Update(section: string, key: string, value: string)

  const SECRET_KEYS: seq<string> := ["key", "password", "password_sha256", "private_key", "psk"]

  predicate IsSecretKey(key: string) { key in SECRET_KEYS }

  predicate Effective(u: Update) { !(IsSecretKey(u.key) && Trim(u.value) == "") }

  // updates.retain: a blank secret means "keep the old one".
  function EffectiveOnly(updates: seq<Update>): seq<Update> {
    if updates == [] then []
    else if Effective(updates[0]) then [updates[0]] + EffectiveOnly(updates[1..])
    else EffectiveOnly(updates[1..])
  }

  function SplitKv(raw: string): Option<KeyValue> {
    var line := Trim(Before(raw, '#'));
    if line == "" || line[0] == '[' then None else SplitAtEquals(line)
  }

  function Indent(raw: string): string
    ensures Indent(raw) <= raw
  {
    TrimStartShrinks(raw);
    raw[..|raw| - |TrimStart(raw)|]
  }

  lemma {:induction false} TrimStartShrinks(s: string)
    ensures |TrimStart(s)| <= |s|
    ensures s == s[..|s| - |TrimStart(s)|] + TrimStart(s)
    ensures forall i :: 0 <= i < |s| - |TrimStart(s)| ==> IsSpace(s[i])
  {
    if s != "" && IsSpace(s[0]) {
      TrimStartShrinks(s[1..]);
    }
  }

  // ---- the rewritten lines, each with its reason ----

  datatype Out =
    | Kept(raw: string)
    | Replaced(raw: string, update: Update)
    | Added(update: Update)
    | Gap
    | Opened(section: string)

  function Line(o: Out): string {
    match o
    case Kept(raw) => raw
    case Replaced(raw, u) => Indent(raw) + u.key + " = " + u.value
    case Added(u) => u.key + " = " + u.value
    case Gap => ""
    case Opened(section) => "[" + section + "]"
  }

  function TextOf(outs: seq<Out>): string {
    if outs == [] then "" else Line(outs[0]) + "\n" + TextOf(outs[1..])
  }

  function Of(updates: seq<Update>, section: string): seq<Update> {
    if updates == [] then []
    else if updates[0].section == section then [updates[0]] + Of(updates[1..], section)
    else Of(updates[1..], section)
  }

  function NotOf(updates: seq<Update>, section: string): (r: seq<Update>)
    ensures |r| <= |updates|
    ensures forall u <- r :: u in updates && u.section != section
  {
    if updates == [] then []
    else if updates[0].section == section then NotOf(updates[1..], section)
    else [updates[0]] + NotOf(updates[1..], section)
  }

  function AddedAll(updates: seq<Update>): (r: seq<Out>)
    ensures |r| == |updates|
  {
    seq(|updates|, i requires 0 <= i < |updates| => Added(updates[i]))
  }

  function Flush(updates: seq<Update>, section: string): seq<Out> { AddedAll(Of(updates, section)) }

  function NewSections(updates: seq<Update>): seq<Out>
    decreases |updates|
  {
    if updates == [] then []
    else
      var section := updates[0].section;
      [Gap, Opened(section)] + Flush(updates, section) + NewSections(NotOf(updates, section))
  }

  // The first pending update for a key of the current section.
  function Position(updates: seq<Update>, section: string, key: string): (r: Option<nat>)
    ensures r.Some? ==> r.value < |updates| && updates[r.value].section == section && updates[r.value].key == key
    ensures r.Some? ==> forall i :: 0 <= i < r.value ==> updates[i].section != section || updates[i].key != key
    ensures r == None ==> forall i :: 0 <= i < |updates| ==> updates[i].section != section || updates[i].key != key
  {
    if updates == [] then None
    else if updates[0].section == section && updates[0].key == key then Some(0)
    else
      match Position(updates[1..], section, key)
      case Some(i) => Some(i + 1)
      case None => None
  }

  function Without(updates: seq<Update>, i: nat): seq<Update>
    requires i < |updates|
  {
    updates[..i] + updates[i + 1..]
  }

  function Rewrite(lines: seq<string>, section: string, updates: seq<Update>): seq<Out>
    decreases |lines|
  {
    if lines == [] then Flush(updates, section) + NewSections(NotOf(updates, section))
    else
      var raw, rest := lines[0], lines[1..];
      match HeaderName(Trim(raw))
      case Some(name) => Flush(updates, section) + [Kept(raw)] + Rewrite(rest, name, NotOf(updates, section))
      case None =>
        match Replacement(raw, section, updates)
        case Some(i) => [Replaced(raw, updates[i])] + Rewrite(rest, section, Without(updates, i))
        case None => [Kept(raw)] + Rewrite(rest, section, updates)
  }

  function Replacement(raw: string, section: string, updates: seq<Update>): (r: Option<nat>)
    ensures r.Some? ==> r.value < |updates|
  {
    match SplitKv(raw)
    case Some(kv) => Position(updates, section, kv.key)
    case None => None
  }

  function Apply(text: string, updates: seq<Update>): string {
    TextOf(Rewrite(Lines(text), "", EffectiveOnly(updates)))
  }

  // ---- the loops of the original ----

  lemma {:induction false} TextConcat(a: seq<Out>, b: seq<Out>)
    ensures TextOf(a + b) == TextOf(a) + TextOf(b)
  {
    hide Line;
    if a == [] {
      assert a + b == b;
    } else {
      assert (a + b)[1..] == a[1..] + b;
      TextConcat(a[1..], b);
    }
  }

  lemma FlushStep(u: Update, rest: seq<Update>, section: string)
    ensures u.section == section ==>
              TextOf(Flush([u] + rest, section)) == (u.key + " = " + u.value + "\n") + TextOf(Flush(rest, section))
    ensures u.section != section ==> Flush([u] + rest, section) == Flush(rest, section)
    ensures NotOf([u] + rest, section) == if u.section == section then NotOf(rest, section) else [u] + NotOf(rest, section)
  {
    assert ([u] + rest)[1..] == rest;
    if u.section == section {
      assert Flush([u] + rest, section) == [Added(u)] + Flush(rest, section);
      assert ([Added(u)] + Flush(rest, section))[1..] == Flush(rest, section);
    }
  }

  lemma FlushNothing(section: string)
    ensures TextOf(Flush([], section)) == "" && NotOf([], section) == []
  {
  }

  /** Emit and drain the updates of one section; the others stay, in order. */
  method FlushSection(out: string, section: string, updates: seq<Update>) returns (r: string, rest: seq<Update>)
    ensures r == out + TextOf(Flush(updates, section)) && rest == NotOf(updates, section)
  {
    hide TextOf, Flush, NotOf;
    r, rest := out, updates;
    var i := 0;
    assert rest[..0] == [] && rest[0..] == rest;
    while i < |rest|
      invariant i <= |rest|
      invariant r + TextOf(Flush(rest[i..], section)) == out + TextOf(Flush(updates, section))
      invariant rest[..i] + NotOf(rest[i..], section) == NotOf(updates, section)
      decreases |rest| - i
    {
      ghost var kept, u, tail := rest[..i], rest[i], rest[i + 1..];
      assert rest[i..] == [u] + tail;
      FlushStep(u, tail, section);
      if rest[i].section == section {
        var removed := rest[i];
        rest := rest[..i] + rest[i + 1..];
        assert rest[..i] == kept && rest[i..] == tail;
        var line := removed.key + " = " + removed.value + "\n";
        Regroup(r, line, TextOf(Flush(tail, section)));
        r := r + line;
      } else {
        i := i + 1;
        assert rest[..i] == kept + [u];
        Regroup(kept, [u], NotOf(tail, section));
      }
    }
    FlushNothing(section);
    assert rest[i..] == [] && rest[..i] == rest;
  }

  // The distinct sections of the updates, in order of first appearance.
  function Sections(updates: seq<Update>): seq<string>
    decreases |updates|
  {
    if updates == [] then []
    else [updates[0].section] + Sections(NotOf(updates, updates[0].section))
  }

  function NotIn(updates: seq<Update>, seen: seq<string>): seq<Update> {
    if updates == [] then []
    else if updates[0].section in seen then NotIn(updates[1..], seen)
    else [updates[0]] + NotIn(updates[1..], seen)
  }

  lemma {:induction false} NotInSnoc(updates: seq<Update>, seen: seq<string>, section: string)
    ensures NotIn(updates, seen + [section]) == NotOf(NotIn(updates, seen), section)
  {
    if updates != [] {
      NotInSnoc(updates[1..], seen, section);
      assert updates[0].section !in seen ==> NotIn(updates, seen)[1..] == NotIn(updates[1..], seen);
    }
  }

  lemma {:induction false} NotInNone(updates: seq<Update>)
    ensures NotIn(updates, []) == updates
  {
    if updates != [] {
      NotInNone(updates[1..]);
    }
  }

  lemma SectionsOfCons(u: Update, rest: seq<Update>)
    ensures Sections([u] + rest) == [u.section] + Sections(NotOf(rest, u.section))
    ensures NotOf([u] + rest, u.section) == NotOf(rest, u.section)
  {
    assert ([u] + rest)[1..] == rest;
  }

  lemma SectionsStep(u: Update, rest: seq<Update>, seen: seq<string>)
    ensures u.section in seen ==> NotIn([u] + rest, seen) == NotIn(rest, seen)
    ensures u.section !in seen ==>
              Sections(NotIn([u] + rest, seen)) == [u.section] + Sections(NotIn(rest, seen + [u.section]))
  {
    assert ([u] + rest)[1..] == rest;
    if u.section !in seen {
      NotInSnoc(rest, seen, u.section);
      SectionsOfCons(u, NotIn(rest, seen));
    }
  }

  /** The first draining pass: which sections still have to be created. */
  method SeenSections(updates: seq<Update>) returns (seen: seq<string>)
    ensures seen == Sections(updates)
  {
    hide Sections, NotIn;
    seen := [];
    NotInNone(updates);
    assert updates[0..] == updates;
    for i := 0 to |updates|
      invariant seen + Sections(NotIn(updates[i..], seen)) == Sections(updates)
    {
      var section := updates[i].section;
      assert updates[i..] == [updates[i]] + updates[i + 1..];
      SectionsStep(updates[i], updates[i + 1..], seen);
      if section !in seen {
        Regroup(seen, [section], Sections(NotIn(updates[i + 1..], seen + [section])));
        seen := seen + [section];
      }
    }
    assert updates[|updates|..] == [];
    SectionsOfNothing(seen);
  }

  lemma SectionsOfNothing(seen: seq<string>)
    ensures Sections(NotIn([], seen)) == []
  {
  }

  lemma CreateStep(updates: seq<Update>)
    requires updates != []
    ensures var section := updates[0].section;
            TextOf(NewSections(updates))
            == "\n[" + section + "]\n" + TextOf(Flush(updates, section)) + TextOf(NewSections(NotOf(updates, section)))
  {
    hide TextOf, Flush, NotOf;
    var section := updates[0].section;
    OpenedText(section);
    TextConcat([Gap, Opened(section)], Flush(updates, section));
    TextConcat([Gap, Opened(section)] + Flush(updates, section), NewSections(NotOf(updates, section)));
  }

  lemma CreateNothing(updates: seq<Update>)
    requires Sections(updates) == []
    ensures updates == [] && TextOf(NewSections(updates)) == ""
  {
  }

  /** The second draining pass: every pending section is created, and nothing stays pending. */
  method CreateSections(out: string, updates: seq<Update>) returns (r: string, rest: seq<Update>)
    ensures r == out + TextOf(NewSections(updates)) && rest == []
  {
    hide TextOf, NewSections, Flush, NotOf;
    r, rest := out, updates;
    var seen := SeenSections(updates);
    assert seen[0..] == seen;
    for i := 0 to |seen|
      invariant seen[i..] == Sections(rest)
      invariant r + TextOf(NewSections(rest)) == out + TextOf(NewSections(updates))
    {
      var section := seen[i];
      assert section == rest[0].section && seen[i + 1..] == seen[i..][1..];
      CreateStep(rest);
      r := r + ("\n[" + section + "]\n");
      r, rest := FlushSection(r, section, rest);
    }
    assert seen[|seen|..] == [];
    CreateNothing(rest);
  }

  lemma OpenedText(section: string)
    ensures TextOf([Gap, Opened(section)]) == "\n[" + section + "]\n"
  {
    assert [Gap, Opened(section)][1..] == [Opened(section)];
    assert TextOf([Opened(section)]) == "[" + section + "]" + "\n" + TextOf([]);
  }

  method Retain(updates: seq<Update>) returns (rest: seq<Update>)
    ensures rest == EffectiveOnly(updates)
  {
    rest := [];
    for i := 0 to |updates|
      invariant rest + EffectiveOnly(updates[i..]) == EffectiveOnly(updates)
    {
      assert updates[i..] == [updates[i]] + updates[i + 1..];
      if Effective(updates[i]) {
        rest := rest + [updates[i]];
      }
    }
    assert updates[|updates|..] == [];
  }

  // One turn of the main loop as an equation on texts.
  lemma RewriteStep(raw: string, rest: seq<string>, section: string, updates: seq<Update>)
    ensures HeaderName(Trim(raw)).Some? ==>
              TextOf(Rewrite([raw] + rest, section, updates))
              == TextOf(Flush(updates, section)) + (raw + "\n")
                 + TextOf(Rewrite(rest, HeaderName(Trim(raw)).value, NotOf(updates, section)))
    ensures HeaderName(Trim(raw)) == None && Replacement(raw, section, updates).Some? ==>
              var i := Replacement(raw, section, updates).value;
              TextOf(Rewrite([raw] + rest, section, updates))
              == (Line(Replaced(raw, updates[i])) + "\n") + TextOf(Rewrite(rest, section, Without(updates, i)))
    ensures HeaderName(Trim(raw)) == None && Replacement(raw, section, updates) == None ==>
              TextOf(Rewrite([raw] + rest, section, updates))
              == (raw + "\n") + TextOf(Rewrite(rest, section, updates))
  {
    hide Replacement, Flush, NotOf, HeaderName, Trim, Without, TextOf, Line;
    assert ([raw] + rest)[1..] == rest;
    LineText(Kept(raw));
    match HeaderName(Trim(raw)) {
      case Some(name) =>
        var tail := Rewrite(rest, name, NotOf(updates, section));
        hide Rewrite;
        TextConcat(Flush(updates, section), [Kept(raw)]);
        TextConcat(Flush(updates, section) + [Kept(raw)], tail);
      case None =>
        match Replacement(raw, section, updates) {
          case Some(i) =>
            LineText(Replaced(raw, updates[i]));
            TextConcat([Replaced(raw, updates[i])], Rewrite(rest, section, Without(updates, i)));
          case None =>
            TextConcat([Kept(raw)], Rewrite(rest, section, updates));
        }
    }
  }

  lemma LineText(o: Out)
    ensures TextOf([o]) == Line(o) + "\n"
    ensures o.Kept? ==> TextOf([o]) == o.raw + "\n"
  {
    assert [o][1..] == [];
    assert TextOf([o]) == Line(o) + "\n" + "";
  }

  /** The rewrite as the original performs it; both draining loops end with nothing pending. */
  method ApplySettings(text: string, given: seq<Update>) returns (out: string)
    ensures out == Apply(text, given)
  {
    hide Rewrite, Flush, NotOf, Line, Lines, NewSections, Position, TextOf, Replacement, HeaderName, Trim, Without;
    var updates := Retain(given);
    var lines := Lines(text);
    var section := "";
    out := "";
    assert lines[0..] == lines;
    for n := 0 to |lines|
      invariant out + TextOf(Rewrite(lines[n..], section, updates)) == Apply(text, given)
    {
      var raw := lines[n];
      assert lines[n..] == [raw] + lines[n + 1..];
      RewriteStep(raw, lines[n + 1..], section, updates);
      match HeaderName(Trim(raw)) {
        case Some(name) =>
          out, updates := FlushSection(out, section, updates);
          section := name;
          Regroup(out, raw + "\n", TextOf(Rewrite(lines[n + 1..], name, updates)));
          Regroup(out, raw, "\n");
          out := out + raw;
          out := out + "\n";
        case None =>
          match Replacement(raw, section, updates) {
            case Some(i) =>
              var line := Line(Replaced(raw, updates[i]));
              updates := Without(updates, i);
              Regroup(out, line + "\n", TextOf(Rewrite(lines[n + 1..], section, updates)));
              Regroup(out, line, "\n");
              out := out + line + "\n";
            case None =>
              Regroup(out, raw + "\n", TextOf(Rewrite(lines[n + 1..], section, updates)));
              Regroup(out, raw, "\n");
              out := out + raw;
              out := out + "\n";
          }
      }
    }
    assert lines[|lines|..] == [];
    RewriteEnd(section, updates);
    out, updates := FlushSection(out, section, updates);
    out, updates := CreateSections(out, updates);
    assert updates == [];
  }

  lemma RewriteEnd(section: string, updates: seq<Update>)
    ensures TextOf(Rewrite([], section, updates))
         == TextOf(Flush(updates, section)) + TextOf(NewSections(NotOf(updates, section)))
  {
    TextConcat(Flush(updates, section), NewSections(NotOf(updates, section)));
  }
}
