/** What the rewrite writes, character by character: a replaced line, an added line and a new section. */
module SettingsText {
  import opened Text
  import opened ConfigFile
  import opened Settings
  import opened SettingsReading
  import opened SettingsLanding
  import opened SettingsMeaning
  import opened SettingsFailures
  import opened Wrappers

  predicate Blank(indent: string) {
    OneLine(indent) && forall i :: 0 <= i < |indent| ==> IsSpace(indent[i])
  }

  lemma {:induction false} TrimStartOfIndent(indent: string, rest: string)
    requires (forall i :: 0 <= i < |indent| ==> IsSpace(indent[i])) && rest != "" && !IsSpace(rest[0])
    ensures TrimStart(indent + rest) == rest
  {
    hide IsSpace;
    if indent == "" {
      assert indent + rest == rest;
    } else {
      assert (indent + rest)[1..] == indent[1..] + rest;
      TrimStartOfIndent(indent[1..], rest);
    }
  }

  lemma IndentIs(indent: string, key: string, x: string)
    requires Blank(indent) && PlainKey(key)
    ensures Indent(indent + key + " = " + x) == indent
  {
    TrimmedEnds(key);
    hide IsSpace, Trim;
    var rest := key + " = " + x;
    assert indent + key + " = " + x == indent + rest;
    TrimStartOfIndent(indent, rest);
  }

  // A line with one assignment, to the rewrite.
  lemma AssignmentLine(indent: string, key: string, x: string)
    requires Blank(indent) && PlainKey(key)
    ensures var raw := indent + key + " = " + x;
            HeaderName(Trim(raw)) == None && SplitKv(raw).Some? && SplitKv(raw).value.key == key && Indent(raw) == indent
  {
    hide *;
    assert forall i :: 0 <= i < |indent| ==> IsSpace(indent[i]) by { BlankParts(indent); }
    KeyLine(indent, key, x);
    KeyLineTrimmed(indent, key, x);
    assert indent + (key + " = " + x) == indent + key + " = " + x;
    FirstOf(key, TrimEnd(" " + x));
    IndentIs(indent, key, x);
  }

  lemma BlankParts(indent: string)
    requires Blank(indent)
    ensures forall i :: 0 <= i < |indent| ==> IsSpace(indent[i])
  {
    hide IsSpace;
  }

  lemma TwoLines(a: string, b: string)
    requires WholeLine(a) && WholeLine(b)
    ensures Lines(a + "\n" + b + "\n") == [a, b]
  {
    hide Lines;
    assert a + "\n" + b + "\n" == a + ['\n'] + (b + ['\n'] + "");
    assert Lines("") == [] by { NoLines(); }
    LinesCons(b, "");
    LinesCons(a, b + ['\n'] + "");
  }

  lemma EndOfRewrite(s: string, u: Update, w: Update)
    requires u.section == s && w.section != s
    ensures Rewrite([], s, [u, w]) == [Added(u), Gap, Opened(w.section), Added(w)]
  {
    assert [u, w][1..] == [w] && [w][1..] == [];
    assert Of([], s) == [] && NotOf([], s) == [] && Of([], w.section) == [] && NotOf([], w.section) == [];
    assert Of([w], s) == [] && NotOf([w], s) == [w] + [] && Of([w], w.section) == [w] + [] && NotOf([w], w.section) == [];
    assert Of([u, w], s) == [u] + [] && NotOf([u, w], s) == [w];
    hide Of, NotOf;
    assert Flush([u, w], s) == [Added(u)] && Flush([w], w.section) == [Added(w)];
    hide Flush;
    assert NewSections([]) == [];
    assert NewSections([w]) == [Gap, Opened(w.section)] + [Added(w)] + [];
  }

  lemma {:induction false} NoneOf(updates: seq<Update>)
    requires forall i :: 0 <= i < |updates| ==> updates[i].section != ""
    ensures Of(updates, "") == [] && NotOf(updates, "") == updates && Flush(updates, "") == []
  {
    if updates != [] {
      NoneOf(updates[1..]);
    }
  }

  lemma RewriteOfTwo(a: string, raw: string, u: Update, v: Update, w: Update)
    requires HeaderName(Trim(a)) == Some(u.section) && HeaderName(Trim(raw)) == None
    requires SplitKv(raw).Some? && SplitKv(raw).value.key == u.key
    requires u.section == v.section != "" && w.section != u.section && w.section != ""
    ensures Rewrite([a, raw], "", [u, v, w])
         == [Kept(a), Replaced(raw, u), Added(v), Gap, Opened(w.section), Added(w)]
  {
    hide HeaderName, Trim, SplitKv, Flush, NotOf, NewSections, Rewrite;
    var updates := [u, v, w];
    NoneOf(updates);
    EndOfRewrite(u.section, v, w);
    assert [a, raw][1..] == [raw] && [raw][1..] == [];
    assert Replacement(raw, u.section, updates) == Some(0) && Without(updates, 0) == [v, w];
    assert Rewrite([raw], u.section, updates) == [Replaced(raw, u)] + Rewrite([], u.section, [v, w]) by {
      ReplacedFirst(raw, u.section, updates);
    }
    assert Rewrite([a, raw], "", updates) == [] + [Kept(a)] + Rewrite([raw], u.section, updates) by {
      HeaderFirst(a, [raw], "", updates);
      assert [a] + [raw] == [a, raw];
    }
  }

  lemma ReplacedFirst(raw: string, section: string, updates: seq<Update>)
    requires HeaderName(Trim(raw)) == None && Replacement(raw, section, updates) == Some(0)
    ensures Rewrite([raw], section, updates) == [Replaced(raw, updates[0])] + Rewrite([], section, Without(updates, 0))
  {
    hide HeaderName, Trim, Replacement, Flush, NotOf, NewSections;
  }

  lemma HeaderFirst(a: string, rest: seq<string>, section: string, updates: seq<Update>)
    requires HeaderName(Trim(a)).Some?
    ensures Rewrite([a] + rest, section, updates)
         == Flush(updates, section) + [Kept(a)] + Rewrite(rest, HeaderName(Trim(a)).value, NotOf(updates, section))
  {
    hide HeaderName, Trim, Replacement, Flush, NotOf, NewSections;
    assert ([a] + rest)[1..] == rest;
  }

  lemma TextOfSix(a: Out, b: Out, c: Out, d: Out, e: Out, f: Out)
    ensures TextOf([a, b, c, d, e, f])
         == Line(a) + "\n" + (Line(b) + "\n" + (Line(c) + "\n" + (Line(d) + "\n" + (Line(e) + "\n" + (Line(f) + "\n" + "")))))
  {
    hide Line;
    assert [a, b, c, d, e, f][1..] == [b, c, d, e, f] && [b, c, d, e, f][1..] == [c, d, e, f];
    assert [c, d, e, f][1..] == [d, e, f] && [d, e, f][1..] == [e, f] && [e, f][1..] == [f] && [f][1..] == [];
    assert TextOf([f]) == Line(f) + "\n" + "";
    assert TextOf([e, f]) == Line(e) + "\n" + TextOf([f]);
    assert TextOf([d, e, f]) == Line(d) + "\n" + TextOf([e, f]);
    assert TextOf([c, d, e, f]) == Line(c) + "\n" + TextOf([d, e, f]);
    assert TextOf([b, c, d, e, f]) == Line(b) + "\n" + TextOf([c, d, e, f]);
  }

  // What a text of one section and one assignment becomes.
  function FormText(s: string, indent: string, key: string, value: string, added: Update, created: Update): string {
    ("[" + s + "]") + "\n" + ((indent + key + " = " + value) + "\n" + ((added.key + " = " + added.value) + "\n"
    + ("\n" + (("[" + created.section + "]") + "\n" + (created.key + " = " + created.value + "\n")))))
  }

  lemma WrittenText(s: string, indent: string, raw: string, u: Update, v: Update, w: Update)
    requires Indent(raw) == indent && u.section == s
    ensures TextOf([Kept("[" + s + "]"), Replaced(raw, u), Added(v), Gap, Opened(w.section), Added(w)])
         == FormText(s, indent, u.key, u.value, v, w)
  {
    hide Indent;
    var a, b, c, d, e, f := Kept("[" + s + "]"), Replaced(raw, u), Added(v), Gap, Opened(w.section), Added(w);
    assert Line(a) == "[" + s + "]" && Line(b) == indent + u.key + " = " + u.value && Line(c) == v.key + " = " + v.value;
    assert Line(d) == "" && Line(e) == "[" + w.section + "]" && Line(f) == w.key + " = " + w.value;
    hide Line, TextOf;
    TextOfSix(a, b, c, d, e, f);
    assert "" + "\n" + (Line(e) + "\n" + (Line(f) + "\n" + "")) == "\n" + (Line(e) + "\n" + (Line(f) + "\n" + ""));
    assert Line(f) + "\n" + "" == Line(f) + "\n";
  }

  /**
   The characters written for the three kinds of update: the value of a key that is there is replaced behind its
   indent, a key that is not there is added at the end of its section, and a section that is not there is created
   behind a blank line.
   */
  lemma RewriteIsText(indent: string, x: string, u: Update, v: Update, w: Update)
    requires Blank(indent) && PlainSection(u.section) && PlainKey(u.key) && PlainValue(x)
    requires !BlankSecret(u) && !BlankSecret(v) && !BlankSecret(w)
    requires u.section == v.section != "" && w.section != u.section && w.section != ""
    ensures Apply("[" + u.section + "]\n" + indent + u.key + " = " + x + "\n", [u, v, w])
         == FormText(u.section, indent, u.key, u.value, v, w)
  {
    hide *;
    var s, a, raw := u.section, "[" + u.section + "]", indent + u.key + " = " + x;
    var text := a + "\n" + raw + "\n";
    assert "[" + s + "]\n" + indent + u.key + " = " + x + "\n" == text by { Joins(s, indent, u.key, x); }
    HeaderLine(s);
    AssignmentLine(indent, u.key, x);
    HeaderIsWhole(s, "");
    assert a + "" == a;
    assert WholeLine(raw) by { WholeAssignment(indent, u.key, x); }
    TwoLines(a, raw);
    RewriteOfTwo(a, raw, u, v, w);
    WrittenText(s, indent, raw, u, v, w);
    AllKept(u, v, w);
    ApplyIs(text, [u, v, w]);
  }

  lemma Joins(s: string, indent: string, key: string, x: string)
    ensures "[" + s + "]\n" + indent + key + " = " + x + "\n" == "[" + s + "]" + "\n" + (indent + key + " = " + x) + "\n"
  {
  }

  lemma WholeAssignment(indent: string, key: string, x: string)
    requires Blank(indent) && PlainKey(key) && PlainValue(x)
    ensures WholeLine(indent + key + " = " + x)
  {
    TrimmedEnds(x);
    EqualsIsNoSpace();
    hide Trim, IsSpace;
  }

  lemma AllKept(u: Update, v: Update, w: Update)
    requires !BlankSecret(u) && !BlankSecret(v) && !BlankSecret(w)
    ensures EffectiveOnly([u, v, w]) == [u, v, w]
  {
    EffectiveIs(u);
    EffectiveIs(v);
    EffectiveIs(w);
    hide Effective, BlankSecret;
    assert [u, v, w][1..] == [v, w] && [v, w][1..] == [w] && [w][1..] == [];
    assert EffectiveOnly([w]) == [w];
    assert EffectiveOnly([v, w]) == [v] + [w];
  }
}
