/**
 Two independent readers of one text: what the parser of src/config.rs finds after the rewrite of src/httpd.rs, for
 every text, and when that is the old configuration overridden by the updates.
 */
module SettingsMeaning {
  import opened Text
  import opened ConfigFile
  import opened Settings
  import opened SettingsReading
  import opened SettingsLanding
  import opened Wrappers

  // ---- what the form asks for ----

  // A field left blank asks to keep the secret there is.
  predicate BlankSecret(u: Update) {
    && u.key in {"key", "password", "password_sha256", "private_key", "psk"}
    && forall i :: 0 <= i < |u.value| ==> IsSpace(u.value[i])
  }

  predicate Asks(given: seq<Update>, u: Update) { u in given && !BlankSecret(u) }

  // Every update but blank secrets stored, everything else as it was.
  function Override(cfg: Config, given: seq<Update>): Config
    decreases |given|
  {
    if given == [] then cfg
    else if BlankSecret(given[0]) then Override(cfg, given[1..])
    else Override(Insert(cfg, given[0].section, given[0].key, Stored(given[0].value)), given[1..])
  }

  lemma {:induction false} TrimStartOfSpaces(s: string)
    ensures TrimStart(s) == "" <==> forall i :: 0 <= i < |s| ==> IsSpace(s[i])
  {
    if s != "" {
      TrimStartOfSpaces(s[1..]);
      assert forall i :: 1 <= i < |s| ==> s[i] == s[1..][i - 1];
    }
  }

  lemma TrimOfSpaces(s: string)
    ensures Trim(s) == "" <==> forall i :: 0 <= i < |s| ==> IsSpace(s[i])
  {
    TrimStartOfSpaces(s);
    TrimStartEnds(s);
    hide IsSpace;
  }

  // What is left of the front begins with no white space, so trimming the end leaves something of it.
  lemma {:induction false} TrimStartEnds(s: string)
    ensures TrimStart(s) != "" ==> !IsSpace(TrimStart(s)[0]) && TrimEnd(TrimStart(s)) != ""
  {
    if s != "" && IsSpace(s[0]) {
      TrimStartEnds(s[1..]);
    } else if s != "" {
      TrimEndHead(s);
    }
  }

  lemma {:induction false} TrimEndHead(s: string)
    requires s != "" && !IsSpace(s[0])
    ensures TrimEnd(s) != ""
  {
    hide IsSpace;
    if IsSpace(s[|s| - 1]) {
      TrimEndHead(s[..|s| - 1]);
    }
  }

  lemma EffectiveIs(u: Update)
    ensures Effective(u) <==> !BlankSecret(u)
  {
    TrimOfSpaces(u.value);
    hide Trim, IsSpace;
  }

  lemma {:induction false} EffectiveAsks(given: seq<Update>)
    ensures forall u :: u in EffectiveOnly(given) <==> Asks(given, u)
  {
    hide Effective, BlankSecret;
    if given != [] {
      EffectiveIs(given[0]);
      EffectiveAsks(given[1..]);
      assert given == [given[0]] + given[1..];
    }
  }

  // No two updates but blank secrets are for the same place.
  predicate DistinctlyAsked(given: seq<Update>) {
    forall i, j :: 0 <= i < j < |given| && !BlankSecret(given[i]) && !BlankSecret(given[j]) ==>
      given[i].section != given[j].section || given[i].key != given[j].key
  }

  lemma {:induction false} EffectiveDistinct(given: seq<Update>)
    requires DistinctlyAsked(given)
    ensures Distinct(EffectiveOnly(given))
  {
    hide Effective, BlankSecret;
    if given != [] {
      var u, rest := given[0], given[1..];
      assert forall i :: 0 <= i < |rest| ==> rest[i] == given[i + 1];
      EffectiveDistinct(rest);
      EffectiveIs(u);
      EffectiveAsks(rest);
      var kept := EffectiveOnly(rest);
      if Effective(u) {
        forall j | 0 <= j < |kept|
          ensures u.section != kept[j].section || u.key != kept[j].key
        {
          assert kept[j] in kept;
          var k :| 0 <= k < |rest| && rest[k] == kept[j];
          assert given[k + 1] == kept[j];
        }
      }
    }
  }

  lemma {:induction false} OverrideIsEffective(cfg: Config, given: seq<Update>)
    ensures Override(cfg, given) == Override(cfg, EffectiveOnly(given))
    decreases |given|
  {
    hide Effective, BlankSecret, Insert, Stored;
    if given != [] {
      var u, rest := given[0], given[1..];
      EffectiveIs(u);
      if Effective(u) {
        assert ([u] + EffectiveOnly(rest))[1..] == EffectiveOnly(rest);
        OverrideIsEffective(Insert(cfg, u.section, u.key, Stored(u.value)), rest);
      } else {
        OverrideIsEffective(cfg, rest);
      }
    }
  }

  // What is asked for, of updates without blank secrets.
  predicate AllAsk(updates: seq<Update>) { forall i :: 0 <= i < |updates| ==> !BlankSecret(updates[i]) }

  lemma EffectiveAllAsk(given: seq<Update>)
    ensures AllAsk(EffectiveOnly(given))
  {
    hide BlankSecret;
    EffectiveAsks(given);
    assert forall i :: 0 <= i < |EffectiveOnly(given)| ==> EffectiveOnly(given)[i] in EffectiveOnly(given);
  }

  function Wanted(updates: seq<Update>, section: string, key: string): Option<string> {
    match Pending(updates, section, key)
    case Some(u) => Some(Stored(u.value))
    case None => None
  }

  lemma InsertedValue(cfg: Config, u: Update, value: string, section: string, key: string)
    ensures Get(Insert(cfg, u.section, u.key, value), section, key)
         == (if For(u, section, key) then Some(value) else Get(cfg, section, key))
    ensures Insert(cfg, u.section, u.key, value).Keys == cfg.Keys + {u.section}
  {
  }

  lemma TouchedCons(updates: seq<Update>)
    requires updates != []
    ensures Touched(updates) == {updates[0].section} + Touched(updates[1..])
  {
    assert updates == [updates[0]] + updates[1..];
  }

  lemma NothingTouched()
    ensures Touched([]) == {}
  {
  }

  lemma {:induction false} OverrideValue(cfg: Config, updates: seq<Update>, section: string, key: string)
    requires Distinct(updates) && AllAsk(updates)
    ensures Get(Override(cfg, updates), section, key) == Or(Wanted(updates, section, key), Get(cfg, section, key))
    ensures Override(cfg, updates).Keys == cfg.Keys + Touched(updates)
    decreases |updates|
  {
    hide Stored, Get, Insert, Touched, BlankSecret;
    if updates == [] {
      assert Touched([]) == {} by { NothingTouched(); }
    } else {
      var u, rest := updates[0], updates[1..];
      InsertedValue(cfg, u, Stored(u.value), section, key);
      OverrideValue(Insert(cfg, u.section, u.key, Stored(u.value)), rest, section, key);
      TouchedCons(updates);
      if For(u, section, key) {
        PendingNone(rest, section, key);
      }
    }
  }

  // ---- what the parser finds after the rewrite ----

  predicate InDomain(given: seq<Update>) {
    (forall u :: u in given && !BlankSecret(u) ==> PlainUpdate(u)) && DistinctlyAsked(given)
  }

  lemma DomainIs(given: seq<Update>)
    requires InDomain(given)
    ensures PlainUpdates(EffectiveOnly(given)) && Distinct(EffectiveOnly(given))
  {
    hide PlainUpdate, BlankSecret;
    EffectiveDistinct(given);
    EffectiveAsks(given);
    assert forall i :: 0 <= i < |EffectiveOnly(given)| ==> EffectiveOnly(given)[i] in EffectiveOnly(given);
  }

  function LandingIn(text: string, u: Update): Landing { LandingOf(Lines(text), "", "", u) }

  predicate LandsAt(text: string, u: Update, section: string, key: string) {
    u.key == key && LandingIn(text, u).place == section
  }

  // Nothing happens to the landing place behind the update: no line of the text, no other update.
  predicate PrevailsIn(text: string, given: seq<Update>, u: Update) {
    var l := LandingIn(text, u);
    && !l.beyond
    && forall w :: w in given && !BlankSecret(w) && w != u && LandsAt(text, w, l.place, u.key) ==>
         LandingIn(text, w).at < l.at
  }

  lemma PrevailsIs(text: string, given: seq<Update>, u: Update)
    ensures PrevailsIn(text, given, u) <==> Prevails(Lines(text), "", "", EffectiveOnly(given), u)
  {
    hide EffectiveOnly, BlankSecret, LandingOf, Lines;
    EffectiveAsks(given);
    assert forall w, section, key :: LandsAt(text, w, section, key) <==> LandsOn(Lines(text), "", "", w, section, key);
  }

  lemma PlainRewrite(text: string, given: seq<Update>)
    requires InDomain(given)
    ensures PlainOuts(Rewrite(Lines(text), "", EffectiveOnly(given)))
  {
    hide EffectiveOnly, Rewrite, PlainUpdates, Distinct, Lines;
    DomainIs(given);
    LinesAreLines(text);
    RewriteIsPlain(Lines(text), "", EffectiveOnly(given));
  }

  lemma WinnerApplied(text: string, given: seq<Update>, section: string, key: string)
    requires InDomain(given)
    ensures Get(ParseText(Apply(text, given)), section, key)
         == Or(Winner(Lines(text), "", "", EffectiveOnly(given), section, key), Get(ParseText(text), section, key))
    ensures ParseText(Apply(text, given)).Keys
         == ParseText(text).Keys + Places(Lines(text), "", "", EffectiveOnly(given))
  {
    hide Lines, Readings, Rewrite, TextOf, EffectiveOnly, OutReadings, ParseReadings, ValueAfter, SectionsIn, Flat;
    hide PlainUpdates, Distinct, Winner, Places, PlainOuts;
    var updates, rs := EffectiveOnly(given), Readings(Lines(text));
    var outs := Rewrite(Lines(text), "", updates);
    PlainRewrite(text, given);
    DomainIs(given);
    TextReads(outs);
    FlatMeans(outs, "", section, key, None);
    RewriteMeans(Lines(text), "", "", updates, section, key, None);
    RewriteSections(Lines(text), "", "", updates);
    ParsedValue(Flat(outs), map[], "", section, key);
    ParsedValue(rs, map[], "", section, key);
    ParsedSections(Flat(outs), map[], "");
    ParsedSections(rs, map[], "");
  }

  /**
   Exactly what the parser finds after the rewrite, for every text: the value of the update that prevails at the place,
   or what it found before; and the sections are the old ones and those where updates land.
   */
  lemma AppliedValue(text: string, given: seq<Update>, section: string, key: string)
    requires InDomain(given)
    ensures forall u :: Asks(given, u) && LandsAt(text, u, section, key) && PrevailsIn(text, given, u) ==>
              Get(ParseText(Apply(text, given)), section, key) == Some(Put(u.value))
    ensures (forall u :: Asks(given, u) && LandsAt(text, u, section, key) ==> !PrevailsIn(text, given, u)) ==>
              Get(ParseText(Apply(text, given)), section, key) == Get(ParseText(text), section, key)
    ensures ParseText(Apply(text, given)).Keys
         == ParseText(text).Keys + set u <- given | !BlankSecret(u) :: LandingIn(text, u).place
  {
    hide Lines, EffectiveOnly, ParseText, Apply, Winner, Prevails, PlainUpdates, Put, LandingOf, BlankSecret, PrevailsIn;
    hide InDomain;
    var lines, updates := Lines(text), EffectiveOnly(given);
    DomainIs(given);
    EffectiveAsks(given);
    WinnerApplied(text, given, section, key);
    WinnerIs(lines, "", "", updates, section, key);
    forall u
      ensures LandsAt(text, u, section, key) <==> LandsOn(lines, "", "", u, section, key)
      ensures PrevailsIn(text, given, u) <==> Prevails(lines, "", "", updates, u)
    {
      PrevailsIs(text, given, u);
    }
    PlacesAre(text, given);
  }

  lemma PlacesAre(text: string, given: seq<Update>)
    ensures Places(Lines(text), "", "", EffectiveOnly(given)) == set u <- given | !BlankSecret(u) :: LandingIn(text, u).place
  {
    hide Lines, EffectiveOnly, LandingOf, BlankSecret;
    EffectiveAsks(given);
    var a, b := Places(Lines(text), "", "", EffectiveOnly(given)), set u <- given | !BlankSecret(u) :: LandingIn(text, u).place;
    forall p | p in a ensures p in b {
      var u :| u in EffectiveOnly(given) && p == LandingOf(Lines(text), "", "", u).place;
      assert Asks(given, u) && p == LandingIn(text, u).place;
    }
    forall p | p in b ensures p in a {
      var u :| u in given && !BlankSecret(u) && p == LandingIn(text, u).place;
      assert Asks(given, u);
    }
  }

  // ---- when that is the override ----

  // The place an update is for ends up with the value asked for.
  predicate Settles(text: string, given: seq<Update>, u: Update) {
    || (exists w :: w in given && !BlankSecret(w) && LandsAt(text, w, u.section, u.key) && PrevailsIn(text, given, w)
                    && Put(w.value) == Stored(u.value))
    || ((forall w :: w in given && !BlankSecret(w) && LandsAt(text, w, u.section, u.key) ==> !PrevailsIn(text, given, w))
        && Get(ParseText(text), u.section, u.key) == Some(Stored(u.value)))
  }

  // The place where an update prevails is one that some update is for, or it held the value already.
  predicate Spares(text: string, given: seq<Update>, u: Update) {
    var place := LandingIn(text, u).place;
    PrevailsIn(text, given, u) ==>
      (exists w :: w in given && !BlankSecret(w) && For(w, place, u.key)) || Get(ParseText(text), place, u.key) == Some(Put(u.value))
  }

  lemma SettledIs(text: string, given: seq<Update>, u: Update)
    requires InDomain(given)
    ensures Settles(text, given, u) <==>
            Get(ParseText(Apply(text, given)), u.section, u.key) == Some(Stored(u.value))
  {
    hide ParseText, Apply, InDomain, Put, Stored, LandingIn, PrevailsIn, BlankSecret;
    AppliedValue(text, given, u.section, u.key);
    assert forall w :: Asks(given, w) <==> w in given && !BlankSecret(w);
  }

  lemma SparedIs(text: string, given: seq<Update>, u: Update)
    requires InDomain(given) && Asks(given, u)
    ensures var place := LandingIn(text, u).place;
            PrevailsIn(text, given, u) ==> Get(ParseText(Apply(text, given)), place, u.key) == Some(Put(u.value))
  {
    hide ParseText, Apply, InDomain, Put, LandingIn, PrevailsIn, BlankSecret;
    AppliedValue(text, given, LandingIn(text, u).place, u.key);
  }

  // The value the override has at a place.
  lemma OverriddenValue(cfg: Config, given: seq<Update>, section: string, key: string)
    requires InDomain(given)
    ensures forall u :: Asks(given, u) && For(u, section, key) ==> Get(Override(cfg, given), section, key) == Some(Stored(u.value))
    ensures (forall u :: Asks(given, u) ==> !For(u, section, key)) ==>
              Get(Override(cfg, given), section, key) == Get(cfg, section, key)
    ensures Override(cfg, given).Keys == cfg.Keys + set u <- given | !BlankSecret(u) :: u.section
  {
    hide Stored, Get, BlankSecret, InDomain, EffectiveOnly, Override, Pending, PlainUpdates, Distinct;
    var updates := EffectiveOnly(given);
    DomainIs(given);
    EffectiveAsks(given);
    EffectiveAllAsk(given);
    OverrideIsEffective(cfg, given);
    OverrideValue(cfg, updates, section, key);
    forall u | Asks(given, u) && For(u, section, key)
      ensures Pending(updates, section, key) == Some(u)
    {
      PendingIs(updates, u);
    }
    if Pending(updates, section, key).Some? {
      assert Asks(given, Pending(updates, section, key).value);
    }
    AskedSections(given);
  }

  lemma AskedSections(given: seq<Update>)
    ensures Touched(EffectiveOnly(given)) == set u <- given | !BlankSecret(u) :: u.section
  {
    hide EffectiveOnly, BlankSecret;
    EffectiveAsks(given);
    var a, b := Touched(EffectiveOnly(given)), set u <- given | !BlankSecret(u) :: u.section;
    forall p | p in a ensures p in b {
      var u :| u in EffectiveOnly(given) && p == u.section;
      assert Asks(given, u);
    }
    forall p | p in b ensures p in a {
      var u :| u in given && !BlankSecret(u) && p == u.section;
      assert Asks(given, u);
    }
  }

  /**
   The rewrite means the override exactly when the own place of every update, blank secrets aside, ends up with its
   value, and every other place where one prevails held that value already. Both are read off the old text.
   */
  lemma RewriteAgreesWithParserIff(text: string, given: seq<Update>)
    requires InDomain(given)
    ensures ParseText(Apply(text, given)) == Override(ParseText(text), given) <==>
            forall u :: u in given && !BlankSecret(u) ==> Settles(text, given, u) && Spares(text, given, u)
  {
    var before, after := ParseText(text), ParseText(Apply(text, given));
    var goal := Override(before, given);
    hide ParseText, Apply, InDomain, Put, Stored, LandingIn, PrevailsIn, Override, Settles, Spares, Get, BlankSecret;
    if after == goal {
      forall u | Asks(given, u)
        ensures Settles(text, given, u) && Spares(text, given, u)
      {
        OverriddenValue(before, given, u.section, u.key);
        assert For(u, u.section, u.key);
        SettledIs(text, given, u);
        SparesIfOverridden(text, given, u);
      }
      assert forall u :: u in given && !BlankSecret(u) ==> Asks(given, u);
    }
    if forall u :: u in given && !BlankSecret(u) ==> Settles(text, given, u) && Spares(text, given, u) {
      forall section: string, key: string
        ensures Get(after, section, key) == Get(goal, section, key)
      {
        SettledEverywhere(text, given, section, key);
      }
      SameSections(text, given);
      SameConfig(after, goal);
    }
  }

  lemma SparesIfOverridden(text: string, given: seq<Update>, u: Update)
    requires InDomain(given) && Asks(given, u)
    requires ParseText(Apply(text, given)) == Override(ParseText(text), given)
    ensures Spares(text, given, u)
  {
    var place := LandingIn(text, u).place;
    hide ParseText, Apply, InDomain, Put, Stored, LandingIn, PrevailsIn, Override, Get, BlankSecret;
    SparedIs(text, given, u);
    OverriddenValue(ParseText(text), given, place, u.key);
    if w :| Asks(given, w) && For(w, place, u.key) {
      assert w in given && !BlankSecret(w);
    }
  }

  lemma SettledEverywhere(text: string, given: seq<Update>, section: string, key: string)
    requires InDomain(given)
    requires forall u :: u in given && !BlankSecret(u) ==> Settles(text, given, u) && Spares(text, given, u)
    ensures Get(ParseText(Apply(text, given)), section, key) == Get(Override(ParseText(text), given), section, key)
  {
    hide ParseText, Apply, InDomain, Put, Stored, LandingIn, PrevailsIn, Override, Get, Settles, BlankSecret;
    OverriddenValue(ParseText(text), given, section, key);
    AppliedValue(text, given, section, key);
    if u :| Asks(given, u) && For(u, section, key) {
      SettledIs(text, given, u);
    } else if w :| Asks(given, w) && LandsAt(text, w, section, key) && PrevailsIn(text, given, w) {
      assert Spares(text, given, w);
      forall v | v in given && !BlankSecret(v) ensures !For(v, section, key) {
        assert Asks(given, v);
      }
    }
  }

  lemma SameSections(text: string, given: seq<Update>)
    requires InDomain(given)
    requires forall u :: u in given && !BlankSecret(u) ==> Settles(text, given, u)
    ensures ParseText(Apply(text, given)).Keys == Override(ParseText(text), given).Keys
  {
    var before, after := ParseText(text), ParseText(Apply(text, given));
    hide ParseText, Apply, InDomain, Put, Stored, LandingIn, PrevailsIn, Override, Settles, PlainUpdate, BlankSecret;
    OverriddenValue(before, given, "", "");
    AppliedValue(text, given, "", "");
    forall u | u in given && !BlankSecret(u)
      ensures u.section in after.Keys
      ensures LandingIn(text, u).place == u.section || LandingIn(text, u).place in before.Keys
    {
      SettledIs(text, given, u);
      PlainInDomain(given, u);
      LandsInSection(text, u);
    }
  }

  lemma PlainInDomain(given: seq<Update>, u: Update)
    requires InDomain(given) && u in given && !BlankSecret(u)
    ensures PlainKey(u.key) && PlainSection(u.section)
  {
    hide BlankSecret, PlainUpdate;
    PlainParts(u);
  }

  lemma PlainParts(u: Update)
    requires PlainUpdate(u)
    ensures PlainKey(u.key) && PlainSection(u.section)
  {
  }

  // ---- updates land in sections that the parser knows ----

  lemma {:induction false} TrimStartKeeps(s: string, c: char)
    requires c in s && !IsSpace(c)
    ensures c in TrimStart(s)
  {
    if IsSpace(s[0]) {
      assert s == [s[0]] + s[1..];
      TrimStartKeeps(s[1..], c);
    }
  }

  lemma {:induction false} TrimEndKeeps(s: string, c: char)
    requires c in s && !IsSpace(c)
    ensures c in TrimEnd(s)
  {
    hide IsSpace;
    if IsSpace(s[|s| - 1]) {
      assert s == s[..|s| - 1] + [s[|s| - 1]];
      TrimEndKeeps(s[..|s| - 1], c);
    }
  }

  // A header without a hash in its name is a header to both readers.
  lemma PlainHeaderIsRead(raw: string, name: string)
    requires HeaderName(Trim(raw)) == Some(name) && '#' !in name
    ensures Read(raw) == Header(name)
  {
    assert !IsSpace('#') by { EqualsIsNoSpace(); }
    hide IsSpace;
    if '#' in raw {
      TrimStartKeeps(raw, '#');
      TrimEndKeeps(TrimStart(raw), '#');
      var line := Trim(raw);
      assert line == ['['] + line[1..|line| - 1] + [']'];
      TrimStartKeeps(line[1..|line| - 1], '#');
      TrimEndKeeps(TrimStart(line[1..|line| - 1]), '#');
      assert false;
    }
    hide Trim;
    assert Before(raw, '#') == raw;
  }

  lemma {:induction false} PlaceIsKnown(lines: seq<string>, here: string, current: string, known: set<string>, u: Update)
    requires PlainSection(u.section)
    requires here == u.section ==> current == u.section || current in known
    ensures var place := LandingOf(lines, here, current, u).place;
            place == u.section || place in known + SectionsIn(Readings(lines), current)
  {
    hide Read, HeaderName, Trim, SplitKv, Readings, Assigned;
    if lines != [] {
      var raw, rest, r := lines[0], lines[1..], Read(lines[0]);
      var next := Next(current, r);
      assert lines == [raw] + rest;
      ConsReading(raw, rest);
      OneMeans(r, Readings(rest), current, "", "", None);
      hide SectionsIn;
      var seen := known + (if r.Nothing? then {} else {next});
      match HeaderName(Trim(raw)) {
        case Some(name) =>
          if here != u.section {
            if name == u.section {
              PlainHeaderIsRead(raw, name);
            }
            PlaceIsKnown(rest, name, next, seen, u);
          }
        case None =>
          if !Matches(raw, here, u) {
            PlaceIsKnown(rest, here, next, seen, u);
          }
      }
    }
  }

  lemma LandsInSection(text: string, u: Update)
    requires PlainSection(u.section)
    ensures LandingIn(text, u).place == u.section || LandingIn(text, u).place in ParseText(text).Keys
  {
    hide Lines, Readings, LandingOf, ParseReadings, SectionsIn, Trim;
    PlaceIsKnown(Lines(text), "", "", {}, u);
    ParsedSections(Readings(Lines(text)), map[], "");
  }

  // ---- one update ----

  // A value on one line is stored as asked for.
  lemma OneLinePut(value: string)
    requires OneLine(value)
    ensures Put(value) == Stored(value) && Spilled(value) == []
  {
  }

  lemma OnlyUpdate(text: string, u: Update)
    requires !BlankSecret(u)
    ensures PlainUpdate(u) ==> InDomain([u])
    ensures forall w :: Asks([u], w) <==> w == u
    ensures PrevailsIn(text, [u], u) <==> !LandingIn(text, u).beyond
  {
    hide BlankSecret, LandingOf, Lines, PlainUpdate;
  }

  /**
   One update means the override exactly when it lands in its own section with nothing assigned behind it, or its own
   place and, unless the text assigns it again, the place where it lands hold the value already.
   */
  lemma OneUpdateAgreesIff(text: string, u: Update)
    requires PlainUpdate(u) && !BlankSecret(u)
    ensures var before, l := ParseText(text), LandingIn(text, u);
            ParseText(Apply(text, [u])) == Override(before, [u]) <==>
            if !l.beyond && l.place == u.section then Put(u.value) == Stored(u.value)
            else Get(before, u.section, u.key) == Some(Stored(u.value))
                 && (l.beyond || Get(before, l.place, u.key) == Some(Put(u.value)))
  {
    OnlyUpdate(text, u);
    hide PlainUpdate, ParseText, Apply, LandingIn, PrevailsIn, Override, Get, Put, Stored, BlankSecret, InDomain;
    RewriteAgreesWithParserIff(text, [u]);
    assert forall w :: w in [u] && !BlankSecret(w) <==> w == u;
    assert Spares(text, [u], u) <==>
      (PrevailsIn(text, [u], u) ==> LandingIn(text, u).place == u.section
                                    || Get(ParseText(text), LandingIn(text, u).place, u.key) == Some(Put(u.value)));
    assert LandsAt(text, u, u.section, u.key) <==> LandingIn(text, u).place == u.section;
  }

  /** An update that is no blank secret, lands at home and is not assigned again, is what the parser finds. */
  lemma UpdateIsFound(text: string, u: Update)
    requires PlainUpdate(u) && !BlankSecret(u)
    requires LandingIn(text, u).place == u.section && !LandingIn(text, u).beyond
    ensures Get(ParseText(Apply(text, [u])), u.section, u.key) == Some(Put(u.value))
    ensures '\n' !in u.value ==> Get(ParseText(Apply(text, [u])), u.section, u.key) == Some(Stored(u.value))
  {
    OnlyUpdate(text, u);
    hide PlainUpdate, ParseText, Apply, LandingIn, PrevailsIn, Get, Put, Stored, BlankSecret, InDomain;
    AppliedValue(text, [u], u.section, u.key);
    assert Asks([u], u) && LandsAt(text, u, u.section, u.key);
    if '\n' !in u.value {
      OneLinePut(u.value);
    }
  }

  // The lines of a text, each ended by a line feed.
  function Ended(lines: seq<string>): string {
    if lines == [] then "" else lines[0] + "\n" + Ended(lines[1..])
  }

  lemma {:induction false} NothingRewritten(lines: seq<string>, section: string)
    ensures TextOf(Rewrite(lines, section, [])) == Ended(lines)
  {
    hide HeaderName, Trim, SplitKv;
    if lines == [] {
      assert Flush([], section) + NewSections(NotOf([], section)) == [];
    } else {
      var next := match HeaderName(Trim(lines[0])) case Some(name) => name case None => section;
      assert Replacement(lines[0], section, []) == None;
      var tail := Rewrite(lines[1..], next, []);
      assert Flush([], section) + [Kept(lines[0])] == [Kept(lines[0])];
      assert Rewrite(lines, section, []) == [Kept(lines[0])] + tail;
      hide Rewrite;
      assert ([Kept(lines[0])] + tail)[1..] == tail;
      NothingRewritten(lines[1..], next);
    }
  }

  lemma {:induction false} EndedReadsTheSame(lines: seq<string>)
    requires forall i :: 0 <= i < |lines| ==> OneLine(lines[i])
    ensures Readings(Lines(Ended(lines))) == Readings(lines)
  {
    hide Read, Lines;
    if lines == [] {
      assert Ended(lines) == "" && Lines("") == [] by { NothingToRead(); }
    } else {
      var raw, rest := lines[0], lines[1..];
      EndedReadsTheSame(rest);
      assert raw + "\n" + Ended(rest) == raw + ['\n'] + Ended(rest);
      LinesCons(raw, Ended(rest));
      ReadWithoutCr(raw);
      ConsReading(DropCr(raw), Lines(Ended(rest)));
      ConsReading(raw, rest);
      assert lines == [raw] + rest;
    }
  }

  lemma NothingToRead()
    ensures Lines("") == []
  {
  }

  lemma {:induction false} BlanksAreDropped(given: seq<Update>)
    requires forall u :: u in given ==> BlankSecret(u)
    ensures EffectiveOnly(given) == []
  {
    hide Effective, BlankSecret;
    if given != [] {
      EffectiveIs(given[0]);
      BlanksAreDropped(given[1..]);
    }
  }

  /** Blank secrets alone: the old lines come back as they are, and the parser finds what it found before. */
  lemma BlankSecretsAreKept(text: string, given: seq<Update>)
    requires forall u :: u in given ==> u.key in {"key", "password", "password_sha256", "private_key", "psk"} && Trim(u.value) == ""
    ensures Apply(text, given) == Ended(Lines(text))
    ensures ParseText(Apply(text, given)) == ParseText(text)
  {
    forall u | u in given ensures BlankSecret(u) { TrimOfSpaces(u.value); }
    BlanksAreDropped(given) by { hide BlankSecret, Trim; }
    hide EffectiveOnly, Rewrite, Lines, Readings, ParseReadings, Trim;
    NothingRewritten(Lines(text), "");
    LinesAreLines(text);
    EndedReadsTheSame(Lines(text));
  }

  lemma BlankIsDropped(u: Update)
    requires BlankSecret(u)
    ensures EffectiveOnly([u]) == []
  {
    EffectiveIs(u);
    hide Effective, BlankSecret;
    assert [u][1..] == [];
  }

  /** A blank secret among other updates changes nothing of what they do. */
  lemma BlankSecretIsIgnored(text: string, a: seq<Update>, u: Update, b: seq<Update>)
    requires u.key in {"key", "password", "password_sha256", "private_key", "psk"} && Trim(u.value) == ""
    ensures Apply(text, a + [u] + b) == Apply(text, a + b)
  {
    TrimOfSpaces(u.value);
    BlankIsDropped(u);
    hide Rewrite, Lines, Trim, EffectiveOnly, TextOf, BlankSecret, IsSpace;
    EffectiveConcat(a + [u], b);
    EffectiveConcat(a, [u]);
    EffectiveConcat(a, b);
    assert EffectiveOnly(a) + [] == EffectiveOnly(a);
  }

  lemma {:induction false} EffectiveConcat(a: seq<Update>, b: seq<Update>)
    ensures EffectiveOnly(a + b) == EffectiveOnly(a) + EffectiveOnly(b)
  {
    hide Effective;
    if a == [] {
      assert a + b == b;
    } else {
      assert (a + b)[1..] == a[1..] + b;
      EffectiveConcat(a[1..], b);
    }
  }

  // ---- texts whose headers both readers see ----

  // A line that both readers take for the same header, or neither does.
  predicate SameHeader(raw: string) { HeaderName(Trim(raw)) == HeaderName(Trim(Before(raw, '#'))) }

  predicate SameHeaders(lines: seq<string>) { forall i :: 0 <= i < |lines| ==> SameHeader(lines[i]) }

  lemma SameHeaderReads(raw: string, current: string)
    requires SameHeader(raw)
    ensures match HeaderName(Trim(raw)) case Some(name) => Read(raw) == Header(name) case None => !Read(raw).Header?
    ensures Next(current, Read(raw)) == match HeaderName(Trim(raw)) case Some(name) => name case None => current
  {
    hide Trim, Before;
    assert HeaderName("") == None;
  }

  /** With the same headers for both readers every update lands in its own section. */
  lemma {:induction false} SameHeadersLandHome(lines: seq<string>, here: string, u: Update)
    requires SameHeaders(lines)
    ensures LandingOf(lines, here, here, u).place == u.section
  {
    hide SameHeader, Read, HeaderName, Trim, SplitKv, Assigned, Readings;
    if lines != [] {
      SameHeaderReads(lines[0], here);
      match HeaderName(Trim(lines[0])) {
        case Some(name) =>
          if here != u.section {
            SameHeadersLandHome(lines[1..], name, u);
          }
        case None =>
          if !Matches(lines[0], here, u) {
            SameHeadersLandHome(lines[1..], here, u);
          }
      }
    }
  }

  lemma SamePlaceIsSame(given: seq<Update>, u: Update, w: Update)
    requires InDomain(given) && Asks(given, u) && Asks(given, w) && u.section == w.section && u.key == w.key
    ensures u == w
  {
    hide BlankSecret, PlainUpdate;
    var i :| 0 <= i < |given| && given[i] == u;
    var j :| 0 <= j < |given| && given[j] == w;
  }

  lemma HomePrevails(text: string, given: seq<Update>, u: Update)
    requires InDomain(given) && SameHeaders(Lines(text)) && Asks(given, u)
    ensures LandingIn(text, u).place == u.section && (PrevailsIn(text, given, u) <==> !LandingIn(text, u).beyond)
  {
    hide SameHeaders, LandingOf, Lines, InDomain, BlankSecret;
    SameHeadersLandHome(Lines(text), "", u);
    forall w | w in given && !BlankSecret(w) && w.key == u.key && LandingIn(text, w).place == u.section
      ensures w == u
    {
      SameHeadersLandHome(Lines(text), "", w);
      assert Asks(given, w);
      SamePlaceIsSame(given, u, w);
    }
  }

  /** There the rewrite means the override exactly when every shadowed update asks for what is there already. */
  lemma SameHeadersAgreeIff(text: string, given: seq<Update>)
    requires InDomain(given) && SameHeaders(Lines(text))
    requires forall u :: u in given && !BlankSecret(u) ==> OneLine(u.value)
    ensures ParseText(Apply(text, given)) == Override(ParseText(text), given) <==>
            forall u :: u in given && !BlankSecret(u) && LandingIn(text, u).beyond ==>
              Get(ParseText(text), u.section, u.key) == Some(Stored(u.value))
  {
    RewriteAgreesWithParserIff(text, given);
    hide ParseText, Apply, Override, Put, Stored, SameHeaders, InDomain, Get, LandingIn, PrevailsIn, BlankSecret, Spares,
         Settles, LandsAt, OneLine;
    forall u | u in given && !BlankSecret(u)
      ensures Spares(text, given, u)
      ensures Settles(text, given, u) <==>
              (LandingIn(text, u).beyond ==> Get(ParseText(text), u.section, u.key) == Some(Stored(u.value)))
    {
      SettledAtHome(text, given, u);
    }
  }

  lemma SettledAtHome(text: string, given: seq<Update>, u: Update)
    requires InDomain(given) && SameHeaders(Lines(text)) && Asks(given, u) && OneLine(u.value)
    ensures Spares(text, given, u)
    ensures Settles(text, given, u) <==>
            (LandingIn(text, u).beyond ==> Get(ParseText(text), u.section, u.key) == Some(Stored(u.value)))
  {
    HomePrevails(text, given, u);
    OneLinePut(u.value);
    hide ParseText, Put, Stored, SameHeaders, InDomain, Get, LandingIn, PrevailsIn, BlankSecret, OneLine;
    assert For(u, u.section, u.key);
    assert LandsAt(text, u, u.section, u.key);
    forall w | w in given && !BlankSecret(w) && LandsAt(text, w, u.section, u.key)
      ensures w == u
    {
      HomePrevails(text, given, w);
      SamePlaceIsSame(given, u, w);
    }
  }

  // How often the lines assign a key, and how often they open a section.
  function Assignments(rs: seq<Reading>, current: string, section: string, key: string): nat {
    if rs == [] then 0
    else (if Assigns(rs[0], current, section, key) then 1 else 0) + Assignments(rs[1..], Next(current, rs[0]), section, key)
  }

  function Openings(rs: seq<Reading>, section: string): nat {
    if rs == [] then 0 else (if rs[0] == Header(section) then 1 else 0) + Openings(rs[1..], section)
  }

  lemma {:induction false} NotAssigned(rs: seq<Reading>, current: string, section: string, key: string)
    ensures Assignments(rs, current, section, key) == 0 ==> !Assigned(rs, current, section, key)
    ensures current != section && Openings(rs, section) == 0 ==> !Assigned(rs, current, section, key)
  {
    if rs != [] {
      NotAssigned(rs[1..], Next(current, rs[0]), section, key);
    }
  }

  /** Opened once with its key assigned at most once: nothing is assigned behind the update. */
  lemma {:induction false} OnceIsNotBeyond(lines: seq<string>, here: string, u: Update)
    requires SameHeaders(lines)
    requires Assignments(Readings(lines), here, u.section, u.key) <= 1
    requires Openings(Readings(lines), u.section) + (if here == u.section then 1 else 0) <= 1
    ensures !LandingOf(lines, here, here, u).beyond
  {
    hide SameHeader, Read, HeaderName, Trim, Assigned, Readings;
    if lines != [] {
      var raw, rest := lines[0], lines[1..];
      assert lines == [raw] + rest;
      ConsReading(raw, rest);
      assert ([Read(raw)] + Readings(rest))[1..] == Readings(rest);
      SameHeaderReads(raw, here);
      match HeaderName(Trim(raw)) {
        case Some(name) =>
          if here == u.section {
            NotAssigned(Readings(rest), name, u.section, u.key);
            NotAssignedCons(Read(raw), Readings(rest), here, u.section, u.key);
          } else {
            OnceIsNotBeyond(rest, name, u);
          }
        case None =>
          if Matches(raw, here, u) {
            SplitIsAssigned(raw);
            NotAssigned(Readings(rest), here, u.section, u.key);
          } else {
            OnceIsNotBeyond(rest, here, u);
          }
      }
    }
  }

  lemma NotAssignedCons(r: Reading, rs: seq<Reading>, current: string, section: string, key: string)
    requires !Assigns(r, current, section, key) && !Assigned(rs, Next(current, r), section, key)
    ensures !Assigned([r] + rs, current, section, key)
  {
    assert ([r] + rs)[1..] == rs;
  }

  predicate WrittenOnce(rs: seq<Reading>, u: Update) {
    && Assignments(rs, "", u.section, u.key) <= 1
    && Openings(rs, u.section) + (if "" == u.section then 1 else 0) <= 1
  }

  /** Sections opened once with keys assigned at most once: the rewrite means the override. */
  lemma UniqueKeysAreOverridden(text: string, given: seq<Update>)
    requires InDomain(given) && SameHeaders(Lines(text))
    requires forall u :: u in given && !BlankSecret(u) ==> OneLine(u.value) && WrittenOnce(Readings(Lines(text)), u)
    ensures ParseText(Apply(text, given)) == Override(ParseText(text), given)
  {
    hide Lines, Readings, Apply, ParseText, Stored, InDomain, Override, SameHeaders, OneLine, BlankSecret;
    forall u | u in given && !BlankSecret(u)
      ensures !LandingIn(text, u).beyond
    {
      OnceIsNotBeyond(Lines(text), "", u);
    }
    SameHeadersAgreeIff(text, given);
  }

  // ---- conservation ----

  // The lines of the old text, in the order in which they appear in the new one.
  function OldLines(outs: seq<Out>): seq<string> {
    if outs == [] then []
    else if outs[0].Kept? || outs[0].Replaced? then [outs[0].raw] + OldLines(outs[1..])
    else OldLines(outs[1..])
  }

  // The updates written, each as often as it is written.
  function Written(outs: seq<Out>): seq<Update> {
    if outs == [] then []
    else if outs[0].Replaced? || outs[0].Added? then [outs[0].update] + Written(outs[1..])
    else Written(outs[1..])
  }

  lemma {:induction false} ConservedConcat(a: seq<Out>, b: seq<Out>)
    ensures OldLines(a + b) == OldLines(a) + OldLines(b)
    ensures Written(a + b) == Written(a) + Written(b)
  {
    if a == [] {
      assert a + b == b;
    } else {
      assert (a + b)[1..] == a[1..] + b;
      ConservedConcat(a[1..], b);
    }
  }

  lemma {:induction false} FlushWrites(updates: seq<Update>, section: string)
    ensures OldLines(Flush(updates, section)) == []
    ensures Written(Flush(updates, section)) == Of(updates, section)
    ensures multiset(updates) == multiset(Of(updates, section)) + multiset(NotOf(updates, section))
  {
    if updates != [] {
      var u, rest := updates[0], updates[1..];
      FlushWrites(rest, section);
      assert updates == [u] + rest;
      if u.section == section {
        var tail := Flush(rest, section);
        assert Flush(updates, section) == [Added(u)] + tail;
        assert ([Added(u)] + tail)[1..] == tail;
      }
    }
  }

  lemma {:induction false} NewSectionsWrite(updates: seq<Update>)
    ensures OldLines(NewSections(updates)) == []
    ensures multiset(Written(NewSections(updates))) == multiset(updates)
    decreases |updates|
  {
    if updates != [] {
      var created := updates[0].section;
      NewSectionsSplit(updates);
      hide Flush, NotOf;
      FlushWrites(updates, created);
      NewSectionsWrite(NotOf(updates, created));
      HeadWrites(created);
      ConservedConcat([Gap, Opened(created)], Flush(updates, created));
      ConservedConcat([Gap, Opened(created)] + Flush(updates, created), NewSections(NotOf(updates, created)));
    }
  }

  lemma HeadWrites(created: string)
    ensures OldLines([Gap, Opened(created)]) == [] && Written([Gap, Opened(created)]) == []
  {
    var second := [Opened(created)];
    assert [Gap, Opened(created)][1..] == second && second[1..] == [];
    assert OldLines(second) == [] && Written(second) == [];
  }

  lemma WithoutMultiset(updates: seq<Update>, i: nat)
    requires i < |updates|
    ensures multiset(updates) == multiset{updates[i]} + multiset(Without(updates, i))
  {
    assert updates == updates[..i] + ([updates[i]] + updates[i + 1..]);
  }

  // What stands for some lines and writes some updates.
  predicate Conserves(outs: seq<Out>, lines: seq<string>, updates: seq<Update>) {
    OldLines(outs) == lines && multiset(Written(outs)) == multiset(updates)
  }

  lemma HeaderConserves(raw: string, rest: seq<string>, section: string, updates: seq<Update>, tail: seq<Out>)
    requires Conserves(tail, rest, NotOf(updates, section))
    ensures Conserves(Flush(updates, section) + [Kept(raw)] + tail, [raw] + rest, updates)
  {
    hide OldLines, Written, Flush, NotOf;
    FlushWrites(updates, section);
    OneConserved(Kept(raw));
    ConservedConcat(Flush(updates, section), [Kept(raw)]);
    ConservedConcat(Flush(updates, section) + [Kept(raw)], tail);
  }

  lemma LineConserves(o: Out, rest: seq<string>, updates: seq<Update>, later: seq<Update>, tail: seq<Out>)
    requires o.Kept? || o.Replaced?
    requires multiset(updates) == multiset(Written([o])) + multiset(later) && Conserves(tail, rest, later)
    ensures Conserves([o] + tail, [o.raw] + rest, updates)
  {
    hide OldLines, Written;
    OneConserved(o);
    ConservedConcat([o], tail);
  }

  lemma EndConserves(section: string, updates: seq<Update>)
    ensures Conserves(Flush(updates, section) + NewSections(NotOf(updates, section)), [], updates)
  {
    hide OldLines, Written, Flush, NotOf, NewSections;
    FlushWrites(updates, section);
    NewSectionsWrite(NotOf(updates, section));
    ConservedConcat(Flush(updates, section), NewSections(NotOf(updates, section)));
  }

  /** No line is lost or reordered, at most one substitution is made per update, and every update is written once. */
  lemma {:induction false} LinesAreConserved(lines: seq<string>, section: string, updates: seq<Update>)
    ensures OldLines(Rewrite(lines, section, updates)) == lines
    ensures multiset(Written(Rewrite(lines, section, updates))) == multiset(updates)
    decreases |lines|
  {
    hide HeaderName, Trim, SplitKv, Flush, NotOf, NewSections, Without, OldLines, Written;
    if lines == [] {
      EndConserves(section, updates);
    } else {
      var raw, rest := lines[0], lines[1..];
      assert [raw] + rest == lines;
      match HeaderName(Trim(raw)) {
        case Some(name) =>
          LinesAreConserved(rest, name, NotOf(updates, section));
          HeaderConserves(raw, rest, section, updates, Rewrite(rest, name, NotOf(updates, section)));
        case None =>
          match Replacement(raw, section, updates) {
            case Some(i) =>
              LinesAreConserved(rest, section, Without(updates, i));
              WithoutMultiset(updates, i);
              OneConserved(Replaced(raw, updates[i]));
              LineConserves(Replaced(raw, updates[i]), rest, updates, Without(updates, i),
                            Rewrite(rest, section, Without(updates, i)));
            case None =>
              LinesAreConserved(rest, section, updates);
              OneConserved(Kept(raw));
              LineConserves(Kept(raw), rest, updates, updates, Rewrite(rest, section, updates));
          }
      }
    }
  }

  lemma OneConserved(o: Out)
    ensures OldLines([o]) == if o.Kept? || o.Replaced? then [o.raw] else []
    ensures Written([o]) == if o.Replaced? || o.Added? then [o.update] else []
  {
    assert [o][1..] == [];
  }
}
