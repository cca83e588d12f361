/**
 Where each update of the settings form ends up. The rewrite follows the headers it sees, the parser follows those
 it sees; an update is written where the rewrite decides and belongs to the section the parser is in there.
 */
module SettingsLanding {
  import opened Text
  import opened ConfigFile
  import opened Settings
  import opened SettingsReading
  import opened Wrappers

  // ---- pending updates ----

  predicate Distinct(updates: seq<Update>) {
    forall i, j :: 0 <= i < j < |updates| ==>
      updates[i].section != updates[j].section || updates[i].key != updates[j].key
  }

  predicate For(u: Update, section: string, key: string) { u.section == section && u.key == key }

  function Pending(updates: seq<Update>, section: string, key: string): (r: Option<Update>)
    ensures r.Some? ==> r.value in updates && For(r.value, section, key)
  {
    if updates == [] then None
    else if For(updates[0], section, key) then Some(updates[0])
    else Pending(updates[1..], section, key)
  }

  function PutOf(u: Option<Update>): Option<string> { if u.Some? then Some(Put(u.value.value)) else None }

  function Or(a: Option<string>, b: Option<string>): Option<string> { if a.Some? then a else b }

  lemma {:induction false} PendingIs(updates: seq<Update>, u: Update)
    requires Distinct(updates) && u in updates
    ensures Pending(updates, u.section, u.key) == Some(u)
  {
    if updates[0] != u {
      assert u in updates[1..];
      PendingIs(updates[1..], u);
      var i :| 1 <= i < |updates| && updates[i] == u;
      assert updates[0].section != updates[i].section || updates[0].key != updates[i].key;
    }
  }

  lemma {:induction false} PendingNone(updates: seq<Update>, section: string, key: string)
    requires forall i :: 0 <= i < |updates| ==> !For(updates[i], section, key)
    ensures Pending(updates, section, key) == None
  {
    if updates != [] {
      PendingNone(updates[1..], section, key);
    }
  }

  lemma {:induction false} NotOfMembers(updates: seq<Update>, gone: string)
    ensures forall u :: u in NotOf(updates, gone) <==> u in updates && u.section != gone
    ensures Of(updates, gone) == [] <==> forall u :: u in updates ==> u.section != gone
  {
    if updates != [] {
      NotOfMembers(updates[1..], gone);
      assert forall u :: u in updates <==> u == updates[0] || u in updates[1..];
    }
  }

  lemma {:induction false} NotOfKeeps(updates: seq<Update>, gone: string)
    requires Distinct(updates)
    ensures Distinct(NotOf(updates, gone))
  {
    if updates != [] {
      NotOfKeeps(updates[1..], gone);
      if updates[0].section != gone {
        var rest := NotOf(updates[1..], gone);
        forall j | 0 <= j < |rest|
          ensures updates[0].section != rest[j].section || updates[0].key != rest[j].key
        {
          assert rest[j] in updates[1..];
        }
      }
    }
  }

  lemma PendingNotOf(updates: seq<Update>, gone: string, section: string, key: string)
    requires Distinct(updates)
    ensures Pending(NotOf(updates, gone), section, key) ==
            if section == gone then None else Pending(updates, section, key)
  {
    hide Distinct, NotOf;
    NotOfMembers(updates, gone);
    NotOfKeeps(updates, gone);
    var later := Pending(NotOf(updates, gone), section, key);
    if Pending(updates, section, key).Some? && section != gone {
      PendingIs(NotOf(updates, gone), Pending(updates, section, key).value);
    } else if later.Some? {
      PendingIs(updates, later.value);
    }
  }

  lemma WithoutAt(updates: seq<Update>, i: nat, j: nat)
    requires i < |updates| && j < |Without(updates, i)|
    ensures |Without(updates, i)| == |updates| - 1
    ensures Without(updates, i)[j] == updates[if j < i then j else j + 1]
  {
  }

  lemma WithoutMembers(updates: seq<Update>, i: nat)
    requires Distinct(updates) && i < |updates|
    ensures Distinct(Without(updates, i))
    ensures forall u :: u in Without(updates, i) <==> u in updates && u != updates[i]
  {
    var kept := Without(updates, i);
    assert |kept| == |updates| - 1;
    hide Without;
    forall j | 0 <= j < |kept|
      ensures kept[j] == updates[if j < i then j else j + 1]
    {
      WithoutAt(updates, i, j);
    }
    forall u
      ensures u in kept <==> u in updates && u != updates[i]
    {
      if u in kept {
        var j :| 0 <= j < |kept| && kept[j] == u;
      }
      if u in updates && u != updates[i] {
        var j :| 0 <= j < |updates| && updates[j] == u;
        assert kept[if j < i then j else j - 1] == u;
      }
    }
  }

  // ---- reading flushed and created sections ----

  lemma {:induction false} FlushReads(updates: seq<Update>, here: string, current: string, section: string, key: string,
                                      known: Option<string>)
    requires Distinct(updates)
    ensures var rs := OutReadings(Flush(updates, here));
            && ValueAfter(rs, current, section, key, known)
               == (if section == current then Or(PutOf(Pending(updates, here, key)), known) else known)
            && CurrentAfter(rs, current) == current
            && SectionsIn(rs, current) == (if Of(updates, here) == [] then {} else {current})
  {
    hide Put, Read;
    if updates != [] {
      var u, rest := updates[0], updates[1..];
      if u.section == here {
        var written, tail := Assign(u.key, Put(u.value)), OutReadings(Flush(rest, here));
        assert OutReadings(Flush(updates, here)) == [written] + tail;
        var after := if current == section && u.key == key then Some(Put(u.value)) else known;
        OneMeans(written, tail, current, section, key, known);
        hide ValueAfter, SectionsIn, CurrentAfter, Flush, OutReadings;
        FlushReads(rest, here, current, section, key, after);
        if u.key == key {
          PendingNone(rest, here, key);
        }
      } else {
        FlushReads(rest, here, current, section, key, known);
      }
    }
  }

  function Touched(updates: seq<Update>): set<string> { set u <- updates :: u.section }

  lemma {:induction false} NewSectionsRead(updates: seq<Update>, current: string, section: string, key: string,
                                           known: Option<string>)
    requires Distinct(updates)
    ensures var rs := OutReadings(NewSections(updates));
            && ValueAfter(rs, current, section, key, known) == Or(PutOf(Pending(updates, section, key)), known)
            && SectionsIn(rs, current) == Touched(updates)
    decreases |updates|
  {
    hide Put, Read, ValueAfter, CurrentAfter, OutReadings, Distinct, Flush, NotOf, Touched, SectionsIn, Pending;
    if updates == [] {
      NothingReads(current, section, key, known);
    } else {
      var created := updates[0].section;
      var flushed := OutReadings(Flush(updates, created));
      var later := NotOf(updates, created);
      var tail := OutReadings(NewSections(later));
      NewSectionsSplit(updates);
      OneMeans(Nothing, [Header(created)] + (flushed + tail), current, section, key, known);
      OneMeans(Header(created), flushed + tail, current, section, key, known);
      AfterConcat(flushed, tail, created, section, key, known);
      FlushReads(updates, created, created, section, key, known);
      NotOfKeeps(updates, created);
      PendingNotOf(updates, created, section, key);
      hide NewSections;
      NewSectionsRead(later, created, section, key,
                      if section == created then Or(PutOf(Pending(updates, created, key)), known) else known);
      TouchedSplit(updates, created);
    }
  }

  lemma NothingReads(current: string, section: string, key: string, known: Option<string>)
    ensures OutReadings(NewSections([])) == [] && SectionsIn([], current) == {} == Touched([])
    ensures ValueAfter([], current, section, key, known) == known && Pending([], section, key) == None
  {
  }

  lemma OutReadingsConcat(a: seq<Out>, b: seq<Out>)
    ensures OutReadings(a + b) == OutReadings(a) + OutReadings(b)
  {
    hide OutReading;
  }

  lemma HeadReadings(created: string)
    ensures OutReadings([Gap, Opened(created)]) == [Nothing, Header(created)]
  {
  }

  lemma NewSectionsSplit(updates: seq<Update>)
    requires updates != []
    ensures |NotOf(updates, updates[0].section)| < |updates|
    ensures var created := updates[0].section;
            OutReadings(NewSections(updates))
            == [Nothing] + ([Header(created)]
               + (OutReadings(Flush(updates, created)) + OutReadings(NewSections(NotOf(updates, created)))))
  {
    var created := updates[0].section;
    assert NotOf(updates, created) == NotOf(updates[1..], created);
    hide Flush, NotOf, OutReadings;
    HeadReadings(created);
    var head := [Gap, Opened(created)];
    OutReadingsConcat(head, Flush(updates, created));
    OutReadingsConcat(head + Flush(updates, created), NewSections(NotOf(updates, created)));
    hide NewSections;
    Regroup([Nothing], [Header(created)],
            OutReadings(Flush(updates, created)) + OutReadings(NewSections(NotOf(updates, created))));
    Regroup([Nothing, Header(created)], OutReadings(Flush(updates, created)),
            OutReadings(NewSections(NotOf(updates, created))));
    assert [Nothing] + [Header(created)] == [Nothing, Header(created)];
  }

  lemma TouchedSplit(updates: seq<Update>, section: string)
    ensures Touched(updates) == Touched(NotOf(updates, section)) + (if Of(updates, section) == [] then {} else {section})
    ensures updates != [] && updates[0].section == section ==> Of(updates, section) != []
  {
    NotOfMembers(updates, section);
    hide Of, NotOf;
    var later := NotOf(updates, section);
    forall p
      ensures p in Touched(updates) <==> p in Touched(later) || (Of(updates, section) != [] && p == section)
    {
      if p in Touched(updates) {
        var u :| u in updates && u.section == p;
        assert p != section ==> u in later;
      }
    }
  }

  // ---- what the text itself assigns ----

  predicate Assigned(rs: seq<Reading>, current: string, section: string, key: string) {
    rs != [] && (Assigns(rs[0], current, section, key) || Assigned(rs[1..], Next(current, rs[0]), section, key))
  }

  lemma {:induction false} LastAssignmentWins(rs: seq<Reading>, current: string, section: string, key: string,
                                              known: Option<string>, other: Option<string>)
    ensures ValueAfter(rs, current, section, key, known) ==
            if Assigned(rs, current, section, key) then ValueAfter(rs, current, section, key, other) else known
  {
    if rs != [] {
      if Assigns(rs[0], current, section, key) {
        LastAssignmentWins(rs[1..], Next(current, rs[0]), section, key, Some(rs[0].value), Some(rs[0].value));
      } else {
        LastAssignmentWins(rs[1..], Next(current, rs[0]), section, key, known, other);
      }
    }
  }

  // ---- where an update lands ----

  // Whether the rewrite replaces this line by an update of the key.
  predicate Matches(raw: string, here: string, u: Update) {
    here == u.section && SplitKv(raw).Some? && SplitKv(raw).value.key == u.key
  }

  // The parser's section at the place where an update is written, how many lines stand before it, and whether the
  // text assigns the same key of that section again behind it.
  datatype Landing = Landing(place: string, at: nat, beyond: bool)

  /**
   The landing of one update: at the first line of its key in a stretch of its section, or at the end of the first
   such stretch, or in a section of its own at the end. `here` is the section the rewrite is in, `current` the one
   the parser is in.
   */
  function LandingOf(lines: seq<string>, here: string, current: string, u: Update): Landing {
    if lines == [] then (if here == u.section then Landing(current, 0, false) else Landing(u.section, 1, false))
    else
      var raw, rest, next := lines[0], lines[1..], Next(current, Read(lines[0]));
      match HeaderName(Trim(raw))
      case Some(name) =>
        if here == u.section then Landing(current, 0, Assigned(Readings(lines), current, current, u.key))
        else Further(LandingOf(rest, name, next, u))
      case None =>
        if Matches(raw, here, u) then Landing(current, 0, Assigned(Readings(rest), next, current, u.key))
        else Further(LandingOf(rest, here, next, u))
  }

  function Further(l: Landing): Landing { l.(at := l.at + 1) }

  predicate LandsOn(lines: seq<string>, here: string, current: string, u: Update, section: string, key: string) {
    u.key == key && LandingOf(lines, here, current, u).place == section
  }

  // Nothing happens to the landing place behind the update: no line of the text, no other update.
  predicate Prevails(lines: seq<string>, here: string, current: string, updates: seq<Update>, u: Update) {
    var l := LandingOf(lines, here, current, u);
    && !l.beyond
    && forall w :: w in updates && w != u && LandsOn(lines, here, current, w, l.place, u.key) ==>
         LandingOf(lines, here, current, w).at < l.at
  }

  function Places(lines: seq<string>, here: string, current: string, updates: seq<Update>): set<string> {
    set u <- updates :: LandingOf(lines, here, current, u).place
  }

  // ---- the last write to one place ----

  function Winner(lines: seq<string>, here: string, current: string, updates: seq<Update>, section: string, key: string):
    Option<string>
    decreases |lines|
  {
    if lines == [] then
      Or(PutOf(Pending(NotOf(updates, here), section, key)),
         if section == current then PutOf(Pending(updates, here, key)) else None)
    else
      var raw, rest, next := lines[0], lines[1..], Next(current, Read(lines[0]));
      match HeaderName(Trim(raw))
      case Some(name) =>
        Or(Winner(rest, name, next, NotOf(updates, here), section, key),
           if section == current && !Assigned(Readings(lines), current, section, key)
           then PutOf(Pending(updates, here, key)) else None)
      case None =>
        match Replacement(raw, here, updates)
        case Some(i) =>
          Or(Winner(rest, here, next, Without(updates, i), section, key),
             if section == current && key == updates[i].key && !Assigned(Readings(rest), next, section, key)
             then Some(Put(updates[i].value)) else None)
        case None => Winner(rest, here, next, updates, section, key)
  }

  lemma ConsReading(raw: string, rest: seq<string>)
    ensures Readings([raw] + rest) == [Read(raw)] + Readings(rest)
  {
    hide Read;
    assert ([raw] + rest)[0] == raw;
  }

  lemma OneReading(o: Out)
    ensures OutReadings([o]) == [OutReading(o)]
  {
    hide OutReading;
  }

  // The value the parser finds for one key of the rewritten lines.
  predicate Means(lines: seq<string>, here: string, current: string, updates: seq<Update>, section: string, key: string,
                  known: Option<string>) {
    ValueAfter(OutReadings(Rewrite(lines, here, updates)), current, section, key, known)
    == Or(Winner(lines, here, current, updates, section, key), ValueAfter(Readings(lines), current, section, key, known))
  }

  lemma EndMeans(here: string, current: string, updates: seq<Update>, section: string, key: string, known: Option<string>)
    requires Distinct(updates)
    ensures Means([], here, current, updates, section, key, known)
  {
    hide Flush, NotOf, Pending, SectionsIn, CurrentAfter, OutReadings, NewSections, Distinct, Put, Of;
    var flushed, tail := OutReadings(Flush(updates, here)), OutReadings(NewSections(NotOf(updates, here)));
    OutReadingsConcat(Flush(updates, here), NewSections(NotOf(updates, here)));
    AfterConcat(flushed, tail, current, section, key, known);
    FlushReads(updates, here, current, section, key, known);
    NotOfKeeps(updates, here);
    NewSectionsRead(NotOf(updates, here), current, section, key,
                    if section == current then Or(PutOf(Pending(updates, here, key)), known) else known);
  }

  lemma HeaderMeans(raw: string, name: string, rest: seq<string>, here: string, current: string, updates: seq<Update>,
                    section: string, key: string, known: Option<string>)
    requires Distinct(updates) && HeaderName(Trim(raw)) == Some(name)
    ensures Means([raw] + rest, here, current, updates, section, key, known)
    decreases |rest| + 1, 0
  {
    hide Read, HeaderName, Trim, Flush, NotOf, Pending, Distinct, OutReadings, Readings, Put, Of;
    ConsReading(raw, rest);
    var later, rs, next := NotOf(updates, here), Readings(rest), Next(current, Read(raw));
    var flushed, tail := OutReadings(Flush(updates, here)), OutReadings(Rewrite(rest, name, later));
    var put := if section == current then PutOf(Pending(updates, here, key)) else None;
    var after := Or(put, known);
    assert ([raw] + rest)[1..] == rest;
    assert Rewrite([raw] + rest, here, updates) == Flush(updates, here) + [Kept(raw)] + Rewrite(rest, name, later);
    assert Winner([raw] + rest, here, current, updates, section, key) ==
      Or(Winner(rest, name, next, later, section, key),
         if !Assigned([Read(raw)] + rs, current, section, key) then put else None);
    hide Rewrite, Winner;
    OutReadingsConcat(Flush(updates, here) + [Kept(raw)], Rewrite(rest, name, later));
    OutReadingsConcat(Flush(updates, here), [Kept(raw)]);
    OneReading(Kept(raw));
    Regroup(flushed, [Read(raw)], tail);
    AfterConcat(flushed, [Read(raw)] + tail, current, section, key, known);
    FlushReads(updates, here, current, section, key, known);
    OneMeans(Read(raw), tail, current, section, key, after);
    OneMeans(Read(raw), rs, current, section, key, after);
    NotOfKeeps(updates, here);
    hide ValueAfter, SectionsIn, CurrentAfter, Assigned;
    RewriteMeans(rest, name, next, later, section, key,
                 if Assigns(Read(raw), current, section, key) then Some(Read(raw).value) else after);
    LastAssignmentWins([Read(raw)] + rs, current, section, key, after, known);
    LastAssignmentWins([Read(raw)] + rs, current, section, key, known, known);
  }

  lemma ReplacedMeans(raw: string, i: nat, rest: seq<string>, here: string, current: string, updates: seq<Update>,
                      section: string, key: string, known: Option<string>)
    requires Distinct(updates) && HeaderName(Trim(raw)) == None && Replacement(raw, here, updates) == Some(i)
    ensures Means([raw] + rest, here, current, updates, section, key, known)
    decreases |rest| + 1, 0
  {
    hide Read, HeaderName, Trim, Distinct, OutReadings, Readings, Put, Without, SplitKv;
    ConsReading(raw, rest);
    SplitIsAssigned(raw);
    var u, later, rs := updates[i], Without(updates, i), Readings(rest);
    var tail := OutReadings(Rewrite(rest, here, later));
    assert Read(raw) == Assign(u.key, SplitKv(raw).value.value);
    hide Replacement;
    var after := if section == current && key == u.key then Some(Put(u.value)) else known;
    assert ([raw] + rest)[1..] == rest;
    assert Rewrite([raw] + rest, here, updates) == [Replaced(raw, u)] + Rewrite(rest, here, later);
    assert Winner([raw] + rest, here, current, updates, section, key) ==
      Or(Winner(rest, here, current, later, section, key),
         if section == current && key == u.key && !Assigned(rs, current, section, key) then Some(Put(u.value)) else None);
    hide Rewrite, Winner;
    OutReadingsConcat([Replaced(raw, u)], Rewrite(rest, here, later));
    OneReading(Replaced(raw, u));
    OneMeans(Assign(u.key, Put(u.value)), tail, current, section, key, known);
    OneMeans(Read(raw), rs, current, section, key, known);
    WithoutMembers(updates, i);
    hide ValueAfter, SectionsIn, CurrentAfter, Assigned;
    RewriteMeans(rest, here, current, later, section, key, after);
    var text := if section == current && key == u.key then Some(Read(raw).value) else known;
    LastAssignmentWins(rs, current, section, key, after, text);
    LastAssignmentWins(rs, current, section, key, text, text);
  }

  lemma KeptMeans(raw: string, rest: seq<string>, here: string, current: string, updates: seq<Update>,
                  section: string, key: string, known: Option<string>)
    requires Distinct(updates) && HeaderName(Trim(raw)) == None && Replacement(raw, here, updates) == None
    ensures Means([raw] + rest, here, current, updates, section, key, known)
    decreases |rest| + 1, 0
  {
    hide Read, HeaderName, Trim, Distinct, OutReadings, Readings, SplitKv, Replacement;
    ConsReading(raw, rest);
    var tail, rs := OutReadings(Rewrite(rest, here, updates)), Readings(rest);
    assert ([raw] + rest)[1..] == rest;
    assert Rewrite([raw] + rest, here, updates) == [Kept(raw)] + Rewrite(rest, here, updates);
    assert Winner([raw] + rest, here, current, updates, section, key)
        == Winner(rest, here, Next(current, Read(raw)), updates, section, key);
    hide Rewrite, Winner;
    OutReadingsConcat([Kept(raw)], Rewrite(rest, here, updates));
    OneReading(Kept(raw));
    OneMeans(Read(raw), tail, current, section, key, known);
    OneMeans(Read(raw), rs, current, section, key, known);
    hide ValueAfter, SectionsIn, CurrentAfter;
    RewriteMeans(rest, here, Next(current, Read(raw)), updates, section, key,
                 if Assigns(Read(raw), current, section, key) then Some(Read(raw).value) else known);
  }

  /** Every key of every rewritten text: the last write to its place, or else what the text says. */
  lemma {:induction false} RewriteMeans(lines: seq<string>, here: string, current: string, updates: seq<Update>,
                                        section: string, key: string, known: Option<string>)
    requires Distinct(updates)
    ensures Means(lines, here, current, updates, section, key, known)
    decreases |lines|, 1
  {
    hide Distinct, Means, HeaderName, Trim, Replacement;
    if lines == [] {
      EndMeans(here, current, updates, section, key, known);
    } else {
      var raw, rest := lines[0], lines[1..];
      assert lines == [raw] + rest;
      match HeaderName(Trim(raw)) {
        case Some(name) => HeaderMeans(raw, name, rest, here, current, updates, section, key, known);
        case None =>
          match Replacement(raw, here, updates) {
            case Some(i) => ReplacedMeans(raw, i, rest, here, current, updates, section, key, known);
            case None => KeptMeans(raw, rest, here, current, updates, section, key, known);
          }
      }
    }
  }

  // ---- the sections of the rewritten text ----

  // Where the updates go that are not written at the first of the lines.
  lemma LandingNext(lines: seq<string>, here: string, current: string, u: Update)
    requires lines != []
    ensures var next := Next(current, Read(lines[0]));
            && (HeaderName(Trim(lines[0])).Some? ==>
                  LandingOf(lines, here, current, u) ==
                  if here == u.section then Landing(current, 0, Assigned(Readings(lines), current, current, u.key))
                  else Further(LandingOf(lines[1..], HeaderName(Trim(lines[0])).value, next, u)))
            && (HeaderName(Trim(lines[0])) == None ==>
                  LandingOf(lines, here, current, u) ==
                  if Matches(lines[0], here, u) then Landing(current, 0, Assigned(Readings(lines[1..]), next, current, u.key))
                  else Further(LandingOf(lines[1..], here, next, u)))
  {
    hide Read, HeaderName, Trim, Matches, Assigned;
  }

  lemma ReplacementIs(raw: string, here: string, updates: seq<Update>, u: Update)
    requires Distinct(updates) && u in updates
    ensures Replacement(raw, here, updates).Some? ==>
              (Matches(raw, here, u) <==> u == updates[Replacement(raw, here, updates).value])
    ensures Replacement(raw, here, updates) == None ==> !Matches(raw, here, u)
  {
    hide SplitKv;
  }

  lemma ReplacedLanding(lines: seq<string>, i: nat, here: string, current: string, updates: seq<Update>, u: Update)
    requires Distinct(updates) && u in updates && lines != [] && HeaderName(Trim(lines[0])) == None
    requires Replacement(lines[0], here, updates) == Some(i)
    ensures var next := Next(current, Read(lines[0]));
            LandingOf(lines, here, current, u) ==
            if u == updates[i] then Landing(current, 0, Assigned(Readings(lines[1..]), next, current, u.key))
            else Further(LandingOf(lines[1..], here, next, u))
  {
    hide LandingOf, HeaderName, Trim, Read, Assigned, Readings, Distinct, Replacement, Matches;
    ReplacementIs(lines[0], here, updates, u);
    LandingNext(lines, here, current, u);
  }

  lemma KeptLanding(lines: seq<string>, here: string, current: string, updates: seq<Update>, u: Update)
    requires Distinct(updates) && u in updates && lines != [] && HeaderName(Trim(lines[0])) == None
    requires Replacement(lines[0], here, updates) == None
    ensures LandingOf(lines, here, current, u) == Further(LandingOf(lines[1..], here, Next(current, Read(lines[0])), u))
  {
    hide LandingOf, HeaderName, Trim, Read, Assigned, Readings, Distinct, Replacement, Matches;
    ReplacementIs(lines[0], here, updates, u);
    LandingNext(lines, here, current, u);
  }

  lemma PlacesAtEnd(here: string, current: string, updates: seq<Update>)
    ensures Places([], here, current, updates)
         == (if Of(updates, here) == [] then {} else {current}) + Touched(NotOf(updates, here))
  {
    NotOfMembers(updates, here);
    hide Of, NotOf;
    forall p
      ensures p in Places([], here, current, updates) <==>
              (Of(updates, here) != [] && p == current) || p in Touched(NotOf(updates, here))
    {
      if Of(updates, here) != [] && p == current {
        var u :| u in updates && u.section == here;
        assert LandingOf([], here, current, u).place == p;
      }
      if p in Touched(NotOf(updates, here)) {
        var u :| u in NotOf(updates, here) && u.section == p;
        assert LandingOf([], here, current, u).place == p;
      }
    }
  }

  lemma PlacesAtHeader(lines: seq<string>, name: string, here: string, current: string, updates: seq<Update>)
    requires lines != [] && HeaderName(Trim(lines[0])) == Some(name)
    ensures Places(lines, here, current, updates)
         == (if Of(updates, here) == [] then {} else {current})
            + Places(lines[1..], name, Next(current, Read(lines[0])), NotOf(updates, here))
  {
    NotOfMembers(updates, here);
    var later, next := NotOf(updates, here), Next(current, Read(lines[0]));
    hide Of, NotOf, LandingOf, HeaderName, Trim, Read, Assigned, Readings;
    forall u | u in updates
      ensures LandingOf(lines, here, current, u).place ==
              if u.section == here then current else LandingOf(lines[1..], name, next, u).place
    {
      LandingNext(lines, here, current, u);
    }
    forall p
      ensures p in Places(lines, here, current, updates) <==>
              (Of(updates, here) != [] && p == current) || p in Places(lines[1..], name, next, later)
    {
      if Of(updates, here) != [] && p == current {
        var u :| u in updates && u.section == here;
        assert LandingOf(lines, here, current, u).place == p;
      }
      if p in Places(lines[1..], name, next, later) {
        var u :| u in later && LandingOf(lines[1..], name, next, u).place == p;
        assert LandingOf(lines, here, current, u).place == p;
      }
    }
  }

  lemma PlacesAtReplaced(lines: seq<string>, i: nat, here: string, current: string, updates: seq<Update>)
    requires Distinct(updates) && lines != [] && HeaderName(Trim(lines[0])) == None
    requires Replacement(lines[0], here, updates) == Some(i)
    ensures Places(lines, here, current, updates)
         == {current} + Places(lines[1..], here, Next(current, Read(lines[0])), Without(updates, i))
  {
    WithoutMembers(updates, i);
    var later, next := Without(updates, i), Next(current, Read(lines[0]));
    hide LandingOf, HeaderName, Trim, Read, Assigned, Readings, Distinct, Without, Replacement, Matches;
    forall u | u in updates
      ensures LandingOf(lines, here, current, u).place ==
              if u == updates[i] then current else LandingOf(lines[1..], here, next, u).place
    {
      ReplacedLanding(lines, i, here, current, updates, u);
    }
    forall p
      ensures p in Places(lines, here, current, updates) <==> p == current || p in Places(lines[1..], here, next, later)
    {
      if p == current {
        assert LandingOf(lines, here, current, updates[i]).place == p;
      }
      if p in Places(lines[1..], here, next, later) {
        var u :| u in later && LandingOf(lines[1..], here, next, u).place == p;
        assert LandingOf(lines, here, current, u).place == p;
      }
    }
  }

  lemma PlacesAtKept(lines: seq<string>, here: string, current: string, updates: seq<Update>)
    requires Distinct(updates) && lines != [] && HeaderName(Trim(lines[0])) == None
    requires Replacement(lines[0], here, updates) == None
    ensures Places(lines, here, current, updates) == Places(lines[1..], here, Next(current, Read(lines[0])), updates)
  {
    var next := Next(current, Read(lines[0]));
    hide LandingOf, HeaderName, Trim, Read, Assigned, Readings, Distinct, Replacement, Matches;
    forall u | u in updates
      ensures LandingOf(lines, here, current, u).place == LandingOf(lines[1..], here, next, u).place
    {
      KeptLanding(lines, here, current, updates, u);
    }
  }

  /** The sections of every rewritten text: those of the old text and the places where updates land. */
  lemma {:induction false} RewriteSections(lines: seq<string>, here: string, current: string, updates: seq<Update>)
    requires Distinct(updates)
    ensures SectionsIn(OutReadings(Rewrite(lines, here, updates)), current)
         == SectionsIn(Readings(lines), current) + Places(lines, here, current, updates)
    decreases |lines|
  {
    hide Read, HeaderName, Trim, Flush, NotOf, Of, Places, Distinct, OutReadings, Readings, Without, NewSections, SplitKv,
         ValueAfter, CurrentAfter, Touched, LandingOf, Pending;
    if lines == [] {
      var flushed, tail := OutReadings(Flush(updates, here)), OutReadings(NewSections(NotOf(updates, here)));
      OutReadingsConcat(Flush(updates, here), NewSections(NotOf(updates, here)));
      AfterConcat(flushed, tail, current, "", "", None);
      FlushReads(updates, here, current, "", "", None);
      NotOfKeeps(updates, here);
      NewSectionsRead(NotOf(updates, here), current, "", "", None);
      PlacesAtEnd(here, current, updates);
      assert Readings(lines) == [] by { NoReadings(); }
    } else {
      var raw, rest, next := lines[0], lines[1..], Next(current, Read(lines[0]));
      assert lines == [raw] + rest;
      ConsReading(raw, rest);
      OneMeans(Read(raw), Readings(rest), current, "", "", None);
      match HeaderName(Trim(raw)) {
        case Some(name) =>
          var tail := Rewrite(rest, name, NotOf(updates, here));
          NotOfKeeps(updates, here);
          RewriteSections(rest, name, next, NotOf(updates, here));
          HeaderSections(raw, tail, here, current, updates);
          PlacesAtHeader(lines, name, here, current, updates);
        case None =>
          match Replacement(raw, here, updates) {
            case Some(i) =>
              WithoutMembers(updates, i);
              RewriteSections(rest, here, next, Without(updates, i));
              SplitIsAssigned(raw);
              OneOutSections(Replaced(raw, updates[i]), Rewrite(rest, here, Without(updates, i)), current);
              PlacesAtReplaced(lines, i, here, current, updates);
            case None =>
              RewriteSections(rest, here, next, updates);
              OneOutSections(Kept(raw), Rewrite(rest, here, updates), current);
              PlacesAtKept(lines, here, current, updates);
          }
      }
    }
  }

  lemma NoReadings()
    ensures Readings([]) == []
  {
  }

  lemma OneOutSections(o: Out, outs: seq<Out>, current: string)
    ensures var r := OutReading(o);
            SectionsIn(OutReadings([o] + outs), current)
            == (if r.Nothing? then {} else {Next(current, r)}) + SectionsIn(OutReadings(outs), Next(current, r))
  {
    hide OutReading, OutReadings, ValueAfter, CurrentAfter;
    OutReadingsConcat([o], outs);
    OneReading(o);
    OneMeans(OutReading(o), OutReadings(outs), current, "", "", None);
  }

  lemma HeaderSections(raw: string, tail: seq<Out>, here: string, current: string, updates: seq<Update>)
    requires Distinct(updates)
    ensures var r := Read(raw);
            SectionsIn(OutReadings(Flush(updates, here) + [Kept(raw)] + tail), current)
            == (if Of(updates, here) == [] then {} else {current})
               + ((if r.Nothing? then {} else {Next(current, r)}) + SectionsIn(OutReadings(tail), Next(current, r)))
  {
    hide Flush, OutReadings, Read, ValueAfter, CurrentAfter, Of, Pending, Distinct, SectionsIn;
    var flushed, outs := OutReadings(Flush(updates, here)), [Kept(raw)] + tail;
    Regroup(Flush(updates, here), [Kept(raw)], tail);
    OutReadingsConcat(Flush(updates, here), outs);
    AfterConcat(flushed, OutReadings(outs), current, "", "", None);
    FlushReads(updates, here, current, "", "", None);
    OneOutSections(Kept(raw), tail, current);
  }

  // ---- who writes last ----

  // An update with the text assigning its key again behind it.
  lemma {:induction false} BeyondIsAssigned(lines: seq<string>, here: string, current: string, u: Update)
    requires LandingOf(lines, here, current, u).beyond
    ensures Assigned(Readings(lines), current, LandingOf(lines, here, current, u).place, u.key)
  {
    hide Read, HeaderName, Trim, Matches, Readings;
    if lines != [] {
      var raw, rest, next := lines[0], lines[1..], Next(current, Read(lines[0]));
      assert lines == [raw] + rest;
      ConsReading(raw, rest);
      assert ([Read(raw)] + Readings(rest))[1..] == Readings(rest);
      match HeaderName(Trim(raw)) {
        case Some(name) =>
          if here != u.section {
            BeyondIsAssigned(rest, name, next, u);
          }
        case None =>
          if !Matches(raw, here, u) {
            BeyondIsAssigned(rest, here, next, u);
          }
      }
    }
  }

  lemma {:induction false} LandedWins(lines: seq<string>, here: string, current: string, updates: seq<Update>, u: Update)
    requires Distinct(updates) && u in updates && !LandingOf(lines, here, current, u).beyond
    ensures Winner(lines, here, current, updates, LandingOf(lines, here, current, u).place, u.key).Some?
    decreases |lines|
  {
    PendingIs(updates, u);
    NotOfKeeps(updates, here);
    NotOfMembers(updates, here);
    hide Read, HeaderName, Trim, Matches, Readings, NotOf, Of, Without, Assigned, Distinct, Pending, Put, Replacement;
    if lines == [] {
      if u.section != here {
        PendingIs(NotOf(updates, here), u);
      }
    } else {
      var raw, rest, next := lines[0], lines[1..], Next(current, Read(lines[0]));
      match HeaderName(Trim(raw)) {
        case Some(name) =>
          if here != u.section {
            LandedWins(rest, name, next, NotOf(updates, here), u);
          }
        case None =>
          ReplacementIs(raw, here, updates, u);
          match Replacement(raw, here, updates) {
            case Some(i) =>
              WithoutMembers(updates, i);
              if u != updates[i] {
                LandedWins(rest, here, next, Without(updates, i), u);
              }
            case None =>
              LandedWins(rest, here, next, updates, u);
          }
      }
    }
  }

  // The update found to write last at a place.
  predicate WinsAt(lines: seq<string>, here: string, current: string, updates: seq<Update>, section: string, key: string,
                   u: Update) {
    && u in updates && LandsOn(lines, here, current, u, section, key)
    && Winner(lines, here, current, updates, section, key) == Some(Put(u.value))
    && Prevails(lines, here, current, updates, u)
  }

  lemma WinsAtEnd(here: string, current: string, updates: seq<Update>, section: string, key: string) returns (u: Update)
    requires Distinct(updates) && Winner([], here, current, updates, section, key).Some?
    ensures WinsAt([], here, current, updates, section, key, u)
  {
    NotOfKeeps(updates, here);
    NotOfMembers(updates, here);
    var later := NotOf(updates, here);
    hide NotOf, Of, Distinct, Pending, Put;
    u := if Pending(later, section, key).Some? then Pending(later, section, key).value else Pending(updates, here, key).value;
    forall w | w in updates && w != u && LandsOn([], here, current, w, section, key)
      ensures LandingOf([], here, current, w).at < LandingOf([], here, current, u).at
    {
      PendingIs(updates, w);
      PendingIs(updates, u);
      if w.section != here {
        PendingIs(later, w);
      }
    }
  }

  // An update that lands further down at this place, with nothing found to write last there, is written over.
  lemma LostIsAssigned(lines: seq<string>, here: string, current: string, updates: seq<Update>, w: Update)
    requires Distinct(updates) && w in updates
    requires Winner(lines, here, current, updates, LandingOf(lines, here, current, w).place, w.key) == None
    ensures Assigned(Readings(lines), current, LandingOf(lines, here, current, w).place, w.key)
  {
    hide Readings, Winner, LandingOf, Assigned;
    if LandingOf(lines, here, current, w).beyond {
      BeyondIsAssigned(lines, here, current, w);
    } else {
      LandedWins(lines, here, current, updates, w);
    }
  }

  lemma AssignedCons(lines: seq<string>, current: string, section: string, key: string)
    requires lines != []
    ensures Assigned(Readings(lines[1..]), Next(current, Read(lines[0])), section, key) ==>
              Assigned(Readings(lines), current, section, key)
  {
    hide Read;
    assert lines == [lines[0]] + lines[1..];
    ConsReading(lines[0], lines[1..]);
    assert ([Read(lines[0])] + Readings(lines[1..]))[1..] == Readings(lines[1..]);
  }

  lemma WinnerAtHeader(lines: seq<string>, name: string, here: string, current: string, updates: seq<Update>,
                       section: string, key: string)
    requires lines != [] && HeaderName(Trim(lines[0])) == Some(name)
    ensures Winner(lines, here, current, updates, section, key) ==
            Or(Winner(lines[1..], name, Next(current, Read(lines[0])), NotOf(updates, here), section, key),
               if section == current && !Assigned(Readings(lines), current, section, key)
               then PutOf(Pending(updates, here, key)) else None)
  {
    hide Read, HeaderName, Trim, Assigned, Readings, NotOf, Pending;
  }

  lemma WinnerAtReplaced(lines: seq<string>, i: nat, here: string, current: string, updates: seq<Update>,
                         section: string, key: string)
    requires lines != [] && HeaderName(Trim(lines[0])) == None && Replacement(lines[0], here, updates) == Some(i)
    ensures var next := Next(current, Read(lines[0]));
            Winner(lines, here, current, updates, section, key) ==
            Or(Winner(lines[1..], here, next, Without(updates, i), section, key),
               if section == current && key == updates[i].key && !Assigned(Readings(lines[1..]), next, section, key)
               then Some(Put(updates[i].value)) else None)
  {
    hide Read, HeaderName, Trim, Assigned, Readings, Without, Put, Replacement;
  }

  lemma WinsAtHeader(lines: seq<string>, name: string, here: string, current: string, updates: seq<Update>,
                     section: string, key: string) returns (u: Update)
    requires Distinct(updates) && lines != [] && HeaderName(Trim(lines[0])) == Some(name)
    requires Winner(lines, here, current, updates, section, key).Some?
    ensures WinsAt(lines, here, current, updates, section, key, u)
    decreases |lines|, 0
  {
    NotOfKeeps(updates, here);
    NotOfMembers(updates, here);
    WinnerAtHeader(lines, name, here, current, updates, section, key);
    AssignedCons(lines, current, section, key);
    var rest, next, later := lines[1..], Next(current, Read(lines[0])), NotOf(updates, here);
    hide NotOf, Of, Distinct, Pending, Put, Winner, LandingOf, Read, HeaderName, Trim, Readings, Assigned;
    var below := Winner(rest, name, next, later, section, key).Some?;
    if below {
      u := WinnerPrevails(rest, name, next, later, section, key);
    } else {
      u := Pending(updates, here, key).value;
    }
    LandingNext(lines, here, current, u);
    forall w | w in updates && w != u && LandsOn(lines, here, current, w, section, key)
      ensures LandingOf(lines, here, current, w).at < LandingOf(lines, here, current, u).at
    {
      LandingNext(lines, here, current, w);
      PendingIs(updates, w);
      if !below && w.section != here {
        LostIsAssigned(rest, name, next, later, w);
      }
    }
  }

  lemma WinsAtReplaced(lines: seq<string>, i: nat, here: string, current: string, updates: seq<Update>,
                       section: string, key: string) returns (u: Update)
    requires Distinct(updates) && lines != [] && HeaderName(Trim(lines[0])) == None
    requires Replacement(lines[0], here, updates) == Some(i)
    requires Winner(lines, here, current, updates, section, key).Some?
    ensures WinsAt(lines, here, current, updates, section, key, u)
    decreases |lines|, 0
  {
    WithoutMembers(updates, i);
    WinnerAtReplaced(lines, i, here, current, updates, section, key);
    var rest, next, later := lines[1..], Next(current, Read(lines[0])), Without(updates, i);
    hide Distinct, Put, Winner, LandingOf, Read, HeaderName, Trim, Readings, Assigned, Without, Replacement, Matches;
    var below := Winner(rest, here, next, later, section, key).Some?;
    if below {
      u := WinnerPrevails(rest, here, next, later, section, key);
    } else {
      u := updates[i];
    }
    ReplacedLanding(lines, i, here, current, updates, u);
    forall w | w in updates && w != u && LandsOn(lines, here, current, w, section, key)
      ensures LandingOf(lines, here, current, w).at < LandingOf(lines, here, current, u).at
    {
      ReplacedLanding(lines, i, here, current, updates, w);
      if !below {
        LostIsAssigned(rest, here, next, later, w);
      }
    }
  }

  lemma WinsAtKept(lines: seq<string>, here: string, current: string, updates: seq<Update>, section: string, key: string)
    returns (u: Update)
    requires Distinct(updates) && lines != [] && HeaderName(Trim(lines[0])) == None
    requires Replacement(lines[0], here, updates) == None
    requires Winner(lines, here, current, updates, section, key).Some?
    ensures WinsAt(lines, here, current, updates, section, key, u)
    decreases |lines|, 0
  {
    var rest, next := lines[1..], Next(current, Read(lines[0]));
    assert Winner(lines, here, current, updates, section, key) == Winner(rest, here, next, updates, section, key);
    hide Distinct, Put, Winner, LandingOf, Read, HeaderName, Trim, Readings, Assigned, Replacement, Matches;
    u := WinnerPrevails(rest, here, next, updates, section, key);
    forall w | w in updates
      ensures LandingOf(lines, here, current, w) == Further(LandingOf(rest, here, next, w))
    {
      KeptLanding(lines, here, current, updates, w);
    }
  }

  lemma {:induction false} WinnerPrevails(lines: seq<string>, here: string, current: string, updates: seq<Update>,
                                          section: string, key: string) returns (u: Update)
    requires Distinct(updates) && Winner(lines, here, current, updates, section, key).Some?
    ensures WinsAt(lines, here, current, updates, section, key, u)
    decreases |lines|, 1
  {
    hide Distinct, Winner, WinsAt, HeaderName, Trim, Replacement;
    if lines == [] {
      u := WinsAtEnd(here, current, updates, section, key);
    } else {
      match HeaderName(Trim(lines[0])) {
        case Some(name) => u := WinsAtHeader(lines, name, here, current, updates, section, key);
        case None =>
          match Replacement(lines[0], here, updates) {
            case Some(i) => u := WinsAtReplaced(lines, i, here, current, updates, section, key);
            case None => u := WinsAtKept(lines, here, current, updates, section, key);
          }
      }
    }
  }

  /** The last write to a place is that of the update that prevails there; without one there is none. */
  lemma WinnerIs(lines: seq<string>, here: string, current: string, updates: seq<Update>, section: string, key: string)
    requires Distinct(updates)
    ensures forall u :: u in updates && LandsOn(lines, here, current, u, section, key)
                        && Prevails(lines, here, current, updates, u) ==>
              Winner(lines, here, current, updates, section, key) == Some(Put(u.value))
    ensures (forall u :: u in updates && LandsOn(lines, here, current, u, section, key) ==>
               !Prevails(lines, here, current, updates, u)) ==>
              Winner(lines, here, current, updates, section, key) == None
  {
    hide Winner, LandingOf, Distinct, Put;
    var won := Winner(lines, here, current, updates, section, key);
    if won.Some? {
      var v := WinnerPrevails(lines, here, current, updates, section, key);
    }
    forall u | u in updates && LandsOn(lines, here, current, u, section, key) && Prevails(lines, here, current, updates, u)
      ensures won == Some(Put(u.value))
    {
      LandedWins(lines, here, current, updates, u);
      var v := WinnerPrevails(lines, here, current, updates, section, key);
      assert u == v;
    }
  }

  // ---- plain updates make plain lines ----

  lemma PlainConcat(a: seq<Out>, b: seq<Out>)
    requires PlainOuts(a) && PlainOuts(b)
    ensures PlainOuts(a + b)
  {
    hide PlainOut;
  }

  lemma {:induction false} FlushIsPlain(updates: seq<Update>, section: string)
    requires PlainUpdates(updates)
    ensures PlainOuts(Flush(updates, section)) && PlainUpdates(NotOf(updates, section))
  {
    hide PlainUpdate;
    if updates != [] {
      FlushIsPlain(updates[1..], section);
      if updates[0].section == section {
        assert Flush(updates, section) == [Added(updates[0])] + Flush(updates[1..], section);
      }
    }
  }

  lemma HeadIsPlain(updates: seq<Update>)
    requires PlainUpdates(updates) && updates != []
    ensures PlainOuts([Gap, Opened(updates[0].section)])
    ensures NewSections(updates) == [Gap, Opened(updates[0].section)] + Flush(updates, updates[0].section)
                                    + NewSections(NotOf(updates, updates[0].section))
  {
    hide PlainKey, PlainSection, Flush, NotOf;
    assert PlainUpdate(updates[0]);
  }

  lemma {:induction false} NewSectionsArePlain(updates: seq<Update>)
    requires PlainUpdates(updates)
    ensures PlainOuts(NewSections(updates))
    decreases |updates|
  {
    hide PlainUpdates, PlainOuts, Flush, NotOf, NewSections;
    if updates == [] {
      assert PlainOuts(NewSections([])) by { NothingIsPlain(); }
    } else {
      var created := updates[0].section;
      HeadIsPlain(updates);
      NewSectionsSplit(updates);
      FlushIsPlain(updates, created);
      NewSectionsArePlain(NotOf(updates, created));
      PlainConcat([Gap, Opened(created)], Flush(updates, created));
      PlainConcat([Gap, Opened(created)] + Flush(updates, created), NewSections(NotOf(updates, created)));
    }
  }

  lemma NothingIsPlain()
    ensures PlainOuts(NewSections([]))
  {
  }

  lemma WithoutIsPlain(updates: seq<Update>, i: nat)
    requires PlainUpdates(updates) && i < |updates|
    ensures PlainUpdates(Without(updates, i)) && PlainUpdate(updates[i])
  {
    hide PlainUpdate;
  }

  lemma {:induction false} RewriteIsPlain(lines: seq<string>, section: string, updates: seq<Update>)
    requires PlainUpdates(updates)
    requires forall i :: 0 <= i < |lines| ==> OneLine(lines[i])
    ensures PlainOuts(Rewrite(lines, section, updates))
    decreases |lines|
  {
    hide PlainUpdate, HeaderName, Trim, SplitKv, Flush, NotOf, Without, NewSections;
    FlushIsPlain(updates, section);
    if lines == [] {
      NewSectionsArePlain(NotOf(updates, section));
      PlainConcat(Flush(updates, section), NewSections(NotOf(updates, section)));
    } else {
      var raw, rest := lines[0], lines[1..];
      match HeaderName(Trim(raw)) {
        case Some(name) =>
          RewriteIsPlain(rest, name, NotOf(updates, section));
          PlainConcat(Flush(updates, section), [Kept(raw)]);
          PlainConcat(Flush(updates, section) + [Kept(raw)], Rewrite(rest, name, NotOf(updates, section)));
        case None =>
          match Replacement(raw, section, updates) {
            case Some(i) =>
              WithoutIsPlain(updates, i);
              RewriteIsPlain(rest, section, Without(updates, i));
              PlainConcat([Replaced(raw, updates[i])], Rewrite(rest, section, Without(updates, i)));
            case None =>
              RewriteIsPlain(rest, section, updates);
              PlainConcat([Kept(raw)], Rewrite(rest, section, updates));
          }
      }
    }
  }
}
