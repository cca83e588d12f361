/** What the broker keeps over every run: any interleaving of the steps of any number of connections. */
module UbusRuns {
  import opened Json
  import opened Ubus
  import opened Wrappers

  function RunFrom(s: State, events: seq<Event>): State
    decreases |events|
  {
    if events == [] then s else RunFrom(Step(s, events[0]), events[1..])
  }

  function Run(events: seq<Event>): State { RunFrom(Start, events) }

  lemma {:induction false} RunConcat(s: State, a: seq<Event>, b: seq<Event>)
    ensures RunFrom(s, a + b) == RunFrom(RunFrom(s, a), b)
    decreases |a|
  {
    hide Step;
    if a == [] {
      assert a + b == b;
    } else {
      assert (a + b)[1..] == a[1..] + b;
      RunConcat(Step(s, a[0]), a[1..], b);
    }
  }

  // ---- connections ----

  predicate OwnersLive(objects: seq<Registered>, conns: Outboxes) {
    forall i :: 0 <= i < |objects| ==> objects[i].owner in conns
  }

  predicate ConnsNumbered(s: State) { forall id :: id in s.conns ==> 1 <= id <= s.nextConn }

  predicate Live(s: State) { ConnsNumbered(s) && s.listeners <= s.conns.Keys && OwnersLive(s.objects, s.conns) }

  lemma {:induction false} WithoutPathWithin(objects: seq<Registered>, path: string, conns: Outboxes)
    requires OwnersLive(objects, conns)
    ensures OwnersLive(WithoutPath(objects, path), conns)
  {
    if objects != [] {
      WithoutPathWithin(objects[1..], path, conns);
    }
  }

  lemma {:induction false} WithoutOwnerWithin(objects: seq<Registered>, owner: nat, conns: Outboxes)
    requires OwnersLive(objects, conns)
    ensures OwnersLive(WithoutOwner(objects, owner), conns - {owner})
  {
    if objects != [] {
      WithoutOwnerWithin(objects[1..], owner, conns);
    }
  }

  lemma {:induction false} ProviderIsOwner(objects: seq<Registered>, path: string, name: string, conns: Outboxes)
    requires OwnersLive(objects, conns)
    ensures Provider(objects, path, name).Some? ==> Provider(objects, path, name).value in conns
  {
    if objects != [] {
      ProviderIsOwner(objects[1..], path, name, conns);
    }
  }

  lemma StepLive(s: State, e: Event)
    requires Live(s)
    ensures Live(Step(s, e))
    ensures Step(s, e).nextConn >= s.nextConn
    ensures forall id :: id in Step(s, e).conns ==> id in s.conns || id == s.nextConn + 1 <= Step(s, e).nextConn
  {
    hide GetPair, Strings, Field, Args, ReplyId, Data, Methods, Builtin, ListFrame;
    match e {
      case Opened =>
      case Request(id, req, now) =>
        WithoutPathWithin(s.objects, Field(req, "path"), s.conns);
      case BadLine(id, reason) =>
      case Closed(id) =>
        WithoutOwnerWithin(s.objects, id, s.conns);
    }
  }

  /** Owners and listeners are open connections in every reachable state, and numbers are not given out twice. */
  lemma {:induction false} RunLive(s: State, events: seq<Event>)
    requires Live(s)
    ensures Live(RunFrom(s, events)) && RunFrom(s, events).nextConn >= s.nextConn
    ensures forall id :: id in RunFrom(s, events).conns ==> id in s.conns || id > s.nextConn
    decreases |events|
  {
    hide Step, Live;
    if events != [] {
      StepLive(s, events[0]);
      RunLive(Step(s, events[0]), events[1..]);
    }
  }

  // ---- routed calls ----

  function IssuedIds(log: seq<Deed>): seq<nat> {
    if log == [] then [] else IssuedIds(log[..|log| - 1]) + (if log[|log| - 1].Issued? then [log[|log| - 1].id] else [])
  }

  function AnsweredIds(log: seq<Deed>): seq<nat> {
    if log == [] then [] else AnsweredIds(log[..|log| - 1]) + (if log[|log| - 1].Answered? then [log[|log| - 1].id] else [])
  }

  // The ids of n calls, in turn.
  function Ids(n: nat): seq<nat> { seq(n, i => (i + 1) % TWO64) }

  function CallCount(s: State): nat { |IssuedIds(s.log)| }

  predicate IssuedTo(log: seq<Deed>, upTo: nat, id: nat, caller: nat) {
    exists j :: 0 <= j < |log| && j < upTo && log[j].Issued? && log[j].id == id && log[j].caller == caller
  }

  predicate NoRepeats(ids: seq<nat>) { forall i, j :: 0 <= i < j < |ids| ==> ids[i] != ids[j] }

  // Every routed call is numbered in turn and, until the counter wraps, waits for its reply or was answered once.
  ghost predicate Accounted(s: State) {
    && IssuedIds(s.log) == Ids(CallCount(s)) && s.nextReq == CallCount(s) % TWO64
    && (CallCount(s) < TWO64 ==> Settled(s))
  }

  ghost predicate Settled(s: State) {
    && NoRepeats(AnsweredIds(s.log))
    && (forall id: nat :: 1 <= id <= s.nextReq <==> id in s.pending || id in AnsweredIds(s.log))
    && (forall id :: id in s.pending ==> id !in AnsweredIds(s.log))
  }

  // Answers go to the connection that issued the call.
  predicate RightCallers(s: State) {
    && (forall id :: id in s.pending ==> IssuedTo(s.log, |s.log|, id, s.pending[id]))
    && (forall i :: 0 <= i < |s.log| && s.log[i].Answered? ==> IssuedTo(s.log, i, s.log[i].id, s.log[i].caller))
  }

  lemma LogSnoc(log: seq<Deed>, d: Deed)
    ensures IssuedIds(log + [d]) == IssuedIds(log) + (if d.Issued? then [d.id] else [])
    ensures AnsweredIds(log + [d]) == AnsweredIds(log) + (if d.Answered? then [d.id] else [])
  {
    assert (log + [d])[..|log|] == log;
  }

  lemma IssuedSnoc(log: seq<Deed>, d: Deed)
    ensures forall upTo: nat, id: nat, caller: nat :: IssuedTo(log, upTo, id, caller) ==> IssuedTo(log + [d], upTo, id, caller)
    ensures d.Issued? ==> IssuedTo(log + [d], |log| + 1, d.id, d.caller)
    ensures forall id: nat, caller: nat :: IssuedTo(log, |log|, id, caller) ==> IssuedTo(log + [d], |log| + 1, id, caller)
  {
    if d.Issued? {
      assert (log + [d])[|log|] == d;
    }
    forall upTo: nat, id: nat, caller: nat | IssuedTo(log, upTo, id, caller)
      ensures IssuedTo(log + [d], upTo, id, caller) && IssuedTo(log + [d], |log| + 1, id, caller)
    {
      var j :| 0 <= j < |log| && j < upTo && log[j].Issued? && log[j].id == id && log[j].caller == caller;
      assert (log + [d])[j] == log[j];
    }
  }

  lemma IssueAccounted(s: State, t: State, caller: nat, owner: nat)
    requires Accounted(s) && RightCallers(s)
    requires t.nextReq == (s.nextReq + 1) % TWO64 && t.pending == s.pending[t.nextReq := caller]
    requires t.log == s.log + [Issued(t.nextReq, caller, owner)]
    ensures Accounted(t) && RightCallers(t)
  {
    var d := Issued(t.nextReq, caller, owner);
    LogSnoc(s.log, d);
    IssuedSnoc(s.log, d);
    hide IssuedIds, AnsweredIds, IssuedTo;
    assert Ids(CallCount(t)) == Ids(CallCount(s)) + [t.nextReq];
  }

  lemma AnswerAccounted(s: State, t: State, id: nat, delivered: bool)
    requires Accounted(s) && RightCallers(s) && id in s.pending
    requires t.nextReq == s.nextReq && t.pending == s.pending - {id}
    requires t.log == s.log + [Answered(id, s.pending[id], delivered)]
    ensures Accounted(t) && RightCallers(t)
  {
    var d := Answered(id, s.pending[id], delivered);
    AnswerCallers(s, t, d) by { hide Accounted; }
    hide RightCallers, IssuedTo;
    LogSnoc(s.log, d);
    hide IssuedIds, AnsweredIds;
    var ids := AnsweredIds(s.log);
    assert AnsweredIds(t.log) == ids + [id];
    assert forall k :: k in AnsweredIds(t.log) <==> k in ids || k == id;
  }

  lemma AnswerCallers(s: State, t: State, d: Deed)
    requires RightCallers(s) && d.Answered? && d.id in s.pending && d.caller == s.pending[d.id]
    requires t.pending == s.pending - {d.id} && t.log == s.log + [d]
    ensures RightCallers(t)
  {
    IssuedSnoc(s.log, d);
    hide IssuedTo;
  }

  predicate Replies(e: Event, id: nat) { e.Request? && Field(e.req, "op") == "reply" && ReplyId(e.req) == id }

  // The deeds of one step.
  lemma StepDeeds(s: State, e: Event)
    ensures var t := Step(s, e);
            || (t.log == s.log && t.pending == s.pending && t.nextReq == s.nextReq)
            || (exists caller: nat, owner: nat ::
                  && t.nextReq == (s.nextReq + 1) % TWO64 && t.pending == s.pending[t.nextReq := caller]
                  && t.log == s.log + [Issued(t.nextReq, caller, owner)])
            || (exists id: nat ::
                  && id in s.pending && t.nextReq == s.nextReq && t.pending == s.pending - {id}
                  && t.log == s.log + [Answered(id, s.pending[id], s.pending[id] in s.conns)]
                  && Replies(e, id))
  {
    hide GetPair, Strings, Field, Args, ReplyId, Data, Methods, Builtin, ListFrame, Provider, WithoutPath, WithoutOwner;
  }

  lemma StepAccounted(s: State, e: Event)
    requires Accounted(s) && RightCallers(s)
    ensures Accounted(Step(s, e)) && RightCallers(Step(s, e))
  {
    var t := Step(s, e);
    StepDeeds(s, e);
    hide Step;
    if t.log == s.log && t.pending == s.pending && t.nextReq == s.nextReq {
    } else if caller: nat, owner: nat :|
        && t.nextReq == (s.nextReq + 1) % TWO64 && t.pending == s.pending[t.nextReq := caller]
        && t.log == s.log + [Issued(t.nextReq, caller, owner)] {
      IssueAccounted(s, t, caller, owner);
    } else {
      var id: nat :|
        && id in s.pending && t.nextReq == s.nextReq && t.pending == s.pending - {id}
        && t.log == s.log + [Answered(id, s.pending[id], s.pending[id] in s.conns)] && Replies(e, id);
      AnswerAccounted(s, t, id, s.pending[id] in s.conns);
    }
  }

  lemma {:induction false} RunAccounted(s: State, events: seq<Event>)
    requires Accounted(s) && RightCallers(s)
    ensures Accounted(RunFrom(s, events)) && RightCallers(RunFrom(s, events))
    decreases |events|
  {
    hide Step, Accounted, RightCallers;
    if events != [] {
      StepAccounted(s, events[0]);
      RunAccounted(Step(s, events[0]), events[1..]);
    }
  }

  lemma IdsRepeatIff(n: nat)
    ensures NoRepeats(Ids(n)) <==> n <= TWO64
  {
    if n > TWO64 {
      assert Ids(n)[0] == Ids(n)[TWO64];
    }
  }

  /**
   At-most-once calls. In every reachable state the ids issued are 1, 2, 3 and so on; up to the wrap of the
   counter each was issued once, they are the disjoint union of those pending and those answered, and each was
   answered at most once. Answers always go to an issuer of their id.
   */
  lemma CallsAreAnsweredAtMostOnce(events: seq<Event>)
    ensures var s := Run(events);
            Accounted(s) && RightCallers(s) && (NoRepeats(IssuedIds(s.log)) <==> CallCount(s) <= TWO64)
  {
    hide RunFrom;
    assert Accounted(Start) && RightCallers(Start);
    RunAccounted(Start, events);
    IdsRepeatIff(CallCount(Run(events)));
  }

  // ---- the frames, written out ----

  // The text of a field, and the field or what stands for it.
  function Text(v: Value, key: string): string { if Get(v, key).Some? && Get(v, key).value.Str? then Get(v, key).value.s else "" }

  function Given(v: Value, key: string, otherwise: Value): Value {
    if Get(v, key).Some? then Get(v, key).value else otherwise
  }

  lemma {:induction false} GetPairIsFirst(before: seq<Pair>, key: string, value: Value, after: seq<Pair>)
    requires forall i :: 0 <= i < |before| ==> before[i].key != key
    ensures GetPair(before + [Pair(key, value)] + after, key) == Some(value)
  {
    if before != [] {
      assert (before + [Pair(key, value)] + after)[1..] == before[1..] + [Pair(key, value)] + after;
      GetPairIsFirst(before[1..], key, value, after);
    }
  }

  lemma {:induction false} GetPairAbsent(pairs: seq<Pair>, key: string)
    requires forall i :: 0 <= i < |pairs| ==> pairs[i].key != key
    ensures GetPair(pairs, key) == None
  {
    if pairs != [] {
      GetPairAbsent(pairs[1..], key);
    }
  }

  /** A field of a request is the value of the first pair with its key; without one, or without an object, there is none. */
  lemma FieldIsFirst(before: seq<Pair>, key: string, value: Value, after: seq<Pair>, v: Value)
    requires forall i :: 0 <= i < |before| ==> before[i].key != key
    ensures Get(Object(before + [Pair(key, value)] + after), key) == Some(value)
    ensures Get(Object(before), key) == None && (!v.Object? ==> Get(v, key) == None)
  {
    GetPairIsFirst(before, key, value, after);
    GetPairAbsent(before, key);
  }

  /**
   An answer is written to the caller, if it is still there, and to nobody else: status 0 and the data of the reply, or
   null when the reply has none.
   */
  lemma AnswerReachesCallerOnly(s: State, e: Event, id: nat, caller: nat, delivered: bool)
    requires Step(s, e).log == s.log + [Answered(id, caller, delivered)]
    ensures Replies(e, id) && id in s.pending && caller == s.pending[id] && delivered == (caller in s.conns)
    ensures var frame := Object([Pair("status", Num(0.0)), Pair("data", Given(e.req, "data", Null))]);
            Step(s, e).conns == if delivered then s.conns[caller := s.conns[caller] + [frame]] else s.conns
  {
    hide GetPair, Strings, Field, Args, ReplyId, Methods, Builtin, ListFrame, Provider, WithoutPath, WithoutOwner;
    StepDeeds(s, e);
    var deeds := Step(s, e).log;
    assert deeds[|s.log|] == Answered(id, caller, delivered) && |deeds| == |s.log| + 1;
  }

  /**
   A routed call is written to the owner of the object, and to nobody else: the next number as a float, the method that
   was asked for, and its arguments, or an empty object when there are none.
   */
  lemma CallReachesProviderOnly(s: State, e: Event, id: nat, caller: nat, owner: nat)
    requires Live(s) && Step(s, e).log == s.log + [Issued(id, caller, owner)]
    ensures e.Request? && caller == e.conn && id == (s.nextReq + 1) % TWO64 && owner in s.conns
    ensures Text(e.req, "op") == "call"
    ensures Provider(s.objects, Text(e.req, "path"), Text(e.req, "method")) == Some(owner)
    ensures var frame := Object([Pair("invoke", Num(AsF64(id) as real)), Pair("method", Str(Text(e.req, "method"))),
                                 Pair("args", Given(e.req, "args", Object([])))]);
            Step(s, e).conns == s.conns[owner := s.conns[owner] + [frame]]
  {
    hide GetPair, Strings, ReplyId, Data, Methods, Builtin, ListFrame, Provider, WithoutPath, WithoutOwner, AsF64;
    StepDeeds(s, e);
    var deeds := Step(s, e).log;
    assert deeds[|s.log|] == Issued(id, caller, owner) && |deeds| == |s.log| + 1;
    if e.Request? {
      TextIsField(e.req);
      ProviderIsOwner(s.objects, Field(e.req, "path"), Field(e.req, "method"), s.conns);
    }
  }

  lemma TextIsField(v: Value)
    ensures forall key :: Text(v, key) == Field(v, key)
  {
    hide GetPair;
  }

  /** An event is written once to each listener, a status to the sender, and nothing to anybody else. */
  lemma EventReachesListenersOnly(s: State, e: Event, id: nat)
    requires e.Request? && e.conn in s.conns && Text(e.req, "op") == "send" && id in s.conns
    ensures var event := Object([Pair("event", Str(Text(e.req, "event"))), Pair("data", Given(e.req, "data", Null))]);
            && Step(s, e).conns.Keys == s.conns.Keys
            && Step(s, e).conns[id] == s.conns[id] + (if id in s.listeners then [event] else [])
                                       + (if id == e.conn then [Object([Pair("status", Num(0.0))])] else [])
  {
    TextIsField(e.req);
    hide GetPair;
  }

  // One frame to one connection, and nothing else happens.
  predicate OnlyTold(s: State, t: State, id: nat, frame: Value) {
    id in s.conns && t == s.(conns := s.conns[id := s.conns[id] + [frame]])
  }

  /** The broker itself answers for the system object: board with the board's readings, info with the system's. */
  lemma SystemAnswersAtOnce(s: State, e: Event)
    requires e.Request? && e.conn in s.conns && Text(e.req, "op") == "call" && Text(e.req, "path") == "system"
    ensures Text(e.req, "method") == "board" ==>
              OnlyTold(s, Step(s, e), e.conn, Object([Pair("status", Num(0.0)), Pair("data", e.now.board)]))
    ensures Text(e.req, "method") == "info" ==>
              OnlyTold(s, Step(s, e), e.conn, Object([Pair("status", Num(0.0)), Pair("data", e.now.info)]))
  {
    TextIsField(e.req);
    hide GetPair, Provider, ListFrame, Methods, ReplyId;
  }

  /** What cannot be done is refused with a negative status and a reason, and changes nothing. */
  lemma RefusalsChangeNothing(s: State, e: Event)
    requires e.Request? && e.conn in s.conns
    ensures Text(e.req, "op") == "add" && Text(e.req, "path") == "" ==>
              OnlyTold(s, Step(s, e), e.conn, Object([Pair("status", Num(-1.0)), Pair("error", Str("add: empty path"))]))
    ensures Text(e.req, "op") == "call" && Text(e.req, "path") != "system"
            && Provider(s.objects, Text(e.req, "path"), Text(e.req, "method")) == None ==>
              OnlyTold(s, Step(s, e), e.conn,
                       Object([Pair("status", Num(-2.0)), Pair("error", Str("object/method not found"))]))
    ensures Text(e.req, "op") !in {"list", "call", "reply", "add", "send", "listen"} ==>
              OnlyTold(s, Step(s, e), e.conn, Object([Pair("status", Num(-1.0)), Pair("error", Str("unknown op"))]))
  {
    TextIsField(e.req);
    hide GetPair, Provider, ListFrame, Methods, ReplyId, WithoutPath;
  }

  /** A line that is no JSON is refused with the reason, and changes nothing. */
  lemma BadLinesChangeNothing(s: State, e: Event)
    requires e.BadLine? && e.conn in s.conns
    ensures OnlyTold(s, Step(s, e), e.conn, Object([Pair("status", Num(-1.0)), Pair("error", Str("bad json: " + e.reason))]))
  {
  }

  /** Adding an object and listening are confirmed to the connection that asked. */
  lemma ChangesAreConfirmed(s: State, e: Event)
    requires e.Request? && e.conn in s.conns
    requires (Text(e.req, "op") == "add" && Text(e.req, "path") != "") || Text(e.req, "op") == "listen"
    ensures Step(s, e).conns == s.conns[e.conn := s.conns[e.conn] + [Object([Pair("status", Num(0.0))])]]
    ensures Text(e.req, "op") == "listen" ==> Step(s, e).listeners == s.listeners + {e.conn} && Step(s, e).objects == s.objects
  {
    TextIsField(e.req);
    hide GetPair, Provider, ListFrame, Methods, ReplyId, WithoutPath;
  }

  lemma {:induction false} StringsAre(items: seq<Value>, name: string)
    ensures name in Strings(items) <==> Str(name) in items
  {
    if items != [] {
      StringsAre(items[1..], name);
    }
  }

  lemma {:induction false} OthersStay(objects: seq<Registered>, path: string, o: Registered)
    ensures o in WithoutPath(objects, path) <==> o in objects && o.path != path
  {
    if objects != [] {
      OthersStay(objects[1..], path, o);
    }
  }

  lemma AddedLast(s: State, e: Event)
    requires e.Request? && e.conn in s.conns && Text(e.req, "op") == "add" && Text(e.req, "path") != ""
    ensures Step(s, e).objects
         == WithoutPath(s.objects, Text(e.req, "path")) + [Registered(Text(e.req, "path"), Methods(e.req), e.conn)]
  {
    TextIsField(e.req);
    hide Text, GetPair, Methods, WithoutPath, Provider, ListFrame, ReplyId, Field, Args, Data, StatusFrame;
  }

  lemma MethodsAre(req: Value, name: string)
    ensures name in Methods(req) <==>
            Given(req, "methods", Null).Array? && Str(name) in Given(req, "methods", Null).items
  {
    if Given(req, "methods", Null).Array? {
      StringsAre(Given(req, "methods", Null).items, name);
    }
    hide GetPair, Strings;
  }

  /**
   An object is registered for the connection that adds it, with exactly the strings of its list of methods, behind the
   others; the object its path had before is gone.
   */
  lemma AddRegisters(s: State, e: Event, name: string, other: Registered)
    requires e.Request? && e.conn in s.conns && Text(e.req, "op") == "add" && Text(e.req, "path") != ""
    ensures var objects := Step(s, e).objects;
            && objects != [] && objects[|objects| - 1].path == Text(e.req, "path") && objects[|objects| - 1].owner == e.conn
            && (name in objects[|objects| - 1].names <==>
                Given(e.req, "methods", Null).Array? && Str(name) in Given(e.req, "methods", Null).items)
            && (other in objects[..|objects| - 1] <==> other in s.objects && other.path != Text(e.req, "path"))
  {
    hide Text, Given, Methods, WithoutPath, Step;
    AddedLast(s, e);
    MethodsAre(e.req, name);
    var path := Text(e.req, "path");
    OthersStay(s.objects, path, other);
    var objects, added := Step(s, e).objects, Registered(path, Methods(e.req), e.conn);
    assert objects[|objects| - 1] == added && objects[..|objects| - 1] == WithoutPath(s.objects, path);
  }

  // The entry of one object in the list: its path and its methods in order.
  predicate Lists(entry: Value, path: string, names: seq<string>) {
    && entry.Object? && |entry.pairs| == 2
    && entry.pairs[0] == Pair("path", Str(path))
    && entry.pairs[1].key == "methods" && entry.pairs[1].value.Array?
    && var items := entry.pairs[1].value.items;
       |items| == |names| && forall i :: 0 <= i < |names| ==> items[i] == Str(names[i])
  }

  lemma {:induction false} StrValuesAre(names: seq<string>)
    ensures |StrValues(names)| == |names| && forall i :: 0 <= i < |names| ==> StrValues(names)[i] == Str(names[i])
  {
    if names != [] {
      StrValuesAre(names[1..]);
    }
  }

  lemma ListedLists(path: string, names: seq<string>)
    ensures Lists(Listed(path, names), path, names)
  {
    StrValuesAre(names);
    hide StrValues;
  }

  lemma {:induction false} ListAllLists(objects: seq<Registered>)
    ensures |ListAll(objects)| == |objects|
    ensures forall i :: 0 <= i < |objects| ==> Lists(ListAll(objects)[i], objects[i].path, objects[i].names)
  {
    hide Listed, Lists;
    if objects != [] {
      ListedLists(objects[0].path, objects[0].names);
      ListAllLists(objects[1..]);
    }
  }

  /** The list is the system object with board and info, and then every registered object in order. */
  lemma ListShowsObjects(s: State, e: Event) returns (items: seq<Value>)
    requires e.Request? && e.conn in s.conns && Text(e.req, "op") == "list"
    ensures OnlyTold(s, Step(s, e), e.conn, Object([Pair("status", Num(0.0)), Pair("objects", Array(items))]))
    ensures |items| == 1 + |s.objects| && Lists(items[0], "system", ["board", "info"])
    ensures forall i :: 0 <= i < |s.objects| ==> Lists(items[i + 1], s.objects[i].path, s.objects[i].names)
  {
    TextIsField(e.req);
    ListedLists("system", ["board", "info"]);
    ListAllLists(s.objects);
    hide GetPair, Lists, Listed, ListAll;
    items := [Listed("system", ["board", "info"])] + ListAll(s.objects);
  }

  predicate NoneReaches(log: seq<Deed>, from: nat, conn: nat) {
    forall i :: from <= i < |log| && log[i].Answered? && log[i].caller == conn ==> !log[i].delivered
  }

  /** A late reply to a closed connection reaches nobody: its number never comes back. */
  lemma {:induction false} LateRepliesReachNobody(s: State, events: seq<Event>, conn: nat)
    requires Live(s) && conn <= s.nextConn && conn !in s.conns
    ensures var t := RunFrom(s, events); conn !in t.conns && s.log <= t.log && NoneReaches(t.log, |s.log|, conn)
    decreases |events|
  {
    hide Step, Live;
    if events != [] {
      var next := Step(s, events[0]);
      StepLive(s, events[0]);
      StepDeeds(s, events[0]);
      LateRepliesReachNobody(next, events[1..], conn);
    }
  }

  lemma {:induction false} CallCountGrows(s: State, events: seq<Event>)
    ensures CallCount(s) <= CallCount(RunFrom(s, events))
    decreases |events|
  {
    hide Step;
    if events != [] {
      StepCount(s, events[0]);
      CallCountGrows(Step(s, events[0]), events[1..]);
    }
  }

  lemma StepCount(s: State, e: Event)
    ensures CallCount(s) <= CallCount(Step(s, e))
  {
    StepDeeds(s, e);
    var before, after := s.log, Step(s, e).log;
    hide Step;
    if |after| > |before| {
      LogSnoc(before, after[|before|]);
    }
  }

  /** A pending call waits, whatever the other connections do, until somebody replies to it. */
  lemma {:induction false} PendingWaits(s: State, events: seq<Event>, id: nat)
    requires Accounted(s) && RightCallers(s) && id in s.pending
    requires CallCount(RunFrom(s, events)) < TWO64
    requires forall i :: 0 <= i < |events| ==> !Replies(events[i], id)
    ensures var t := RunFrom(s, events); id in t.pending && t.pending[id] == s.pending[id]
    decreases |events|
  {
    hide Step, RightCallers, IssuedIds, AnsweredIds, Replies;
    if events != [] {
      var next := Step(s, events[0]);
      StepDeeds(s, events[0]);
      StepAccounted(s, events[0]);
      CallCountGrows(next, events[1..]);
      StepCount(s, events[0]);
      assert forall i :: 0 <= i < |events[1..]| ==> events[1..][i] == events[i + 1];
      PendingWaits(next, events[1..], id);
    }
  }

  /** A call that was issued reaches its caller through any interleaving, once a reply to it comes. */
  lemma ReplyCompletesCall(before: seq<Event>, between: seq<Event>, id: nat, reply: Event)
    requires id in Run(before).pending && Replies(reply, id)
    requires CallCount(Run(before + between)) < TWO64
    requires forall i :: 0 <= i < |between| ==> !Replies(between[i], id)
    requires var s := Run(before + between); Run(before).pending[id] in s.conns && reply.conn in s.conns
    ensures var caller, s := Run(before).pending[id], Run(before + between);
            var frame := Object([Pair("status", Num(0.0)), Pair("data", Given(reply.req, "data", Null))]);
            Step(s, reply).conns == s.conns[caller := s.conns[caller] + [frame]]
  {
    RunConcat(Start, before, between);
    CallsAreAnsweredAtMostOnce(before);
    PendingWaits(Run(before), between, id);
    hide RunFrom, GetPair, ReplyId, Field;
  }

  // ---- a run of any number of calls ----

  const Silent := Readings(Null, Null)
  const Adds := Request(1, Object([Pair("op", Str("add")), Pair("path", Str("p")), Pair("methods", Array([Str("m")]))]), Silent)
  const Calls := Request(1, Object([Pair("op", Str("call")), Pair("path", Str("p")), Pair("method", Str("m"))]), Silent)

  predicate Serving(s: State) { s.conns.Keys == {1} && s.objects == [Registered("p", ["m"], 1)] }

  lemma OneCall(s: State)
    requires Serving(s)
    ensures Serving(Step(s, Calls)) && CallCount(Step(s, Calls)) == CallCount(s) + 1
  {
    assert Field(Calls.req, "op") == "call" && Field(Calls.req, "path") == "p" && Field(Calls.req, "method") == "m";
    assert Provider(s.objects, "p", "m") == Some(1);
    hide Field, Provider, InvokeFrame, Args;
    LogSnoc(s.log, Issued((s.nextReq + 1) % TWO64, 1, 1));
  }

  lemma AddServes(s: State)
    requires s == Step(Start, Opened)
    ensures Serving(Step(s, Adds)) && CallCount(Step(s, Adds)) == 0
  {
    assert Field(Adds.req, "op") == "add" && Field(Adds.req, "path") == "p";
    assert Strings([Str("m")]) == ["m"] by { assert [Str("m")][1..] == []; }
    assert Methods(Adds.req) == ["m"];
    hide Field, Methods;
  }

  lemma ServingStarts()
    ensures Serving(Run([Opened, Adds])) && CallCount(Run([Opened, Adds])) == 0
  {
    hide Step, Serving, CallCount;
    var s := Step(Start, Opened);
    AddServes(s);
    assert [Opened, Adds][1..] == [Adds] && [Adds][1..] == [];
    assert RunFrom(s, [Adds]) == RunFrom(Step(s, Adds), []);
    assert Run([Opened, Adds]) == RunFrom(s, [Adds]);
  }

  /** The counter can wrap: there are runs of any number of calls. */
  lemma {:induction false} ManyCalls(n: nat)
    ensures exists events :: CallCount(Run(events)) == n && Serving(Run(events))
  {
    hide Step, Serving;
    if n == 0 {
      ServingStarts();
    } else {
      ManyCalls(n - 1);
      var events :| CallCount(Run(events)) == n - 1 && Serving(Run(events));
      OneCall(Run(events));
      RunConcat(Start, events, [Calls]);
      assert [Calls][1..] == [];
      assert Run(events + [Calls]) == Step(Run(events), Calls);
    }
  }

  // ---- ids as numbers of JSON ----

  // The provider replies under the number it was sent.
  predicate Echoes(e: Event, id: nat, name: string, args: Value) {
    && e.Request? && Field(e.req, "op") == "reply"
    && Get(e.req, "id") == Get(InvokeFrame(id, name, args), "invoke")
  }

  lemma RoundedIff(n: nat)
    ensures AsF64(n) == n <==> n % Spacing(n) == 0
  {
    var unit := Spacing(n);
    var below, beyond := n / unit, n % unit;
    assert n == below * unit + beyond;
    assert (below + 1) * unit == below * unit + unit;
  }

  lemma LargestIsRounded()
    ensures AsF64(MAX_U64) == TWO64
  {
    var n := MAX_U64;
    assert Spacing(n / 1024) == 2 * Spacing(n / 2048) == 2;
    assert Spacing(n / 256) == 2 * Spacing(n / 512) == 4 * Spacing(n / 1024);
    assert Spacing(n / 64) == 2 * Spacing(n / 128) == 4 * Spacing(n / 256);
    assert Spacing(n / 16) == 2 * Spacing(n / 32) == 4 * Spacing(n / 64);
    assert Spacing(n / 4) == 2 * Spacing(n / 8) == 4 * Spacing(n / 16);
    assert Spacing(n) == 2 * Spacing(n / 2) == 4 * Spacing(n / 4);
  }

  lemma EchoedId(e: Event, id: nat, name: string, args: Value)
    requires Echoes(e, id, name, args)
    ensures ReplyId(e.req) == if AsF64(id) <= MAX_U64 then AsF64(id) else MAX_U64
  {
    hide AsF64;
    var frame := InvokeFrame(id, name, args);
    assert Get(frame, "invoke") == Some(Num(AsF64(id) as real));
  }

  /**
   A provider that replies under the number it was sent replies to the call it was sent, exactly when the id is a
   float or the largest id, which the cast back to 64 bits saturates to.
   */
  lemma EchoRepliesIff(e: Event, id: nat, name: string, args: Value)
    requires Echoes(e, id, name, args) && id < TWO64
    ensures Replies(e, id) <==> id % Spacing(id) == 0 || id == MAX_U64
  {
    hide AsF64, Spacing, ReplyId, InvokeFrame, Get;
    EchoedId(e, id, name, args);
    RoundedIff(id);
    LargestIsRounded();
  }

  // Up to 2^53 every id is exact; the one after it is not, and its echo replies to the call before it.
  lemma FirstInexactId(e: Event, id: nat, name: string, args: Value)
    requires Echoes(e, id, name, args)
    ensures id <= TWO53 ==> Replies(e, id)
    ensures id == TWO53 + 1 ==> Replies(e, TWO53) && !Replies(e, id)
  {
    hide ReplyId, InvokeFrame, Get;
    EchoedId(e, id, name, args);
    assert Spacing(TWO53) == 2 && Spacing(TWO53 + 1) == 2;
  }

  // ---- the object table ----

  datatype Entry = Entry(owner: nat, names: seq<string>)

  type Table = map<string, Entry>

  // What the broker promises: a map of objects, changed by `add` and by a connection that closes, and the open
  // connections that asked to listen.
  datatype Directory = Directory(open: set<nat>, last: nat, listening: set<nat>, table: Table)

  function NotOwnedBy(table: Table, id: nat): Table {
    map path | path in table && table[path].owner != id :: table[path]
  }

  function DirectoryStep(d: Directory, e: Event): Directory {
    match e
    case Opened => d.(open := d.open + {d.last + 1}, last := d.last + 1)
    case Request(id, req, _) =>
      if id in d.open && Field(req, "op") == "add" && Field(req, "path") != ""
      then d.(table := d.table[Field(req, "path") := Entry(id, Methods(req))])
      else if id in d.open && Field(req, "op") == "listen" then d.(listening := d.listening + {id})
      else d
    case BadLine(_, _) => d
    case Closed(id) =>
      if id in d.open
      then Directory(d.open - {id}, d.last, d.listening - {id}, NotOwnedBy(d.table, id))
      else d
  }

  function DirectoryRun(d: Directory, events: seq<Event>): Directory
    decreases |events|
  {
    if events == [] then d else DirectoryRun(DirectoryStep(d, events[0]), events[1..])
  }

  function TableOf(objects: seq<Registered>): Table {
    if objects == [] then map[]
    else TableOf(objects[1..])[objects[0].path := Entry(objects[0].owner, objects[0].names)]
  }

  predicate DistinctPaths(objects: seq<Registered>) {
    && (forall i, j :: 0 <= i < j < |objects| ==> objects[i].path != objects[j].path)
    && (forall i :: 0 <= i < |objects| ==> objects[i].path != "")
  }

  lemma {:induction false} TableKeys(objects: seq<Registered>)
    ensures forall i :: 0 <= i < |objects| ==> objects[i].path in TableOf(objects)
    ensures forall path :: path in TableOf(objects) ==> exists i :: 0 <= i < |objects| && objects[i].path == path
  {
    if objects != [] {
      TableKeys(objects[1..]);
      forall path | path in TableOf(objects)
        ensures exists i :: 0 <= i < |objects| && objects[i].path == path
      {
        if path != objects[0].path {
          var i :| 0 <= i < |objects[1..]| && objects[1..][i].path == path;
          assert objects[i + 1].path == path;
        }
      }
    }
  }

  lemma DistinctTail(objects: seq<Registered>)
    requires DistinctPaths(objects) && objects != []
    ensures DistinctPaths(objects[1..]) && objects[0].path !in TableOf(objects[1..])
  {
    TableKeys(objects[1..]);
  }

  /** Every object of the list is the entry of its path, and there are no other entries. */
  lemma {:induction false} ListIsTable(objects: seq<Registered>)
    requires DistinctPaths(objects)
    ensures |TableOf(objects)| == |objects|
    ensures forall i :: 0 <= i < |objects| ==>
              objects[i].path in TableOf(objects) && TableOf(objects)[objects[i].path] == Entry(objects[i].owner, objects[i].names)
  {
    if objects != [] {
      DistinctTail(objects);
      ListIsTable(objects[1..]);
      TableKeys(objects);
      assert TableOf(objects).Keys == TableOf(objects[1..]).Keys + {objects[0].path};
    }
  }

  /** Looking up a provider in the list is looking up the path in the map. */
  lemma {:induction false} ProviderIsLookup(objects: seq<Registered>, path: string, name: string)
    requires DistinctPaths(objects)
    ensures Provider(objects, path, name) ==
            if path in TableOf(objects) && name in TableOf(objects)[path].names then Some(TableOf(objects)[path].owner) else None
  {
    if objects != [] {
      DistinctTail(objects);
      ProviderIsLookup(objects[1..], path, name);
    }
  }

  lemma DistinctCons(o: Registered, rest: seq<Registered>)
    requires DistinctPaths(rest) && o.path != "" && o.path !in TableOf(rest)
    ensures DistinctPaths([o] + rest) && TableOf([o] + rest) == TableOf(rest)[o.path := Entry(o.owner, o.names)]
  {
    var all := [o] + rest;
    assert all[1..] == rest;
    TableKeys(rest);
    assert TableOf(all) == TableOf(rest)[o.path := Entry(o.owner, o.names)];
    hide TableOf;
    forall i, j | 0 <= i < j < |all|
      ensures all[i].path != all[j].path
    {
      assert all[j] == rest[j - 1];
      if i > 0 {
        assert all[i] == rest[i - 1];
      }
    }
    assert forall i :: 1 <= i < |all| ==> all[i] == rest[i - 1];
  }

  lemma TableOfCons(objects: seq<Registered>)
    requires DistinctPaths(objects) && objects != []
    ensures objects[0].path != "" && DistinctPaths(objects[1..]) && objects[0].path !in TableOf(objects[1..])
    ensures TableOf(objects) == TableOf(objects[1..])[objects[0].path := Entry(objects[0].owner, objects[0].names)]
  {
    DistinctTail(objects);
  }

  lemma WithoutKey(table: Table, key: string, entry: Entry, path: string)
    ensures table[key := entry] - {path} == if key == path then table - {path} else (table - {path})[key := entry]
  {
  }

  lemma {:induction false} WithoutPathTable(objects: seq<Registered>, path: string)
    requires DistinctPaths(objects)
    ensures DistinctPaths(WithoutPath(objects, path))
    ensures TableOf(WithoutPath(objects, path)) == TableOf(objects) - {path}
  {
    if objects == [] {
      assert TableOf([]) - {path} == map[];
    } else {
      var o, rest := objects[0], WithoutPath(objects[1..], path);
      assert WithoutPath(objects, path) == if o.path != path then [o] + rest else rest;
      hide DistinctPaths, TableOf, WithoutPath;
      TableOfCons(objects);
      WithoutPathTable(objects[1..], path);
      WithoutKey(TableOf(objects[1..]), o.path, Entry(o.owner, o.names), path);
      if o.path != path {
        DistinctCons(o, rest);
      }
    }
  }

  lemma {:induction false} WithoutOwnerTable(objects: seq<Registered>, owner: nat)
    requires DistinctPaths(objects)
    ensures DistinctPaths(WithoutOwner(objects, owner))
    ensures TableOf(WithoutOwner(objects, owner)) == NotOwnedBy(TableOf(objects), owner)
  {
    if objects != [] {
      var o, rest := objects[0], WithoutOwner(objects[1..], owner);
      assert WithoutOwner(objects, owner) == if o.owner != owner then [o] + rest else rest;
      hide DistinctPaths, TableOf, WithoutOwner;
      TableOfCons(objects);
      WithoutOwnerTable(objects[1..], owner);
      if o.owner != owner {
        DistinctCons(o, rest);
      }
    }
  }

  lemma {:induction false} TableSnoc(objects: seq<Registered>, o: Registered)
    requires DistinctPaths(objects) && o.path != "" && o.path !in TableOf(objects)
    ensures DistinctPaths(objects + [o])
    ensures TableOf(objects + [o]) == TableOf(objects)[o.path := Entry(o.owner, o.names)]
  {
    if objects == [] {
      assert [] + [o] == [o];
      assert [o][1..] == [];
    } else {
      DistinctTail(objects);
      assert objects[0].path != "";
      assert objects + [o] == [objects[0]] + (objects[1..] + [o]);
      hide DistinctPaths;
      TableSnoc(objects[1..], o);
      DistinctCons(objects[0], objects[1..] + [o]);
    }
  }

  function DirectoryOf(s: State): Directory { Directory(s.conns.Keys, s.nextConn, s.listeners, TableOf(s.objects)) }

  lemma AddTable(objects: seq<Registered>, o: Registered)
    requires DistinctPaths(objects) && o.path != ""
    ensures var added := WithoutPath(objects, o.path) + [o];
            DistinctPaths(added) && TableOf(added) == TableOf(objects)[o.path := Entry(o.owner, o.names)]
  {
    hide DistinctPaths, TableOf, WithoutPath;
    WithoutPathTable(objects, o.path);
    TableSnoc(WithoutPath(objects, o.path), o);
  }

  lemma StepRefinesDirectory(s: State, e: Event)
    requires DistinctPaths(s.objects)
    ensures DistinctPaths(Step(s, e).objects) && DirectoryOf(Step(s, e)) == DirectoryStep(DirectoryOf(s), e)
  {
    hide GetPair, Strings, Field, Args, ReplyId, Data, Methods, Builtin, ListFrame, Provider;
    hide WithoutPath, WithoutOwner, TableOf, DistinctPaths;
    match e {
      case Opened =>
      case Request(id, req, now) =>
        if Field(req, "path") != "" {
          AddTable(s.objects, Registered(Field(req, "path"), Methods(req), id));
        }
      case BadLine(id, reason) =>
      case Closed(id) =>
        WithoutOwnerTable(s.objects, id);
    }
  }

  /** Over every run the list of objects is a map from paths: the last `add` wins, a closed owner's entries go. */
  lemma {:induction false} RunRefinesDirectory(s: State, events: seq<Event>)
    requires DistinctPaths(s.objects)
    ensures var t := RunFrom(s, events); DistinctPaths(t.objects) && DirectoryOf(t) == DirectoryRun(DirectoryOf(s), events)
    decreases |events|
  {
    hide Step, DirectoryStep, DirectoryOf, DistinctPaths;
    if events != [] {
      StepRefinesDirectory(s, events[0]);
      RunRefinesDirectory(Step(s, events[0]), events[1..]);
    }
  }
}
