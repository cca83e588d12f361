/**
 The message bus broker (src/ubus.rs). Every request takes the lock once, so the broker is a state machine
 whose steps are: a connection opens, sends one request, sends a line that is no JSON, or closes.
 */
module Ubus {
  import opened Json
  import opened Wrappers

  // ---- requests and replies as JSON values ----

  function GetPair(pairs: seq<Pair>, key: string): Option<Value> {
    if pairs == [] then None
    else if pairs[0].key == key then Some(pairs[0].value)
    else GetPair(pairs[1..], key)
  }

  function Get(v: Value, key: string): Option<Value> { if v.Object? then GetPair(v.pairs, key) else None }

  function Field(v: Value, key: string): string {
    match Get(v, key)
    case Some(Str(s)) => s
    case _ => ""
  }

  function Data(v: Value): Value { if Get(v, "data").Some? then Get(v, "data").value else Null }

  function Args(v: Value): Value { if Get(v, "args").Some? then Get(v, "args").value else Object([]) }

  const MAX_U64: nat := 0xFFFF_FFFF_FFFF_FFFF
  const TWO64: nat := 0x1_0000_0000_0000_0000
  const TWO53: nat := 0x20_0000_0000_0000

  // How far apart 64-bit floats lie around n: they hold 53 bits.
  function Spacing(n: nat): (r: nat)
    ensures r >= 1
  {
    if n < TWO53 then 1 else 2 * Spacing(n / 2)
  }

  // The cast to a float: the nearest one, an even multiple of the spacing on a tie.
  function AsF64(n: nat): nat {
    var unit := Spacing(n);
    var below, beyond := n / unit, n % unit;
    if 2 * beyond < unit || (2 * beyond == unit && below % 2 == 0) then below * unit else (below + 1) * unit
  }

  // as_u64: the cast saturates.
  function AsU64(v: Value): Option<nat> {
    if v.Num? && v.x >= 0.0 && v.x == v.x.Floor as real
    then Some(if v.x.Floor <= MAX_U64 then v.x.Floor else MAX_U64)
    else None
  }

  function ReplyId(v: Value): nat {
    match Get(v, "id")
    case Some(n) => if AsU64(n).Some? then AsU64(n).value else 0
    case None => 0
  }

  function Strings(items: seq<Value>): seq<string> {
    if items == [] then []
    else if items[0].Str? then [items[0].s] + Strings(items[1..])
    else Strings(items[1..])
  }

  function Methods(v: Value): seq<string> {
    match Get(v, "methods")
    case Some(Array(items)) => Strings(items)
    case _ => []
  }

  function StatusFrame(code: int): Value { Object([Pair("status", Num(code as real))]) }
  function OkFrame(data: Value): Value { Object([Pair("status", Num(0.0)), Pair("data", data)]) }
  function ErrFrame(code: int, text: string): Value {
    Object([Pair("status", Num(code as real)), Pair("error", Str(text))])
  }
  function InvokeFrame(id: nat, name: string, args: Value): Value {
    Object([Pair("invoke", Num(AsF64(id) as real)), Pair("method", Str(name)), Pair("args", args)])
  }
  function EventFrame(event: string, data: Value): Value { Object([Pair("event", Str(event)), Pair("data", data)]) }

  function StrValues(names: seq<string>): seq<Value> {
    if names == [] then [] else [Str(names[0])] + StrValues(names[1..])
  }

  function Listed(path: string, names: seq<string>): Value {
    Object([Pair("path", Str(path)), Pair("methods", Array(StrValues(names)))])
  }

  // ---- the registered objects ----

  datatype Registered = Registered(path: string, names: seq<string>, owner: nat)

  function WithoutPath(objects: seq<Registered>, path: string): seq<Registered> {
    if objects == [] then []
    else (if objects[0].path != path then [objects[0]] else []) + WithoutPath(objects[1..], path)
  }

  function WithoutOwner(objects: seq<Registered>, owner: nat): seq<Registered> {
    if objects == [] then []
    else (if objects[0].owner != owner then [objects[0]] else []) + WithoutOwner(objects[1..], owner)
  }

  // The owner of the first object with this path and method.
  function Provider(objects: seq<Registered>, path: string, name: string): Option<nat> {
    if objects == [] then None
    else if objects[0].path == path && name in objects[0].names then Some(objects[0].owner)
    else Provider(objects[1..], path, name)
  }

  function ListAll(objects: seq<Registered>): seq<Value> {
    if objects == [] then [] else [Listed(objects[0].path, objects[0].names)] + ListAll(objects[1..])
  }

  function ListFrame(objects: seq<Registered>): Value {
    Object([Pair("status", Num(0.0)), Pair("objects", Array([Listed("system", ["board", "info"])] + ListAll(objects)))])
  }

  // What the system object reports when it is called: readings of the host.
  datatype Readings = Readings(board: Value, info: Value)

  function Builtin(path: string, name: string, now: Readings): Option<Value> {
    if path != "system" then None
    else if name == "board" then Some(now.board)
    else if name == "info" then Some(now.info)
    else None
  }

  // ---- the state and its steps ----

  // Every frame written to each open connection.
  type Outboxes = map<nat, seq<Value>>

  function Sent(conns: Outboxes, id: nat, v: Value): Outboxes {
    if id in conns then conns[id := conns[id] + [v]] else conns
  }

  function SentToAll(conns: Outboxes, targets: set<nat>, v: Value): Outboxes {
    map id | id in conns :: if id in targets then conns[id] + [v] else conns[id]
  }

  // What happened to the routed calls, for the statements about whole runs.
  datatype Deed =
    | Issued(id: nat, caller: nat, owner: nat)
    | Answered(id: nat, caller: nat, delivered: bool)

  datatype State = State(
    objects: seq<Registered>,
    conns: Outboxes,
    listeners: set<nat>,
    pending: map<nat, nat>,
    nextConn: nat,
    nextReq: nat,
    log: seq<Deed>)

  const Start := State([], map[], {}, map[], 0, 0, [])

  datatype Event =
    | Opened
    | Request(conn: nat, req: Value, now: Readings)
    | BadLine(conn: nat, reason: string)
    | Closed(conn: nat)

  function Send(s: State, id: nat, v: Value): State { s.(conns := Sent(s.conns, id, v)) }

  function Open(s: State): State { s.(nextConn := s.nextConn + 1, conns := s.conns[s.nextConn + 1 := []]) }

  function Close(s: State, id: nat): State {
    s.(conns := s.conns - {id}, listeners := s.listeners - {id}, objects := WithoutOwner(s.objects, id))
  }

  function Call(s: State, id: nat, path: string, name: string, args: Value, now: Readings): State {
    match Builtin(path, name, now)
    case Some(data) => Send(s, id, OkFrame(data))
    case None =>
      match Provider(s.objects, path, name)
      case Some(owner) =>
        var reqid := (s.nextReq + 1) % TWO64;
        Send(s.(nextReq := reqid, pending := s.pending[reqid := id], log := s.log + [Issued(reqid, id, owner)]),
             owner, InvokeFrame(reqid, name, args))
      case None => Send(s, id, ErrFrame(-2, "object/method not found"))
  }

  function Reply(s: State, reqid: nat, data: Value): State {
    if reqid in s.pending then
      var caller := s.pending[reqid];
      Send(s.(pending := s.pending - {reqid}, log := s.log + [Answered(reqid, caller, caller in s.conns)]),
           caller, OkFrame(data))
    else s
  }

  function Register(s: State, id: nat, path: string, names: seq<string>): State {
    if path == "" then Send(s, id, ErrFrame(-1, "add: empty path"))
    else Send(s.(objects := WithoutPath(s.objects, path) + [Registered(path, names, id)]), id, StatusFrame(0))
  }

  function Broadcast(s: State, id: nat, v: Value): State {
    Send(s.(conns := SentToAll(s.conns, s.listeners, v)), id, StatusFrame(0))
  }

  function Listen(s: State, id: nat): State { Send(s.(listeners := s.listeners + {id}), id, StatusFrame(0)) }

  function Handle(s: State, id: nat, req: Value, now: Readings): State {
    var op := Field(req, "op");
    if op == "list" then Send(s, id, ListFrame(s.objects))
    else if op == "call" then Call(s, id, Field(req, "path"), Field(req, "method"), Args(req), now)
    else if op == "reply" then Reply(s, ReplyId(req), Data(req))
    else if op == "add" then Register(s, id, Field(req, "path"), Methods(req))
    else if op == "send" then Broadcast(s, id, EventFrame(Field(req, "event"), Data(req)))
    else if op == "listen" then Listen(s, id)
    else Send(s, id, ErrFrame(-1, "unknown op"))
  }

  // The thread of a closed connection takes no more steps.
  function Step(s: State, e: Event): State {
    match e
    case Opened => Open(s)
    case Request(id, req, now) => if id in s.conns then Handle(s, id, req, now) else s
    case BadLine(id, reason) => if id in s.conns then Send(s, id, ErrFrame(-1, "bad json: " + reason)) else s
    case Closed(id) => if id in s.conns then Close(s, id) else s
  }

  // ---- the broker object ----

  lemma {:induction false} WithoutPathConcat(a: seq<Registered>, b: seq<Registered>, path: string)
    ensures WithoutPath(a + b, path) == WithoutPath(a, path) + WithoutPath(b, path)
  {
    if a == [] {
      assert a + b == b;
    } else {
      assert (a + b)[1..] == a[1..] + b;
      WithoutPathConcat(a[1..], b, path);
    }
  }

  lemma {:induction false} WithoutOwnerConcat(a: seq<Registered>, b: seq<Registered>, owner: nat)
    ensures WithoutOwner(a + b, owner) == WithoutOwner(a, owner) + WithoutOwner(b, owner)
  {
    if a == [] {
      assert a + b == b;
    } else {
      assert (a + b)[1..] == a[1..] + b;
      WithoutOwnerConcat(a[1..], b, owner);
    }
  }

  lemma {:induction false} ListAllConcat(a: seq<Registered>, b: seq<Registered>)
    ensures ListAll(a + b) == ListAll(a) + ListAll(b)
  {
    hide Listed;
    if a == [] {
      assert a + b == b;
    } else {
      assert (a + b)[1..] == a[1..] + b;
      ListAllConcat(a[1..], b);
    }
  }

  lemma OneObject(o: Registered, path: string, owner: nat)
    ensures WithoutPath([o], path) == if o.path != path then [o] else []
    ensures WithoutOwner([o], owner) == if o.owner != owner then [o] else []
    ensures ListAll([o]) == [Listed(o.path, o.names)]
  {
    hide Listed;
    assert [o][1..] == [];
  }

  // Writing to one more target of a broadcast.
  lemma SentToOneMore(conns: Outboxes, done: set<nat>, t: nat, v: Value)
    requires t !in done
    ensures Sent(SentToAll(conns, done, v), t, v) == SentToAll(conns, done + {t}, v)
  {
  }

  class Bus {
    var objects: seq<Registered>
    var conns: Outboxes
    var listeners: set<nat>
    var pending: map<nat, nat>
    var nextConn: nat
    var nextReq: nat
    ghost var log: seq<Deed>

    ghost function Now(): State
      reads this
    {
      State(objects, conns, listeners, pending, nextConn, nextReq, log)
    }

    constructor ()
      ensures Now() == Start
    {
      objects, conns, listeners, pending := [], map[], {}, map[];
      nextConn, nextReq, log := 0, 0, [];
    }

    method SendTo(id: nat, v: Value)
      modifies `conns
      ensures Now() == Send(old(Now()), id, v)
    {
      if id in conns {
        conns := conns[id := conns[id] + [v]];
      }
    }

    method RetainNotPath(path: string)
      modifies `objects
      ensures Now() == old(Now()).(objects := WithoutPath(old(objects), path))
    {
      var kept: seq<Registered> := [];
      for i := 0 to |objects|
        invariant objects == old(objects) && kept == WithoutPath(objects[..i], path)
      {
        assert objects[..i + 1] == objects[..i] + [objects[i]];
        WithoutPathConcat(objects[..i], [objects[i]], path);
        OneObject(objects[i], path, 0);
        if objects[i].path != path {
          kept := kept + [objects[i]];
        }
      }
      assert objects[..|objects|] == objects;
      objects := kept;
    }

    method RetainNotOwner(owner: nat)
      modifies `objects
      ensures Now() == old(Now()).(objects := WithoutOwner(old(objects), owner))
    {
      var kept: seq<Registered> := [];
      for i := 0 to |objects|
        invariant objects == old(objects) && kept == WithoutOwner(objects[..i], owner)
      {
        assert objects[..i + 1] == objects[..i] + [objects[i]];
        WithoutOwnerConcat(objects[..i], [objects[i]], owner);
        OneObject(objects[i], "", owner);
        if objects[i].owner != owner {
          kept := kept + [objects[i]];
        }
      }
      assert objects[..|objects|] == objects;
      objects := kept;
    }

    method FindProvider(path: string, name: string) returns (owner: Option<nat>)
      ensures owner == Provider(objects, path, name)
    {
      assert objects[0..] == objects;
      for i := 0 to |objects|
        invariant Provider(objects[i..], path, name) == Provider(objects, path, name)
      {
        assert objects[i..][1..] == objects[i + 1..];
        if objects[i].path == path && name in objects[i].names {
          return Some(objects[i].owner);
        }
      }
      assert objects[|objects|..] == [];
      return None;
    }

    method ListObjects() returns (v: Value)
      ensures v == ListFrame(objects)
    {
      var items := [Listed("system", ["board", "info"])];
      assert ListAll([]) == [];
      for i := 0 to |objects|
        invariant items == [Listed("system", ["board", "info"])] + ListAll(objects[..i])
      {
        assert objects[..i + 1] == objects[..i] + [objects[i]];
        ListAllConcat(objects[..i], [objects[i]]);
        OneObject(objects[i], "", 0);
        items := items + [Listed(objects[i].path, objects[i].names)];
      }
      assert objects[..|objects|] == objects;
      v := Object([Pair("status", Num(0.0)), Pair("objects", Array(items))]);
    }

    // A connection opens; the thread that serves it goes by the new number.
    method OpenConn() returns (id: nat)
      modifies this
      ensures Now() == Step(old(Now()), Event.Opened) && id == nextConn
    {
      nextConn := nextConn + 1;
      id := nextConn;
      conns := conns[id := []];
    }

    // The connection closed: drop everything it owned.
    method CloseConn(id: nat)
      requires id in conns
      modifies this
      ensures Now() == Step(old(Now()), Closed(id))
    {
      conns := conns - {id};
      listeners := listeners - {id};
      RetainNotOwner(id);
    }

    method RejectLine(id: nat, reason: string)
      requires id in conns
      modifies this
      ensures Now() == Step(old(Now()), BadLine(id, reason))
    {
      SendTo(id, ErrFrame(-1, "bad json: " + reason));
    }

    method HandleCall(id: nat, req: Value, now: Readings)
      modifies this
      ensures Now() == Call(old(Now()), id, Field(req, "path"), Field(req, "method"), Args(req), now)
    {
      var path, name, args := Field(req, "path"), Field(req, "method"), Args(req);
      match Builtin(path, name, now) {
        case Some(data) =>
          SendTo(id, OkFrame(data));
        case None =>
          var owner := FindProvider(path, name);
          match owner {
            case Some(provider) =>
              nextReq := (nextReq + 1) % TWO64;
              var reqid := nextReq;
              pending := pending[reqid := id];
              log := log + [Issued(reqid, id, provider)];
              SendTo(provider, InvokeFrame(reqid, name, args));
            case None =>
              SendTo(id, ErrFrame(-2, "object/method not found"));
          }
      }
    }

    method HandleReply(req: Value)
      modifies this
      ensures Now() == Reply(old(Now()), ReplyId(req), Data(req))
    {
      var reqid, data := ReplyId(req), Data(req);
      if reqid in pending {
        var caller := pending[reqid];
        pending := pending - {reqid};
        log := log + [Answered(reqid, caller, caller in conns)];
        SendTo(caller, OkFrame(data));
      }
    }

    method HandleAdd(id: nat, req: Value)
      modifies this
      ensures Now() == Register(old(Now()), id, Field(req, "path"), Methods(req))
    {
      var path, names := Field(req, "path"), Methods(req);
      if path == "" {
        SendTo(id, ErrFrame(-1, "add: empty path"));
      } else {
        RetainNotPath(path);
        objects := objects + [Registered(path, names, id)];
        SendTo(id, StatusFrame(0));
      }
    }

    // The targets of a broadcast come in no particular order.
    method HandleSend(id: nat, req: Value)
      modifies this
      ensures Now() == Broadcast(old(Now()), id, EventFrame(Field(req, "event"), Data(req)))
    {
      var msg := EventFrame(Field(req, "event"), Data(req));
      ghost var before := conns;
      var targets := listeners;
      while targets != {}
        invariant targets <= listeners
        invariant conns == SentToAll(before, listeners - targets, msg)
        invariant Now() == old(Now()).(conns := conns)
        decreases |targets|
      {
        var t :| t in targets;
        SentToOneMore(before, listeners - targets, t, msg);
        assert listeners - (targets - {t}) == (listeners - targets) + {t};
        SendTo(t, msg);
        targets := targets - {t};
      }
      assert listeners - targets == listeners;
      SendTo(id, StatusFrame(0));
    }

    /** One request, under the lock. */
    method HandleRequest(id: nat, req: Value, now: Readings)
      requires id in conns
      modifies this
      ensures Now() == Step(old(Now()), Request(id, req, now))
    {
      var op := Field(req, "op");
      if op == "list" {
        var v := ListObjects();
        SendTo(id, v);
      } else if op == "call" {
        HandleCall(id, req, now);
      } else if op == "reply" {
        HandleReply(req);
      } else if op == "add" {
        HandleAdd(id, req);
      } else if op == "send" {
        HandleSend(id, req);
      } else if op == "listen" {
        listeners := listeners + {id};
        SendTo(id, StatusFrame(0));
      } else {
        SendTo(id, ErrFrame(-1, "unknown op"));
      }
    }
  }
}
