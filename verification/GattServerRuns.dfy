/** What holds over every run of the GATT server: agreement of its two indexes,
    conservation of requests, and the fate of every notification's callback. */
module GattServerRuns {
  import opened Octets
  import opened RawAddress
  import opened Sequences
  import opened GattServerSpec

  // ----- The two indexes -----

  ghost predicate Filed(c: Conn) {
    c.key == Print(c.addr, true)
  }

  ghost predicate IsPrinted(key: string) {
    exists a: Address :: key == Print(a, true)
  }

  ghost predicate KeysPrinted(s: Server) {
    && (forall o: nat :: o < |s.objects| ==> Filed(s.objects[o]))
    && (forall key :: key in s.byAddr ==> IsPrinted(key))
  }

  /** Every object in an address list is also what the id index holds for its id. */
  ghost predicate Agree(s: Server) {
    forall o: nat {:trigger Listed(s, o)} :: Listed(s, o) ==>
      s.objects[o].connId in s.byId && s.byId[s.objects[o].connId] == o
  }

  /** Only connection callbacks move objects between the indexes; nothing renames one. */
  lemma StepFrame(s: Server, step: Step)
    requires WF(s) && !step.Connection?
    ensures var r := Next(s, step).server;
            && r.byId == s.byId && r.byAddr == s.byAddr && |r.objects| == |s.objects|
            && forall o :: 0 <= o < |s.objects| ==>
                 r.objects[o].(requests := map[]) == s.objects[o].(requests := map[])
  {
    if step.Respond? && step.device in s.byAddr {
      assert GoodList(s, step.device, s.byAddr[step.device]);
    }
  }

  lemma NextKeys(s: Server, step: Step)
    requires WF(s) && KeysPrinted(s)
    ensures KeysPrinted(Next(s, step).server)
  {
    if !step.Connection? {
      StepFrame(s, step);
      var r := Next(s, step).server;
      forall o: nat | o < |r.objects| ensures Filed(r.objects[o]) {
        assert r.objects[o].(requests := map[]) == s.objects[o].(requests := map[]);
        assert Filed(s.objects[o]);
      }
    } else {
      DisconnectKeys(s, step.connId, Print(step.addr, true));
      ConnectKeys(s, step.connId, step.addr, Print(step.addr, true));
    }
  }

  lemma DisconnectKeys(s: Server, connId: int, key: string)
    requires KeysPrinted(s)
    ensures KeysPrinted(Disconnect(s, connId, key).server)
  {
    var r := Disconnect(s, connId, key).server;
    assert r.objects == s.objects;
    forall k | k in r.byAddr ensures IsPrinted(k) {
      assert k in s.byAddr;
    }
  }

  lemma ConnectKeys(s: Server, connId: int, addr: Address, key: string)
    requires KeysPrinted(s) && key == Print(addr, true)
    ensures KeysPrinted(Connect(s, connId, addr, key).server)
  {
    var r := Connect(s, connId, addr, key).server;
    forall o: nat | o < |r.objects| ensures Filed(r.objects[o]) {
      if o < |s.objects| {
        assert r.objects[o] == s.objects[o];
      } else {
        assert r.objects[o] == Conn(connId, addr, key, map[]);
      }
    }
    forall k | k in r.byAddr ensures IsPrinted(k) {
      assert k == key || k in s.byAddr;
    }
  }

  lemma {:induction false} RunKeys(serverId: int, steps: seq<Step>)
    ensures KeysPrinted(Run(serverId, steps).server)
  {
    if steps != [] {
      var before := steps[..|steps| - 1];
      RunKeys(serverId, before);
      RunWF(serverId, before);
      NextKeys(Run(serverId, before).server, steps[|steps| - 1]);
    }
  }

  /** A disconnect of a known connection that carries another address than its own. */
  ghost predicate ForeignDisconnect(s: Server, step: Step) {
    && step.Connection? && step.serverId == s.serverId && !step.connected
    && step.connId in s.byId && At(s.objects, s.byId[step.connId]).addr != step.addr
  }

  lemma DisconnectAgree(s: Server, connId: int, addr: Address, key: string)
    requires WF(s) && KeysPrinted(s) && Agree(s) && key == Print(addr, true)
    ensures Agree(Disconnect(s, connId, key).server)
            <==> !(connId in s.byId && s.objects[s.byId[connId]].addr != addr)
  {
    var r := Disconnect(s, connId, key).server;
    if connId in s.byId {
      var o := s.byId[connId];
      assert Listed(s, o);
      assert Filed(s.objects[o]);
      if s.objects[o].addr != addr {
        if s.objects[o].key == key {
          PrintInjective(s.objects[o].addr, addr, true);
        }
        assert r.byAddr[s.objects[o].key] == s.byAddr[s.objects[o].key];
        assert Listed(r, o);
      } else {
        OwnDisconnect(s, connId, key);
      }
    } else {
      UnknownDisconnect(s, connId, key);
    }
  }

  lemma OwnDisconnect(s: Server, connId: int, key: string)
    requires WF(s) && Agree(s) && connId in s.byId && s.objects[s.byId[connId]].key == key
    ensures Agree(Disconnect(s, connId, key).server)
  {
    var o := s.byId[connId];
    var r := Disconnect(s, connId, key).server;
    var list := s.byAddr[key];
    assert Listed(s, o) && GoodList(s, key, list);
    var i := FindConn(s.objects, list, connId);
    assert i < |list| by {
      var j :| 0 <= j < |list| && list[j] == o;
      assert s.objects[list[j]].connId == connId;
    }
    assert Listed(s, list[i]);
    forall p: nat | Listed(r, p) ensures s.objects[p].connId in r.byId && r.byId[s.objects[p].connId] == p {
      assert Listed(s.(byAddr := r.byAddr), p);
      ErasedList(s, key, i, p);
    }
  }

  lemma UnknownDisconnect(s: Server, connId: int, key: string)
    requires WF(s) && Agree(s) && connId !in s.byId
    ensures Disconnect(s, connId, key).server == s
  {
    assert s.byId - {connId} == s.byId;
    if key in s.byAddr {
      var list := s.byAddr[key];
      assert GoodList(s, key, list);
      var i := FindConn(s.objects, list, connId);
      if i < |list| {
        assert Listed(s, list[i]);
      }
    }
  }

  lemma ConnectAgree(s: Server, connId: int, addr: Address, key: string)
    requires WF(s) && Agree(s) && connId !in s.byId
    ensures Agree(Connect(s, connId, addr, key).server)
  {
    var r := Connect(s, connId, addr, key).server;
    forall p: nat | Listed(r, p) ensures r.objects[p].connId in r.byId && r.byId[r.objects[p].connId] == p {
      if p < |s.objects| {
        assert Listed(s, p);
      }
    }
  }

  lemma SameObjectsAgree(s: Server, r: Server)
    requires WF(s) && Agree(s) && r.byId == s.byId && r.byAddr == s.byAddr && |r.objects| == |s.objects|
    requires forall o :: 0 <= o < |s.objects| ==>
      r.objects[o].(requests := map[]) == s.objects[o].(requests := map[])
    ensures Agree(r)
  {
    forall p: nat | Listed(r, p) ensures r.objects[p].connId in r.byId && r.byId[r.objects[p].connId] == p {
      assert r.objects[p].(requests := map[]) == s.objects[p].(requests := map[]);
      assert Listed(s, p);
    }
  }

  /** From agreeing indexes, a step leaves them agreeing if and only if it is not a
      disconnect that names a known connection with a foreign address. */
  lemma AgreeExactly(s: Server, step: Step)
    requires WF(s) && KeysPrinted(s) && Agree(s)
    ensures Agree(Next(s, step).server) <==> !ForeignDisconnect(s, step)
  {
    if step.Connection? && step.serverId == s.serverId {
      if !step.connected {
        DisconnectAgree(s, step.connId, step.addr, Print(step.addr, true));
      } else if step.connId !in s.byId {
        ConnectAgree(s, step.connId, step.addr, Print(step.addr, true));
      }
    } else if !step.Connection? {
      StepFrame(s, step);
      SameObjectsAgree(s, Next(s, step).server);
    }
  }

  /** No step of the run is a foreign disconnect. */
  ghost predicate Faithful(serverId: int, steps: seq<Step>) {
    steps == []
    || (var before := steps[..|steps| - 1];
        Faithful(serverId, before) && !ForeignDisconnect(Run(serverId, before).server, steps[|steps| - 1]))
  }

  /** Over every run whose disconnects carry the registered address, the id index and the
      address index hold the same connection objects: object o is what the id index holds
      for its id exactly when it is in the list of its own printed address. */
  lemma IndexesAgree(serverId: int, steps: seq<Step>, o: nat)
    requires Faithful(serverId, steps)
    ensures var s := Run(serverId, steps).server;
            Listed(s, o) <==>
            o < |s.objects| && s.objects[o].connId in s.byId && s.byId[s.objects[o].connId] == o
    ensures Agree(Run(serverId, steps).server)
  {
    RunAgrees(serverId, steps);
    RunWF(serverId, steps);
  }

  lemma {:induction false} RunAgrees(serverId: int, steps: seq<Step>)
    requires Faithful(serverId, steps)
    ensures Agree(Run(serverId, steps).server)
  {
    if steps != [] {
      var n := |steps| - 1;
      RunAgrees(serverId, steps[..n]);
      RunKeys(serverId, steps[..n]);
      RunWF(serverId, steps[..n]);
      AgreeExactly(Run(serverId, steps[..n]).server, steps[n]);
    }
  }

  /** A device named by the lower-case form of its address is found exactly when that
      form has no letters: lookups compare strings, and the index is keyed in upper case. */
  lemma LowerCaseLookup(serverId: int, steps: seq<Step>, a: Address)
    ensures var keys := Run(serverId, steps).server.byAddr.Keys;
            Print(a, false) in keys <==> AllDecimal(a) && Print(a, true) in keys
  {
    RunKeys(serverId, steps);
    var s := Run(serverId, steps).server;
    FormsAgree(a);
    if Print(a, false) in s.byAddr {
      assert IsPrinted(Print(a, false));
      var b: Address :| Print(a, false) == Print(b, true);
      ParsePrint(a, false);
      ParsePrint(b, true);
      assert a == b;
    }
  }

  // ----- Conservation of requests -----

  /** Request r, recorded with handle h, waits for an answer on connection object o. */
  ghost predicate Waiting(s: Server, o: nat, r: int, h: int) {
    Listed(s, o) && r in s.objects[o].requests && s.objects[o].requests[r] == h
  }

  datatype Ledger = Ledger(accepted: nat, answered: nat, released: nat)

  ghost function Entry(l: Ledger, e: Event, o: nat, r: int, h: int): Ledger {
    match e
    case Accepted(c, id, handle) => if (c, id, handle) == (o, r, h) then l.(accepted := l.accepted + 1) else l
    case Answered(c, id, handle, _, _, _) => if (c, id, handle) == (o, r, h) then l.(answered := l.answered + 1) else l
    case Released(c, requests) =>
      if c == o && r in requests && requests[r] == h then l.(released := l.released + 1) else l
    case _ => l
  }

  ghost function LedgerOf(log: seq<Event>, o: nat, r: int, h: int): Ledger {
    if log == [] then Ledger(0, 0, 0)
    else Entry(LedgerOf(log[..|log| - 1], o, r, h), log[|log| - 1], o, r, h)
  }

  lemma LedgerOne(log: seq<Event>, e: Event, o: nat, r: int, h: int)
    ensures LedgerOf(log + [e], o, r, h) == Entry(LedgerOf(log, o, r, h), e, o, r, h)
  {
    assert (log + [e])[..|log|] == log;
  }

  lemma {:induction false} LedgerIgnores(log: seq<Event>, events: seq<Event>, o: nat, r: int, h: int)
    requires forall i :: 0 <= i < |events| ==> !events[i].Accepted? && !events[i].Answered? && !events[i].Released?
    ensures LedgerOf(log + events, o, r, h) == LedgerOf(log, o, r, h)
  {
    if events == [] {
      assert log + events == log;
    } else {
      var n := |events| - 1;
      LedgerIgnores(log, events[..n], o, r, h);
      LedgerOne(log + events[..n], events[n], o, r, h);
      assert log + events == log + events[..n] + [events[n]];
    }
  }

  ghost predicate Balanced(s: Server, log: seq<Event>, o: nat, r: int, h: int) {
    var l := LedgerOf(log, o, r, h);
    l.accepted == l.answered + l.released + if Waiting(s, o, r, h) then 1 else 0
  }

  lemma {:induction false} SendLoopOnlySends(objects: seq<Conn>, list: seq<nat>, pending: map<int, nat>,
                                             group: nat, accepted: set<nat>)
    ensures forall i :: 0 <= i < |SendLoop(objects, list, pending, group, accepted).1| ==>
              SendLoop(objects, list, pending, group, accepted).1[i].Sent?
              && SendLoop(objects, list, pending, group, accepted).1[i].group == group
  {
    if list != [] {
      SendLoopOnlySends(objects, list[..|list| - 1], pending, group, accepted);
    }
  }

  lemma DisconnectBalanced(s: Server, log: seq<Event>, connId: int, key: string, o: nat, r: int,
                                              h: int)
    requires WF(s) && Balanced(s, log, o, r, h)
    ensures var out := Disconnect(s, connId, key); Balanced(out.server, log + out.events, o, r, h)
  {
    assert log + [] == log;
    var s1 := s.(byId := s.byId - {connId});
    assert Waiting(s1, o, r, h) == Waiting(s, o, r, h);
    if key in s.byAddr {
      var list := s.byAddr[key];
      assert GoodList(s, key, list) && GoodList(s1, key, list);
      var i := FindConn(s.objects, list, connId);
      if i < |list| {
        ReleasedBalanced(s1, log, key, i, o, r, h);
      }
    }
  }

  /** Unlisting an object releases what waits on it. */
  lemma ReleasedBalanced(s: Server, log: seq<Event>, key: string, i: nat, o: nat, r: int, h: int)
    requires key in s.byAddr && i < |s.byAddr[key]| && GoodList(s, key, s.byAddr[key]) && Balanced(s, log, o, r, h)
    ensures var p := s.byAddr[key][i];
            Balanced(s.(byAddr := s.byAddr[key := EraseAt(s.byAddr[key], i)]),
                     log + [Released(p, At(s.objects, p).requests)], o, r, h)
  {
    var p := s.byAddr[key][i];
    LedgerOne(log, Released(p, At(s.objects, p).requests), o, r, h);
    ErasedList(s, key, i, o);
  }

  lemma ConnectBalanced(s: Server, log: seq<Event>, connId: int, addr: Address, key: string,
                                           o: nat, r: int, h: int)
    requires WF(s) && Balanced(s, log, o, r, h)
    ensures Balanced(Connect(s, connId, addr, key).server, log, o, r, h)
  {
    var n := Connect(s, connId, addr, key).server;
    if o < |s.objects| {
      assert Listed(n, o) <==> Listed(s, o);
    }
  }

  /** Writing the request map of one object changes what waits on that object only. */
  lemma SetRequestsWaiting(s: Server, o: nat, requests: map<int, int>, p: nat, r: int, h: int)
    requires o < |s.objects| && Listed(s, o)
    ensures Waiting(SetRequests(s, o, requests), p, r, h)
            <==> if p == o then r in requests && requests[r] == h else Waiting(s, p, r, h)
  {
    var n := SetRequests(s, o, requests);
    if p < |s.objects| {
      assert Listed(n, p) <==> Listed(s, p);
    }
  }

  lemma TakenBalanced(s: Server, log: seq<Event>, connId: int, requestId: int, addr: Address,
                                         handle: int, o: nat, r: int, h: int)
    requires WF(s) && Balanced(s, log, o, r, h) && Admits(s, connId, requestId, addr)
    ensures var out := TakeRequest(s, connId, requestId, handle); Balanced(out.server, log + out.events, o, r, h)
  {
    var p := s.byId[connId];
    SetRequestsWaiting(s, p, s.objects[p].requests[requestId := handle], o, r, h);
    LedgerOne(log, Accepted(p, requestId, handle), o, r, h);
  }

  lemma AnsweredBalanced(s: Server, log: seq<Event>, device: string, requestId: int, error: int,
                                            offset: int, value: seq<Byte>, o: nat, r: int, h: int)
    requires WF(s) && Balanced(s, log, o, r, h) && device in s.byAddr
    requires FindRequest(s.objects, s.byAddr[device], requestId) < |s.byAddr[device]|
    ensures var out := Answer(s, device, requestId, error, offset, value, true);
            Balanced(out.server, log + out.events, o, r, h)
  {
    var list := s.byAddr[device];
    assert GoodList(s, device, list);
    var p := list[FindRequest(s.objects, list, requestId)];
    var c := s.objects[p];
    SetRequestsWaiting(s, p, c.requests - {requestId}, o, r, h);
    var response := ResponseOf(c.requests[requestId], offset, value);
    LedgerOne(log, Answered(p, requestId, c.requests[requestId], c.connId, error, response), o, r, h);
  }

  lemma NextBalanced(s: Server, log: seq<Event>, step: Step, o: nat, r: int, h: int)
    requires WF(s) && Balanced(s, log, o, r, h)
    ensures var out := Next(s, step); Balanced(out.server, log + out.events, o, r, h)
  {
    var out := Next(s, step);
    assert log + [] == log;
    match step
    case Connection(connId, serverId, connected, addr) =>
      DisconnectBalanced(s, log, connId, Print(addr, true), o, r, h);
      ConnectBalanced(s, log, connId, addr, Print(addr, true), o, r, h);
    case Request(connId, requestId, addr, handle, needsResponse) =>
      if out.events != [] {
        TakenBalanced(s, log, connId, requestId, addr, handle, o, r, h);
      }
    case Respond(device, requestId, error, offset, value, halAccepts) =>
      if out.events != [] {
        AnsweredBalanced(s, log, device, requestId, error, offset, value, o, r, h);
      }
    case Notify(device, hasCallback, accepted) =>
      if device in s.byAddr {
        assert GoodList(s, device, s.byAddr[device]);
        SendLoopOnlySends(s.objects, s.byAddr[device], s.pending, |s.groups|, accepted);
      }
      LedgerIgnores(log, out.events, o, r, h);
      assert Listed(out.server, o) <==> Listed(s, o);
    case Confirm(connId, status) =>
      LedgerIgnores(log, out.events, o, r, h);
      assert Listed(out.server, o) <==> Listed(s, o);
  }

  /** Request conservation: on every run, each accepted request was answered, or released
      with its link, or is still waiting; counted per connection object, id and handle. */
  lemma {:induction false} RequestsConserved(serverId: int, steps: seq<Step>, o: nat, r: int, h: int)
    ensures var t := Run(serverId, steps); Balanced(t.server, t.log, o, r, h)
  {
    if steps != [] {
      var t := Run(serverId, steps[..|steps| - 1]);
      RequestsConserved(serverId, steps[..|steps| - 1], o, r, h);
      RunWF(serverId, steps[..|steps| - 1]);
      NextBalanced(t.server, t.log, steps[|steps| - 1], o, r, h);
    }
  }

  /** A waiting request keeps its handle until it is answered or its link is released. */
  lemma NeverOverwritten(s: Server, step: Step, o: nat, r: int, h: int)
    requires WF(s) && Waiting(s, o, r, h)
    ensures var out := Next(s, step);
            Waiting(out.server, o, r, h)
            || (exists i :: 0 <= i < |out.events| && out.events[i].Answered?
                  && (out.events[i].conn, out.events[i].requestId, out.events[i].handle) == (o, r, h))
            || (exists i :: 0 <= i < |out.events| && out.events[i].Released? && out.events[i].conn == o)
  {
    var out := Next(s, step);
    NextBalanced(s, [Accepted(o, r, h)], step, o, r, h) by {
      assert LedgerOf([Accepted(o, r, h)], o, r, h) == Ledger(1, 0, 0) by { LedgerOne([], Accepted(o, r, h), o, r, h); }
    }
    if !Waiting(out.server, o, r, h) {
      LedgerGrows([Accepted(o, r, h)], out.events, o, r, h);
    }
  }

  lemma {:induction false} LedgerGrows(log: seq<Event>, events: seq<Event>, o: nat, r: int, h: int)
    requires LedgerOf(log, o, r, h).answered == LedgerOf(log, o, r, h).released == 0
    ensures LedgerOf(log + events, o, r, h).accepted >= LedgerOf(log, o, r, h).accepted
    ensures LedgerOf(log + events, o, r, h).answered + LedgerOf(log + events, o, r, h).released > 0 ==>
      || (exists i :: 0 <= i < |events| && events[i].Answered?
            && (events[i].conn, events[i].requestId, events[i].handle) == (o, r, h))
      || (exists i :: 0 <= i < |events| && events[i].Released? && events[i].conn == o)
  {
    if events == [] {
      assert log + events == log;
    } else {
      var n := |events| - 1;
      LedgerGrows(log, events[..n], o, r, h);
      LedgerOne(log + events[..n], events[n], o, r, h);
      assert log + events == log + events[..n] + [events[n]];
      assert forall i :: 0 <= i < n ==> events[..n][i] == events[i];
    }
  }

  /** Every answer goes to the connection that made the request, with the handle recorded
      when it was accepted; and only an accepted, still waiting request is answered. */
  lemma AnswersMatch(s: Server, step: Step, i: nat)
    requires WF(s) && i < |Next(s, step).events| && Next(s, step).events[i].Answered?
    ensures var e := Next(s, step).events[i];
            Waiting(s, e.conn, e.requestId, e.handle)
            && e.connId == s.objects[e.conn].connId
            && step.Respond? && e.requestId == step.requestId && e.error == step.error
            && s.objects[e.conn].key == step.device
            && e.response == ResponseOf(e.handle, step.offset, step.value)
            && !Waiting(Next(s, step).server, e.conn, e.requestId, e.handle)
  {
    match step
    case Connection(connId, serverId, connected, addr) =>
    case Request(connId, requestId, addr, handle, needsResponse) =>
    case Respond(device, requestId, error, offset, value, halAccepts) =>
      var list := s.byAddr[device];
      assert GoodList(s, device, list);
      var p := list[FindRequest(s.objects, list, requestId)];
      SetRequestsWaiting(s, p, s.objects[p].requests - {requestId}, p, requestId, s.objects[p].requests[requestId]);
    case Notify(device, hasCallback, accepted) =>
      assert GoodList(s, device, s.byAddr[device]);
      SendLoopOnlySends(s.objects, s.byAddr[device], s.pending, |s.groups|, accepted);
    case Confirm(connId, status) =>
  }

  // ----- The fate of a notification -----

  datatype Tally = Tally(sent: nat, confirmed: nat, firedOk: nat, firedError: nat, succeeded: bool)

  ghost function Mark(t: Tally, e: Event, g: nat): Tally {
    match e
    case Sent(group, _) => if group == g then t.(sent := t.sent + 1) else t
    case Confirmed(group, _, status) =>
      if group == g then t.(confirmed := t.confirmed + 1, succeeded := t.succeeded || status == STATUS_SUCCESS) else t
    case Fired(group, error) =>
      if group != g then t
      else if error == ERROR_NONE then t.(firedOk := t.firedOk + 1)
      else t.(firedError := t.firedError + 1)
    case _ => t
  }

  /** What the log says about group g: connections sent to, confirmations received, and
      calls of its callback with and without an error. */
  ghost function TallyOf(log: seq<Event>, g: nat): Tally {
    if log == [] then Tally(0, 0, 0, 0, false) else Mark(TallyOf(log[..|log| - 1], g), log[|log| - 1], g)
  }

  ghost function Outstanding(pending: map<int, nat>, g: nat): set<int> {
    set c | c in pending && pending[c] == g
  }

  /** The callback of group g has run, exactly once and with no error if and only if some
      confirmation succeeded, if the group was sent at all and nothing is outstanding;
      otherwise it has not run. */
  ghost predicate Settled(s: Server, log: seq<Event>, g: nat) {
    var t := TallyOf(log, g);
    if g >= |s.groups| then t == Tally(0, 0, 0, 0, false)
    else
      var done := s.groups[g].hasCallback && t.sent > 0 && t.sent == t.confirmed;
      && t.sent == t.confirmed + |Outstanding(s.pending, g)|
      && t.succeeded == s.groups[g].hasSuccess
      && t.firedOk == (if done && t.succeeded then 1 else 0)
      && t.firedError == (if done && !t.succeeded then 1 else 0)
  }

  lemma TallyOne(log: seq<Event>, e: Event, g: nat)
    ensures TallyOf(log + [e], g) == Mark(TallyOf(log, g), e, g)
  {
    assert (log + [e])[..|log|] == log;
  }

  lemma {:induction false} TallyIgnores(log: seq<Event>, events: seq<Event>, g: nat)
    requires forall i :: 0 <= i < |events| ==> !events[i].Sent? && !events[i].Confirmed? && !events[i].Fired?
    ensures TallyOf(log + events, g) == TallyOf(log, g)
  {
    if events == [] {
      assert log + events == log;
    } else {
      var n := |events| - 1;
      TallyIgnores(log, events[..n], g);
      TallyOne(log + events[..n], events[n], g);
      assert log + events == log + events[..n] + [events[n]];
    }
  }

  lemma OutstandingAdd(p: map<int, nat>, c: int, group: nat, g: nat)
    requires c !in p
    ensures Outstanding(p[c := group], g) == Outstanding(p, g) + if g == group then {c} else {}
    ensures |Outstanding(p[c := group], g)| == |Outstanding(p, g)| + if g == group then 1 else 0
  {
    assert Outstanding(p[c := group], g) == Outstanding(p, g) + if g == group then {c} else {};
  }

  lemma OutstandingRemove(p: map<int, nat>, c: int, g: nat)
    requires c in p
    ensures |Outstanding(p - {c}, g)| == |Outstanding(p, g)| - if g == p[c] then 1 else 0
    ensures Unreferenced(p - {c}, g) <==> |Outstanding(p - {c}, g)| == 0
  {
    var q := p - {c};
    assert Outstanding(q, g) == Outstanding(p, g) - {c};
    if g == p[c] {
      assert c in Outstanding(p, g);
    }
    NoneOutstanding(q, g);
  }

  lemma NoneOutstanding(q: map<int, nat>, g: nat)
    ensures Unreferenced(q, g) <==> |Outstanding(q, g)| == 0
  {
    if Unreferenced(q, g) {
      forall d ensures d !in Outstanding(q, g) {
        if d in q {
          assert q[d] != g;
        }
      }
      assert Outstanding(q, g) == {};
    } else {
      var d :| d in q && q[d] == g;
      assert d in Outstanding(q, g);
    }
  }

  /** Each new pending entry of a group is one connection more that it was sent on. */
  lemma {:induction false} SendLoopTally(log: seq<Event>, objects: seq<Conn>, list: seq<nat>,
                                         pending: map<int, nat>, group: nat, accepted: set<nat>, g: nat)
    ensures var (p, events) := SendLoop(objects, list, pending, group, accepted);
            var before, after := TallyOf(log, g), TallyOf(log + events, g);
            && after.(sent := 0) == before.(sent := 0)
            && after.sent + |Outstanding(pending, g)| == before.sent + |Outstanding(p, g)|
            && (g != group ==> after.sent == before.sent)
  {
    if list == [] {
      assert log + [] == log;
    } else {
      var n := |list| - 1;
      SendLoopTally(log, objects, list[..n], pending, group, accepted, g);
      var (p, events) := SendLoop(objects, list[..n], pending, group, accepted);
      var connId := At(objects, list[n]).connId;
      if connId !in p && n in accepted {
        OneMoreSent(log + events, p, connId, group, g);
        assert log + (events + [Sent(group, connId)]) == log + events + [Sent(group, connId)];
      }
    }
  }

  lemma OneMoreSent(log: seq<Event>, p: map<int, nat>, connId: int, group: nat, g: nat)
    requires connId !in p
    ensures var before, after := TallyOf(log, g), TallyOf(log + [Sent(group, connId)], g);
            && after.(sent := 0) == before.(sent := 0)
            && after.sent + |Outstanding(p, g)| == before.sent + |Outstanding(p[connId := group], g)|
            && (g != group ==> after.sent == before.sent)
  {
    TallyOne(log, Sent(group, connId), g);
    OutstandingAdd(p, connId, group, g);
  }

  lemma NotifySettled(s: Server, log: seq<Event>, device: string, hasCallback: bool,
                                         accepted: set<nat>, g: nat)
    requires WF(s) && Settled(s, log, g)
    ensures var out := SendNotification(s, device, hasCallback, accepted);
            Settled(out.server, log + out.events, g)
  {
    var out := SendNotification(s, device, hasCallback, accepted);
    assert log + [] == log;
    if !(Parse(device).None? || device !in s.byAddr) {
      var n := |s.groups|;
      assert GoodList(s, device, s.byAddr[device]);
      assert forall c :: c in s.pending ==> s.pending[c] < n;
      assert Outstanding(s.pending, n) == {};
      SendLoopTally(log, s.objects, s.byAddr[device], s.pending, n, accepted, g);
    }
  }

  lemma ConfirmSettled(s: Server, log: seq<Event>, connId: int, status: int, g: nat)
    requires WF(s) && Settled(s, log, g)
    ensures var out := IndicationSent(s, connId, status); Settled(out.server, log + out.events, g)
  {
    assert log + [] == log;
    if connId in s.pending {
      if g == s.pending[connId] {
        ConfirmOwn(s, log, connId, status);
      } else {
        ConfirmOther(s, log, connId, status, g);
      }
    }
  }

  lemma ConfirmOther(s: Server, log: seq<Event>, connId: int, status: int, g: nat)
    requires WF(s) && connId in s.pending && Settled(s, log, g) && g != s.pending[connId]
    ensures var out := IndicationSent(s, connId, status); Settled(out.server, log + out.events, g)
  {
    var out := IndicationSent(s, connId, status);
    var confirmed := Confirmed(s.pending[connId], connId, status);
    OutstandingRemove(s.pending, connId, g);
    TallyOne(log, confirmed, g);
    TallyOther(log + [confirmed], out.events[1..], g);
    assert log + out.events == log + [confirmed] + out.events[1..];
  }

  lemma ConfirmOwn(s: Server, log: seq<Event>, connId: int, status: int)
    requires WF(s) && connId in s.pending && Settled(s, log, s.pending[connId])
    ensures var out := IndicationSent(s, connId, status); Settled(out.server, log + out.events, s.pending[connId])
  {
    var g := s.pending[connId];
    var out := IndicationSent(s, connId, status);
    var confirmed := Confirmed(g, connId, status);
    OutstandingRemove(s.pending, connId, g);
    TallyOne(log, confirmed, g);
    if |out.events| == 2 {
      TallyOne(log + [confirmed], out.events[1], g);
      assert log + out.events == log + [confirmed] + [out.events[1]];
    } else {
      assert out.events == [confirmed];
    }
  }

  lemma TallyOther(log: seq<Event>, events: seq<Event>, g: nat)
    requires |events| <= 1 && forall i :: 0 <= i < |events| ==> events[i].Fired? && events[i].group != g
    ensures TallyOf(log + events, g) == TallyOf(log, g)
  {
    if events == [] {
      assert log + events == log;
    } else {
      TallyOne(log, events[0], g);
      assert events == [events[0]];
    }
  }

  lemma NextSettled(s: Server, log: seq<Event>, step: Step, g: nat)
    requires WF(s) && Settled(s, log, g)
    ensures var out := Next(s, step); Settled(out.server, log + out.events, g)
  {
    if step.Notify? {
      NotifySettled(s, log, step.device, step.hasCallback, step.accepted, g);
    } else if step.Confirm? {
      ConfirmSettled(s, log, step.connId, step.status, g);
    } else {
      TallyIgnores(log, Next(s, step).events, g);
    }
  }

  /** For every run and every notification: its callback runs at most once, exactly when
      the last connection it was sent on is confirmed, and reports no error if and only
      if at least one confirmation succeeded. */
  lemma {:induction false} NotificationsSettled(serverId: int, steps: seq<Step>, g: nat)
    ensures var t := Run(serverId, steps); Settled(t.server, t.log, g)
  {
    if steps != [] {
      var t := Run(serverId, steps[..|steps| - 1]);
      NotificationsSettled(serverId, steps[..|steps| - 1], g);
      RunWF(serverId, steps[..|steps| - 1]);
      NextSettled(t.server, t.log, steps[|steps| - 1], g);
    }
  }

  /** Only its own confirmation frees a connection with an indication pending; losing the
      link does not, so a reused connection id stays blocked. */
  lemma OnlyConfirmationFrees(s: Server, step: Step, c: int)
    requires WF(s) && c in s.pending
    ensures var p := Next(s, step).server.pending;
            (c in p <==> !(step.Confirm? && step.connId == c)) && (c in p ==> p[c] == s.pending[c])
  {
    if step.Notify? && step.device in s.byAddr {
      assert GoodList(s, step.device, s.byAddr[step.device]);
      SendLoopPending(s.objects, s.byAddr[step.device], s.pending, |s.groups|, step.accepted);
    }
  }

  /** SendNotification succeeds exactly when the device is a listed address and one of its
      connections is both free and accepted by the HAL. */
  lemma NotifySucceedsExactly(s: Server, device: string, hasCallback: bool, accepted: set<nat>)
    requires WF(s)
    ensures SendNotification(s, device, hasCallback, accepted).ok <==>
            Parse(device).Some? && device in s.byAddr
            && exists i :: 0 <= i < |s.byAddr[device]|
                 && At(s.objects, s.byAddr[device][i]).connId !in s.pending && i in accepted
  {
    if device in s.byAddr {
      assert GoodList(s, device, s.byAddr[device]);
      SendLoopSends(s.objects, s.byAddr[device], s.pending, |s.groups|, accepted);
    }
  }

  /** SendResponse succeeds exactly when the address parses and is listed, the size of the value
      plus the offset is at most 600 as an unsigned number, one of the connections waits for
      that request, and the HAL takes the answer; it then sends exactly one answer, and
      otherwise changes nothing. */
  lemma RespondSucceedsExactly(s: Server, device: string, requestId: int, error: int,
                                                  offset: int, value: seq<Byte>, halAccepts: bool)
    requires WF(s)
    ensures var r := SendResponse(s, device, requestId, error, offset, value, halAccepts);
            && (r.ok <==>
                  && Parse(device).Some? && device in s.byAddr && halAccepts
                  && UnsignedSum(|value|, offset) <= MAX_ATTRIBUTE_LENGTH
                  && exists o, h :: o in s.byAddr[device] && Waiting(s, o, requestId, h))
            && (if r.ok then |r.events| == 1 && r.events[0].Answered? else r.events == [] && r.server == s)
  {
    if device in s.byAddr {
      var list := s.byAddr[device];
      assert GoodList(s, device, list);
      var i := FindRequest(s.objects, list, requestId);
      if i < |list| {
        assert list[i] in list && Waiting(s, list[i], requestId, s.objects[list[i]].requests[requestId]);
      }
    }
  }

  lemma {:induction false} SendLoopSends(objects: seq<Conn>, list: seq<nat>, pending: map<int, nat>, group: nat,
                                         accepted: set<nat>)
    ensures var (p, events) := SendLoop(objects, list, pending, group, accepted);
            && (events == [] ==> p == pending)
            && (events != [] <==>
                  exists i :: 0 <= i < |list| && At(objects, list[i]).connId !in pending && i in accepted)
  {
    if list != [] {
      var n := |list| - 1;
      SendLoopSends(objects, list[..n], pending, group, accepted);
      assert forall i :: 0 <= i < n ==> list[..n][i] == list[i];
    }
  }
}
