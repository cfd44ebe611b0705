/** GattServer (service/gatt_server.cc) as a state machine: its API calls and the HAL
    callbacks, in any order.  Connection objects are named by their order of creation, so
    the two indexes that share them can be compared. */
module GattServerSpec {
  import opened Octets
  import opened RawAddress
  import opened Sequences

  const MAX_ATTRIBUTE_LENGTH: nat := 600
  const STATUS_SUCCESS: int := 0
  const ERROR_NONE: int := 0

  /** A Connection object; `key` is the printed address it was filed under. */
  datatype Conn = Conn(connId: int, addr: Address, key: string, requests: map<int, int>)

  /** A PendingIndication object, shared by every connection the indication was sent on. */
  datatype Group = Group(hasSuccess: bool, hasCallback: bool)

  datatype Server = Server(
    serverId: int,
    objects: seq<Conn>,              // every connection object ever created
    byId: map<int, nat>,             // conn_id_map_
    byAddr: map<string, seq<nat>>,   // conn_addr_map_
    pending: map<int, nat>,          // pending_indications_
    groups: seq<Group>)              // every PendingIndication ever created

  /** What send_response is given: the first `len` bytes of the value and where they go. */
  datatype Response = Response(handle: nat, offset: nat, value: seq<Byte>)

  datatype Step =
    | Connection(connId: int, serverId: int, connected: bool, addr: Address)
    | Request(connId: int, requestId: int, addr: Address, handle: int, needsResponse: bool)
    | Respond(device: string, requestId: int, error: int, offset: int, value: seq<Byte>, halAccepts: bool)
    | Notify(device: string, hasCallback: bool, accepted: set<nat>)
    | Confirm(connId: int, status: int)

  datatype Event =
    | Accepted(conn: nat, requestId: int, handle: int)
    | Answered(conn: nat, requestId: int, handle: int, connId: int, error: int, response: Response)
    | Released(conn: nat, requests: map<int, int>)
    | Sent(group: nat, connId: int)
    | Confirmed(group: nat, connId: int, status: int)
    | Fired(group: nat, error: int)

  /** The new state, what happened, and what an API call returns. */
  datatype Outcome = Outcome(server: Server, events: seq<Event>, ok: bool)

  // ----- Well-formed states -----

  ghost predicate Listed(s: Server, o: nat) {
    o < |s.objects| && s.objects[o].key in s.byAddr && o in s.byAddr[s.objects[o].key]
  }

  ghost predicate GoodList(s: Server, key: string, list: seq<nat>) {
    && (forall i :: 0 <= i < |list| ==> list[i] < |s.objects| && s.objects[list[i]].key == key)
    && (forall i, j :: 0 <= i < j < |list| ==> list[i] != list[j])
  }

  /** Each address list holds distinct objects of that address; whatever the id index
      holds has that id and is also in its address list. */
  ghost predicate WF(s: Server) {
    && (forall key :: key in s.byAddr ==> GoodList(s, key, s.byAddr[key]))
    && (forall c :: c in s.byId ==> Listed(s, s.byId[c]) && s.objects[s.byId[c]].connId == c)
    && (forall c :: c in s.pending ==> s.pending[c] < |s.groups|)
  }

  function Fresh(serverId: int): Server {
    Server(serverId, [], map[], map[], map[], [])
  }

  // ----- Connections -----

  const NO_CONN: Conn := Conn(-1, [0, 0, 0, 0, 0, 0], "", map[])

  /** The object with a given name; in a well-formed state every name in use has one. */
  function At(objects: seq<Conn>, o: nat): (c: Conn)
    ensures o < |objects| ==> c == objects[o]
  {
    if o < |objects| then objects[o] else NO_CONN
  }

  /** First position in the list of an object with the given connection id. */
  function FindConn(objects: seq<Conn>, list: seq<nat>, connId: int): (i: nat)
    ensures i <= |list|
    ensures i < |list| ==> At(objects, list[i]).connId == connId
    ensures forall j :: 0 <= j < i ==> At(objects, list[j]).connId != connId
  {
    if list == [] || At(objects, list[0]).connId == connId then 0 else 1 + FindConn(objects, list[1..], connId)
  }

  /** A disconnect erases the id from one index and, by printed address, from the other. */
  function Disconnect(s: Server, connId: int, key: string): (r: Outcome) {
    var s1 := s.(byId := s.byId - {connId});
    if key !in s.byAddr then Outcome(s1, [], true)
    else
      var list := s.byAddr[key];
      var i := FindConn(s.objects, list, connId);
      if i == |list| then Outcome(s1, [], true)
      else Outcome(s1.(byAddr := s.byAddr[key := EraseAt(list, i)]),
                   [Released(list[i], At(s.objects, list[i]).requests)], true)
  }

  function Connect(s: Server, connId: int, addr: Address, key: string): (r: Outcome) {
    var list := if key in s.byAddr then s.byAddr[key] else [];
    var o := |s.objects|;
    Outcome(s.(objects := s.objects + [Conn(connId, addr, key, map[])],
               byId := s.byId[connId := o],
               byAddr := s.byAddr[key := list + [o]]), [], true)
  }

  // ----- Requests -----

  /** GetConnection: the known connection that may take this request. */
  predicate Admits(s: Server, connId: int, requestId: int, addr: Address) {
    connId in s.byId
    && var c := At(s.objects, s.byId[connId]); c.addr == addr && requestId !in c.requests
  }

  function SetRequests(s: Server, o: nat, requests: map<int, int>): (r: Server) {
    if o < |s.objects| then s.(objects := s.objects[o := s.objects[o].(requests := requests)]) else s
  }

  function TakeRequest(s: Server, connId: int, requestId: int, handle: int): (r: Outcome)
    requires connId in s.byId
  {
    var o := s.byId[connId];
    Outcome(SetRequests(s, o, At(s.objects, o).requests[requestId := handle]), [Accepted(o, requestId, handle)], true)
  }

  /** Last position in the list of an object with that request pending, |list| if none. */
  function FindRequest(objects: seq<Conn>, list: seq<nat>, requestId: int): (i: nat)
    ensures i <= |list|
    ensures i < |list| ==> requestId in At(objects, list[i]).requests
    ensures forall j :: (if i < |list| then i + 1 else 0) <= j < |list| ==> requestId !in At(objects, list[j]).requests
  {
    if list == [] then 0
    else
      var n := |list| - 1;
      if requestId in At(objects, list[n]).requests then n
      else
        var i := FindRequest(objects, list[..n], requestId);
        if i < n then i else |list|
  }

  /** value.size() + offset, in the 64-bit unsigned arithmetic of the comparison. */
  function UnsignedSum(size: nat, offset: int): nat {
    (size + offset) % 0x1_0000_0000_0000_0000
  }

  /** The bytes handed to the HAL; an execute-write request (handle -1) carries none. */
  function ResponseOf(handle: int, offset: int, value: seq<Byte>): Response {
    if handle == -1 then Response(0xFFFF, 0, []) else Response(handle % 0x1_0000, offset % 0x1_0000, value)
  }

  /** Answering on a listed device. */
  function Answer(s: Server, device: string, requestId: int, error: int, offset: int, value: seq<Byte>,
                  halAccepts: bool): (r: Outcome)
    requires device in s.byAddr
  {
    var list := s.byAddr[device];
    var i := FindRequest(s.objects, list, requestId);
    if i == |list| || !halAccepts then Outcome(s, [], false)
    else
      var o := list[i];
      var c := At(s.objects, o);
      Outcome(SetRequests(s, o, c.requests - {requestId}),
              [Answered(o, requestId, c.requests[requestId], c.connId, error,
                        ResponseOf(c.requests[requestId], offset, value))], true)
  }

  ghost function SendResponse(s: Server, device: string, requestId: int, error: int, offset: int,
                              value: seq<Byte>, halAccepts: bool): (r: Outcome)
  {
    if Parse(device).None? || UnsignedSum(|value|, offset) > MAX_ATTRIBUTE_LENGTH || device !in s.byAddr then
      Outcome(s, [], false)
    else Answer(s, device, requestId, error, offset, value, halAccepts)
  }

  // ----- Notifications and indications -----

  /** The send loop: connections with an indication pending, or refused by the HAL, are
      skipped; the others now wait for a confirmation on behalf of the group.  `accepted` are
      the positions in the list at which the HAL accepts. */
  function SendLoop(objects: seq<Conn>, list: seq<nat>, pending: map<int, nat>, group: nat,
                    accepted: set<nat>): (r: (map<int, nat>, seq<Event>))
  {
    if list == [] then (pending, [])
    else
      var n := |list| - 1;
      var (p, events) := SendLoop(objects, list[..n], pending, group, accepted);
      var connId := At(objects, list[n]).connId;
      if connId in p || n !in accepted then (p, events)
      else (p[connId := group], events + [Sent(group, connId)])
  }

  /** Sending to a listed device, on behalf of a new group. */
  function Broadcast(s: Server, device: string, hasCallback: bool, accepted: set<nat>): (r: Outcome)
    requires device in s.byAddr
  {
    var (p, events) := SendLoop(s.objects, s.byAddr[device], s.pending, |s.groups|, accepted);
    Outcome(s.(pending := p, groups := s.groups + [Group(false, hasCallback)]), events, events != [])
  }

  ghost function SendNotification(s: Server, device: string, hasCallback: bool, accepted: set<nat>): (r: Outcome) {
    if Parse(device).None? || device !in s.byAddr then Outcome(s, [], false)
    else Broadcast(s, device, hasCallback, accepted)
  }

  /** No pending entry belongs to the group any more. */
  predicate Unreferenced(pending: map<int, nat>, g: nat) {
    forall c :: c in pending ==> pending[c] != g
  }

  function Confirmation(g: Group, status: int): Group {
    g.(hasSuccess := g.hasSuccess || status == STATUS_SUCCESS)
  }

  /** What a confirmation does, given the entries left and the group's new flags. */
  function ConfirmEvents(left: map<int, nat>, g: nat, group: Group, connId: int, status: int): seq<Event> {
    if Unreferenced(left, g) && group.hasCallback
    then [Confirmed(g, connId, status), Fired(g, if group.hasSuccess then ERROR_NONE else status)]
    else [Confirmed(g, connId, status)]
  }

  function IndicationSent(s: Server, connId: int, status: int): (r: Outcome) {
    if connId !in s.pending || s.pending[connId] >= |s.groups| then Outcome(s, [], true)
    else
      var g := s.pending[connId];
      var left := s.pending - {connId};
      var group := Confirmation(s.groups[g], status);
      Outcome(s.(pending := left, groups := s.groups[g := group]), ConfirmEvents(left, g, group, connId, status), true)
  }

  // ----- Runs -----

  ghost function Next(s: Server, step: Step): (r: Outcome) {
    match step
    case Connection(connId, serverId, connected, addr) =>
      if serverId != s.serverId then Outcome(s, [], true)
      else if !connected then Disconnect(s, connId, Print(addr, true))
      else if connId in s.byId then Outcome(s, [], true)
      else Connect(s, connId, addr, Print(addr, true))
    case Request(connId, requestId, addr, handle, needsResponse) =>
      if Admits(s, connId, requestId, addr) && needsResponse then TakeRequest(s, connId, requestId, handle)
      else Outcome(s, [], true)
    case Respond(device, requestId, error, offset, value, halAccepts) =>
      SendResponse(s, device, requestId, error, offset, value, halAccepts)
    case Notify(device, hasCallback, accepted) => SendNotification(s, device, hasCallback, accepted)
    case Confirm(connId, status) => IndicationSent(s, connId, status)
  }

  lemma ErasedAt(list: seq<nat>, i: nat, j: nat)
    requires i < |list| && j < |list| - 1
    ensures EraseAt(list, i)[j] == if j < i then list[j] else list[j + 1]
  {
  }

  lemma ErasedGood(s: Server, key: string, list: seq<nat>, i: nat)
    requires GoodList(s, key, list) && i < |list|
    ensures GoodList(s, key, EraseAt(list, i))
  {
    var erased := EraseAt(list, i);
    forall j | 0 <= j < |erased| ensures erased[j] < |s.objects| && s.objects[erased[j]].key == key {
      ErasedAt(list, i, j);
    }
    forall j, k | 0 <= j < k < |erased| ensures erased[j] != erased[k] {
      ErasedAt(list, i, j);
      ErasedAt(list, i, k);
    }
  }

  /** Erasing position i of an address list unlists that object and no other. */
  lemma ErasedList(s: Server, key: string, i: nat, o: nat)
    requires key in s.byAddr && i < |s.byAddr[key]| && GoodList(s, key, s.byAddr[key])
    ensures Listed(s, s.byAddr[key][i])
    ensures Listed(s.(byAddr := s.byAddr[key := EraseAt(s.byAddr[key], i)]), o)
            <==> Listed(s, o) && o != s.byAddr[key][i]
  {
    var list := s.byAddr[key];
    var erased := EraseAt(list, i);
    if o in erased {
      var j :| 0 <= j < |erased| && erased[j] == o;
      ErasedAt(list, i, j);
    }
    if o in list && o != list[i] {
      var j :| 0 <= j < |list| && list[j] == o;
      ErasedAt(list, i, if j < i then j else j - 1);
      assert o in erased;
    }
  }

  lemma DisconnectWF(s: Server, connId: int, key: string)
    requires WF(s)
    ensures WF(Disconnect(s, connId, key).server)
  {
    var s1 := s.(byId := s.byId - {connId});
    assert WF(s1) by { FewerIds(s, s1); }
    if key in s.byAddr {
      var list := s.byAddr[key];
      assert GoodList(s, key, list) && GoodList(s1, key, list);
      var i := FindConn(s.objects, list, connId);
      if i < |list| {
        UnlistedWF(s1, connId, key, i);
      }
    }
  }

  lemma FewerIds(s: Server, r: Server)
    requires WF(s) && r == s.(byId := r.byId) && r.byId.Keys <= s.byId.Keys
    requires forall c :: c in r.byId ==> r.byId[c] == s.byId[c]
    ensures WF(r)
  {
    forall k | k in r.byAddr ensures GoodList(r, k, r.byAddr[k]) {
      assert GoodList(s, k, s.byAddr[k]);
    }
    forall c | c in r.byId ensures Listed(r, r.byId[c]) && r.objects[r.byId[c]].connId == c {
      assert Listed(s, s.byId[c]);
    }
  }

  lemma UnlistedWF(s: Server, connId: int, key: string, i: nat)
    requires WF(s) && connId !in s.byId && key in s.byAddr && i < |s.byAddr[key]|
    requires s.byAddr[key][i] < |s.objects| && s.objects[s.byAddr[key][i]].connId == connId
    ensures WF(s.(byAddr := s.byAddr[key := EraseAt(s.byAddr[key], i)]))
  {
    var r := s.(byAddr := s.byAddr[key := EraseAt(s.byAddr[key], i)]);
    assert GoodList(s, key, s.byAddr[key]);
    ErasedGood(s, key, s.byAddr[key], i);
    forall k | k in r.byAddr ensures GoodList(r, k, r.byAddr[k]) {
      assert GoodList(s, k, r.byAddr[k]);
    }
    forall c | c in r.byId ensures Listed(r, r.byId[c]) && r.objects[r.byId[c]].connId == c {
      ErasedList(s, key, i, s.byId[c]);
    }
  }

  lemma ConnectWF(s: Server, connId: int, addr: Address, key: string)
    requires WF(s)
    ensures WF(Connect(s, connId, addr, key).server)
  {
    var r := Connect(s, connId, addr, key).server;
    var o := |s.objects|;
    forall k | k in r.byAddr ensures GoodList(r, k, r.byAddr[k]) {
      if k in s.byAddr {
        assert GoodList(s, k, s.byAddr[k]);
      }
    }
    assert o in r.byAddr[key] by {
      assert r.byAddr[key][|r.byAddr[key]| - 1] == o;
    }
    forall c | c in r.byId ensures Listed(r, r.byId[c]) && r.objects[r.byId[c]].connId == c {
      if c != connId {
        assert Listed(s, s.byId[c]);
      }
    }
  }

  lemma SetRequestsWF(s: Server, o: nat, requests: map<int, int>)
    requires WF(s) && o < |s.objects|
    ensures WF(SetRequests(s, o, requests))
  {
    var r := SetRequests(s, o, requests);
    forall k | k in r.byAddr ensures GoodList(r, k, r.byAddr[k]) {
      assert GoodList(s, k, s.byAddr[k]);
    }
    forall c | c in r.byId ensures Listed(r, r.byId[c]) && r.objects[r.byId[c]].connId == c {
      assert Listed(s, s.byId[c]);
    }
  }

  lemma {:induction false} SendLoopPending(objects: seq<Conn>, list: seq<nat>, pending: map<int, nat>, group: nat,
                                           accepted: set<nat>)
    ensures var p := SendLoop(objects, list, pending, group, accepted).0;
            forall c :: c in p ==> p[c] == group || (c in pending && p[c] == pending[c])
    ensures var p := SendLoop(objects, list, pending, group, accepted).0;
            forall c :: c in pending ==> c in p && p[c] == pending[c]
  {
    if list != [] {
      SendLoopPending(objects, list[..|list| - 1], pending, group, accepted);
    }
  }

  /** Every step keeps the indexes well formed, whatever the HAL delivers. */
  lemma NextWF(s: Server, step: Step)
    requires WF(s)
    ensures WF(Next(s, step).server)
  {
    match step
    case Connection(connId, serverId, connected, addr) =>
      DisconnectWF(s, connId, Print(addr, true));
      ConnectWF(s, connId, addr, Print(addr, true));
    case Request(connId, requestId, addr, handle, needsResponse) =>
      if Admits(s, connId, requestId, addr) {
        var o := s.byId[connId];
        SetRequestsWF(s, o, s.objects[o].requests[requestId := handle]);
      }
    case Respond(device, requestId, error, offset, value, halAccepts) =>
      if device in s.byAddr {
        var list := s.byAddr[device];
        assert GoodList(s, device, list);
        var i := FindRequest(s.objects, list, requestId);
        if i < |list| {
          SetRequestsWF(s, list[i], s.objects[list[i]].requests - {requestId});
        }
      }
    case Notify(device, hasCallback, accepted) => NotifyWF(s, device, hasCallback, accepted);
    case Confirm(connId, status) => ConfirmWF(s, connId, status);
  }

  lemma ConfirmWF(s: Server, connId: int, status: int)
    requires WF(s)
    ensures WF(IndicationSent(s, connId, status).server)
  {
    SameIndexes(s, IndicationSent(s, connId, status).server);
  }

  lemma NotifyWF(s: Server, device: string, hasCallback: bool, accepted: set<nat>)
    requires WF(s)
    ensures WF(SendNotification(s, device, hasCallback, accepted).server)
  {
    var r := SendNotification(s, device, hasCallback, accepted).server;
    if r != s {
      assert GoodList(s, device, s.byAddr[device]);
      SendLoopPending(s.objects, s.byAddr[device], s.pending, |s.groups|, accepted);
      forall c | c in r.pending ensures r.pending[c] < |r.groups| {
        assert r.pending[c] == |s.groups| || (c in s.pending && r.pending[c] == s.pending[c]);
      }
      SameIndexes(s, r);
    }
  }

  lemma SameIndexes(s: Server, r: Server)
    requires WF(s) && r.objects == s.objects && r.byId == s.byId && r.byAddr == s.byAddr
    requires forall c :: c in r.pending ==> r.pending[c] < |r.groups|
    ensures WF(r)
  {
    forall k | k in r.byAddr ensures GoodList(r, k, r.byAddr[k]) {
      assert GoodList(s, k, s.byAddr[k]);
    }
    forall c | c in r.byId ensures Listed(r, r.byId[c]) && r.objects[r.byId[c]].connId == c {
      assert Listed(s, s.byId[c]);
    }
  }

  datatype Trace = Trace(server: Server, log: seq<Event>)

  /** The state and the log after a whole run of steps on a new server. */
  ghost function Run(serverId: int, steps: seq<Step>): (t: Trace) {
    if steps == [] then Trace(Fresh(serverId), [])
    else
      var t := Run(serverId, steps[..|steps| - 1]);
      var r := Next(t.server, steps[|steps| - 1]);
      Trace(r.server, t.log + r.events)
  }

  lemma RunSnoc(serverId: int, steps: seq<Step>, step: Step)
    ensures var t := Run(serverId, steps); var r := Next(t.server, step);
            Run(serverId, steps + [step]) == Trace(r.server, t.log + r.events)
  {
    assert (steps + [step])[..|steps|] == steps;
  }

  lemma {:induction false} RunWF(serverId: int, steps: seq<Step>)
    ensures WF(Run(serverId, steps).server)
  {
    if steps != [] {
      RunWF(serverId, steps[..|steps| - 1]);
      NextWF(Run(serverId, steps[..|steps| - 1]).server, steps[|steps| - 1]);
    }
  }
}
