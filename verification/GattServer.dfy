/** The GattServer object of service/gatt_server.cc: two maps sharing mutable Connection
    objects, and a map of shared PendingIndication objects.  Every method is proved to
    take exactly the corresponding step of GattServerSpec. */
module GattServer {
  import opened Octets
  import opened RawAddress
  import opened Sequences
  import opened GattServerSpec

  class Connection {
    const connId: int
    const bdaddr: Address
    var requestIdToHandle: map<int, int>
    ghost const serial: nat
    ghost const key: string

    constructor (connId: int, bdaddr: Address, ghost serial: nat, ghost key: string)
      ensures this.connId == connId && this.bdaddr == bdaddr && requestIdToHandle == map[]
      ensures this.serial == serial && this.key == key
    {
      this.connId := connId;
      this.bdaddr := bdaddr;
      requestIdToHandle := map[];
      this.serial := serial;
      this.key := key;
    }
  }

  class PendingIndication {
    const hasCallback: bool
    var hasSuccess: bool
    ghost const serial: nat

    constructor (hasCallback: bool, ghost serial: nat)
      ensures this.hasCallback == hasCallback && !hasSuccess && this.serial == serial
    {
      this.hasCallback := hasCallback;
      hasSuccess := false;
      this.serial := serial;
    }
  }

  // ----- Objects and the serial numbers that name them in the specification -----

  ghost predicate Known(conns: seq<Connection>, c: Connection) {
    c.serial < |conns| && conns[c.serial] == c
  }

  ghost predicate KnownIndication(indications: seq<PendingIndication>, p: PendingIndication) {
    p.serial < |indications| && indications[p.serial] == p
  }

  ghost function Serials(list: seq<Connection>): (r: seq<nat>)
    ensures |r| == |list| && forall i :: 0 <= i < |list| ==> r[i] == list[i].serial
  {
    seq(|list|, i requires 0 <= i < |list| => list[i].serial)
  }

  ghost function IdSerials(m: map<int, Connection>): (r: map<int, nat>)
    ensures r.Keys == m.Keys && forall c :: c in m ==> r[c] == m[c].serial
  {
    map c | c in m :: m[c].serial
  }

  ghost function AddrSerials(m: map<string, seq<Connection>>): (r: map<string, seq<nat>>)
    ensures r.Keys == m.Keys && forall k :: k in m ==> r[k] == Serials(m[k])
  {
    map k | k in m :: Serials(m[k])
  }

  ghost function PendingSerials(m: map<int, PendingIndication>): (r: map<int, nat>)
    ensures r.Keys == m.Keys && forall c :: c in m ==> r[c] == m[c].serial
  {
    map c | c in m :: m[c].serial
  }

  lemma AddrSerialsUpdate(m: map<string, seq<Connection>>, k: string, list: seq<Connection>)
    ensures AddrSerials(m[k := list]) == AddrSerials(m)[k := Serials(list)]
  {
  }

  lemma EraseSerials(list: seq<Connection>, i: nat)
    requires i < |list|
    ensures Serials(EraseAt(list, i)) == EraseAt(Serials(list), i)
  {
  }

  ghost predicate KnownList(conns: seq<Connection>, list: seq<Connection>) {
    forall i :: 0 <= i < |list| ==> Known(conns, list[i])
  }

  /** Serial numbers are positions in the creation order, for every object the maps hold. */
  ghost predicate Numbered(conns: seq<Connection>, ids: map<int, Connection>, addrs: map<string, seq<Connection>>) {
    && (forall i :: 0 <= i < |conns| ==> conns[i].serial == i)
    && (forall c :: c in ids ==> Known(conns, ids[c]))
    && (forall k :: k in addrs ==> KnownList(conns, addrs[k]))
  }

  ghost predicate NumberedIndications(indications: seq<PendingIndication>, pending: map<int, PendingIndication>) {
    && (forall i :: 0 <= i < |indications| ==> indications[i].serial == i)
    && (forall c :: c in pending ==> KnownIndication(indications, pending[c]))
  }

  lemma NumberedNew(conns: seq<Connection>, ids: map<int, Connection>,
                                       addrs: map<string, seq<Connection>>, conn: Connection)
    requires Numbered(conns, ids, addrs) && conn.serial == |conns|
    ensures Numbered(conns + [conn], ids, addrs)
  {
    forall k | k in addrs ensures KnownList(conns + [conn], addrs[k]) {
      assert KnownList(conns, addrs[k]);
    }
  }

  lemma NumberedList(conns: seq<Connection>, ids: map<int, Connection>,
                                        addrs: map<string, seq<Connection>>, key: string, list: seq<Connection>,
                                        conn: Connection)
    requires Numbered(conns, ids, addrs) && Known(conns, conn)
    requires list == if key in addrs then addrs[key] else []
    ensures Numbered(conns, ids, addrs[key := list + [conn]])
    ensures AddrSerials(addrs[key := list + [conn]]) == AddrSerials(addrs)[key := Serials(list) + [conn.serial]]
  {
    if key in addrs {
      assert KnownList(conns, addrs[key]);
    }
    assert KnownList(conns, list + [conn]);
    assert Serials(list + [conn]) == Serials(list) + [conn.serial];
    AddrSerialsUpdate(addrs, key, list + [conn]);
  }

  lemma NumberedErase(conns: seq<Connection>, ids: map<int, Connection>,
                                         addrs: map<string, seq<Connection>>, key: string, i: nat)
    requires Numbered(conns, ids, addrs) && key in addrs && i < |addrs[key]|
    ensures Numbered(conns, ids, addrs[key := EraseAt(addrs[key], i)])
  {
    assert KnownList(conns, addrs[key]);
    assert KnownList(conns, EraseAt(addrs[key], i));
  }

  /** The erase loop of ConnectionCallback: first listed object with the connection id. */
  method FindListed(list: seq<Connection>, connId: int, ghost objects: seq<Conn>) returns (i: nat)
    requires forall j :: 0 <= j < |list| ==>
      list[j].serial < |objects| && objects[list[j].serial].connId == list[j].connId
    ensures i == FindConn(objects, Serials(list), connId)
  {
    i := 0;
    while i < |list|
      invariant 0 <= i <= |list|
      invariant forall j :: 0 <= j < i ==> list[j].connId != connId
    {
      if list[i].connId == connId {
        break;
      }
      i := i + 1;
    }
  }

  /** The search loop of SendResponse: the last listed connection with the request pending. */
  method FindLast(list: seq<Connection>, requestId: int, ghost objects: seq<Conn>) returns (i: nat)
    requires forall j :: 0 <= j < |list| ==>
      list[j].serial < |objects| && objects[list[j].serial].requests == list[j].requestIdToHandle
    ensures i == FindRequest(objects, Serials(list), requestId)
  {
    i := |list|;
    for n := 0 to |list|
      invariant i < n || i == |list|
      invariant i < n ==> requestId in list[i].requestIdToHandle
      invariant forall j :: (if i < n then i + 1 else 0) <= j < n ==> requestId !in list[j].requestIdToHandle
    {
      if requestId !in list[n].requestIdToHandle {
        continue;
      }
      i := n;
    }
  }

  class Server {
    const serverId: int
    var connIdMap: map<int, Connection>
    var connAddrMap: map<string, seq<Connection>>
    var pendingIndications: map<int, PendingIndication>
    ghost var conns: seq<Connection>
    ghost var indications: seq<PendingIndication>
    ghost var log: seq<Event>
    ghost var history: seq<Step>

    ghost function Objects(): (r: seq<Conn>)
      reads this`conns, conns
      ensures |r| == |conns|
      ensures forall i :: 0 <= i < |r| ==>
        r[i] == Conn(conns[i].connId, conns[i].bdaddr, conns[i].key, conns[i].requestIdToHandle)
    {
      var cs := conns;
      seq(|cs|, i requires 0 <= i < |cs| reads cs =>
        Conn(cs[i].connId, cs[i].bdaddr, cs[i].key, cs[i].requestIdToHandle))
    }

    ghost function Groups(): (r: seq<Group>)
      reads this`indications, indications
      ensures |r| == |indications|
      ensures forall i :: 0 <= i < |r| ==> r[i] == Group(indications[i].hasSuccess, indications[i].hasCallback)
    {
      var ps := indications;
      seq(|ps|, i requires 0 <= i < |ps| reads ps => Group(ps[i].hasSuccess, ps[i].hasCallback))
    }

    /** The specification state that this object is in. */
    ghost function Abs(): GattServerSpec.Server
      reads this, conns, indications
    {
      GattServerSpec.Server(serverId, Objects(), IdSerials(connIdMap), AddrSerials(connAddrMap),
                            PendingSerials(pendingIndications), Groups())
    }

    ghost predicate Valid()
      reads this, conns, indications
    {
      && Numbered(conns, connIdMap, connAddrMap)
      && NumberedIndications(indications, pendingIndications)
    }

    /** The object and its log are what its history of calls and callbacks leads to. */
    ghost predicate Reached()
      reads this, conns, indications
    {
      Valid() && Trace(Abs(), log) == Run(serverId, history)
    }

    constructor (serverId: int)
      ensures Reached() && Abs() == Fresh(serverId) && log == [] && history == [] && this.serverId == serverId
    {
      history := [];
      this.serverId := serverId;
      connIdMap := map[];
      connAddrMap := map[];
      pendingIndications := map[];
      conns := [];
      indications := [];
      log := [];
    }

    method ConnectionCallback(connId: int, forServer: int, connected: bool, bda: Address)
      requires Valid()
      modifies this`connIdMap, this`connAddrMap, this`conns, this`log
      ensures Valid()
      ensures var r := Next(old(Abs()), Step.Connection(connId, forServer, connected, bda));
              Abs() == r.server && log == old(log) + r.events
    {
      if forServer != serverId {
        return;
      }
      var deviceAddress := Print(bda, true);
      if !connected {
        RemoveConnection(connId, deviceAddress);
        return;
      }
      if connId in connIdMap {
        return;
      }
      AddConnection(connId, bda, deviceAddress);
    }

    method RemoveConnection(connId: int, deviceAddress: string)
      requires Valid()
      modifies this`connIdMap, this`connAddrMap, this`log
      ensures Valid()
      ensures var r := Disconnect(old(Abs()), connId, deviceAddress);
              Abs() == r.server && log == old(log) + r.events
    {
      ghost var s := Abs();
      ForgetId(connId);
      if deviceAddress !in connAddrMap {
        return;
      }
      RemoveFromList(connId, deviceAddress, s);
    }

    method RemoveFromList(connId: int, deviceAddress: string, ghost s: GattServerSpec.Server)
      requires Valid() && deviceAddress in connAddrMap && Abs() == s.(byId := s.byId - {connId})
      modifies this`connAddrMap, this`log
      ensures Valid()
      ensures var r := Disconnect(s, connId, deviceAddress);
              Abs() == r.server && log == old(log) + r.events
    {
      var list := connAddrMap[deviceAddress];
      assert KnownList(conns, list);
      assert s.byAddr[deviceAddress] == Serials(list) && s.objects == Objects();
      var i := FindListed(list, connId, s.objects);
      if i < |list| {
        assert At(s.objects, list[i].serial).requests == list[i].requestIdToHandle;
        log := log + [Released(list[i].serial, list[i].requestIdToHandle)];
        Unlist(deviceAddress, i);
      }
    }

    method ForgetId(connId: int)
      requires Valid()
      modifies this`connIdMap
      ensures Valid() && Abs() == old(Abs()).(byId := old(Abs()).byId - {connId})
    {
      ghost var ids := IdSerials(connIdMap);
      connIdMap := connIdMap - {connId};
      assert IdSerials(connIdMap) == ids - {connId};
    }

    method Unlist(deviceAddress: string, i: nat)
      requires Valid() && deviceAddress in connAddrMap && i < |connAddrMap[deviceAddress]|
      modifies this`connAddrMap
      ensures Valid()
      ensures var s := old(Abs());
              Abs() == s.(byAddr := s.byAddr[deviceAddress := EraseAt(s.byAddr[deviceAddress], i)])
    {
      var list := connAddrMap[deviceAddress];
      EraseSerials(list, i);
      NumberedErase(conns, connIdMap, connAddrMap, deviceAddress, i);
      AddrSerialsUpdate(connAddrMap, deviceAddress, EraseAt(list, i));
      connAddrMap := connAddrMap[deviceAddress := EraseAt(list, i)];
    }

    method AddConnection(connId: int, bda: Address, deviceAddress: string)
      requires Valid() && connId !in connIdMap
      modifies this`connIdMap, this`connAddrMap, this`conns
      ensures Valid()
      ensures Abs() == Connect(old(Abs()), connId, bda, deviceAddress).server
    {
      var connection := NewConnection(connId, bda, deviceAddress);
      FileById(connId, connection);
      FileByAddress(deviceAddress, connection);
    }

    method FileById(connId: int, connection: Connection)
      requires Valid() && Known(conns, connection)
      modifies this`connIdMap
      ensures Valid() && Abs() == old(Abs()).(byId := old(Abs()).byId[connId := connection.serial])
    {
      ghost var ids := IdSerials(connIdMap);
      connIdMap := connIdMap[connId := connection];
      assert IdSerials(connIdMap) == ids[connId := connection.serial];
    }

    method FileByAddress(deviceAddress: string, connection: Connection)
      requires Valid() && Known(conns, connection)
      modifies this`connAddrMap
      ensures Valid()
      ensures var s := old(Abs());
              var list := if deviceAddress in s.byAddr then s.byAddr[deviceAddress] else [];
              Abs() == s.(byAddr := s.byAddr[deviceAddress := list + [connection.serial]])
    {
      var list := if deviceAddress in connAddrMap then connAddrMap[deviceAddress] else [];
      NumberedList(conns, connIdMap, connAddrMap, deviceAddress, list, connection);
      connAddrMap := connAddrMap[deviceAddress := list + [connection]];
    }

    method NewConnection(connId: int, bda: Address, deviceAddress: string) returns (connection: Connection)
      requires Valid()
      modifies this`conns
      ensures Valid() && Known(conns, connection) && connection.serial == |old(conns)|
      ensures Abs() == old(Abs()).(objects := old(Abs()).objects + [Conn(connId, bda, deviceAddress, map[])])
    {
      ghost var s := Abs();
      connection := new Connection(connId, bda, |conns|, deviceAddress);
      NumberedNew(conns, connIdMap, connAddrMap, connection);
      conns := conns + [connection];
      assert Objects() == s.objects + [Conn(connId, bda, deviceAddress, map[])];
    }

    method GetConnection(connId: int, bda: Address, requestId: int) returns (conn: Connection?)
      requires Valid()
      ensures conn != null <==> Admits(Abs(), connId, requestId, bda)
      ensures conn != null ==> connId in connIdMap && conn == connIdMap[connId] && Known(conns, conn)
    {
      if connId !in connIdMap {
        return null;
      }
      conn := connIdMap[connId];
      assert Known(conns, conn);
      if conn.bdaddr != bda {
        return null;
      }
      if requestId in conn.requestIdToHandle {
        return null;
      }
    }

    /** The five request callbacks.  Reads and execute-writes always need a response; an
        execute-write records handle -1. */
    method RequestCallback(connId: int, requestId: int, bda: Address, handle: int, needsResponse: bool)
      requires Valid()
      modifies this`log, conns
      ensures Valid()
      ensures var r := Next(old(Abs()), Request(connId, requestId, bda, handle, needsResponse));
              Abs() == r.server && log == old(log) + r.events
    {
      var conn := GetConnection(connId, bda, requestId);
      if conn == null {
        return;
      }
      if needsResponse {
        log := log + [Accepted(conn.serial, requestId, handle)];
        WriteRequests(conn, conn.requestIdToHandle[requestId := handle]);
      }
    }

    /** An in-place change of one connection's request map. */
    method WriteRequests(conn: Connection, requests: map<int, int>)
      requires Valid() && Known(conns, conn)
      modifies conn
      ensures Valid() && Abs() == SetRequests(old(Abs()), conn.serial, requests)
    {
      ghost var s := Abs();
      conn.requestIdToHandle := requests;
      assert Objects() == SetRequests(s, conn.serial, requests).objects;
    }

    method SendResponse(deviceAddress: string, requestId: int, error: int, offset: int, value: seq<Byte>,
                        halAccepts: bool) returns (ok: bool)
      requires Valid()
      modifies this`log, conns
      ensures Valid()
      ensures var r := Next(old(Abs()), Respond(deviceAddress, requestId, error, offset, value, halAccepts));
              Abs() == r.server && log == old(log) + r.events && ok == r.ok
    {
      var parsed, _ := FromString(deviceAddress, [0, 0, 0, 0, 0, 0]);
      if !parsed {
        return false;
      }
      if UnsignedSum(|value|, offset) > MAX_ATTRIBUTE_LENGTH {
        return false;
      }
      if deviceAddress !in connAddrMap {
        return false;
      }
      ok := AnswerListed(deviceAddress, requestId, error, offset, value, halAccepts);
    }

    method AnswerListed(deviceAddress: string, requestId: int, error: int, offset: int, value: seq<Byte>,
                        halAccepts: bool) returns (ok: bool)
      requires Valid() && deviceAddress in connAddrMap
      modifies this`log, conns
      ensures Valid()
      ensures var r := Answer(old(Abs()), deviceAddress, requestId, error, offset, value, halAccepts);
              Abs() == r.server && log == old(log) + r.events && ok == r.ok
    {
      var connection := FindWaiting(deviceAddress, requestId);
      if connection == null {
        return false;
      }
      var handle := connection.requestIdToHandle[requestId];
      var response := ResponseOf(handle, offset, value);
      if !halAccepts {
        return false;
      }
      log := log + [Answered(connection.serial, requestId, handle, connection.connId, error, response)];
      WriteRequests(connection, connection.requestIdToHandle - {requestId});
      ok := true;
    }

    method FindWaiting(deviceAddress: string, requestId: int) returns (connection: Connection?)
      requires Valid() && deviceAddress in connAddrMap
      ensures var list := Abs().byAddr[deviceAddress];
              var i := FindRequest(Abs().objects, list, requestId);
              if i == |list| then connection == null
              else connection != null && Known(conns, connection) && connection.serial == list[i]
    {
      var list := connAddrMap[deviceAddress];
      assert KnownList(conns, list);
      var i := FindLast(list, requestId, Objects());
      connection := if i < |list| then list[i] else null;
    }

    method SendNotification(deviceAddress: string, hasCallback: bool, accepted: set<nat>) returns (ok: bool)
      requires Valid()
      modifies this`pendingIndications, this`indications, this`log
      ensures Valid()
      ensures var r := Next(old(Abs()), Notify(deviceAddress, hasCallback, accepted));
              Abs() == r.server && log == old(log) + r.events && ok == r.ok
    {
      var parsed, _ := FromString(deviceAddress, [0, 0, 0, 0, 0, 0]);
      if !parsed {
        return false;
      }
      if deviceAddress !in connAddrMap {
        return false;
      }
      ok := NotifyListed(deviceAddress, hasCallback, accepted);
    }

    method NotifyListed(deviceAddress: string, hasCallback: bool, accepted: set<nat>) returns (ok: bool)
      requires Valid() && deviceAddress in connAddrMap
      modifies this`pendingIndications, this`indications, this`log
      ensures Valid()
      ensures var r := Broadcast(old(Abs()), deviceAddress, hasCallback, accepted);
              Abs() == r.server && log == old(log) + r.events && ok == r.ok
    {
      var pendingInd := NewIndication(hasCallback);
      ok := SendListed(deviceAddress, pendingInd, accepted);
    }

    method SendListed(deviceAddress: string, pendingInd: PendingIndication, accepted: set<nat>) returns (ok: bool)
      requires Valid() && deviceAddress in connAddrMap && KnownIndication(indications, pendingInd)
      modifies this`pendingIndications, this`log
      ensures Valid()
      ensures var s := old(Abs());
              var (p, events) := SendLoop(s.objects, s.byAddr[deviceAddress], s.pending, pendingInd.serial, accepted);
              Abs() == s.(pending := p) && log == old(log) + events && ok == (events != [])
    {
      var list := connAddrMap[deviceAddress];
      assert KnownList(conns, list);
      ok := SendToAll(list, pendingInd, accepted, Objects());
    }

    method NewIndication(hasCallback: bool) returns (pendingInd: PendingIndication)
      requires Valid()
      modifies this`indications
      ensures Valid() && KnownIndication(indications, pendingInd) && pendingInd.serial == |old(indications)|
      ensures Abs() == old(Abs()).(groups := old(Abs()).groups + [Group(false, hasCallback)])
    {
      ghost var s := Abs();
      pendingInd := new PendingIndication(hasCallback, |indications|);
      indications := indications + [pendingInd];
      assert Groups() == s.groups + [Group(false, hasCallback)];
    }

    /** The send loop of SendNotification. */
    method SendToAll(list: seq<Connection>, pendingInd: PendingIndication, accepted: set<nat>,
                     ghost objects: seq<Conn>) returns (ok: bool)
      requires forall j :: 0 <= j < |list| ==>
        list[j].serial < |objects| && objects[list[j].serial].connId == list[j].connId
      requires KnownIndication(indications, pendingInd) && NumberedIndications(indications, pendingIndications)
      modifies this`pendingIndications, this`log
      ensures NumberedIndications(indications, pendingIndications)
      ensures var (p, events) := SendLoop(objects, Serials(list), old(PendingSerials(pendingIndications)),
                                          pendingInd.serial, accepted);
              PendingSerials(pendingIndications) == p && log == old(log) + events && ok == (events != [])
    {
      var sendCount := 0;
      ghost var events: seq<Event> := [];
      for n := 0 to |list|
        invariant (PendingSerials(pendingIndications), events)
               == SendLoop(objects, Serials(list[..n]), old(PendingSerials(pendingIndications)),
                           pendingInd.serial, accepted)
        invariant log == old(log) + events && sendCount == |events|
        invariant NumberedIndications(indications, pendingIndications)
      {
        var conn := list[n];
        assert Serials(list[..n + 1])[..n] == Serials(list[..n]);
        if conn.connId in pendingIndications {
          continue;
        }
        if n !in accepted {
          continue;
        }
        sendCount := sendCount + 1;
        ghost var before := PendingSerials(pendingIndications);
        pendingIndications := pendingIndications[conn.connId := pendingInd];
        assert PendingSerials(pendingIndications) == before[conn.connId := pendingInd.serial];
        log := log + [Sent(pendingInd.serial, conn.connId)];
        events := events + [Sent(pendingInd.serial, conn.connId)];
      }
      assert list[..|list|] == list;
      ok := sendCount != 0;
    }

    method IndicationSentCallback(connId: int, status: int)
      requires Valid()
      modifies this`pendingIndications, this`log, indications
      ensures Valid()
      ensures var r := IndicationSent(old(Abs()), connId, status);
              Abs() == r.server && log == old(log) + r.events
    {
      if connId !in pendingIndications {
        return;
      }
      var pendingInd := pendingIndications[connId];
      assert KnownIndication(indications, pendingInd);
      ForgetPending(connId);
      if status == STATUS_SUCCESS {
        MarkSuccess(pendingInd);
      }
      InvokeIfLast(pendingInd, connId, status);
    }

    method InvokeIfLast(pendingInd: PendingIndication, connId: int, status: int)
      requires Valid() && KnownIndication(indications, pendingInd)
      modifies this`log
      ensures Valid() && Abs() == old(Abs())
      ensures log == old(log) + ConfirmEvents(Abs().pending, pendingInd.serial,
                                              Group(pendingInd.hasSuccess, pendingInd.hasCallback), connId, status)
    {
      ghost var confirmed := Confirmed(pendingInd.serial, connId, status);
      var unique := forall c :: c in pendingIndications ==> pendingIndications[c] != pendingInd;
      LastReference(indications, pendingIndications, pendingInd);
      if unique && pendingInd.hasCallback {
        log := log + [confirmed, Fired(pendingInd.serial, if pendingInd.hasSuccess then ERROR_NONE else status)];
      } else {
        log := log + [confirmed];
      }
    }

    method ForgetPending(connId: int)
      requires Valid()
      modifies this`pendingIndications
      ensures Valid() && Abs() == old(Abs()).(pending := old(Abs()).pending - {connId})
    {
      ghost var pending := PendingSerials(pendingIndications);
      pendingIndications := pendingIndications - {connId};
      assert PendingSerials(pendingIndications) == pending - {connId};
    }

    method MarkSuccess(pendingInd: PendingIndication)
      requires Valid() && KnownIndication(indications, pendingInd)
      modifies pendingInd
      ensures Valid() && pendingInd.hasSuccess
      ensures var s := old(Abs());
              Abs() == s.(groups := s.groups[pendingInd.serial := Group(true, pendingInd.hasCallback)])
    {
      ghost var s := Abs();
      pendingInd.hasSuccess := true;
      assert Groups() == s.groups[pendingInd.serial := Group(true, pendingInd.hasCallback)];
    }

    /** Any call or callback, on any server reached by them: what is proved of every run holds
        of it. */
    method Perform(step: Step)
      requires Reached()
      modifies this, conns, indications
      ensures Reached() && history == old(history) + [step]
    {
      RunSnoc(serverId, history, step);
      Dispatch(step);
      history := history + [step];
    }

    method Dispatch(step: Step)
      requires Valid()
      modifies this`connIdMap, this`connAddrMap, this`conns, this`log, this`pendingIndications, this`indications
      modifies conns, indications
      ensures Valid()
      ensures Abs() == Next(old(Abs()), step).server && log == old(log) + Next(old(Abs()), step).events
    {
      match step {
        case Connection(connId, forServer, connected, addr) => ConnectionCallback(connId, forServer, connected, addr);
        case Request(connId, requestId, addr, handle, needs) => RequestCallback(connId, requestId, addr, handle, needs);
        case Respond(device, requestId, error, offset, value, halAccepts) =>
          var _ := SendResponse(device, requestId, error, offset, value, halAccepts);
        case Notify(device, hasCallback, accepted) => var _ := SendNotification(device, hasCallback, accepted);
        case Confirm(connId, status) => IndicationSentCallback(connId, status);
      }
    }
  }

  /** shared_ptr::unique() after the erase: no other map entry refers to the object. */
  lemma LastReference(indications: seq<PendingIndication>, pending: map<int, PendingIndication>,
                                         p: PendingIndication)
    requires KnownIndication(indications, p) && NumberedIndications(indications, pending)
    ensures Unreferenced(PendingSerials(pending), p.serial) <==> forall c :: c in pending ==> pending[c] != p
  {
    forall c | c in pending ensures pending[c].serial == p.serial <==> pending[c] == p {
      assert KnownIndication(indications, pending[c]);
    }
  }
}
