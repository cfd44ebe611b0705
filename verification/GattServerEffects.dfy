/** What each call and callback of the GATT server brings about, field by field. */
module GattServerEffects {
  import opened GattServerRuns
  import opened GattServerSpec
  import opened Octets
  import opened RawAddress
  import opened Sequences

  // ----- Connections -----

  /** A connection callback with a new id adds one object, without requests, to both indexes,
      and leaves every other object where it was. */
  lemma ConnectExactly(s: Server, connId: int, addr: Address, o: nat)
    requires WF(s) && connId !in s.byId
    ensures var r := Next(s, Connection(connId, s.serverId, true, addr)).server;
            && r.objects == s.objects + [Conn(connId, addr, Print(addr, true), map[])]
            && r.byId == s.byId[connId := |s.objects|]
            && (Listed(r, o) <==> Listed(s, o) || o == |s.objects|)
            && r.pending == s.pending && r.groups == s.groups
  {
    var key := Print(addr, true);
    var r := Connect(s, connId, addr, key).server;
    var list := if key in s.byAddr then s.byAddr[key] else [];
    assert r.byAddr[key] == list + [|s.objects|];
    if o == |s.objects| {
      assert r.byAddr[key][|list|] == o;
    } else if o < |s.objects| {
      assert r.objects[o] == s.objects[o];
    }
  }

  /** A disconnect callback for a known connection with its own address takes that object out of
      both indexes, and no other. */
  lemma DisconnectExactly(s: Server, connId: int, addr: Address, o: nat)
    requires WF(s) && KeysPrinted(s) && Agree(s) && connId in s.byId && s.objects[s.byId[connId]].addr == addr
    ensures var r := Next(s, Connection(connId, s.serverId, false, addr)).server;
            && r.objects == s.objects && r.byId == s.byId - {connId}
            && (Listed(r, o) <==> Listed(s, o) && o != s.byId[connId])
            && r.pending == s.pending && r.groups == s.groups
  {
    assert Filed(s.objects[s.byId[connId]]);
    Unlisted(s, connId, Print(addr, true), o);
  }

  lemma Unlisted(s: Server, connId: int, key: string, o: nat)
    requires WF(s) && Agree(s) && connId in s.byId && s.objects[s.byId[connId]].key == key
    ensures var r := Disconnect(s, connId, key).server;
            && r.objects == s.objects && r.byId == s.byId - {connId}
            && (Listed(r, o) <==> Listed(s, o) && o != s.byId[connId])
            && r.pending == s.pending && r.groups == s.groups
  {
    var target, list := s.byId[connId], s.byAddr[key];
    assert Listed(s, target) && GoodList(s, key, list);
    var i := FindConn(s.objects, list, connId);
    assert i < |list| by {
      var j :| 0 <= j < |list| && list[j] == target;
      assert s.objects[list[j]].connId == connId;
    }
    assert Listed(s, list[i]);
    ErasedList(s, key, i, o);
    var r := Disconnect(s, connId, key).server;
    assert Listed(r, o) <==> Listed(s.(byAddr := r.byAddr), o);
  }

  /** A callback for another server, a second connection under a known id, and a disconnect of an
      unknown id change nothing. */
  lemma OthersIgnored(s: Server, connId: int, serverId: int, connected: bool, addr: Address)
    requires WF(s) && Agree(s)
    requires serverId != s.serverId || (connected <==> connId in s.byId)
    ensures Next(s, Connection(connId, serverId, connected, addr)).server == s
  {
    if serverId == s.serverId && !connected {
      UnknownDisconnect(s, connId, Print(addr, true));
    }
  }

  // ----- Requests -----

  /** A request that needs a response is recorded, with its handle, on the connection of its id
      exactly when that connection has the address of the request and does not use the request
      id already; any other request changes nothing. */
  lemma RequestTakenExactly(s: Server, connId: int, requestId: int, addr: Address, handle: int, needsResponse: bool)
    requires WF(s)
    ensures var out := Next(s, Request(connId, requestId, addr, handle, needsResponse));
            if needsResponse && connId in s.byId && s.objects[s.byId[connId]].addr == addr
               && requestId !in s.objects[s.byId[connId]].requests
            then
              var o := s.byId[connId];
              && out.events == [Accepted(o, requestId, handle)]
              && out.server == s.(objects := s.objects[o := s.objects[o].(
                   requests := s.objects[o].requests[requestId := handle])])
              && Waiting(out.server, o, requestId, handle)
            else out.server == s && out.events == []
  {
    if connId in s.byId {
      var o := s.byId[connId];
      SetRequestsWaiting(s, o, s.objects[o].requests[requestId := handle], o, requestId, handle);
    }
  }

  /** What an answer hands to the HAL: the handle recorded for the request, the caller's offset
      and the caller's bytes, the numbers cut to 16 bits; nothing for an execute-write. */
  lemma AnswerFields(s: Server, step: Step, i: nat)
    requires WF(s) && i < |Next(s, step).events| && Next(s, step).events[i].Answered?
    ensures var e := Next(s, step).events[i];
            && step.Respond? && e.requestId == step.requestId && e.error == step.error
            && e.connId == s.objects[e.conn].connId
            && (e.handle == -1 ==> e.response == Response(0xFFFF, 0, []))
            && (e.handle != -1 ==> e.response.value == step.value)
            && (0 <= e.handle < 0x1_0000 ==> e.response.handle == e.handle)
            && (0 <= e.handle < 0x1_0000 && 0 <= step.offset < 0x1_0000 ==> e.response.offset == step.offset)
            && (e.handle != -1 && -0x1_0000 <= step.offset < 0 ==> e.response.offset == step.offset + 0x1_0000)
  {
    AnswersMatch(s, step, i);
  }

  /** Only the answered request stops waiting. */
  lemma AnswerRemovesOne(s: Server, step: Step, i: nat, o: nat, r: int, h: int)
    requires WF(s) && step.Respond? && i < |Next(s, step).events| && Next(s, step).events[i].Answered?
    ensures var out := Next(s, step); var e := out.events[i];
            Waiting(out.server, o, r, h) <==> Waiting(s, o, r, h) && (o, r) != (e.conn, e.requestId)
  {
    var list := s.byAddr[step.device];
    assert GoodList(s, step.device, list);
    var p := list[FindRequest(s.objects, list, step.requestId)];
    SetRequestsWaiting(s, p, s.objects[p].requests - {step.requestId}, o, r, h);
  }

  // ----- Notifications -----

  /** The HAL accepts at a listed connection of this id. */
  ghost predicate Accepts(objects: seq<Conn>, list: seq<nat>, accepted: set<nat>, c: int) {
    exists i: nat :: i < |list| && i in accepted && At(objects, list[i]).connId == c
  }

  lemma {:induction false} SendLoopCovers(objects: seq<Conn>, list: seq<nat>, pending: map<int, nat>, group: nat,
                                          accepted: set<nat>, c: int)
    ensures var (p, events) := SendLoop(objects, list, pending, group, accepted);
            && (c in p <==> c in pending || Accepts(objects, list, accepted, c))
            && (c in p ==> p[c] == if c in pending then pending[c] else group)
            && multiset(events)[Sent(group, c)] == if c in p && c !in pending then 1 else 0
  {
    if list != [] {
      var n := |list| - 1;
      SendLoopCovers(objects, list[..n], pending, group, accepted, c);
      AcceptsSnoc(objects, list, accepted, c);
    }
  }

  lemma AcceptsSnoc(objects: seq<Conn>, list: seq<nat>, accepted: set<nat>, c: int)
    requires list != []
    ensures var n := |list| - 1;
            Accepts(objects, list, accepted, c)
            <==> Accepts(objects, list[..n], accepted, c) || (n in accepted && At(objects, list[n]).connId == c)
  {
    var n := |list| - 1;
    if i: nat :| i < |list| && i in accepted && At(objects, list[i]).connId == c {
      if i < n {
        assert list[..n][i] == list[i];
      }
    }
    if i: nat :| i < n && i in accepted && At(objects, list[..n][i]).connId == c {
      assert list[i] == list[..n][i];
    }
  }

  /** A notification to a listed device: it is sent once on every connection id that has nothing
      pending and at which the HAL accepts, all of which then share one new group that carries
      the caller's callback; nothing else changes. */
  lemma NotifyCovers(s: Server, device: string, hasCallback: bool, accepted: set<nat>, c: int)
    requires WF(s) && Parse(device).Some? && device in s.byAddr
    ensures var out := Next(s, Notify(device, hasCallback, accepted)); var r := out.server;
            var sent := c !in s.pending && Accepts(s.objects, s.byAddr[device], accepted, c);
            && (c in r.pending <==> c in s.pending || sent)
            && (c in s.pending ==> r.pending[c] == s.pending[c])
            && (sent ==> r.pending[c] == |s.groups|)
            && multiset(out.events)[Sent(|s.groups|, c)] == (if sent then 1 else 0)
            && r.groups == s.groups + [Group(false, hasCallback)]
            && r.objects == s.objects && r.byId == s.byId && r.byAddr == s.byAddr
  {
    SendLoopCovers(s.objects, s.byAddr[device], s.pending, |s.groups|, accepted, c);
  }

  /** And it makes no other events. */
  lemma NotifyOnlySends(s: Server, device: string, hasCallback: bool, accepted: set<nat>, i: nat)
    requires WF(s) && i < |Next(s, Notify(device, hasCallback, accepted)).events|
    ensures var e := Next(s, Notify(device, hasCallback, accepted)).events[i]; e.Sent? && e.group == |s.groups|
  {
    SendLoopOnlySends(s.objects, s.byAddr[device], s.pending, |s.groups|, accepted);
  }

  /** A confirmation: the entry goes, the group remembers a success, and if that was its last
      entry and it has a callback, the callback hears no error if some confirmation of the
      group succeeded, and otherwise the status of this last one. */
  lemma ConfirmReports(s: Server, connId: int, status: int)
    requires WF(s) && connId in s.pending
    ensures var out := Next(s, Confirm(connId, status)); var r := out.server; var g := s.pending[connId];
            var succeeded := s.groups[g].hasSuccess || status == STATUS_SUCCESS;
            var last := forall c :: c in s.pending && c != connId ==> s.pending[c] != g;
            && r.pending == s.pending - {connId}
            && r.groups == s.groups[g := Group(succeeded, s.groups[g].hasCallback)]
            && out.events == [Confirmed(g, connId, status)]
                             + (if !last || !s.groups[g].hasCallback then []
                                else if succeeded then [Fired(g, ERROR_NONE)] else [Fired(g, status)])
  {
    var g, left := s.pending[connId], s.pending - {connId};
    if Unreferenced(left, g) {
      assert forall c :: c in s.pending && c != connId ==> c in left;
    } else {
      var c :| c in left && left[c] == g;
      assert c in s.pending && c != connId && s.pending[c] == g;
    }
  }
}
