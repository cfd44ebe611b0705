/** Runs of the GATT server in which it does not do what it is meant to do, and the exact
    condition under which the bytes of an answer fit the attribute. */
module GattServerShortfalls {
  import opened GattServerRuns
  import opened GattServerSpec
  import opened Octets
  import opened RawAddress
  import opened Sequences

  lemma RunOne(serverId: int, step: Step)
    ensures Run(serverId, [step]).server == Next(Fresh(serverId), step).server
  {
    RunSnoc(serverId, [], step);
    assert [] + [step] == [step];
  }

  lemma RunTwo(serverId: int, a: Step, b: Step)
    ensures Run(serverId, [a, b]).server == Next(Run(serverId, [a]).server, b).server
  {
    RunSnoc(serverId, [a], b);
    assert [a] + [b] == [a, b];
  }

  /** The state after one connection: one object, in both indexes. */
  lemma OneConnection(serverId: int, id: int, a: Address, key: string)
    requires key == Print(a, true)
    ensures Run(serverId, [Connection(id, serverId, true, a)]).server
         == Server(serverId, [Conn(id, a, key, map[])], map[id := 0], map[key := [0]], map[], [])
  {
    RunOne(serverId, Connection(id, serverId, true, a));
    var none: seq<nat> := [];
    assert none + [0] == [0];
    var r := Connect(Fresh(serverId), id, a, key).server;
    assert r.objects == [Conn(id, a, key, map[])] && r.byId == map[id := 0] && r.byAddr == map[key := [0]];
  }

  // ----- A disconnect with another address -----

  /** Connecting id with address a, and then disconnecting it with b, leaves the indexes in
      disagreement: the object stays listed under a and is not known by its id. */
  lemma ForeignDisconnectBreaks(serverId: int, id: int, a: Address, b: Address)
    requires a != b
    ensures !Agree(Run(serverId, [Connection(id, serverId, true, a), Connection(id, serverId, false, b)]).server)
  {
    var first, second := Connection(id, serverId, true, a), Connection(id, serverId, false, b);
    var s := Run(serverId, [first]).server;
    OneConnection(serverId, id, a, Print(a, true));
    assert Faithful(serverId, [first]) by {
      assert [first][..0] == [];
      assert Faithful(serverId, []);
    }
    RunAgrees(serverId, [first]);
    RunKeys(serverId, [first]);
    RunWF(serverId, [first]);
    AgreeExactly(s, second);
    RunTwo(serverId, first, second);
  }

  // ----- Answers -----

  /** A connection and a request on it: the request waits on the one listed object. */
  lemma RequestWaits(serverId: int, id: int, a: Address, key: string, r: int, h: int)
    requires key == Print(a, true)
    ensures var s := Run(serverId, [Connection(id, serverId, true, a), Request(id, r, a, h, true)]).server;
            s.byAddr == map[key := [0]] && s.objects == [Conn(id, a, key, map[r := h])]
  {
    OneConnection(serverId, id, a, key);
    RunTwo(serverId, Connection(id, serverId, true, a), Request(id, r, a, h, true));
  }

  /** An address with a letter digit: the answer is sent for its upper-case form and refused
      for its lower-case form, which parses to the same address. */
  lemma LowerCaseRefused(serverId: int, id: int, a: Address, r: int, h: int)
    requires !AllDecimal(a)
    ensures var s := Run(serverId, [Connection(id, serverId, true, a), Request(id, r, a, h, true)]).server;
            && SendResponse(s, Print(a, true), r, 0, 0, [], true).ok
            && !SendResponse(s, Print(a, false), r, 0, 0, [], true).ok
    ensures Parse(Print(a, false)) == Parse(Print(a, true))
  {
    var steps := [Connection(id, serverId, true, a), Request(id, r, a, h, true)];
    var s, key := Run(serverId, steps).server, Print(a, true);
    RequestWaits(serverId, id, a, key, r, h);
    RunWF(serverId, steps);
    ParsePrint(a, true);
    ParsePrint(a, false);
    LowerCaseLookup(serverId, steps, a);
    RespondSucceedsExactly(s, key, r, 0, 0, [], true);
    assert 0 in s.byAddr[key] && Waiting(s, 0, r, h);
  }

  /** The ranges of the source's size_t (of a vector) and int. */
  predicate InRange(size: nat, offset: int) {
    size < 0x8000_0000_0000_0000 && -0x8000_0000 <= offset < 0x8000_0000
  }

  /** What the size test of SendResponse lets through. */
  lemma SizeTestPasses(size: nat, offset: int)
    requires InRange(size, offset)
    ensures UnsignedSum(size, offset) <= MAX_ATTRIBUTE_LENGTH <==> 0 <= size + offset <= MAX_ATTRIBUTE_LENGTH
  {
  }

  /** The test keeps every value within the 600 bytes of the attribute if and only if the
      offset is not negative. */
  lemma FitsExactly(offset: int)
    requires InRange(0, offset)
    ensures (forall size: nat ::
               InRange(size, offset) && UnsignedSum(size, offset) <= MAX_ATTRIBUTE_LENGTH
               ==> size <= MAX_ATTRIBUTE_LENGTH)
            <==> offset >= 0
  {
    if offset >= 0 {
      forall size: nat | InRange(size, offset) && UnsignedSum(size, offset) <= MAX_ATTRIBUTE_LENGTH
        ensures size <= MAX_ATTRIBUTE_LENGTH
      {
        SizeTestPasses(size, offset);
      }
    } else {
      var size: nat := MAX_ATTRIBUTE_LENGTH - offset;
      SizeTestPasses(size, offset);
      assert UnsignedSum(size, offset) <= MAX_ATTRIBUTE_LENGTH;
    }
  }

  /** An answer carries the caller's whole value, so with an offset that is not negative it
      fits; in general it fits unless the value is longer than the attribute, which a
      negative offset lets through up to 600 less the offset. */
  lemma AnswerFits(s: Server, device: string, r: int, error: int, offset: int, value: seq<Byte>)
    requires WF(s) && InRange(|value|, offset) && SendResponse(s, device, r, error, offset, value, true).ok
    ensures var e := SendResponse(s, device, r, error, offset, value, true).events[0];
            && (|e.response.value| <= MAX_ATTRIBUTE_LENGTH <==> e.handle == -1 || |value| <= MAX_ATTRIBUTE_LENGTH)
            && (offset >= 0 ==> |e.response.value| <= MAX_ATTRIBUTE_LENGTH)
            && |e.response.value| <= MAX_ATTRIBUTE_LENGTH - if offset < 0 then offset else 0
  {
    RespondSucceedsExactly(s, device, r, error, offset, value, true);
    SizeTestPasses(|value|, offset);
  }

  /** An answer of 700 bytes for an attribute of 600, let through by an offset of -150. */
  lemma OversizedAnswer(serverId: int, id: int, a: Address, r: int, h: int, value: seq<Byte>)
    requires |value| == 700 && h != -1
    ensures var s := Run(serverId, [Connection(id, serverId, true, a), Request(id, r, a, h, true)]).server;
            var out := SendResponse(s, Print(a, true), r, 0, -150, value, true);
            out.ok && out.events[0].response.value == value
  {
    var steps := [Connection(id, serverId, true, a), Request(id, r, a, h, true)];
    var s, key := Run(serverId, steps).server, Print(a, true);
    RequestWaits(serverId, id, a, key, r, h);
    RunWF(serverId, steps);
    ParsePrint(a, true);
    SizeTestPasses(|value|, -150);
    RespondSucceedsExactly(s, key, r, 0, -150, value, true);
    assert 0 in s.byAddr[key] && Waiting(s, 0, r, h);
  }

  // ----- A lost indication -----

  ghost function LossAndReuse(serverId: int, id: int, a: Address, key: string): seq<Step> {
    [Connection(id, serverId, true, a), Notify(key, true, {0}),
     Connection(id, serverId, false, a), Connection(id, serverId, true, a)]
  }

  /** An indication sent on a link that is then lost blocks the next link with the same id:
      no notification is sent on it, whatever the HAL would accept. */
  lemma ReusedIdBlocked(serverId: int, id: int, a: Address, hasCallback: bool, accepted: set<nat>)
    ensures var key := Print(a, true); var s := Run(serverId, LossAndReuse(serverId, id, a, key)).server;
            && |s.objects| == 2 && s.objects[1].connId == id
            && s.byId == map[id := 1] && s.byAddr == map[key := [1]]
            && !SendNotification(s, key, hasCallback, accepted).ok
  {
    var key := Print(a, true);
    StillPending(serverId, id, a, key);
    RunWF(serverId, LossAndReuse(serverId, id, a, key));
    NotifySucceedsExactly(Run(serverId, LossAndReuse(serverId, id, a, key)).server, key, hasCallback, accepted);
  }

  lemma StillPending(serverId: int, id: int, a: Address, key: string)
    requires key == Print(a, true)
    ensures var s := Run(serverId, LossAndReuse(serverId, id, a, key)).server;
            && |s.objects| == 2 && s.objects[1].connId == id
            && s.byId == map[id := 1] && s.byAddr == map[key := [1]] && s.pending == map[id := 0]
  {
    var lost := AfterLoss(serverId, id, a, key);
    RunSnoc(serverId, lost, Connection(id, serverId, true, a));
    assert LossAndReuse(serverId, id, a, key) == lost + [Connection(id, serverId, true, a)];
    Reconnected(Run(serverId, lost).server, id, a, key);
  }

  /** The indication has been sent and the link lost. */
  lemma AfterLoss(serverId: int, id: int, a: Address, key: string) returns (steps: seq<Step>)
    requires key == Print(a, true)
    ensures steps == [Connection(id, serverId, true, a), Notify(key, true, {0}), Connection(id, serverId, false, a)]
    ensures Run(serverId, steps).server
         == Server(serverId, [Conn(id, a, key, map[])], map[], map[key := []], map[id := 0], [Group(false, true)])
  {
    var sent := [Connection(id, serverId, true, a), Notify(key, true, {0})];
    steps := sent + [Connection(id, serverId, false, a)];
    AfterSend(serverId, id, a, key);
    RunSnoc(serverId, sent, Connection(id, serverId, false, a));
    Lost(Run(serverId, sent).server, id, a, key);
  }

  lemma AfterSend(serverId: int, id: int, a: Address, key: string)
    requires key == Print(a, true)
    ensures Run(serverId, [Connection(id, serverId, true, a), Notify(key, true, {0})]).server
         == Server(serverId, [Conn(id, a, key, map[])], map[id := 0], map[key := [0]],
                   map[id := 0], [Group(false, true)])
  {
    ParsePrint(a, true);
    OneConnection(serverId, id, a, key);
    RunTwo(serverId, Connection(id, serverId, true, a), Notify(key, true, {0}));
    OneSent(Run(serverId, [Connection(id, serverId, true, a)]).server, id, key);
  }

  lemma OneSent(s: Server, id: int, key: string)
    requires |s.objects| == 1 && s.objects[0].connId == id && s.byAddr == map[key := [0]] && s.pending == map[]
    requires s.groups == [] && Parse(key).Some?
    ensures Next(s, Notify(key, true, {0})).server == s.(pending := map[id := 0], groups := [Group(false, true)])
  {
    var list: seq<nat> := [0];
    assert list[..0] == [];
    assert SendLoop(s.objects, list[..0], s.pending, 0, {0}) == (map[], []);
    assert SendLoop(s.objects, list, s.pending, 0, {0}).0 == map[id := 0];
  }

  lemma Lost(s: Server, id: int, a: Address, key: string)
    requires s.objects == [Conn(id, a, key, map[])] && s.byId == map[id := 0] && s.byAddr == map[key := [0]]
    requires key == Print(a, true)
    ensures Next(s, Connection(id, s.serverId, false, a)).server == s.(byId := map[], byAddr := map[key := []])
  {
    var none: seq<nat>, list: seq<nat> := [], [0];
    assert FindConn(s.objects, list, id) == 0 && EraseAt(list, 0) == none;
    assert s.byId - {id} == map[] && s.byAddr[key := none] == map[key := none];
  }

  lemma Reconnected(s: Server, id: int, a: Address, key: string)
    requires |s.objects| == 1 && s.byId == map[] && s.byAddr == map[key := []] && key == Print(a, true)
    ensures var r := Next(s, Connection(id, s.serverId, true, a)).server;
            r.byAddr == map[key := [1]] && r.byId == map[id := 1] && r.pending == s.pending
            && |r.objects| == 2 && r.objects[1].connId == id
  {
    var none: seq<nat> := [];
    assert none + [1] == [1];
    assert s.byAddr[key := [1]] == map[key := [1]];
  }
}
