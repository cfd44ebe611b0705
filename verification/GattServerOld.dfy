/** The server object of service/gatt_server_old.cc: maps and vectors updated in place by
    its API calls and by the callbacks of the stack. */
module GattServerOld {
  import opened BlobServer
  import opened Octets
  import opened Optional

  /** The attribute value handed to send_response. */
  datatype Reply = Reply(handle: nat, offset: nat, value: seq<Byte>)

  class Server {
    var uuidToAttribute: map<Uuid, nat>
    var characteristics: map<nat, Characteristic>
    var controlledBlobs: map<nat, nat>
    var pendingSvcDecl: seq<Element>
    var blobIndex: set<nat>
    var lastWrite: Uuid
    var pipe: seq<Uuid>   // attribute ids written to the notification pipe
    var serverIf: int
    var serviceHandle: nat
    var connections: set<int>
    ghost var origin: State          // since the service was added, or the server created
    ghost var history: seq<Step>

    ghost function Abs(): State
      reads this
    {
      State(uuidToAttribute, characteristics, controlledBlobs)
    }

    /** The object is in the state that its history of reads, writes and new values leads to. */
    ghost predicate Reached()
      reads this
    {
      Abs() == Steps(origin, history)
    }

    constructor ()
      ensures Abs() == State(map[], map[], map[]) && Reached() && history == []
      ensures pendingSvcDecl == [] && blobIndex == {} && pipe == [] && connections == {}
    {
      serverIf, serviceHandle, connections := 0, 0, {};
      origin, history := State(map[], map[], map[]), [];
      uuidToAttribute := map[];
      characteristics := map[];
      controlledBlobs := map[];
      pendingSvcDecl := [];
      blobIndex := {};
      lastWrite := 0;
      pipe := [];
    }

    /** operator[] of the attribute cache. */
    function Lookup(handle: nat): (ch: Characteristic)
      reads this
      ensures ch == At(Abs(), handle)
    {
      if handle in characteristics then characteristics[handle] else BLANK
    }

    method RequestReadCallback(handle: nat, offset: nat) returns (response: Reply)
      modifies this`characteristics
      ensures Abs() == Next(old(Abs()), Read(handle, offset))
      ensures response == Reply(handle, offset, Response(Latch(At(old(Abs()), handle), offset), offset))
    {
      var ch := Lookup(handle);
      if ch.nextPending && offset == 0 && ch.section == 0 {
        ch := ch.(blob := ch.next, next := ch.blob, nextPending := false);
      }
      characteristics := characteristics[handle := ch];
      var blobOffset := if |ch.blob| < ch.section * SECTION_SIZE then |ch.blob| else ch.section * SECTION_SIZE;
      var blobRemaining := |ch.blob| - blobOffset;
      var attributeSize := if SECTION_SIZE < blobRemaining then SECTION_SIZE else blobRemaining;
      ResponseIs(ch, offset, blobOffset, attributeSize);
      response := Reply(handle, offset, []);
      if offset < attributeSize {
        response := response.(value := ch.blob[blobOffset + offset..blobOffset + attributeSize]);
      }
    }

    method RequestWriteCallback(handle: nat, offset: nat, value: seq<Byte>, isPrep: bool, needsResponse: bool)
      returns (response: Option<Reply>)
      modifies this`characteristics, this`pipe, this`lastWrite
      ensures Abs() == Next(old(Abs()), Write(handle, offset, value))
      ensures var ch := At(old(Abs()), handle);
              var selects := handle in controlledBlobs && offset + |value| == 1;
              && pipe == old(pipe) + (if !selects && !isPrep then [ch.uuid] else [])
              && lastWrite == if !selects && isPrep then ch.uuid else old(lastWrite)
      ensures response == if needsResponse then Some(Reply(handle, offset, value)) else None
    {
      var ch := StoreValue(handle, offset, value);
      if handle in controlledBlobs && |ch.blob| == 1 {
        SelectSection(controlledBlobs[handle], ch.blob[0]);
      } else if !isPrep {
        pipe := pipe + [ch.uuid];
      } else {
        lastWrite := ch.uuid;
      }
      response := if needsResponse then Some(Reply(handle, offset, value)) else None;
    }

    /** The vector is resized, and the value copied into it. */
    method StoreValue(handle: nat, offset: nat, value: seq<Byte>) returns (ch: Characteristic)
      modifies this`characteristics
      ensures ch == At(old(Abs()), handle).(blob := Overwrite(At(old(Abs()), handle).blob, offset, value))
      ensures Abs() == Store(old(Abs()), handle, ch)
    {
      ch := Lookup(handle);
      ch := ch.(blob := Resize(ch.blob, offset + |value|));
      ch := ch.(blob := ch.blob[..offset] + value);
      characteristics := characteristics[handle := ch];
    }

    method SelectSection(target: nat, section: nat)
      modifies this`characteristics
      ensures Abs() == Select(old(Abs()), target, section)
    {
      characteristics := characteristics[target := Lookup(target).(section := section)];
    }

    /** The result is the connections that are sent an indication. */
    method SetCharacteristicValue(id: Uuid, value: seq<Byte>) returns (indicated: set<int>)
      modifies this`uuidToAttribute, this`characteristics
      ensures Abs() == Next(old(Abs()), Set(id, value))
      ensures var handle := if id in old(uuidToAttribute) then old(uuidToAttribute)[id] else 0;
              indicated == if At(old(Abs()), handle).notify then connections else {}
    {
      if id !in uuidToAttribute {
        uuidToAttribute := uuidToAttribute[id := 0];
      }
      var attributeId := uuidToAttribute[id];
      var ch := Lookup(attributeId);
      characteristics := characteristics[attributeId := ch.(next := value, nextPending := true)];
      assert uuidToAttribute == Next(old(Abs()), Set(id, value)).uuidToAttribute;
      indicated := if ch.notify then connections else {};
    }

    method ConnectionCallback(connId: int, connected: int)
      modifies this`connections
      ensures connections == if connected == 1 then old(connections) + {connId}
                             else if connected == 0 then old(connections) - {connId} else old(connections)
    {
      if connected == 1 {
        connections := connections + {connId};
      } else if connected == 0 {
        connections := connections - {connId};
      }
    }

    method RegisterServerCallback(server: int, appUuid: Uuid)
      modifies this`pendingSvcDecl, this`serverIf
      ensures pendingSvcDecl == old(pendingSvcDecl) + Register(appUuid).decl && serverIf == server
    {
      serverIf := server;
      pendingSvcDecl := pendingSvcDecl + [Element(ServiceKind, appUuid, 0, 0)];
    }

    method AddCharacteristic(uuid: Uuid, properties: nat)
      modifies this`pendingSvcDecl
      ensures Pending(pendingSvcDecl, blobIndex)
           == Declare(old(Pending(pendingSvcDecl, blobIndex)), Plain(uuid, properties))
    {
      pendingSvcDecl := pendingSvcDecl + [Element(CharacteristicKind, uuid, properties, 0)];
    }

    method AddBlob(uuid: Uuid, control: Uuid, properties: nat)
      modifies this`pendingSvcDecl, this`blobIndex
      ensures Pending(pendingSvcDecl, blobIndex)
           == Declare(old(Pending(pendingSvcDecl, blobIndex)), Blob(uuid, control, properties))
    {
      AddCharacteristic(uuid, properties);
      blobIndex := blobIndex + {|pendingSvcDecl|};
      AddCharacteristic(control, CONTROL_PROPERTIES);
    }

    method RecordCharacteristic(el: Element)
      modifies this`uuidToAttribute, this`characteristics
      ensures var s := old(Abs());
              Abs() == Store(s.(uuidToAttribute := s.uuidToAttribute[el.uuid := el.handle]), el.handle,
                             At(s, el.handle).(uuid := el.uuid, section := 0))
    {
      uuidToAttribute := uuidToAttribute[el.uuid := el.handle];
      characteristics := characteristics[el.handle := Lookup(el.handle).(uuid := el.uuid, section := 0)];
    }

    method AssociateControl(control: nat, value: nat, valueProperties: nat)
      modifies this`controlledBlobs, this`characteristics
      ensures Abs() == Control(old(Abs()), control, value, valueProperties)
    {
      controlledBlobs := controlledBlobs[control := value];
      characteristics := characteristics[value := Lookup(value).(notify := Notifies(valueProperties))];
      var ctrl := Lookup(control);
      ctrl := ctrl.(next := [0], nextPending := true, section := 0, notify := false);
      characteristics := characteristics[control := ctrl];
    }

    /** The loop over the returned list, with the running previous characteristic. */
    method ServiceAddedCallback(server: int, service: seq<Element>)
      requires |service| > 0
      modifies this
      ensures Abs() == AddElements(Scan(old(Abs()), 0, 0), service, old(blobIndex)).state
      ensures pendingSvcDecl == [] && blobIndex == {}
      ensures serverIf == server && serviceHandle == service[0].handle
      ensures Reached() && origin == Abs() && history == []
    {
      serverIf, serviceHandle := server, service[0].handle;
      var prevHandle, prevProperties := 0, 0;
      for i := 1 to |service|
        invariant Scan(Abs(), prevHandle, prevProperties)
               == AddElements(Scan(old(Abs()), 0, 0), service[..i], old(blobIndex))
        invariant blobIndex == old(blobIndex) && serverIf == server && serviceHandle == service[0].handle
      {
        var el := service[i];
        assert service[..i + 1][..i] == service[..i];
        if el.kind.CharacteristicKind? {
          RecordCharacteristic(el);
          if i in blobIndex {
            AssociateControl(el.handle, prevHandle, prevProperties);
          }
          prevHandle := el.handle;
          prevProperties := el.properties;
        }
      }
      assert service[..|service|] == service;
      pendingSvcDecl := [];
      blobIndex := {};
      origin, history := Abs(), [];
    }

    /** Any read, write or new value, on any server reached by them: what is proved of every run
        holds of it. */
    method Perform(step: Step, isPrep: bool, needsResponse: bool)
      requires Reached()
      modifies this
      ensures Reached() && history == old(history) + [step] && origin == old(origin)
    {
      assert (history + [step])[..|history|] == history;
      match step {
        case Read(handle, offset) => var _ := RequestReadCallback(handle, offset);
        case Write(handle, offset, value) =>
          var _ := RequestWriteCallback(handle, offset, value, isPrep, needsResponse);
        case Set(id, value) => var _ := SetCharacteristicValue(id, value);
      }
      history := history + [step];
    }
  }
}
