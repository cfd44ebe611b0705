/** Declaring a GATT service: AddService flattens a service into the element list the
    stack takes, and ServiceAddedCallback rebuilds a service from the list the stack
    returns (service/gatt_server.cc). */
module GattService {
  import opened Optional

  type Uuid = nat
  type Handle = h: nat | h < 0x1_0000

  datatype Descriptor = Descriptor(handle: Handle, uuid: Uuid, permissions: nat)
  datatype Characteristic = Characteristic(handle: Handle, uuid: Uuid, properties: nat, permissions: nat,
                                           descriptors: seq<Descriptor>)
  datatype Service = Service(handle: Handle, primary: bool, uuid: Uuid,
                             characteristics: seq<Characteristic>, included: seq<Service>)

  datatype Kind = PrimaryService | SecondaryService | IncludedService | CharacteristicKind | DescriptorKind

  /** btgatt_db_element_t, with the fields that the two functions use. */
  datatype Element = Element(kind: Kind, handle: Handle, uuid: Uuid, properties: nat, permissions: nat)

  // ----- Flattening -----

  function ServiceElement(s: Service): Element {
    Element(if s.primary then PrimaryService else SecondaryService, 0, s.uuid, 0, 0)
  }

  function CharacteristicElement(c: Characteristic): Element {
    Element(CharacteristicKind, 0, c.uuid, c.properties, c.permissions)
  }

  function DescriptorElement(d: Descriptor): Element {
    Element(DescriptorKind, 0, d.uuid, 0, d.permissions)
  }

  function IncludedElement(s: Service): Element {
    Element(IncludedService, s.handle, 0, 0, 0)
  }

  function FlattenDescriptors(ds: seq<Descriptor>): seq<Element> {
    seq(|ds|, i requires 0 <= i < |ds| => DescriptorElement(ds[i]))
  }

  function FlattenCharacteristics(cs: seq<Characteristic>): seq<Element> {
    if cs == [] then []
    else FlattenCharacteristics(cs[..|cs| - 1])
         + [CharacteristicElement(cs[|cs| - 1])] + FlattenDescriptors(cs[|cs| - 1].descriptors)
  }

  function FlattenIncluded(included: seq<Service>): seq<Element> {
    seq(|included|, i requires 0 <= i < |included| => IncludedElement(included[i]))
  }

  function Flatten(s: Service): (elements: seq<Element>)
    ensures |elements| > 0
  {
    [ServiceElement(s)] + FlattenCharacteristics(s.characteristics) + FlattenIncluded(s.included)
  }

  /** The loops of AddService. */
  method BuildElements(s: Service) returns (svc: seq<Element>)
    ensures svc == Flatten(s)
  {
    svc := [ServiceElement(s)];
    for i := 0 to |s.characteristics|
      invariant svc == [ServiceElement(s)] + FlattenCharacteristics(s.characteristics[..i])
    {
      var c := s.characteristics[i];
      ghost var before := svc;
      svc := svc + [CharacteristicElement(c)];
      for j := 0 to |c.descriptors|
        invariant svc == before + [CharacteristicElement(c)] + FlattenDescriptors(c.descriptors[..j])
      {
        svc := svc + [DescriptorElement(c.descriptors[j])];
      }
      assert c.descriptors[..|c.descriptors|] == c.descriptors;
      assert s.characteristics[..i + 1][..i] == s.characteristics[..i];
    }
    assert s.characteristics[..|s.characteristics|] == s.characteristics;
    ghost var before := svc;
    for i := 0 to |s.included|
      invariant svc == before + FlattenIncluded(s.included[..i])
    {
      svc := svc + [IncludedElement(s.included[i])];
    }
    assert s.included[..|s.included|] == s.included;
  }

  /** Where the element of characteristic i is, after the service element. */
  ghost function Offset(cs: seq<Characteristic>, i: nat): nat
    requires i <= |cs|
  {
    if i == 0 then 1 else Offset(cs, i - 1) + 1 + |cs[i - 1].descriptors|
  }

  lemma {:induction false} OffsetIs(cs: seq<Characteristic>, i: nat)
    requires i <= |cs|
    ensures Offset(cs, i) == 1 + |FlattenCharacteristics(cs[..i])|
  {
    if i > 0 {
      OffsetIs(cs, i - 1);
      assert cs[..i][..i - 1] == cs[..i - 1];
    }
  }

  /** The flattened list, element by element: the service with its kind; each characteristic in
      its place, followed by its descriptors in order; and last the included services, by handle. */
  lemma {:induction false} FlattenedService(s: Service)
    ensures var es := Flatten(s); var n := Offset(s.characteristics, |s.characteristics|);
            && es[0] == Element(if s.primary then PrimaryService else SecondaryService, 0, s.uuid, 0, 0)
            && |es| == n + |s.included|
            && forall k :: 0 <= k < |s.included| ==>
                 es[n + k] == Element(IncludedService, s.included[k].handle, 0, 0, 0)
  {
    OffsetIs(s.characteristics, |s.characteristics|);
    assert s.characteristics[..|s.characteristics|] == s.characteristics;
  }

  lemma {:induction false} FlattenedCharacteristic(s: Service, i: nat)
    requires i < |s.characteristics|
    ensures var es, n, c := Flatten(s), Offset(s.characteristics, i), s.characteristics[i];
            && n + |c.descriptors| < |es|
            && es[n] == Element(CharacteristicKind, 0, c.uuid, c.properties, c.permissions)
            && forall k :: 0 <= k < |c.descriptors| ==>
                 es[n + 1 + k] == Element(DescriptorKind, 0, c.descriptors[k].uuid, 0, c.descriptors[k].permissions)
  {
    var n, c := Offset(s.characteristics, i), s.characteristics[i];
    ForestElement(s.characteristics, i);
    FlattenAt(s, n - 1);
    forall k | 0 <= k < |c.descriptors|
      ensures Flatten(s)[n + 1 + k]
           == Element(DescriptorKind, 0, c.descriptors[k].uuid, 0, c.descriptors[k].permissions)
    {
      FlattenAt(s, n + k);
    }
  }

  lemma {:induction false} FlattenAt(s: Service, j: nat)
    requires j < |FlattenCharacteristics(s.characteristics)|
    ensures |Flatten(s)| == 1 + |FlattenCharacteristics(s.characteristics)| + |s.included|
    ensures Flatten(s)[1 + j] == FlattenCharacteristics(s.characteristics)[j]
  {
  }

  /** The characteristic and its descriptors stand at position n. */
  ghost predicate Stands(all: seq<Element>, n: nat, c: Characteristic) {
    && n + |c.descriptors| < |all| && all[n] == CharacteristicElement(c)
    && forall k :: 0 <= k < |c.descriptors| ==> all[n + 1 + k] == DescriptorElement(c.descriptors[k])
  }

  lemma StandsLonger(front: seq<Element>, all: seq<Element>, n: nat, c: Characteristic)
    requires Stands(front, n, c) && front <= all
    ensures Stands(all, n, c)
  {
  }

  lemma StandsLast(front: seq<Element>, c: Characteristic)
    ensures Stands(front + [CharacteristicElement(c)] + FlattenDescriptors(c.descriptors), |front|, c)
  {
  }

  lemma {:induction false} ForestElement(cs: seq<Characteristic>, i: nat)
    requires i < |cs|
    ensures Offset(cs, i) > 0 && Stands(FlattenCharacteristics(cs), Offset(cs, i) - 1, cs[i])
  {
    var last := |cs| - 1;
    var front := FlattenCharacteristics(cs[..last]);
    OffsetIs(cs, i);
    if i < last {
      ForestElement(cs[..last], i);
      OffsetIs(cs[..last], i);
      assert cs[..last][..i] == cs[..i];
      StandsLonger(front, FlattenCharacteristics(cs), Offset(cs, i) - 1, cs[i]);
    } else {
      StandsLast(front, cs[last]);
    }
  }

  // ----- Rebuilding -----

  /** Processing one element after the first.  None is back() on an empty list. */
  function AddElement(cs: seq<Characteristic>, e: Element): (r: Option<seq<Characteristic>>) {
    match e.kind
    case CharacteristicKind => Some(cs + [Characteristic(e.handle, e.uuid, e.properties, e.permissions, [])])
    case DescriptorKind =>
      if cs == [] then None
      else
        var last := cs[|cs| - 1];
        var d := Descriptor(e.handle, e.uuid, e.permissions);
        Some(cs[|cs| - 1 := last.(descriptors := last.descriptors + [d])])
    case _ => Some(cs)
  }

  function AddElements(cs: seq<Characteristic>, es: seq<Element>): (r: Option<seq<Characteristic>>) {
    if es == [] then Some(cs)
    else
      var before := AddElements(cs, es[..|es| - 1]);
      if before.None? then None else AddElement(before.value, es[|es| - 1])
  }

  function Rebuild(svc: seq<Element>): (r: Option<Service>)
    requires |svc| > 0
  {
    var cs := AddElements([], svc[1..]);
    if cs.None? then None else Some(Service(svc[0].handle, true, svc[0].uuid, cs.value, []))
  }

  /** No descriptor comes before the first characteristic. */
  ghost predicate Ordered(es: seq<Element>) {
    forall i :: 0 <= i < |es| && es[i].kind.DescriptorKind? ==>
      exists j :: 0 <= j < i && es[j].kind.CharacteristicKind?
  }

  /** The loop of ServiceAddedCallback, which appends to the last characteristic.  None when
      it takes the last of an empty list, where the source is undefined. */
  method RebuildService(svc: seq<Element>) returns (service: Option<Service>)
    requires |svc| > 0
    ensures service == Rebuild(svc)
    ensures service.Some? <==> Ordered(svc[1..])
  {
    DefinedExactly(svc[1..]);
    var characteristics: seq<Characteristic> := [];
    for i := 1 to |svc|
      invariant AddElements([], svc[1..i]) == Some(characteristics)
    {
      var curr := svc[i];
      assert svc[1..i + 1][..i - 1] == svc[1..i] && svc[1..i + 1][i - 1] == curr;
      if curr.kind.CharacteristicKind? {
        var next := Characteristic(curr.handle, curr.uuid, curr.properties, curr.permissions, []);
        characteristics := characteristics + [next];
      } else if curr.kind.DescriptorKind? {
        if characteristics == [] {
          StaysUndefined(svc[1..], i);
          assert svc[1..][..i] == svc[1..i + 1];
          return None;
        }
        var last := characteristics[|characteristics| - 1];
        characteristics := characteristics[|characteristics| - 1 :=
          last.(descriptors := last.descriptors + [Descriptor(curr.handle, curr.uuid, curr.permissions)])];
      }
    }
    assert svc[1..|svc|] == svc[1..];
    service := Some(Service(svc[0].handle, true, svc[0].uuid, characteristics, []));
  }

  lemma {:induction false} StaysUndefined(es: seq<Element>, n: nat)
    requires n <= |es|
    ensures AddElements([], es[..n]).None? ==> AddElements([], es).None?
    decreases |es| - n
  {
    if n < |es| {
      StaysUndefined(es, n + 1);
      assert es[..n + 1][..n] == es[..n];
    } else {
      assert es[..n] == es;
    }
  }

  lemma OrderedPrefix(es: seq<Element>, n: nat)
    requires Ordered(es) && n <= |es|
    ensures Ordered(es[..n])
  {
    forall i | 0 <= i < n && es[..n][i].kind.DescriptorKind?
      ensures exists j :: 0 <= j < i && es[..n][j].kind.CharacteristicKind?
    {
      var j :| 0 <= j < i && es[j].kind.CharacteristicKind?;
      assert es[..n][j].kind.CharacteristicKind?;
    }
  }

  ghost predicate HasCharacteristic(es: seq<Element>) {
    exists j :: 0 <= j < |es| && es[j].kind.CharacteristicKind?
  }

  /** Rebuilding touches the last characteristic of an empty list exactly when some
      descriptor comes before every characteristic. */
  lemma {:induction false} DefinedExactly(es: seq<Element>)
    ensures AddElements([], es).Some? <==> Ordered(es)
    ensures AddElements([], es).Some? ==> (AddElements([], es).value != [] <==> HasCharacteristic(es))
  {
    if es != [] {
      var n := |es| - 1;
      var before := es[..n];
      DefinedExactly(before);
      if Ordered(es) {
        OrderedPrefix(es, n);
      }
      assert forall j :: 0 <= j < n ==> before[j] == es[j];
      if Ordered(before) && !(es[n].kind.DescriptorKind? && !HasCharacteristic(before)) {
        forall i | 0 <= i < |es| && es[i].kind.DescriptorKind?
          ensures exists j :: 0 <= j < i && es[j].kind.CharacteristicKind?
        {
          if i < n {
            assert before[i].kind.DescriptorKind?;
            var j :| 0 <= j < i && before[j].kind.CharacteristicKind?;
            assert es[j].kind.CharacteristicKind?;
          } else {
            var j :| 0 <= j < n && before[j].kind.CharacteristicKind?;
            assert es[j].kind.CharacteristicKind?;
          }
        }
      }
    }
  }

  // ----- Round trip -----

  /** The list as the stack returns it: same elements in the same order, handles filled in. */
  ghost function WithHandles(es: seq<Element>, hs: seq<Handle>): seq<Element>
    requires |hs| == |es|
  {
    seq(|es|, i requires 0 <= i < |es| => es[i].(handle := hs[i]))
  }

  ghost function PlaceDescriptors(ds: seq<Descriptor>, hs: seq<Handle>): seq<Descriptor>
    requires |hs| == |ds|
  {
    seq(|ds|, i requires 0 <= i < |ds| => ds[i].(handle := hs[i]))
  }

  /** The forest with handles assigned in declaration order, each characteristic before
      its descriptors. */
  ghost function Place(cs: seq<Characteristic>, hs: seq<Handle>): seq<Characteristic>
    requires |hs| == |FlattenCharacteristics(cs)|
  {
    if cs == [] then []
    else
      var init, c := cs[..|cs| - 1], cs[|cs| - 1];
      var k := |FlattenCharacteristics(init)|;
      Place(init, hs[..k]) + [c.(handle := hs[k], descriptors := PlaceDescriptors(c.descriptors, hs[k + 1..]))]
  }

  lemma {:induction false} AddElementsConcat(cs: seq<Characteristic>, a: seq<Element>, b: seq<Element>)
    requires AddElements(cs, a).Some?
    ensures AddElements(cs, a + b) == AddElements(AddElements(cs, a).value, b)
  {
    if b == [] {
      assert a + b == a;
    } else {
      AddElementsConcat(cs, a, b[..|b| - 1]);
      assert (a + b)[..|a + b| - 1] == a + b[..|b| - 1];
    }
  }

  /** A run of descriptor elements extends the last characteristic, in order. */
  lemma {:induction false} DescriptorRun(cs: seq<Characteristic>, c: Characteristic, ds: seq<Descriptor>,
                                         hs: seq<Handle>)
    requires |hs| == |ds| && c.descriptors == []
    ensures AddElements(cs + [c], WithHandles(FlattenDescriptors(ds), hs))
            == Some(cs + [c.(descriptors := PlaceDescriptors(ds, hs))])
  {
    var es := WithHandles(FlattenDescriptors(ds), hs);
    if ds == [] {
      assert PlaceDescriptors(ds, hs) == c.descriptors;
    } else {
      var n := |ds| - 1;
      DescriptorRun(cs, c, ds[..n], hs[..n]);
      assert es[..n] == WithHandles(FlattenDescriptors(ds[..n]), hs[..n]);
      var before := c.(descriptors := PlaceDescriptors(ds[..n], hs[..n]));
      assert before.descriptors + [Descriptor(hs[n], ds[n].uuid, ds[n].permissions)] == PlaceDescriptors(ds, hs);
      assert (cs + [before])[|cs| := c.(descriptors := PlaceDescriptors(ds, hs))]
          == cs + [c.(descriptors := PlaceDescriptors(ds, hs))];
    }
  }

  lemma {:induction false} IncludedRun(cs: seq<Characteristic>, es: seq<Element>)
    requires forall i :: 0 <= i < |es| ==> es[i].kind.IncludedService?
    ensures AddElements(cs, es) == Some(cs)
  {
    if es != [] {
      IncludedRun(cs, es[..|es| - 1]);
    }
  }

  lemma HandlesConcat(a: seq<Element>, b: seq<Element>, hs: seq<Handle>)
    requires |hs| == |a| + |b|
    ensures WithHandles(a + b, hs) == WithHandles(a, hs[..|a|]) + WithHandles(b, hs[|a|..])
  {
  }

  /** One characteristic element followed by its descriptors adds one placed characteristic. */
  lemma OneCharacteristic(placed: seq<Characteristic>, c: Characteristic, h: Handle, hs: seq<Handle>)
    requires |hs| == |c.descriptors|
    ensures AddElements(placed, [CharacteristicElement(c).(handle := h)]
                                + WithHandles(FlattenDescriptors(c.descriptors), hs))
            == Some(placed + [c.(handle := h, descriptors := PlaceDescriptors(c.descriptors, hs))])
  {
    var head := CharacteristicElement(c).(handle := h);
    var bare := c.(handle := h, descriptors := []);
    assert AddElements(placed, [head]) == Some(placed + [bare]) by {
      assert [head][..0] == [];
    }
    AddElementsConcat(placed, [head], WithHandles(FlattenDescriptors(c.descriptors), hs));
    DescriptorRun(placed, bare, c.descriptors, hs);
  }

  lemma HeadWithHandles(head: Element, rest: seq<Element>, hs: seq<Handle>)
    requires |hs| == 1 + |rest|
    ensures WithHandles([head] + rest, hs) == [head.(handle := hs[0])] + WithHandles(rest, hs[1..])
  {
  }

  lemma {:induction false} ForestRestored(cs: seq<Characteristic>, hs: seq<Handle>)
    requires |hs| == |FlattenCharacteristics(cs)|
    ensures AddElements([], WithHandles(FlattenCharacteristics(cs), hs)) == Some(Place(cs, hs))
  {
    if cs != [] {
      var init, c := cs[..|cs| - 1], cs[|cs| - 1];
      var front := FlattenCharacteristics(init);
      var k := |front|;
      var rest := [CharacteristicElement(c)] + FlattenDescriptors(c.descriptors);
      assert FlattenCharacteristics(cs) == front + rest;
      HandlesConcat(front, rest, hs);
      ForestRestored(init, hs[..k]);
      AddElementsConcat([], WithHandles(front, hs[..k]), WithHandles(rest, hs[k..]));
      HeadWithHandles(CharacteristicElement(c), FlattenDescriptors(c.descriptors), hs[k..]);
      assert hs[k..][1..] == hs[k + 1..];
      OneCharacteristic(Place(init, hs[..k]), c, hs[k], hs[k + 1..]);
    }
  }

  lemma TailWithHandles(head: Element, a: seq<Element>, b: seq<Element>, hs: seq<Handle>)
    requires |hs| == 1 + |a| + |b|
    ensures var svc := WithHandles([head] + a + b, hs);
            && svc[0] == head.(handle := hs[0])
            && svc[1..] == WithHandles(a, hs[1..1 + |a|]) + WithHandles(b, hs[1 + |a|..])
  {
    var svc := WithHandles([head] + a + b, hs);
    var x, y := WithHandles(a, hs[1..1 + |a|]), WithHandles(b, hs[1 + |a|..]);
    forall i | 0 <= i < |a| + |b| ensures svc[1 + i] == (x + y)[i] {
      assert ([head] + a + b)[1 + i] == if i < |a| then a[i] else b[i - |a|];
    }
    assert svc[1..] == x + y;
  }

  /** Rebuilding what the stack returns for a flattened service restores the service uuid
      and the whole characteristic/descriptor forest in order, with the stack's handles.
      The rebuilt service is always primary and never has included services. */
  lemma RoundTrip(s: Service, hs: seq<Handle>)
    requires |hs| == |Flatten(s)|
    ensures var n := |FlattenCharacteristics(s.characteristics)|;
            Rebuild(WithHandles(Flatten(s), hs))
            == Some(Service(hs[0], true, s.uuid, Place(s.characteristics, hs[1..1 + n]), []))
  {
    var n := |FlattenCharacteristics(s.characteristics)|;
    var a := WithHandles(FlattenCharacteristics(s.characteristics), hs[1..1 + n]);
    var b := WithHandles(FlattenIncluded(s.included), hs[1 + n..]);
    TailWithHandles(ServiceElement(s), FlattenCharacteristics(s.characteristics), FlattenIncluded(s.included), hs);
    ForestRestored(s.characteristics, hs[1..1 + n]);
    AddElementsConcat([], a, b);
    IncludedRun(Place(s.characteristics, hs[1..1 + n]), b);
  }

  lemma FlattenedIsOrdered(s: Service, hs: seq<Handle>)
    requires |hs| == |Flatten(s)|
    ensures Ordered(WithHandles(Flatten(s), hs)[1..])
  {
    RoundTrip(s, hs);
    DefinedExactly(WithHandles(Flatten(s), hs)[1..]);
  }

  /** The handles of a forest in declaration order. */
  ghost function HandlesOf(cs: seq<Characteristic>): seq<Handle> {
    if cs == [] then []
    else
      var c := cs[|cs| - 1];
      HandlesOf(cs[..|cs| - 1]) + ([c.handle] + DescriptorHandles(c.descriptors))
  }

  ghost function DescriptorHandles(ds: seq<Descriptor>): (hs: seq<Handle>)
    ensures |hs| == |ds|
    ensures PlaceDescriptors(ds, hs) == ds
  {
    seq(|ds|, i requires 0 <= i < |ds| => ds[i].handle)
  }

  lemma {:induction false} PlaceOwnHandles(cs: seq<Characteristic>)
    ensures |HandlesOf(cs)| == |FlattenCharacteristics(cs)| && Place(cs, HandlesOf(cs)) == cs
  {
    if cs != [] {
      var init, c := cs[..|cs| - 1], cs[|cs| - 1];
      PlaceOwnHandles(init);
      var k := |FlattenCharacteristics(init)|;
      var hs := HandlesOf(cs);
      assert hs[..k] == HandlesOf(init);
      assert hs[k + 1..] == DescriptorHandles(c.descriptors);
    }
  }

  /** When the stack assigns the handles the service already carries, the callback
      reports the service itself exactly when it is primary and includes nothing. */
  lemma RestoredExactly(s: Service, hs: seq<Handle>)
    requires |hs| == |Flatten(s)|
    requires hs[..1 + |FlattenCharacteristics(s.characteristics)|] == [s.handle] + HandlesOf(s.characteristics)
    ensures Rebuild(WithHandles(Flatten(s), hs)) == Some(s) <==> s.primary && s.included == []
  {
    RoundTrip(s, hs);
    PlaceOwnHandles(s.characteristics);
    var n := |FlattenCharacteristics(s.characteristics)|;
    assert hs[1..1 + n] == hs[..1 + n][1..];
    assert ([s.handle] + HandlesOf(s.characteristics))[1..] == HandlesOf(s.characteristics);
  }
}
