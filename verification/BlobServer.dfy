/** The older GATT server (service/gatt_server_old.cc): values longer than one attribute are
    served in 512-byte sections selected through a one-byte control attribute. */
module BlobServer {
  import opened Octets

  type Uuid = nat

  const SECTION_SIZE: nat := 512

  /** blob_section is set from a byte, so a client can select 256 sections. */
  const SECTION_COUNT: nat := 256

  datatype Characteristic = Characteristic(
    uuid: Uuid, section: nat, blob: seq<Byte>, next: seq<Byte>, nextPending: bool, notify: bool)

  /** What operator[] creates for a handle it has not seen. */
  const BLANK: Characteristic := Characteristic(0, 0, [], [], false, false)

  datatype State = State(
    uuidToAttribute: map<Uuid, nat>,
    characteristics: map<nat, Characteristic>,
    controlledBlobs: map<nat, nat>)   // control attribute -> value attribute

  function At(s: State, handle: nat): Characteristic {
    if handle in s.characteristics then s.characteristics[handle] else BLANK
  }

  function Store(s: State, handle: nat, ch: Characteristic): State {
    s.(characteristics := s.characteristics[handle := ch])
  }

  // ----- Reading -----

  function Clip(n: nat, size: nat): nat {
    if n <= size then n else size
  }

  /** The section of a value: at most 512 bytes, fewer at its end, none past it. */
  function Section(blob: seq<Byte>, section: nat): (r: seq<Byte>)
    ensures |r| <= SECTION_SIZE
    decreases section
  {
    if section == 0 then blob[..Clip(SECTION_SIZE, |blob|)]
    else Section(blob[Clip(SECTION_SIZE, |blob|)..], section - 1)
  }

  /** Where it is: the arithmetic of the source. */
  lemma {:induction false} SectionAt(blob: seq<Byte>, section: nat)
    ensures Section(blob, section)
         == blob[Clip(section * SECTION_SIZE, |blob|)..Clip((section + 1) * SECTION_SIZE, |blob|)]
    decreases section
  {
    if section > 0 {
      var n := Clip(SECTION_SIZE, |blob|);
      SectionAt(blob[n..], section - 1);
      var a, b := Clip((section - 1) * SECTION_SIZE, |blob| - n), Clip(section * SECTION_SIZE, |blob| - n);
      assert blob[n..][a..b] == blob[n + a..n + b];
    }
  }

  /** A read at offset 0 of section 0 makes the pending value current. */
  function Latch(ch: Characteristic, offset: nat): Characteristic {
    if ch.nextPending && offset == 0 && ch.section == 0
    then ch.(blob := ch.next, next := ch.blob, nextPending := false)
    else ch
  }

  function Response(ch: Characteristic, offset: nat): seq<Byte> {
    var section := Section(ch.blob, ch.section);
    if offset < |section| then section[offset..] else []
  }

  /** The answer, computed as the source does: `start` and `size` are its clipped offsets. */
  lemma ResponseIs(ch: Characteristic, offset: nat, start: nat, size: nat)
    requires start == Clip(ch.section * SECTION_SIZE, |ch.blob|) && size == Clip(SECTION_SIZE, |ch.blob| - start)
    ensures Response(ch, offset) == if offset < size then ch.blob[start + offset..start + size] else []
  {
    SectionAt(ch.blob, ch.section);
    var section := Section(ch.blob, ch.section);
    assert section == ch.blob[start..start + size];
    if offset < size {
      assert ch.blob[start..start + size][offset..] == ch.blob[start + offset..start + size];
    }
  }

  // ----- Writing -----

  /** std::vector::resize: cut, or pad with zeros. */
  function Resize(s: seq<Byte>, n: nat): (r: seq<Byte>)
    ensures |r| == n
  {
    if n <= |s| then s[..n] else s + seq(n - |s|, i => 0)
  }

  function Overwrite(blob: seq<Byte>, offset: nat, value: seq<Byte>): (r: seq<Byte>)
    ensures |r| == offset + |value|
  {
    Resize(blob, offset + |value|)[..offset] + value
  }

  function WriteState(s: State, handle: nat, offset: nat, value: seq<Byte>): State {
    var blob := Overwrite(At(s, handle).blob, offset, value);
    var s1 := Store(s, handle, At(s, handle).(blob := blob));
    if handle in s.controlledBlobs && |blob| == 1 then Select(s1, s.controlledBlobs[handle], blob[0]) else s1
  }

  function Select(s: State, target: nat, section: nat): State {
    Store(s, target, At(s, target).(section := section))
  }

  function SetValue(s: State, id: Uuid, value: seq<Byte>): State {
    var handle := if id in s.uuidToAttribute then s.uuidToAttribute[id] else 0;
    Store(s.(uuidToAttribute := s.uuidToAttribute[id := handle]), handle,
          At(s, handle).(next := value, nextPending := true))
  }

  // ----- Runs -----

  datatype Step =
    | Read(handle: nat, offset: nat)
    | Write(handle: nat, offset: nat, value: seq<Byte>)
    | Set(id: Uuid, value: seq<Byte>)

  function Next(s: State, step: Step): State {
    match step
    case Read(h, offset) => Store(s, h, Latch(At(s, h), offset))
    case Write(h, offset, value) => WriteState(s, h, offset, value)
    case Set(id, value) => SetValue(s, id, value)
  }

  function Steps(s: State, steps: seq<Step>): State {
    if steps == [] then s else Next(Steps(s, steps[..|steps| - 1]), steps[|steps| - 1])
  }

  /** A step that leaves both the current value of attribute v and its section alone: no
      write to v, no write to an attribute that controls it, no fresh read of it. */
  predicate Quiet(s: State, step: Step, v: nat) {
    match step
    case Read(h, offset) => !(h == v && offset == 0 && At(s, v).section == 0)
    case Write(h, _, _) => h != v && !(h in s.controlledBlobs && s.controlledBlobs[h] == v)
    case Set(_, _) => true
  }

  predicate AllQuiet(s: State, steps: seq<Step>, v: nat) {
    steps == []
    || (AllQuiet(s, steps[..|steps| - 1], v) && Quiet(Steps(s, steps[..|steps| - 1]), steps[|steps| - 1], v))
  }

  lemma QuietStep(s: State, step: Step, v: nat)
    requires Quiet(s, step, v)
    ensures At(Next(s, step), v).blob == At(s, v).blob && At(Next(s, step), v).section == At(s, v).section
    ensures Next(s, step).controlledBlobs == s.controlledBlobs
  {
  }

  lemma {:induction false} QuietSteps(s: State, steps: seq<Step>, v: nat)
    requires AllQuiet(s, steps, v)
    ensures var r := Steps(s, steps);
            At(r, v).blob == At(s, v).blob && At(r, v).section == At(s, v).section
            && r.controlledBlobs == s.controlledBlobs
  {
    if steps != [] {
      var n := |steps| - 1;
      QuietSteps(s, steps[..n], v);
      QuietStep(Steps(s, steps[..n]), steps[n], v);
    }
  }

  // ----- Reading a section in pieces -----

  /** One read of a client: steps of others come first, and the client gets at most `take`
      bytes of what is left of the section. */
  datatype Piece = Piece(before: seq<Step>, take: nat)

  function FirstBytes(response: seq<Byte>, take: nat): seq<Byte> {
    response[..Clip(take, |response|)]
  }

  /** What one read of v at offset o gives the client, and the state it leaves. */
  function PieceData(s: State, v: nat, o: nat, piece: Piece): seq<Byte> {
    FirstBytes(Response(Latch(At(Steps(s, piece.before), v), o), o), piece.take)
  }

  function AfterPiece(s: State, v: nat, o: nat, piece: Piece): State {
    Next(Steps(s, piece.before), Read(v, o))
  }

  /** A read that happens and, like the steps before it, changes neither the value of v nor its
      section. */
  predicate Reads(s: State, r: State, v: nat, o: nat, piece: Piece, data: seq<Byte>) {
    && AllQuiet(s, piece.before, v) && Quiet(Steps(s, piece.before), Read(v, o), v)
    && r == AfterPiece(s, v, o, piece) && data == PieceData(s, v, o, piece)
  }

  /** The reads of a client, one after the other, what each gives it, and the states between. */
  datatype Reading = Reading(states: seq<State>, pieces: seq<Piece>, data: seq<seq<Byte>>)

  function Total(data: seq<seq<Byte>>, n: nat): nat
    requires n <= |data|
  {
    if n == 0 then 0 else Total(data, n - 1) + |data[n - 1]|
  }

  function Joined(data: seq<seq<Byte>>, n: nat): (r: seq<Byte>)
    requires n <= |data|
    ensures |r| == Total(data, n)
  {
    if n == 0 then [] else Joined(data, n - 1) + data[n - 1]
  }

  function All(r: Reading): seq<Byte> {
    Joined(r.data, |r.data|)
  }

  /** Read i is made at the offset where the reads before it ended. */
  ghost predicate ReadsAt(r: Reading, v: nat, o: nat, i: nat)
    requires i < |r.pieces| == |r.data| < |r.states|
  {
    Reads(r.states[i], r.states[i + 1], v, o + Total(r.data, i), r.pieces[i], r.data[i])
  }

  ghost predicate IsReading(r: Reading, s: State, v: nat, o: nat) {
    && |r.states| == |r.pieces| + 1 && |r.data| == |r.pieces| && r.states[0] == s
    && forall i: nat :: i < |r.pieces| ==> ReadsAt(r, v, o, i)
  }

  function Last(r: Reading): State
    requires |r.states| == |r.pieces| + 1
  {
    r.states[|r.pieces|]
  }

  /** Another read would give the client nothing. */
  ghost predicate ReadToEnd(r: Reading, v: nat, o: nat)
    requires |r.states| == |r.pieces| + 1
  {
    Response(At(Last(r), v), o + |All(r)|) == []
  }

  /** What is left of a section from an offset on. */
  function Rest(section: seq<Byte>, o: nat): seq<Byte> {
    section[Clip(o, |section|)..]
  }

  lemma RestOfRest(section: seq<Byte>, o: nat, data: seq<Byte>, rest: seq<Byte>)
    requires data <= Rest(section, o) && rest <= Rest(section, o + |data|)
    ensures data + rest <= Rest(section, o)
  {
    var a := Clip(o, |section|);
    assert section[a..][..|data|] == data;
    if data != [] {
      assert a == o && section[o..][|data|..] == section[o + |data|..];
      assert section[o..] == data + section[o + |data|..];
    }
  }

  function SectionOf(s: State, v: nat): seq<Byte> {
    Section(At(s, v).blob, At(s, v).section)
  }

  /** The current value of v and its section, and the associations, are the same. */
  predicate SameValue(s: State, r: State, v: nat) {
    && At(r, v).blob == At(s, v).blob && At(r, v).section == At(s, v).section
    && r.controlledBlobs == s.controlledBlobs
  }

  lemma OneRead(s: State, r: State, v: nat, o: nat, piece: Piece, data: seq<Byte>)
    requires Reads(s, r, v, o, piece, data)
    ensures SameValue(s, r, v) && data <= Rest(SectionOf(s, v), o)
  {
    QuietSteps(s, piece.before, v);
    QuietStep(Steps(s, piece.before), Read(v, o), v);
  }

  ghost predicate InPlace(data: seq<seq<Byte>>, section: seq<Byte>, o: nat, i: nat)
    requires i < |data|
  {
    data[i] <= Rest(section, o + Total(data, i))
  }

  lemma ReadNumber(r: Reading, s: State, v: nat, o: nat, i: nat)
    requires IsReading(r, s, v, o) && i < |r.pieces|
    ensures SameValue(r.states[i], r.states[i + 1], v) && InPlace(r.data, SectionOf(r.states[i], v), o, i)
  {
    assert ReadsAt(r, v, o, i);
    OneRead(r.states[i], r.states[i + 1], v, o + Total(r.data, i), r.pieces[i], r.data[i]);
  }

  /** Reading in pieces leaves the value alone. */
  lemma {:induction false} ReadingKeeps(r: Reading, s: State, v: nat, o: nat, n: nat)
    requires IsReading(r, s, v, o) && n <= |r.pieces|
    ensures SameValue(s, r.states[n], v)
  {
    if n > 0 {
      ReadingKeeps(r, s, v, o, n - 1);
      ReadNumber(r, s, v, o, n - 1);
    }
  }

  lemma SameSection(s: State, r: State, v: nat)
    requires SameValue(s, r, v)
    ensures SectionOf(r, v) == SectionOf(s, v)
  {
  }

  lemma PieceInPlace(r: Reading, s: State, v: nat, o: nat, i: nat)
    requires IsReading(r, s, v, o) && i < |r.pieces|
    ensures InPlace(r.data, SectionOf(s, v), o, i)
  {
    ReadingKeeps(r, s, v, o, i);
    SameSection(s, r.states[i], v);
    ReadNumber(r, s, v, o, i);
  }

  /** Pieces that follow each other in a section are, end to end, a prefix of what is left of it. */
  lemma {:induction false} PiecesJoin(data: seq<seq<Byte>>, section: seq<Byte>, o: nat, n: nat)
    requires n <= |data| && forall i: nat :: i < |data| ==> InPlace(data, section, o, i)
    ensures Joined(data, n) <= Rest(section, o)
  {
    if n > 0 {
      PiecesJoin(data, section, o, n - 1);
      assert InPlace(data, section, o, n - 1);
      RestOfRest(section, o, Joined(data, n - 1), data[n - 1]);
    }
  }

  /** Reading on until nothing is left gives all of the section from the first offset on. */
  lemma PiecesWhole(r: Reading, s: State, v: nat, o: nat, section: seq<Byte>)
    requires IsReading(r, s, v, o) && ReadToEnd(r, v, o) && section == SectionOf(s, v) && o <= |section|
    ensures All(r) == section[o..]
  {
    forall i: nat | i < |r.data| ensures InPlace(r.data, section, o, i) {
      PieceInPlace(r, s, v, o, i);
    }
    PiecesJoin(r.data, section, o, |r.data|);
    ReadingKeeps(r, s, v, o, |r.pieces|);
    NothingLeft(Last(r), v, o + |All(r)|, section);
  }

  lemma NothingLeft(s: State, v: nat, o: nat, section: seq<Byte>)
    requires Response(At(s, v), o) == [] && section == SectionOf(s, v)
    ensures o >= |section|
  {
  }

  // ----- Paging through a value -----

  /** How a client turns to a page: steps of others, the selection, and reads in pieces. */
  datatype Turn = Turn(beforeSelect: seq<Step>, reading: Reading)

  function Selected(s: State, c: nat, k: nat, turn: Turn): State
    requires k < SECTION_COUNT
  {
    Next(Steps(s, turn.beforeSelect), Write(c, 0, [k]))
  }

  /** Nobody disturbs the turn, and the client reads until there is nothing left to read. */
  ghost predicate GoodTurn(s: State, v: nat, c: nat, k: nat, turn: Turn)
    requires k < SECTION_COUNT
  {
    && AllQuiet(s, turn.beforeSelect, v)
    && IsReading(turn.reading, Selected(s, c, k, turn), v, 0)
    && ReadToEnd(turn.reading, v, 0)
  }

  /** Between states i and i + 1 of a session the client turns to section i + 1. */
  ghost predicate TurnsPage(states: seq<State>, v: nat, c: nat, turns: seq<Turn>, i: nat)
    requires |states| == |turns| + 1 <= SECTION_COUNT && i < |turns|
  {
    GoodTurn(states[i], v, c, i + 1, turns[i]) && states[i + 1] == Last(turns[i].reading)
  }

  /** A client pages through sections 1, 2, ... after reading section 0 left states[0]. */
  ghost predicate Session(states: seq<State>, v: nat, c: nat, turns: seq<Turn>) {
    && |states| == |turns| + 1 <= SECTION_COUNT
    && forall i: nat :: i < |turns| ==> TurnsPage(states, v, c, turns, i)
  }

  /** What the client has received after turning n pages. */
  function Received(turns: seq<Turn>, n: nat): (data: seq<Byte>)
    requires n <= |turns|
  {
    if n == 0 then [] else Received(turns, n - 1) + All(turns[n - 1].reading)
  }

  lemma SelectSection(s: State, c: nat, v: nat, k: nat)
    requires k < SECTION_COUNT && c != v && c in s.controlledBlobs && s.controlledBlobs[c] == v
    ensures var r := Next(s, Write(c, 0, [k]));
            At(r, v).blob == At(s, v).blob && At(r, v).section == k && r.controlledBlobs == s.controlledBlobs
  {
    assert Overwrite(At(s, c).blob, 0, [k]) == [k];
  }

  /** One turn gives that section of the value, and leaves the value in place. */
  lemma OnePage(s: State, v: nat, c: nat, k: nat, turn: Turn)
    requires k < SECTION_COUNT && c != v && c in s.controlledBlobs && s.controlledBlobs[c] == v
    requires GoodTurn(s, v, c, k, turn)
    ensures All(turn.reading) == Section(At(s, v).blob, k)
    ensures At(Last(turn.reading), v).blob == At(s, v).blob
    ensures Last(turn.reading).controlledBlobs == s.controlledBlobs
  {
    QuietSteps(s, turn.beforeSelect, v);
    SelectSection(Steps(s, turn.beforeSelect), c, v, k);
    var s1 := Selected(s, c, k, turn);
    ReadingKeeps(turn.reading, s1, v, 0, |turn.reading.pieces|);
    PiecesWhole(turn.reading, s1, v, 0, Section(At(s, v).blob, k));
  }

  /** Sections first, ..., limit - 1 of a value, end to end. */
  function Slice(blob: seq<Byte>, first: nat, limit: nat): seq<Byte>
    requires first <= limit
  {
    if first == limit then [] else Slice(blob, first, limit - 1) + Section(blob, limit - 1)
  }

  lemma {:induction false} SliceFront(blob: seq<Byte>, first: nat, limit: nat)
    requires first < limit
    ensures Slice(blob, first, limit) == Section(blob, first) + Slice(blob, first + 1, limit)
  {
    if first + 1 == limit {
      assert Slice(blob, first, first) == [] && Slice(blob, limit, limit) == [];
    } else {
      SliceFront(blob, first, limit - 1);
      Regroup(Section(blob, first), Slice(blob, first + 1, limit - 1), Section(blob, limit - 1));
    }
  }

  lemma Regroup(a: seq<Byte>, b: seq<Byte>, c: seq<Byte>)
    ensures a + b + c == a + (b + c)
  {
  }

  /** The first n sections are the first n * 512 bytes, or all there are. */
  lemma {:induction false} SliceIs(blob: seq<Byte>, n: nat)
    ensures Slice(blob, 0, n) == blob[..Clip(n * SECTION_SIZE, |blob|)]
  {
    if n > 0 {
      SliceIs(blob, n - 1);
      SectionAt(blob, n - 1);
      var a, b := Clip((n - 1) * SECTION_SIZE, |blob|), Clip(n * SECTION_SIZE, |blob|);
      assert blob[..a] + blob[a..b] == blob[..b];
    }
  }

  /** Turning pages leaves the value and the association of its control attribute alone. */
  lemma {:induction false} SessionKeeps(states: seq<State>, v: nat, c: nat, turns: seq<Turn>, n: nat)
    requires Session(states, v, c, turns) && n <= |turns|
    requires c != v && c in states[0].controlledBlobs && states[0].controlledBlobs[c] == v
    ensures At(states[n], v).blob == At(states[0], v).blob
    ensures states[n].controlledBlobs == states[0].controlledBlobs
  {
    if n > 0 {
      SessionKeeps(states, v, c, turns, n - 1);
      assert TurnsPage(states, v, c, turns, n - 1);
      OnePage(states[n - 1], v, c, n, turns[n - 1]);
    }
  }

  lemma PageReceived(states: seq<State>, v: nat, c: nat, turns: seq<Turn>, n: nat)
    requires Session(states, v, c, turns) && n < |turns|
    requires c != v && c in states[0].controlledBlobs && states[0].controlledBlobs[c] == v
    ensures All(turns[n].reading) == Section(At(states[0], v).blob, n + 1)
  {
    SessionKeeps(states, v, c, turns, n);
    assert TurnsPage(states, v, c, turns, n);
    OnePage(states[n], v, c, n + 1, turns[n]);
  }

  /** The pages turned are, end to end, the sections of the value the session started with. */
  lemma {:induction false} ReceivedIs(states: seq<State>, v: nat, c: nat, turns: seq<Turn>, n: nat)
    requires Session(states, v, c, turns) && n <= |turns|
    requires c != v && c in states[0].controlledBlobs && states[0].controlledBlobs[c] == v
    ensures Received(turns, n) == Slice(At(states[0], v).blob, 1, 1 + n)
  {
    if n > 0 {
      ReceivedIs(states, v, c, turns, n - 1);
      PageReceived(states, v, c, turns, n - 1);
    }
  }

  /** The value that a fresh read makes current. */
  function Latched(ch: Characteristic): seq<Byte> {
    if ch.nextPending then ch.next else ch.blob
  }

  lemma FreshRead(s: State, v: nat)
    requires At(s, v).section == 0
    ensures Response(Latch(At(s, v), 0), 0) == Section(Latched(At(s, v)), 0)
    ensures At(Next(s, Read(v, 0)), v) == Latch(At(s, v), 0) && Latch(At(s, v), 0).blob == Latched(At(s, v))
    ensures Latch(At(s, v), 0).section == 0 && Next(s, Read(v, 0)).controlledBlobs == s.controlledBlobs
  {
    assert Section(Latched(At(s, v)), 0)[0..] == Section(Latched(At(s, v)), 0);
  }

  /** How a client reads section 0: a fresh read, of which it gets at most `take` bytes, and
      the rest in pieces. */
  datatype Opening = Opening(take: nat, reading: Reading)

  function FreshBytes(s: State, v: nat, opening: Opening): seq<Byte> {
    FirstBytes(Response(Latch(At(s, v), 0), 0), opening.take)
  }

  ghost predicate GoodOpening(s: State, v: nat, opening: Opening) {
    var o := |FreshBytes(s, v, opening)|;
    IsReading(opening.reading, Next(s, Read(v, 0)), v, o) && ReadToEnd(opening.reading, v, o)
  }

  function FirstPage(s: State, v: nat, opening: Opening): seq<Byte> {
    FreshBytes(s, v, opening) + All(opening.reading)
  }

  lemma OpeningIs(s: State, v: nat, opening: Opening)
    requires At(s, v).section == 0 && GoodOpening(s, v, opening)
    ensures FirstPage(s, v, opening) == Section(Latched(At(s, v)), 0)
    ensures At(Last(opening.reading), v).blob == Latched(At(s, v))
    ensures Last(opening.reading).controlledBlobs == s.controlledBlobs
  {
    var data := FreshBytes(s, v, opening);
    var section := Section(Latched(At(s, v)), 0);
    FreshRead(s, v);
    ReadingKeeps(opening.reading, Next(s, Read(v, 0)), v, |data|, |opening.reading.pieces|);
    PiecesWhole(opening.reading, Next(s, Read(v, 0)), v, |data|, section);
    assert section == section[..|data|] + section[|data|..];
  }

  /** Snapshot paging: a fresh read, the rest of its section, and then sections 1, 2, ..., each
      read in any pieces, give the client the first sections of the value latched by that
      fresh read, whatever quiet steps (new values set, other attributes read or written) come
      in between; and that is the whole value if and only if that many sections are enough. */
  lemma {:induction false} SnapshotPaging(s: State, v: nat, c: nat, opening: Opening,
                                          turns: seq<Turn>, states: seq<State>)
    requires c != v && c in s.controlledBlobs && s.controlledBlobs[c] == v && At(s, v).section == 0
    requires GoodOpening(s, v, opening)
    requires Session(states, v, c, turns) && states[0] == Last(opening.reading)
    ensures var snapshot := Latched(At(s, v));
            var data := FirstPage(s, v, opening) + Received(turns, |turns|);
            data == snapshot[..Clip((1 + |turns|) * SECTION_SIZE, |snapshot|)]
            && (data == snapshot <==> |snapshot| <= (1 + |turns|) * SECTION_SIZE)
  {
    var snapshot, n := Latched(At(s, v)), 1 + |turns|;
    SessionData(s, v, c, opening, turns, states);
    SliceIs(snapshot, n);
    PrefixWhole(Slice(snapshot, 0, n), snapshot, n * SECTION_SIZE);
  }

  /** What the client receives, section by section. */
  lemma {:induction false} SessionData(s: State, v: nat, c: nat, opening: Opening, turns: seq<Turn>, states: seq<State>)
    requires c != v && c in s.controlledBlobs && s.controlledBlobs[c] == v && At(s, v).section == 0
    requires GoodOpening(s, v, opening)
    requires Session(states, v, c, turns) && states[0] == Last(opening.reading)
    ensures FirstPage(s, v, opening) + Received(turns, |turns|) == Slice(Latched(At(s, v)), 0, 1 + |turns|)
  {
    OpeningIs(s, v, opening);
    ReceivedIs(states, v, c, turns, |turns|);
    SliceFront(Latched(At(s, v)), 0, 1 + |turns|);
  }

  lemma PrefixWhole(data: seq<Byte>, whole: seq<Byte>, n: nat)
    requires data == whole[..Clip(n, |whole|)]
    ensures data == whole <==> |whole| <= n
  {
  }

  // ----- Values longer than 256 sections -----

  /** Section numbers come from single bytes. */
  ghost predicate SectionsAreBytes(s: State) {
    forall h :: h in s.characteristics ==> s.characteristics[h].section < SECTION_COUNT
  }

  lemma {:induction false} StepsKeepBytes(s: State, steps: seq<Step>)
    requires SectionsAreBytes(s)
    ensures SectionsAreBytes(Steps(s, steps))
  {
    if steps != [] {
      StepsKeepBytes(s, steps[..|steps| - 1]);
      StepKeepsBytes(Steps(s, steps[..|steps| - 1]), steps[|steps| - 1]);
    }
  }

  lemma StepKeepsBytes(s: State, step: Step)
    requires SectionsAreBytes(s)
    ensures SectionsAreBytes(Next(s, step))
  {
  }

  /** After any run whatever, in whatever order sections are selected and read: a response is a
      stretch of the first 131072 bytes of the value that is current then. */
  lemma ResponseWithinReach(s: State, steps: seq<Step>, v: nat, offset: nat)
    returns (from: nat, to: nat)
    requires SectionsAreBytes(s)
    ensures var ch := Latch(At(Steps(s, steps), v), offset);
            && from <= to <= |ch.blob| && to <= 131072
            && Response(ch, offset) == ch.blob[from..to]
  {
    StepsKeepBytes(s, steps);
    var ch := Latch(At(Steps(s, steps), v), offset);
    from, to := Stretch(ch, offset);
  }

  lemma Stretch(ch: Characteristic, offset: nat) returns (from: nat, to: nat)
    requires ch.section < SECTION_COUNT
    ensures from <= to <= |ch.blob| && to <= 131072 && Response(ch, offset) == ch.blob[from..to]
  {
    var a, b := Place(ch.blob, ch.section);
    to, from := b, a + Clip(offset, b - a);
    assert ch.blob[a..b][from - a..] == ch.blob[from..to];
  }

  /** A section is a stretch of the value that ends by 512 bytes for each section up to it. */
  lemma {:induction false} Place(blob: seq<Byte>, section: nat) returns (a: nat, b: nat)
    ensures a <= b <= |blob| && b <= SECTION_SIZE * (section + 1) && Section(blob, section) == blob[a..b]
    decreases section
  {
    var n := Clip(SECTION_SIZE, |blob|);
    if section == 0 {
      a, b := 0, n;
    } else {
      var x, y := Place(blob[n..], section - 1);
      a, b := n + x, n + y;
      assert blob[n..][x..y] == blob[a..b];
    }
  }

  /** So a value longer than that is returned whole by no session of pages. */
  lemma LongValueNeverWhole(s: State, v: nat, c: nat, opening: Opening,
                                               turns: seq<Turn>, states: seq<State>)
    requires c != v && c in s.controlledBlobs && s.controlledBlobs[c] == v && At(s, v).section == 0
    requires GoodOpening(s, v, opening)
    requires Session(states, v, c, turns) && states[0] == Last(opening.reading)
    requires |Latched(At(s, v))| > 131072
    ensures FirstPage(s, v, opening) + Received(turns, |turns|) != Latched(At(s, v))
  {
    SnapshotPaging(s, v, c, opening, turns, states);
  }

  /** Selecting a section and reading it in one piece. */
  function AtOnce(s: State, v: nat, c: nat, k: nat): Turn
    requires k < SECTION_COUNT
  {
    var s1, piece := Next(s, Write(c, 0, [k])), Piece([], SECTION_SIZE);
    Turn([], Reading([s1, AfterPiece(s1, v, 0, piece)], [piece], [PieceData(s1, v, 0, piece)]))
  }

  lemma AtOnceGood(s: State, v: nat, c: nat, k: nat)
    requires 0 < k < SECTION_COUNT && c != v && c in s.controlledBlobs && s.controlledBlobs[c] == v
    ensures GoodTurn(s, v, c, k, AtOnce(s, v, c, k))
  {
    var r := AtOnce(s, v, c, k).reading;
    var s1 := r.states[0];
    SelectSection(s, c, v, k);
    assert Steps(s, []) == s && Steps(s1, []) == s1;
    assert Total(r.data, 0) == 0 && Joined(r.data, 0) == [];
    assert ReadsAt(r, v, 0, 0);
    OneRead(s1, r.states[1], v, 0, r.pieces[0], r.data[0]);
    assert r.data[0] == SectionOf(s1, v);
  }

  /** A client can always turn to the next page. */
  lemma {:induction false} SessionOf(s: State, v: nat, c: nat, n: nat) returns (turns: seq<Turn>, states: seq<State>)
    requires n < SECTION_COUNT && c != v && c in s.controlledBlobs && s.controlledBlobs[c] == v
    ensures |turns| == n && Session(states, v, c, turns) && states[0] == s
  {
    if n == 0 {
      turns, states := [], [s];
    } else {
      var ts, ss := SessionOf(s, v, c, n - 1);
      SessionKeeps(ss, v, c, ts, n - 1);
      AtOnceGood(ss[n - 1], v, c, n);
      var turn := AtOnce(ss[n - 1], v, c, n);
      turns, states := ts + [turn], ss + [Last(turn.reading)];
      forall i: nat | i < n ensures TurnsPage(states, v, c, turns, i) {
        if i < n - 1 {
          assert TurnsPage(ss, v, c, ts, i);
        }
      }
    }
  }

  lemma OpenAtOnce(s: State, v: nat) returns (opening: Opening)
    requires At(s, v).section == 0
    ensures GoodOpening(s, v, opening)
  {
    opening := Opening(SECTION_SIZE, Reading([Next(s, Read(v, 0))], [], []));
    FreshRead(s, v);
    assert All(opening.reading) == [];
  }

  /** Setting a value of more than 131072 bytes, then reading it and turning every page: the
      client gets its first 131072 bytes. */
  lemma LongValueCut(s: State, id: Uuid, value: seq<Byte>, v: nat, c: nat)
    returns (opening: Opening, turns: seq<Turn>, states: seq<State>)
    requires c != v && c in s.controlledBlobs && s.controlledBlobs[c] == v && At(s, v).section == 0
    requires id in s.uuidToAttribute && s.uuidToAttribute[id] == v && |value| > 131072
    ensures GoodOpening(Next(s, Set(id, value)), v, opening)
    ensures |turns| == 255 && Session(states, v, c, turns) && states[0] == Last(opening.reading)
    ensures FirstPage(Next(s, Set(id, value)), v, opening) + Received(turns, |turns|) == value[..131072]
  {
    var s1 := Next(s, Set(id, value));
    opening := OpenAtOnce(s1, v);
    OpeningIs(s1, v, opening);
    turns, states := SessionOf(Last(opening.reading), v, c, 255);
    SnapshotPaging(s1, v, c, opening, turns, states);
    assert Latched(At(s1, v)) == value;
  }

  // ----- Writing a value in pieces -----

  /** A write keeps the bytes before its offset, padded with zeros, and ends with its value. */
  lemma OverwriteIs(blob: seq<Byte>, offset: nat, value: seq<Byte>)
    ensures var r := Overwrite(blob, offset, value);
            && r[offset..] == value
            && forall i :: 0 <= i < offset ==> r[i] == if i < |blob| then blob[i] else 0
  {
  }

  lemma WriteStores(s: State, h: nat, offset: nat, value: seq<Byte>)
    ensures At(Next(s, Write(h, offset, value)), h).blob == Overwrite(At(s, h).blob, offset, value)
  {
  }

  /** The writes of a client: states[i + 1] is left by write i, made at the offset where the
      writes before it ended, after steps of others that leave the value alone. */
  ghost predicate WritesAt(states: seq<State>, h: nat, before: seq<seq<Step>>, data: seq<seq<Byte>>, i: nat)
    requires i < |data| == |before| && |states| == |data| + 1
  {
    && AllQuiet(states[i], before[i], h)
    && states[i + 1] == Next(Steps(states[i], before[i]), Write(h, Total(data, i), data[i]))
  }

  lemma OneWrite(s: State, r: State, h: nat, before: seq<Step>, offset: nat, value: seq<Byte>)
    requires AllQuiet(s, before, h) && r == Next(Steps(s, before), Write(h, offset, value))
    ensures At(r, h).blob == Overwrite(At(s, h).blob, offset, value)
  {
    QuietSteps(s, before, h);
    WriteStores(Steps(s, before), h, offset, value);
  }

  lemma WriteNumber(states: seq<State>, h: nat, before: seq<seq<Step>>, data: seq<seq<Byte>>, i: nat)
    requires i < |data| == |before| && |states| == |data| + 1 && WritesAt(states, h, before, data, i)
    ensures At(states[i + 1], h).blob == Overwrite(At(states[i], h).blob, Total(data, i), data[i])
  {
    OneWrite(states[i], states[i + 1], h, before[i], Total(data, i), data[i]);
  }

  /** A value written in pieces at growing offsets, from 0 on, is stored whole. */
  lemma {:induction false} WrittenWhole(states: seq<State>, h: nat, before: seq<seq<Step>>,
                                        data: seq<seq<Byte>>, n: nat)
    requires |data| == |before| && |states| == |data| + 1 && 0 < n <= |data|
    requires forall i: nat :: i < |data| ==> WritesAt(states, h, before, data, i)
    ensures At(states[n], h).blob == Joined(data, n)
  {
    if n == 1 {
      NextPieceWritten(states, h, before, data, 0);
    } else {
      WrittenWhole(states, h, before, data, n - 1);
      NextPieceWritten(states, h, before, data, n - 1);
    }
  }

  lemma {:induction false} NextPieceWritten(states: seq<State>, h: nat, before: seq<seq<Step>>,
                                            data: seq<seq<Byte>>, i: nat)
    requires i < |data| == |before| && |states| == |data| + 1 && WritesAt(states, h, before, data, i)
    requires Joined(data, i) <= At(states[i], h).blob
    ensures At(states[i + 1], h).blob == Joined(data, i + 1)
  {
    WriteNumber(states, h, before, data, i);
    Appended(Joined(data, i), At(states[i], h).blob, data[i]);
  }

  lemma Appended(done: seq<Byte>, blob: seq<Byte>, value: seq<Byte>)
    requires done <= blob
    ensures Overwrite(blob, |done|, value) == done + value
  {
  }

  // ----- Declaring attributes -----

  const PROPERTY_NOTIFY: nat := 0x10

  predicate Notifies(properties: nat) {
    (properties / PROPERTY_NOTIFY) % 2 == 1
  }

  datatype Kind = ServiceKind | CharacteristicKind | DescriptorKind
  datatype Element = Element(kind: Kind, uuid: Uuid, properties: nat, handle: nat)

  /** AddCharacteristic, or AddBlob: a value attribute followed by its control attribute. */
  datatype Declaration = Plain(uuid: Uuid, properties: nat) | Blob(uuid: Uuid, control: Uuid, properties: nat)

  const CONTROL_PROPERTIES: nat := 0x2 + 0x8

  datatype Pending = Pending(decl: seq<Element>, blobIndex: set<nat>)

  function Register(appUuid: Uuid): Pending {
    Pending([Element(ServiceKind, appUuid, 0, 0)], {})
  }

  function Declare(p: Pending, d: Declaration): Pending {
    var value := Element(CharacteristicKind, d.uuid, d.properties, 0);
    match d
    case Plain(_, _) => p.(decl := p.decl + [value])
    case Blob(_, control, _) =>
      Pending(p.decl + [value, Element(CharacteristicKind, control, CONTROL_PROPERTIES, 0)],
              p.blobIndex + {|p.decl| + 1})
  }

  function DeclareAll(appUuid: Uuid, ds: seq<Declaration>): Pending {
    if ds == [] then Register(appUuid) else Declare(DeclareAll(appUuid, ds[..|ds| - 1]), ds[|ds| - 1])
  }

  /** The list the stack hands back: same order, handles filled in. */
  function WithHandles(decl: seq<Element>, hs: seq<nat>): seq<Element>
    requires |hs| == |decl|
  {
    seq(|decl|, i requires 0 <= i < |decl| => decl[i].(handle := hs[i]))
  }

  /** The loop state of ServiceAddedCallback: the server, and the previous characteristic. */
  datatype Scan = Scan(state: State, prevHandle: nat, prevProperties: nat)

  function AddElement(scan: Scan, e: Element, isBlob: bool): Scan {
    if !e.kind.CharacteristicKind? then scan
    else
      var s := scan.state;
      var s1 := Store(s.(uuidToAttribute := s.uuidToAttribute[e.uuid := e.handle]), e.handle,
                      At(s, e.handle).(uuid := e.uuid, section := 0));
      var s2 := if isBlob then Control(s1, e.handle, scan.prevHandle, scan.prevProperties) else s1;
      Scan(s2, e.handle, e.properties)
  }

  /** From here on writes to `control` select sections of `value`; until then it reads as 0. */
  function Control(s: State, control: nat, value: nat, valueProperties: nat): State {
    var s1 := s.(controlledBlobs := s.controlledBlobs[control := value]);
    var s2 := Store(s1, value, At(s1, value).(notify := Notifies(valueProperties)));
    Store(s2, control, At(s2, control).(next := [0], nextPending := true, section := 0, notify := false))
  }

  function AddElements(scan: Scan, es: seq<Element>, blobIndex: set<nat>): Scan {
    if |es| <= 1 then scan
    else AddElement(AddElements(scan, es[..|es| - 1], blobIndex), es[|es| - 1], |es| - 1 in blobIndex)
  }

  /** What the declarations ask for: each control attribute with the value declared with it. */
  ghost function Pairing(ds: seq<Declaration>, hs: seq<nat>): map<nat, nat>
    requires |hs| == |DeclareAll(0, ds).decl|
  {
    if ds == [] then map[]
    else
      var n := |DeclareAll(0, ds[..|ds| - 1]).decl|;
      var rest := Pairing(ds[..|ds| - 1], hs[..n]);
      if ds[|ds| - 1].Blob? then rest[hs[n + 1] := hs[n]] else rest
  }

  lemma {:induction false} DeclLength(appUuid: Uuid, ds: seq<Declaration>)
    ensures |DeclareAll(appUuid, ds).decl| == |DeclareAll(0, ds).decl| > 0
    ensures forall i :: i in DeclareAll(appUuid, ds).blobIndex ==> i < |DeclareAll(appUuid, ds).decl|
  {
    if ds != [] {
      DeclLength(appUuid, ds[..|ds| - 1]);
    }
  }

  /** Processing the elements of one more declaration. */
  lemma OneDeclaration(scan: Scan, es: seq<Element>, n: nat, d: Declaration, before: set<nat>,
                                          after: set<nat>)
    requires 1 <= n <= |es| && |es| == n + (if d.Blob? then 2 else 1)
    requires after == before + (if d.Blob? then {n + 1} else {}) && forall i :: i in before ==> i < n
    requires forall i :: n <= i < |es| ==> es[i].kind.CharacteristicKind?
    requires AddElements(scan, es[..n], before) == AddElements(scan, es[..n], after)
    ensures var r, s := AddElements(scan, es, after).state, AddElements(scan, es[..n], before).state;
            r.controlledBlobs
            == if d.Blob? then s.controlledBlobs[es[n + 1].handle := es[n].handle] else s.controlledBlobs
  {
    assert es[..n + 1][..n] == es[..n];
    var mid := AddElements(scan, es[..n + 1], after);
    assert mid == AddElement(AddElements(scan, es[..n], after), es[n], false);
    if d.Blob? {
      assert es[..|es| - 1] == es[..n + 1];
      assert AddElements(scan, es, after) == AddElement(mid, es[n + 1], true);
    } else {
      assert es[..n + 1] == es;
    }
  }

  lemma {:induction false} SameIndex(scan: Scan, es: seq<Element>, a: set<nat>, b: set<nat>)
    requires forall i :: 0 <= i < |es| ==> (i in a <==> i in b)
    ensures AddElements(scan, es, a) == AddElements(scan, es, b)
  {
    if |es| > 1 {
      SameIndex(scan, es[..|es| - 1], a, b);
    }
  }

  /** For any sequence of declarations, and whatever was associated before, processing the
      returned list associates each control attribute with exactly the value attribute declared
      with it, and changes no other association. */
  lemma {:induction false} ControlsPaired(appUuid: Uuid, ds: seq<Declaration>, hs: seq<nat>, scan: Scan)
    requires |hs| == |DeclareAll(appUuid, ds).decl| && |hs| == |DeclareAll(0, ds).decl|
    ensures var p := DeclareAll(appUuid, ds);
            AddElements(scan, WithHandles(p.decl, hs), p.blobIndex).state.controlledBlobs
            == scan.state.controlledBlobs + Pairing(ds, hs)
  {
    if ds != [] {
      var n := |DeclareAll(0, ds[..|ds| - 1]).decl|;
      DeclLength(appUuid, ds[..|ds| - 1]);
      ControlsPaired(appUuid, ds[..|ds| - 1], hs[..n], scan);
      LastPaired(appUuid, ds, hs, scan, n);
      if ds[|ds| - 1].Blob? {
        MergeUpdate(scan.state.controlledBlobs, Pairing(ds[..|ds| - 1], hs[..n]), hs[n + 1], hs[n]);
      }
    }
  }

  /** What the last declaration associates. */
  lemma {:induction false} LastPaired(appUuid: Uuid, ds: seq<Declaration>, hs: seq<nat>, scan: Scan, n: nat)
    requires |hs| == |DeclareAll(appUuid, ds).decl| && ds != []
    requires n == |DeclareAll(appUuid, ds[..|ds| - 1]).decl| <= |hs|
    ensures var p, q := DeclareAll(appUuid, ds), DeclareAll(appUuid, ds[..|ds| - 1]);
            var before := AddElements(scan, WithHandles(q.decl, hs[..n]), q.blobIndex).state.controlledBlobs;
            var after := AddElements(scan, WithHandles(p.decl, hs), p.blobIndex).state.controlledBlobs;
            if ds[|ds| - 1].Blob? then n + 1 < |hs| && after == before[hs[n + 1] := hs[n]] else after == before
  {
    var d := ds[|ds| - 1];
    var p, q := DeclareAll(appUuid, ds), DeclareAll(appUuid, ds[..|ds| - 1]);
    DeclLength(appUuid, ds[..|ds| - 1]);
    HandlesPrefix(q.decl, p.decl, hs);
    var es := WithHandles(p.decl, hs);
    SameIndex(scan, es[..n], q.blobIndex, p.blobIndex);
    OneDeclaration(scan, es, n, d, q.blobIndex, p.blobIndex);
  }

  lemma HandlesPrefix(decl: seq<Element>, longer: seq<Element>, hs: seq<nat>)
    requires decl <= longer && |hs| == |longer|
    ensures WithHandles(longer, hs)[..|decl|] == WithHandles(decl, hs[..|decl|])
  {
  }

  lemma MergeUpdate(m: map<nat, nat>, p: map<nat, nat>, k: nat, x: nat)
    ensures m + p[k := x] == (m + p)[k := x]
  {
  }

  /** What associating a control attribute does: the value attribute notifies if its properties
      say so, and the control attribute does not, is in section 0 and reads as a single zero. */
  lemma ControlIs(s: State, control: nat, value: nat, valueProperties: nat)
    requires control != value
    ensures var r := Control(s, control, value, valueProperties);
            && r.controlledBlobs == s.controlledBlobs[control := value]
            && (At(r, value).notify <==> (valueProperties / 16) % 2 == 1)
            && At(r, value).(notify := false) == At(s, value).(notify := false)
            && At(r, control).section == 0 && !At(r, control).notify
            && Response(Latch(At(r, control), 0), 0) == [0]
  {
  }

  /** In the loop over a returned list: when element n is the control of a blob, the attribute
      before it becomes its value, and notifies if its own properties say so. */
  lemma {:induction false} BlobProcessed(scan: Scan, es: seq<Element>, blobIndex: set<nat>, n: nat)
    requires 1 < n < |es| && n in blobIndex && n - 1 !in blobIndex && es[n].handle != es[n - 1].handle
    requires es[n].kind.CharacteristicKind? && es[n - 1].kind.CharacteristicKind?
    ensures var s := AddElements(scan, es[..n + 1], blobIndex).state; var value, control := es[n - 1], es[n];
            && control.handle in s.controlledBlobs && s.controlledBlobs[control.handle] == value.handle
            && (At(s, value.handle).notify <==> (value.properties / 16) % 2 == 1)
            && At(s, value.handle).uuid == value.uuid && At(s, control.handle).uuid == control.uuid
            && !At(s, control.handle).notify && Response(Latch(At(s, control.handle), 0), 0) == [0]
  {
    assert es[..n + 1][..n] == es[..n] && es[..n][..n - 1] == es[..n - 1];
    var before := AddElements(scan, es[..n - 1], blobIndex);
    var mid := AddElement(before, es[n - 1], false);
    assert AddElements(scan, es[..n], blobIndex) == mid;
    assert AddElements(scan, es[..n + 1], blobIndex) == AddElement(mid, es[n], true);
  }

  /** Every declared element, in its place: a characteristic with its uuid and properties, and
      after that of a blob its control, which is readable and writable. */
  lemma {:induction false} DeclaredAt(appUuid: Uuid, ds: seq<Declaration>, i: nat)
    requires i < |ds|
    ensures var decl, n := DeclareAll(appUuid, ds).decl, Position(ds, i);
            && decl[0] == Element(ServiceKind, appUuid, 0, 0)
            && 0 < n < |decl| && decl[n] == Element(CharacteristicKind, ds[i].uuid, ds[i].properties, 0)
            && (ds[i].Blob? ==> n + 1 < |decl| && decl[n + 1] == Element(CharacteristicKind, ds[i].control, 0xA, 0))
  {
    var last := |ds| - 1;
    var init := ds[..last];
    DeclLength(appUuid, init);
    FirstDeclared(appUuid, init);
    if i < last {
      DeclaredAt(appUuid, init, i);
      assert init[..i] == ds[..i];
    } else {
      assert ds[..i] == init;
    }
  }

  lemma {:induction false} FirstDeclared(appUuid: Uuid, ds: seq<Declaration>)
    ensures DeclareAll(appUuid, ds).decl != [] && DeclareAll(appUuid, ds).decl[0] == Element(ServiceKind, appUuid, 0, 0)
  {
    if ds != [] {
      FirstDeclared(appUuid, ds[..|ds| - 1]);
    }
  }

  /** Processing a list maps the uuid of every characteristic in it to its handle, unless the same
      uuid comes again, and the handle to the uuid and section 0, unless the same handle does. */
  lemma {:induction false} CharacteristicsMapped(scan: Scan, es: seq<Element>, blobIndex: set<nat>, i: nat)
    requires 0 < i < |es| && es[i].kind.CharacteristicKind?
    ensures var s := AddElements(scan, es, blobIndex).state;
            && ((forall j :: i < j < |es| ==> es[j].uuid != es[i].uuid) ==>
                  es[i].uuid in s.uuidToAttribute && s.uuidToAttribute[es[i].uuid] == es[i].handle)
            && ((forall j :: i < j < |es| ==> es[j].handle != es[i].handle) ==>
                  At(s, es[i].handle).uuid == es[i].uuid && At(s, es[i].handle).section == 0)
  {
    var n := |es| - 1;
    if i < n {
      CharacteristicsMapped(scan, es[..n], blobIndex, i);
      assert forall j :: 0 <= j < n ==> es[..n][j] == es[j];
    }
  }

  ghost predicate Distinct(hs: seq<nat>) {
    forall i, j :: 0 <= i < j < |hs| ==> hs[i] != hs[j]
  }

  /** Declaration number i starts at this position of the list. */
  ghost function Position(ds: seq<Declaration>, i: nat): nat
    requires i <= |ds|
  {
    |DeclareAll(0, ds[..i]).decl|
  }

  /** With distinct handles the pairing holds every blob of the declarations. */
  lemma {:induction false} PairingComplete(ds: seq<Declaration>, hs: seq<nat>, i: nat)
    requires |hs| == |DeclareAll(0, ds).decl| && Distinct(hs) && i < |ds| && ds[i].Blob?
    ensures var n := Position(ds, i);
            n + 1 < |hs| && hs[n + 1] in Pairing(ds, hs) && Pairing(ds, hs)[hs[n + 1]] == hs[n]
  {
    var last := |ds| - 1;
    var init := ds[..last];
    var m := |DeclareAll(0, init).decl|;
    if i < last {
      PairingComplete(init, hs[..m], i);
      assert init[..i] == ds[..i];
    } else {
      assert init == ds[..i];
    }
  }

  /** And it holds nothing else: every associated attribute is the control of some blob. */
  lemma {:induction false} PairingSound(ds: seq<Declaration>, hs: seq<nat>, c: nat) returns (i: nat)
    requires |hs| == |DeclareAll(0, ds).decl| && c in Pairing(ds, hs)
    ensures i < |ds| && ds[i].Blob? && Position(ds, i) + 1 < |hs|
    ensures c == hs[Position(ds, i) + 1] && Pairing(ds, hs)[c] == hs[Position(ds, i)]
  {
    var last := |ds| - 1;
    var init := ds[..last];
    var m := |DeclareAll(0, init).decl|;
    if ds[last].Blob? && c == hs[m + 1] {
      i := last;
    } else {
      i := PairingSound(init, hs[..m], c);
      assert init[..i] == ds[..i];
    }
  }
}
