/** The A2DP output stream of audio_a2dp_hw/src/audio_a2dp_hw.cc: a six-state machine under
    one lock, which out_write releases around its socket write.  Each locked segment is one
    atomic step; the control channel and the data socket answer as they please. */
module A2dpStream {
  import opened Optional
  import opened Sequences
  import opened Words

  datatype Phase = Starting | Started | Stopping | Stopped | Suspended | Standby

  const DISCONNECTED: int := -1
  const INCALL_FAILURE: int := 2

  /** The stream fields, and (for the proofs) the data sockets that are open. */
  datatype Stream = Stream(phase: Phase, audioFd: int, presented: nat, rendered: nat, open: set<int>)

  const INITIAL: Stream := Stream(Stopped, DISCONNECTED, 0, 0, {})

  /** Answers of the outside world: what a2dp_command and skt_connect return. */
  datatype Answer = Answer(command: int, socket: int)

  predicate ValidAnswer(a: Answer) {
    a.command >= -1 && a.socket >= -1
  }

  function Disconnect(s: Stream): Stream {
    s.(audioFd := DISCONNECTED, open := if s.audioFd == DISCONNECTED then s.open else s.open - {s.audioFd})
  }

  function Connect(s: Stream, fd: int): Stream {
    s.(audioFd := fd, open := if fd < 0 then s.open else s.open + {fd})
  }

  // ----- The datapath functions; the second component is false when they return -1 -----

  function StartDatapath(s: Stream, vendorHal: bool, a: Answer): (Stream, bool) {
    if a.command < 0 || a.command == INCALL_FAILURE then (s, false)
    else
      var s1 := if s.audioFd == DISCONNECTED then Connect(s, a.socket) else s;
      if s1.audioFd < 0 && !vendorHal then (s1, false) else (s1.(phase := Started), true)
  }

  function StopDatapath(s: Stream, command: int): (Stream, bool) {
    if command < 0 then (s, false) else (Disconnect(s.(phase := Stopped)), true)
  }

  function SuspendDatapath(s: Stream, standby: bool, command: int): (Stream, bool) {
    if s.phase.Stopping? || command < 0 then (s, false)
    else (Disconnect(s.(phase := if standby then Standby else Suspended)), true)
  }

  // ----- Locked segments -----

  function AddFrames(s: Stream, frames: nat): Stream {
    s.(presented := Wrap(s.presented + frames), rendered := Wrap(s.rendered + frames))
  }

  /** out_write up to the unlock before the socket write; true when it goes on to write. */
  function WriteBegin(s: Stream, vendorHal: bool, a: Answer, frames: nat): (Stream, bool) {
    match s.phase
    case Started => (s, true)
    case Stopped =>
      var (s1, ok) := StartDatapath(s, vendorHal, a);
      if ok then (s1, true) else (AddFrames(s1, frames), false)
    case Standby =>
      var (s1, ok) := StartDatapath(s, vendorHal, a);
      if ok then (s1, true) else (AddFrames(s1, frames), false)
    case _ => (AddFrames(s, frames), false)
  }

  /** out_write after the lock is taken again. */
  function WriteEnd(s: Stream, failed: bool, frames: nat): Stream {
    if !failed then AddFrames(s, frames)
    else
      var s1 := Disconnect(s);
      AddFrames(if s.phase.Suspended? || s.phase.Stopping? then s1 else s1.(phase := Stopped), frames)
  }

  function StandbyStep(s: Stream, command: int): Stream {
    (if s.phase.Suspended? then s else SuspendDatapath(s, true, command).0).(rendered := 0)
  }

  /** out_set_parameters with at least one parameter: whether "closing" and "A2dpSuspended"
      are "true", and the answers to the stream check and to the suspend command. */
  function ParametersStep(s: Stream, closing: bool, suspend: bool, check: int, command: int): Stream {
    var s1 := if closing then s.(phase := Stopping) else s;
    if suspend then
      if s1.phase.Started? || check >= 0 then SuspendDatapath(s1, false, command).0
      else s1.(phase := Suspended)
    else if s1.phase.Suspended? then s1.(phase := Standby)
    else s1
  }

  function CloseStream(s: Stream, command: int): Stream {
    if s.phase.Started? || s.phase.Stopping? then StopDatapath(s, command).0 else s
  }

  // ----- Runs -----

  /** A write between its two locked segments: it has left the lock, or it has also read which
      data socket to write to, when `since` data sockets had been connected. */
  datatype Writer = Unlocked(frames: nat) | Sending(frames: nat, fd: int, since: nat)

  /** The stream, the writes in progress, and the number of data sockets connected so far. */
  datatype State = State(stream: Stream, writing: seq<Writer>, connects: nat, closed: bool)

  const FIRST: State := State(INITIAL, [], 0, false)

  datatype Step =
    | BeginWrite(frames: nat, answer: Answer, vendorHal: bool)   // the vendor property as looked up
    | ReadSocket(writer: nat)
    | EndWrite(writer: nat, failed: bool)
    | GoStandby(command: int)
    | SetParameters(closing: bool, suspend: bool, check: int, command: int)
    | Close(command: int)

  /** Closing frees the stream, so no write may be in progress then and nothing follows. */
  predicate Enabled(s: State, step: Step) {
    && !s.closed
    && (step.BeginWrite? ==> ValidAnswer(step.answer))
    && (step.ReadSocket? ==> step.writer < |s.writing| && s.writing[step.writer].Unlocked?)
    && (step.EndWrite? ==> step.writer < |s.writing| && s.writing[step.writer].Sending?)
    && (step.Close? ==> s.writing == [])
  }

  function Connects(n: nat, before: Stream, after: Stream): nat {
    if before.audioFd == DISCONNECTED && after.audioFd != DISCONNECTED then n + 1 else n
  }

  function Next(s: State, step: Step): State {
    match step
    case BeginWrite(frames, a, vendorHal) =>
      var (stream, writes) := WriteBegin(s.stream, vendorHal, a, frames);
      var n := Connects(s.connects, s.stream, stream);
      s.(stream := stream, writing := s.writing + (if writes then [Unlocked(frames)] else []), connects := n)
    case ReadSocket(w) =>
      if w >= |s.writing| then s
      else s.(writing := s.writing[w := Sending(s.writing[w].frames, s.stream.audioFd, s.connects)])
    case EndWrite(w, failed) =>
      if w >= |s.writing| then s
      else s.(stream := WriteEnd(s.stream, failed, s.writing[w].frames), writing := EraseAt(s.writing, w))
    case GoStandby(command) => s.(stream := StandbyStep(s.stream, command))
    case SetParameters(closing, suspend, check, command) =>
      s.(stream := ParametersStep(s.stream, closing, suspend, check, command))
    case Close(command) => s.(stream := CloseStream(s.stream, command), closed := true)
  }

  /** The state after a run, None if a step was not enabled. */
  function After(steps: seq<Step>): (r: Option<State>) {
    if steps == [] then Some(FIRST)
    else
      var before := After(steps[..|steps| - 1]);
      var step := steps[|steps| - 1];
      if before.Some? && Enabled(before.value, step) then Some(Next(before.value, step)) else None
  }

  /** Exactly the current data socket is open. */
  ghost predicate OneSocket(s: Stream) {
    s.audioFd >= -1 && s.open == if s.audioFd == DISCONNECTED then {} else {s.audioFd}
  }

  /** A write that chose its socket after the last connection uses the current one, if any. */
  ghost predicate Current(s: State, w: Writer) {
    w.Sending? ==>
      w.since <= s.connects
      && (w.since == s.connects && s.stream.audioFd != DISCONNECTED ==> w.fd == s.stream.audioFd)
  }

  ghost predicate Inv(s: State) {
    && !s.stream.phase.Starting?
    && OneSocket(s.stream)
    && (forall i :: 0 <= i < |s.writing| ==> Current(s, s.writing[i]))
  }

  predicate Connected(s: Stream) {
    s.phase.Started? ==> s.audioFd != DISCONNECTED
  }

  /** No write of the run found the vendor property on. */
  predicate VendorOff(steps: seq<Step>) {
    forall i :: 0 <= i < |steps| && steps[i].BeginWrite? ==> !steps[i].vendorHal
  }

  lemma StartKeeps(s: Stream, vendorHal: bool, a: Answer)
    requires OneSocket(s) && ValidAnswer(a) && !s.phase.Started?
    ensures var (r, ok) := StartDatapath(s, vendorHal, a);
            OneSocket(r) && r.phase == (if ok then Started else s.phase)
            && (!vendorHal && ok ==> r.audioFd != DISCONNECTED)
  {
  }

  /** A step keeps the current socket, drops it, or connects a new one. */
  lemma SocketStep(s: State, step: Step)
    requires Inv(s) && Enabled(s, step)
    ensures var r := Next(s, step);
            && r.connects >= s.connects
            && (r.stream.audioFd == DISCONNECTED || r.connects > s.connects || r.stream.audioFd == s.stream.audioFd)
            && (step.BeginWrite? || r.connects == s.connects)
  {
  }

  lemma WritersCurrent(s: State, step: Step)
    requires Inv(s) && Enabled(s, step)
    ensures var r := Next(s, step);
            forall i :: 0 <= i < |r.writing| ==> Current(r, r.writing[i])
  {
    var r := Next(s, step);
    SocketStep(s, step);
    forall i | 0 <= i < |r.writing| ensures Current(r, r.writing[i]) {
      if step.EndWrite? {
        assert r.writing[i] == s.writing[if i < step.writer then i else i + 1];
      } else if step.ReadSocket? {
        assert i != step.writer ==> r.writing[i] == s.writing[i];
      } else if i < |s.writing| {
        assert r.writing[i] == s.writing[i];
      }
    }
  }

  lemma StepInv(s: State, step: Step)
    requires Inv(s) && Enabled(s, step)
    ensures Inv(Next(s, step))
    ensures Connected(s.stream) && (step.BeginWrite? ==> !step.vendorHal) ==> Connected(Next(s, step).stream)
  {
    WritersCurrent(s, step);
    if step.BeginWrite? && (s.stream.phase.Stopped? || s.stream.phase.Standby?) {
      StartKeeps(s.stream, step.vendorHal, step.answer);
    }
  }

  /** Across all interleavings of writers with the other calls: STARTING is never visible
      while the lock is free, at most the current data socket is open, and if no write found
      the vendor property on, a started stream has its data socket connected. */
  lemma {:induction false} StreamSafe(steps: seq<Step>, s: State)
    requires After(steps) == Some(s)
    ensures Inv(s)
    ensures VendorOff(steps) ==> Connected(s.stream)
  {
    if steps != [] {
      var n := |steps| - 1;
      var before := After(steps[..n]).value;
      StreamSafe(steps[..n], before);
      StepInv(before, steps[n]);
    }
  }

  lemma ReachNext(steps: seq<Step>, s: State, step: Step)
    requires After(steps) == Some(s) && Enabled(s, step)
    ensures After(steps + [step]) == Some(Next(s, step))
  {
    assert (steps + [step])[..|steps|] == steps;
  }

  /** With the vendor property on, one write is enough to start without a data socket. */
  lemma VendorStartsDisconnected()
    ensures exists steps, s ::
      After(steps) == Some(s) && s.stream.phase.Started? && s.stream.audioFd == DISCONNECTED
  {
    var step := BeginWrite(0, Answer(0, -1), true);
    ReachNext([], FIRST, step);
    assert Next(FIRST, step).stream.phase.Started?;
  }

  /** SUSPENDED is left exactly by out_set_parameters: either A2dpSuspended is not "true"
      (whatever the parameters are), or the stream is told to close and the check says that
      the stack is still streaming. */
  lemma SuspendedLeftExactly(s: State, step: Step)
    requires s.stream.phase.Suspended? && Enabled(s, step)
    ensures !Next(s, step).stream.phase.Suspended? <==>
            step.SetParameters? && (!step.suspend || (step.closing && step.check >= 0))
  {
  }

  /** STOPPING is left exactly by a suspend request while the stack reports no stream, or by
      a successful close. */
  lemma StoppingLeftExactly(s: State, step: Step)
    requires s.stream.phase.Stopping? && Enabled(s, step)
    ensures !Next(s, step).stream.phase.Stopping? <==>
            (step.SetParameters? && step.suspend && step.check < 0) || (step.Close? && step.command >= 0)
  {
  }

  /** The start command and, if the socket is not connected, the connection succeed, or the
      vendor property makes up for the connection. */
  predicate StartSucceeds(s: Stream, step: Step)
    requires step.BeginWrite?
  {
    && step.answer.command >= 0 && step.answer.command != INCALL_FAILURE
    && (s.audioFd != DISCONNECTED || step.answer.socket >= 0 || step.vendorHal)
  }

  /** Setting parameters sends the suspend command and it succeeds: the stream is started, or the
      stack says it is streaming, and the stream is not stopping or told to close. */
  predicate SuspendSucceeds(s: Stream, step: Step)
    requires step.SetParameters?
  {
    && step.suspend && !step.closing && !s.phase.Stopping? && step.command >= 0
    && (s.phase.Started? || step.check >= 0)
  }

  /** SUSPENDED is entered exactly by a suspend request: either the suspend succeeds, or the
      stream is not (or no longer) started and the stack reports no stream. */
  lemma SuspendedEnteredExactly(s: State, step: Step)
    requires !s.stream.phase.Suspended? && Enabled(s, step)
    ensures Next(s, step).stream.phase.Suspended? <==>
            step.SetParameters? && step.suspend
            && (SuspendSucceeds(s.stream, step)
                || ((step.closing || !s.stream.phase.Started?) && step.check < 0))
  {
  }

  /** STARTED is entered exactly by a write from STOPPED or STANDBY whose start succeeds; a write
      refused in a call, or by the control channel, leaves the phase alone. */
  lemma StartedEnteredExactly(s: State, step: Step)
    requires !s.stream.phase.Started? && Enabled(s, step) && OneSocket(s.stream)
    ensures Next(s, step).stream.phase.Started? <==>
            step.BeginWrite? && (s.stream.phase.Stopped? || s.stream.phase.Standby?) && StartSucceeds(s.stream, step)
    ensures step.BeginWrite? && !Next(s, step).stream.phase.Started? ==>
            Next(s, step).stream.phase == s.stream.phase
  {
  }

  /** STANDBY is entered exactly by out_standby, unless suspended, stopping or refused, and from
      SUSPENDED by parameters that neither suspend nor close. */
  lemma StandbyEnteredExactly(s: State, step: Step)
    requires !s.stream.phase.Standby? && Enabled(s, step)
    ensures Next(s, step).stream.phase.Standby? <==>
            || (step.GoStandby? && !s.stream.phase.Suspended? && !s.stream.phase.Stopping? && step.command >= 0)
            || (step.SetParameters? && s.stream.phase.Suspended? && !step.suspend && !step.closing)
  {
  }

  /** STOPPED is entered exactly by a failed write, unless suspended or stopping, and by a close
      whose stop is sent and succeeds. */
  lemma StoppedEnteredExactly(s: State, step: Step)
    requires !s.stream.phase.Stopped? && Enabled(s, step)
    ensures Next(s, step).stream.phase.Stopped? <==>
            || (step.EndWrite? && step.failed && !s.stream.phase.Suspended? && !s.stream.phase.Stopping?)
            || (step.Close? && (s.stream.phase.Started? || s.stream.phase.Stopping?) && step.command >= 0)
  {
  }

  /** STOPPING is entered exactly by the closing parameter, unless the same call suspends while
      the stack reports no stream. */
  lemma StoppingEnteredExactly(s: State, step: Step)
    requires !s.stream.phase.Stopping? && Enabled(s, step)
    ensures Next(s, step).stream.phase.Stopping? <==>
            step.SetParameters? && step.closing && !(step.suspend && step.check < 0)
  {
  }

  /** A write goes on to the socket exactly from STARTED, or when it starts the stream. */
  lemma WriteGoesOnExactly(s: State, step: Step)
    requires step.BeginWrite? && Enabled(s, step) && OneSocket(s.stream)
    ensures var starts := (s.stream.phase.Stopped? || s.stream.phase.Standby?) && StartSucceeds(s.stream, step);
            Next(s, step).writing
            == s.writing + if s.stream.phase.Started? || starts then [Unlocked(step.frames)] else []
  {
  }

  /** The data socket is connected exactly by a write that starts, or tries to, and gets one; and
      it is dropped exactly by a failed write and by a successful standby, suspend or stop. */
  lemma SocketExactly(s: State, step: Step)
    requires Enabled(s, step) && OneSocket(s.stream)
    ensures var r, fd := Next(s, step).stream.audioFd, s.stream.audioFd;
            if fd == DISCONNECTED then
              r == if step.BeginWrite? && (s.stream.phase.Stopped? || s.stream.phase.Standby?)
                      && step.answer.command >= 0 && step.answer.command != INCALL_FAILURE
                   then step.answer.socket else DISCONNECTED
            else
              r == if || (step.EndWrite? && step.failed)
                      || (step.GoStandby? && !s.stream.phase.Suspended? && !s.stream.phase.Stopping?
                          && step.command >= 0)
                      || (step.SetParameters? && SuspendSucceeds(s.stream, step))
                      || (step.Close? && (s.stream.phase.Started? || s.stream.phase.Stopping?) && step.command >= 0)
                   then DISCONNECTED else fd
  {
  }

  /** Suspend while the stack reports no stream, resume, and write. */
  function Undo(fd: nat): seq<Step> {
    [SetParameters(false, true, -1, 0), SetParameters(false, false, 0, 0), BeginWrite(0, Answer(0, fd), false)]
  }

  /** So "closing" does not rule out later writes: whatever run led to STOPPING, the stream
      is suspended, resumed and started again by three more calls. */
  lemma ClosingUndone(steps: seq<Step>, s: State, fd: nat)
    requires After(steps) == Some(s) && s.stream.phase.Stopping? && !s.closed
    ensures After(steps + Undo(fd)).Some?
    ensures After(steps + Undo(fd)).value.stream.phase.Started?
  {
    var more := Undo(fd);
    var a := Next(s, more[0]);
    var b := Next(a, more[1]);
    StreamSafe(steps, s);
    assert a.stream.phase.Suspended? && b.stream.phase.Standby? && b.stream.audioFd >= -1;
    var _ := Three(s, steps, more);
  }

  /** The "closing" parameter takes a new stream to STOPPING. */
  lemma ClosingReached()
    ensures var steps := [SetParameters(true, false, 0, 0)];
            After(steps).Some? && After(steps).value.stream.phase.Stopping?
            && !After(steps).value.closed
  {
    ReachNext([], FIRST, SetParameters(true, false, 0, 0));
    assert [] + [SetParameters(true, false, 0, 0)] == [SetParameters(true, false, 0, 0)];
  }

  // ----- What a failed write takes down -----

  /** The current socket is another one than the write's. */
  predicate OtherSocket(s: State, w: Writer)
    requires w.Sending?
  {
    s.stream.audioFd != DISCONNECTED && (s.stream.audioFd, s.connects) != (w.fd, w.since)
  }

  /** A failed write disconnects whatever socket is current; in every reachable state that is
      a socket it did not write to exactly when one has been connected since it read which
      socket to use. */
  lemma FailedWriteExactly(steps: seq<Step>, s: State, w: nat)
    requires After(steps) == Some(s) && Enabled(s, EndWrite(w, true))
    ensures var r := Next(s, EndWrite(w, true));
            && r.stream.audioFd == DISCONNECTED && r.stream.open == {} && r.connects == s.connects
            && (s.stream.phase.Started? ==> r.stream.phase.Stopped?)
            && (OtherSocket(s, s.writing[w])
                <==> s.writing[w].since < s.connects && s.stream.audioFd != DISCONNECTED)
  {
    StreamSafe(steps, s);
    assert Current(s, s.writing[w]);
  }

  /** A write that overlaps a standby and a restart: when it fails, it closes the new socket
      and stops the new stream under the write that is using them. */
  lemma StaleWriteStops(fd1: nat, fd2: nat) returns (steps: seq<Step>, s: State)
    ensures After(steps) == Some(s) && VendorOff(steps) && Enabled(s, EndWrite(0, true))
    ensures s == State(Stream(Started, fd2, 0, 0, {fd2}), [Sending(0, fd1, 1), Sending(0, fd2, 2)], 2, false)
    ensures Next(s, EndWrite(0, true)).stream == Stream(Stopped, DISCONNECTED, 0, 0, {})
  {
    steps, s := Overlapping(fd1, fd2);
    assert s.stream.open - {s.stream.audioFd} == {};
  }

  lemma Overlapping(fd1: nat, fd2: nat) returns (steps: seq<Step>, s: State)
    ensures After(steps) == Some(s) && VendorOff(steps)
    ensures s == State(Stream(Started, fd2, 0, 0, {fd2}), [Sending(0, fd1, 1), Sending(0, fd2, 2)], 2, false)
  {
    var before, b := LeftBehind(fd1);
    var begin, read := BeginWrite(0, Answer(0, fd2), false), ReadSocket(1);
    ReachNext(before, b, begin);
    var c := Next(b, begin);
    assert c == State(Stream(Started, fd2, 0, 0, {fd2}), [Sending(0, fd1, 1), Unlocked(0)], 2, false);
    ReachNext(before + [begin], c, read);
    steps, s := before + [begin] + [read], Next(c, read);
    assert s.writing == [Sending(0, fd1, 1), Sending(0, fd2, 2)];
  }

  /** A write that has read its socket, and then a standby. */
  lemma LeftBehind(fd: nat) returns (steps: seq<Step>, s: State)
    ensures After(steps) == Some(s) && VendorOff(steps)
    ensures s == State(Stream(Standby, DISCONNECTED, 0, 0, {}), [Sending(0, fd, 1)], 1, false)
  {
    steps := [BeginWrite(0, Answer(0, fd), false), ReadSocket(0), GoStandby(0)];
    assert [] + steps == steps;
    s := Three(FIRST, [], steps);
  }

  /** A run extended by three steps. */
  lemma Three(s: State, before: seq<Step>, more: seq<Step>) returns (r: State)
    requires After(before) == Some(s) && |more| == 3
    requires Enabled(s, more[0]) && Enabled(Next(s, more[0]), more[1])
    requires Enabled(Next(Next(s, more[0]), more[1]), more[2])
    ensures r == Next(Next(Next(s, more[0]), more[1]), more[2]) && After(before + more) == Some(r)
  {
    var a := Next(s, more[0]);
    var b := Next(a, more[1]);
    ReachNext(before, s, more[0]);
    ReachNext(before + [more[0]], a, more[1]);
    ReachNext(before + [more[0]] + [more[1]], b, more[2]);
    assert before + more == before + [more[0]] + [more[1]] + [more[2]];
    r := Next(b, more[2]);
  }

  /** Closing the stream leaves its data socket open exactly when the socket is connected and
      the stop command is not sent (the stream is neither started nor stopping) or fails. */
  lemma CloseLeaksExactly(steps: seq<Step>, s: State, command: int)
    requires After(steps) == Some(s) && Enabled(s, Close(command))
    ensures Next(s, Close(command)).stream.open != {} <==>
            s.stream.audioFd != DISCONNECTED
            && ((!s.stream.phase.Started? && !s.stream.phase.Stopping?) || command < 0)
  {
    StreamSafe(steps, s);
    assert s.stream.audioFd != DISCONNECTED ==> s.stream.audioFd in s.stream.open;
  }

  /** A run that leaks: a started stream is told to close and to suspend at once while the
      stack reports no stream, and is then closed. */
  lemma LeakReachable(fd: nat)
    ensures exists steps, s :: After(steps) == Some(s) && s.closed && s.stream.open == {fd}
  {
    var steps := [BeginWrite(0, Answer(0, fd), false), ReadSocket(0), EndWrite(0, false)];
    var close := SetParameters(true, true, -1, 0);
    var b := Three(FIRST, [], steps);
    ReachNext([] + steps, b, close);
    var c := Next(b, close);
    ReachNext([] + steps + [close], c, Close(0));
    var d := Next(c, Close(0));
    assert d.closed && d.stream.open == {fd};
  }

  // ----- Frame counters -----

  function Given(step: Step): nat {
    if step.BeginWrite? then step.frames else 0
  }

  /** Frames handed to out_write by the run. */
  function FramesGiven(steps: seq<Step>): nat {
    if steps == [] then 0
    else FramesGiven(steps[..|steps| - 1]) + Given(steps[|steps| - 1])
  }

  /** Frames of the writes in progress. */
  function Sum(xs: seq<Writer>): nat {
    if xs == [] then 0 else xs[0].frames + Sum(xs[1..])
  }

  lemma {:induction false} SumSplit(xs: seq<Writer>, ys: seq<Writer>)
    ensures Sum(xs + ys) == Sum(xs) + Sum(ys)
  {
    if xs == [] {
      assert xs + ys == ys;
    } else {
      SumSplit(xs[1..], ys);
      assert (xs + ys)[1..] == xs[1..] + ys;
    }
  }

  lemma SumRemove(xs: seq<Writer>, i: nat)
    requires i < |xs|
    ensures Sum(EraseAt(xs, i)) + xs[i].frames == Sum(xs)
  {
    SumSplit(xs[..i], xs[i + 1..]);
    SumSplit(xs[..i], xs[i..]);
    assert xs == xs[..i] + xs[i..];
    assert xs[i..][1..] == xs[i + 1..];
  }

  lemma SumReplace(xs: seq<Writer>, i: nat, x: Writer)
    requires i < |xs| && x.frames == xs[i].frames
    ensures Sum(xs[i := x]) == Sum(xs)
  {
    SumRemove(xs, i);
    SumRemove(xs[i := x], i);
    assert EraseAt(xs[i := x], i) == EraseAt(xs, i);
  }

  /** Frames that a step counts: of a write that ends in its first segment, or in its second. */
  function Counted(s: State, step: Step): nat {
    if step.BeginWrite? && !WriteBegin(s.stream, step.vendorHal, step.answer, step.frames).1 then step.frames
    else if step.EndWrite? && step.writer < |s.writing| then s.writing[step.writer].frames
    else 0
  }

  /** Frames counted by the run, without wrap-around. */
  function FramesCounted(steps: seq<Step>): nat {
    if steps == [] then 0
    else
      var before, step := steps[..|steps| - 1], steps[|steps| - 1];
      var s := After(before);
      FramesCounted(before) + if s.Some? then Counted(s.value, step) else 0
  }

  /** One step moves frames from given to in flight, or from in flight to counted. */
  lemma StepFrames(s: State, step: Step)
    requires Enabled(s, step)
    ensures Counted(s, step) + Sum(Next(s, step).writing) == Sum(s.writing) + Given(step)
  {
    var r := Next(s, step);
    if step.BeginWrite? {
      var more := r.writing[|s.writing|..];
      assert r.writing == s.writing + more;
      SumSplit(s.writing, more);
      if more != [] {
        assert more[1..] == [];
      }
    } else if step.EndWrite? {
      SumRemove(s.writing, step.writer);
    } else if step.ReadSocket? {
      SumReplace(s.writing, step.writer, r.writing[step.writer]);
    }
  }

  /** The counter moves by what the step counts. */
  lemma StepCounter(s: State, step: Step)
    requires Enabled(s, step) && s.stream.presented < TWO_TO_64
    ensures Next(s, step).stream.presented == Wrap(s.stream.presented + Counted(s, step))
  {
  }

  /** What the last step of a run did to the counts. */
  lemma LastFrames(steps: seq<Step>, s: State)
    returns (before: State, given: nat, counted: nat)
    requires After(steps) == Some(s) && steps != []
    ensures After(steps[..|steps| - 1]) == Some(before)
    ensures FramesGiven(steps) == FramesGiven(steps[..|steps| - 1]) + given
    ensures FramesCounted(steps) == FramesCounted(steps[..|steps| - 1]) + counted
    ensures counted + Sum(s.writing) == Sum(before.writing) + given
    ensures before.stream.presented < TWO_TO_64 ==>
              s.stream.presented == Wrap(before.stream.presented + counted)
  {
    var step := steps[|steps| - 1];
    before := After(steps[..|steps| - 1]).value;
    given, counted := Given(step), Counted(before, step);
    StepFrames(before, step);
    if before.stream.presented < TWO_TO_64 {
      StepCounter(before, step);
    }
  }

  /** Frame conservation: over every run, each frame handed to out_write is counted exactly
      once or still in flight, whether or not it was sent. */
  lemma {:induction false} FramesConserved(steps: seq<Step>, s: State)
    requires After(steps) == Some(s)
    ensures FramesCounted(steps) + Sum(s.writing) == FramesGiven(steps)
  {
    if steps != [] {
      var before, _, _ := LastFrames(steps, s);
      FramesConserved(steps[..|steps| - 1], before);
    }
  }

  /** And the 64-bit counter of presented frames holds the frames counted, wrapping around. */
  lemma {:induction false} CounterHolds(steps: seq<Step>, s: State)
    requires After(steps) == Some(s)
    ensures s.stream.presented == Wrap(FramesCounted(steps))
  {
    if steps != [] {
      var prefix := steps[..|steps| - 1];
      var before, _, counted := LastFrames(steps, s);
      CounterHolds(prefix, before);
      WrapStep(before.stream.presented, FramesCounted(prefix), counted, s.stream.presented,
               FramesCounted(steps));
    }
  }

  /** Frames counted by the run since the last standby. */
  function FramesSinceStandby(steps: seq<Step>): nat {
    if steps == [] || steps[|steps| - 1].GoStandby? then 0
    else
      var before := After(steps[..|steps| - 1]);
      FramesSinceStandby(steps[..|steps| - 1]) + if before.Some? then Counted(before.value, steps[|steps| - 1]) else 0
  }

  /** The counter of rendered frames restarts at a standby, and only there. */
  lemma {:induction false} RenderedHolds(steps: seq<Step>, s: State)
    requires After(steps) == Some(s)
    ensures s.stream.rendered == Wrap(FramesSinceStandby(steps))
  {
    if steps != [] {
      var prefix, step := steps[..|steps| - 1], steps[|steps| - 1];
      var before := After(prefix).value;
      RenderedHolds(prefix, before);
      StepRendered(before, step);
      if !step.GoStandby? {
        WrapStep(before.stream.rendered, FramesSinceStandby(prefix), Counted(before, step), s.stream.rendered,
                 FramesSinceStandby(steps));
      }
    }
  }

  lemma StepRendered(s: State, step: Step)
    requires Enabled(s, step) && s.stream.rendered < TWO_TO_64
    ensures Next(s, step).stream.rendered
         == if step.GoStandby? then 0 else Wrap(s.stream.rendered + Counted(s, step))
  {
  }

  // ----- The calls as the source makes them -----

  class OutputStream {
    var phase: Phase
    var audioFd: int
    var framesPresented: nat
    var framesRendered: nat
    ghost var open: set<int>
    ghost var writing: seq<Writer>   // the writes in progress, each on its own thread
    ghost var connects: nat
    ghost var closed: bool
    ghost var history: seq<Step>

    ghost function Abs(): Stream
      reads this
    {
      Stream(phase, audioFd, framesPresented, framesRendered, open)
    }

    /** The object is in the state that its history of calls leads to. */
    ghost predicate Reached()
      reads this
    {
      After(history) == Some(Whole())
    }

    ghost function Whole(): State
      reads this
    {
      State(Abs(), writing, connects, closed)
    }

    constructor ()
      ensures Abs() == INITIAL && Reached() && history == []
    {
      writing, connects, closed, history := [], 0, false, [];
      phase := Stopped;
      audioFd := DISCONNECTED;
      framesPresented := 0;
      framesRendered := 0;
      open := {};
    }

    method SocketDisconnect()
      modifies this`audioFd, this`open
      ensures Abs() == Disconnect(old(Abs()))
    {
      if audioFd != DISCONNECTED {
        open := open - {audioFd};
      }
      audioFd := DISCONNECTED;
    }

    method StartAudioDatapath(vendorHal: bool, a: Answer) returns (ret: int)
      modifies this`phase, this`audioFd, this`open
      ensures (Abs(), ret == 0) == StartDatapath(old(Abs()), vendorHal, a) && (ret == 0 || ret == -1)
      ensures if ret == 0 then phase == Started else phase == old(phase)
    {
      var oldState := phase;
      phase := Starting;
      if a.command < 0 {
        phase := oldState;
        return -1;
      } else if a.command == INCALL_FAILURE {
        phase := oldState;
        return -1;
      }
      if audioFd == DISCONNECTED {
        audioFd := a.socket;
        open := if a.socket < 0 then open else open + {a.socket};
      }
      if audioFd < 0 && !vendorHal {
        phase := oldState;
        return -1;
      }
      phase := Started;
      return 0;
    }

    method StopAudioDatapath(command: int) returns (ret: int)
      modifies this`phase, this`audioFd, this`open
      ensures (Abs(), ret == 0) == StopDatapath(old(Abs()), command) && (ret == 0 || ret == -1)
      ensures ret == 0 <==> command >= 0
    {
      var oldState := phase;
      phase := Stopping;
      if command < 0 {
        phase := oldState;
        return -1;
      }
      phase := Stopped;
      SocketDisconnect();
      return 0;
    }

    method SuspendAudioDatapath(standby: bool, command: int) returns (ret: int)
      modifies this`phase, this`audioFd, this`open
      ensures (Abs(), ret == 0) == SuspendDatapath(old(Abs()), standby, command) && (ret == 0 || ret == -1)
      ensures ret == 0 <==> !old(phase).Stopping? && command >= 0
    {
      if phase.Stopping? {
        return -1;
      }
      if command < 0 {
        return -1;
      }
      phase := if standby then Standby else Suspended;
      SocketDisconnect();
      return 0;
    }

    method CountFrames(frames: nat)
      modifies this`framesPresented, this`framesRendered
      ensures Abs() == AddFrames(old(Abs()), frames)
    {
      framesRendered := Wrap(framesRendered + frames);
      framesPresented := Wrap(framesPresented + frames);
    }

    method OutWriteBegin(vendorHal: bool, a: Answer, frames: nat) returns (writes: bool)
      modifies this`phase, this`audioFd, this`open, this`framesPresented, this`framesRendered
      ensures (Abs(), writes) == WriteBegin(old(Abs()), vendorHal, a, frames)
    {
      if phase.Suspended? || phase.Stopping? {
        CountFrames(frames);
        return false;
      }
      if phase.Stopped? || phase.Standby? {
        var ret := StartAudioDatapath(vendorHal, a);
        if ret < 0 {
          CountFrames(frames);
          return false;
        }
      } else if !phase.Started? {
        CountFrames(frames);
        return false;
      }
      return true;
    }

    method OutWriteEnd(failed: bool, frames: nat)
      modifies this`phase, this`audioFd, this`open, this`framesPresented, this`framesRendered
      ensures Abs() == WriteEnd(old(Abs()), failed, frames)
    {
      if failed {
        SocketDisconnect();
        if !phase.Suspended? && !phase.Stopping? {
          phase := Stopped;
        }
      }
      CountFrames(frames);
    }

    method OutStandby(command: int) returns (ret: int)
      modifies this`phase, this`audioFd, this`open, this`framesPresented, this`framesRendered
      ensures Abs() == StandbyStep(old(Abs()), command)
      ensures ret == if old(phase).Suspended? || (!old(phase).Stopping? && command >= 0) then 0 else -1
    {
      ret := 0;
      if !phase.Suspended? {
        ret := SuspendAudioDatapath(true, command);
      }
      framesRendered := 0;
    }

    method OutSetParameters(closing: bool, suspend: bool, check: int, command: int) returns (status: int)
      modifies this`phase, this`audioFd, this`open, this`framesPresented, this`framesRendered
      ensures Abs() == ParametersStep(old(Abs()), closing, suspend, check, command)
      ensures status == 0 || status == -1
      ensures status == -1 <==> suspend && ((!closing && old(phase).Started? && command < 0)
                                            || (check >= 0 && (closing || old(phase).Stopping? || command < 0)))
    {
      status := 0;
      if closing {
        phase := Stopping;
      }
      if suspend {
        if phase.Started? {
          status := SuspendAudioDatapath(false, command);
        } else if check >= 0 {
          status := SuspendAudioDatapath(false, command);
        } else {
          phase := Suspended;
        }
      } else if phase.Suspended? {
        phase := Standby;
      }
    }

    method CloseOutputStream(command: int)
      modifies this`phase, this`audioFd, this`open, this`framesPresented, this`framesRendered
      ensures Abs() == CloseStream(old(Abs()), command)
    {
      if phase.Started? || phase.Stopping? {
        var _ := StopAudioDatapath(command);
      }
    }

    /** Any call, on any stream reached by calls: what is proved of every run holds of it.
        `frames` is what the thread that ends a write remembers of it. */
    method Perform(step: Step, frames: nat)
      requires Reached() && Enabled(Whole(), step)
      requires step.EndWrite? ==> frames == writing[step.writer].frames
      modifies this
      ensures Reached() && history == old(history) + [step]
    {
      ReachNext(history, Whole(), step);
      Dispatch(step, frames);
      history := history + [step];
    }

    method Dispatch(step: Step, frames: nat)
      requires Enabled(Whole(), step)
      requires step.EndWrite? ==> frames == writing[step.writer].frames
      modifies this`phase, this`audioFd, this`open, this`framesPresented, this`framesRendered
      modifies this`writing, this`connects, this`closed
      ensures Whole() == Next(old(Whole()), step)
    {
      match step {
        case BeginWrite(given, a, vendorHal) => BeginWriting(given, a, vendorHal);
        case ReadSocket(w) => writing := writing[w := Sending(writing[w].frames, audioFd, connects)];
        case EndWrite(w, failed) =>
          OutWriteEnd(failed, frames);
          writing := EraseAt(writing, w);
        case GoStandby(command) => var _ := OutStandby(command);
        case SetParameters(closing, suspend, check, command) =>
          var _ := OutSetParameters(closing, suspend, check, command);
        case Close(command) =>
          CloseOutputStream(command);
          closed := true;
      }
    }

    method BeginWriting(frames: nat, a: Answer, vendorHal: bool)
      modifies this`phase, this`audioFd, this`open, this`framesPresented, this`framesRendered
      modifies this`writing, this`connects
      ensures Whole() == Next(old(Whole()), BeginWrite(frames, a, vendorHal))
    {
      ghost var before := Abs();
      var writes := OutWriteBegin(vendorHal, a, frames);
      connects := Connects(connects, before, Abs());
      writing := writing + if writes then [Unlocked(frames)] else [];
    }
  }
}
