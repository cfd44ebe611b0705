/** The one-outstanding-command protocol between the Bluetooth audio HAL and the stack
    (audio_hal_interface/aidl/a2dp_encoding.cc and client_interface.cc).  The pending command
    has no lock in the source; every entry point is one atomic step here. */
module AidlCommands {

  datatype Command = NoCommand | StartCommand | SuspendCommand | StopCommand

  /** tA2DP_CTRL_ACK, what the stack reports. */
  datatype StackAck =
    | AckSuccess | AckFailure | AckIncallFailure | AckDisconnectInProgress | AckPreviousCommandPending
    | AckUnsupported | AckPending | AckLongWait | AckUnknown | AckStreamSuspended | AckShortWait

  datatype CtrlAck =
    | SuccessFinished | SuccessReconfiguration | PendingAck | FailureUnsupported | FailureBusy
    | FailureDisconnecting | FailureAck

  datatype HalStatus = Success | UnsupportedCodecConfiguration | Reconfiguration | Failure

  function ToCtrlAck(ack: StackAck): (r: CtrlAck)
    ensures r.PendingAck? <==> ack.AckPending?
    ensures r.SuccessFinished? <==> ack.AckSuccess?
  {
    match ack
    case AckSuccess => SuccessFinished
    case AckPending => PendingAck
    case AckIncallFailure => FailureBusy
    case AckDisconnectInProgress => FailureUnsupported
    case AckUnsupported => FailureUnsupported
    case _ => FailureAck
  }

  function ToHalStatus(ack: CtrlAck): (r: HalStatus)
    ensures r.Success? <==> ack.SuccessFinished?
  {
    match ack
    case SuccessFinished => Success
    case FailureUnsupported => UnsupportedCodecConfiguration
    case SuccessReconfiguration => Reconfiguration
    case _ => Failure
  }

  /** What can be seen from outside: commands handed to the stack, statuses handed to the
      HAL, and how an outstanding command ends. */
  datatype Event =
    | Dispatched(command: Command)
    | Rejected(command: Command, status: HalStatus)   // answered at once, stack busy
    | Forwarded(command: Command, status: HalStatus)  // a stack ack passed on to the HAL
    | Settled(command: Command, provider: bool)       // ended by a final ack of its own kind
    | Dropped(command: Command)                       // forgotten by a reset

  datatype State = State(pending: Command, enabled: bool, provider: bool)

  datatype Step =
    | StartRequest | SuspendRequest | StopRequest        // from the HAL
    | AckStarted(ack: StackAck) | AckSuspended(ack: StackAck)   // from the stack
    | EndSession | ResetPending | Cleanup
    | Initialize(available: bool, valid: bool)           // the HAL may be disabled or missing, or invalid
    | ProviderChange(provider: bool)                     // the HAL process dies or returns

  datatype Outcome = Outcome(state: State, events: seq<Event>)

  /** StartRequest and SuspendRequest, as called by startStream and suspendStream, which pass
      any answer but "pending" straight back to the HAL. */
  function RequestStep(s: State, command: Command): Outcome {
    if s.pending == command then Outcome(s, [])
    else if s.pending != NoCommand then Outcome(s, [Rejected(command, ToHalStatus(FailureAck))])
    else Outcome(s.(pending := command), [Dispatched(command)])
  }

  /** StreamStarted or StreamSuspended: forwarded unless pending or without a provider. */
  function Forward(s: State, command: Command, ack: CtrlAck): seq<Event> {
    if !s.provider || ack.PendingAck? then [] else [Forwarded(command, ToHalStatus(ack))]
  }

  function Settle(s: State, ack: CtrlAck, forwarded: seq<Event>): Outcome {
    if ack.PendingAck? then Outcome(s, forwarded)
    else Outcome(s.(pending := NoCommand), forwarded + [Settled(s.pending, s.provider)])
  }

  function AckStep(s: State, command: Command, ack: StackAck): Outcome {
    if !s.enabled then Outcome(s, [])
    else if s.pending == command then Settle(s, ToCtrlAck(ack), Forward(s, command, ToCtrlAck(ack)))
    else if command.SuspendCommand? && s.pending.StopCommand? then Settle(s, ToCtrlAck(ack), [])
    else Outcome(s, [])
  }

  function ResetStep(s: State): Outcome {
    Outcome(s.(pending := NoCommand), if s.pending.NoCommand? then [] else [Dropped(s.pending)])
  }

  function Next(s: State, step: Step): Outcome {
    match step
    case StartRequest => RequestStep(s, StartCommand)
    case SuspendRequest => RequestStep(s, SuspendCommand)
    case StopRequest => Outcome(s, [Dispatched(StopCommand)])
    case AckStarted(ack) => AckStep(s, StartCommand, ack)
    case AckSuspended(ack) => AckStep(s, SuspendCommand, ack)
    case EndSession => if s.enabled then ResetStep(s) else Outcome(s, [])
    case ResetPending => if s.enabled then ResetStep(s) else Outcome(s, [])
    case Cleanup =>
      if !s.enabled then Outcome(s, [])
      else var r := ResetStep(s); Outcome(r.state.(enabled := false), r.events)
    case Initialize(available, valid) =>
      var r := if available then ResetStep(s) else Outcome(s, []);
      Outcome(if available && valid then r.state.(enabled := true, provider := true) else r.state, r.events)
    case ProviderChange(provider) => Outcome(s.(provider := provider), [])
  }

  datatype Trace = Trace(state: State, log: seq<Event>)

  const INITIAL: State := State(NoCommand, false, false)

  function Run(steps: seq<Step>): Trace {
    if steps == [] then Trace(INITIAL, [])
    else
      var t := Run(steps[..|steps| - 1]);
      var r := Next(t.state, steps[|steps| - 1]);
      Trace(r.state, t.log + r.events)
  }

  lemma RunSnoc(steps: seq<Step>, step: Step)
    ensures var t := Run(steps); var r := Next(t.state, step); Run(steps + [step]) == Trace(r.state, t.log + r.events)
  {
    assert (steps + [step])[..|steps|] == steps;
  }

  // ----- The protocol, as a property of the log alone -----

  /** Where a log stands: no command outstanding, one outstanding (and perhaps already
      answered to the HAL), or a log that breaks the protocol. */
  datatype Protocol = Idle | Busy(command: Command) | Answered(command: Command) | Broken

  /** START and SUSPEND alternate strictly between being dispatched, answered exactly once if
      a provider is there to hear it, and settled, or dropped unanswered; an ack is forwarded
      only for the outstanding command. */
  function Advance(p: Protocol, e: Event): Protocol {
    match e
    case Dispatched(c) =>
      if c.StopCommand? then p
      else if p.Idle? && (c.StartCommand? || c.SuspendCommand?) then Busy(c)
      else Broken
    case Rejected(c, status) =>
      if p.Busy? && p.command != c && status.Failure? then p else Broken
    case Forwarded(c, _) => if p == Busy(c) then Answered(c) else Broken
    case Settled(c, provider) => if p == (if provider then Answered(c) else Busy(c)) then Idle else Broken
    case Dropped(c) => if p == Busy(c) then Idle else Broken
  }

  function ProtocolOf(log: seq<Event>): Protocol {
    if log == [] then Idle else Advance(ProtocolOf(log[..|log| - 1]), log[|log| - 1])
  }

  function Expected(s: State): Protocol {
    if s.pending.NoCommand? then Idle else Busy(s.pending)
  }

  lemma ProtocolSnoc(log: seq<Event>, e: Event)
    ensures ProtocolOf(log + [e]) == Advance(ProtocolOf(log), e)
  {
    assert (log + [e])[..|log|] == log;
  }

  ghost predicate Follows(s: State, log: seq<Event>) {
    ProtocolOf(log) == Expected(s) && !s.pending.StopCommand?
  }

  lemma RequestFollows(s: State, log: seq<Event>, command: Command)
    requires Follows(s, log) && (command.StartCommand? || command.SuspendCommand?)
    ensures var r := RequestStep(s, command); Follows(r.state, log + r.events)
  {
    assert log + [] == log;
    ProtocolSnoc(log, Rejected(command, ToHalStatus(FailureAck)));
    ProtocolSnoc(log, Dispatched(command));
  }

  /** A final ack of the outstanding command, told to the HAL if there is a provider. */
  lemma HeardFollows(log: seq<Event>, command: Command, status: HalStatus)
    requires ProtocolOf(log) == Busy(command)
    ensures ProtocolOf(log + ([Forwarded(command, status)] + [Settled(command, true)])) == Idle
  {
    ProtocolSnoc(log, Forwarded(command, status));
    ProtocolSnoc(log + [Forwarded(command, status)], Settled(command, true));
    assert log + ([Forwarded(command, status)] + [Settled(command, true)])
        == log + [Forwarded(command, status)] + [Settled(command, true)];
  }

  lemma UnheardFollows(log: seq<Event>, command: Command)
    requires ProtocolOf(log) == Busy(command)
    ensures ProtocolOf(log + ([] + [Settled(command, false)])) == Idle
  {
    ProtocolSnoc(log, Settled(command, false));
    assert [] + [Settled(command, false)] == [Settled(command, false)];
  }

  lemma AckFollows(s: State, log: seq<Event>, command: Command, ack: StackAck)
    requires Follows(s, log) && (command.StartCommand? || command.SuspendCommand?)
    ensures var r := AckStep(s, command, ack); Follows(r.state, log + r.events)
  {
    assert log + [] == log;
    if s.enabled && s.pending == command && !ToCtrlAck(ack).PendingAck? {
      if s.provider {
        HeardFollows(log, command, ToHalStatus(ToCtrlAck(ack)));
      } else {
        UnheardFollows(log, command);
      }
    }
  }

  lemma ResetFollows(s: State, log: seq<Event>)
    requires Follows(s, log)
    ensures var r := ResetStep(s); Follows(r.state, log + r.events)
  {
    assert log + [] == log;
    ProtocolSnoc(log, Dropped(s.pending));
  }

  lemma StepFollows(s: State, log: seq<Event>, step: Step)
    requires Follows(s, log)
    ensures var r := Next(s, step); Follows(r.state, log + r.events)
  {
    assert log + [] == log;
    match step
    case StartRequest => RequestFollows(s, log, StartCommand);
    case SuspendRequest => RequestFollows(s, log, SuspendCommand);
    case StopRequest => ProtocolSnoc(log, Dispatched(StopCommand));
    case AckStarted(ack) => AckFollows(s, log, StartCommand, ack);
    case AckSuspended(ack) => AckFollows(s, log, SuspendCommand, ack);
    case ProviderChange(provider) =>
    case _ => ResetFollows(s, log);
  }

  /** Over every run the log follows the protocol: START or SUSPEND is dispatched only when
      nothing is outstanding, STOP never becomes the pending command, no unmatched ack is
      forwarded, and what is pending is exactly the one unsettled command. */
  lemma {:induction false} ProtocolFollowed(steps: seq<Step>)
    ensures var t := Run(steps);
            ProtocolOf(t.log) == Expected(t.state) && !t.state.pending.StopCommand? && !ProtocolOf(t.log).Broken?
  {
    if steps != [] {
      var t := Run(steps[..|steps| - 1]);
      ProtocolFollowed(steps[..|steps| - 1]);
      StepFollows(t.state, t.log, steps[|steps| - 1]);
    }
  }

  // ----- Conservation -----

  /** `unheard` are the commands settled while the HAL had no provider. */
  datatype Ledger = Ledger(dispatched: nat, forwarded: nat, settled: nat, unheard: nat, dropped: nat)

  function LedgerOf(log: seq<Event>, c: Command): Ledger {
    if log == [] then Ledger(0, 0, 0, 0, 0)
    else
      var l := LedgerOf(log[..|log| - 1], c);
      match log[|log| - 1]
      case Dispatched(d) => if d == c then l.(dispatched := l.dispatched + 1) else l
      case Forwarded(d, _) => if d == c then l.(forwarded := l.forwarded + 1) else l
      case Settled(d, provider) =>
        if d == c then l.(settled := l.settled + 1, unheard := l.unheard + if provider then 0 else 1) else l
      case Dropped(d) => if d == c then l.(dropped := l.dropped + 1) else l
      case Rejected(_, _) => l
  }

  /** Any log that follows the protocol conserves commands and answers. */
  lemma {:induction false} ProtocolConserves(log: seq<Event>, c: Command)
    requires !ProtocolOf(log).Broken? && !c.StopCommand?
    ensures var l, p := LedgerOf(log, c), ProtocolOf(log);
            && l.dispatched == l.settled + l.dropped + (if (p.Busy? || p.Answered?) && p.command == c then 1 else 0)
            && l.forwarded + l.unheard == l.settled + if p == Answered(c) then 1 else 0
  {
    if log != [] {
      ProtocolConserves(log[..|log| - 1], c);
    }
  }

  /** Command conservation: commands dispatched to the stack are those settled once by a
      final ack of their own kind, plus those dropped by a reset, plus the one outstanding;
      and each settled command was answered to the HAL exactly once, unless the HAL had no
      provider when it was settled. */
  lemma CommandsConserved(steps: seq<Step>, c: Command)
    requires c.StartCommand? || c.SuspendCommand?
    ensures var t := Run(steps); var l := LedgerOf(t.log, c);
            && l.dispatched == l.settled + l.dropped + (if t.state.pending == c then 1 else 0)
            && l.settled == l.forwarded + l.unheard
  {
    ProtocolFollowed(steps);
    ProtocolConserves(Run(steps).log, c);
  }

  /** The branch of ack_stream_suspended for a pending STOP is never taken in any run. */
  lemma StopBranchDead(steps: seq<Step>, ack: StackAck)
    ensures !(Run(steps).state.pending.StopCommand?)
    ensures var s := Run(steps).state;
            Next(s, AckSuspended(ack)).events != [] ==> s.pending.SuspendCommand? && s.enabled && !ack.AckPending?
  {
    ProtocolFollowed(steps);
  }

  // ----- What each call brings about -----

  /** The HAL status that each stack ack gives. */
  lemma StatusOfAck(ack: StackAck)
    requires !ack.AckPending?
    ensures var status := ToHalStatus(ToCtrlAck(ack));
            && (status == Success <==> ack.AckSuccess?)
            && (status == UnsupportedCodecConfiguration <==> ack.AckUnsupported? || ack.AckDisconnectInProgress?)
            && (status == Success || status == UnsupportedCodecConfiguration || status == Failure)
  {
  }

  lemma StatusOfCtrlAck(ack: CtrlAck)
    ensures ToHalStatus(ack) == Reconfiguration <==> ack.SuccessReconfiguration?
    ensures ToHalStatus(ack) == UnsupportedCodecConfiguration <==> ack.FailureUnsupported?
  {
  }

  /** A stop request goes to the stack at once, whatever is outstanding. */
  lemma StopActs(s: State)
    ensures Next(s, StopRequest) == Outcome(s, [Dispatched(StopCommand)])
  {
  }

  /** A start or suspend request: dispatched and outstanding if nothing was, left alone if it is
      outstanding already, and refused with a failure if another command is. */
  lemma RequestActs(s: State, step: Step, command: Command)
    requires (step, command) == (StartRequest, StartCommand) || (step, command) == (SuspendRequest, SuspendCommand)
    ensures Next(s, step)
         == if s.pending.NoCommand? then Outcome(s.(pending := command), [Dispatched(command)])
            else if s.pending == command then Outcome(s, [])
            else Outcome(s, [Rejected(command, Failure)])
  {
  }

  /** An ack for the outstanding command of an enabled session: a final one settles it, and tells
      the HAL if there is a provider; a pending one, or any other ack, does nothing. */
  lemma AckActs(steps: seq<Step>, ack: StackAck, step: Step, command: Command)
    requires || (step == AckStarted(ack) && command == StartCommand)
             || (step == AckSuspended(ack) && command == SuspendCommand)
    ensures var s := Run(steps).state;
            Next(s, step)
            == if s.enabled && s.pending == command && !ack.AckPending? then
                 Outcome(s.(pending := NoCommand),
                         (if s.provider then [Forwarded(command, ToHalStatus(ToCtrlAck(ack)))] else [])
                         + [Settled(command, s.provider)])
               else Outcome(s, [])
  {
    ProtocolFollowed(steps);
  }

  /** Ending or cleaning up an enabled session, and resetting it, forget the outstanding command;
      so does a new transport; and only these and its own final ack do. */
  lemma ForgottenExactly(steps: seq<Step>, step: Step)
    requires !Run(steps).state.pending.NoCommand?
    ensures var s := Run(steps).state;
            Next(s, step).state.pending.NoCommand? <==>
            || (s.enabled && (step.EndSession? || step.ResetPending? || step.Cleanup?))
            || (step.Initialize? && step.available)
            || (s.enabled && s.pending.StartCommand? && step.AckStarted? && !step.ack.AckPending?)
            || (s.enabled && s.pending.SuspendCommand? && step.AckSuspended? && !step.ack.AckPending?)
  {
    ProtocolFollowed(steps);
  }

  /** What was forgotten without an ack is recorded as dropped. */
  lemma DroppedExactly(s: State, step: Step)
    ensures Dropped(s.pending) in Next(s, step).events <==>
            && !s.pending.NoCommand?
            && ((s.enabled && (step.EndSession? || step.ResetPending? || step.Cleanup?))
                || (step.Initialize? && step.available))
  {
  }

  /** The session is enabled by a valid initialization and disabled by a cleanup, and the provider
      is what the HAL last made it. */
  lemma EnabledExactly(s: State, step: Step)
    ensures Next(s, step).state.enabled
            <==> if step.Initialize? && step.available && step.valid then true else s.enabled && !step.Cleanup?
    ensures Next(s, step).state.provider
            <==> if step.Initialize? && step.available && step.valid then true
                 else if step.ProviderChange? then step.provider else s.provider
  {
  }

  // ----- The session object -----

  class Session {
    var pendingCommand: Command
    var enabled: bool
    var provider: bool
    ghost var log: seq<Event>
    ghost var history: seq<Step>

    ghost function Abs(): State
      reads this
    {
      State(pendingCommand, enabled, provider)
    }

    ghost predicate Took(s: State, log0: seq<Event>, step: Step)
      reads this
    {
      Abs() == Next(s, step).state && log == log0 + Next(s, step).events
    }

    /** The object and its log are what its history of calls leads to. */
    ghost predicate Reached()
      reads this
    {
      Trace(Abs(), log) == Run(history)
    }

    constructor ()
      ensures Abs() == INITIAL && log == [] && Reached() && history == []
    {
      history := [];
      pendingCommand := NoCommand;
      enabled := false;
      provider := false;
      log := [];
    }

    /** startStream, through StartRequest. */
    method StartStream() returns (ack: CtrlAck)
      modifies this`pendingCommand, this`enabled, this`log
      ensures Took(old(Abs()), old(log), StartRequest)
      ensures ack == if old(pendingCommand).NoCommand? || old(pendingCommand).StartCommand? then PendingAck
                     else FailureAck
    {
      if pendingCommand == StartCommand {
        return ToCtrlAck(AckPending);
      } else if pendingCommand != NoCommand {
        ack := ToCtrlAck(AckFailure);
        log := log + [Rejected(StartCommand, ToHalStatus(ack))];
        return;
      }
      pendingCommand := StartCommand;
      log := log + [Dispatched(StartCommand)];
      ack := ToCtrlAck(AckPending);
    }

    /** suspendStream, through SuspendRequest. */
    method SuspendStream() returns (ack: CtrlAck)
      modifies this`pendingCommand, this`enabled, this`log
      ensures Took(old(Abs()), old(log), SuspendRequest)
      ensures ack == if old(pendingCommand).NoCommand? || old(pendingCommand).SuspendCommand? then PendingAck
                     else FailureAck
    {
      if pendingCommand == SuspendCommand {
        return ToCtrlAck(AckPending);
      } else if pendingCommand != NoCommand {
        ack := ToCtrlAck(AckFailure);
        log := log + [Rejected(SuspendCommand, ToHalStatus(ack))];
        return;
      }
      pendingCommand := SuspendCommand;
      log := log + [Dispatched(SuspendCommand)];
      ack := ToCtrlAck(AckPending);
    }

    method StopStream()
      modifies this`pendingCommand, this`enabled, this`log
      ensures Took(old(Abs()), old(log), StopRequest)
    {
      log := log + [Dispatched(StopCommand)];
    }

    /** StreamStarted and StreamSuspended of the client interface. */
    method ForwardAck(command: Command, ack: CtrlAck)
      modifies this`log
      ensures log == old(log) + Forward(Abs(), command, ack)
    {
      if !provider {
        return;
      }
      if ack.PendingAck? {
        return;
      }
      log := log + [Forwarded(command, ToHalStatus(ack))];
    }

    method ForgetPending(settled: bool)
      modifies this`pendingCommand, this`log
      ensures pendingCommand == NoCommand
      ensures log == old(log) + if settled then [Settled(old(pendingCommand), provider)]
                                else if old(pendingCommand).NoCommand? then [] else [Dropped(old(pendingCommand))]
    {
      if settled {
        log := log + [Settled(pendingCommand, provider)];
      } else if pendingCommand != NoCommand {
        log := log + [Dropped(pendingCommand)];
      }
      pendingCommand := NoCommand;
    }

    method AckStreamStarted(ack: StackAck)
      modifies this`pendingCommand, this`enabled, this`log
      ensures Took(old(Abs()), old(log), Step.AckStarted(ack))
    {
      var ctrlAck := ToCtrlAck(ack);
      if !enabled {
        return;
      }
      if pendingCommand == StartCommand {
        ForwardAck(StartCommand, ctrlAck);
      } else {
        return;
      }
      if !ctrlAck.PendingAck? {
        ForgetPending(true);
      }
    }

    method AckStreamSuspended(ack: StackAck)
      modifies this`pendingCommand, this`enabled, this`log
      ensures Took(old(Abs()), old(log), Step.AckSuspended(ack))
    {
      var ctrlAck := ToCtrlAck(ack);
      if !enabled {
        return;
      }
      if pendingCommand == SuspendCommand {
        ForwardAck(SuspendCommand, ctrlAck);
      } else if pendingCommand == StopCommand {
      } else {
        return;
      }
      if !ctrlAck.PendingAck? {
        ForgetPending(true);
      }
    }

    method EndSessionCall()
      modifies this`pendingCommand, this`enabled, this`log
      ensures Took(old(Abs()), old(log), EndSession)
    {
      if !enabled {
        return;
      }
      ForgetPending(false);
    }

    method ResetPendingCommand()
      modifies this`pendingCommand, this`enabled, this`log
      ensures Took(old(Abs()), old(log), ResetPending)
    {
      if !enabled {
        return;
      }
      ForgetPending(false);
    }

    /** init: constructing the transport forgets the pending command even if the HAL turns
        out to be invalid. */
    method InitializeCall(available: bool, valid: bool) returns (ok: bool)
      modifies this`pendingCommand, this`enabled, this`provider, this`log
      ensures Took(old(Abs()), old(log), Initialize(available, valid)) && ok == (available && valid)
    {
      if !available {
        return false;
      }
      ForgetPending(false);
      if !valid {
        return false;
      }
      enabled := true;
      provider := true;
      ok := true;
    }

    method CleanupCall()
      modifies this`pendingCommand, this`enabled, this`log
      ensures Took(old(Abs()), old(log), Cleanup)
    {
      if !enabled {
        return;
      }
      EndSessionCall();
      ForgetPending(false);
      enabled := false;
    }

    /** Any call, on any session reached by calls: what is proved of every run holds of it. */
    method Perform(step: Step)
      requires Reached()
      modifies this
      ensures Reached() && history == old(history) + [step]
    {
      RunSnoc(history, step);
      Dispatch(step);
      history := history + [step];
    }

    method Dispatch(step: Step)
      modifies this`pendingCommand, this`enabled, this`provider, this`log
      ensures Took(old(Abs()), old(log), step)
    {
      match step {
        case StartRequest => var _ := StartStream();
        case SuspendRequest => var _ := SuspendStream();
        case StopRequest => StopStream();
        case AckStarted(ack) => AckStreamStarted(ack);
        case AckSuspended(ack) => AckStreamSuspended(ack);
        case EndSession => EndSessionCall();
        case ResetPending => ResetPendingCommand();
        case Cleanup => CleanupCall();
        case Initialize(available, valid) => var _ := InitializeCall(available, valid);
        case ProviderChange(p) => provider := p;
      }
    }
  }
}
