/** Ctrl-C in the CLI (`interrupt.rs`): one lock-protected state, guards that count in it, and a
    broadcast queue of bounded capacity that the running commands read. */
module Interrupt {
  import opened Prelude

  const EXIT_INTERRUPTED := 130
  const EXIT_FAILURE := 1

  /** The capacity of the queue: a receiver further behind has lagged. */
  const CAPACITY := 16

  /** A Ctrl-C, as sent to the commands: whether a command handles it itself. */
  datatype Press = Press(owned: bool)

  datatype Action = Quit(code: int) | Send(press: Press) | Nothing

  datatype Error = Interrupted | StdoutClosed

  // ---- the state under the lock ------------------------------------------------------------

  datatype Flags = Flags(catching: nat, owning: nat, stopping: nat, cancelling: bool,
                         stdoutClosed: bool, streamingData: nat, dataCutShort: bool)

  function Minus1(n: nat): nat {
    if n == 0 then 0 else n - 1
  }

  function EndRunning(s: Flags): (Flags, Action) {
    var owned := s.owning > 0;
    (s.(cancelling := s.cancelling || !owned), Send(Press(owned)))
  }

  function Pressed(s: Flags): (Flags, Action) {
    if s.catching == 0 || s.cancelling || s.stopping > 0 then (s, Quit(EXIT_INTERRUPTED))
    else EndRunning(s)
  }

  function ClosedCode(s: Flags): int {
    if s.dataCutShort then EXIT_FAILURE else 0
  }

  function Closed(s: Flags): (Flags, Action) {
    if s.stdoutClosed then (s, Nothing)
    else
      var s := s.(stdoutClosed := true, dataCutShort := s.streamingData > 0);
      if s.catching == 0 then (s, Quit(ClosedCode(s))) else EndRunning(s)
  }

  function CancelledError(s: Flags): Error {
    if s.stdoutClosed then StdoutClosed else Interrupted
  }

  function EndedCatching(s: Flags): Flags {
    s.(catching := Minus1(s.catching), cancelling := s.cancelling && s.catching > 1)
  }

  /** The process's one `State`, updated in place under its lock. */
  class State {
    var catching: nat
    var owning: nat
    var stopping: nat
    var cancelling: bool
    var stdoutClosed: bool
    var streamingData: nat
    var dataCutShort: bool

    constructor ()
      ensures Value() == Flags(0, 0, 0, false, false, 0, false)
    {
      catching, owning, stopping, streamingData := 0, 0, 0, 0;
      cancelling, stdoutClosed, dataCutShort := false, false, false;
    }

    function Value(): Flags
      reads this
    {
      Flags(catching, owning, stopping, cancelling, stdoutClosed, streamingData, dataCutShort)
    }

    method PressCtrlC() returns (action: Action)
      modifies this
      ensures (Value(), action) == Pressed(old(Value()))
    {
      if catching == 0 || cancelling || stopping > 0 {
        return Quit(EXIT_INTERRUPTED);
      }
      action := EndRunningCommand();
    }

    method CloseStdout() returns (action: Action)
      modifies this
      ensures (Value(), action) == Closed(old(Value()))
    {
      if stdoutClosed {
        return Nothing;
      }
      stdoutClosed := true;
      dataCutShort := streamingData > 0;
      if catching == 0 {
        return Quit(if dataCutShort then EXIT_FAILURE else 0);
      }
      action := EndRunningCommand();
    }

    method EndRunningCommand() returns (action: Action)
      modifies this
      ensures (Value(), action) == EndRunning(old(Value()))
    {
      var owned := owning > 0;
      if !owned {
        cancelling := true;
      }
      action := Send(Press(owned));
    }

    method EndCatching()
      modifies this
      ensures Value() == EndedCatching(old(Value()))
    {
      catching := if catching == 0 then 0 else catching - 1;
      if catching == 0 {
        cancelling := false;
      }
    }
  }

  // ---- the broadcast queue -----------------------------------------------------------------

  datatype Received = Got(press: Press) | Lagged | Empty

  /** `try_recv` of the receiver that reads `sent[next]` next, and where it reads on. */
  function TryRecv(sent: seq<Press>, next: nat): (r: (Received, nat))
    requires next <= |sent|
    ensures next <= r.1 <= |sent| && (r.1 == next <==> r.0.Empty?)
  {
    if next == |sent| then (Empty, next)
    else if |sent| - next > CAPACITY then (Lagged, |sent| - CAPACITY)
    else (Got(sent[next]), next + 1)
  }

  predicate AllOwned(presses: seq<Press>) {
    forall i :: 0 <= i < |presses| ==> presses[i].owned
  }

  /** What may cancel a command: a press no command handles, or more than a receiver can hold. */
  predicate MayCancel(presses: seq<Press>) {
    !AllOwned(presses) || |presses| > CAPACITY
  }

  /** The check in `Catching::end`: drains the queue up to the first press that cancels. */
  method Drain(sent: seq<Press>, start: nat) returns (pressed: bool)
    requires start <= |sent|
    ensures pressed <==> MayCancel(sent[start..])
  {
    var next := start;
    while true
      invariant start <= next <= |sent|
      invariant next > start ==> |sent| - start <= CAPACITY
      invariant forall i :: start <= i < next ==> sent[i].owned
      decreases |sent| - next
    {
      var (received, next') := TryRecv(sent, next);
      match received {
        case Got(press) =>
          if !press.owned {
            assert sent[start..][next - start] == press;
            return true;
          }
        case Lagged => return true;
        case Empty => return false;
      }
      next := next';
    }
  }

  // ---- the running process -----------------------------------------------------------------

  type Id = nat

  /** A counted command, in `cancellable`. Its receiver was made when `since` presses had been sent
      and reads `next` next. */
  datatype Pc =
    | Running(since: nat, next: nat)
    | Ending(since: nat, next: nat)
    | Caught(since: nat)
    | Failing(since: nat, error: Error)

  /** How a command ended, with the presses sent while it was counted. `Dropped`: its caller
      stopped waiting for it. */
  datatype Outcome =
    | Completed(landed: seq<Press>)
    | Failed(error: Error, landed: seq<Press>)
    | Dropped

  datatype World = World(
    flags: Flags,
    sent: seq<Press>,
    commands: map<Id, Pc>,       // `Catching` guards
    outcomes: map<Id, Outcome>,
    owners: map<Id, nat>,        // `Owning` guards and what they read next
    stopping: set<Id>,           // `Stopping` guards
    streams: set<Id>,            // `DataStream` guards
    exited: Option<int>)

  datatype Event =
    | CtrlC
    | StdoutFoundClosed
    | Catch(id: Id)
    | Command(id: Id, act: CommandAct)
    | Guard(id: Id, change: GuardAct)

  datatype CommandAct =
    | Receive            // a turn of the loop in `Catching::cancelled`
    | Ready              // the command's own future is ready first
    | End                // `Catching::end`
    | TakeError
    | DropCatching

  datatype GuardAct =
    | Own
    | AskPressed         // `Owning::pressed` and `was_pressed`
    | IntoStopping
    | DropOwning
    | DropStopping
    | StreamData
    | DropStream

  function Start(): World {
    World(Flags(0, 0, 0, false, false, 0, false), [], map[], map[], map[], {}, {}, None)
  }

  /** `act`, under the lock the state was changed under. */
  function Act(w: World, change: (Flags, Action)): World {
    var w := w.(flags := change.0);
    match change.1
    case Quit(code) => w.(exited := Some(code))
    case Send(press) => w.(sent := w.sent + [press])
    case Nothing => w
  }

  function From(sent: seq<Press>, since: nat): seq<Press> {
    if since <= |sent| then sent[since..] else []
  }

  function Finish(w: World, id: Id, outcome: Outcome): World {
    w.(flags := EndedCatching(w.flags), commands := w.commands - {id},
       outcomes := w.outcomes[id := outcome])
  }

  function ReceiveStep(w: World, id: Id, since: nat, next: nat): World
    requires next <= |w.sent|
  {
    match TryRecv(w.sent, next)
    case (Got(press), next') =>
      w.(commands := w.commands[id := if press.owned then Running(since, next') else Caught(since)])
    case (Lagged, _) => w.(commands := w.commands[id := Caught(since)])
    case (Empty, _) => w
  }

  function CommandStep(w: World, id: Id, act: CommandAct, pc: Pc): World {
    match act
    case Receive =>
      if pc.Running? && pc.next <= |w.sent| then ReceiveStep(w, id, pc.since, pc.next) else w
    case Ready =>
      if pc.Running? then w.(commands := w.commands[id := Ending(pc.since, pc.next)]) else w
    case End =>
      if !pc.Ending? then w
      else if MayCancel(From(w.sent, pc.next))
      then Finish(w, id, Failed(CancelledError(w.flags), From(w.sent, pc.since)))
      else Finish(w, id, Completed(From(w.sent, pc.since)))
    case TakeError =>
      if pc.Caught?
      then w.(commands := w.commands[id := Failing(pc.since, CancelledError(w.flags))])
      else w
    case DropCatching =>
      if pc.Running? then Finish(w, id, Dropped)
      else if pc.Failing? then Finish(w, id, Failed(pc.error, From(w.sent, pc.since)))
      else w
  }

  function GuardStep(w: World, id: Id, change: GuardAct): World {
    match change
    case Own =>
      if id in w.owners || id in w.stopping then w
      else w.(flags := w.flags.(owning := w.flags.owning + 1), owners := w.owners[id := |w.sent|])
    case AskPressed =>
      if id !in w.owners || w.owners[id] > |w.sent| then w
      else w.(owners := w.owners[id := TryRecv(w.sent, w.owners[id]).1])
    case IntoStopping =>
      if id !in w.owners || id in w.stopping then w
      else w.(flags := w.flags.(stopping := w.flags.stopping + 1), stopping := w.stopping + {id})
    case DropOwning =>
      if id !in w.owners then w
      else w.(flags := w.flags.(owning := Minus1(w.flags.owning)), owners := w.owners - {id})
    case DropStopping =>
      if id !in w.stopping || id in w.owners then w
      else w.(flags := w.flags.(stopping := Minus1(w.flags.stopping)), stopping := w.stopping - {id})
    case StreamData =>
      if id in w.streams then w
      else w.(flags := w.flags.(streamingData := w.flags.streamingData + 1),
              streams := w.streams + {id})
    case DropStream =>
      if id !in w.streams then w
      else w.(flags := w.flags.(streamingData := Minus1(w.flags.streamingData)),
              streams := w.streams - {id})
  }

  function CatchStep(w: World, id: Id): World {
    if id in w.commands || id in w.outcomes then w
    else w.(flags := w.flags.(catching := w.flags.catching + 1),
            commands := w.commands[id := Running(|w.sent|, |w.sent|)])
  }

  /** One step; an event that cannot happen in this state changes nothing. */
  function Step(w: World, ev: Event): World {
    if w.exited.Some? then w
    else match ev
      case CtrlC => Act(w, Pressed(w.flags))
      case StdoutFoundClosed => Act(w, Closed(w.flags))
      case Catch(id) => CatchStep(w, id)
      case Command(id, act) => if id in w.commands then CommandStep(w, id, act, w.commands[id]) else w
      case Guard(id, change) => GuardStep(w, id, change)
  }

  function Run(w: World, events: seq<Event>): World
    decreases |events|
  {
    if events == [] then w else Run(Step(w, events[0]), events[1..])
  }

  // ---- the counters ------------------------------------------------------------------------

  /** Each counter is the number of its live guards, so no subtraction ever saturates; a command is
      being cancelled only while one is counted. */
  ghost predicate Counts(w: World) {
    && w.flags.catching == |w.commands|
    && w.flags.owning == |w.owners|
    && w.flags.stopping == |w.stopping|
    && w.flags.streamingData == |w.streams|
    && (w.flags.cancelling ==> w.commands != map[])
  }

  lemma RemoveOne<T>(m: map<Id, T>, id: Id)
    requires id in m
    ensures |m - {id}| == |m| - 1
    ensures |m| == 1 ==> m - {id} == map[]
  {
  }

  lemma EmptyMap<T>(m: map<Id, T>)
    ensures |m| == 0 <==> m == map[]
  {
  }

  lemma FinishKeepsCounts(w: World, id: Id, outcome: Outcome)
    requires Counts(w) && id in w.commands
    ensures Counts(Finish(w, id, outcome))
  {
  }

  lemma MoveKeepsCounts(w: World, id: Id, pc: Pc)
    requires Counts(w) && id in w.commands
    ensures Counts(w.(commands := w.commands[id := pc]))
  {
  }

  lemma CommandStepKeepsCounts(w: World, id: Id, act: CommandAct)
    requires Counts(w) && id in w.commands
    ensures Counts(CommandStep(w, id, act, w.commands[id]))
  {
    var w' := CommandStep(w, id, act, w.commands[id]);
    if id in w'.commands {
      assert w' == w || w' == w.(commands := w.commands[id := w'.commands[id]]);
      MoveKeepsCounts(w, id, w'.commands[id]);
    } else {
      assert w' == Finish(w, id, w'.outcomes[id]);
      FinishKeepsCounts(w, id, w'.outcomes[id]);
    }
  }

  lemma OwnerStepKeepsCounts(w: World, id: Id, change: GuardAct)
    requires Counts(w) && (change.Own? || change.AskPressed? || change.DropOwning?)
    ensures Counts(GuardStep(w, id, change))
  {
    if id in w.owners {
      RemoveOne(w.owners, id);
    }
  }

  lemma GuardStepKeepsCounts(w: World, id: Id, change: GuardAct)
    requires Counts(w)
    ensures Counts(GuardStep(w, id, change))
  {
    if change.Own? || change.AskPressed? || change.DropOwning? {
      OwnerStepKeepsCounts(w, id, change);
    }
  }

  lemma StepKeepsCounts(w: World, ev: Event)
    requires Counts(w)
    ensures Counts(Step(w, ev))
  {
    EmptyMap(w.commands);
    match ev
    case CtrlC =>
    case StdoutFoundClosed =>
    case Catch(id) => assert id in CatchStep(w, id).commands || CatchStep(w, id) == w;
    case Command(id, act) =>
      if id in w.commands {
        CommandStepKeepsCounts(w, id, act);
      }
    case Guard(id, change) => GuardStepKeepsCounts(w, id, change);
  }

  // ---- no press is lost --------------------------------------------------------------------

  /** A counted command has passed over owned presses only, and one that was caught was caught for
      a reason. */
  ghost predicate PcInv(sent: seq<Press>, pc: Pc) {
    match pc
    case Running(since, next) => since <= next <= |sent| && AllOwned(sent[since..next])
    case Ending(since, next) => since <= next <= |sent| && AllOwned(sent[since..next])
    case Caught(since) => since <= |sent| && MayCancel(sent[since..])
    case Failing(since, _) => since <= |sent| && MayCancel(sent[since..])
  }

  /** A command completes only if every press sent while it was counted had an owner, and fails as
      cancelled only if one had none, or more came than its receiver can hold. */
  ghost predicate Faithful(outcome: Outcome) {
    match outcome
    case Completed(landed) => AllOwned(landed)
    case Failed(_, landed) => MayCancel(landed)
    case Dropped => true
  }

  ghost predicate Receivers(w: World) {
    && (forall id :: id in w.commands ==> PcInv(w.sent, w.commands[id]))
    && (forall id :: id in w.outcomes ==> Faithful(w.outcomes[id]))
    && (forall id :: id in w.owners ==> w.owners[id] <= |w.sent|)
    && w.commands.Keys !! w.outcomes.Keys
  }

  ghost predicate Inv(w: World) {
    Counts(w) && Receivers(w)
  }

  /** One more press is one more reason. */
  lemma SendKeepsPcInv(sent: seq<Press>, press: Press, pc: Pc)
    requires PcInv(sent, pc)
    ensures PcInv(sent + [press], pc)
  {
    var sent' := sent + [press];
    var since := pc.since;
    assert sent'[since..] == sent[since..] + [press];
    match pc
    case Running(_, next) => assert sent'[since..next] == sent[since..next];
    case Ending(_, next) => assert sent'[since..next] == sent[since..next];
    case _ =>
      var landed := sent[since..];
      if i :| 0 <= i < |landed| && !landed[i].owned {
        assert sent'[since..][i] == landed[i];
      }
  }

  lemma ReceiveKeepsPcInv(sent: seq<Press>, since: nat, next: nat)
    requires PcInv(sent, Running(since, next)) && next < |sent|
    ensures |sent| - next > CAPACITY ==> PcInv(sent, Caught(since))
    ensures sent[next].owned ==> PcInv(sent, Running(since, next + 1))
    ensures !sent[next].owned ==> PcInv(sent, Caught(since))
  {
    assert sent[since..][next - since] == sent[next];
    assert sent[since..next + 1] == sent[since..next] + [sent[next]];
  }

  /** The check as the command ends sees the same presses as `cancelled` would. */
  lemma EndIsFaithful(sent: seq<Press>, since: nat, next: nat, error: Error)
    requires PcInv(sent, Ending(since, next))
    ensures if MayCancel(sent[next..]) then Faithful(Failed(error, sent[since..]))
            else Faithful(Completed(sent[since..]))
  {
    var landed, rest := sent[since..], sent[next..];
    assert landed == sent[since..next] + rest;
    if i :| 0 <= i < |rest| && !rest[i].owned {
      assert landed[next - since + i] == rest[i];
    }
  }

  lemma MoveKeepsReceivers(w: World, id: Id, pc: Pc)
    requires Receivers(w) && id in w.commands && PcInv(w.sent, pc)
    ensures Receivers(w.(commands := w.commands[id := pc]))
  {
  }

  lemma FinishKeepsReceivers(w: World, id: Id, outcome: Outcome)
    requires Receivers(w) && id in w.commands && Faithful(outcome)
    ensures Receivers(Finish(w, id, outcome))
  {
  }

  lemma CommandStepKeepsReceivers(w: World, id: Id, act: CommandAct)
    requires Receivers(w) && id in w.commands
    ensures Receivers(CommandStep(w, id, act, w.commands[id]))
  {
    var pc := w.commands[id];
    assert PcInv(w.sent, pc);
    var w' := CommandStep(w, id, act, pc);
    if id in w'.commands {
      CommandStepKeepsPcInv(w, id, act, pc);
      assert w' == w || w' == w.(commands := w.commands[id := w'.commands[id]]);
      MoveKeepsReceivers(w, id, w'.commands[id]);
    } else {
      CommandEndsFaithfully(w, id, act, pc);
      assert w' == Finish(w, id, w'.outcomes[id]);
      FinishKeepsReceivers(w, id, w'.outcomes[id]);
    }
  }

  lemma CommandStepKeepsPcInv(w: World, id: Id, act: CommandAct, pc: Pc)
    requires id in w.commands && pc == w.commands[id] && PcInv(w.sent, pc)
    ensures var w' := CommandStep(w, id, act, pc);
            id in w'.commands ==> PcInv(w.sent, w'.commands[id])
  {
    if act.Receive? && pc.Running? && pc.next < |w.sent| {
      ReceiveKeepsPcInv(w.sent, pc.since, pc.next);
    }
  }

  lemma CommandEndsFaithfully(w: World, id: Id, act: CommandAct, pc: Pc)
    requires id in w.commands && pc == w.commands[id] && PcInv(w.sent, pc)
    ensures var w' := CommandStep(w, id, act, pc);
            id !in w'.commands ==> id in w'.outcomes && Faithful(w'.outcomes[id])
  {
    if act.End? && pc.Ending? {
      EndIsFaithful(w.sent, pc.since, pc.next, CancelledError(w.flags));
    }
  }

  lemma ActKeepsReceivers(w: World, change: (Flags, Action))
    requires Receivers(w)
    ensures Receivers(Act(w, change))
  {
    if change.1.Send? {
      forall id | id in w.commands
        ensures PcInv(w.sent + [change.1.press], w.commands[id])
      {
        SendKeepsPcInv(w.sent, change.1.press, w.commands[id]);
      }
    }
  }

  lemma StepKeepsReceivers(w: World, ev: Event)
    requires Receivers(w)
    ensures Receivers(Step(w, ev))
  {
    match ev
    case CtrlC => ActKeepsReceivers(w, Pressed(w.flags));
    case StdoutFoundClosed => ActKeepsReceivers(w, Closed(w.flags));
    case Catch(id) => CatchKeepsReceivers(w, id);
    case Command(id, act) =>
      if id in w.commands {
        CommandStepKeepsReceivers(w, id, act);
      }
    case Guard(id, change) => GuardStepKeepsReceivers(w, id, change);
  }

  lemma CatchKeepsReceivers(w: World, id: Id)
    requires Receivers(w)
    ensures Receivers(CatchStep(w, id))
  {
  }

  lemma GuardStepKeepsReceivers(w: World, id: Id, change: GuardAct)
    requires Receivers(w)
    ensures Receivers(GuardStep(w, id, change))
  {
  }

  lemma StepKeepsInv(w: World, ev: Event)
    requires Inv(w)
    ensures Inv(Step(w, ev))
  {
    StepKeepsCounts(w, ev);
    StepKeepsReceivers(w, ev);
  }

  lemma {:induction false} RunKeepsInv(w: World, events: seq<Event>)
    requires Inv(w)
    ensures Inv(Run(w, events))
    decreases |events|
  {
    if events != [] {
      StepKeepsInv(w, events[0]);
      RunKeepsInv(Step(w, events[0]), events[1..]);
    }
  }

  /** Over every run: the counters are the live guards, `cancelling` means a counted command, and
      every command ended as the presses that landed on it demand. */
  lemma EveryRunKeepsInv(events: seq<Event>)
    ensures Inv(Run(Start(), events))
  {
    RunKeepsInv(Start(), events);
  }

  /** A press without an owner landed on this command: while it is counted it is among what its
      receiver was sent, and it can no longer complete. */
  ghost predicate Hit(w: World, id: Id) {
    if id in w.commands
    then w.commands[id].since <= |w.sent| && !AllOwned(w.sent[w.commands[id].since..])
    else id in w.outcomes && !w.outcomes[id].Completed?
  }

  /** What one step leaves of a running command: it runs on, or it ended with what has landed. */
  ghost predicate Span(w: World, w': World, id: Id)
    requires id in w.commands
  {
    && w.sent <= w'.sent
    && if id in w'.commands then w'.commands[id].since == w.commands[id].since
       else id in w'.outcomes && w'.sent == w.sent
            && (w'.outcomes[id].Completed? ==>
                  w'.outcomes[id].landed == From(w.sent, w.commands[id].since))
  }

  lemma CommandStepKeepsSpan(w: World, moved: Id, act: CommandAct, id: Id)
    requires id in w.commands && moved in w.commands
    ensures Span(w, CommandStep(w, moved, act, w.commands[moved]), id)
  {
  }

  lemma StepKeepsSpan(w: World, ev: Event, id: Id)
    requires id in w.commands
    ensures Span(w, Step(w, ev), id)
  {
    if ev.Command? && ev.id in w.commands {
      CommandStepKeepsSpan(w, ev.id, ev.act, id);
    }
  }

  lemma StepKeepsHit(w: World, ev: Event, id: Id)
    requires Inv(w) && Hit(w, id)
    ensures Hit(Step(w, ev), id)
  {
    if id in w.commands {
      StepKeepsSpan(w, ev, id);
      StepKeepsReceivers(w, ev);
      HitStays(w, Step(w, ev), id);
    } else {
      OutcomesAreFinal(w, ev, id);
    }
  }

  lemma HitStays(w: World, w': World, id: Id)
    requires id in w.commands && Hit(w, id) && Receivers(w') && Span(w, w', id)
    ensures Hit(w', id)
  {
    var since := w.commands[id].since;
    var landed := w.sent[since..];
    var i :| 0 <= i < |landed| && !landed[i].owned;
    assert w'.sent[since..][i] == w'.sent[since + i] == w.sent[since + i];
    if id in w'.outcomes {
      assert Faithful(w'.outcomes[id]);
    }
  }

  lemma OutcomesAreFinal(w: World, ev: Event, id: Id)
    requires id in w.outcomes && id !in w.commands
    ensures var w' := Step(w, ev);
            id !in w'.commands && id in w'.outcomes && w'.outcomes[id] == w.outcomes[id]
  {
  }

  lemma {:induction false} RunKeepsHit(w: World, events: seq<Event>, id: Id)
    requires Inv(w) && Hit(w, id)
    ensures Hit(Run(w, events), id)
    decreases |events|
  {
    if events != [] {
      StepKeepsInv(w, events[0]);
      StepKeepsHit(w, events[0], id);
      RunKeepsHit(Step(w, events[0]), events[1..], id);
    }
  }

  /** In every run: a Ctrl-C that lands while a cancellable command is counted and no command owns
      Ctrl-C quits the process, or that command never returns a result of its own: it fails as
      cancelled, unless its caller drops it. As it ends and when its receiver lagged, too. */
  lemma CtrlCIsNeverLost(before: seq<Event>, after: seq<Event>, id: Id)
    ensures var w := Run(Start(), before);
            (w.exited.None? && id in w.commands && w.owners == map[]) ==>
              var pressed := Step(w, CtrlC);
              || pressed.exited == Some(EXIT_INTERRUPTED)
              || var w' := Run(pressed, after);
                 (id in w'.commands || id in w'.outcomes)
                 && (id in w'.outcomes ==> w'.outcomes[id].Failed? || w'.outcomes[id].Dropped?)
  {
    EveryRunKeepsInv(before);
    var w := Run(Start(), before);
    if w.exited.None? && id in w.commands && w.owners == map[] {
      var pressed := Step(w, CtrlC);
      if pressed.exited != Some(EXIT_INTERRUPTED) {
        var since := w.commands[id].since;
        assert pressed.sent == w.sent + [Press(false)];
        assert !pressed.sent[since..][|w.sent| - since].owned;
        StepKeepsInv(w, CtrlC);
        RunKeepsHit(pressed, after, id);
        RunKeepsInv(pressed, after);
      }
    }
  }

  // ---- what a press does -------------------------------------------------------------------

  /** By the guards that live: with no command counted, one being cancelled or one stopping, a press
      quits. Otherwise it only reaches the queue, and without an owner the counted commands are being
      cancelled from then on. */
  lemma PressExactly(w: World)
    requires Inv(w) && w.exited.None?
    ensures Step(w, CtrlC) ==
            if w.commands == map[] || w.flags.cancelling || w.stopping != {}
            then w.(exited := Some(EXIT_INTERRUPTED))
            else w.(sent := w.sent + [Press(w.owners != map[])],
                    flags := w.flags.(cancelling := w.owners == map[]))
  {
    EmptyMap(w.commands);
    EmptyMap(w.owners);
  }

  /** `n` times, the command's receiver is asked. */
  function Receives(id: Id, n: nat): seq<Event> {
    seq(n, k => Command(id, Receive))
  }

  lemma {:induction false} ReceivesCatch(w: World, id: Id, n: nat)
    requires w.exited.None? && id in w.commands
    requires var pc := w.commands[id];
             && (pc.Running? || pc.Caught?)
             && (pc.Running? ==> pc.next <= |w.sent| && |w.sent| - pc.next <= n
                                 && !AllOwned(w.sent[pc.next..]))
    ensures var since := w.commands[id].since;
            Run(w, Receives(id, n)) == w.(commands := w.commands[id := Caught(since)])
    decreases n
  {
    if n == 0 {
      assert w == w.(commands := w.commands[id := w.commands[id]]);
    } else {
      var ev := Command(id, Receive);
      assert Receives(id, n)[0] == ev && Receives(id, n)[1..] == Receives(id, n - 1);
      ReceiveNext(w, id);
      ReceivesCatch(Step(w, ev), id, n - 1);
    }
  }

  lemma ReceiveNext(w: World, id: Id)
    requires w.exited.None? && id in w.commands
    requires var pc := w.commands[id];
             && (pc.Running? || pc.Caught?)
             && (pc.Running? ==> pc.next < |w.sent| && !AllOwned(w.sent[pc.next..]))
    ensures var pc, w' := w.commands[id], Step(w, Command(id, Receive));
            && id in w'.commands && w' == w.(commands := w.commands[id := w'.commands[id]])
            && w'.commands[id].since == pc.since
            && (w'.commands[id].Caught? ||
                (pc.Running? && w'.commands[id] == Running(pc.since, pc.next + 1)
                 && !AllOwned(w.sent[pc.next + 1..])))
    ensures w.commands[id].Running? && |w.sent| == w.commands[id].next + 1 ==>
              Step(w, Command(id, Receive)).commands[id].Caught?
  {
    var pc := w.commands[id];
    if pc.Running? {
      var rest := w.sent[pc.next..];
      var i :| 0 <= i < |rest| && !rest[i].owned;
      if i > 0 {
        assert w.sent[pc.next + 1..][i - 1] == rest[i];
      }
    }
  }

  /** The command returns the error of its cancelling. */
  function Fails(id: Id): seq<Event> {
    [Command(id, TakeError), Command(id, DropCatching)]
  }

  lemma CaughtFails(w: World, id: Id)
    requires w.exited.None? && id in w.commands && w.commands[id].Caught?
    ensures var w' := Run(w, Fails(id));
            && w'.exited.None? && id !in w'.commands && id in w'.outcomes
            && w'.outcomes[id] == Failed(if w.flags.stdoutClosed then StdoutClosed else Interrupted,
                                         From(w.sent, w.commands[id].since))
  {
    assert Fails(id)[1..] == [Command(id, DropCatching)] && Fails(id)[1..][1..] == [];
    var w1 := Step(w, Command(id, TakeError));
    var w2 := Step(w1, Command(id, DropCatching));
    assert Run(w2, []) == w2 && Run(w1, Fails(id)[1..]) == w2;
  }

  /** A press without an owner that does not quit stops every running command and nothing else: as
      soon as its receiver has come to the press it is caught, and it fails with the error a Ctrl-C
      means, or that of the closed stdout if that came before. */
  lemma {:induction false} PressCancelsCommand(w: World, id: Id, n: nat)
    requires Inv(w) && w.exited.None? && id in w.commands && w.commands[id].Running?
    requires w.owners == map[] && !w.flags.cancelling && w.stopping == {}
    requires |w.sent| - w.commands[id].next < n
    ensures var pressed := Step(w, CtrlC);
            && pressed.exited.None? && pressed.commands == w.commands
            && var caught := Run(pressed, Receives(id, n));
               && caught.exited.None? && id in caught.commands && caught.commands[id].Caught?
               && var w' := Run(caught, Fails(id));
                  && w'.exited.None? && id !in w'.commands && id in w'.outcomes
                  && w'.outcomes[id].Failed?
                  && w'.outcomes[id].error == if w.flags.stdoutClosed then StdoutClosed else Interrupted
  {
    PressExactly(w);
    var pc, pressed := w.commands[id], Step(w, CtrlC);
    assert PcInv(w.sent, pc);
    assert !pressed.sent[pc.next..][|w.sent| - pc.next].owned;
    ReceivesCatch(pressed, id, n);
    CaughtFails(Run(pressed, Receives(id, n)), id);
  }

  // ---- what a further press does -----------------------------------------------------------

  /** Whether a command is counted in every state of the run. */
  ghost predicate AlwaysCounted(w: World, events: seq<Event>)
    decreases |events|
  {
    w.commands != map[] && (events == [] || AlwaysCounted(Step(w, events[0]), events[1..]))
  }

  lemma {:induction false} CancellingStep(w: World, ev: Event)
    requires Counts(w) && w.flags.cancelling && Step(w, ev).commands != map[]
    ensures Step(w, ev).flags.cancelling
  {
    if w.exited.None? {
      match ev
      case CtrlC =>
      case StdoutFoundClosed =>
      case Catch(id) =>
      case Command(id, act) =>
        if id in w.commands {
          CancellingCommandStep(w, id, act);
        }
      case Guard(id, change) => GuardKeepsCancelling(w, id, change);
    }
  }

  lemma GuardKeepsCancelling(w: World, id: Id, change: GuardAct)
    ensures GuardStep(w, id, change).flags.cancelling == w.flags.cancelling
  {
  }

  lemma CancellingCommandStep(w: World, id: Id, act: CommandAct)
    requires w.flags.cancelling && id in w.commands && w.flags.catching == |w.commands|
    ensures var w' := CommandStep(w, id, act, w.commands[id]);
            w'.commands != map[] ==> w'.flags.cancelling
  {
    RemoveOne(w.commands, id);
    EmptyMap(w.commands);
    var w' := CommandStep(w, id, act, w.commands[id]);
    if !w'.flags.cancelling {
      assert w'.commands == w.commands - {id};
    }
  }

  lemma {:induction false} CancellingLasts(w: World, events: seq<Event>)
    requires Inv(w) && w.flags.cancelling && AlwaysCounted(w, events)
    ensures Inv(Run(w, events)) && Run(w, events).flags.cancelling
    decreases |events|
  {
    if events != [] {
      var w' := Step(w, events[0]);
      assert AlwaysCounted(w', events[1..]);
      CancellingStep(w, events[0]);
      StepKeepsInv(w, events[0]);
      CancellingLasts(w', events[1..]);
    }
  }

  /** After a press without an owner every further press quits, until no command is counted. */
  lemma {:induction false} FurtherPressQuits(w: World, events: seq<Event>)
    requires Inv(w) && w.exited.None? && w.owners == map[]
    requires AlwaysCounted(Step(w, CtrlC), events)
    ensures Step(Run(Step(w, CtrlC), events), CtrlC).exited.Some?
  {
    var pressed := Step(w, CtrlC);
    StepKeepsInv(w, CtrlC);
    if pressed.exited.Some? {
      ExitIsFinal(pressed, events);
    } else {
      CancellingLasts(pressed, events);
    }
  }

  lemma {:induction false} ExitIsFinal(w: World, events: seq<Event>)
    requires w.exited.Some?
    ensures Run(w, events) == w
    decreases |events|
  {
    if events != [] {
      ExitIsFinal(w, events[1..]);
    }
  }

  /** A command that stops after a Ctrl-C is never waited for: from the moment it says so, before it
      gives up its ownership, until its guard is dropped, a press quits. */
  lemma PressWhileStoppingQuits(w: World, id: Id)
    requires Inv(w) && w.exited.None? && id in w.stopping
    ensures Step(w, CtrlC).exited == Some(EXIT_INTERRUPTED)
  {
  }

  // ---- how a command and its guards end ----------------------------------------------------

  /** A command that begins is counted, and sees what is sent from then on. */
  lemma CatchStarts(w: World, id: Id)
    requires Inv(w) && w.exited.None? && id !in w.commands && id !in w.outcomes
    ensures var w' := Step(w, Catch(id));
            && w' == w.(flags := w'.flags, commands := w.commands[id := Running(|w.sent|, |w.sent|)])
            && w'.flags == w.flags.(catching := |w.commands| + 1)
  {
  }

  /** A command whose own work is done returns its result, unless a press that cancels it, or more than
      its receiver can hold, is still unread; then it fails. With the last command, the cancelling ends. */
  lemma EndsExactly(w: World, id: Id)
    requires Inv(w) && w.exited.None? && id in w.commands && w.commands[id].Running?
    ensures var pc, w' := w.commands[id], Step(Step(w, Command(id, Ready)), Command(id, End));
            && pc.since <= pc.next <= |w.sent|
            && w' == w.(flags := w'.flags, commands := w.commands - {id}, outcomes := w'.outcomes)
            && w'.outcomes == w.outcomes[id :=
                 if MayCancel(w.sent[pc.next..])
                 then Failed(if w.flags.stdoutClosed then StdoutClosed else Interrupted, w.sent[pc.since..])
                 else Completed(w.sent[pc.since..])]
            && (w'.flags.cancelling <==> w.flags.cancelling && w'.commands != map[])
  {
    var pc := w.commands[id];
    assert PcInv(w.sent, pc);
    var w1 := w.(commands := w.commands[id := Ending(pc.since, pc.next)]);
    assert Step(w, Command(id, Ready)) == w1;
    assert w1.commands - {id} == w.commands - {id};
    RemoveOne(w.commands, id);
    EmptyMap(w.commands - {id});
  }

  /** A command its caller stops waiting for is no longer counted. */
  lemma DropExactly(w: World, id: Id)
    requires Inv(w) && w.exited.None? && id in w.commands && w.commands[id].Running?
    ensures var w' := Step(w, Command(id, DropCatching));
            && w'.commands == w.commands - {id} && w'.outcomes == w.outcomes[id := Dropped]
            && w'.sent == w.sent && w'.exited.None?
            && (w'.flags.cancelling <==> w.flags.cancelling && w'.commands != map[])
  {
    RemoveOne(w.commands, id);
    EmptyMap(w.commands - {id});
  }

  function Owned(w: World, id: Id): World {
    w.(flags := w.flags.(owning := w.flags.owning + 1), owners := w.owners[id := |w.sent|])
  }

  /** A command that takes over Ctrl-C finds no earlier press in its guard, and giving it up again leaves
      no trace. */
  lemma OwnershipEnds(w: World, id: Id)
    requires w.exited.None? && id !in w.owners && id !in w.stopping
    ensures Step(w, Guard(id, Own)) == Owned(w, id) && !Waiting(Owned(w, id), id)
    ensures Step(Owned(w, id), Guard(id, DropOwning)) == w
  {
    assert Owned(w, id).owners - {id} == w.owners;
  }

  function Stopping(w: World, id: Id): World {
    w.(flags := w.flags.(stopping := w.flags.stopping + 1), stopping := w.stopping + {id})
  }

  /** Once it says that it is stopping, a press quits, with its ownership and after, until it ends. */
  lemma StoppingEnds(w: World, id: Id)
    requires w.exited.None? && id !in w.owners && id !in w.stopping
    ensures Step(Owned(w, id), Guard(id, IntoStopping)) == Stopping(Owned(w, id), id)
    ensures Step(Stopping(Owned(w, id), id), CtrlC).exited == Some(EXIT_INTERRUPTED)
    ensures Step(Stopping(Owned(w, id), id), Guard(id, DropOwning)) == Stopping(w, id)
    ensures Step(Stopping(w, id), CtrlC).exited == Some(EXIT_INTERRUPTED)
    ensures Step(Stopping(w, id), Guard(id, DropStopping)) == w
  {
    assert Owned(w, id).owners - {id} == w.owners;
    assert w.stopping + {id} - {id} == w.stopping;
  }

  /** A press that waits in a guard is found by asking, and only once. */
  lemma AskedOnce(w: World, id: Id)
    requires w.exited.None? && id in w.owners && w.owners[id] + 1 == |w.sent|
    ensures Waiting(w, id) && !Waiting(Step(w, Guard(id, AskPressed)), id)
  {
  }

  lemma StreamsComeAndGo(w: World, id: Id)
    requires Inv(w) && w.exited.None? && id !in w.streams
    ensures var streaming := Step(w, Guard(id, StreamData));
            && streaming.streams == w.streams + {id}
            && Step(streaming, Guard(id, DropStream)) == w
  {
    assert w.streams + {id} - {id} == w.streams;
  }

  // ---- a closed stdout ---------------------------------------------------------------------

  /** A closed stdout acts once and fixes the exit code for good: 1 exactly if a file's content was
      being written when it closed. */
  lemma {:induction false} ClosedStdoutActsOnce(w: World, events: seq<Event>)
    requires w.flags.stdoutClosed
    ensures var w' := Run(w, events);
            && w'.flags.stdoutClosed && ClosedCode(w'.flags) == ClosedCode(w.flags)
            && Step(w', StdoutFoundClosed) == w'
    decreases |events|
  {
    ClosedStdoutStep(w, StdoutFoundClosed);
    if events != [] {
      ClosedStdoutStep(w, events[0]);
      ClosedStdoutActsOnce(Step(w, events[0]), events[1..]);
    }
  }

  lemma ClosedStdoutStep(w: World, ev: Event)
    requires w.flags.stdoutClosed
    ensures var w' := Step(w, ev);
            w'.flags.stdoutClosed && w'.flags.dataCutShort == w.flags.dataCutShort
    ensures ev.StdoutFoundClosed? ==> Step(w, ev) == w
  {
    match ev
    case CtrlC =>
    case StdoutFoundClosed =>
    case Catch(id) =>
    case Command(id, act) =>
      if id in w.commands {
        CommandLeavesStdout(w, id, act, w.commands[id]);
      }
    case Guard(id, change) => GuardLeavesStdout(w, id, change);
  }

  lemma CommandLeavesStdout(w: World, id: Id, act: CommandAct, pc: Pc)
    ensures var w' := CommandStep(w, id, act, pc);
            w'.flags.stdoutClosed == w.flags.stdoutClosed
            && w'.flags.dataCutShort == w.flags.dataCutShort
  {
  }

  lemma GuardLeavesStdout(w: World, id: Id, change: GuardAct)
    ensures var w' := GuardStep(w, id, change);
            w'.flags.stdoutClosed == w.flags.stdoutClosed
            && w'.flags.dataCutShort == w.flags.dataCutShort
  {
  }

  lemma FirstClosedStdout(w: World)
    requires Inv(w) && w.exited.None? && !w.flags.stdoutClosed
    ensures var w' := Step(w, StdoutFoundClosed);
            && w'.flags.stdoutClosed
            && (ClosedCode(w'.flags) == EXIT_FAILURE <==> w.streams != {})
            && (w.commands == map[] ==> w'.exited == Some(ClosedCode(w'.flags)))
            && (w.commands != map[] ==> w'.exited.None? && w'.sent == w.sent + [Press(w.owners != map[])])
            && (w'.flags.cancelling <==>
                w.flags.cancelling || (w.commands != map[] && w.owners == map[]))
            && w'.commands == w.commands
  {
    EmptyMap(w.commands);
    EmptyMap(w.owners);
  }

  // ---- a command that handles Ctrl-C itself ------------------------------------------------

  /** Whether the guard would find a press if asked. */
  predicate Waiting(w: World, id: Id) {
    id in w.owners && w.owners[id] < |w.sent|
  }

  /** A press sent while a command owns Ctrl-C waits in its guard until the command asks for it or
      gives the guard up. */
  lemma {:induction false} OwnedPressWaits(w: World, events: seq<Event>, id: Id)
    requires Waiting(w, id)
    requires forall ev :: ev in events ==>
               ev != Guard(id, AskPressed) && ev != Guard(id, DropOwning)
    ensures Waiting(Run(w, events), id)
    decreases |events|
  {
    if events != [] {
      assert events[0] in events && forall ev :: ev in events[1..] ==> ev in events;
      OwnedPressWaitsStep(w, events[0], id);
      OwnedPressWaits(Step(w, events[0]), events[1..], id);
    }
  }

  lemma OwnedPressWaitsStep(w: World, ev: Event, id: Id)
    requires Waiting(w, id) && ev != Guard(id, AskPressed) && ev != Guard(id, DropOwning)
    ensures Waiting(Step(w, ev), id)
  {
  }

  /** With an owner a press is sent to it, marked as owned, and cancels nothing. */
  lemma OwnedPressGoesToOwner(w: World, id: Id)
    requires Inv(w) && w.exited.None? && id in w.owners && w.commands != map[]
    requires !w.flags.cancelling && w.stopping == {}
    ensures var w' := Step(w, CtrlC);
            && w'.exited.None? && !w'.flags.cancelling && Waiting(w', id)
            && w'.sent == w.sent + [Press(true)] && w'.commands == w.commands
  {
  }
}
