/**
 The notification connection: a listener that dials, adopts, reads and redials, and an exit that
 closes the stop channel and then the adopted connection. Adopting and closing hold notifyMu, so
 each is one step; every other pair of actions of the two may interleave.
 */
module Notify {
  import opened Wrappers

  type ConnId = nat

  datatype Listener =
    | Top
    | Dialling
    | Dialled(conn: ConnId)
    | Refused(conn: ConnId)
    | Reading(conn: ConnId)
    | Failed(conn: ConnId)
    | Waiting
    | Stopped

  datatype Exit = Running | Stopping | Exited

  /** dialled and adopted are history: the connections the listener has ever dialled and registered. */
  datatype State = State(
    stop: bool, notifyConn: Option<ConnId>, open: set<ConnId>, listener: Listener, exit: Exit,
    dialled: set<ConnId>, adopted: set<ConnId>)

  datatype Step =
    | CheckStop
    | DialFails
    | DialSucceeds(conn: ConnId)
    | Adopt
    | CloseRefused
    | Notified
    | ReadFails
    | CloseAdopted
    | WaitEnds
    | CloseStop
    | ExitCloses

  predicate Enabled(s: State, step: Step) {
    match step
    case CheckStop => s.listener.Top?
    case DialFails => s.listener.Dialling?
    case DialSucceeds(c) => s.listener.Dialling? && c !in s.dialled
    case Adopt => s.listener.Dialled?
    case CloseRefused => s.listener.Refused?
    case Notified => s.listener.Reading? && s.listener.conn in s.open
    case ReadFails => s.listener.Reading?
    case CloseAdopted => s.listener.Failed?
    case WaitEnds => s.listener.Waiting?
    case CloseStop => s.exit.Running?
    case ExitCloses => s.exit.Stopping?
  }

  /** closeNotifyConn, under the lock. */
  function CloseNotifyConn(s: State): (s': State) {
    if s.notifyConn.None? then s else s.(open := s.open - {s.notifyConn.value}, notifyConn := None)
  }

  function Next(s: State, step: Step): (s': State)
    requires Enabled(s, step)
  {
    match step
    case CheckStop => s.(listener := if s.stop then Stopped else Dialling)
    case DialFails => s.(listener := Waiting)
    case DialSucceeds(c) => s.(listener := Dialled(c), open := s.open + {c}, dialled := s.dialled + {c})
    case Adopt =>
      var c := s.listener.conn;
      if s.stop then s.(listener := Refused(c))
      else s.(listener := Reading(c), notifyConn := Some(c), adopted := s.adopted + {c})
    case CloseRefused => s.(listener := Stopped, open := s.open - {s.listener.conn})
    case Notified => s
    case ReadFails => s.(listener := Failed(s.listener.conn))
    case CloseAdopted => CloseNotifyConn(s).(listener := Waiting)
    case WaitEnds => s.(listener := Top)
    case CloseStop => s.(stop := true, exit := Stopping)
    case ExitCloses => CloseNotifyConn(s).(exit := Exited)
  }

  predicate Initial(s: State) {
    s == State(false, None, {}, Top, Running, {}, {})
  }

  ghost predicate IsRun(states: seq<State>, steps: seq<Step>) {
    && |states| == |steps| + 1
    && Initial(states[0])
    && forall i :: 0 <= i < |steps| ==> Enabled(states[i], steps[i]) && states[i + 1] == Next(states[i], steps[i])
  }

  /** At most the listener's own connection is open, and once adopted it is open only while registered. */
  ghost predicate Inv(s: State) {
    && s.adopted <= s.dialled && s.open <= s.dialled
    && (s.stop <==> !s.exit.Running?)
    && (s.exit.Exited? ==> s.notifyConn.None?)
    && (s.listener.Stopped? ==> s.stop)
    && match s.listener
       case Dialled(c) => s.open == {c} && s.notifyConn.None? && c !in s.adopted
       case Refused(c) => s.open == {c} && s.notifyConn.None? && c !in s.adopted && s.stop
       case Reading(c) => c in s.adopted && s.open <= {c} && s.notifyConn == if c in s.open then Some(c) else None
       case Failed(c) => c in s.adopted && s.open <= {c} && s.notifyConn == if c in s.open then Some(c) else None
       case _ => s.open == {} && s.notifyConn.None?
  }

  lemma StepKeepsInv(s: State, step: Step)
    requires Inv(s) && Enabled(s, step)
    ensures Inv(Next(s, step))
  {
  }

  lemma {:induction false} RunKeepsInv(states: seq<State>, steps: seq<Step>, n: nat)
    requires IsRun(states, steps) && n < |states|
    ensures Inv(states[n])
  {
    if n > 0 {
      RunKeepsInv(states, steps, n - 1);
      StepKeepsInv(states[n - 1], steps[n - 1]);
    }
  }

  lemma {:induction false} ExitedForever(states: seq<State>, steps: seq<Step>, m: nat, n: nat)
    requires IsRun(states, steps) && m <= n < |states| && states[m].exit.Exited?
    ensures states[n].exit.Exited? && states[n].adopted == states[m].adopted
  {
    if m < n {
      ExitedForever(states, steps, m, n - 1);
      RunKeepsInv(states, steps, n - 1);
    }
  }

  /**
   Once the exit has released the lock no adopted connection is open, none is adopted afterwards,
   and a listener still reading reads from a closed connection.
   */
  lemma ExitLeavesNothingOpen(states: seq<State>, steps: seq<Step>, m: nat, n: nat)
    requires IsRun(states, steps) && m <= n < |states| && states[m].exit.Exited?
    ensures states[n].open * states[n].adopted == {}
    ensures states[n].adopted == states[m].adopted && states[n].notifyConn.None?
    ensures states[n].listener.Reading? ==> states[n].listener.conn !in states[n].open
  {
    ExitedForever(states, steps, m, n);
    RunKeepsInv(states, steps, n);
  }

  /** Every connection ever dialled is closed by the time the listener stops. */
  lemma StoppedLeavesNothingOpen(states: seq<State>, steps: seq<Step>, n: nat)
    requires IsRun(states, steps) && n < |states| && states[n].listener.Stopped?
    ensures states[n].open == {} && states[n].notifyConn.None?
  {
    RunKeepsInv(states, steps, n);
  }

  /** The lock holder never closes a connection that is already closed. */
  lemma ClosesOnlyOpen(states: seq<State>, steps: seq<Step>, n: nat)
    requires IsRun(states, steps) && n < |states| && states[n].notifyConn.Some?
    ensures states[n].notifyConn.value in states[n].open
  {
    RunKeepsInv(states, steps, n);
  }

  /** The listener stops only for the exit. */
  lemma StopsOnlyForExit(states: seq<State>, steps: seq<Step>, n: nat)
    requires IsRun(states, steps) && n < |states| && states[n].listener.Stopped?
    ensures states[n].stop && exists i :: 0 <= i < n && steps[i] == CloseStop
  {
    RunKeepsInv(states, steps, n);
    StopWasClosed(states, steps, n);
  }

  lemma {:induction false} StopWasClosed(states: seq<State>, steps: seq<Step>, n: nat)
    requires IsRun(states, steps) && n < |states| && states[n].stop
    ensures exists i :: 0 <= i < n && steps[i] == CloseStop
  {
    if states[n - 1].stop {
      StopWasClosed(states, steps, n - 1);
    } else {
      assert steps[n - 1] == CloseStop;
    }
  }

  // ----- Redialling -----

  /** The steps the listener takes by itself, other than passing a notification on. */
  predicate ListenerMoves(step: Step) {
    !step.CloseStop? && !step.ExitCloses? && !step.Notified?
  }

  /** How many moves the listener is from its next dial. */
  function ToDial(l: Listener): (n: nat) {
    match l
    case Dialling => 0
    case Top => 1
    case Waiting => 2
    case Failed(_) => 3
    case Reading(_) => 4
    case Dialled(_) => 5
    case Refused(_) => 6
    case Stopped => 7
  }

  /**
   While there is no exit, each move brings the listener closer to its next dial, and one that dials
   leaves it at most five moves from the one after, waiting in between.
   */
  lemma MoveTowardsDial(states: seq<State>, steps: seq<Step>, n: nat)
    requires IsRun(states, steps) && n < |steps| && !states[n].stop && ListenerMoves(steps[n])
    ensures !states[n].listener.Dialling? ==> ToDial(states[n + 1].listener) == ToDial(states[n].listener) - 1
    ensures states[n].listener.Dialling? ==> states[n + 1].listener == Waiting || states[n + 1].listener.Dialled?
  {
    RunKeepsInv(states, steps, n);
  }

  /** How many moves the listener is from stopping, once the exit has asked it to. */
  function ToStop(l: Listener): (n: nat) {
    match l
    case Stopped => 0
    case Top => 1
    case Refused(_) => 1
    case Waiting => 2
    case Dialled(_) => 2
    case Dialling => 3
    case Failed(_) => 3
    case Reading(_) => 4
  }

  /** After the exit each move of the listener brings it closer to its end, which it reaches in at most four. */
  lemma MoveTowardsStop(states: seq<State>, steps: seq<Step>, n: nat)
    requires IsRun(states, steps) && n < |steps| && states[n].stop && ListenerMoves(steps[n])
    ensures ToStop(states[n + 1].listener) == ToStop(states[n].listener) - 1
  {
    RunKeepsInv(states, steps, n);
  }

  /** Nothing but its own moves takes the listener anywhere, and until it has stopped it has one. */
  lemma OnlyMovesMove(s: State)
    ensures forall step :: Enabled(s, step) && !ListenerMoves(step) ==> Next(s, step).listener == s.listener
    ensures !s.listener.Stopped? ==> exists step :: ListenerMoves(step) && Enabled(s, step)
  {
    var step := match s.listener
      case Top => CheckStop
      case Dialling => DialFails
      case Dialled(_) => Adopt
      case Refused(_) => CloseRefused
      case Reading(_) => ReadFails
      case Failed(_) => CloseAdopted
      case Waiting => WaitEnds
      case Stopped => CheckStop;
    assert ListenerMoves(step) && (!s.listener.Stopped? ==> Enabled(s, step));
  }

  /** The state after a sequence of steps, each of which must be enabled. */
  function After(s: State, steps: seq<Step>): (s': Option<State>) {
    if steps == [] then Some(s)
    else
      match After(s, steps[..|steps| - 1])
      case None => None
      case Some(t) => if Enabled(t, steps[|steps| - 1]) then Some(Next(t, steps[|steps| - 1])) else None
  }

  /** The moves that take the listener back to dialling. */
  function Redial(l: Listener): (steps: seq<Step>) {
    match l
    case Dialling => []
    case Top => [CheckStop]
    case Waiting => [WaitEnds, CheckStop]
    case Failed(_) => [CloseAdopted, WaitEnds, CheckStop]
    case Reading(_) => [ReadFails, CloseAdopted, WaitEnds, CheckStop]
    case Dialled(_) => [Adopt, ReadFails, CloseAdopted, WaitEnds, CheckStop]
    case Refused(_) => []
    case Stopped => []
  }

  lemma AfterOne(s: State, step: Step, rest: seq<Step>)
    requires Enabled(s, step)
    ensures After(s, [step] + rest) == After(Next(s, step), rest)
    decreases |rest|
  {
    if rest == [] {
      assert ([step] + rest)[..0] == [];
    } else {
      AfterOne(s, step, rest[..|rest| - 1]);
      assert ([step] + rest)[..|rest|] == [step] + rest[..|rest| - 1];
    }
  }

  /** From every state of a run without an exit the listener's own moves lead back to dialling. */
  lemma DialsAgain(states: seq<State>, steps: seq<Step>, n: nat)
    requires IsRun(states, steps) && n < |states| && !states[n].stop
    ensures var moves := Redial(states[n].listener);
            && (forall i :: 0 <= i < |moves| ==> ListenerMoves(moves[i]))
            && After(states[n], moves).Some? && After(states[n], moves).value.listener == Dialling
            && !After(states[n], moves).value.stop
  {
    RunKeepsInv(states, steps, n);
    RedialFrom(states[n]);
  }

  lemma {:induction false} RedialFrom(s: State)
    requires Inv(s) && !s.stop
    ensures After(s, Redial(s.listener)).Some? && After(s, Redial(s.listener)).value.listener == Dialling
    ensures !After(s, Redial(s.listener)).value.stop
    decreases ToDial(s.listener)
  {
    var moves := Redial(s.listener);
    if moves != [] {
      var next := Next(s, moves[0]);
      StepKeepsInv(s, moves[0]);
      assert moves == [moves[0]] + Redial(next.listener);
      AfterOne(s, moves[0], Redial(next.listener));
      RedialFrom(next);
    }
  }
}
