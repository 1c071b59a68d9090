/**
 Handlers and teardowns come to an end. Whatever state an association is in, its handler has a step that
 brings it closer to releasing the lock, and its teardown, once the lock is free, has one that brings it
 closer to closing; every step of a teardown does.
 */
module Progress {
  import opened Association

  // ----- Teardown -----

  function Stage(t: Teardown): (n: nat) {
    match t
    case Open => 6
    case Flagged => 5
    case Removing(_, _) => 4
    case Awaiting(_, _, _, _) => 4
    case Retrying(_) => 3
    case Finishing(_) => 2
    case Closed => 0
  }

  /** Batches still to be sent or waited for. */
  function Unsettleds(entries: seq<Retry>): (n: nat) {
    if entries == [] then 0
    else
      var last := entries[|entries| - 1].status;
      Unsettleds(entries[..|entries| - 1]) + if last.Unsent? then 2 else if last.Waiting? then 1 else 0
  }

  /** What is left to do within a stage. */
  function Work(t: Teardown): (n: nat) {
    match t
    case Removing(todo, _) => 2 * |todo|
    case Awaiting(_, _, todo, _) => 2 * |todo| + 1
    case Retrying(entries) => Unsettleds(entries)
    case Finishing(entries) => |entries|
    case _ => 0
  }

  lemma {:induction false} SettledOneMore(entries: seq<Retry>, i: nat, status: Status)
    requires i < |entries|
    ensures entries[i].status.Unsent? && status.Waiting? ==> Unsettleds(SetStatus(entries, i, status)) < Unsettleds(entries)
    ensures entries[i].status.Waiting? && (status.Finished? || status.TimedOut?) ==>
              Unsettleds(SetStatus(entries, i, status)) < Unsettleds(entries)
  {
    var n := |entries| - 1;
    var entries' := SetStatus(entries, i, status);
    if i < n {
      SettledOneMore(entries[..n], i, status);
      assert entries'[..n] == SetStatus(entries[..n], i, status);
    } else {
      assert entries'[..n] == entries[..n];
    }
  }

  /** Every step of a teardown brings it closer to its end. */
  lemma TeardownAdvances(conn: Conn, sh: Shared, step: TeardownStep)
    requires CanTear(conn, sh, step)
    ensures var t, t' := conn.teardown, TeardownConn(conn, sh, step).teardown;
            Stage(t') < Stage(t) || (Stage(t') == Stage(t) && Work(t') < Work(t))
  {
    var t := conn.teardown;
    match step
    case SendRetry(i) => SettledOneMore(t.entries, i, Waiting(sh.nextBatch));
    case RetryFinished(i, _) => SettledOneMore(t.entries, i, Finished);
    case RetryTimedOut(i) => SettledOneMore(t.entries, i, TimedOut);
    case _ =>
  }

  lemma {:induction false} Ordering(sessions: set<Session>) returns (order: seq<Session>)
    ensures multiset(order) == multiset(sessions)
  {
    if sessions == {} {
      order := [];
    } else {
      var s :| s in sessions;
      order := Ordering(sessions - {s});
      order := order + [s];
      assert sessions == (sessions - {s}) + {s};
    }
  }

  /** Until it is closed a teardown has a step to take, if only the lock is free for its snapshot. */
  lemma TeardownIsNotStuck(conn: Conn, sh: Shared) returns (step: TeardownStep)
    requires !conn.teardown.Closed? && (conn.teardown.Flagged? ==> conn.handler.Idle?)
    ensures CanTear(conn, sh, step)
  {
    var t := conn.teardown;
    match t
    case Open => step := SetFlag;
    case Flagged =>
      var order := Ordering(conn.store.Values);
      step := Snapshot(order);
    case Removing(todo, _) => step := if todo != [] then SendRemoval else StartRetry;
    case Awaiting(_, _, _, _) => step := RemovalTimedOut;
    case Retrying(entries) =>
      if i: nat :| i < |entries| && entries[i].status.Unsent? {
        step := SendRetry(i);
      } else if i: nat :| i < |entries| && entries[i].status.Waiting? {
        step := RetryTimedOut(i);
      } else {
        assert forall i :: 0 <= i < |entries| ==> !entries[i].status.Unsent? && !entries[i].status.Waiting?;
        step := RetriesDone;
      }
    case Finishing(entries) => step := if entries != [] then FinishOne else Close;
  }

  // ----- Handlers -----

  /** How many steps a handler is from releasing the lock, at most. */
  function ToIdle(h: Handler): (n: nat) {
    match h
    case Idle => 0
    case Entered(_) => 5
    case Parsing(_) => 3
    case Adding(_) => 2
    case RollingBack(_, _) => 1
    case Deleting(_, _) => 1
    case Modifying(_) => 4
    case Writing(_, _) => 3
    case Dropping(_, _, _, _, _) => 2
    case Undoing(_, _, _, _) => 1
  }

  /** Every step of a handler but an allocation brings it closer to releasing the lock. */
  lemma HandlerAdvances(conn: Conn, sh: Shared, step: HandlerStep)
    requires !conn.handler.Idle? && CanHandle(conn, sh, step) && !step.Allocate? && !step.ModifyAllocate?
    ensures ToIdle(HandlerConn(conn, sh, step).handler) < ToIdle(conn.handler)
  {
  }

  /** It has such a step until it has. */
  lemma HandlerIsNotStuck(conn: Conn, sh: Shared) returns (step: HandlerStep)
    requires !conn.handler.Idle?
    ensures CanHandle(conn, sh, step) && !step.Allocate? && !step.ModifyAllocate?
  {
    match conn.handler
    case Entered(_) => step := Refuse;
    case Parsing(_) => step := RefuseParsed;
    case Adding(_) => step := AddsAccepted;
    case RollingBack(_, _) => step := RollbackTimedOut;
    case Deleting(_, _) => step := DeleteKept;
    case Modifying(_) => step := RefuseModify;
    case Writing(_, _) => step := SendDrops({}, {});
    case Dropping(_, _, _, _, _) => step := ModifyDone(false);
    case Undoing(_, _, _, _) => step := UndoDone(false);
  }

  /**
   What the messages ask for is on offer: an establishment may draw any SEID nobody has drawn, a deletion or
   modification of a stored session on an open association starts, and any answer may come back.
   */
  lemma MessagesAreServed(conn: Conn, sh: Shared, seid: Seid, rules: set<Entry>, dels: set<Entry>)
    ensures conn.handler.Idle? ==> forall msg :: CanHandle(conn, sh, Enter(msg))
    ensures conn.handler == Entered(Establish) && seid != 0 && seid !in sh.owner && seid !in conn.store && !IsShutdown(conn) ==>
              && CanHandle(conn, sh, CheckEstablish(seid))
              && HandlerConn(conn, sh, CheckEstablish(seid)).handler == Parsing(seid)
    ensures conn.handler.Parsing? ==>
              && CanHandle(conn, sh, Allocate) && CanHandle(conn, sh, SendAdds(rules))
              && HandlerConn(conn, sh, SendAdds(rules)).handler == Adding(Session(conn.handler.seid, rules))
    ensures conn.handler.Adding? ==> CanHandle(conn, sh, AddsAccepted) && CanHandle(conn, sh, AddsRejected)
    ensures conn.handler == Entered(Delete(seid)) && seid in conn.store && !IsShutdown(conn) ==>
              CanHandle(conn, sh, CheckDelete) && HandlerConn(conn, sh, CheckDelete).handler.Deleting?
    ensures conn.handler == Entered(Modify(seid)) && seid in conn.store && !IsShutdown(conn) ==>
              && CanHandle(conn, sh, CheckModify)
              && HandlerConn(conn, sh, CheckModify).handler == Modifying(conn.store[seid])
    ensures conn.handler.Modifying? ==> CanHandle(conn, sh, ModifyAllocate) && CanHandle(conn, sh, SendModify(rules))
    ensures conn.handler.Writing? ==> CanHandle(conn, sh, SendDrops(dels, rules)) && CanHandle(conn, sh, SendUndo(conn.handler.adds))
  {
  }

  /** A session that parses a request for an address has one afterwards, its own or the first free one, unless none is free. */
  lemma AllocationGives(conn: Conn, sh: Shared, c: ConnId, step: HandlerStep, seid: Seid)
    requires CanHandle(conn, sh, step) && (step.Allocate? || step.ModifyAllocate?)
    requires seid == if step.Allocate? then conn.handler.seid else conn.handler.session.seid
    ensures var was, now := sh.pool, HandlerShared(conn, sh, c, step).pool;
            && (seid in was.inventory ==> now == was)
            && (seid !in was.inventory && was.free == [] ==> now == was)
            && (seid !in was.inventory && was.free != [] ==> seid in now.inventory && now.inventory[seid] == was.free[0] && now.free == was.free[1..])
            && forall s :: s != seid ==> (s in now.inventory <==> s in was.inventory) && (s in was.inventory ==> now.inventory[s] == was.inventory[s])
  {
  }
}
