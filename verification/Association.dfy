/**
 The life of sessions on any number of PFCP associations that share one datapath and one address
 pool, as a transition system. Each association has a session store, a gauge of its sessions, a
 lock that every session handler holds from its first step to its last, and a teardown that sets
 the shutdown flag, takes a snapshot of the store under the lock, and then removes the sessions
 without it. Steps of different associations, of handler and teardown, and of the datapath
 interleave freely.

 A datapath entry is a slot: whether a rule is held, and the commands issued for the entry that
 have not taken effect yet. Commands of one slot take effect in issue order. An add may be
 refused, and a command of a batch that was not answered in time may be lost.
 */
module Association {
  import opened IpPool

  type Seid = nat
  type Entry = nat
  type Addr = nat
  type ConnId = nat

  datatype Session = Session(seid: Seid, rules: set<Entry>)

  datatype Key = Key(seid: Seid, entry: Entry)

  datatype Cmd = Cmd(add: bool, batch: nat)

  datatype Slot = Slot(held: bool, queue: seq<Cmd>)

  /**
   What the associations share. The last two fields are history: the address a session was given
   from the pool, and the association that drew the session's ID.
   */
  datatype Shared = Shared(
    slots: map<Key, Slot>, nextBatch: nat, abandoned: set<(Seid, nat)>, pool: Pool<Addr>,
    given: map<Seid, Addr>, owner: map<Seid, ConnId>)

  datatype Message = Establish | Delete(seid: Seid) | Modify(seid: Seid) | ReportGone(seid: Seid)

  /** The handler that holds the lock, if any. */
  datatype Handler =
    | Idle
    | Entered(msg: Message)
    | Parsing(seid: Seid)
    | Adding(session: Session)
    | RollingBack(session: Session, batch: nat)
    | Deleting(session: Session, batch: nat)
    // A modification: parsing, writing its rules, removing others, or undoing a refused one.
    | Modifying(session: Session)
    | Writing(session: Session, adds: set<Entry>)
    | Dropping(session: Session, adds: set<Entry>, dels: set<Entry>, rules: set<Entry>, batch: nat)
    | Undoing(session: Session, adds: set<Entry>, dels: set<Entry>, batch: nat)

  datatype Status = Unsent | Waiting(batch: nat) | Finished | TimedOut

  datatype Retry = Retry(session: Session, status: Status)

  datatype Teardown =
    | Open
    | Flagged
    | Removing(todo: seq<Session>, unfinished: seq<Session>)
    | Awaiting(current: Session, batch: nat, todo: seq<Session>, unfinished: seq<Session>)
    | Retrying(entries: seq<Retry>)
    | Finishing(entries: seq<Retry>)
    | Closed

  datatype Conn = Conn(store: map<Seid, Session>, gauge: int, handler: Handler, teardown: Teardown)

  datatype State = State(conns: map<ConnId, Conn>, shared: Shared)

  /** The shutdown flag is set by the first step of the teardown. */
  predicate IsShutdown(conn: Conn) {
    !conn.teardown.Open?
  }

  // ----- The datapath -----

  function SlotAt(sh: Shared, k: Key): (s: Slot) {
    if k in sh.slots then sh.slots[k] else Slot(false, [])
  }

  /** One batch: a command for each of the entries of a session. */
  function Issue(sh: Shared, seid: Seid, entries: set<Entry>, add: bool): (sh': Shared) {
    sh.(slots := sh.slots + map e | e in entries ::
                              Key(seid, e) := Slot(SlotAt(sh, Key(seid, e)).held,
                                                   SlotAt(sh, Key(seid, e)).queue + [Cmd(add, sh.nextBatch)]),
        nextBatch := sh.nextBatch + 1)
  }

  /** Every command of a session's batch has taken effect. */
  ghost predicate Drained(sh: Shared, seid: Seid, batch: nat) {
    forall e: Entry, i :: 0 <= i < |SlotAt(sh, Key(seid, e)).queue| ==> SlotAt(sh, Key(seid, e)).queue[i].batch != batch
  }

  /** The first command of a slot takes effect; an add may be refused. */
  function Landed(s: Slot, refused: bool): (s': Slot)
    requires s.queue != []
  {
    Slot(if s.queue[0].add then s.held || !refused else false, s.queue[1..])
  }

  function Dropped(s: Slot, i: nat): (s': Slot)
    requires i < |s.queue|
  {
    Slot(s.held, s.queue[..i] + s.queue[i + 1..])
  }

  function Abandon(sh: Shared, seid: Seid, batch: nat): (sh': Shared) {
    sh.(abandoned := sh.abandoned + {(seid, batch)})
  }

  /**
   A batch all of whose calls have reported. Either every call was answered, so that every command
   has taken effect, or some failed, which counts as reported and leaves the command in doubt.
   */
  ghost predicate CanFinish(sh: Shared, seid: Seid, batch: nat, answered: bool) {
    answered ==> Drained(sh, seid, batch)
  }

  function Finish(sh: Shared, seid: Seid, batch: nat, answered: bool): (sh': Shared) {
    if answered then sh else Abandon(sh, seid, batch)
  }

  /** The session's address from the pool, if it has one or one is free. */
  function Give(sh: Shared, seid: Seid): (sh': Shared) {
    var pool := Allocated(sh.pool, seid);
    sh.(pool := pool, given := if seid in pool.inventory then sh.given[seid := pool.inventory[seid]] else sh.given)
  }

  function Release(sh: Shared, seid: Seid): (sh': Shared) {
    sh.(pool := Released(sh.pool, seid))
  }

  /** RemoveSession: the session is counted out and its store entry deleted. */
  function RemoveSession(conn: Conn, seid: Seid): (conn': Conn) {
    conn.(store := conn.store - {seid}, gauge := conn.gauge - 1)
  }

  // ----- The session handlers -----

  datatype HandlerStep =
    | Enter(msg: Message)
    | Refuse
    | CheckEstablish(seid: Seid)
    | Allocate
    | RefuseParsed
    | SendAdds(rules: set<Entry>)
    | AddsAccepted
    | AddsRejected
    | RollbackFinished(answered: bool)
    | RollbackTimedOut
    | CheckDelete
    | DeleteDone(answered: bool)
    | DeleteKept
    | CheckModify
    | ModifyAllocate
    | RefuseModify
    | SendModify(adds: set<Entry>)
    | SendDrops(dels: set<Entry>, rules: set<Entry>)
    | ModifyDone(answered: bool)
    | SendUndo(dels: set<Entry>)
    | UndoDone(answered: bool)
    | CheckReport

  ghost predicate CanHandle(conn: Conn, sh: Shared, step: HandlerStep) {
    var h := conn.handler;
    match step
    case Enter(_) => h.Idle?
    case Refuse => h.Entered?
    // A local SEID is nonzero and fresh: no association has ever drawn it.
    case CheckEstablish(seid) => h.Entered? && h.msg.Establish? && seid != 0 && seid !in sh.owner && seid !in conn.store
    case Allocate => h.Parsing?
    case RefuseParsed => h.Parsing?
    case SendAdds(_) => h.Parsing?
    case AddsAccepted => h.Adding?
    case AddsRejected => h.Adding?
    case RollbackFinished(answered) => h.RollingBack? && CanFinish(sh, h.session.seid, h.batch, answered)
    case RollbackTimedOut => h.RollingBack?
    case CheckDelete => h.Entered? && h.msg.Delete?
    case DeleteDone(answered) => h.Deleting? && CanFinish(sh, h.session.seid, h.batch, answered)
    case DeleteKept => h.Deleting?
    case CheckModify => h.Entered? && h.msg.Modify?
    case ModifyAllocate => h.Modifying?
    case RefuseModify => h.Modifying?
    case SendModify(_) => h.Modifying?
    case SendDrops(_, _) => h.Writing?
    case ModifyDone(answered) => h.Dropping? && CanFinish(sh, h.session.seid, h.batch, answered)
    // What the undo removes and what it writes back cover everything the modification wrote.
    case SendUndo(dels) => (h.Writing? || h.Dropping?) && h.adds <= h.session.rules + dels
    case UndoDone(answered) => h.Undoing? && CanFinish(sh, h.session.seid, h.batch, answered)
    case CheckReport => h.Entered? && h.msg.ReportGone?
  }

  /** The session a message names, if the handler may act on it. */
  predicate Acts(conn: Conn, seid: Seid) {
    seid in conn.store && !IsShutdown(conn)
  }

  /** What a handler's step does to its association. */
  ghost function HandlerConn(conn: Conn, sh: Shared, step: HandlerStep): (conn': Conn)
    requires CanHandle(conn, sh, step)
  {
    var h := conn.handler;
    var idle := conn.(handler := Idle);
    match step
    case Enter(msg) => conn.(handler := Entered(msg))
    case Refuse => idle
    case CheckEstablish(seid) =>
      if IsShutdown(conn) then idle else conn.(handler := Parsing(seid), gauge := conn.gauge + 1)
    case Allocate => conn
    case RefuseParsed => RemoveSession(idle, h.seid)
    case SendAdds(rules) => conn.(handler := Adding(Session(h.seid, rules)))
    // Accepted, or out of time, which is answered the same.
    case AddsAccepted => idle.(store := conn.store[h.session.seid := h.session])
    case AddsRejected => conn.(handler := RollingBack(h.session, sh.nextBatch))
    case RollbackFinished(_) => RemoveSession(idle, h.session.seid)
    case RollbackTimedOut => idle.(store := conn.store[h.session.seid := h.session])
    case CheckDelete =>
      if Acts(conn, h.msg.seid) then conn.(handler := Deleting(conn.store[h.msg.seid], sh.nextBatch)) else idle
    case DeleteDone(_) => RemoveSession(idle, h.session.seid)
    // Refused, or out of time.
    case DeleteKept => idle
    case CheckModify =>
      if Acts(conn, h.msg.seid) then conn.(handler := Modifying(conn.store[h.msg.seid])) else idle
    case ModifyAllocate => conn
    case RefuseModify => idle
    case SendModify(adds) => conn.(handler := Writing(h.session, adds))
    case SendDrops(dels, rules) => conn.(handler := Dropping(h.session, h.adds, dels, rules, sh.nextBatch))
    // Whether the removal finished or ran out of time, which is answered the same.
    case ModifyDone(_) => idle.(store := conn.store[h.session.seid := Session(h.session.seid, h.rules)])
    case SendUndo(dels) => conn.(handler := Undoing(h.session, h.adds, dels, sh.nextBatch))
    case UndoDone(_) => idle
    case CheckReport =>
      if Acts(conn, h.msg.seid) then RemoveSession(idle, h.msg.seid) else idle
  }

  /** What a handler's step does to the datapath and the pool. */
  ghost function HandlerShared(conn: Conn, sh: Shared, c: ConnId, step: HandlerStep): (sh': Shared)
    requires CanHandle(conn, sh, step)
  {
    var h := conn.handler;
    match step
    case Enter(_) => sh
    case Refuse => sh
    case CheckEstablish(seid) => if IsShutdown(conn) then sh else sh.(owner := sh.owner[seid := c])
    case Allocate => Give(sh, h.seid)
    case RefuseParsed => Release(sh, h.seid)
    case SendAdds(rules) => Issue(sh, h.seid, rules, true)
    case AddsAccepted => sh
    case AddsRejected => Issue(sh, h.session.seid, h.session.rules, false)
    case RollbackFinished(answered) => Release(Finish(sh, h.session.seid, h.batch, answered), h.session.seid)
    case RollbackTimedOut => Abandon(sh, h.session.seid, h.batch)
    case CheckDelete =>
      if Acts(conn, h.msg.seid) then Issue(sh, h.msg.seid, conn.store[h.msg.seid].rules, false) else sh
    case DeleteDone(answered) => Release(Finish(sh, h.session.seid, h.batch, answered), h.session.seid)
    case DeleteKept => Abandon(sh, h.session.seid, h.batch)
    case CheckModify => sh
    case ModifyAllocate => Give(sh, h.session.seid)
    case RefuseModify => sh
    case SendModify(adds) => Issue(sh, h.session.seid, adds, true)
    case SendDrops(dels, _) => Issue(sh, h.session.seid, dels, false)
    case ModifyDone(answered) => Finish(sh, h.session.seid, h.batch, answered)
    case SendUndo(dels) => Issue(sh, h.session.seid, dels, false)
    // The removal over, the rules the session had are written again.
    case UndoDone(answered) =>
      Issue(Finish(sh, h.session.seid, h.batch, answered), h.session.seid, h.session.rules, true)
    // The address is released before the rules are removed.
    case CheckReport =>
      if Acts(conn, h.msg.seid) then Issue(Release(sh, h.msg.seid), h.msg.seid, conn.store[h.msg.seid].rules, false) else sh
  }

  // ----- Teardown -----

  datatype TeardownStep =
    | SetFlag
    | Snapshot(order: seq<Session>)
    | SendRemoval
    | RemovalFinished(answered: bool)
    | RemovalTimedOut
    | StartRetry
    | SendRetry(i: nat)
    | RetryFinished(i: nat, answered: bool)
    | RetryTimedOut(i: nat)
    | RetriesDone
    | FinishOne
    | Close

  predicate Unsettled(t: Teardown, i: nat) {
    t.Retrying? && i < |t.entries|
  }

  ghost predicate CanTear(conn: Conn, sh: Shared, step: TeardownStep) {
    var t := conn.teardown;
    match step
    case SetFlag => t.Open?
    // The snapshot needs the lock, and lists the stored sessions in any order.
    case Snapshot(order) => t.Flagged? && conn.handler.Idle? && multiset(order) == multiset(conn.store.Values)
    case SendRemoval => t.Removing? && t.todo != []
    case RemovalFinished(answered) => t.Awaiting? && CanFinish(sh, t.current.seid, t.batch, answered)
    case RemovalTimedOut => t.Awaiting?
    case StartRetry => t.Removing? && t.todo == []
    case SendRetry(i) => Unsettled(t, i) && t.entries[i].status.Unsent?
    case RetryFinished(i, answered) =>
      && Unsettled(t, i) && t.entries[i].status.Waiting?
      && CanFinish(sh, t.entries[i].session.seid, t.entries[i].status.batch, answered)
    case RetryTimedOut(i) => Unsettled(t, i) && t.entries[i].status.Waiting?
    case RetriesDone =>
      t.Retrying? && forall i :: 0 <= i < |t.entries| ==> t.entries[i].status.Finished? || t.entries[i].status.TimedOut?
    case FinishOne => t.Finishing? && t.entries != []
    case Close => t.Finishing? && t.entries == []
  }

  function SetStatus(entries: seq<Retry>, i: nat, status: Status): (es: seq<Retry>)
    requires i < |entries|
    ensures |es| == |entries|
  {
    entries[i := entries[i].(status := status)]
  }

  /** The retry list of the sessions whose removal ran out of time. */
  function Unsents(sessions: seq<Session>): (es: seq<Retry>)
    ensures |es| == |sessions|
    ensures forall i :: 0 <= i < |es| ==> es[i] == Retry(sessions[i], Unsent)
  {
    seq(|sessions|, i requires 0 <= i < |sessions| => Retry(sessions[i], Unsent))
  }

  ghost function TeardownConn(conn: Conn, sh: Shared, step: TeardownStep): (conn': Conn)
    requires CanTear(conn, sh, step)
  {
    var t := conn.teardown;
    match step
    case SetFlag => conn.(teardown := Flagged)
    case Snapshot(order) => conn.(teardown := Removing(order, []))
    case SendRemoval => conn.(teardown := Awaiting(t.todo[0], sh.nextBatch, t.todo[1..], t.unfinished))
    case RemovalFinished(_) => RemoveSession(conn.(teardown := Removing(t.todo, t.unfinished)), t.current.seid)
    case RemovalTimedOut => conn.(teardown := Removing(t.todo, t.unfinished + [t.current]))
    case StartRetry => conn.(teardown := Retrying(Unsents(t.unfinished)))
    case SendRetry(i) => conn.(teardown := Retrying(SetStatus(t.entries, i, Waiting(sh.nextBatch))))
    case RetryFinished(i, _) => conn.(teardown := Retrying(SetStatus(t.entries, i, Finished)))
    case RetryTimedOut(i) => conn.(teardown := Retrying(SetStatus(t.entries, i, TimedOut)))
    case RetriesDone => conn.(teardown := Finishing(t.entries))
    case FinishOne => RemoveSession(conn.(teardown := Finishing(t.entries[1..])), t.entries[0].session.seid)
    case Close => conn.(teardown := Closed)
  }

  ghost function TeardownShared(conn: Conn, sh: Shared, step: TeardownStep): (sh': Shared)
    requires CanTear(conn, sh, step)
  {
    var t := conn.teardown;
    match step
    case SetFlag => sh
    case Snapshot(_) => sh
    case SendRemoval => Issue(sh, t.todo[0].seid, t.todo[0].rules, false)
    case RemovalFinished(answered) => Release(Finish(sh, t.current.seid, t.batch, answered), t.current.seid)
    case RemovalTimedOut => Abandon(sh, t.current.seid, t.batch)
    case StartRetry => sh
    case SendRetry(i) => Issue(sh, t.entries[i].session.seid, t.entries[i].session.rules, false)
    case RetryFinished(i, answered) => Finish(sh, t.entries[i].session.seid, t.entries[i].status.batch, answered)
    case RetryTimedOut(i) => Abandon(sh, t.entries[i].session.seid, t.entries[i].status.batch)
    case RetriesDone => sh
    // An address whose removal did not finish twice stays held.
    case FinishOne => if t.entries[0].status.Finished? then Release(sh, t.entries[0].session.seid) else sh
    case Close => sh
  }

  // ----- The whole system -----

  datatype Step =
    | Connect(c: ConnId)
    | Handle(c: ConnId, hstep: HandlerStep)
    | Tear(c: ConnId, tstep: TeardownStep)
    | Land(k: Key, refused: bool)
    | Drop(k: Key, i: nat)

  ghost predicate CanStep(s: State, step: Step) {
    match step
    case Connect(c) => c !in s.conns
    case Handle(c, st) => c in s.conns && CanHandle(s.conns[c], s.shared, st)
    case Tear(c, st) => c in s.conns && CanTear(s.conns[c], s.shared, st)
    case Land(k, _) => SlotAt(s.shared, k).queue != []
    case Drop(k, i) =>
      var q := SlotAt(s.shared, k).queue;
      i < |q| && (k.seid, q[i].batch) in s.shared.abandoned
  }

  ghost function Apply(s: State, step: Step): (s': State)
    requires CanStep(s, step)
  {
    match step
    case Connect(c) => s.(conns := s.conns[c := Conn(map[], 0, Idle, Open)])
    case Handle(c, st) =>
      State(s.conns[c := HandlerConn(s.conns[c], s.shared, st)], HandlerShared(s.conns[c], s.shared, c, st))
    case Tear(c, st) =>
      State(s.conns[c := TeardownConn(s.conns[c], s.shared, st)], TeardownShared(s.conns[c], s.shared, st))
    case Land(k, refused) =>
      s.(shared := s.shared.(slots := s.shared.slots[k := Landed(SlotAt(s.shared, k), refused)]))
    case Drop(k, i) =>
      s.(shared := s.shared.(slots := s.shared.slots[k := Dropped(SlotAt(s.shared, k), i)]))
  }

  /** No association yet, an empty datapath, and every address free. */
  ghost predicate Initial(s: State, addresses: set<Addr>) {
    && s.conns == map[] && s.shared.slots == map[] && s.shared.abandoned == {}
    && s.shared.given == map[] && s.shared.owner == map[]
    && s.shared.pool.inventory == map[] && Partitions(s.shared.pool, addresses)
  }

  ghost predicate IsRun(states: seq<State>, steps: seq<Step>, addresses: set<Addr>) {
    && |states| == |steps| + 1
    && Initial(states[0], addresses)
    && forall i :: 0 <= i < |steps| ==> CanStep(states[i], steps[i]) && states[i + 1] == Apply(states[i], steps[i])
  }
}
