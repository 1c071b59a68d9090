/**
 The exact condition for address safety. A run keeps every live rule's address out of the free ones
 if and only if each step that gives an address back finds its session without an address or with no
 rule programmed or on its way. Nothing is asked of any other step.
 */
module QuietReleases {
  import opened Wrappers
  import opened IpPool
  import opened Association
  import opened TeardownOrder
  import opened AddressSafety

  /** The session whose address a handler's step gives back. */
  function HandlerReleases(conn: Conn, step: HandlerStep): (seid: Option<Seid>) {
    var h := conn.handler;
    if step.RefuseParsed? && h.Parsing? then Some(h.seid)
    else if step.RollbackFinished? && h.RollingBack? then Some(h.session.seid)
    else if step.DeleteDone? && h.Deleting? then Some(h.session.seid)
    else if step.CheckReport? && h.Entered? && h.msg.ReportGone? && Acts(conn, h.msg.seid) then Some(h.msg.seid)
    else None
  }

  function TeardownReleases(conn: Conn, step: TeardownStep): (seid: Option<Seid>) {
    var t := conn.teardown;
    if step.RemovalFinished? && t.Awaiting? then Some(t.current.seid)
    else if step.FinishOne? && t.Finishing? && t.entries != [] && t.entries[0].status.Finished? then Some(t.entries[0].session.seid)
    else None
  }

  function Releases(s: State, step: Step): (seid: Option<Seid>) {
    if step.Handle? && step.c in s.conns then HandlerReleases(s.conns[step.c], step.hstep)
    else if step.Tear? && step.c in s.conns then TeardownReleases(s.conns[step.c], step.tstep)
    else None
  }

  ghost predicate MayRelease(sh: Shared, seid: Option<Seid>) {
    seid.Some? ==> seid.value !in sh.pool.inventory || Quiet(sh, seid.value)
  }

  /** The step gives back no address, or that of a session without one or without a live entry. */
  ghost predicate QuietRelease(s: State, step: Step) {
    MayRelease(s.shared, Releases(s, step))
  }

  // ----- What is kept while every release is quiet -----

  /** The sessions of an association: the stored ones and the one being established. */
  function Named(conn: Conn): (seids: set<Seid>) {
    var h := conn.handler;
    conn.store.Keys +
    if h.Parsing? then {h.seid} else if h.Adding? || h.RollingBack? then {h.session.seid} else {}
  }

  ghost predicate EntriesIssued(entries: seq<Retry>, sh: Shared) {
    forall i :: 0 <= i < |entries| && entries[i].status.Waiting? ==> entries[i].status.batch < sh.nextBatch
  }

  /** Batches that are waited for have been issued. */
  ghost predicate BatchesIssued(conn: Conn, sh: Shared) {
    var h, t := conn.handler, conn.teardown;
    && (h.RollingBack? || h.Deleting? || h.Dropping? || h.Undoing? ==> h.batch < sh.nextBatch)
    && (t.Awaiting? ==> t.batch < sh.nextBatch)
    && (t.Retrying? || t.Finishing? ==> EntriesIssued(t.entries, sh))
  }

  /** Every session of the association is its own and holds the address it was given. */
  ghost predicate Held(c: ConnId, conn: Conn, sh: Shared) {
    BatchesIssued(conn, sh) && forall seid :: seid in Named(conn) ==> Owned(sh, c, seid) && Holds(sh, seid)
  }

  /** What a step of one association leaves for itself and for the others. */
  ghost predicate Keeps(c: ConnId, conn': Conn, sh: Shared, sh': Shared, addresses: set<Addr>) {
    && Held(c, conn', sh') && SharedInv(sh', addresses) && OwnersKept(sh, sh') && sh.nextBatch <= sh'.nextBatch
    && forall s :: s in sh.owner && sh.owner[s] != c && Holds(sh, s) ==> Holds(sh', s)
  }

  /** A change of the shared state that touches at most one session. */
  ghost predicate Touches(sh: Shared, sh': Shared, x: Seid, addresses: set<Addr>) {
    && SharedInv(sh', addresses) && OwnersKept(sh, sh') && sh.nextBatch <= sh'.nextBatch
    && forall s :: s != x ==> KeepsSeid(sh, sh', s)
  }

  lemma TouchesTwice(sh: Shared, sh1: Shared, sh2: Shared, x: Seid, addresses: set<Addr>)
    requires Touches(sh, sh1, x, addresses) && Touches(sh1, sh2, x, addresses)
    ensures Touches(sh, sh2, x, addresses)
  {
    forall s | s != x
      ensures KeepsSeid(sh, sh2, s)
    {
      KeepsTwice(sh, sh1, sh2, s);
    }
  }

  lemma ReleaseTouches(sh: Shared, seid: Seid, addresses: set<Addr>)
    requires SharedInv(sh, addresses) && MayRelease(sh, Some(seid))
    ensures Touches(sh, Release(sh, seid), seid, addresses)
  {
    if seid in sh.pool.inventory {
      ReleaseQuiet(sh, seid, addresses);
    } else {
      assert Release(sh, seid) == sh;
      SameShared(sh);
    }
  }

  lemma FinishTouches(sh: Shared, seid: Seid, batch: nat, answered: bool, addresses: set<Addr>)
    requires SharedInv(sh, addresses) && batch < sh.nextBatch
    ensures Touches(sh, Finish(sh, seid, batch, answered), seid, addresses)
    ensures Holds(sh, seid) ==> Holds(Finish(sh, seid, batch, answered), seid)
    ensures forall k :: Live(Finish(sh, seid, batch, answered), k) <==> Live(sh, k)
  {
    SameShared(sh);
    AbandonShared(sh, seid, batch, addresses);
  }

  /** A finished removal and the release after it. */
  lemma FinishReleaseTouches(sh: Shared, seid: Seid, batch: nat, answered: bool, addresses: set<Addr>)
    requires SharedInv(sh, addresses) && batch < sh.nextBatch && MayRelease(sh, Some(seid))
    ensures Touches(sh, Release(Finish(sh, seid, batch, answered), seid), seid, addresses)
  {
    var sh1 := Finish(sh, seid, batch, answered);
    FinishTouches(sh, seid, batch, answered, addresses);
    ReleaseTouches(sh1, seid, addresses);
    TouchesTwice(sh, sh1, Release(sh1, seid), seid, addresses);
  }

  lemma GiveTouches(sh: Shared, seid: Seid, addresses: set<Addr>)
    requires SharedInv(sh, addresses) && seid in sh.owner && Holds(sh, seid)
    ensures Touches(sh, Give(sh, seid), seid, addresses) && Holds(Give(sh, seid), seid)
  {
    GiveShared(sh, seid, addresses);
  }

  /** Writing rules of a session that holds its address. */
  lemma AddsTouch(sh: Shared, seid: Seid, adds: set<Entry>, addresses: set<Addr>)
    requires SharedInv(sh, addresses) && seid in sh.owner && Holds(sh, seid)
    ensures Touches(sh, Issue(sh, seid, adds, true), seid, addresses) && Holds(Issue(sh, seid, adds, true), seid)
  {
    var sh' := Issue(sh, seid, adds, true);
    forall k | Live(sh', k)
      ensures k.seid in sh'.owner && Holds(sh', k.seid)
    {
      IssueLive(sh, seid, adds, true, k);
    }
    forall s | s != seid
      ensures KeepsSeid(sh, sh', s)
    {
      IssueKeeps(sh, seid, adds, true, s);
    }
  }

  lemma DeletesTouch(sh: Shared, seid: Seid, dels: set<Entry>, addresses: set<Addr>)
    requires SharedInv(sh, addresses)
    ensures Touches(sh, Issue(sh, seid, dels, false), seid, addresses)
    ensures Holds(sh, seid) ==> Holds(Issue(sh, seid, dels, false), seid)
  {
    IssueDeletes(sh, Session(seid, dels), addresses);
  }

  /** A step that touches at most one session, which is the association's own. */
  lemma KeepsOthers(c: ConnId, conn: Conn, conn': Conn, sh: Shared, sh': Shared, x: Seid, addresses: set<Addr>)
    requires Held(c, conn, sh) && Touches(sh, sh', x, addresses) && x in Named(conn)
    requires Named(conn') <= Named(conn) && BatchesIssued(conn', sh')
    requires x in Named(conn') ==> Holds(sh', x)
    ensures Keeps(c, conn', sh, sh', addresses)
  {
    forall seid | seid in Named(conn')
      ensures Owned(sh', c, seid) && Holds(sh', seid)
    {
      assert seid != x ==> KeepsSeid(sh, sh', seid);
    }
    forall s | s in sh.owner && sh.owner[s] != c && Holds(sh, s)
      ensures Holds(sh', s)
    {
      assert Owned(sh, c, x) && KeepsSeid(sh, sh', s);
    }
  }

  // ----- Steps of a handler -----

  /** The session that a handler's step is about, if it reaches anything shared. */
  function Target(conn: Conn, step: HandlerStep): (seid: Option<Seid>)
    ensures seid.Some? && HandlerReleases(conn, step).Some? ==> seid == HandlerReleases(conn, step)
  {
    var h := conn.handler;
    if step.Enter? || step.Refuse? || step.CheckEstablish? || step.CheckModify? || step.RefuseModify? || h.Idle? then None
    else if h.Entered? then
      if !h.msg.Establish? && (step.CheckDelete? || step.CheckReport?) && Acts(conn, h.msg.seid) then Some(h.msg.seid) else None
    else if h.Parsing? then Some(h.seid)
    else Some(h.session.seid)
  }

  lemma KeysWithout(store: map<Seid, Session>, seid: Seid)
    ensures (store - {seid}).Keys == store.Keys - {seid}
  {
  }

  lemma KeysWith(store: map<Seid, Session>, seid: Seid, session: Session)
    ensures store[seid := session].Keys == store.Keys + {seid}
  {
  }

  /** A session that is being deleted or modified is a stored one. */
  predicate HandledIsNamed(conn: Conn) {
    Committed(conn.handler) && !conn.handler.Parsing? ==> conn.handler.session.seid in Named(conn)
  }

  lemma HandlerNames(conn: Conn, sh: Shared, step: HandlerStep)
    requires HandledIsNamed(conn) && CanHandle(conn, sh, step) && !step.CheckEstablish?
    ensures Named(HandlerConn(conn, sh, step)) <= Named(conn)
    ensures HandlerReleases(conn, step).Some? ==> HandlerReleases(conn, step).value !in Named(HandlerConn(conn, sh, step))
  {
    var conn' := HandlerConn(conn, sh, step);
    if HandlerReleases(conn, step).Some? {
      KeysWithout(conn.store, HandlerReleases(conn, step).value);
    } else if step.AddsAccepted? || step.RollbackTimedOut? {
      KeysWith(conn.store, conn.handler.session.seid, conn.handler.session);
    } else if step.ModifyDone? {
      KeysWith(conn.store, conn.handler.session.seid, Session(conn.handler.session.seid, conn.handler.rules));
    } else {
      assert conn'.store == conn.store;
    }
  }

  lemma HandlerTarget(conn: Conn, sh: Shared, c: ConnId, step: HandlerStep)
    requires ConnInv(conn) && CanHandle(conn, sh, step) && !step.CheckEstablish?
    ensures Target(conn, step).Some? ==> Target(conn, step).value in Named(conn)
    ensures Target(conn, step).None? ==> HandlerShared(conn, sh, c, step) == sh && HandlerReleases(conn, step).None?
  {
  }

  lemma HandlerBatches(conn: Conn, sh: Shared, c: ConnId, step: HandlerStep)
    requires BatchesIssued(conn, sh) && CanHandle(conn, sh, step)
    ensures BatchesIssued(HandlerConn(conn, sh, step), HandlerShared(conn, sh, c, step))
  {
    var conn', sh' := HandlerConn(conn, sh, step), HandlerShared(conn, sh, c, step);
    assert conn'.teardown == conn.teardown && sh.nextBatch <= sh'.nextBatch;
  }

  lemma HandlerTouches(conn: Conn, sh: Shared, c: ConnId, step: HandlerStep, x: Seid, addresses: set<Addr>)
    requires CanHandle(conn, sh, step) && SharedInv(sh, addresses) && BatchesIssued(conn, sh)
    requires Target(conn, step) == Some(x) && x in sh.owner && Holds(sh, x) && MayRelease(sh, HandlerReleases(conn, step))
    ensures Touches(sh, HandlerShared(conn, sh, c, step), x, addresses)
    ensures HandlerReleases(conn, step).None? ==> Holds(HandlerShared(conn, sh, c, step), x)
  {
    var h := conn.handler;
    match step
    case Allocate => GiveTouches(sh, x, addresses);
    case RefuseParsed => ReleaseTouches(sh, x, addresses);
    case SendAdds(rules) => AddsTouch(sh, x, rules, addresses);
    case AddsAccepted => SameShared(sh);
    case AddsRejected => DeletesTouch(sh, x, h.session.rules, addresses);
    case RollbackFinished(answered) => FinishReleaseTouches(sh, x, h.batch, answered, addresses);
    case RollbackTimedOut => FinishTouches(sh, x, h.batch, false, addresses);
    case CheckDelete => DeletesTouch(sh, x, conn.store[x].rules, addresses);
    case DeleteDone(answered) => FinishReleaseTouches(sh, x, h.batch, answered, addresses);
    case DeleteKept => FinishTouches(sh, x, h.batch, false, addresses);
    case ModifyAllocate => GiveTouches(sh, x, addresses);
    case SendModify(adds) => AddsTouch(sh, x, adds, addresses);
    case SendDrops(dels, _) => DeletesTouch(sh, x, dels, addresses);
    case ModifyDone(answered) => FinishTouches(sh, x, h.batch, answered, addresses);
    case SendUndo(dels) => DeletesTouch(sh, x, dels, addresses);
    case UndoDone(answered) => UndoTouches(sh, h.session, h.batch, answered, addresses);
    case CheckReport => ReportTouches(sh, conn.store[x].rules, x, addresses);
  }

  lemma UndoTouches(sh: Shared, s: Session, batch: nat, answered: bool, addresses: set<Addr>)
    requires SharedInv(sh, addresses) && batch < sh.nextBatch && s.seid in sh.owner && Holds(sh, s.seid)
    ensures var sh' := Issue(Finish(sh, s.seid, batch, answered), s.seid, s.rules, true);
            Touches(sh, sh', s.seid, addresses) && Holds(sh', s.seid)
  {
    var sh1 := Finish(sh, s.seid, batch, answered);
    FinishTouches(sh, s.seid, batch, answered, addresses);
    AddsTouch(sh1, s.seid, s.rules, addresses);
    TouchesTwice(sh, sh1, Issue(sh1, s.seid, s.rules, true), s.seid, addresses);
  }

  lemma ReportTouches(sh: Shared, rules: set<Entry>, seid: Seid, addresses: set<Addr>)
    requires SharedInv(sh, addresses) && MayRelease(sh, Some(seid))
    ensures Touches(sh, Issue(Release(sh, seid), seid, rules, false), seid, addresses)
  {
    var sh1 := Release(sh, seid);
    ReleaseTouches(sh, seid, addresses);
    DeletesTouch(sh1, seid, rules, addresses);
    TouchesTwice(sh, sh1, Issue(sh1, seid, rules, false), seid, addresses);
  }

  lemma EstablishKeeps(c: ConnId, conn: Conn, sh: Shared, seid: Seid, addresses: set<Addr>)
    requires Held(c, conn, sh) && SharedInv(sh, addresses) && CanHandle(conn, sh, CheckEstablish(seid))
    ensures Keeps(c, HandlerConn(conn, sh, CheckEstablish(seid)), sh, HandlerShared(conn, sh, c, CheckEstablish(seid)), addresses)
  {
    if !IsShutdown(conn) {
      OwnShared(sh, seid, c, addresses);
      var sh', conn' := HandlerShared(conn, sh, c, CheckEstablish(seid)), HandlerConn(conn, sh, CheckEstablish(seid));
      forall s | s in Named(conn')
        ensures Owned(sh', c, s) && Holds(sh', s)
      {
        assert s != seid ==> s in Named(conn) && KeepsSeid(sh, sh', s);
      }
    }
  }

  lemma KeepsSame(c: ConnId, conn: Conn, conn': Conn, sh: Shared, addresses: set<Addr>)
    requires Held(c, conn, sh) && SharedInv(sh, addresses) && Named(conn') <= Named(conn) && BatchesIssued(conn', sh)
    ensures Keeps(c, conn', sh, sh, addresses)
  {
  }

  lemma TargetKeeps(c: ConnId, conn: Conn, sh: Shared, step: HandlerStep, x: Seid, addresses: set<Addr>)
    requires HandledIsNamed(conn) && Held(c, conn, sh) && SharedInv(sh, addresses) && CanHandle(conn, sh, step)
    requires MayRelease(sh, HandlerReleases(conn, step)) && Target(conn, step) == Some(x) && x in Named(conn)
    requires !step.CheckEstablish?
    ensures Keeps(c, HandlerConn(conn, sh, step), sh, HandlerShared(conn, sh, c, step), addresses)
  {
    var conn', sh' := HandlerConn(conn, sh, step), HandlerShared(conn, sh, c, step);
    HandlerNames(conn, sh, step);
    HandlerBatches(conn, sh, c, step);
    assert Owned(sh, c, x) && Holds(sh, x);
    HandlerTouches(conn, sh, c, step, x, addresses);
    KeepsOthers(c, conn, conn', sh, sh', x, addresses);
  }

  lemma HandlerKeeps(c: ConnId, conn: Conn, sh: Shared, step: HandlerStep, addresses: set<Addr>)
    requires ConnInv(conn) && Held(c, conn, sh) && SharedInv(sh, addresses) && CanHandle(conn, sh, step)
    requires MayRelease(sh, HandlerReleases(conn, step))
    ensures Keeps(c, HandlerConn(conn, sh, step), sh, HandlerShared(conn, sh, c, step), addresses)
  {
    assert HandledIsNamed(conn);
    if step.CheckEstablish? {
      EstablishKeeps(c, conn, sh, step.seid, addresses);
    } else {
      HandlerTarget(conn, sh, c, step);
      if Target(conn, step).Some? {
        TargetKeeps(c, conn, sh, step, Target(conn, step).value, addresses);
      } else {
        HandlerNames(conn, sh, step);
        HandlerBatches(conn, sh, c, step);
        KeepsSame(c, conn, HandlerConn(conn, sh, step), sh, addresses);
      }
    }
  }

  // ----- Steps of a teardown -----

  /** The session that a step of the teardown is about, by its place among those left. */
  function Place(conn: Conn, step: TeardownStep): (i: Option<nat>) {
    match step
    case SendRemoval => Some(0)
    case RemovalFinished(_) => Some(0)
    case RemovalTimedOut => Some(0)
    case SendRetry(i) => Some(i)
    case RetryFinished(i, _) => Some(i)
    case RetryTimedOut(i) => Some(i)
    case FinishOne => Some(0)
    case _ => None
  }

  lemma TeardownNames(conn: Conn, sh: Shared, step: TeardownStep)
    requires CanTear(conn, sh, step) && (PastSnapshot(conn) ==> !Committed(conn.handler))
    ensures Named(TeardownConn(conn, sh, step)) <= Named(conn)
    ensures TeardownReleases(conn, step).Some? ==>
              TeardownReleases(conn, step).value !in Named(TeardownConn(conn, sh, step))
  {
    if step.RemovalFinished? {
      KeysWithout(conn.store, conn.teardown.current.seid);
    } else if step.FinishOne? {
      KeysWithout(conn.store, conn.teardown.entries[0].session.seid);
    }
  }

  lemma TeardownBatches(conn: Conn, sh: Shared, step: TeardownStep)
    requires BatchesIssued(conn, sh) && CanTear(conn, sh, step)
    ensures BatchesIssued(TeardownConn(conn, sh, step), TeardownShared(conn, sh, step))
  {
    var conn', sh' := TeardownConn(conn, sh, step), TeardownShared(conn, sh, step);
    assert conn'.handler == conn.handler && sh.nextBatch <= sh'.nextBatch;
    if step.SendRetry? || step.RetryFinished? || step.RetryTimedOut? || step.RetriesDone? || step.FinishOne? {
      var entries, entries' := conn.teardown.entries, conn'.teardown.entries;
      forall i | 0 <= i < |entries'| && entries'[i].status.Waiting?
        ensures entries'[i].status.batch < sh'.nextBatch
      {
        assert step.FinishOne? ==> entries'[i] == entries[i + 1];
      }
    }
  }

  lemma TeardownTouches(conn: Conn, sh: Shared, step: TeardownStep, x: Seid, addresses: set<Addr>)
    requires CanTear(conn, sh, step) && SharedInv(sh, addresses) && BatchesIssued(conn, sh)
    requires Place(conn, step).Some? && Place(conn, step).value < |Remaining(conn.teardown)|
    requires x == Remaining(conn.teardown)[Place(conn, step).value].seid && Holds(sh, x)
    requires MayRelease(sh, TeardownReleases(conn, step))
    ensures Touches(sh, TeardownShared(conn, sh, step), x, addresses)
    ensures TeardownReleases(conn, step).None? ==> Holds(TeardownShared(conn, sh, step), x)
  {
    var t := conn.teardown;
    match step
    case SendRemoval => DeletesTouch(sh, x, t.todo[0].rules, addresses);
    case RemovalFinished(answered) => FinishReleaseTouches(sh, x, t.batch, answered, addresses);
    case RemovalTimedOut => FinishTouches(sh, x, t.batch, false, addresses);
    case SendRetry(i) => DeletesTouch(sh, x, t.entries[i].session.rules, addresses);
    case RetryFinished(i, answered) => FinishTouches(sh, x, t.entries[i].status.batch, answered, addresses);
    case RetryTimedOut(i) => FinishTouches(sh, x, t.entries[i].status.batch, false, addresses);
    case FinishOne =>
      SameShared(sh);
      if t.entries[0].status.Finished? {
        ReleaseTouches(sh, x, addresses);
      }
  }

  lemma PlaceIsListed(conn: Conn, sh: Shared, step: TeardownStep)
    requires CanTear(conn, sh, step) && Place(conn, step).Some?
    ensures PastSnapshot(conn) && Place(conn, step).value < |Remaining(conn.teardown)|
  {
  }

  lemma PlacedKeeps(c: ConnId, conn: Conn, sh: Shared, step: TeardownStep, x: Seid, addresses: set<Addr>)
    requires (PastSnapshot(conn) ==> !Committed(conn.handler)) && Held(c, conn, sh) && SharedInv(sh, addresses)
    requires CanTear(conn, sh, step) && MayRelease(sh, TeardownReleases(conn, step)) && x in Named(conn)
    requires Place(conn, step).Some? && Place(conn, step).value < |Remaining(conn.teardown)|
    requires x == Remaining(conn.teardown)[Place(conn, step).value].seid
    ensures Keeps(c, TeardownConn(conn, sh, step), sh, TeardownShared(conn, sh, step), addresses)
  {
    var conn', sh' := TeardownConn(conn, sh, step), TeardownShared(conn, sh, step);
    TeardownNames(conn, sh, step);
    TeardownBatches(conn, sh, step);
    assert Owned(sh, c, x) && Holds(sh, x);
    TeardownTouches(conn, sh, step, x, addresses);
    ReleasedIsPlaced(conn, sh, step);
    KeepsOthers(c, conn, conn', sh, sh', x, addresses);
  }

  lemma ReleasedIsPlaced(conn: Conn, sh: Shared, step: TeardownStep)
    requires CanTear(conn, sh, step)
    ensures TeardownReleases(conn, step).Some? ==>
              && Place(conn, step) == Some(0) && Remaining(conn.teardown) != []
              && TeardownReleases(conn, step).value == Remaining(conn.teardown)[0].seid
  {
  }

  lemma TeardownKeeps(c: ConnId, conn: Conn, sh: Shared, step: TeardownStep, addresses: set<Addr>)
    requires ConnInv(conn) && Held(c, conn, sh) && SharedInv(sh, addresses) && CanTear(conn, sh, step)
    requires MayRelease(sh, TeardownReleases(conn, step))
    ensures Keeps(c, TeardownConn(conn, sh, step), sh, TeardownShared(conn, sh, step), addresses)
  {
    var place := Place(conn, step);
    if place.Some? {
      PlaceIsListed(conn, sh, step);
      ListedIsStored(Remaining(conn.teardown), conn.store, place.value);
      PlacedKeeps(c, conn, sh, step, Remaining(conn.teardown)[place.value].seid, addresses);
    } else {
      TeardownNames(conn, sh, step);
      TeardownBatches(conn, sh, step);
      KeepsSame(c, conn, TeardownConn(conn, sh, step), sh, addresses);
    }
  }

  // ----- Runs -----

  ghost predicate AllHeld(s: State, addresses: set<Addr>) {
    Ordered(s) && SharedInv(s.shared, addresses) && forall c :: c in s.conns ==> Held(c, s.conns[c], s.shared)
  }

  lemma ConnStepKeepsHeld(s: State, c: ConnId, conn': Conn, sh': Shared, addresses: set<Addr>)
    requires AllHeld(s, addresses) && c in s.conns && Keeps(c, conn', s.shared, sh', addresses) && ConnInv(conn')
    ensures AllHeld(State(s.conns[c := conn'], sh'), addresses)
  {
    forall d | d in s.conns && d != c
      ensures Held(d, s.conns[d], sh')
    {
      assert Held(d, s.conns[d], s.shared);
      assert forall x :: x in Named(s.conns[d]) ==> Owned(s.shared, d, x);
    }
  }

  lemma SlotStepKeepsHeld(s: State, sh': Shared, addresses: set<Addr>)
    requires AllHeld(s, addresses) && SharedInv(sh', addresses) && OwnersKept(s.shared, sh')
    requires sh'.pool == s.shared.pool && sh'.given == s.shared.given && sh'.nextBatch == s.shared.nextBatch
    ensures AllHeld(s.(shared := sh'), addresses)
  {
    forall d | d in s.conns
      ensures Held(d, s.conns[d], sh')
    {
      assert Held(d, s.conns[d], s.shared);
    }
  }

  lemma HandleKeepsHeld(s: State, c: ConnId, step: HandlerStep, addresses: set<Addr>)
    requires AllHeld(s, addresses) && CanStep(s, Handle(c, step)) && QuietRelease(s, Handle(c, step))
    ensures AllHeld(Apply(s, Handle(c, step)), addresses)
  {
    var conn := s.conns[c];
    HandlerKeeps(c, conn, s.shared, step, addresses);
    HandlerStepKeeps(conn, s.shared, step);
    ConnStepKeepsHeld(s, c, HandlerConn(conn, s.shared, step), HandlerShared(conn, s.shared, c, step), addresses);
  }

  lemma TearKeepsHeld(s: State, c: ConnId, step: TeardownStep, addresses: set<Addr>)
    requires AllHeld(s, addresses) && CanStep(s, Tear(c, step)) && QuietRelease(s, Tear(c, step))
    ensures AllHeld(Apply(s, Tear(c, step)), addresses)
  {
    var conn := s.conns[c];
    TeardownKeeps(c, conn, s.shared, step, addresses);
    TeardownStepKeeps(conn, s.shared, step);
    ConnStepKeepsHeld(s, c, TeardownConn(conn, s.shared, step), TeardownShared(conn, s.shared, step), addresses);
  }

  lemma StepKeepsHeld(s: State, step: Step, addresses: set<Addr>)
    requires AllHeld(s, addresses) && CanStep(s, step) && QuietRelease(s, step)
    ensures AllHeld(Apply(s, step), addresses)
  {
    match step
    case Connect(c) =>
    case Handle(c, st) => HandleKeepsHeld(s, c, st, addresses);
    case Tear(c, st) => TearKeepsHeld(s, c, st, addresses);
    case Land(k, refused) =>
      LandKeeps(s.shared, k, refused, addresses);
      SlotStepKeepsHeld(s, Apply(s, step).shared, addresses);
    case Drop(k, i) =>
      DropKeeps(s.shared, k, i, addresses);
      SlotStepKeepsHeld(s, Apply(s, step).shared, addresses);
  }

  /** While every release is quiet, what is kept holds, and with it address safety. */
  lemma {:induction false} RunKeepsHeld(states: seq<State>, steps: seq<Step>, addresses: set<Addr>, n: nat)
    requires IsRun(states, steps, addresses) && n < |states|
    requires forall i :: 0 <= i < n ==> QuietRelease(states[i], steps[i])
    ensures AllHeld(states[n], addresses)
  {
    if n > 0 {
      RunKeepsHeld(states, steps, addresses, n - 1);
      StepKeepsHeld(states[n - 1], steps[n - 1], addresses);
    }
  }

  // ----- Releases that are not quiet -----

  /** A step that gives an address back does so to the pool and makes nothing more or less live. */
  ghost predicate ReleasedAs(sh: Shared, sh': Shared, seid: Seid) {
    && sh'.pool == Released(sh.pool, seid) && sh'.given == sh.given
    && forall k :: Live(sh', k) <==> Live(sh, k)
  }

  lemma FinishReleasedAs(sh: Shared, seid: Seid, batch: nat, answered: bool)
    ensures ReleasedAs(sh, Release(Finish(sh, seid, batch, answered), seid), seid)
  {
    assert forall k :: SlotAt(Release(Finish(sh, seid, batch, answered), seid), k) == SlotAt(sh, k);
  }

  lemma ReportReleasedAs(sh: Shared, seid: Seid, rules: set<Entry>)
    ensures ReleasedAs(sh, Issue(Release(sh, seid), seid, rules, false), seid)
  {
    var released := Release(sh, seid);
    forall k
      ensures Live(Issue(released, seid, rules, false), k) <==> Live(sh, k)
    {
      IssueLive(released, seid, rules, false, k);
      assert SlotAt(released, k) == SlotAt(sh, k);
    }
  }

  lemma HandlerReleasedAs(conn: Conn, sh: Shared, c: ConnId, step: HandlerStep, seid: Seid)
    requires CanHandle(conn, sh, step) && HandlerReleases(conn, step) == Some(seid)
    ensures ReleasedAs(sh, HandlerShared(conn, sh, c, step), seid)
  {
    if step.CheckReport? {
      ReportReleasedAs(sh, seid, conn.store[seid].rules);
    } else if step.RefuseParsed? {
      FinishReleasedAs(sh, seid, 0, true);
    } else {
      FinishReleasedAs(sh, seid, conn.handler.batch, step.answered);
    }
  }

  lemma TeardownReleasedAs(conn: Conn, sh: Shared, step: TeardownStep, seid: Seid)
    requires CanTear(conn, sh, step) && TeardownReleases(conn, step) == Some(seid)
    ensures ReleasedAs(sh, TeardownShared(conn, sh, step), seid)
  {
    if step.FinishOne? {
      FinishReleasedAs(sh, seid, 0, true);
    } else {
      FinishReleasedAs(sh, seid, conn.teardown.batch, step.answered);
    }
  }

  lemma UnquietFrees(sh: Shared, sh': Shared, seid: Seid, addresses: set<Addr>)
    requires SharedInv(sh, addresses) && ReleasedAs(sh, sh', seid) && !MayRelease(sh, Some(seid))
    ensures !NoLiveAddressFree(sh')
  {
    var e: Entry :| Live(sh, Key(seid, e));
    assert sh'.pool.free[|sh.pool.free|] == sh.given[seid];
    assert Live(sh', Key(seid, e)) && sh'.given[seid] in sh'.pool.free;
  }

  /** A release that is not quiet is unsafe at once. */
  lemma UnquietIsUnsafe(s: State, step: Step, addresses: set<Addr>)
    requires SharedInv(s.shared, addresses) && CanStep(s, step) && !QuietRelease(s, step)
    ensures !NoLiveAddressFree(Apply(s, step).shared)
  {
    var seid := Releases(s, step).value;
    if step.Handle? {
      HandlerReleasedAs(s.conns[step.c], s.shared, step.c, step.hstep, seid);
    } else {
      TeardownReleasedAs(s.conns[step.c], s.shared, step.tstep, seid);
    }
    UnquietFrees(s.shared, Apply(s, step).shared, seid, addresses);
  }

  ghost predicate SafeTo(states: seq<State>, n: nat) {
    n < |states| && forall i :: 0 <= i <= n ==> NoLiveAddressFree(states[i].shared)
  }

  ghost predicate QuietTo(states: seq<State>, steps: seq<Step>, n: nat) {
    n <= |states| && n <= |steps| && forall i :: 0 <= i < n ==> QuietRelease(states[i], steps[i])
  }

  lemma QuietNext(states: seq<State>, steps: seq<Step>, n: nat)
    requires QuietTo(states, steps, n) && n < |states| && n < |steps| && QuietRelease(states[n], steps[n])
    ensures QuietTo(states, steps, n + 1)
  {
  }

  lemma RunStepIsQuiet(states: seq<State>, steps: seq<Step>, addresses: set<Addr>, n: nat)
    requires IsRun(states, steps, addresses) && n < |steps| && QuietTo(states, steps, n)
    ensures NoLiveAddressFree(states[n + 1].shared) ==> QuietTo(states, steps, n + 1)
  {
    RunKeepsHeld(states, steps, addresses, n);
    if QuietRelease(states[n], steps[n]) {
      QuietNext(states, steps, n);
    } else {
      UnquietIsUnsafe(states[n], steps[n], addresses);
    }
  }

  /** The steps up to n are quiet if the states up to n are safe. */
  lemma {:induction false} SafeIsQuiet(states: seq<State>, steps: seq<Step>, addresses: set<Addr>, n: nat)
    requires IsRun(states, steps, addresses) && n <= |steps| && SafeTo(states, n)
    ensures QuietTo(states, steps, n)
  {
    if n > 0 {
      assert SafeTo(states, n - 1) && NoLiveAddressFree(states[n].shared);
      SafeIsQuiet(states, steps, addresses, n - 1);
      RunStepIsQuiet(states, steps, addresses, n - 1);
    }
  }

  lemma QuietIsSafe(states: seq<State>, steps: seq<Step>, addresses: set<Addr>, n: nat)
    requires IsRun(states, steps, addresses) && n <= |steps| && QuietTo(states, steps, n)
    ensures SafeTo(states, n)
  {
    forall i | 0 <= i <= n
      ensures NoLiveAddressFree(states[i].shared)
    {
      RunKeepsHeld(states, steps, addresses, i);
      InvariantIsSafe(states[i].shared, addresses);
    }
  }

  /**
   Address safety over whole runs, exactly: no state of a run has a live rule's address free or held by
   another session if and only if every step that gives an address back finds its session without one
   or without a live entry.
   */
  lemma SafeIffReleasesQuiet(states: seq<State>, steps: seq<Step>, addresses: set<Addr>)
    requires IsRun(states, steps, addresses)
    ensures (forall i :: 0 <= i < |states| ==> NoLiveAddressFree(states[i].shared)) <==>
            (forall i :: 0 <= i < |steps| ==> QuietRelease(states[i], steps[i]))
  {
    if SafeTo(states, |steps|) {
      SafeIsQuiet(states, steps, addresses, |steps|);
    }
    if QuietTo(states, steps, |steps|) {
      QuietIsSafe(states, steps, addresses, |steps|);
    }
  }
}
