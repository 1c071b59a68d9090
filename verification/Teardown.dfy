/**
 Teardown against the session handlers: every handler runs to its end before the snapshot or
 changes nothing, the gauge counts the stored sessions, and a closed association stays empty.
 */
module TeardownOrder {
  import opened Association

  /** Sessions a teardown past its snapshot still has to remove. */
  function Remaining(t: Teardown): (ss: seq<Session>) {
    match t
    case Open => []
    case Flagged => []
    case Removing(todo, unfinished) => todo + unfinished
    case Awaiting(current, _, todo, unfinished) => [current] + todo + unfinished
    case Retrying(entries) => Sessions(entries)
    case Finishing(entries) => Sessions(entries)
    case Closed => []
  }

  function Sessions(entries: seq<Retry>): (ss: seq<Session>)
    ensures |ss| == |entries|
    ensures forall i :: 0 <= i < |ss| ==> ss[i] == entries[i].session
  {
    seq(|entries|, i requires 0 <= i < |entries| => entries[i].session)
  }

  predicate PastSnapshot(conn: Conn) {
    !conn.teardown.Open? && !conn.teardown.Flagged?
  }

  /** The handler has passed its check of the shutdown flag. */
  predicate Committed(h: Handler) {
    !h.Idle? && !h.Entered?
  }

  /** An establishment has counted its session and not stored it yet. */
  function Pending(h: Handler): (n: nat) {
    if h.Parsing? || h.Adding? || h.RollingBack? then 1 else 0
  }

  predicate Keyed(store: map<Seid, Session>) {
    forall seid :: seid in store ==> store[seid].seid == seid
  }

  ghost predicate ConnInv(conn: Conn) {
    && Keyed(conn.store)
    && conn.gauge == |conn.store| + Pending(conn.handler)
    && (match conn.handler
        case Idle => true
        case Entered(_) => true
        case Parsing(seid) => seid !in conn.store
        case Adding(session) => session.seid !in conn.store
        case RollingBack(session, _) => session.seid !in conn.store
        case _ => conn.handler.session.seid in conn.store && conn.store[conn.handler.session.seid] == conn.handler.session)
    && (PastSnapshot(conn) ==> !Committed(conn.handler) && multiset(Remaining(conn.teardown)) == multiset(conn.store.Values))
  }

  // ----- Stores -----

  lemma ListedIsStored(ss: seq<Session>, store: map<Seid, Session>, i: nat)
    requires Keyed(store) && multiset(ss) == multiset(store.Values) && i < |ss|
    ensures ss[i].seid in store && store[ss[i].seid] == ss[i]
  {
    assert ss[i] in multiset(ss);
    assert ss[i] in store.Values;
  }

  /** Removing the first listed session leaves the store with the others. */
  lemma RemoveListed(ss: seq<Session>, store: map<Seid, Session>)
    requires Keyed(store) && multiset(ss) == multiset(store.Values) && ss != []
    ensures var store' := store - {ss[0].seid};
            Keyed(store') && |store'| == |store| - 1 && multiset(ss[1..]) == multiset(store'.Values)
  {
    ListedIsStored(ss, store, 0);
    StoreWithout(store, ss[0]);
    assert ss == [ss[0]] + ss[1..];
  }

  lemma StoreWithout(store: map<Seid, Session>, s: Session)
    requires Keyed(store) && s.seid in store && store[s.seid] == s
    ensures (store - {s.seid}).Values == store.Values - {s}
    ensures multiset((store - {s.seid}).Values) == multiset(store.Values) - multiset{s}
    ensures |store - {s.seid}| == |store| - 1
    ensures Keyed(store - {s.seid})
  {
    var store' := store - {s.seid};
    forall v
      ensures v in store'.Values <==> v in store.Values - {s}
    {
      if v in store.Values - {s} {
        assert store'[v.seid] == v;
      }
    }
    assert store'.Keys == store.Keys - {s.seid};
  }

  lemma StoreWith(store: map<Seid, Session>, s: Session)
    requires Keyed(store)
    ensures Keyed(store[s.seid := s])
    ensures s.seid !in store ==> |store[s.seid := s]| == |store| + 1
    ensures s.seid in store ==> |store[s.seid := s]| == |store|
  {
    assert store[s.seid := s].Keys == store.Keys + {s.seid};
    if s.seid in store {
      assert store[s.seid := s].Keys == store.Keys;
    }
  }

  lemma StoreWithoutAbsent(store: map<Seid, Session>, seid: Seid)
    requires seid !in store
    ensures store - {seid} == store
  {
  }

  // ----- Steps -----

  lemma ParsingStepKeeps(conn: Conn, sh: Shared, step: HandlerStep)
    requires ConnInv(conn) && CanHandle(conn, sh, step)
    requires step.Enter? || step.Refuse? || step.CheckEstablish? || step.Allocate? || step.RefuseParsed? || step.SendAdds?
    ensures ConnInv(HandlerConn(conn, sh, step))
  {
    if step.RefuseParsed? {
      StoreWithoutAbsent(conn.store, conn.handler.seid);
    }
  }

  lemma AddingStepKeeps(conn: Conn, sh: Shared, step: HandlerStep)
    requires ConnInv(conn) && CanHandle(conn, sh, step)
    requires step.AddsAccepted? || step.AddsRejected? || step.RollbackFinished? || step.RollbackTimedOut?
    ensures ConnInv(HandlerConn(conn, sh, step))
  {
    StoreWith(conn.store, conn.handler.session);
    StoreWithoutAbsent(conn.store, conn.handler.session.seid);
  }

  lemma DeletingStepKeeps(conn: Conn, sh: Shared, step: HandlerStep)
    requires ConnInv(conn) && CanHandle(conn, sh, step)
    requires step.CheckDelete? || step.DeleteDone? || step.DeleteKept?
    ensures ConnInv(HandlerConn(conn, sh, step))
  {
    if step.DeleteDone? {
      StoreWithout(conn.store, conn.handler.session);
    }
  }

  lemma ReportStepKeeps(conn: Conn, sh: Shared)
    requires ConnInv(conn) && CanHandle(conn, sh, CheckReport)
    ensures ConnInv(HandlerConn(conn, sh, CheckReport))
  {
    var seid := conn.handler.msg.seid;
    if seid in conn.store {
      StoreWithout(conn.store, conn.store[seid]);
    }
  }

  predicate ModifyStep(step: HandlerStep) {
    || step.CheckModify? || step.ModifyAllocate? || step.RefuseModify? || step.SendModify?
    || step.SendDrops? || step.ModifyDone? || step.SendUndo? || step.UndoDone?
  }

  lemma ModifyStepKeeps(conn: Conn, sh: Shared, step: HandlerStep)
    requires ConnInv(conn) && CanHandle(conn, sh, step) && ModifyStep(step)
    ensures ConnInv(HandlerConn(conn, sh, step))
  {
    if step.ModifyDone? {
      StoreWith(conn.store, Session(conn.handler.session.seid, conn.handler.rules));
    }
  }

  lemma HandlerStepKeeps(conn: Conn, sh: Shared, step: HandlerStep)
    requires ConnInv(conn) && CanHandle(conn, sh, step)
    ensures ConnInv(HandlerConn(conn, sh, step))
  {
    if step.CheckReport? {
      ReportStepKeeps(conn, sh);
    } else if ModifyStep(step) {
      ModifyStepKeeps(conn, sh, step);
    } else if step.CheckDelete? || step.DeleteDone? || step.DeleteKept? {
      DeletingStepKeeps(conn, sh, step);
    } else if step.AddsAccepted? || step.AddsRejected? || step.RollbackFinished? || step.RollbackTimedOut? {
      AddingStepKeeps(conn, sh, step);
    } else {
      ParsingStepKeeps(conn, sh, step);
    }
  }

  lemma Rotated(s: Session, a: seq<Session>, b: seq<Session>)
    ensures multiset([s] + a + b) == multiset(a + (b + [s]))
  {
    assert [s] + a + b == [s] + (a + b);
    assert a + (b + [s]) == (a + b) + [s];
  }

  lemma RemovingStepKeeps(conn: Conn, sh: Shared, step: TeardownStep)
    requires ConnInv(conn) && CanTear(conn, sh, step)
    requires step.SetFlag? || step.Snapshot? || step.SendRemoval?
    ensures ConnInv(TeardownConn(conn, sh, step))
  {
    var t, t' := conn.teardown, TeardownConn(conn, sh, step).teardown;
    if step.Snapshot? {
      assert Remaining(t') == step.order;
    } else if step.SendRemoval? {
      assert Remaining(t') == Remaining(t);
    }
  }

  lemma RemovalTimedOutKeeps(conn: Conn, sh: Shared)
    requires ConnInv(conn) && CanTear(conn, sh, RemovalTimedOut)
    ensures ConnInv(TeardownConn(conn, sh, RemovalTimedOut))
  {
    Rotated(conn.teardown.current, conn.teardown.todo, conn.teardown.unfinished);
  }

  lemma RemovalFinishedKeeps(conn: Conn, sh: Shared, answered: bool)
    requires ConnInv(conn) && CanTear(conn, sh, RemovalFinished(answered))
    ensures ConnInv(TeardownConn(conn, sh, RemovalFinished(answered)))
  {
    var t := conn.teardown;
    var ss := Remaining(t);
    RemoveListed(ss, conn.store);
    assert ss[1..] == t.todo + t.unfinished;
  }

  lemma FinishOneKeeps(conn: Conn, sh: Shared)
    requires ConnInv(conn) && CanTear(conn, sh, FinishOne)
    ensures ConnInv(TeardownConn(conn, sh, FinishOne))
  {
    var entries := conn.teardown.entries;
    RemoveListed(Sessions(entries), conn.store);
    assert Sessions(entries)[1..] == Sessions(entries[1..]);
  }

  lemma RetryStepKeeps(conn: Conn, sh: Shared, step: TeardownStep)
    requires ConnInv(conn) && CanTear(conn, sh, step)
    requires step.StartRetry? || step.SendRetry? || step.RetryFinished? || step.RetryTimedOut? || step.RetriesDone? || step.Close?
    ensures ConnInv(TeardownConn(conn, sh, step))
  {
    assert Remaining(TeardownConn(conn, sh, step).teardown) == Remaining(conn.teardown);
  }

  lemma TeardownStepKeeps(conn: Conn, sh: Shared, step: TeardownStep)
    requires ConnInv(conn) && CanTear(conn, sh, step)
    ensures ConnInv(TeardownConn(conn, sh, step))
  {
    if step.SetFlag? || step.Snapshot? || step.SendRemoval? {
      RemovingStepKeeps(conn, sh, step);
    } else if step.RemovalTimedOut? {
      RemovalTimedOutKeeps(conn, sh);
    } else if step.RemovalFinished? {
      RemovalFinishedKeeps(conn, sh, step.answered);
    } else if step.FinishOne? {
      FinishOneKeeps(conn, sh);
    } else {
      RetryStepKeeps(conn, sh, step);
    }
  }

  /** What every association keeps, whatever the interleaving. */
  ghost predicate Ordered(s: State) {
    forall c :: c in s.conns ==> ConnInv(s.conns[c])
  }

  lemma StepKeepsOrder(s: State, step: Step)
    requires Ordered(s) && CanStep(s, step)
    ensures Ordered(Apply(s, step))
  {
    match step
    case Handle(c, st) => HandlerStepKeeps(s.conns[c], s.shared, st);
    case Tear(c, st) => TeardownStepKeeps(s.conns[c], s.shared, st);
    case _ =>
  }

  lemma {:induction false} RunKeepsOrder(states: seq<State>, steps: seq<Step>, addresses: set<Addr>, n: nat)
    requires IsRun(states, steps, addresses) && n < |states|
    ensures Ordered(states[n])
  {
    if n > 0 {
      RunKeepsOrder(states, steps, addresses, n - 1);
      StepKeepsOrder(states[n - 1], steps[n - 1]);
    }
  }

  // ----- Theorems -----

  /** Between handlers the gauge is the number of stored sessions, so each is counted in and out once. */
  lemma GaugeCountsStoredSessions(states: seq<State>, steps: seq<Step>, addresses: set<Addr>, n: nat, c: ConnId)
    requires IsRun(states, steps, addresses) && n < |states| && c in states[n].conns
    ensures var conn := states[n].conns[c];
            conn.gauge == |conn.store| + if conn.handler.Parsing? || conn.handler.Adding? || conn.handler.RollingBack? then 1 else 0
  {
    RunKeepsOrder(states, steps, addresses, n);
  }

  /** After the snapshot a handler's steps change neither the association nor anything shared. */
  lemma LateHandlerChangesNothing(
    states: seq<State>, steps: seq<Step>, addresses: set<Addr>, n: nat, c: ConnId, step: HandlerStep)
    requires IsRun(states, steps, addresses) && n < |states| && c in states[n].conns
    requires PastSnapshot(states[n].conns[c]) && CanHandle(states[n].conns[c], states[n].shared, step)
    ensures var conn, sh := states[n].conns[c], states[n].shared;
            && HandlerShared(conn, sh, c, step) == sh
            && HandlerConn(conn, sh, step).(handler := Idle) == conn.(handler := Idle)
  {
    RunKeepsOrder(states, steps, addresses, n);
  }

  /** Past its snapshot a teardown has exactly the stored sessions left to remove. */
  lemma TeardownRemovesEveryStoredSession(states: seq<State>, steps: seq<Step>, addresses: set<Addr>, n: nat, c: ConnId)
    requires IsRun(states, steps, addresses) && n < |states| && c in states[n].conns
    requires PastSnapshot(states[n].conns[c])
    ensures var conn := states[n].conns[c];
            && multiset(Remaining(conn.teardown)) == multiset(conn.store.Values)
            && conn.gauge == |Remaining(conn.teardown)|
  {
    RunKeepsOrder(states, steps, addresses, n);
    var conn := states[n].conns[c];
    ValuesCounted(conn.store);
    assert |multiset(Remaining(conn.teardown))| == |multiset(conn.store.Values)|;
  }

  lemma {:induction false} ValuesCounted(store: map<Seid, Session>)
    requires Keyed(store)
    ensures |multiset(store.Values)| == |store|
    decreases |store|
  {
    if store != map[] {
      var seid :| seid in store;
      StoreWithout(store, store[seid]);
      ValuesCounted(store - {seid});
      assert store[seid] in store.Values;
    }
  }

  /** Nothing leaves the closed state. */
  lemma ClosedStepKeeps(s: State, step: Step, c: ConnId)
    requires c in s.conns && s.conns[c].teardown.Closed? && CanStep(s, step)
    ensures c in Apply(s, step).conns && Apply(s, step).conns[c].teardown.Closed?
  {
  }

  lemma {:induction false} ClosedForever(states: seq<State>, steps: seq<Step>, addresses: set<Addr>, m: nat, n: nat, c: ConnId)
    requires IsRun(states, steps, addresses) && m <= n < |states|
    requires c in states[m].conns && states[m].conns[c].teardown.Closed?
    ensures c in states[n].conns && states[n].conns[c].teardown.Closed?
  {
    if m < n {
      ClosedForever(states, steps, addresses, m, n - 1, c);
      ClosedStepKeeps(states[n - 1], steps[n - 1], c);
    }
  }

  /** Once closed, an association has no session and counts none, for the rest of the run. */
  lemma ClosedStaysEmpty(states: seq<State>, steps: seq<Step>, addresses: set<Addr>, m: nat, n: nat, c: ConnId)
    requires IsRun(states, steps, addresses) && m <= n < |states|
    requires c in states[m].conns && states[m].conns[c].teardown.Closed?
    ensures c in states[n].conns && states[n].conns[c].store == map[] && states[n].conns[c].gauge == 0
  {
    ClosedForever(states, steps, addresses, m, n, c);
    TeardownRemovesEveryStoredSession(states, steps, addresses, n, c);
    RunKeepsOrder(states, steps, addresses, n);
    assert |states[n].conns[c].store| == 0;
  }
}
