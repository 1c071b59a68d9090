/**
 Nothing is forgotten. In a covered run every rule that is programmed or on its way, and in every run
 every address that is held, belongs to a session that some association still names, so that a later
 deletion or teardown reaches it, or to one whose teardown gave up on it after its removal had run out
 of time twice.
 */
module NamedSessions {
  import opened Wrappers
  import opened Association
  import opened TeardownOrder
  import opened AddressSafety
  import opened QuietReleases

  ghost predicate NamedBySome(s: State, seid: Seid) {
    exists c :: c in s.conns && seid in Named(s.conns[c])
  }

  /** The session a teardown's step forgets although its removal did not finish. */
  function GivenUpBy(conn: Conn, step: TeardownStep): (seids: set<Seid>) {
    var t := conn.teardown;
    if step.FinishOne? && t.Finishing? && t.entries != [] && t.entries[0].status.TimedOut?
    then {t.entries[0].session.seid} else {}
  }

  function GivesUp(s: State, step: Step): (seids: set<Seid>) {
    if step.Tear? && step.c in s.conns then GivenUpBy(s.conns[step.c], step.tstep) else {}
  }

  /** The sessions that have been given up in the first n steps of a run. */
  function GivenUp(states: seq<State>, steps: seq<Step>, n: nat): (seids: set<Seid>)
    requires n <= |steps| && n <= |states|
  {
    if n == 0 then {} else GivenUp(states, steps, n - 1) + GivesUp(states[n - 1], steps[n - 1])
  }

  // ----- Sessions stay named -----

  /** Retries are over when the sessions are finished one by one. */
  ghost predicate RetriesOver(conn: Conn) {
    conn.teardown.Finishing? ==>
      forall i :: 0 <= i < |conn.teardown.entries| ==> conn.teardown.entries[i].status.Finished? || conn.teardown.entries[i].status.TimedOut?
  }

  lemma TeardownKeepsOver(conn: Conn, sh: Shared, step: TeardownStep)
    requires RetriesOver(conn) && CanTear(conn, sh, step)
    ensures RetriesOver(TeardownConn(conn, sh, step))
  {
  }

  ghost predicate AllOver(s: State) {
    forall c :: c in s.conns ==> RetriesOver(s.conns[c])
  }

  lemma {:induction false} RunKeepsOver(states: seq<State>, steps: seq<Step>, addresses: set<Addr>, n: nat)
    requires IsRun(states, steps, addresses) && n < |states|
    ensures AllOver(states[n])
  {
    if n > 0 {
      RunKeepsOver(states, steps, addresses, n - 1);
      StepKeepsOver(states[n - 1], steps[n - 1]);
    }
  }

  lemma StepKeepsOver(s: State, step: Step)
    requires AllOver(s) && CanStep(s, step)
    ensures AllOver(Apply(s, step))
  {
    if step.Tear? {
      TeardownKeepsOver(s.conns[step.c], s.shared, step.tstep);
    }
  }

  lemma HandlerKeepsNames(conn: Conn, sh: Shared, step: HandlerStep, seid: Seid)
    requires HandledIsNamed(conn) && CanHandle(conn, sh, step)
    requires seid in Named(conn) && HandlerReleases(conn, step) != Some(seid)
    ensures seid in Named(HandlerConn(conn, sh, step))
  {
    var conn' := HandlerConn(conn, sh, step);
    if HandlerReleases(conn, step).Some? {
      KeysWithout(conn.store, HandlerReleases(conn, step).value);
    } else if step.AddsAccepted? || step.RollbackTimedOut? {
      KeysWith(conn.store, conn.handler.session.seid, conn.handler.session);
    } else if step.ModifyDone? {
      KeysWith(conn.store, conn.handler.session.seid, Session(conn.handler.session.seid, conn.handler.rules));
    } else {
      assert conn'.store == conn.store;
    }
  }

  lemma TeardownKeepsNames(conn: Conn, sh: Shared, step: TeardownStep, seid: Seid)
    requires CanTear(conn, sh, step) && RetriesOver(conn)
    requires seid in Named(conn) && TeardownReleases(conn, step) != Some(seid) && seid !in GivenUpBy(conn, step)
    ensures seid in Named(TeardownConn(conn, sh, step))
  {
    if step.RemovalFinished? {
      KeysWithout(conn.store, conn.teardown.current.seid);
    } else if step.FinishOne? {
      KeysWithout(conn.store, conn.teardown.entries[0].session.seid);
    }
  }

  lemma ConnInvNames(conn: Conn)
    requires ConnInv(conn)
    ensures HandledIsNamed(conn)
  {
  }

  /** Only a step that gives the session's address back, or gives the session up, forgets it. */
  lemma StepKeepsNames(s: State, step: Step, seid: Seid)
    requires Ordered(s) && AllOver(s) && CanStep(s, step)
    requires NamedBySome(s, seid) && Releases(s, step) != Some(seid) && seid !in GivesUp(s, step)
    ensures NamedBySome(Apply(s, step), seid)
  {
    var c :| c in s.conns && seid in Named(s.conns[c]);
    ConnInvNames(s.conns[c]);
    if step.Handle? && step.c == c {
      HandlerKeepsNames(s.conns[c], s.shared, step.hstep, seid);
    } else if step.Tear? && step.c == c {
      TeardownKeepsNames(s.conns[c], s.shared, step.tstep, seid);
    }
    assert c in Apply(s, step).conns && seid in Named(Apply(s, step).conns[c]);
  }

  // ----- Addresses -----

  lemma HandlerInventory(conn: Conn, sh: Shared, c: ConnId, step: HandlerStep, seid: Seid)
    requires HandledIsNamed(conn) && CanHandle(conn, sh, step)
    requires seid in HandlerShared(conn, sh, c, step).pool.inventory
    ensures HandlerReleases(conn, step) != Some(seid)
    ensures seid in sh.pool.inventory || seid in Named(HandlerConn(conn, sh, step))
  {
  }

  lemma TeardownInventory(conn: Conn, sh: Shared, step: TeardownStep, seid: Seid)
    requires CanTear(conn, sh, step) && seid in TeardownShared(conn, sh, step).pool.inventory
    ensures TeardownReleases(conn, step) != Some(seid) && seid in sh.pool.inventory
  {
  }

  /** An address is held after a step by a session that held it before and was not released, or that is named. */
  lemma StepInventory(s: State, step: Step, seid: Seid)
    requires Ordered(s) && CanStep(s, step) && seid in Apply(s, step).shared.pool.inventory
    ensures Releases(s, step) != Some(seid)
    ensures seid in s.shared.pool.inventory || NamedBySome(Apply(s, step), seid)
  {
    match step
    case Handle(c, st) =>
      ConnInvNames(s.conns[c]);
      HandlerInventory(s.conns[c], s.shared, c, st, seid);
      assert c in Apply(s, step).conns && Apply(s, step).conns[c] == HandlerConn(s.conns[c], s.shared, st);
    case Tear(c, st) => TeardownInventory(s.conns[c], s.shared, st, seid);
    case _ =>
  }

  /** In every state of every run each address held belongs to a session that is named or was given up. */
  lemma {:induction false} HeldAddressIsNamed(states: seq<State>, steps: seq<Step>, addresses: set<Addr>, n: nat, seid: Seid)
    requires IsRun(states, steps, addresses) && n < |states| && seid in states[n].shared.pool.inventory
    ensures NamedBySome(states[n], seid) || seid in GivenUp(states, steps, n)
  {
    if n > 0 {
      var s, step := states[n - 1], steps[n - 1];
      RunKeepsOrder(states, steps, addresses, n - 1);
      RunKeepsOver(states, steps, addresses, n - 1);
      StepInventory(s, step, seid);
      if !NamedBySome(Apply(s, step), seid) {
        HeldAddressIsNamed(states, steps, addresses, n - 1, seid);
        if NamedBySome(s, seid) && seid !in GivesUp(s, step) {
          StepKeepsNames(s, step, seid);
        }
      }
    }
  }

  // ----- Rules -----

  /** In a covered run a session whose address is given back has no live entry. */
  lemma CoveredHandlerIsQuiet(c: ConnId, conn: Conn, sh: Shared, step: HandlerStep, seid: Seid)
    requires ConnInv(conn) && ConnAddr(c, conn, sh) && CanHandle(conn, sh, step) && CoveredHandler(conn, step)
    requires HandlerReleases(conn, step) == Some(seid)
    ensures Quiet(sh, seid)
  {
    var h := conn.handler;
    if h.RollingBack? || h.Deleting? {
      DrainedIsQuiet(sh, h.session, h.batch);
    }
  }

  lemma CoveredTeardownIsQuiet(c: ConnId, conn: Conn, sh: Shared, step: TeardownStep, seid: Seid)
    requires ConnInv(conn) && ConnAddr(c, conn, sh) && CanTear(conn, sh, step) && CoveredTeardown(step)
    requires TeardownReleases(conn, step) == Some(seid)
    ensures Quiet(sh, seid)
  {
    var t := conn.teardown;
    if step.RemovalFinished? {
      ListedIsStored(Remaining(t), conn.store, 0);
      DrainedIsQuiet(sh, t.current, t.batch);
    }
  }

  lemma CoveredIsQuiet(s: State, step: Step, addresses: set<Addr>)
    requires Inv(s, addresses) && CanStep(s, step) && Covered(s, step)
    ensures Releases(s, step).Some? ==> Quiet(s.shared, Releases(s, step).value)
  {
    if Releases(s, step).Some? {
      if step.Handle? {
        CoveredHandlerIsQuiet(step.c, s.conns[step.c], s.shared, step.hstep, Releases(s, step).value);
      } else {
        CoveredTeardownIsQuiet(step.c, s.conns[step.c], s.shared, step.tstep, Releases(s, step).value);
      }
    }
  }

  lemma QuietStaysQuiet(sh: Shared, sh': Shared, seid: Seid, k: Key)
    requires ReleasedAs(sh, sh', seid) && Quiet(sh, seid)
    ensures Live(sh', k) ==> k.seid != seid
  {
    assert k == Key(k.seid, k.entry);
  }

  lemma UntouchedLive(sh: Shared, sh': Shared, x: Seid, k: Key, addresses: set<Addr>)
    requires Touches(sh, sh', x, addresses) && k.seid != x && Live(sh', k)
    ensures Live(sh, k)
  {
    assert KeepsSeid(sh, sh', k.seid) && k == Key(k.seid, k.entry);
    assert KeepsKey(sh, sh', Key(k.seid, k.entry));
  }

  /** A handler's step makes nothing live but entries of a session that is then named. */
  lemma HandlerLive(c: ConnId, conn: Conn, sh: Shared, step: HandlerStep, k: Key, addresses: set<Addr>)
    requires ConnInv(conn) && Held(c, conn, sh) && SharedInv(sh, addresses) && CanHandle(conn, sh, step)
    requires HandlerReleases(conn, step).Some? ==> Quiet(sh, HandlerReleases(conn, step).value)
    requires Live(HandlerShared(conn, sh, c, step), k)
    ensures HandlerReleases(conn, step) != Some(k.seid)
    ensures Live(sh, k) || k.seid in Named(HandlerConn(conn, sh, step))
  {
    if step.CheckEstablish? {
      assert SlotAt(HandlerShared(conn, sh, c, step), k) == SlotAt(sh, k);
    } else {
      ConnInvNames(conn);
      HandlerTarget(conn, sh, c, step);
      var released := HandlerReleases(conn, step);
      if released.Some? {
        HandlerReleasedAs(conn, sh, c, step, released.value);
        QuietStaysQuiet(sh, HandlerShared(conn, sh, c, step), released.value, k);
      }
      if Target(conn, step).Some? {
        TargetLive(c, conn, sh, step, Target(conn, step).value, k, addresses);
      }
    }
  }

  lemma TargetLive(c: ConnId, conn: Conn, sh: Shared, step: HandlerStep, x: Seid, k: Key, addresses: set<Addr>)
    requires HandledIsNamed(conn) && Held(c, conn, sh) && SharedInv(sh, addresses) && CanHandle(conn, sh, step)
    requires HandlerReleases(conn, step).Some? ==> Quiet(sh, HandlerReleases(conn, step).value)
    requires Target(conn, step) == Some(x) && x in Named(conn) && HandlerReleases(conn, step) != Some(k.seid)
    requires Live(HandlerShared(conn, sh, c, step), k)
    ensures Live(sh, k) || k.seid in Named(HandlerConn(conn, sh, step))
  {
    if k.seid == x {
      HandlerKeepsNames(conn, sh, step, x);
    } else {
      assert Owned(sh, c, x) && Holds(sh, x);
      HandlerTouches(conn, sh, c, step, x, addresses);
      UntouchedLive(sh, HandlerShared(conn, sh, c, step), x, k, addresses);
    }
  }

  lemma TeardownLive(c: ConnId, conn: Conn, sh: Shared, step: TeardownStep, k: Key, addresses: set<Addr>)
    requires ConnInv(conn) && Held(c, conn, sh) && RetriesOver(conn) && SharedInv(sh, addresses) && CanTear(conn, sh, step)
    requires TeardownReleases(conn, step).Some? ==> Quiet(sh, TeardownReleases(conn, step).value)
    requires Live(TeardownShared(conn, sh, step), k)
    ensures TeardownReleases(conn, step) != Some(k.seid)
    ensures Live(sh, k) || k.seid in Named(TeardownConn(conn, sh, step)) || k.seid in GivenUpBy(conn, step)
  {
    var released, place := TeardownReleases(conn, step), Place(conn, step);
    if released.Some? {
      TeardownReleasedAs(conn, sh, step, released.value);
      QuietStaysQuiet(sh, TeardownShared(conn, sh, step), released.value, k);
    }
    if place.Some? {
      PlaceIsListed(conn, sh, step);
      ListedIsStored(Remaining(conn.teardown), conn.store, place.value);
      PlacedLive(c, conn, sh, step, Remaining(conn.teardown)[place.value].seid, k, addresses);
    }
  }

  lemma PlacedLive(c: ConnId, conn: Conn, sh: Shared, step: TeardownStep, x: Seid, k: Key, addresses: set<Addr>)
    requires Held(c, conn, sh) && RetriesOver(conn) && SharedInv(sh, addresses) && CanTear(conn, sh, step)
    requires TeardownReleases(conn, step).Some? ==> Quiet(sh, TeardownReleases(conn, step).value)
    requires TeardownReleases(conn, step) != Some(k.seid) && x in Named(conn) && Live(TeardownShared(conn, sh, step), k)
    requires Place(conn, step).Some? && Place(conn, step).value < |Remaining(conn.teardown)|
    requires x == Remaining(conn.teardown)[Place(conn, step).value].seid
    ensures Live(sh, k) || k.seid in Named(TeardownConn(conn, sh, step)) || k.seid in GivenUpBy(conn, step)
  {
    if k.seid != x {
      assert Owned(sh, c, x) && Holds(sh, x);
      TeardownTouches(conn, sh, step, x, addresses);
      UntouchedLive(sh, TeardownShared(conn, sh, step), x, k, addresses);
    } else if k.seid !in GivenUpBy(conn, step) {
      TeardownKeepsNames(conn, sh, step, x);
    }
  }

  lemma SlotLive(sh: Shared, sh': Shared, k: Key)
    requires (forall s :: KeepsSeid(sh, sh', s)) && Live(sh', k)
    ensures Live(sh, k)
  {
    assert KeepsSeid(sh, sh', k.seid) && k == Key(k.seid, k.entry);
    assert KeepsKey(sh, sh', Key(k.seid, k.entry));
  }

  lemma StepLive(s: State, step: Step, k: Key, addresses: set<Addr>)
    requires AllHeld(s, addresses) && AllOver(s) && CanStep(s, step) && Live(Apply(s, step).shared, k)
    requires Releases(s, step).Some? ==> Quiet(s.shared, Releases(s, step).value)
    ensures Releases(s, step) != Some(k.seid)
    ensures Live(s.shared, k) || NamedBySome(Apply(s, step), k.seid) || k.seid in GivesUp(s, step)
  {
    match step
    case Connect(c) =>
    case Handle(c, st) =>
      HandlerLive(c, s.conns[c], s.shared, st, k, addresses);
      assert c in Apply(s, step).conns && Apply(s, step).conns[c] == HandlerConn(s.conns[c], s.shared, st);
    case Tear(c, st) =>
      TeardownLive(c, s.conns[c], s.shared, st, k, addresses);
      assert c in Apply(s, step).conns && Apply(s, step).conns[c] == TeardownConn(s.conns[c], s.shared, st);
    case Land(j, refused) =>
      LandKeeps(s.shared, j, refused, addresses);
      SlotLive(s.shared, Apply(s, step).shared, k);
    case Drop(j, i) =>
      DropKeeps(s.shared, j, i, addresses);
      SlotLive(s.shared, Apply(s, step).shared, k);
  }

  /** What holds of every state of a covered run. */
  lemma CoveredRun(states: seq<State>, steps: seq<Step>, addresses: set<Addr>, n: nat)
    requires IsRun(states, steps, addresses) && n < |states|
    requires forall i :: 0 <= i < |steps| ==> Covered(states[i], steps[i])
    ensures Inv(states[n], addresses) && AllHeld(states[n], addresses) && AllOver(states[n])
    ensures n < |steps| && Releases(states[n], steps[n]).Some? ==> Quiet(states[n].shared, Releases(states[n], steps[n]).value)
  {
    forall i | 0 <= i < n
      ensures QuietRelease(states[i], steps[i])
    {
      RunKeepsInv(states, steps, addresses, i);
      CoveredIsQuiet(states[i], steps[i], addresses);
    }
    RunKeepsHeld(states, steps, addresses, n);
    RunKeepsOver(states, steps, addresses, n);
    RunKeepsInv(states, steps, addresses, n);
    if n < |steps| {
      CoveredIsQuiet(states[n], steps[n], addresses);
    }
  }

  /** If the entry is live its session is named, or was given up. */
  ghost predicate Tracked(s: State, k: Key, gone: set<Seid>) {
    Live(s.shared, k) ==> NamedBySome(s, k.seid) || k.seid in gone
  }

  lemma StepKeepsTracked(s: State, step: Step, k: Key, gone: set<Seid>, addresses: set<Addr>)
    requires AllHeld(s, addresses) && AllOver(s) && CanStep(s, step) && Tracked(s, k, gone)
    requires Releases(s, step).Some? ==> Quiet(s.shared, Releases(s, step).value)
    ensures Tracked(Apply(s, step), k, gone + GivesUp(s, step))
  {
    if Live(Apply(s, step).shared, k) {
      StepLive(s, step, k, addresses);
      if NamedBySome(s, k.seid) && k.seid !in GivesUp(s, step) {
        StepKeepsNames(s, step, k.seid);
      }
    }
  }

  lemma {:induction false} LiveIsNamed(states: seq<State>, steps: seq<Step>, addresses: set<Addr>, n: nat, k: Key)
    requires IsRun(states, steps, addresses) && n < |states|
    requires forall i :: 0 <= i < |steps| ==> Covered(states[i], steps[i])
    ensures Tracked(states[n], k, GivenUp(states, steps, n))
  {
    if n == 0 {
      assert SlotAt(states[0].shared, k) == Slot(false, []);
    } else {
      LiveIsNamed(states, steps, addresses, n - 1, k);
      CoveredRun(states, steps, addresses, n - 1);
      StepKeepsTracked(states[n - 1], steps[n - 1], k, GivenUp(states, steps, n - 1), addresses);
    }
  }

  /** The association names the entry: in its store, or in the session its handler is working on. */
  predicate NamesEntry(conn: Conn, k: Key) {
    var h := conn.handler;
    || (k.seid in conn.store && k.entry in conn.store[k.seid].rules)
    || ((h.Adding? || h.RollingBack?) && h.session.seid == k.seid && k.entry in h.session.rules)
    || ((h.Writing? || h.Dropping? || h.Undoing?) && h.session.seid == k.seid && k.entry in h.session.rules + h.adds)
  }

  lemma HandledNamesEntry(c: ConnId, h: Handler, sh: Shared, k: Key)
    requires HandlerAddr(c, h, sh) && Live(sh, k)
    ensures !(h.Parsing? && h.seid == k.seid)
    ensures (h.Adding? || h.RollingBack?) && h.session.seid == k.seid ==> k.entry in h.session.rules
    ensures (h.Writing? || h.Dropping? || h.Undoing?) && h.session.seid == k.seid ==> k.entry in h.session.rules + h.adds
  {
    assert k == Key(k.seid, k.entry);
  }

  lemma StoredNamesEntry(c: ConnId, store: map<Seid, Session>, sh: Shared, k: Key)
    requires Keyed(store) && StoreAddr(c, store, sh) && k.seid in store && Live(sh, k)
    ensures k.entry in store[k.seid].rules
  {
    assert k == Key(k.seid, k.entry) && Within(sh, store[k.seid]);
  }

  lemma NamedNamesEntry(c: ConnId, conn: Conn, sh: Shared, k: Key)
    requires Keyed(conn.store) && ConnAddr(c, conn, sh) && k.seid in Named(conn) && Live(sh, k)
    ensures NamesEntry(conn, k)
  {
    HandledNamesEntry(c, conn.handler, sh, k);
    if k.seid in Settled(conn) {
      StoredNamesEntry(c, Settled(conn), sh, k);
    }
  }

  /**
   Nothing is forgotten: in every state of a covered run each entry that is programmed, or whose add is on
   its way, is named by an association, or belongs to a session a teardown gave up.
   */
  lemma LiveEntryIsNamed(states: seq<State>, steps: seq<Step>, addresses: set<Addr>, n: nat, k: Key)
    requires IsRun(states, steps, addresses) && n < |states| && Live(states[n].shared, k)
    requires forall i :: 0 <= i < |steps| ==> Covered(states[i], steps[i])
    ensures k.seid in GivenUp(states, steps, n) || exists c :: c in states[n].conns && NamesEntry(states[n].conns[c], k)
  {
    LiveIsNamed(states, steps, addresses, n, k);
    if k.seid !in GivenUp(states, steps, n) {
      CoveredRun(states, steps, addresses, n);
      var c :| c in states[n].conns && k.seid in Named(states[n].conns[c]);
      NamedNamesEntry(c, states[n].conns[c], states[n].shared, k);
    }
  }

  // ----- Giving up -----

  /** The removal of the session ran out of time in step i, in the first round. */
  ghost predicate RanOut(states: seq<State>, steps: seq<Step>, i: nat, c: ConnId, seid: Seid) {
    && i < |steps| && i < |states| && steps[i] == Tear(c, RemovalTimedOut) && c in states[i].conns
    && states[i].conns[c].teardown.Awaiting? && states[i].conns[c].teardown.current.seid == seid
  }

  /** In step j it ran out of time as a retry. */
  ghost predicate RanOutAgain(states: seq<State>, steps: seq<Step>, j: nat, c: ConnId, seid: Seid) {
    && j < |steps| && j < |states| && steps[j].Tear? && steps[j].c == c && steps[j].tstep.RetryTimedOut? && c in states[j].conns
    && Unsettled(states[j].conns[c].teardown, steps[j].tstep.i)
    && states[j].conns[c].teardown.entries[steps[j].tstep.i].session.seid == seid
  }

  ghost predicate RanOutOnce(states: seq<State>, steps: seq<Step>, n: nat, c: ConnId, seid: Seid) {
    exists i: nat :: i < n && RanOut(states, steps, i, c, seid)
  }

  ghost predicate RanOutTwice(states: seq<State>, steps: seq<Step>, n: nat, c: ConnId, seid: Seid) {
    exists i: nat, j: nat :: i < j < n && RanOut(states, steps, i, c, seid) && RanOutAgain(states, steps, j, c, seid)
  }

  /** What a teardown's lists say about the run so far. */
  ghost predicate Recorded(states: seq<State>, steps: seq<Step>, n: nat, c: ConnId, t: Teardown) {
    match t
    case Removing(_, unfinished) => forall x :: 0 <= x < |unfinished| ==> RanOutOnce(states, steps, n, c, unfinished[x].seid)
    case Awaiting(_, _, _, unfinished) => forall x :: 0 <= x < |unfinished| ==> RanOutOnce(states, steps, n, c, unfinished[x].seid)
    case Retrying(entries) => EntriesRecorded(states, steps, n, c, entries)
    case Finishing(entries) => EntriesRecorded(states, steps, n, c, entries)
    case _ => true
  }

  ghost predicate EntriesRecorded(states: seq<State>, steps: seq<Step>, n: nat, c: ConnId, entries: seq<Retry>) {
    forall x :: 0 <= x < |entries| ==>
      && RanOutOnce(states, steps, n, c, entries[x].session.seid)
      && (entries[x].status.TimedOut? ==> RanOutTwice(states, steps, n, c, entries[x].session.seid))
  }

  lemma RecordedLater(states: seq<State>, steps: seq<Step>, n: nat, c: ConnId, t: Teardown)
    requires Recorded(states, steps, n, c, t)
    ensures Recorded(states, steps, n + 1, c, t)
  {
    forall seid
      ensures RanOutOnce(states, steps, n, c, seid) ==> RanOutOnce(states, steps, n + 1, c, seid)
      ensures RanOutTwice(states, steps, n, c, seid) ==> RanOutTwice(states, steps, n + 1, c, seid)
    {
    }
  }

  /** The step from n keeps the record. */
  lemma TearRecorded(states: seq<State>, steps: seq<Step>, n: nat, c: ConnId, step: TeardownStep)
    requires n < |steps| && n < |states| && steps[n] == Tear(c, step) && c in states[n].conns
    requires CanTear(states[n].conns[c], states[n].shared, step)
    requires Recorded(states, steps, n, c, states[n].conns[c].teardown)
    ensures Recorded(states, steps, n + 1, c, TeardownConn(states[n].conns[c], states[n].shared, step).teardown)
  {
    var t, t' := states[n].conns[c].teardown, TeardownConn(states[n].conns[c], states[n].shared, step).teardown;
    RecordedLater(states, steps, n, c, t);
    if step.RemovalTimedOut? {
      assert RanOut(states, steps, n, c, t.current.seid);
      assert RanOutOnce(states, steps, n + 1, c, t.current.seid);
    } else if step.RetryTimedOut? {
      var seid := t.entries[step.i].session.seid;
      var i: nat :| i < n && RanOut(states, steps, i, c, seid);
      assert RanOutAgain(states, steps, n, c, seid);
      assert RanOutTwice(states, steps, n + 1, c, seid);
    } else if step.FinishOne? {
      assert forall x :: 0 <= x < |t'.entries| ==> t'.entries[x] == t.entries[x + 1];
    }
  }

  lemma {:induction false} RunRecords(states: seq<State>, steps: seq<Step>, addresses: set<Addr>, n: nat, c: ConnId)
    requires IsRun(states, steps, addresses) && n < |states| && c in states[n].conns
    ensures Recorded(states, steps, n, c, states[n].conns[c].teardown)
  {
    if n > 0 && c in states[n - 1].conns {
      RunRecords(states, steps, addresses, n - 1, c);
      if steps[n - 1].Tear? && steps[n - 1].c == c {
        TearRecorded(states, steps, n - 1, c, steps[n - 1].tstep);
      } else {
        assert states[n].conns[c].teardown == states[n - 1].conns[c].teardown;
        RecordedLater(states, steps, n - 1, c, states[n].conns[c].teardown);
      }
    }
  }

  /** A session is given up only after its removal has run out of time twice. */
  lemma {:induction false} GivenUpRanOutTwice(states: seq<State>, steps: seq<Step>, addresses: set<Addr>, n: nat, seid: Seid)
    requires IsRun(states, steps, addresses) && n <= |steps| && seid in GivenUp(states, steps, n)
    ensures exists c :: RanOutTwice(states, steps, n, c, seid)
  {
    var s, step := states[n - 1], steps[n - 1];
    if seid in GivesUp(s, step) {
      RunRecords(states, steps, addresses, n - 1, step.c);
      assert RanOutTwice(states, steps, n - 1, step.c, seid);
      assert RanOutTwice(states, steps, n, step.c, seid);
    } else {
      GivenUpRanOutTwice(states, steps, addresses, n - 1, seid);
      var c :| RanOutTwice(states, steps, n - 1, c, seid);
      assert RanOutTwice(states, steps, n, c, seid);
    }
  }
}
