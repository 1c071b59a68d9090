/**
 The other half of address safety: what the sessions name reaches the datapath. As long as no write is
 refused, no command lost and no removal fails, every entry that a stored session names, and every entry a handler has
 written for one, is programmed or has its add as the last command on its way.
 */
module Programmed {
  import opened Wrappers
  import opened Association
  import opened TeardownOrder
  import opened AddressSafety
  import opened QuietReleases
  import opened NamedSessions

  /** The entry is programmed, and will be once all commands on their way have taken effect. */
  predicate Sure(sh: Shared, k: Key) {
    var q := SlotAt(sh, k).queue;
    if q == [] then SlotAt(sh, k).held else q[|q| - 1].add
  }

  predicate Stored(conn: Conn, k: Key) {
    k.seid in conn.store && k.entry in conn.store[k.seid].rules
  }

  /** The association wants the entry: its session is stored, or its rules have been written, and it is not being removed. */
  predicate Wants(conn: Conn, k: Key) {
    && !PastSnapshot(conn)
    && match conn.handler
       case Adding(s) => (k.seid == s.seid && k.entry in s.rules) || Stored(conn, k)
       case Deleting(s, _) => k.seid != s.seid && Stored(conn, k)
       case Writing(s, adds) => if k.seid == s.seid then k.entry in s.rules + adds else Stored(conn, k)
       case Dropping(s, _, _, rules, _) => if k.seid == s.seid then k.entry in rules else Stored(conn, k)
       case Undoing(s, _, _, _) => k.seid != s.seid && Stored(conn, k)
       case _ => Stored(conn, k)
  }

  /**
   No write is refused, no command is lost, no removal of a session fails, and a modification leaves the
   session with entries it had or wrote and did not remove.
   */
  predicate Smooth(s: State, step: Step) {
    match step
    case Land(_, refused) => !refused
    case Drop(_, _) => false
    case Handle(c, st) =>
      && !st.DeleteKept? && !st.RollbackTimedOut?
      && (st.SendDrops? && c in s.conns && s.conns[c].handler.Writing? ==>
            var h := s.conns[c].handler;
            st.rules <= h.session.rules + h.adds && st.rules !! st.dels)
    case _ => true
  }

  // ----- The commands of a step -----

  datatype Commands = Commands(seid: Seid, entries: set<Entry>, add: bool)

  /** What a handler's step sends to the datapath. */
  function Sends(conn: Conn, step: HandlerStep): (cs: Option<Commands>) {
    var h := conn.handler;
    match step
    case SendAdds(rules) => if h.Parsing? then Some(Commands(h.seid, rules, true)) else None
    case AddsRejected => if h.Adding? then Some(Commands(h.session.seid, h.session.rules, false)) else None
    case CheckDelete => OfStored(conn, h)
    case CheckReport => OfStored(conn, h)
    case SendModify(adds) => if h.Modifying? then Some(Commands(h.session.seid, adds, true)) else None
    case SendDrops(dels, _) => if h.Writing? then Some(Commands(h.session.seid, dels, false)) else None
    case SendUndo(dels) => if h.Writing? || h.Dropping? then Some(Commands(h.session.seid, dels, false)) else None
    case UndoDone(_) => if h.Undoing? then Some(Commands(h.session.seid, h.session.rules, true)) else None
    case _ => None
  }

  /** The removal of the stored session that a message names. */
  function OfStored(conn: Conn, h: Handler): (cs: Option<Commands>) {
    if h.Entered? && !h.msg.Establish? && Acts(conn, h.msg.seid)
    then Some(Commands(h.msg.seid, conn.store[h.msg.seid].rules, false)) else None
  }

  predicate Commanded(cs: Option<Commands>, k: Key) {
    cs.Some? && k.seid == cs.value.seid && k.entry in cs.value.entries
  }

  /** The slot of an entry after a step: one more command if the step sends one for it, and nothing else. */
  ghost predicate SlotAfter(sh: Shared, sh': Shared, cs: Option<Commands>, k: Key) {
    if Commanded(cs, k)
    then SlotAt(sh', k) == Slot(SlotAt(sh, k).held, SlotAt(sh, k).queue + [Cmd(cs.value.add, sh.nextBatch)])
    else SlotAt(sh', k) == SlotAt(sh, k)
  }

  lemma HandlerSends(conn: Conn, sh: Shared, c: ConnId, step: HandlerStep, k: Key)
    requires CanHandle(conn, sh, step)
    ensures SlotAfter(sh, HandlerShared(conn, sh, c, step), Sends(conn, step), k)
  {
    var cs := Sends(conn, step);
    if cs.Some? {
      var start := if step.UndoDone? then Finish(sh, conn.handler.session.seid, conn.handler.batch, step.answered)
                   else if step.CheckReport? then Release(sh, conn.handler.msg.seid) else sh;
      assert SlotAt(start, k) == SlotAt(sh, k) && start.nextBatch == sh.nextBatch;
      IssueSlots(start, cs.value.seid, cs.value.entries, cs.value.add, k);
    }
  }

  /** What an association wants after a smooth step it was sent an add for, or wanted before and was not sent a delete for. */
  lemma HandlerWants(conn: Conn, sh: Shared, c: ConnId, s: State, step: HandlerStep, k: Key)
    requires ConnInv(conn) && CanHandle(conn, sh, step) && c in s.conns && s.conns[c] == conn && Smooth(s, Handle(c, step))
    requires Wants(HandlerConn(conn, sh, step), k)
    ensures if Commanded(Sends(conn, step), k) then Sends(conn, step).value.add else Wants(conn, k)
  {
  }

  lemma SureAfter(sh: Shared, sh': Shared, cs: Option<Commands>, k: Key)
    requires SlotAfter(sh, sh', cs, k)
    requires if Commanded(cs, k) then cs.value.add else Sure(sh, k)
    ensures Sure(sh', k)
  {
  }

  lemma WantedIsNamed(conn: Conn, k: Key)
    requires ConnInv(conn) && Wants(conn, k)
    ensures k.seid in Named(conn)
  {
  }

  lemma SentIsNamed(conn: Conn, sh: Shared, step: HandlerStep)
    requires ConnInv(conn) && CanHandle(conn, sh, step) && Sends(conn, step).Some?
    ensures Sends(conn, step).value.seid in Named(conn)
  {
  }

  /** What a teardown's step sends to the datapath: deletes for a session left to remove. */
  function TearSends(conn: Conn, step: TeardownStep): (cs: Option<Commands>) {
    var t := conn.teardown;
    if step.SendRemoval? && t.Removing? && t.todo != [] then Some(Commands(t.todo[0].seid, t.todo[0].rules, false))
    else if step.SendRetry? && Unsettled(t, step.i)
    then Some(Commands(t.entries[step.i].session.seid, t.entries[step.i].session.rules, false))
    else None
  }

  lemma TeardownSends(conn: Conn, sh: Shared, step: TeardownStep, k: Key)
    requires CanTear(conn, sh, step)
    ensures SlotAfter(sh, TeardownShared(conn, sh, step), TearSends(conn, step), k)
  {
    var cs := TearSends(conn, step);
    if cs.Some? {
      IssueSlots(sh, cs.value.seid, cs.value.entries, false, k);
    }
  }

  lemma TornIsNamed(conn: Conn, sh: Shared, step: TeardownStep)
    requires ConnInv(conn) && CanTear(conn, sh, step) && TearSends(conn, step).Some?
    ensures PastSnapshot(conn) && TearSends(conn, step).value.seid in Named(conn)
  {
    PlaceIsListed(conn, sh, step);
    ListedIsStored(Remaining(conn.teardown), conn.store, Place(conn, step).value);
  }

  /** A teardown that sends deletes wants nothing any more. */
  lemma TornWants(conn: Conn, sh: Shared, step: TeardownStep, k: Key)
    requires CanTear(conn, sh, step) && Wants(TeardownConn(conn, sh, step), k)
    ensures Wants(conn, k) && TearSends(conn, step).None?
  {
  }

  // ----- Runs -----

  ghost predicate AllSure(s: State) {
    forall c, k :: c in s.conns && Wants(s.conns[c], k) ==> Sure(s.shared, k)
  }

  /** Commands for a session of one association leave alone what another wants. */
  lemma OthersSure(s: State, c: ConnId, d: ConnId, cs: Option<Commands>, sh': Shared, k: Key, addresses: set<Addr>)
    requires AllHeld(s, addresses) && AllSure(s) && c in s.conns && d in s.conns && c != d
    requires cs.Some? ==> cs.value.seid in Named(s.conns[c])
    requires SlotAfter(s.shared, sh', cs, k) && Wants(s.conns[d], k)
    ensures Sure(sh', k)
  {
    WantedIsNamed(s.conns[d], k);
    assert Held(c, s.conns[c], s.shared) && Held(d, s.conns[d], s.shared);
    if cs.Some? {
      assert Owned(s.shared, c, cs.value.seid) && Owned(s.shared, d, k.seid);
    }
    SureAfter(s.shared, sh', cs, k);
  }

  lemma HandleKeepsSure(s: State, c: ConnId, step: HandlerStep, addresses: set<Addr>)
    requires AllHeld(s, addresses) && AllSure(s) && CanStep(s, Handle(c, step)) && Smooth(s, Handle(c, step))
    ensures AllSure(Apply(s, Handle(c, step)))
  {
    var s', conn, cs := Apply(s, Handle(c, step)), s.conns[c], Sends(s.conns[c], step);
    forall d, k | d in s'.conns && Wants(s'.conns[d], k)
      ensures Sure(s'.shared, k)
    {
      HandlerSends(conn, s.shared, c, step, k);
      if d == c {
        HandlerWants(conn, s.shared, c, s, step, k);
        SureAfter(s.shared, s'.shared, cs, k);
      } else {
        if cs.Some? {
          SentIsNamed(conn, s.shared, step);
        }
        OthersSure(s, c, d, cs, s'.shared, k, addresses);
      }
    }
  }

  lemma TearKeepsSure(s: State, c: ConnId, step: TeardownStep, addresses: set<Addr>)
    requires AllHeld(s, addresses) && AllSure(s) && CanStep(s, Tear(c, step))
    ensures AllSure(Apply(s, Tear(c, step)))
  {
    var s', conn, cs := Apply(s, Tear(c, step)), s.conns[c], TearSends(s.conns[c], step);
    if cs.Some? {
      TornIsNamed(conn, s.shared, step);
    }
    forall d, k | d in s'.conns && Wants(s'.conns[d], k)
      ensures Sure(s'.shared, k)
    {
      TeardownSends(conn, s.shared, step, k);
      if d == c {
        TornWants(conn, s.shared, step, k);
        SureAfter(s.shared, s'.shared, cs, k);
      } else {
        OthersSure(s, c, d, cs, s'.shared, k, addresses);
      }
    }
  }

  lemma LandKeepsSure(s: State, j: Key)
    requires AllSure(s) && CanStep(s, Land(j, false))
    ensures AllSure(Apply(s, Land(j, false)))
  {
    var s' := Apply(s, Land(j, false));
    forall d, k | d in s'.conns && Wants(s'.conns[d], k)
      ensures Sure(s'.shared, k)
    {
      assert Sure(s.shared, k);
      assert k != j ==> SlotAt(s'.shared, k) == SlotAt(s.shared, k);
    }
  }

  lemma StepKeepsSure(s: State, step: Step, addresses: set<Addr>)
    requires AllHeld(s, addresses) && AllSure(s) && CanStep(s, step) && Smooth(s, step)
    ensures AllSure(Apply(s, step))
  {
    match step
    case Connect(c) =>
    case Handle(c, st) => HandleKeepsSure(s, c, st, addresses);
    case Tear(c, st) => TearKeepsSure(s, c, st, addresses);
    case Land(k, refused) => LandKeepsSure(s, k);
  }

  /**
   In every state of a covered run in which all goes well, each entry a session names is programmed, or
   will be by the last command on its way.
   */
  lemma {:induction false} NamedEntriesAreProgrammed(states: seq<State>, steps: seq<Step>, addresses: set<Addr>, n: nat)
    requires IsRun(states, steps, addresses) && n < |states|
    requires forall i :: 0 <= i < |steps| ==> Covered(states[i], steps[i]) && Smooth(states[i], steps[i])
    ensures AllSure(states[n])
  {
    if n > 0 {
      NamedEntriesAreProgrammed(states, steps, addresses, n - 1);
      CoveredRun(states, steps, addresses, n - 1);
      StepKeepsSure(states[n - 1], steps[n - 1], addresses);
    }
  }
}
