/**
 Why address safety needs its conditions: from any initial state with an address to give, a run in
 which one step is not covered ends with the address of a live rule free. The step is a deletion on
 a report response, a removal that counts as finished though a call of it failed, a modification
 that moves a rule to another entry, or a modification whose removal ran out of time.
 */
module AddressRuns {
  import opened Association
  import opened AddressSafety

  /** One step of a run, by its position, which need not be covered. */
  datatype Exception = Exception(at: nat, step: Step)

  /** A run of k steps from the first state to the last, all of them covered but for the exception. */
  ghost predicate IsRunBut(
    states: seq<State>, steps: seq<Step>, addresses: set<Addr>, first: State, last: State, k: nat, x: Exception)
  {
    && IsRun(states, steps, addresses) && |steps| == k && states[0] == first && states[k] == last
    && (x.at < k ==> steps[x.at] == x.step)
    && forall i :: 0 <= i < k && i != x.at ==> Covered(states[i], steps[i])
  }

  ghost predicate Reaches(addresses: set<Addr>, first: State, last: State, k: nat, x: Exception) {
    exists states, steps :: IsRunBut(states, steps, addresses, first, last, k, x)
  }

  lemma ReachesNext(addresses: set<Addr>, first: State, s: State, k: nat, x: Exception, step: Step)
    requires Reaches(addresses, first, s, k, x) && CanStep(s, step)
    requires if k == x.at then step == x.step else Covered(s, step)
    ensures Reaches(addresses, first, Apply(s, step), k + 1, x)
  {
    var states, steps :| IsRunBut(states, steps, addresses, first, s, k, x);
    var states', steps' := states + [Apply(s, step)], steps + [step];
    forall i | 0 <= i < k + 1
      ensures CanStep(states'[i], steps'[i]) && states'[i + 1] == Apply(states'[i], steps'[i])
      ensures i != x.at ==> Covered(states'[i], steps'[i])
    {
      if i < k {
        assert states'[i] == states[i] && steps'[i] == steps[i] && states'[i + 1] == states[i + 1];
      }
    }
    assert IsRunBut(states', steps', addresses, first, Apply(s, step), k + 1, x);
  }

  lemma ReachedShared(addresses: set<Addr>, first: State, s: State, k: nat, x: Exception)
    requires Reaches(addresses, first, s, k, x) && k <= x.at
    ensures SharedInv(s.shared, addresses)
  {
    var states, steps :| IsRunBut(states, steps, addresses, first, s, k, x);
    RunKeepsInv(states, steps, addresses, k);
  }

  /** A handler's step of an association, as a step of the whole. */
  lemma ReachesHandled(addresses: set<Addr>, first: State, s: State, k: nat, x: Exception, c: ConnId, step: HandlerStep)
    returns (s': State)
    requires Reaches(addresses, first, s, k, x) && c in s.conns && CanHandle(s.conns[c], s.shared, step)
    requires if k == x.at then Handle(c, step) == x.step else CoveredHandler(s.conns[c], step)
    ensures Reaches(addresses, first, s', k + 1, x) && c in s'.conns
    ensures s'.conns[c] == HandlerConn(s.conns[c], s.shared, step) && s'.shared == HandlerShared(s.conns[c], s.shared, c, step)
  {
    ReachesNext(addresses, first, s, k, x, Handle(c, step));
    s' := Apply(s, Handle(c, step));
  }

  lemma ReachesConnected(addresses: set<Addr>, s: State, x: Exception, c: ConnId) returns (s': State)
    requires Initial(s, addresses) && x.at > 0
    ensures Reaches(addresses, s, s', 1, x) && c in s'.conns
    ensures s'.conns[c] == Conn(map[], 0, Idle, Open) && s'.shared == s.shared
  {
    assert IsRunBut([s], [], addresses, s, s, 0, x);
    ReachesNext(addresses, s, s, 0, x, Connect(c));
    s' := Apply(s, Connect(c));
  }

  /** An association that is open and has just the one session. */
  function Sole(session: Session, handler: Handler): (conn: Conn) {
    Conn(map[session.seid := session], 1, handler, Open)
  }

  /** One session with one rule and an address, the rule's add still on the way. */
  ghost predicate OneSession(s: State, addresses: set<Addr>, c: ConnId, seid: Seid, e: Entry) {
    && c in s.conns && s.conns[c] == Sole(Session(seid, {e}), Idle)
    && seid in s.shared.pool.inventory && s.shared.nextBatch > 0
    && s.shared.slots == map[Key(seid, e) := Slot(false, [Cmd(true, s.shared.nextBatch - 1)])]
    && SharedInv(s.shared, addresses)
  }

  /** A session that has drawn its ID and an address. */
  ghost predicate Drawn(s: State, first: State, c: ConnId, seid: Seid) {
    && c in s.conns && s.conns[c] == Conn(map[], 1, Parsing(seid), Open)
    && seid in s.shared.pool.inventory && s.shared.slots == map[] && s.shared.nextBatch == first.shared.nextBatch
  }

  lemma EmptyPool(s: State, addresses: set<Addr>)
    requires Initial(s, addresses) && addresses != {}
    ensures s.shared.pool.free != []
  {
    var a :| a in addresses;
  }

  lemma Draw(s: State, addresses: set<Addr>, x: Exception, c: ConnId, seid: Seid) returns (s': State)
    requires Initial(s, addresses) && addresses != {} && seid != 0 && x.at >= 6
    ensures Reaches(addresses, s, s', 4, x) && Drawn(s', s, c, seid)
  {
    EmptyPool(s, addresses);
    s' := ReachesConnected(addresses, s, x, c);
    s' := ReachesHandled(addresses, s, s', 1, x, c, Enter(Establish));
    assert s'.conns[c] == Conn(map[], 0, Entered(Establish), Open) && s'.shared == s.shared;
    s' := ReachesHandled(addresses, s, s', 2, x, c, CheckEstablish(seid));
    assert s'.conns[c] == Conn(map[], 1, Parsing(seid), Open);
    s' := ReachesHandled(addresses, s, s', 3, x, c, Allocate);
  }

  lemma FirstBatch(sh: Shared, seid: Seid, e: Entry)
    requires sh.slots == map[]
    ensures Issue(sh, seid, {e}, true).slots == map[Key(seid, e) := Slot(false, [Cmd(true, sh.nextBatch)])]
  {
    assert [] + [Cmd(true, sh.nextBatch)] == [Cmd(true, sh.nextBatch)];
  }

  lemma Establishment(s: State, addresses: set<Addr>, x: Exception, c: ConnId, seid: Seid, e: Entry) returns (s': State)
    requires Initial(s, addresses) && addresses != {} && seid != 0 && x.at >= 6
    ensures Reaches(addresses, s, s', 6, x) && OneSession(s', addresses, c, seid, e)
  {
    s' := Draw(s, addresses, x, c, seid);
    FirstBatch(s'.shared, seid, e);
    s' := ReachesHandled(addresses, s, s', 4, x, c, SendAdds({e}));
    assert s'.conns[c] == Conn(map[], 1, Adding(Session(seid, {e})), Open);
    s' := ReachesHandled(addresses, s, s', 5, x, c, AddsAccepted);
    ReachedShared(addresses, s, s', 6, x);
  }

  lemma FirstIsLive(s: State, addresses: set<Addr>, c: ConnId, seid: Seid, e: Entry)
    requires OneSession(s, addresses, c, seid, e)
    ensures Live(s.shared, Key(seid, e)) && seid in s.shared.owner && Holds(s.shared, seid)
    ensures Within(s.shared, Session(seid, {e}))
  {
    assert SlotAt(s.shared, Key(seid, e)).queue[0].add;
  }

  /** A session report response that deletes its session releases the address of a live rule. */
  lemma ReportFreesLiveAddress(s: State, addresses: set<Addr>, c: ConnId, seid: Seid, e: Entry) returns (last: State)
    requires Initial(s, addresses) && addresses != {} && seid != 0
    ensures Reaches(addresses, s, last, 8, Exception(7, Handle(c, CheckReport)))
    ensures !NoLiveAddressFree(last.shared)
  {
    var x := Exception(7, Handle(c, CheckReport));
    var s' := Establishment(s, addresses, x, c, seid, e);
    FirstIsLive(s', addresses, c, seid, e);
    s' := ReachesHandled(addresses, s, s', 6, x, c, Enter(ReportGone(seid)));
    last := ReachesHandled(addresses, s, s', 7, x, c, CheckReport);
    ReportIsSafeIff(s'.conns[c], s'.shared, c, addresses);
  }

  /** Deleting a session, up to the answer. */
  lemma DeletionSent(
    addresses: set<Addr>, first: State, s: State, k: nat, x: Exception, c: ConnId, session: Session)
    returns (s': State)
    requires Reaches(addresses, first, s, k, x) && x.at != k && x.at != k + 1 && c in s.conns && s.conns[c] == Sole(session, Idle)
    ensures Reaches(addresses, first, s', k + 2, x) && c in s'.conns
    ensures s'.conns[c] == Sole(session, Deleting(session, s.shared.nextBatch))
    ensures s'.shared == Issue(s.shared, session.seid, session.rules, false)
  {
    s' := ReachesHandled(addresses, first, s, k, x, c, Enter(Delete(session.seid)));
    assert s'.conns[c] == Sole(session, Entered(Delete(session.seid)));
    s' := ReachesHandled(addresses, first, s', k + 1, x, c, CheckDelete);
  }

  lemma UnansweredRelease(s: State, addresses: set<Addr>, c: ConnId, seid: Seid, e: Entry)
    requires OneSession(s, addresses, c, seid, e)
    ensures var sh := Issue(s.shared, seid, {e}, false);
            !NoLiveAddressFree(Release(Finish(sh, seid, s.shared.nextBatch, false), seid))
  {
    FirstIsLive(s, addresses, c, seid, e);
    IssueDelShared(s.shared, seid, {e}, addresses);
    AbandonShared(Issue(s.shared, seid, {e}, false), seid, s.shared.nextBatch, addresses);
    ReleaseIsSafeIff(Finish(Issue(s.shared, seid, {e}, false), seid, s.shared.nextBatch, false), seid, addresses);
  }

  /** A deletion that counts as finished though a call failed releases the address of a live rule. */
  lemma UnansweredDeletionFreesLiveAddress(s: State, addresses: set<Addr>, c: ConnId, seid: Seid, e: Entry)
    returns (last: State)
    requires Initial(s, addresses) && addresses != {} && seid != 0
    ensures Reaches(addresses, s, last, 9, Exception(8, Handle(c, DeleteDone(false))))
    ensures !NoLiveAddressFree(last.shared)
  {
    var x, session := Exception(8, Handle(c, DeleteDone(false))), Session(seid, {e});
    var s1 := Establishment(s, addresses, x, c, seid, e);
    var s2 := DeletionSent(addresses, s, s1, 6, x, c, session);
    last := ReachesHandled(addresses, s, s2, 8, x, c, DeleteDone(false));
    UnansweredRelease(s1, addresses, c, seid, e);
  }

  // ----- Modifications -----

  /** Every command on its way belongs to a batch already issued. */
  ghost predicate Numbered(sh: Shared) {
    forall k: Key, i :: 0 <= i < |SlotAt(sh, k).queue| ==> SlotAt(sh, k).queue[i].batch < sh.nextBatch
  }

  lemma IssueNumbered(sh: Shared, seid: Seid, entries: set<Entry>, add: bool)
    requires Numbered(sh)
    ensures Numbered(Issue(sh, seid, entries, add))
    ensures entries == {} ==> Drained(Issue(sh, seid, entries, add), seid, sh.nextBatch)
  {
    var sh' := Issue(sh, seid, entries, add);
    forall k: Key, i | 0 <= i < |SlotAt(sh', k).queue|
      ensures SlotAt(sh', k).queue[i].batch <= sh.nextBatch
      ensures entries == {} ==> SlotAt(sh', k).queue[i].batch < sh.nextBatch
    {
      IssueSlots(sh, seid, entries, add, k);
    }
  }

  /** The stored session does not name an entry that is live, and holds its address. */
  ghost predicate Forgotten(s: State, addresses: set<Addr>, c: ConnId, seid: Seid, e: Entry, rules: set<Entry>) {
    && c in s.conns && s.conns[c] == Sole(Session(seid, rules), Idle)
    && seid in s.shared.pool.inventory && SharedInv(s.shared, addresses)
    && Live(s.shared, Key(seid, e)) && e !in rules && Numbered(s.shared)
  }

  /** The batches of a modification leave the established session's entry live. */
  lemma ModifiedShared(s: State, addresses: set<Addr>, c: ConnId, seid: Seid, e: Entry, adds: set<Entry>, dels: set<Entry>)
    requires OneSession(s, addresses, c, seid, e)
    ensures var sh := Issue(Issue(s.shared, seid, adds, true), seid, dels, false);
            && SharedInv(sh, addresses) && Live(sh, Key(seid, e)) && Numbered(sh)
            && (dels == {} ==> Drained(sh, seid, s.shared.nextBatch + 1))
  {
    FirstIsLive(s, addresses, c, seid, e);
    assert Numbered(s.shared);
    IssueAdds(s.shared, Session(seid, {e}), adds, addresses);
    IssueNumbered(s.shared, seid, adds, true);
    IssueLive(s.shared, seid, adds, true, Key(seid, e));
    IssueDelShared(Issue(s.shared, seid, adds, true), seid, dels, addresses);
    IssueNumbered(Issue(s.shared, seid, adds, true), seid, dels, false);
  }

  lemma ModificationParsed(addresses: set<Addr>, first: State, s: State, x: Exception, c: ConnId, session: Session)
    returns (s': State)
    requires Reaches(addresses, first, s, 6, x) && x.at >= 10 && c in s.conns && s.conns[c] == Sole(session, Idle)
    ensures Reaches(addresses, first, s', 8, x) && c in s'.conns
    ensures s'.shared == s.shared && s'.conns[c] == Sole(session, Modifying(session))
  {
    s' := ReachesHandled(addresses, first, s, 6, x, c, Enter(Modify(session.seid)));
    assert s'.conns[c] == Sole(session, Entered(Modify(session.seid)));
    s' := ReachesHandled(addresses, first, s', 7, x, c, CheckModify);
  }

  /** A session's modification up to its removal batch. */
  lemma ModificationSent(
    addresses: set<Addr>, first: State, s: State, x: Exception, c: ConnId, session: Session,
    adds: set<Entry>, dels: set<Entry>, rules: set<Entry>)
    returns (s': State)
    requires Reaches(addresses, first, s, 8, x) && x.at >= 10
    requires c in s.conns && s.conns[c] == Sole(session, Modifying(session))
    ensures Reaches(addresses, first, s', 10, x) && c in s'.conns
    ensures s'.shared == Issue(Issue(s.shared, session.seid, adds, true), session.seid, dels, false)
    ensures s'.conns[c] == Sole(session, Dropping(session, adds, dels, rules, s.shared.nextBatch + 1))
  {
    s' := ReachesHandled(addresses, first, s, 8, x, c, SendModify(adds));
    assert s'.conns[c] == Sole(session, Writing(session, adds));
    s' := ReachesHandled(addresses, first, s', 9, x, c, SendDrops(dels, rules));
  }

  lemma ModificationStored(
    addresses: set<Addr>, first: State, s: State, c: ConnId, session: Session,
    adds: set<Entry>, dels: set<Entry>, rules: set<Entry>, batch: nat, answered: bool)
    returns (s': State)
    requires Reaches(addresses, first, s, 10, Exception(10, Handle(c, ModifyDone(answered))))
    requires c in s.conns && s.conns[c] == Sole(session, Dropping(session, adds, dels, rules, batch))
    requires CanFinish(s.shared, session.seid, batch, answered)
    ensures Reaches(addresses, first, s', 11, Exception(10, Handle(c, ModifyDone(answered)))) && c in s'.conns
    ensures s'.conns[c] == Sole(Session(session.seid, rules), Idle)
    ensures s'.shared == Finish(s.shared, session.seid, batch, answered)
  {
    var x := Exception(10, Handle(c, ModifyDone(answered)));
    s' := ReachesHandled(addresses, first, s, 10, x, c, ModifyDone(answered));
    var session' := Session(session.seid, rules);
    assert map[session.seid := session][session.seid := session'] == map[session.seid := session'];
  }

  lemma FinishForgotten(sh: Shared, addresses: set<Addr>, seid: Seid, e: Entry, batch: nat, answered: bool)
    requires SharedInv(sh, addresses) && Live(sh, Key(seid, e)) && Numbered(sh) && batch < sh.nextBatch
    ensures var sh' := Finish(sh, seid, batch, answered);
            SharedInv(sh', addresses) && Live(sh', Key(seid, e)) && Numbered(sh') && sh'.slots == sh.slots
  {
    AbandonShared(sh, seid, batch, addresses);
    assert forall k :: SlotAt(Abandon(sh, seid, batch), k) == SlotAt(sh, k);
  }

  lemma ModificationDone(
    s: State, addresses: set<Addr>, c: ConnId, seid: Seid, e: Entry,
    adds: set<Entry>, dels: set<Entry>, rules: set<Entry>, answered: bool)
    returns (s1: State, s': State)
    requires Initial(s, addresses) && addresses != {} && seid != 0 && e !in rules && (answered ==> dels == {})
    ensures Reaches(addresses, s, s', 11, Exception(10, Handle(c, ModifyDone(answered))))
    ensures OneSession(s1, addresses, c, seid, e) && Forgotten(s', addresses, c, seid, e, rules)
    ensures s'.shared.slots == Issue(Issue(s1.shared, seid, adds, true), seid, dels, false).slots
  {
    var x, session := Exception(10, Handle(c, ModifyDone(answered))), Session(seid, {e});
    s1 := Establishment(s, addresses, x, c, seid, e);
    var b := s1.shared.nextBatch + 1;
    var s2 := ModificationParsed(addresses, s, s1, x, c, session);
    s2 := ModificationSent(addresses, s, s2, x, c, session, adds, dels, rules);
    ModifiedShared(s1, addresses, c, seid, e, adds, dels);
    FinishForgotten(s2.shared, addresses, seid, e, b, answered);
    s' := ModificationStored(addresses, s, s2, c, session, adds, dels, rules, b, answered);
  }

  /** A finished deletion of a session that does not name a live entry frees the entry's address. */
  lemma ForgottenDeletion(
    addresses: set<Addr>, first: State, s: State, k: nat, x: Exception, c: ConnId, session: Session, batch: nat, e: Entry)
    returns (last: State)
    requires Reaches(addresses, first, s, k, x) && x.at < k
    requires c in s.conns && s.conns[c] == Sole(session, Deleting(session, batch))
    requires Drained(s.shared, session.seid, batch) && SharedInv(s.shared, addresses)
    requires session.seid in s.shared.pool.inventory && Live(s.shared, Key(session.seid, e))
    ensures Reaches(addresses, first, last, k + 1, x) && !NoLiveAddressFree(last.shared)
  {
    last := ReachesHandled(addresses, first, s, k, x, c, DeleteDone(true));
    ReleaseIsSafeIff(s.shared, session.seid, addresses);
  }

  lemma NothingToDelete(sh: Shared, addresses: set<Addr>, seid: Seid, e: Entry)
    requires SharedInv(sh, addresses) && Live(sh, Key(seid, e)) && Numbered(sh)
    ensures var sh' := Issue(sh, seid, {}, false);
            SharedInv(sh', addresses) && Live(sh', Key(seid, e)) && Drained(sh', seid, sh.nextBatch)
  {
    IssueDelShared(sh, seid, {}, addresses);
    IssueNumbered(sh, seid, {}, false);
  }

  /** A modification whose removal ran out of time forgets a live rule, and a later deletion frees its address. */
  lemma TimedOutModificationFreesLiveAddress(s: State, addresses: set<Addr>, c: ConnId, seid: Seid, e: Entry)
    returns (last: State)
    requires Initial(s, addresses) && addresses != {} && seid != 0
    ensures Reaches(addresses, s, last, 14, Exception(10, Handle(c, ModifyDone(false))))
    ensures !NoLiveAddressFree(last.shared)
  {
    var x, session := Exception(10, Handle(c, ModifyDone(false))), Session(seid, {});
    var s1, s2 := ModificationDone(s, addresses, c, seid, e, {}, {e}, {}, false);
    NothingToDelete(s2.shared, addresses, seid, e);
    var s3 := DeletionSent(addresses, s, s2, 11, x, c, session);
    last := ForgottenDeletion(addresses, s, s3, 13, x, c, session, s2.shared.nextBatch, e);
  }

  lemma ReachesLanded(addresses: set<Addr>, first: State, s: State, k: nat, x: Exception, key: Key) returns (s': State)
    requires Reaches(addresses, first, s, k, x) && x.at < k && SlotAt(s.shared, key).queue != []
    requires SharedInv(s.shared, addresses)
    ensures Reaches(addresses, first, s', k + 1, x) && s'.conns == s.conns && s'.shared.pool == s.shared.pool
    ensures SharedInv(s'.shared, addresses) && SlotAt(s'.shared, key) == Landed(SlotAt(s.shared, key), false)
    ensures forall j :: j != key ==> SlotAt(s'.shared, j) == SlotAt(s.shared, j)
  {
    LandKeeps(s.shared, key, false, addresses);
    ReachesNext(addresses, first, s, k, x, Land(key, false));
    s' := Apply(s, Land(key, false));
  }

  /** Once the commands of its one entry have landed, a session's deletion has drained. */
  lemma LandedIsDrained(sh: Shared, sh': Shared, seid: Seid, e: Entry, f: Entry)
    requires Numbered(sh) && Live(sh, Key(seid, e)) && e != f && SlotAt(sh', Key(seid, f)).queue == []
    requires forall j :: j != Key(seid, f) ==> SlotAt(sh', j) == SlotAt(Issue(sh, seid, {f}, false), j)
    ensures Drained(sh', seid, sh.nextBatch) && Live(sh', Key(seid, e))
  {
    IssueSlots(sh, seid, {f}, false, Key(seid, e));
    forall g: Entry, i | 0 <= i < |SlotAt(sh', Key(seid, g)).queue|
      ensures SlotAt(sh', Key(seid, g)).queue[i].batch != sh.nextBatch
    {
      IssueSlots(sh, seid, {f}, false, Key(seid, g));
    }
  }

  lemma DeleteOne(sh: Shared, addresses: set<Addr>, seid: Seid, f: Entry)
    requires SharedInv(sh, addresses)
    ensures SharedInv(Issue(sh, seid, {f}, false), addresses)
    ensures |SlotAt(Issue(sh, seid, {f}, false), Key(seid, f)).queue| == |SlotAt(sh, Key(seid, f)).queue| + 1
  {
    IssueDelShared(sh, seid, {f}, addresses);
    IssueSlots(sh, seid, {f}, false, Key(seid, f));
  }

  /** The entry a rule moved to has its add on the way, and nothing else. */
  lemma MovedSlot(sh: Shared, seid: Seid, e: Entry, f: Entry)
    requires e != f && sh.nextBatch > 0 && sh.slots == map[Key(seid, e) := Slot(false, [Cmd(true, sh.nextBatch - 1)])]
    ensures SlotAt(Issue(Issue(sh, seid, {f}, true), seid, {}, false), Key(seid, f)) == Slot(false, [Cmd(true, sh.nextBatch)])
  {
    IssueSlots(sh, seid, {f}, true, Key(seid, f));
    IssueSlots(Issue(sh, seid, {f}, true), seid, {}, false, Key(seid, f));
  }

  /** The two commands on the way to an entry take effect. */
  lemma BothLand(addresses: set<Addr>, first: State, s: State, k: nat, x: Exception, key: Key) returns (s': State)
    requires Reaches(addresses, first, s, k, x) && x.at < k && |SlotAt(s.shared, key).queue| == 2
    requires SharedInv(s.shared, addresses)
    ensures Reaches(addresses, first, s', k + 2, x) && s'.conns == s.conns && s'.shared.pool == s.shared.pool
    ensures SharedInv(s'.shared, addresses) && SlotAt(s'.shared, key).queue == []
    ensures forall j :: j != key ==> SlotAt(s'.shared, j) == SlotAt(s.shared, j)
  {
    s' := ReachesLanded(addresses, first, s, k, x, key);
    s' := ReachesLanded(addresses, first, s', k + 1, x, key);
  }

  /** Deleting a session with one entry, whose add is on the way, until the entry's commands have landed. */
  lemma DeletionLanded(addresses: set<Addr>, first: State, s: State, x: Exception, c: ConnId, session: Session, f: Entry)
    returns (s': State)
    requires Reaches(addresses, first, s, 11, x) && x.at == 10 && c in s.conns && s.conns[c] == Sole(session, Idle)
    requires session.rules == {f} && |SlotAt(s.shared, Key(session.seid, f)).queue| == 1 && SharedInv(s.shared, addresses)
    ensures Reaches(addresses, first, s', 15, x) && c in s'.conns
    ensures s'.conns[c] == Sole(session, Deleting(session, s.shared.nextBatch))
    ensures SharedInv(s'.shared, addresses) && s'.shared.pool == s.shared.pool
    ensures SlotAt(s'.shared, Key(session.seid, f)).queue == []
    ensures forall j :: j != Key(session.seid, f) ==>
                          SlotAt(s'.shared, j) == SlotAt(Issue(s.shared, session.seid, {f}, false), j)
  {
    DeleteOne(s.shared, addresses, session.seid, f);
    s' := DeletionSent(addresses, first, s, 11, x, c, session);
    s' := BothLand(addresses, first, s', 13, x, Key(session.seid, f));
  }

  /** A modification that moves a rule forgets the old entry, and a later deletion frees its address. */
  lemma MoveFreesLiveAddress(s: State, addresses: set<Addr>, c: ConnId, seid: Seid, e: Entry, f: Entry)
    returns (last: State)
    requires Initial(s, addresses) && addresses != {} && seid != 0 && e != f
    ensures Reaches(addresses, s, last, 16, Exception(10, Handle(c, ModifyDone(true))))
    ensures !NoLiveAddressFree(last.shared)
  {
    var x := Exception(10, Handle(c, ModifyDone(true)));
    var s1, s2 := ModificationDone(s, addresses, c, seid, e, {f}, {}, {f}, true);
    MovedSlot(s1.shared, seid, e, f);
    var s3 := DeletionLanded(addresses, s, s2, x, c, Session(seid, {f}), f);
    LandedIsDrained(s2.shared, s3.shared, seid, e, f);
    last := ForgottenDeletion(addresses, s, s3, 15, x, c, Session(seid, {f}), s2.shared.nextBatch, e);
  }
}
