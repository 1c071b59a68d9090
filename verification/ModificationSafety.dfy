/** A refused modification: the rollback covers what the message wrote, and leaves the datapath as it was. */
module ModificationSafety {
  import opened Wrappers
  import opened Ports
  import opened Rules
  import opened RuleLists
  import opened Datapath
  import opened Rollback
  import opened Modification

  // ----- What the edits keep -----

  lemma {:induction false} UpdatedElements<R>(rules: seq<R>, id: R -> nat, updates: seq<R>, i: nat)
    requires i < |rules|
    ensures AllUpdated(rules, id, updates)[i] in rules || AllUpdated(rules, id, updates)[i] in updates
  {
    if updates != [] {
      UpdatedElements(rules, id, updates[..|updates| - 1], i);
    }
  }

  lemma EditedStamped(before: RuleSet, msg: Message, seid: nat)
    requires Parses(msg) && Stamped(before, seid) && StampedMessage(msg, seid)
    ensures Stamped(Edited(before, msg), seid)
  {
    var rs := Edited(before, msg);
    forall i | 0 <= i < |rs.fars|
      ensures rs.fars[i].fseID == seid
    {
      UpdatedElements(before.fars + Values(msg.createFars), FarId, Values(msg.updateFars), i);
    }
    forall i | 0 <= i < |rs.qers|
      ensures rs.qers[i].fseID == seid
    {
      UpdatedElements(before.qers + Values(msg.createQers), QerId, Values(msg.updateQers), i);
    }
  }

  lemma HeldStamped(before: RuleSet, msg: Message, marking: Marking, seid: nat)
    requires Parses(msg) && Stamped(before, seid) && StampedMessage(msg, seid)
    ensures Stamped(PlanFor(before, msg, marking).held, seid)
  {
    EditedStamped(before, msg, seid);
  }

  /** A written rule is one the session holds. */
  lemma VersionsAreHeld<R>(held: seq<R>, kept: nat, updated: seq<R>, id: R -> nat, r: R)
    requires kept <= |held| && r in Versions(held, kept, updated, id, kept)
    ensures r in held
  {
  }

  /** A written rule that was not created stands at a kept position. */
  lemma TailIsKept<R>(held: seq<R>, kept: nat, updated: seq<R>, id: R -> nat, r: R) returns (i: nat)
    requires kept <= |held| && r in Versions(held, kept, updated, id, kept)[|held| - kept..]
    ensures i < kept && held[i] == r && Touches(held, id, updated, i)
  {
    var ps := TouchedBelow(held, id, updated, kept);
    var j :| 0 <= j < |ps| && At(held, ps)[j] == r;
    i := ps[j];
  }

  lemma InPrefixOrTail<R>(rs: seq<R>, n: nat, r: R)
    requires n <= |rs| && r in rs
    ensures r in rs[..n] || r in rs[n..]
  {
  }

  // ----- The rollback covers what the message wrote -----

  lemma PdrCovered(before: seq<Pdr>, written: seq<Pdr>, created: nat, p: Pdr)
    requires created <= |written| && p in written
    ensures var remove := written[..created] + Moved(written[created..], before, PdrId, SamePdrEntry);
            p in remove || exists q :: q in before && PdrKeys(q) == PdrKeys(p)
  {
    InPrefixOrTail(written, created, p);
    var tail := written[created..];
    if p in tail && p !in Moved(tail, before, PdrId, SamePdrEntry) {
      var i :| 0 <= i < |before| && PdrId(before[i]) == PdrId(p) && SamePdrEntry(p, before[i]);
      PdrEntryIdentity(p, before[i]);
      assert before[i] in before;
    }
  }

  lemma QerCovered(before: seq<Qer>, written: seq<Qer>, created: nat, q: Qer, seid: nat)
    requires created <= |written| && q in written && q.fseID == seid
    requires forall i :: 0 <= i < |before| ==> before[i].fseID == seid
    ensures var remove := written[..created] + Moved(written[created..], before, QerId, SameQerEntry);
            q in remove || exists b :: b in before && Keys(QerRule(b)) == Keys(QerRule(q))
  {
    InPrefixOrTail(written, created, q);
    var tail := written[created..];
    if q in tail && q !in Moved(tail, before, QerId, SameQerEntry) {
      var i :| 0 <= i < |before| && QerId(before[i]) == QerId(q) && SameQerEntry(q, before[i]);
      QerEntryIdentity(q, before[i]);
      assert before[i] in before;
    }
  }

  lemma FarListCovered(before: seq<Far>, creates: seq<Far>, updates: seq<Far>, held: seq<Far>, f: Far) returns (i: nat)
    requires held == AllUpdated(before + creates, FarId, updates)
    requires f in Touched(before, creates, updates, held, FarId)[|creates|..]
    ensures i < |before| && held[i] == f && before[i].farID == f.farID
  {
    i := TailIsKept(held, |before|, Found(before + creates, FarId, updates), FarId, f);
    UpdatesKeepIds(before + creates, FarId, updates);
    assert FarId(held[i]) == FarId((before + creates)[i]);
  }

  /** A written FAR is one the rollback removes, or has the entry of one the session had. */
  lemma FarCovered(before: RuleSet, msg: Message, marking: Marking, f: Far, seid: nat) returns (g: Far)
    requires Parses(msg) && Stamped(before, seid) && StampedMessage(msg, seid)
    requires f in PlanFor(before, msg, marking).written.fars
    ensures f in PlanFor(before, msg, marking).remove.fars || (g in before.fars && Keys(FarRule(g)) == Keys(FarRule(f)))
  {
    g := f;
    var plan := PlanFor(before, msg, marking);
    InPrefixOrTail(plan.written.fars, |msg.createFars|, f);
    if f in plan.written.fars[|msg.createFars|..] {
      var i := FarListCovered(before.fars, Values(msg.createFars), Values(msg.updateFars), Edited(before, msg).fars, f);
      EditedStamped(before, msg, seid);
      g := before.fars[i];
    }
  }

  lemma ImageOf(rs: RuleSet, m: Image) returns (r: Rule)
    requires m in Images(rs)
    ensures m == Entries(r)
    ensures match r
            case PdrRule(p) => p in rs.pdrs
            case FarRule(f) => f in rs.fars
            case QerRule(q) => q in rs.qers
  {
    if p :| p in rs.pdrs && m == Entries(PdrRule(p)) {
      r := PdrRule(p);
    } else if f :| f in rs.fars && m == Entries(FarRule(f)) {
      r := FarRule(f);
    } else {
      var q :| q in rs.qers && m == Entries(QerRule(q));
      r := QerRule(q);
    }
  }

  predicate Holds(rs: RuleSet, r: Rule) {
    match r
    case PdrRule(p) => p in rs.pdrs
    case FarRule(f) => f in rs.fars
    case QerRule(q) => q in rs.qers
  }

  lemma KeyOfHeldRule(rs: RuleSet, r: Rule, k: Key)
    requires Holds(rs, r) && k in Keys(r)
    ensures k in KeysOf(Images(rs))
  {
    assert Entries(r) in Images(rs);
    assert k in Entries(r);
  }

  lemma RuleCovered(before: RuleSet, msg: Message, marking: Marking, r: Rule, seid: nat) returns (s: Rule)
    requires Parses(msg) && Stamped(before, seid) && StampedMessage(msg, seid)
    requires Holds(PlanFor(before, msg, marking).written, r)
    ensures Holds(PlanFor(before, msg, marking).remove, s) || Holds(before, s)
    ensures Keys(s) == Keys(r)
  {
    var plan := PlanFor(before, msg, marking);
    s := r;
    match r
    case PdrRule(p) =>
      PdrCovered(before.pdrs, plan.written.pdrs, |msg.createPdrs|, p);
      if p !in plan.remove.pdrs {
        var q :| q in before.pdrs && PdrKeys(q) == PdrKeys(p);
        s := PdrRule(q);
      }
    case FarRule(f) =>
      var g := FarCovered(before, msg, marking, f, seid);
      if f !in plan.remove.fars {
        s := FarRule(g);
      }
    case QerRule(q) =>
      HeldStamped(before, msg, marking, seid);
      VersionsAreHeld(plan.held.qers, |before.qers|,
                      Found(before.qers + Values(msg.createQers), QerId, Values(msg.updateQers)), QerId, q);
      QerCovered(before.qers, plan.written.qers, |msg.createQers|, q, seid);
      if q !in plan.remove.qers {
        var b :| b in before.qers && Keys(QerRule(b)) == Keys(QerRule(q));
        s := QerRule(b);
      }
  }

  /** Every key the message writes is one the rollback removes or one it rewrites. */
  lemma WritesCovered(before: RuleSet, msg: Message, marking: Marking, seid: nat, k: Key)
    requires Parses(msg) && Stamped(before, seid) && StampedMessage(msg, seid)
    requires k in KeysOf(Images(PlanFor(before, msg, marking).written))
    ensures k in KeysOf(Images(before)) || k in KeysOf(Images(PlanFor(before, msg, marking).remove))
  {
    var plan := PlanFor(before, msg, marking);
    var m :| m in Images(plan.written) && k in m;
    var r := ImageOf(plan.written, m);
    var s := RuleCovered(before, msg, marking, r, seid);
    if Holds(before, s) {
      KeyOfHeldRule(before, s, k);
    } else {
      KeyOfHeldRule(plan.remove, s, k);
    }
  }

  /** The batches of a refused modification end with a removal and a restore that cover its writes. */
  lemma RefusedBatchesRestore(before: RuleSet, msg: Message, marking: Marking, v: Verdicts, seid: nat)
    requires Stamped(before, seid) && StampedMessage(msg, seid)
    requires Decide(before, msg, marking, v).Refuse? && Decide(before, msg, marking, v).batches != []
    ensures RestoresLast(Commands(Decide(before, msg, marking, v).batches), Images(before),
                         Images(PlanFor(before, msg, marking).remove))
  {
    var plan := PlanFor(before, msg, marking);
    forall k | k in KeysOf(Images(plan.written))
      ensures k in KeysOf(Images(before)) || k in KeysOf(Images(plan.remove))
    {
      WritesCovered(before, msg, marking, seid, k);
    }
    RefusedPlanRestores(before, plan, Removals(plan.held, msg), v);
  }

  lemma RefusedPlanRestores(before: RuleSet, plan: Plan, removals: Option<(RuleSet, RuleSet)>, v: Verdicts)
    requires DecidePlan(before, plan, removals, v).Refuse?
    requires KeysOf(Images(plan.written)) <= KeysOf(Images(before)) + KeysOf(Images(plan.remove))
    ensures RestoresLast(Commands(DecidePlan(before, plan, removals, v).batches), Images(before), Images(plan.remove))
  {
    var batches := DecidePlan(before, plan, removals, v).batches;
    var cs, n := Commands(batches), |batches|;
    assert batches[n - 1] == Adds(before) && batches[n - 2] == Dels(plan.remove) && batches[0] == Adds(plan.written);
    assert cs[n - 1] == CommandsOf(batches[n - 1]) && cs[n - 2] == CommandsOf(batches[n - 2]);
    forall b: nat, c: Command | b < n - 2 && c in cs[b] && c.Put?
      ensures c.key in KeysOf(Images(before)) || c.key in KeysOf(Images(plan.remove))
    {
      assert cs[b] == CommandsOf(batches[b]);
      PutKeyWritten(batches[b], c);
    }
  }

  lemma PutKeyWritten(b: Batch, c: Command)
    requires c in CommandsOf(b) && c.Put?
    ensures b.Adds? && c.key in KeysOf(Images(b.rules))
  {
  }

  lemma SomethingIssued(h: History, batches: seq<set<Command>>)
    requires Legal(h, batches) && h != []
    ensures batches != []
  {
    assert h[0].batch < |batches|;
  }

  lemma RefusedEndsWith(before: RuleSet, msg: Message, marking: Marking, v: Verdicts)
    requires Decide(before, msg, marking, v).Refuse? && Decide(before, msg, marking, v).batches != []
    ensures var batches := Decide(before, msg, marking, v).batches;
            var n := |batches|;
            && n >= 2 && batches[n - 2] == Dels(PlanFor(before, msg, marking).remove) && batches[n - 1] == Adds(before)
  {
    var plan := PlanFor(before, msg, marking);
    PlanEndsWith(before, plan, Removals(plan.held, msg), v);
  }

  lemma PlanEndsWith(before: RuleSet, plan: Plan, removals: Option<(RuleSet, RuleSet)>, v: Verdicts)
    requires DecidePlan(before, plan, removals, v).Refuse?
    ensures var batches := DecidePlan(before, plan, removals, v).batches;
            var n := |batches|;
            n >= 2 && batches[n - 2] == Dels(plan.remove) && batches[n - 1] == Adds(before)
  {
  }

  /**
   Rollback is exact. However much of a refused modification's writes and removals took effect,
   in whatever order and however late, once the rollback's two batches have finished the datapath
   is what it was before the message.
   */
  lemma RefusedModificationLeavesDatapath(
    before: RuleSet, msg: Message, marking: Marking, v: Verdicts, seid: nat, t: Table, h: History)
    requires Stamped(before, seid) && StampedMessage(msg, seid)
    requires Decide(before, msg, marking, v).Refuse?
    requires var batches := Commands(Decide(before, msg, marking, v).batches);
             && Legal(h, batches) && InIssueOrder(h) && InStep(t, Images(before), batches)
             && (batches != [] ==> LastTwoFinish(h, batches))
    ensures Run(t, h) == t
  {
    var batches := Commands(Decide(before, msg, marking, v).batches);
    if h != [] {
      SomethingIssued(h, batches);
      RefusedBatchesRestore(before, msg, marking, v, seid);
      RestoreIsExact(t, h, batches, Images(before), Images(PlanFor(before, msg, marking).remove));
    }
  }

  /** It is so in every run if and only if the session's own rules agree wherever they share a key. */
  lemma RollbackExactIffRulesAgree(before: RuleSet, msg: Message, marking: Marking, v: Verdicts, seid: nat, t: Table)
    requires Stamped(before, seid) && StampedMessage(msg, seid)
    requires Decide(before, msg, marking, v).Refuse? && Decide(before, msg, marking, v).batches != []
    requires Rollback.Written(t, Images(before), Commands(Decide(before, msg, marking, v).batches))
    ensures AlwaysExact(t, Commands(Decide(before, msg, marking, v).batches)) <==> Agree(Images(before))
  {
    RefusedBatchesRestore(before, msg, marking, v, seid);
    RestoreExactIffRulesAgree(t, Commands(Decide(before, msg, marking, v).batches), Images(before),
                              Images(PlanFor(before, msg, marking).remove));
  }

  // ----- A session whose rules disagree -----

  /** Two PDRs that match the same packets and point to different FARs. */
  function MatchAll(id: nat, far: nat): (p: Pdr) {
    var filter := AppFilter(0, 0, 0, 0, 0, 0, PortRange(0, 0), PortRange(0, 0));
    Pdr(id, 1, 1, 255, 0, 0, 0, 0, filter, 0, 0, far, [], 0)
  }

  const Disagreeing: RuleSet := RuleSet([MatchAll(1, 1), MatchAll(2, 2)], [], [])

  /** A message that removes a PDR the session does not have. */
  const RemovesMissing: Message := Message(None, [], [], [], [], [], [], [Ok(3)], [], [])

  lemma TwoPdrsDisagree(p: Pdr, q: Pdr)
    requires PdrOccupiesSameEntry(p, q) && PdrKeys(p) != {} && p.farID != q.farID
    ensures var images := Images(RuleSet([p, q], [], []));
            KeysOf(images) == PdrKeys(p) && !Agree(images)
  {
    var rs := RuleSet([p, q], [], []);
    PdrEntryIdentity(p, q);
    var k :| k in PdrKeys(p);
    var m, n := Entries(PdrRule(p)), Entries(PdrRule(q));
    assert p in rs.pdrs && q in rs.pdrs;
    assert m in Images(rs) && n in Images(rs) && m[k] != n[k];
    forall i | i in Images(rs)
      ensures i.Keys == PdrKeys(p)
    {
      var r := ImageOf(rs, i);
    }
  }

  lemma MissingCannotGo<R>(rules: seq<R>, id: R -> nat, x: nat)
    requires forall i :: 0 <= i < |rules| ==> id(rules[i]) != x
    ensures AllRemoved(rules, id, [x]).None?
  {
    assert [x][..0] == [];
  }

  /** A message that removes only a PDR the session does not have is refused after its write. */
  lemma MissingIsRefused(before: RuleSet, msg: Message, marking: Marking, v: Verdicts, x: nat)
    requires Parses(msg) && msg.removePdrs == [Ok(x)]
    requires var held := PlanFor(before, msg, marking).held;
             forall i :: 0 <= i < |held.pdrs| ==> PdrId(held.pdrs[i]) != x
    ensures Decide(before, msg, marking, v).Refuse? && Decide(before, msg, marking, v).batches != []
  {
    var plan := PlanFor(before, msg, marking);
    MissingCannotGo(plan.held.pdrs, PdrId, x);
    assert Values(msg.removePdrs) == [x];
    RefusedWithoutRemovals(before, plan, v);
  }

  lemma DisagreeingHeld()
    ensures var held := PlanFor(Disagreeing, RemovesMissing, Marking([], [])).held;
            forall i :: 0 <= i < |held.pdrs| ==> PdrId(held.pdrs[i]) != 3
  {
    var list := Disagreeing.pdrs + Values(RemovesMissing.createPdrs);
    assert list == Disagreeing.pdrs;
    UpdatesKeepIds(list, PdrId, Values(RemovesMissing.updatePdrs));
  }

  lemma RefusedWithoutRemovals(before: RuleSet, plan: Plan, v: Verdicts)
    ensures DecidePlan(before, plan, None, v).Refuse? && DecidePlan(before, plan, None, v).batches != []
  {
  }

  lemma DisagreeingRefused(v: Verdicts)
    ensures Decide(Disagreeing, RemovesMissing, Marking([], []), v).Refuse?
    ensures Decide(Disagreeing, RemovesMissing, Marking([], []), v).batches != []
  {
    DisagreeingHeld();
    MissingIsRefused(Disagreeing, RemovesMissing, Marking([], []), v, 3);
  }

  /** Whenever the session's rules disagree, some run of a refusal leaves another table. */
  lemma DisagreeingRollback(before: RuleSet, msg: Message, marking: Marking, v: Verdicts, t: Table) returns (h: History)
    requires Decide(before, msg, marking, v).Refuse? && Decide(before, msg, marking, v).batches != []
    requires KeysOf(Images(before)) <= t.Keys && !Agree(Images(before))
    ensures var batches := Commands(Decide(before, msg, marking, v).batches);
            Legal(h, batches) && InIssueOrder(h) && Once(h) && LastTwoFinish(h, batches) && Run(t, h) != t
  {
    RefusedEndsWith(before, msg, marking, v);
    h := DisagreeingRun(t, Commands(Decide(before, msg, marking, v).batches), Images(before));
  }

  lemma OneOfTwoWritten(rs: RuleSet, p: Pdr, batches: seq<set<Command>>)
    requires p in rs.pdrs && KeysOf(Images(rs)) == PdrKeys(p)
    ensures Rollback.Written(Entries(PdrRule(p)), Images(rs), batches)
  {
    assert Entries(PdrRule(p)) in Images(rs);
  }

  /** Whatever the answers, the refused message may leave this session's entry with the other PDR. */
  lemma DisagreeingSession(v: Verdicts) returns (t: Table, h: History)
    ensures Decide(Disagreeing, RemovesMissing, Marking([], []), v).Refuse?
    ensures var batches := Commands(Decide(Disagreeing, RemovesMissing, Marking([], []), v).batches);
            && Rollback.Written(t, Images(Disagreeing), batches)
            && Legal(h, batches) && InIssueOrder(h) && Once(h) && LastTwoFinish(h, batches) && Run(t, h) != t
  {
    DisagreeingRefused(v);
    PdrWithoutKeys(MatchAll(1, 1));
    TwoPdrsDisagree(MatchAll(1, 1), MatchAll(2, 2));
    t := Entries(PdrRule(MatchAll(1, 1)));
    OneOfTwoWritten(Disagreeing, MatchAll(1, 1), Commands(Decide(Disagreeing, RemovesMissing, Marking([], []), v).batches));
    h := DisagreeingRollback(Disagreeing, RemovesMissing, Marking([], []), v, t);
  }
}
