/** The modification handler itself, over the session store and the log of batches sent to the datapath. */
module ModificationHandler {
  import opened Wrappers
  import opened RuleLists
  import opened Datapath
  import opened Rollback
  import opened Modification
  import opened ModificationSafety
  import opened AcceptedModification

  /**
   Whatever part of the batches took effect, and whenever, a datapath that was in step with the
   rules ends as it was once the last two batches have finished.
   */
  ghost predicate LeavesDatapath(rules: RuleSet, batches: seq<Batch>) {
    forall t: Table, h: History ::
      && Legal(h, Commands(batches)) && InIssueOrder(h) && InStep(t, Images(rules), Commands(batches))
      && (batches != [] ==> LastTwoFinish(h, Commands(batches)))
      ==> Run(t, h) == t
  }

  lemma RefusalLeavesDatapath(before: RuleSet, msg: Message, marking: Marking, v: Verdicts, seid: nat)
    requires Stamped(before, seid) && StampedMessage(msg, seid) && Decide(before, msg, marking, v).Refuse?
    ensures LeavesDatapath(before, Decide(before, msg, marking, v).batches)
  {
    var batches := Decide(before, msg, marking, v).batches;
    forall t: Table, h: History |
      && Legal(h, Commands(batches)) && InIssueOrder(h) && InStep(t, Images(before), Commands(batches))
      && (batches != [] ==> LastTwoFinish(h, Commands(batches)))
      ensures Run(t, h) == t
    {
      RefusedModificationLeavesDatapath(before, msg, marking, v, seid, t, h);
    }
  }

  lemma AcceptedRulesStamped(before: RuleSet, msg: Message, marking: Marking, v: Verdicts, seid: nat)
    requires Stamped(before, seid) && StampedMessage(msg, seid) && Decide(before, msg, marking, v).Accept?
    ensures Stamped(Decide(before, msg, marking, v).rules, seid)
  {
    var written, gone := AcceptedBatches(before, msg, marking, v);
    AcceptedStamped(before, msg, marking, seid, written, gone, Decide(before, msg, marking, v).rules);
  }

  /** The part of the user plane that the handler reads and changes. */
  class Upf {
    var store: map<nat, Session>
    var shutdown: bool
    // Every batch sent to the datapath, in order of issue.
    var log: seq<Batch>

    ghost predicate Valid()
      reads this
    {
      forall seid :: seid in store ==> Stamped(store[seid].rules, seid)
    }

    /** SendMsgToUPFWithCompletion: one batch, and what its join makes of the reports. */
    method Send(batch: Batch, reports: Reports) returns (rejected: bool, finished: bool)
      modifies this`log
      ensures log == old(log) + [batch]
      ensures rejected <==> Rejects(reports, Calls(batch.rules))
      ensures finished <==> Calls(batch.rules) == 0 || Completes(Calls(batch.rules), reports)
    {
      log := log + [batch];
      var calls := Calls(batch.rules);
      if calls == 0 {
        return false, true;
      }
      var completed, succeeded := GRPCJoin(calls, reports);
      return completed && !succeeded, completed;
    }

    /** What a rollback would remove: the created rules, and the updated ones that moved. */
    method RollbackRules(before: RuleSet, written: RuleSet, pdrs: nat, fars: nat, qers: nat) returns (remove: RuleSet)
      requires pdrs <= |written.pdrs| && fars <= |written.fars| && qers <= |written.qers|
      ensures remove == ToRemove(before, written, pdrs, fars, qers)
    {
      var movedPdrs := MovedRules(written.pdrs[pdrs..], before.pdrs, PdrId, SamePdrEntry);
      var movedQers := MovedRules(written.qers[qers..], before.qers, QerId, SameQerEntry);
      remove := RuleSet(written.pdrs[..pdrs] + movedPdrs, written.fars[..fars], written.qers[..qers] + movedQers);
    }

    /** Puts the datapath back; a refusal of either batch is only logged by the source. */
    method RollBack(before: RuleSet, remove: RuleSet, v: Verdicts)
      modifies this`log
      ensures log == old(log) + [Dels(remove), Adds(before)]
    {
      var _, _ := Send(Dels(remove), v.remove);
      var _, _ := Send(Adds(before), v.restore);
    }

    /** The creates and the updates of a message, or the failure to parse one of them. */
    method Edit(before: RuleSet, msg: Message, marking: Marking) returns (held: RuleSet, written: RuleSet, ok: bool)
      ensures ok <==> Parses(msg)
      ensures ok ==> held == PlanFor(before, msg, marking).held && written == PlanFor(before, msg, marking).written
    {
      held, written, ok := before, before, false;
      var pdrs, pdrsOk := ParseCreates(before.pdrs, msg.createPdrs);
      if !pdrsOk { return; }
      var fars, farsOk := ParseCreates(before.fars, msg.createFars);
      if !farsOk { return; }
      var qers, qersOk := ParseCreates(before.qers, msg.createQers);
      if !qersOk { return; }
      var foundPdrs, foundFars, foundQers;
      pdrs, foundPdrs, pdrsOk := ParseUpdates(pdrs, msg.updatePdrs, PdrId);
      if !pdrsOk { return; }
      fars, foundFars, farsOk := ParseUpdates(fars, msg.updateFars, FarId);
      if !farsOk { return; }
      qers, foundQers, qersOk := ParseUpdates(qers, msg.updateQers, QerId);
      if !qersOk { return; }
      held := Marked(RuleSet(pdrs, fars, qers), marking);
      var writtenPdrs, _ := HeldVersions(held.pdrs, |before.pdrs|, foundPdrs, PdrId);
      var writtenFars, _ := HeldVersions(held.fars, |before.fars|, foundFars, FarId);
      var writtenQers, _ := HeldVersions(held.qers, |before.qers|, foundQers, QerId);
      written := RuleSet(writtenPdrs, writtenFars, writtenQers);
      ok := true;
    }

    /** The removals of a message, or the failure of one of them. */
    method RemoveRules(held: RuleSet, msg: Message) returns (rest: RuleSet, gone: RuleSet, ok: bool)
      ensures ok <==> Removals(held, msg).Some?
      ensures ok ==> Removals(held, msg).value == (rest, gone)
    {
      rest, gone, ok := held, held, false;
      var pdrs, gonePdrs, pdrsOk := RemoveAll(held.pdrs, msg.removePdrs, PdrId);
      if !pdrsOk { return; }
      var fars, goneFars, farsOk := RemoveAll(held.fars, msg.removeFars, FarId);
      if !farsOk { return; }
      var qers, goneQers, qersOk := RemoveAll(held.qers, msg.removeQers, QerId);
      if !qersOk { return; }
      rest, gone, ok := RuleSet(pdrs, fars, qers), RuleSet(gonePdrs, goneFars, goneQers), true;
    }

    /** Writes what the message touched and removes what it removes, or puts the datapath back. */
    method Program(before: RuleSet, held: RuleSet, written: RuleSet, remove: RuleSet, msg: Message, v: Verdicts,
                   ghost removals: Option<(RuleSet, RuleSet)>)
      returns (accepted: bool, rest: RuleSet)
      requires removals == Removals(held, msg)
      modifies this`log
      ensures var o := DecidePlan(before, Plan(held, written, remove), removals, v);
              && (accepted <==> o.Accept?)
              && log == old(log) + o.batches
              && (accepted ==> rest == o.rules)
    {
      var rejected, _ := Send(Adds(written), v.write);
      if !rejected {
        var deleted;
        deleted, rest := Delete(held, msg, v, removals);
        if deleted {
          return true, rest;
        }
      }
      RollBack(before, remove, v);
      return false, before;
    }

    /** Removes what the message removes, from the rules and from the datapath, unless either fails. */
    method Delete(held: RuleSet, msg: Message, v: Verdicts, ghost removals: Option<(RuleSet, RuleSet)>)
      returns (deleted: bool, rest: RuleSet)
      requires removals == Removals(held, msg)
      modifies this`log
      ensures log == if removals.Some? then old(log) + [Dels(removals.value.1)] else old(log)
      ensures deleted <==> removals.Some? && !Rejects(v.delete, Calls(removals.value.1))
      ensures deleted ==> rest == removals.value.0
    {
      var left, gone, removed := RemoveRules(held, msg);
      if !removed {
        return false, held;
      }
      var rejected, _ := Send(Dels(gone), v.delete);
      return !rejected, left;
    }

    method Modify(before: RuleSet, msg: Message, marking: Marking, v: Verdicts, ghost seid: nat)
      returns (accepted: bool, rest: RuleSet)
      requires Stamped(before, seid) && StampedMessage(msg, seid)
      modifies this`log
      ensures !accepted ==> LeavesDatapath(before, Decide(before, msg, marking, v).batches)
      ensures accepted ==> Stamped(rest, seid)
      ensures accepted <==> Decide(before, msg, marking, v).Accept?
      ensures log == old(log) + Decide(before, msg, marking, v).batches
      ensures accepted ==> rest == Decide(before, msg, marking, v).rules
    {
      var held, written, parsed := Edit(before, msg, marking);
      if !parsed {
        RefusalLeavesDatapath(before, msg, marking, v, seid);
        return false, before;
      }
      var remove := RollbackRules(before, written, |msg.createPdrs|, |msg.createFars|, |msg.createQers|);
      accepted, rest := Program(before, held, written, remove, msg, v, Removals(held, msg));
      if accepted {
        AcceptedRulesStamped(before, msg, marking, v, seid);
      } else {
        RefusalLeavesDatapath(before, msg, marking, v, seid);
      }
    }

    method HandleModification(seid: nat, msg: Message, marking: Marking, v: Verdicts) returns (answer: Answer)
      requires Valid() && StampedMessage(msg, seid)
      modifies this`store, this`log
      ensures Valid()
      ensures answer == NotFound <==> seid !in old(store) && !shutdown
      ensures answer == Releasing <==> shutdown
      ensures answer.NotFound? || answer.Releasing? ==> store == old(store) && log == old(log)
      ensures answer.Rejected? ==>
                && store == old(store)
                && Decide(store[seid].rules, msg, marking, v).Refuse?
                && log == old(log) + Decide(store[seid].rules, msg, marking, v).batches
                && LeavesDatapath(store[seid].rules, Decide(store[seid].rules, msg, marking, v).batches)
      ensures answer.Accepted? ==>
                var session, o := old(store[seid]), Decide(old(store[seid].rules), msg, marking, v);
                var remote := if msg.remoteSEID.Some? then msg.remoteSEID.value else session.remoteSEID;
                && o.Accept?
                && store == old(store)[seid := Session(remote, o.rules)]
                && log == old(log) + o.batches
    {
      if seid !in store {
        return if shutdown then Releasing else NotFound;
      }
      var session := store[seid];
      var before := session.rules;
      if shutdown {
        return Releasing;
      }
      var accepted, rest := Modify(before, msg, marking, v, seid);
      if !accepted {
        return Rejected;
      }
      var remote := if msg.remoteSEID.Some? then msg.remoteSEID.value else session.remoteSEID;
      store := store[seid := Session(remote, rest)];
      return Accepted;
    }
  }
}
