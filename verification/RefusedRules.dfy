/**
 What a refused modification removes: the rules it created, and the rules it updated onto another
 entry. A rule that kept its entry is left alone, since the restore writes that very entry.
 */
module RefusedRules {
  import opened Wrappers
  import opened Rules
  import opened RuleLists
  import opened Modification
  import opened ModificationSafety
  import opened AcceptedRules

  /** The rule is the written version of position i, which is new or not on the entry it had. */
  ghost predicate UndoneAt<R(!new)>(
    list: seq<R>, kept: nat, updates: seq<Result<R>>, id: R -> nat, mark: (nat, R) -> R, same: (R, R) -> bool, r: R, i: nat)
  {
    WrittenAt(list, kept, updates, id, mark, r, i) && (i >= kept || !same(r, list[i]))
  }

  ghost predicate UndoesExactly<R(!new)>(
    list: seq<R>, kept: nat, updates: seq<Result<R>>, id: R -> nat, mark: (nat, R) -> R, same: (R, R) -> bool, undone: seq<R>)
  {
    forall r :: r in undone <==> exists i :: UndoneAt(list, kept, updates, id, mark, same, r, i)
  }

  lemma {:induction false} MovedMember<R(!new)>(rules: seq<R>, before: seq<R>, id: R -> nat, same: (R, R) -> bool, r: R)
    ensures var i := FirstIndex(before, id, id(r));
            r in Moved(rules, before, id, same) <==> r in rules && !(i < |before| && same(r, before[i]))
  {
    if rules != [] {
      var n := |rules| - 1;
      MovedMember(rules[..n], before, id, same, r);
      assert rules == rules[..n] + [rules[n]];
    }
  }

  /** What the rollback removes of one kind whose rules can move. */
  function Undone<R>(before: seq<R>, created: nat, written: seq<R>, id: R -> nat, same: (R, R) -> bool): (rs: seq<R>)
    requires created <= |written|
  {
    written[..created] + Moved(written[created..], before, id, same)
  }

  lemma WrittenInTwo<R(!new)>(before: seq<R>, creates: seq<R>, updates: seq<R>, held: seq<R>, id: R -> nat)
    requires |held| == |before| + |creates|
    ensures var written, ps := Touched(before, creates, updates, held, id), TouchedBelow(held, id, Found(before + creates, id, updates), |before|);
            |written| >= |creates| && written[..|creates|] == held[|before|..] && written[|creates|..] == At(held, ps)
  {
  }

  /** A rule that was written moved exactly if it is not on the entry its position had. */
  lemma UndoneIffMoved<R(!new)>(
    before: seq<R>, creates: seq<R>, updates: seq<Result<R>>, id: R -> nat, mark: (nat, R) -> R, same: (R, R) -> bool,
    held: seq<R>, r: R, i: nat)
    requires HoldsFinals(before + creates, updates, id, mark, held) && i < |held| && r == held[i]
    ensures i < |before| ==> FirstIndex(before, id, id(r)) == i
    ensures i >= |before| ==> FirstIndex(before, id, id(r)) == |before|
  {
    var list := before + creates;
    FinalsKeepIds(list, updates, id, mark, held);
    assert forall j :: 0 <= j < |before| ==> list[j] == before[j];
    if i < |before| {
      FirstIndexUnique(before, id, id(r), i);
    }
  }

  lemma UndoneIsUndoneAt<R(!new)>(
    before: seq<R>, creates: seq<R>, updates: seq<Result<R>>, id: R -> nat, mark: (nat, R) -> R, same: (R, R) -> bool, held: seq<R>, r: R)
    requires HoldsFinals(before + creates, updates, id, mark, held)
    requires |Touched(before, creates, Values(updates), held, id)| >= |creates|
    requires r in Undone(before, |creates|, Touched(before, creates, Values(updates), held, id), id, same)
    ensures exists i :: UndoneAt(before + creates, |before|, updates, id, mark, same, r, i)
  {
    var written := Touched(before, creates, Values(updates), held, id);
    WrittenInTwo(before, creates, Values(updates), held, id);
    MovedMember(written[|creates|..], before, id, same, r);
    assert r in written;
    WrittenIsWrittenAt(before, creates, updates, id, mark, held, r);
    var i: nat :| WrittenAt(before + creates, |before|, updates, id, mark, r, i);
    SettledIsHeld(before + creates, updates, id, mark, held, i, r);
    UndoneIffMoved(before, creates, updates, id, mark, same, held, r, i);
    if i < |before| && r in written[..|creates|] {
      var j :| 0 <= j < |creates| && held[|before|..][j] == r;
      UndoneIffMoved(before, creates, updates, id, mark, same, held, r, |before| + j);
      assert false;
    }
    assert UndoneAt(before + creates, |before|, updates, id, mark, same, r, i);
  }

  lemma UndoneAtIsUndone<R(!new)>(
    before: seq<R>, creates: seq<R>, updates: seq<Result<R>>, id: R -> nat, mark: (nat, R) -> R, same: (R, R) -> bool,
    held: seq<R>, r: R, i: nat)
    requires HoldsFinals(before + creates, updates, id, mark, held)
    requires |Touched(before, creates, Values(updates), held, id)| >= |creates|
    requires UndoneAt(before + creates, |before|, updates, id, mark, same, r, i)
    ensures r in Undone(before, |creates|, Touched(before, creates, Values(updates), held, id), id, same)
  {
    var written := Touched(before, creates, Values(updates), held, id);
    WrittenInTwo(before, creates, Values(updates), held, id);
    MovedMember(written[|creates|..], before, id, same, r);
    SettledIsHeld(before + creates, updates, id, mark, held, i, r);
    WrittenAtIsWritten(before, creates, updates, id, mark, held, r, i);
    UndoneIffMoved(before, creates, updates, id, mark, same, held, r, i);
    if i >= |before| {
      assert held[|before|..][i - |before|] == r;
    }
    assert written == written[..|creates|] + written[|creates|..];
  }

  lemma ListUndoes<R(!new)>(
    before: seq<R>, creates: seq<R>, updates: seq<Result<R>>, id: R -> nat, mark: (nat, R) -> R, same: (R, R) -> bool, held: seq<R>)
    requires HoldsFinals(before + creates, updates, id, mark, held)
    ensures var written := Touched(before, creates, Values(updates), held, id);
            && |written| >= |creates|
            && UndoesExactly(before + creates, |before|, updates, id, mark, same, Undone(before, |creates|, written, id, same))
  {
    var written := Touched(before, creates, Values(updates), held, id);
    WrittenInTwo(before, creates, Values(updates), held, id);
    forall r
      ensures r in Undone(before, |creates|, written, id, same) <==>
              exists i :: UndoneAt(before + creates, |before|, updates, id, mark, same, r, i)
    {
      if r in Undone(before, |creates|, written, id, same) {
        UndoneIsUndoneAt(before, creates, updates, id, mark, same, held, r);
      }
      if i: nat :| UndoneAt(before + creates, |before|, updates, id, mark, same, r, i) {
        UndoneAtIsUndone(before, creates, updates, id, mark, same, held, r, i);
      }
    }
  }

  /** A FAR cannot move: what is removed are the created ones. */
  const SameFarEntry: (Far, Far) -> bool := (_: Far, _: Far) => true

  /**
   With distinct IDs the removal that follows a refusal names exactly the rules the message created and
   those it updated whose entry is not the one the session's own version occupies; the restore after it
   names exactly the rules the session had.
   */
  lemma RefusedBatchesAre(before: RuleSet, msg: Message, marking: Marking, v: Verdicts) returns (remove: RuleSet)
    requires Parses(msg) && DistinctIds(before, msg) && Decide(before, msg, marking, v).Refuse?
    ensures var batches := Decide(before, msg, marking, v).batches;
            |batches| >= 2 && batches[|batches| - 2] == Dels(remove) && batches[|batches| - 1] == Adds(before)
    ensures UndoesExactly(PdrsOf(before, msg), |before.pdrs|, msg.updatePdrs, PdrId, MarkPdr(marking), SamePdrEntry, remove.pdrs)
    ensures UndoesExactly(FarsOf(before, msg), |before.fars|, msg.updateFars, FarId, MarkFar(marking), SameFarEntry, remove.fars)
    ensures UndoesExactly(QersOf(before, msg), |before.qers|, msg.updateQers, QerId, MarkQer(marking), SameQerEntry, remove.qers)
  {
    var plan := PlanFor(before, msg, marking);
    remove := plan.remove;
    RefusedEndsWith(before, msg, marking, v);
    PlanHoldsFinals(before, msg, marking);
    ListUndoes(before.pdrs, Values(msg.createPdrs), msg.updatePdrs, PdrId, MarkPdr(marking), SamePdrEntry, plan.held.pdrs);
    ListUndoes(before.qers, Values(msg.createQers), msg.updateQers, QerId, MarkQer(marking), SameQerEntry, plan.held.qers);
    CreatedFarsUndone(before, msg, marking);
  }

  lemma CreatedFarsUndone(before: RuleSet, msg: Message, marking: Marking)
    requires Parses(msg) && DistinctIds(before, msg)
    ensures var list, remove := FarsOf(before, msg), PlanFor(before, msg, marking).remove;
            UndoesExactly(list, |before.fars|, msg.updateFars, FarId, MarkFar(marking), SameFarEntry, remove.fars)
  {
    var held := PlanFor(before, msg, marking).held;
    PlanHoldsFinals(before, msg, marking);
    WrittenInTwo(before.fars, Values(msg.createFars), Values(msg.updateFars), held.fars, FarId);
    CreatedUndone(FarsOf(before, msg), |before.fars|, msg.updateFars, FarId, MarkFar(marking), SameFarEntry, held.fars);
  }

  lemma CreatedUndone<R(!new)>(
    list: seq<R>, kept: nat, updates: seq<Result<R>>, id: R -> nat, mark: (nat, R) -> R, same: (R, R) -> bool, held: seq<R>)
    requires HoldsFinals(list, updates, id, mark, held) && kept <= |list| && forall r, q :: same(r, q)
    ensures UndoesExactly(list, kept, updates, id, mark, same, held[kept..])
  {
    forall r
      ensures r in held[kept..] <==> exists i :: UndoneAt(list, kept, updates, id, mark, same, r, i)
    {
      if r in held[kept..] {
        var j :| 0 <= j < |held[kept..]| && held[kept..][j] == r;
        SettledIsHeld(list, updates, id, mark, held, kept + j, r);
        assert UndoneAt(list, kept, updates, id, mark, same, r, kept + j);
      }
      if i: nat :| UndoneAt(list, kept, updates, id, mark, same, r, i) {
        SettledIsHeld(list, updates, id, mark, held, i, r);
        assert held[kept..][i - kept] == r;
      }
    }
  }

  /**
   So a key that the removal names is that of a rule the message created, or of one whose keys are not
   those of the session's own version: an updated PDR that kept its keys is not taken out.
   */
  lemma RemovalSparesUnmoved(before: RuleSet, msg: Message, marking: Marking, remove: RuleSet, p: Pdr)
    requires Parses(msg) && DistinctIds(before, msg) && p in remove.pdrs
    requires UndoesExactly(PdrsOf(before, msg), |before.pdrs|, msg.updatePdrs, PdrId, MarkPdr(marking), SamePdrEntry, remove.pdrs)
    ensures exists i: nat :: i < |PdrsOf(before, msg)|
                             && Settles(PdrsOf(before, msg), msg.updatePdrs, PdrId, MarkPdr(marking), i, p)
                             && (i >= |before.pdrs| || PdrKeys(p) == {} || PdrKeys(p) != PdrKeys(before.pdrs[i]))
  {
    var list, kept := PdrsOf(before, msg), |before.pdrs|;
    var i: nat :| UndoneAt(list, kept, msg.updatePdrs, PdrId, MarkPdr(marking), SamePdrEntry, p, i);
    if i < kept {
      PdrEntryIdentity(p, before.pdrs[i]);
    }
  }
}
