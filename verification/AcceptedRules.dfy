/**
 What a modification is for: which messages are accepted, and which rules an accepted one leaves the
 session with. Both are said of the handler's decision, in terms of the message alone.
 */
module AcceptedRules {
  import opened Wrappers
  import opened Rules
  import opened RuleLists
  import opened Datapath
  import opened Modification
  import opened AcceptedModification

  /** The version meant for a rule: the last update that names its ID, or else the rule itself. */
  ghost predicate IsFinal<R(!new)>(r: R, updates: seq<Result<R>>, id: R -> nat, final: R) {
    || (exists j :: IsLastUpdate(r, updates, id, final, j))
    || (final == r && forall j :: 0 <= j < |updates| && updates[j].Ok? ==> id(updates[j].value) != id(r))
  }

  ghost predicate IsLastUpdate<R(!new)>(r: R, updates: seq<Result<R>>, id: R -> nat, final: R, j: nat) {
    && j < |updates| && updates[j] == Ok(final) && id(final) == id(r)
    && forall l :: j < l < |updates| && updates[l].Ok? ==> id(updates[l].value) != id(r)
  }

  /** The rule at position i of a list is left as the given one, but for what the marking makes of it. */
  ghost predicate Settles<R(!new)>(
    list: seq<R>, updates: seq<Result<R>>, id: R -> nat, mark: (nat, R) -> R, i: nat, r: R)
    requires i < |list|
  {
    exists final :: IsFinal(list[i], updates, id, final) && r == mark(i, final)
  }

  /**
   The rules left are, in order, those of the list whose ID is not removed, each in its final version.
   The positions are those the rules left come from.
   */
  ghost predicate Leaves<R(!new)>(
    list: seq<R>, updates: seq<Result<R>>, removes: seq<Result<nat>>, id: R -> nat, mark: (nat, R) -> R,
    rest: seq<R>, ps: seq<nat>)
  {
    && |ps| == |rest|
    && (forall k :: 0 <= k < |ps| ==> ps[k] < |list| && Ok(id(list[ps[k]])) !in removes)
    && (forall k, l :: 0 <= k < l < |ps| ==> ps[k] < ps[l])
    && (forall i: nat :: i < |list| && Ok(id(list[i])) !in removes ==> i in ps)
    && (forall k :: 0 <= k < |rest| ==> Settles(list, updates, id, mark, ps[k], rest[k]))
  }

  // ----- One list -----

  lemma {:induction false} LastNamingIsLast<R(!new)>(r: R, updates: seq<R>, id: R -> nat)
    ensures var u := LastNaming(updates, id, id(r));
            u.Some? ==> exists j :: 0 <= j < |updates| && updates[j] == u.value && forall l :: j < l < |updates| ==> id(updates[l]) != id(r)
  {
    if updates != [] {
      var n := |updates| - 1;
      if id(updates[n]) == id(r) {
        assert updates[n] == LastNaming(updates, id, id(r)).value;
      } else {
        LastNamingIsLast(r, updates[..n], id);
        if LastNaming(updates, id, id(r)).Some? {
          var j :| 0 <= j < n && updates[..n][j] == LastNaming(updates, id, id(r)).value
                   && forall l :: j < l < n ==> id(updates[..n][l]) != id(r);
          assert forall l :: j < l < n ==> id(updates[l]) == id(updates[..n][l]);
        }
      }
    }
  }

  /** With distinct IDs every rule ends up in its final version. */
  lemma UpdatedIsFinal<R(!new)>(list: seq<R>, id: R -> nat, updates: seq<Result<R>>, i: nat)
    requires AllOk(updates) && Distinct(list, id) && i < |list|
    ensures IsFinal(list[i], updates, id, AllUpdated(list, id, Values(updates))[i])
  {
    var us, final := Values(updates), AllUpdated(list, id, Values(updates))[i];
    FirstIndexUnique(list, id, id(list[i]), i);
    UpdatesTouchExactly(list, id, us, i);
    if Touches(list, id, us, i) {
      LastNamingIsLast(list[i], us, id);
      var j :| 0 <= j < |us| && us[j] == final && forall l :: j < l < |us| ==> id(us[l]) != id(list[i]);
      assert IsLastUpdate(list[i], updates, id, final, j);
    }
  }

  /** Positions of a list whose ID is not among those given, in order. */
  ghost predicate Keeps<R(!new)>(list: seq<R>, id: R -> nat, ids: seq<nat>, ps: seq<nat>) {
    && (forall k :: 0 <= k < |ps| ==> ps[k] < |list|)
    && (forall k, l :: 0 <= k < l < |ps| ==> ps[k] < ps[l])
    && (forall i: nat :: i < |list| ==> (i in ps <==> id(list[i]) !in ids))
  }

  lemma KeepsLess<R(!new)>(list: seq<R>, id: R -> nat, ids: seq<nat>, ps: seq<nat>, at: nat, x: nat)
    requires Distinct(list, id) && Keeps(list, id, ids, ps) && at < |ps| && id(list[ps[at]]) == x
    ensures Keeps(list, id, ids + [x], Without(ps, at))
  {
    var qs := Without(ps, at);
    assert forall k :: 0 <= k < |qs| ==> qs[k] == ps[if k < at then k else k + 1];
    forall i: nat | i < |list|
      ensures i in qs <==> id(list[i]) !in ids + [x]
    {
      StaysIff(ps, at, i);
      assert i == ps[at] || id(list[i]) != x;
    }
  }

  lemma AtWithout<R(!new)>(list: seq<R>, ps: seq<nat>, at: nat)
    requires at < |ps| && forall k :: 0 <= k < |ps| ==> ps[k] < |list|
    ensures forall k :: 0 <= k < |Without(ps, at)| ==> Without(ps, at)[k] < |list|
    ensures At(list, Without(ps, at)) == Without(At(list, ps), at)
  {
    var qs := Without(ps, at);
    assert forall k :: 0 <= k < |qs| ==> qs[k] == ps[if k < at then k else k + 1];
  }

  /** Of positions in ascending order one is taken out. */
  lemma StaysIff(ps: seq<nat>, at: nat, i: nat)
    requires at < |ps| && forall k, l :: 0 <= k < l < |ps| ==> ps[k] < ps[l]
    ensures i in Without(ps, at) <==> i in ps && i != ps[at]
  {
    var qs := Without(ps, at);
    assert forall k :: 0 <= k < |qs| ==> qs[k] == ps[if k < at then k else k + 1];
    if i in ps && i != ps[at] {
      var k :| 0 <= k < |ps| && ps[k] == i;
      assert qs[if k < at then k else k - 1] == i;
    }
  }

  /** Removal keeps exactly the rules whose ID is not removed; it fails for an ID that is not there, or named twice. */
  lemma {:induction false} RemovedLeaves<R(!new)>(list: seq<R>, id: R -> nat, ids: seq<nat>) returns (ps: seq<nat>)
    requires Distinct(list, id)
    ensures AllRemoved(list, id, ids).Some? <==> Fits(list, id, ids)
    ensures AllRemoved(list, id, ids).Some? ==> Keeps(list, id, ids, ps) && AllRemoved(list, id, ids).value == At(list, ps)
  {
    if ids == [] {
      ps := seq(|list|, i => i);
      assert forall i: nat :: i < |list| ==> ps[i] == i;
      assert At(list, ps) == list;
    } else {
      var n := |ids| - 1;
      ps := RemovedLeaves(list, id, ids[..n]);
      FitsOneMore(list, id, ids);
      if AllRemoved(list, id, ids[..n]).Some? {
        var rest, at := At(list, ps), FirstIndex(At(list, ps), id, ids[n]);
        assert ids == ids[..n] + [ids[n]];
        FoundIffKept(list, id, ids[..n], ps, ids[n]);
        if at < |rest| {
          KeepsLess(list, id, ids[..n], ps, at, ids[n]);
          AtWithout(list, ps, at);
          ps := Without(ps, at);
        }
      }
    }
  }

  lemma FoundIffKept<R(!new)>(list: seq<R>, id: R -> nat, ids: seq<nat>, ps: seq<nat>, x: nat)
    requires Keeps(list, id, ids, ps)
    ensures FirstIndex(At(list, ps), id, x) < |ps| <==> x !in ids && HasId(list, id, x)
  {
    var at := FirstIndex(At(list, ps), id, x);
    if at < |ps| {
      assert ps[at] in ps && id(list[ps[at]]) == x;
    }
    if x !in ids && HasId(list, id, x) {
      var i: nat :| i < |list| && id(list[i]) == x;
      var k :| 0 <= k < |ps| && ps[k] == i;
      assert id(At(list, ps)[k]) == x;
    }
  }

  ghost predicate HasId<R(!new)>(list: seq<R>, id: R -> nat, x: nat) {
    exists i :: 0 <= i < |list| && id(list[i]) == x
  }

  /** IDs to remove: each is there, and none is named twice. */
  ghost predicate Fits<R(!new)>(list: seq<R>, id: R -> nat, ids: seq<nat>) {
    && (forall k :: 0 <= k < |ids| ==> HasId(list, id, ids[k]))
    && (forall k, l :: 0 <= k < l < |ids| ==> ids[k] != ids[l])
  }

  lemma FitsOneMore<R(!new)>(list: seq<R>, id: R -> nat, ids: seq<nat>)
    requires ids != []
    ensures var n := |ids| - 1;
            Fits(list, id, ids) <==>
            Fits(list, id, ids[..n]) && ids[n] !in ids[..n] && HasId(list, id, ids[n])
  {
    var n := |ids| - 1;
    assert forall k :: 0 <= k < n ==> ids[k] == ids[..n][k];
    if Fits(list, id, ids) {
      assert ids[n] !in ids[..n];
    }
  }

  /** What is left of one list, by whatever the marking makes of its rules. */
  lemma ListLeaves<R(!new)>(
    list: seq<R>, updates: seq<Result<R>>, removes: seq<Result<nat>>, id: R -> nat, mark: (nat, R) -> R, held: seq<R>)
    returns (ps: seq<nat>)
    requires HoldsFinals(list, updates, id, mark, held) && AllOk(removes)
    ensures AllRemoved(held, id, Values(removes)).Some? <==> Fits(list, id, Values(removes))
    ensures AllRemoved(held, id, Values(removes)).Some? ==>
              Leaves(list, updates, removes, id, mark, AllRemoved(held, id, Values(removes)).value, ps)
  {
    UpdatesKeepIds(list, id, Values(updates));
    assert forall i :: 0 <= i < |list| ==> id(held[i]) == id(list[i]);
    ps := RemovedLeaves(held, id, Values(removes));
    assert Fits(held, id, Values(removes)) <==> Fits(list, id, Values(removes)) by {
      FitsAlike(list, held, id, Values(removes));
    }
    if AllRemoved(held, id, Values(removes)).Some? {
      KeptAreLeft(list, updates, removes, id, mark, held, ps);
    }
  }

  lemma FitsAlike<R(!new)>(a: seq<R>, b: seq<R>, id: R -> nat, ids: seq<nat>)
    requires |a| == |b| && forall i :: 0 <= i < |a| ==> id(a[i]) == id(b[i])
    ensures Fits(a, id, ids) <==> Fits(b, id, ids)
  {
    forall x: nat
      ensures HasId(a, id, x) <==> HasId(b, id, x)
    {
      if i :| 0 <= i < |a| && id(a[i]) == x {
        assert id(b[i]) == x;
      }
      if i :| 0 <= i < |b| && id(b[i]) == x {
        assert id(a[i]) == x;
      }
    }
  }

  lemma RemovedOrNot(removes: seq<Result<nat>>, x: nat)
    requires AllOk(removes)
    ensures Ok(x) in removes <==> x in Values(removes)
  {
    if Ok(x) in removes {
      var k :| 0 <= k < |removes| && removes[k] == Ok(x);
      assert Values(removes)[k] == x;
    }
  }

  lemma KeptAreLeft<R(!new)>(
    list: seq<R>, updates: seq<Result<R>>, removes: seq<Result<nat>>, id: R -> nat, mark: (nat, R) -> R, held: seq<R>, ps: seq<nat>)
    requires AllOk(updates) && AllOk(removes) && Distinct(list, id) && |held| == |list|
    requires forall i :: 0 <= i < |list| ==> id(held[i]) == id(list[i]) && held[i] == mark(i, AllUpdated(list, id, Values(updates))[i])
    requires Keeps(held, id, Values(removes), ps)
    ensures Leaves(list, updates, removes, id, mark, At(held, ps), ps)
  {
    var rest := At(held, ps);
    forall i: nat | i < |list|
      ensures Ok(id(list[i])) in removes <==> i !in ps
    {
      RemovedOrNot(removes, id(list[i]));
    }
    forall k | 0 <= k < |rest|
      ensures Ok(id(list[ps[k]])) !in removes && Settles(list, updates, id, mark, ps[k], rest[k])
    {
      assert ps[k] in ps;
      UpdatedIsFinal(list, id, updates, ps[k]);
    }
  }

  /**
   In other words: no rule of a removed ID is left, and for every other ID of the list exactly one rule,
   which is its final version.
   */
  lemma LeavesEach<R(!new)>(
    list: seq<R>, updates: seq<Result<R>>, removes: seq<Result<nat>>, id: R -> nat, mark: (nat, R) -> R, rest: seq<R>, ps: seq<nat>, i: nat)
    requires Leaves(list, updates, removes, id, mark, rest, ps) && Distinct(list, id) && i < |list|
    requires forall i, r :: id(mark(i, r)) == id(r)
    ensures Ok(id(list[i])) in removes ==> !HasId(rest, id, id(list[i]))
    ensures Ok(id(list[i])) !in removes ==>
              exists k :: 0 <= k < |rest| && Settles(list, updates, id, mark, i, rest[k])
                          && forall l :: 0 <= l < |rest| && id(rest[l]) == id(list[i]) ==> l == k
  {
    forall k | 0 <= k < |rest|
      ensures id(rest[k]) == id(list[ps[k]])
    {
      assert Settles(list, updates, id, mark, ps[k], rest[k]);
    }
    if Ok(id(list[i])) !in removes {
      var k :| 0 <= k < |ps| && ps[k] == i;
      assert Settles(list, updates, id, mark, i, rest[k]);
    }
  }

  // ----- The decision -----

  ghost function MarkPdr(marking: Marking): (f: (nat, Pdr) -> Pdr) {
    (i: nat, p: Pdr) => if i < |marking.lists| then p.(qerIDs := marking.lists[i]) else p
  }

  ghost function MarkFar(marking: Marking): (f: (nat, Far) -> Far) {
    (i: nat, f: Far) => f
  }

  ghost function MarkQer(marking: Marking): (f: (nat, Qer) -> Qer) {
    (i: nat, q: Qer) => if i < |marking.levels| then q.(level := marking.levels[i]) else q
  }

  /** The rules a session had, and those a message creates, by kind. */
  function PdrsOf(before: RuleSet, msg: Message): (rs: seq<Pdr>)
    requires AllOk(msg.createPdrs)
  {
    before.pdrs + Values(msg.createPdrs)
  }

  function FarsOf(before: RuleSet, msg: Message): (rs: seq<Far>)
    requires AllOk(msg.createFars)
  {
    before.fars + Values(msg.createFars)
  }

  function QersOf(before: RuleSet, msg: Message): (rs: seq<Qer>)
    requires AllOk(msg.createQers)
  {
    before.qers + Values(msg.createQers)
  }

  predicate DistinctIds(before: RuleSet, msg: Message)
    requires Parses(msg)
  {
    Distinct(PdrsOf(before, msg), PdrId) && Distinct(FarsOf(before, msg), FarId) && Distinct(QersOf(before, msg), QerId)
  }

  /** Every ID to remove parses, is held or created, and is named once. */
  ghost predicate RemovesFit(before: RuleSet, msg: Message)
    requires Parses(msg)
  {
    && AllOk(msg.removePdrs) && AllOk(msg.removeFars) && AllOk(msg.removeQers)
    && Fits(PdrsOf(before, msg), PdrId, Values(msg.removePdrs))
    && Fits(FarsOf(before, msg), FarId, Values(msg.removeFars))
    && Fits(QersOf(before, msg), QerId, Values(msg.removeQers))
  }

  lemma RemovalsLeave(before: RuleSet, msg: Message, marking: Marking) returns (ps: seq<nat>, fs: seq<nat>, qs: seq<nat>)
    requires Parses(msg) && DistinctIds(before, msg)
    ensures var r := Removals(PlanFor(before, msg, marking).held, msg);
            && (r.Some? <==> RemovesFit(before, msg))
            && (r.Some? ==>
                  && Leaves(PdrsOf(before, msg), msg.updatePdrs, msg.removePdrs, PdrId, MarkPdr(marking), r.value.0.pdrs, ps)
                  && Leaves(FarsOf(before, msg), msg.updateFars, msg.removeFars, FarId, MarkFar(marking), r.value.0.fars, fs)
                  && Leaves(QersOf(before, msg), msg.updateQers, msg.removeQers, QerId, MarkQer(marking), r.value.0.qers, qs))
  {
    var held := PlanFor(before, msg, marking).held;
    ps, fs, qs := [], [], [];
    PlanHoldsFinals(before, msg, marking);
    if AllOk(msg.removePdrs) && AllOk(msg.removeFars) && AllOk(msg.removeQers) {
      ps := ListLeaves(PdrsOf(before, msg), msg.updatePdrs, msg.removePdrs, PdrId, MarkPdr(marking), held.pdrs);
      fs := ListLeaves(FarsOf(before, msg), msg.updateFars, msg.removeFars, FarId, MarkFar(marking), held.fars);
      qs := ListLeaves(QersOf(before, msg), msg.updateQers, msg.removeQers, QerId, MarkQer(marking), held.qers);
    }
  }

  lemma RemovalsIff(before: RuleSet, msg: Message, marking: Marking)
    requires Parses(msg) && DistinctIds(before, msg)
    ensures Removals(PlanFor(before, msg, marking).held, msg).Some? <==> RemovesFit(before, msg)
  {
    var _, _, _ := RemovalsLeave(before, msg, marking);
  }

  /**
   With distinct IDs an accepted message leaves the session, for PDRs, FARs and QERs alike, with exactly
   the rules it had and the message created, less those removed, each in the version of the last update
   that names it, and in the same order. Only a QER's level and a PDR's QER list are the marking's.
   */
  lemma AcceptedRulesAre(before: RuleSet, msg: Message, marking: Marking, v: Verdicts)
    returns (ps: seq<nat>, fs: seq<nat>, qs: seq<nat>)
    requires Parses(msg) && DistinctIds(before, msg) && Decide(before, msg, marking, v).Accept?
    ensures var rest := Decide(before, msg, marking, v).rules;
            && Leaves(PdrsOf(before, msg), msg.updatePdrs, msg.removePdrs, PdrId, MarkPdr(marking), rest.pdrs, ps)
            && Leaves(FarsOf(before, msg), msg.updateFars, msg.removeFars, FarId, MarkFar(marking), rest.fars, fs)
            && Leaves(QersOf(before, msg), msg.updateQers, msg.removeQers, QerId, MarkQer(marking), rest.qers, qs)
  {
    ps, fs, qs := RemovalsLeave(before, msg, marking);
  }

  /** No report of a failure reaches the join. */
  predicate NothingBad(es: Reports) {
    Report(false) !in es
  }

  /**
   A message is accepted only if it parses and its removals name rules that are there, each once. If
   that is so, and no worker reports a failure, it is accepted, whether or not a batch ran out of time.
   */
  lemma AcceptedUnlessBad(before: RuleSet, msg: Message, marking: Marking, v: Verdicts)
    requires Parses(msg) ==> DistinctIds(before, msg)
    ensures !Parses(msg) ==> Decide(before, msg, marking, v) == Refuse([])
    ensures Decide(before, msg, marking, v).Accept? ==> Parses(msg) && RemovesFit(before, msg)
    ensures Parses(msg) && RemovesFit(before, msg) && NothingBad(v.write) && NothingBad(v.delete) ==>
              Decide(before, msg, marking, v).Accept?
  {
    if Parses(msg) {
      RemovalsIff(before, msg, marking);
      NothingBadIsNotRejected(v.write, Calls(PlanFor(before, msg, marking).written));
      if RemovesFit(before, msg) {
        NothingBadIsNotRejected(v.delete, Calls(Removals(PlanFor(before, msg, marking).held, msg).value.1));
      }
    }
  }

  lemma NothingBadIsNotRejected(es: Reports, calls: nat)
    ensures NothingBad(es) ==> !Rejects(es, calls)
  {
    if Rejects(es, calls) {
      var i :| 0 <= i < calls && es[i] != Report(true);
      assert es[i] in es;
    }
  }

  // ----- The batches -----

  lemma FinalIsUnique<R(!new)>(r: R, updates: seq<Result<R>>, id: R -> nat, a: R, b: R)
    requires IsFinal(r, updates, id, a) && IsFinal(r, updates, id, b)
    ensures a == b
  {
    if i :| IsLastUpdate(r, updates, id, a, i) {
      if j :| IsLastUpdate(r, updates, id, b, j) {
        assert i == j;
      }
    }
  }

  /** The message names the ID in an update. */
  ghost predicate Names<R(!new)>(updates: seq<Result<R>>, id: R -> nat, x: nat) {
    exists j :: 0 <= j < |updates| && updates[j].Ok? && id(updates[j].value) == x
  }

  /** The rule is the final version of position i of the list, which is new or named by an update. */
  ghost predicate WrittenAt<R(!new)>(
    list: seq<R>, kept: nat, updates: seq<Result<R>>, id: R -> nat, mark: (nat, R) -> R, r: R, i: nat)
  {
    i < |list| && (i >= kept || Names(updates, id, id(list[i]))) && Settles(list, updates, id, mark, i, r)
  }

  /** What is written is exactly the final versions of the rules the message creates or updates, each once. */
  ghost predicate WritesExactly<R(!new)>(
    list: seq<R>, kept: nat, updates: seq<Result<R>>, id: R -> nat, mark: (nat, R) -> R, written: seq<R>)
  {
    Distinct(written, id) && forall r :: r in written <==> exists i :: WrittenAt(list, kept, updates, id, mark, r, i)
  }

  ghost predicate RemovedAt<R(!new)>(
    list: seq<R>, updates: seq<Result<R>>, removes: seq<Result<nat>>, id: R -> nat, mark: (nat, R) -> R, r: R, i: nat)
  {
    i < |list| && Ok(id(list[i])) in removes && Settles(list, updates, id, mark, i, r)
  }

  /** What is deleted is exactly the final versions of the rules the message removes, each once. */
  ghost predicate RemovesExactly<R(!new)>(
    list: seq<R>, updates: seq<Result<R>>, removes: seq<Result<nat>>, id: R -> nat, mark: (nat, R) -> R, gone: seq<R>)
  {
    Distinct(gone, id) && forall r :: r in gone <==> exists i :: RemovedAt(list, updates, removes, id, mark, r, i)
  }

  lemma SettledIsHeld<R(!new)>(list: seq<R>, updates: seq<Result<R>>, id: R -> nat, mark: (nat, R) -> R, held: seq<R>, i: nat, r: R)
    requires AllOk(updates) && Distinct(list, id) && |held| == |list| && i < |list|
    requires held[i] == mark(i, AllUpdated(list, id, Values(updates))[i])
    ensures Settles(list, updates, id, mark, i, r) <==> r == held[i]
  {
    UpdatedIsFinal(list, id, updates, i);
    if Settles(list, updates, id, mark, i, r) {
      var final :| IsFinal(list[i], updates, id, final) && r == mark(i, final);
      FinalIsUnique(list[i], updates, id, final, AllUpdated(list, id, Values(updates))[i]);
    }
  }

  /** Position i is among the versions written exactly if it is new or an update names it. */
  lemma WrittenPositions<R(!new)>(before: seq<R>, creates: seq<R>, updates: seq<Result<R>>, id: R -> nat, held: seq<R>, i: nat)
    requires AllOk(updates) && Distinct(before + creates, id) && |held| == |before| + |creates| && i < |before|
    requires forall j :: 0 <= j < |held| ==> id(held[j]) == id((before + creates)[j])
    ensures i in TouchedBelow(held, id, Found(before + creates, id, Values(updates)), |before|)
       <==> Names(updates, id, id(before[i]))
  {
    var list, us := before + creates, Values(updates);
    var found := Found(list, id, us);
    FirstIndexUnique(list, id, id(list[i]), i);
    FoundTouchesAlike(list, id, us, i);
    SameIdsSameIndex(list, held, id, id(list[i]));
    assert Touches(held, id, found, i) <==> Touches(list, id, found, i);
    if j :| 0 <= j < |updates| && updates[j].Ok? && id(updates[j].value) == id(before[i]) {
      assert id(us[j]) == id(list[i]);
    }
  }

  /** A list held in its final versions, but for the marking. */
  ghost predicate HoldsFinals<R(!new)>(list: seq<R>, updates: seq<Result<R>>, id: R -> nat, mark: (nat, R) -> R, held: seq<R>) {
    && AllOk(updates) && Distinct(list, id) && |held| == |list|
    && (forall i, r :: id(mark(i, r)) == id(r))
    && (forall i :: 0 <= i < |held| ==> held[i] == mark(i, AllUpdated(list, id, Values(updates))[i]))
  }

  lemma FinalsKeepIds<R(!new)>(list: seq<R>, updates: seq<Result<R>>, id: R -> nat, mark: (nat, R) -> R, held: seq<R>)
    requires HoldsFinals(list, updates, id, mark, held)
    ensures forall i :: 0 <= i < |held| ==> id(held[i]) == id(list[i])
  {
    UpdatesKeepIds(list, id, Values(updates));
  }

  lemma WrittenIsWrittenAt<R(!new)>(
    before: seq<R>, creates: seq<R>, updates: seq<Result<R>>, id: R -> nat, mark: (nat, R) -> R, held: seq<R>, r: R)
    requires HoldsFinals(before + creates, updates, id, mark, held)
    requires r in Touched(before, creates, Values(updates), held, id)
    ensures exists i :: WrittenAt(before + creates, |before|, updates, id, mark, r, i)
  {
    var list := before + creates;
    var ps := TouchedBelow(held, id, Found(list, id, Values(updates)), |before|);
    FinalsKeepIds(list, updates, id, mark, held);
    if r in held[|before|..] {
      var j :| 0 <= j < |creates| && held[|before|..][j] == r;
      SettledIsHeld(list, updates, id, mark, held, |before| + j, r);
      assert WrittenAt(list, |before|, updates, id, mark, r, |before| + j);
    } else {
      var k :| 0 <= k < |ps| && held[ps[k]] == r;
      assert ps[k] in ps;
      WrittenPositions(before, creates, updates, id, held, ps[k]);
      SettledIsHeld(list, updates, id, mark, held, ps[k], r);
      assert WrittenAt(list, |before|, updates, id, mark, r, ps[k]);
    }
  }

  lemma WrittenAtIsWritten<R(!new)>(
    before: seq<R>, creates: seq<R>, updates: seq<Result<R>>, id: R -> nat, mark: (nat, R) -> R, held: seq<R>, r: R, i: nat)
    requires HoldsFinals(before + creates, updates, id, mark, held)
    requires WrittenAt(before + creates, |before|, updates, id, mark, r, i)
    ensures r in Touched(before, creates, Values(updates), held, id)
  {
    var list := before + creates;
    var ps := TouchedBelow(held, id, Found(list, id, Values(updates)), |before|);
    FinalsKeepIds(list, updates, id, mark, held);
    SettledIsHeld(list, updates, id, mark, held, i, r);
    if i < |before| {
      WrittenPositions(before, creates, updates, id, held, i);
      var k :| 0 <= k < |ps| && ps[k] == i;
      assert At(held, ps)[k] == r;
    } else {
      assert held[|before|..][i - |before|] == r;
    }
  }

  lemma VersionsDistinct<R(!new)>(held: seq<R>, kept: nat, updated: seq<R>, id: R -> nat)
    requires kept <= |held| && Distinct(held, id)
    ensures Distinct(Versions(held, kept, updated, id, kept), id)
  {
    var ps, n := TouchedBelow(held, id, updated, kept), |held| - kept;
    var rs := Versions(held, kept, updated, id, kept);
    forall i, j | 0 <= i < j < |rs|
      ensures id(rs[i]) != id(rs[j])
    {
      var a, b := if i < n then kept + i else ps[i - n], if j < n then kept + j else ps[j - n];
      assert rs[i] == held[a] && rs[j] == held[b] && a != b;
    }
  }

  lemma ListWrites<R(!new)>(
    before: seq<R>, creates: seq<R>, updates: seq<Result<R>>, id: R -> nat, mark: (nat, R) -> R, held: seq<R>)
    requires HoldsFinals(before + creates, updates, id, mark, held)
    ensures WritesExactly(before + creates, |before|, updates, id, mark, Touched(before, creates, Values(updates), held, id))
  {
    FinalsKeepIds(before + creates, updates, id, mark, held);
    VersionsDistinct(held, |before|, Found(before + creates, id, Values(updates)), id);
    forall r
      ensures r in Touched(before, creates, Values(updates), held, id) <==>
              exists i :: WrittenAt(before + creates, |before|, updates, id, mark, r, i)
    {
      if r in Touched(before, creates, Values(updates), held, id) {
        WrittenIsWrittenAt(before, creates, updates, id, mark, held, r);
      }
      if i: nat :| WrittenAt(before + creates, |before|, updates, id, mark, r, i) {
        WrittenAtIsWritten(before, creates, updates, id, mark, held, r, i);
      }
    }
  }

  lemma GoneIsRemovedAt<R(!new)>(
    list: seq<R>, updates: seq<Result<R>>, removes: seq<Result<nat>>, id: R -> nat, mark: (nat, R) -> R, held: seq<R>, r: R)
    requires HoldsFinals(list, updates, id, mark, held) && AllOk(removes) && AllRemoved(held, id, Values(removes)).Some?
    requires r in Removed(held, id, Values(removes))
    ensures exists i :: RemovedAt(list, updates, removes, id, mark, r, i)
  {
    var gone := Removed(held, id, Values(removes));
    FinalsKeepIds(list, updates, id, mark, held);
    var k :| 0 <= k < |gone| && gone[k] == r;
    HeldIsRestOrGone(held, id, Values(removes), r);
    var i :| 0 <= i < |held| && held[i] == r;
    RemovedOrNot(removes, id(list[i]));
    SettledIsHeld(list, updates, id, mark, held, i, r);
    assert RemovedAt(list, updates, removes, id, mark, r, i);
  }

  lemma RemovedAtIsGone<R(!new)>(
    list: seq<R>, updates: seq<Result<R>>, removes: seq<Result<nat>>, id: R -> nat, mark: (nat, R) -> R, held: seq<R>, r: R, i: nat)
    requires HoldsFinals(list, updates, id, mark, held) && AllOk(removes) && AllRemoved(held, id, Values(removes)).Some?
    requires RemovedAt(list, updates, removes, id, mark, r, i)
    ensures r in Removed(held, id, Values(removes))
  {
    FinalsKeepIds(list, updates, id, mark, held);
    SettledIsHeld(list, updates, id, mark, held, i, r);
    RemovedOrNot(removes, id(list[i]));
    GoneById(held, id, Values(removes), i);
  }

  lemma ListRemoves<R(!new)>(
    list: seq<R>, updates: seq<Result<R>>, removes: seq<Result<nat>>, id: R -> nat, mark: (nat, R) -> R, held: seq<R>)
    requires HoldsFinals(list, updates, id, mark, held) && AllOk(removes) && AllRemoved(held, id, Values(removes)).Some?
    ensures RemovesExactly(list, updates, removes, id, mark, Removed(held, id, Values(removes)))
  {
    FinalsKeepIds(list, updates, id, mark, held);
    var _ := RemovedLeaves(held, id, Values(removes));
    forall r
      ensures r in Removed(held, id, Values(removes)) <==> exists i :: RemovedAt(list, updates, removes, id, mark, r, i)
    {
      if r in Removed(held, id, Values(removes)) {
        GoneIsRemovedAt(list, updates, removes, id, mark, held, r);
      }
      if i: nat :| RemovedAt(list, updates, removes, id, mark, r, i) {
        RemovedAtIsGone(list, updates, removes, id, mark, held, r, i);
      }
    }
  }

  lemma GoneById<R(!new)>(held: seq<R>, id: R -> nat, ids: seq<nat>, i: nat)
    requires Distinct(held, id) && AllRemoved(held, id, ids).Some? && i < |held| && id(held[i]) in ids
    ensures held[i] in Removed(held, id, ids)
  {
    var gone := Removed(held, id, ids);
    var k :| 0 <= k < |ids| && ids[k] == id(held[i]);
    HeldIsRestOrGone(held, id, ids, gone[k]);
    assert gone[k] in gone;
    var j :| 0 <= j < |held| && held[j] == gone[k];
    assert j == i;
  }

  lemma PlanHoldsFinals(before: RuleSet, msg: Message, marking: Marking)
    requires Parses(msg) && DistinctIds(before, msg)
    ensures var held := PlanFor(before, msg, marking).held;
            && HoldsFinals(PdrsOf(before, msg), msg.updatePdrs, PdrId, MarkPdr(marking), held.pdrs)
            && HoldsFinals(FarsOf(before, msg), msg.updateFars, FarId, MarkFar(marking), held.fars)
            && HoldsFinals(QersOf(before, msg), msg.updateQers, QerId, MarkQer(marking), held.qers)
  {
  }

  ghost predicate WritesAll(before: RuleSet, msg: Message, marking: Marking, written: RuleSet)
    requires Parses(msg)
  {
    && WritesExactly(PdrsOf(before, msg), |before.pdrs|, msg.updatePdrs, PdrId, MarkPdr(marking), written.pdrs)
    && WritesExactly(FarsOf(before, msg), |before.fars|, msg.updateFars, FarId, MarkFar(marking), written.fars)
    && WritesExactly(QersOf(before, msg), |before.qers|, msg.updateQers, QerId, MarkQer(marking), written.qers)
  }

  ghost predicate RemovesAll(before: RuleSet, msg: Message, marking: Marking, gone: RuleSet)
    requires Parses(msg)
  {
    && RemovesExactly(PdrsOf(before, msg), msg.updatePdrs, msg.removePdrs, PdrId, MarkPdr(marking), gone.pdrs)
    && RemovesExactly(FarsOf(before, msg), msg.updateFars, msg.removeFars, FarId, MarkFar(marking), gone.fars)
    && RemovesExactly(QersOf(before, msg), msg.updateQers, msg.removeQers, QerId, MarkQer(marking), gone.qers)
  }

  lemma PlanWrites(before: RuleSet, msg: Message, marking: Marking)
    requires Parses(msg) && DistinctIds(before, msg)
    ensures WritesAll(before, msg, marking, PlanFor(before, msg, marking).written)
  {
    var held := PlanFor(before, msg, marking).held;
    PlanHoldsFinals(before, msg, marking);
    ListWrites(before.pdrs, Values(msg.createPdrs), msg.updatePdrs, PdrId, MarkPdr(marking), held.pdrs);
    ListWrites(before.fars, Values(msg.createFars), msg.updateFars, FarId, MarkFar(marking), held.fars);
    ListWrites(before.qers, Values(msg.createQers), msg.updateQers, QerId, MarkQer(marking), held.qers);
  }

  lemma PlanRemoves(before: RuleSet, msg: Message, marking: Marking)
    requires Parses(msg) && DistinctIds(before, msg) && Removals(PlanFor(before, msg, marking).held, msg).Some?
    ensures RemovesAll(before, msg, marking, Removals(PlanFor(before, msg, marking).held, msg).value.1)
  {
    var held := PlanFor(before, msg, marking).held;
    PlanHoldsFinals(before, msg, marking);
    ListRemoves(PdrsOf(before, msg), msg.updatePdrs, msg.removePdrs, PdrId, MarkPdr(marking), held.pdrs);
    ListRemoves(FarsOf(before, msg), msg.updateFars, msg.removeFars, FarId, MarkFar(marking), held.fars);
    ListRemoves(QersOf(before, msg), msg.updateQers, msg.removeQers, QerId, MarkQer(marking), held.qers);
  }

  /**
   Accepted if and only if the removals fit and neither batch is rejected. Refused, the first batch was sent,
   and the second too if nothing was wrong before it; two more follow.
   */
  ghost predicate Sent(o: ModificationOutcome, fits: bool, written: RuleSet, gone: RuleSet, v: Verdicts) {
    var ok := fits && !Rejects(v.write, Calls(written));
    && (o.Accept? <==> ok && !Rejects(v.delete, Calls(gone)))
    && |o.batches| == (if o.Accept? then 2 else if ok then 4 else 3)
    && o.batches[0] == Adds(written) && (ok ==> o.batches[1] == Dels(gone))
  }

  lemma PlanSent(before: RuleSet, plan: Plan, removals: Option<(RuleSet, RuleSet)>, v: Verdicts, gone: RuleSet)
    requires removals.Some? ==> gone == removals.value.1
    ensures Sent(DecidePlan(before, plan, removals, v), removals.Some?, plan.written, gone, v)
  {
  }

  /**
   What a message sends, accepted or refused: first a batch that writes exactly what it creates and updates,
   and then, if its removals fit, one that deletes exactly what it removes.
   */
  lemma BatchesAre(before: RuleSet, msg: Message, marking: Marking, v: Verdicts) returns (written: RuleSet, gone: RuleSet)
    requires Parses(msg) && DistinctIds(before, msg)
    ensures WritesAll(before, msg, marking, written)
    ensures RemovesFit(before, msg) ==> RemovesAll(before, msg, marking, gone)
    ensures Sent(Decide(before, msg, marking, v), RemovesFit(before, msg), written, gone, v)
  {
    var plan := PlanFor(before, msg, marking);
    var removals := Removals(plan.held, msg);
    written, gone := plan.written, if removals.Some? then removals.value.1 else before;
    PlanWrites(before, msg, marking);
    RemovalsIff(before, msg, marking);
    PlanSent(before, plan, removals, v, gone);
    if removals.Some? {
      PlanRemoves(before, msg, marking);
    }
  }
}
