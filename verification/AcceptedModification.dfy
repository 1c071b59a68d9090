/** An accepted modification: what it leaves in the datapath, and when that is what the session holds. */
module AcceptedModification {
  import opened Wrappers
  import opened Rules
  import opened RuleLists
  import opened Datapath
  import opened Modification
  import opened ModificationSafety
  import opened Changes

  lemma AcceptedKeys(t: Table, h: History, before: RuleSet, written: RuleSet, gone: RuleSet, scope: set<Key>)
    requires Completed(h, Images(written), Images(gone))
    requires KeysOf(Images(before)) + KeysOf(Images(written)) <= scope
    requires t.Keys * scope == KeysOf(Images(before))
    ensures Run(t, h).Keys * scope == KeysOf(Images(before)) + KeysOf(Images(written)) - KeysOf(Images(gone))
  {
    forall k
      ensures k in Run(t, h).Keys * scope <==>
              k in KeysOf(Images(before)) + KeysOf(Images(written)) - KeysOf(Images(gone))
    {
      if k in KeysOf(Images(gone)) {
        RemovedKeyAbsent(t, h, Images(written), Images(gone), k);
      } else if k in KeysOf(Images(written)) {
        var m := WrittenKeyHeld(t, h, Images(written), Images(gone), k);
      } else {
        OtherKeyUnchanged(t, h, Images(written), Images(gone), k);
        assert k in t.Keys * scope <==> k in KeysOf(Images(before));
      }
    }
  }

  /** The rules an accepted modification writes, removes and leaves the session with. */
  ghost predicate Accepts(before: RuleSet, msg: Message, marking: Marking, written: RuleSet, gone: RuleSet, rest: RuleSet) {
    && Parses(msg)
    && written == PlanFor(before, msg, marking).written
    && Removals(PlanFor(before, msg, marking).held, msg) == Some((rest, gone))
  }

  lemma AcceptedBatches(before: RuleSet, msg: Message, marking: Marking, v: Verdicts) returns (written: RuleSet, gone: RuleSet)
    requires Decide(before, msg, marking, v).Accept?
    ensures Accepts(before, msg, marking, written, gone, Decide(before, msg, marking, v).rules)
    ensures Decide(before, msg, marking, v).batches == [Adds(written), Dels(gone)]
  {
    var plan := PlanFor(before, msg, marking);
    written, gone := plan.written, Removals(plan.held, msg).value.1;
  }

  /** Removal splits a list: rest and removed stand at complementary positions of it. */
  ghost predicate Splits(ps: seq<nat>, qs: seq<nat>, n: nat) {
    && (forall i :: 0 <= i < |ps| ==> ps[i] < n)
    && (forall i :: 0 <= i < |qs| ==> qs[i] < n)
    && (forall i, j :: 0 <= i < j < |ps| ==> ps[i] != ps[j])
    && (forall x: nat :: x < n ==> (x in ps <==> x !in qs))
  }

  lemma {:induction false} RemovedPositions<R>(rules: seq<R>, id: R -> nat, ids: seq<nat>) returns (ps: seq<nat>, qs: seq<nat>)
    requires AllRemoved(rules, id, ids).Some?
    ensures Splits(ps, qs, |rules|)
    ensures AllRemoved(rules, id, ids).value == At(rules, ps) && Removed(rules, id, ids) == At(rules, qs)
  {
    if ids == [] {
      ps := Everywhere(rules);
      qs := [];
    } else {
      var front, was := RemovedPositions(rules, id, ids[..|ids| - 1]);
      var at := FirstIndex(At(rules, front), id, ids[|ids| - 1]);
      ps, qs := Without(front, at), was + [front[at]];
      SplitMoves(front, was, |rules|, at);
      AtMoves(rules, front, was, at);
    }
  }

  lemma Everywhere<R>(rules: seq<R>) returns (ps: seq<nat>)
    ensures Splits(ps, [], |rules|) && At(rules, ps) == rules
  {
    ps := seq(|rules|, i => i);
    forall x: nat | x < |rules|
      ensures x in ps
    {
      assert ps[x] == x;
    }
  }

  lemma AtMoves<R>(rules: seq<R>, ps: seq<nat>, qs: seq<nat>, at: nat)
    requires at < |ps| && Splits(ps, qs, |rules|) && Splits(Without(ps, at), qs + [ps[at]], |rules|)
    ensures At(rules, Without(ps, at)) == Without(At(rules, ps), at)
    ensures At(rules, qs + [ps[at]]) == At(rules, qs) + [At(rules, ps)[at]]
  {
  }

  lemma SplitMoves(ps: seq<nat>, qs: seq<nat>, n: nat, at: nat)
    requires Splits(ps, qs, n) && at < |ps|
    ensures Splits(Without(ps, at), qs + [ps[at]], n)
  {
    var rest := Without(ps, at);
    assert forall i :: 0 <= i < |rest| ==> rest[i] == ps[if i < at then i else i + 1];
    forall x: nat | x < n
      ensures x in rest <==> x !in qs + [ps[at]]
    {
      if x in ps && x != ps[at] {
        var i :| 0 <= i < |ps| && ps[i] == x;
        assert rest[if i < at then i else i - 1] == x;
      }
    }
  }

  /** What the session holds is what is left and what is gone. */
  lemma HeldIsRestOrGone<R>(rules: seq<R>, id: R -> nat, ids: seq<nat>, r: R)
    requires AllRemoved(rules, id, ids).Some?
    ensures r in rules <==> r in AllRemoved(rules, id, ids).value || r in Removed(rules, id, ids)
  {
    var ps, qs := RemovedPositions(rules, id, ids);
    if r in rules {
      var x: nat :| x < |rules| && rules[x] == r;
      if x in ps {
        var i :| 0 <= i < |ps| && ps[i] == x;
        assert At(rules, ps)[i] == r;
      } else {
        var i :| 0 <= i < |qs| && qs[i] == x;
        assert At(rules, qs)[i] == r;
      }
    }
  }

  lemma HeldRule(before: RuleSet, msg: Message, marking: Marking, written: RuleSet, gone: RuleSet, rest: RuleSet, r: Rule)
    requires Accepts(before, msg, marking, written, gone, rest)
    ensures Holds(PlanFor(before, msg, marking).held, r) <==> Holds(rest, r) || Holds(gone, r)
    ensures Holds(written, r) ==> Holds(PlanFor(before, msg, marking).held, r)
  {
    var held := PlanFor(before, msg, marking).held;
    match r
    case PdrRule(p) => HeldIsRestOrGone(held.pdrs, PdrId, Values(msg.removePdrs), p);
    case FarRule(f) => HeldIsRestOrGone(held.fars, FarId, Values(msg.removeFars), f);
    case QerRule(q) => HeldIsRestOrGone(held.qers, QerId, Values(msg.removeQers), q);
  }

  lemma WrittenKeysAreHeld(before: RuleSet, msg: Message, marking: Marking, written: RuleSet, gone: RuleSet, rest: RuleSet)
    requires Accepts(before, msg, marking, written, gone, rest)
    ensures KeysOf(Images(written)) <= KeysOf(Images(rest)) + KeysOf(Images(gone))
  {
    forall k | k in KeysOf(Images(written))
      ensures k in KeysOf(Images(rest)) + KeysOf(Images(gone))
    {
      var m :| m in Images(written) && k in m;
      var r := ImageOf(written, m);
      HeldRule(before, msg, marking, written, gone, rest, r);
      if Holds(rest, r) {
        KeyOfHeldRule(rest, r, k);
      } else {
        KeyOfHeldRule(gone, r, k);
      }
    }
  }

  /**
   After an accepted modification the datapath has the keys of the rules left, and no others, exactly
   when (a) no removed rule has a key of one that is left, (b) every key the session had is one of a
   rule left or removed, and (c) every key of a rule left was there before or was written.
   */
  lemma AcceptedKeysInStepIff(
    before: RuleSet, msg: Message, marking: Marking, written: RuleSet, gone: RuleSet, rest: RuleSet,
    t: Table, h: History, scope: set<Key>)
    requires Accepts(before, msg, marking, written, gone, rest) && Completed(h, Images(written), Images(gone))
    requires KeysOf(Images(before)) + KeysOf(Images(written)) + KeysOf(Images(rest)) <= scope
    requires t.Keys * scope == KeysOf(Images(before))
    ensures Run(t, h).Keys * scope == KeysOf(Images(rest)) <==>
            && KeysOf(Images(gone)) !! KeysOf(Images(rest))
            && KeysOf(Images(before)) <= KeysOf(Images(rest)) + KeysOf(Images(gone))
            && KeysOf(Images(rest)) <= KeysOf(Images(before)) + KeysOf(Images(written))
  {
    AcceptedKeys(t, h, before, written, gone, scope);
    WrittenKeysAreHeld(before, msg, marking, written, gone, rest);
    KeySets(KeysOf(Images(before)), KeysOf(Images(written)), KeysOf(Images(gone)), KeysOf(Images(rest)));
  }

  lemma KeySets(b: set<Key>, w: set<Key>, g: set<Key>, r: set<Key>)
    requires w <= r + g
    ensures b + w - g == r <==> g !! r && b <= r + g && r <= b + w
  {
  }

  /**
   Any accepted message that drops a key without removing a rule that has it leaves the entry in the
   datapath, whatever the rest of the message and of the session.
   */
  lemma AbandonedEntryStays(
    before: RuleSet, msg: Message, marking: Marking, written: RuleSet, gone: RuleSet, rest: RuleSet, t: Table, h: History, k: Key)
    requires Accepts(before, msg, marking, written, gone, rest) && Completed(h, Images(written), Images(gone))
    requires k in t && k in KeysOf(Images(before)) && k !in KeysOf(Images(rest)) && k !in KeysOf(Images(gone))
    ensures k in Run(t, h) && k !in KeysOf(Images(written))
  {
    WrittenKeysAreHeld(before, msg, marking, written, gone, rest);
    UnremovedKeyStays(t, h, Images(written), Images(gone), k);
  }

  /** For example: a session of one PDR, and an update that moves it off one of its keys. */
  lemma MovedPdrAbandonsEntry(p: Pdr, q: Pdr, k: Key, v: Verdicts, t: Table, h: History)
    requires p.pdrID == q.pdrID && k in PdrKeys(p) && k !in PdrKeys(q)
    requires !Rejects(v.write, 1)
    requires k in t && Completed(h, Images(One(q)), Images(NoRules))
    ensures Decide(One(p), UpdateOf(q), Marking([], []), v) == Accept(One(q), [Adds(One(q)), Dels(NoRules)])
    ensures k in Run(t, h) && k !in KeysOf(Images(One(q)))
  {
    MovedPdrDecision(p, q, v);
    KeyNotInImages(q, k);
    OtherKeyUnchanged(t, h, Images(One(q)), Images(NoRules), k);
  }

  lemma MovedPdrDecision(p: Pdr, q: Pdr, v: Verdicts)
    requires p.pdrID == q.pdrID && !Rejects(v.write, 1)
    ensures Decide(One(p), UpdateOf(q), Marking([], []), v) == Accept(One(q), [Adds(One(q)), Dels(NoRules)])
  {
    MovedPdrPlan(p, q);
    var plan := PlanFor(One(p), UpdateOf(q), Marking([], []));
    assert DecidePlan(One(p), plan, Some((One(q), NoRules)), v) == Accept(One(q), [Adds(One(q)), Dels(NoRules)]);
  }

  lemma KeyNotInImages(q: Pdr, k: Key)
    requires k !in PdrKeys(q)
    ensures k !in KeysOf(Images(One(q)))
  {
    forall m | m in Images(One(q))
      ensures k !in m
    {
      var r := ImageOf(One(q), m);
    }
  }

  const NoRules: RuleSet := RuleSet([], [], [])

  function One(p: Pdr): (rs: RuleSet) {
    RuleSet([p], [], [])
  }

  function UpdateOf(q: Pdr): (msg: Message) {
    Message(None, [], [], [], [Ok(q)], [], [], [], [], [])
  }

  lemma MovedPdrPlan(p: Pdr, q: Pdr)
    requires p.pdrID == q.pdrID
    ensures PlanFor(One(p), UpdateOf(q), Marking([], [])).held == One(q)
    ensures PlanFor(One(p), UpdateOf(q), Marking([], [])).written == One(q)
    ensures Removals(One(q), UpdateOf(q)) == Some((One(q), NoRules))
  {
    MovedPdrEdited(p, q);
    var held := Marked(One(q), Marking([], []));
    assert held.pdrs == [q] && held.qers == [];
    MovedPdrWritten(p, q);
  }

  lemma MovedPdrEdited(p: Pdr, q: Pdr)
    requires p.pdrID == q.pdrID
    ensures Edited(One(p), UpdateOf(q)) == One(q)
  {
    var msg := UpdateOf(q);
    assert Values(msg.updatePdrs) == [q] && [p] + Values(msg.createPdrs) == [p];
    FirstIndexUnique([p], PdrId, PdrId(q), 0);
    assert [q][..0] == [];
    assert AllUpdated([p], PdrId, [q]) == [q];
  }

  lemma MovedPdrWritten(p: Pdr, q: Pdr)
    requires p.pdrID == q.pdrID
    ensures Modification.Written(One(p), UpdateOf(q), One(q)) == One(q)
  {
    var msg := UpdateOf(q);
    assert Values(msg.updatePdrs) == [q] && [p] + Values(msg.createPdrs) == [p];
    FirstIndexUnique([p], PdrId, PdrId(q), 0);
    assert [q][..0] == [];
    assert Found([p], PdrId, [q]) == [q];
    SingleVersion(q);
  }

  lemma SingleVersion(q: Pdr)
    ensures Versions([q], 1, [q], PdrId, 1) == [q]
  {
    FirstIndexUnique([q], PdrId, PdrId(q), 0);
    assert Touches([q], PdrId, [q], 0) by {
      assert PdrId([q][0]) == PdrId(q);
    }
    assert TouchedBelow([q], PdrId, [q], 1) == TouchedBelow([q], PdrId, [q], 0) + [0];
  }

  // ----- The FAR table -----

  predicate Distinct<R>(rules: seq<R>, id: R -> nat) {
    forall i, j :: 0 <= i < j < |rules| ==> id(rules[i]) != id(rules[j])
  }

  /** The table's FAR entries of a session are exactly its FARs. */
  ghost predicate FarsInStep(t: Table, fars: seq<Far>, seid: nat) {
    forall x: nat :: FarInStep(t, fars, seid, x)
  }

  /** For one ID: the entry is there only if a FAR has the ID, and holds every FAR that has it. */
  ghost predicate FarInStep(t: Table, fars: seq<Far>, seid: nat, x: nat) {
    && (FarKey(x, seid) in t ==> exists f :: f in fars && f.farID == x)
    && (forall f :: f in fars && f.farID == x ==> FarKey(x, seid) in t && t[FarKey(x, seid)] == FarValue(f))
  }

  lemma FarKeyImage(rs: RuleSet, m: Image, x: nat, seid: nat) returns (f: Far)
    requires m in Images(rs) && FarKey(x, seid) in m
    ensures f in rs.fars && f.farID == x && m[FarKey(x, seid)] == FarValue(f)
  {
    var r := ImageOf(rs, m);
    assert FarKey(x, seid) in Keys(r);
    f := r.far;
  }

  lemma FarKeyNamed(rs: RuleSet, x: nat, seid: nat)
    requires Stamped(rs, seid)
    ensures FarKey(x, seid) in KeysOf(Images(rs)) <==> exists f :: f in rs.fars && f.farID == x
  {
    var k := FarKey(x, seid);
    if k in KeysOf(Images(rs)) {
      var m :| m in Images(rs) && k in m;
      var f := FarKeyImage(rs, m, x, seid);
    }
    if f :| f in rs.fars && f.farID == x {
      KeyOfHeldRule(rs, FarRule(f), k);
    }
  }

  /** From a list without duplicate IDs, removal takes out exactly the rules it names. */
  lemma {:induction false} RemovedExactly<R>(rules: seq<R>, id: R -> nat, ids: seq<nat>)
    requires Distinct(rules, id) && AllRemoved(rules, id, ids).Some?
    ensures Distinct(AllRemoved(rules, id, ids).value, id)
    ensures forall r :: r in AllRemoved(rules, id, ids).value <==> r in rules && id(r) !in ids
    ensures forall r :: r in Removed(rules, id, ids) ==> r in rules
  {
    if ids != [] {
      var n := |ids| - 1;
      var front, x := ids[..n], ids[n];
      RemovedExactly(rules, id, front);
      var rest := AllRemoved(rules, id, front).value;
      var i := FirstIndex(rest, id, x);
      WithoutExactly(rest, id, i);
      assert ids == front + [x];
    }
  }

  lemma WithoutExactly<R>(rules: seq<R>, id: R -> nat, i: nat)
    requires Distinct(rules, id) && i < |rules|
    ensures Distinct(Without(rules, i), id)
    ensures forall r :: r in Without(rules, i) <==> r in rules && id(r) != id(rules[i])
  {
    forall r | r in rules && id(r) != id(rules[i])
      ensures r in Without(rules, i)
    {
      var j :| 0 <= j < |rules| && rules[j] == r;
      assert Without(rules, i)[if j < i then j else j - 1] == r;
    }
  }

  /** A rule the session holds was written by the message, or is the rule the session had at its position. */
  lemma HeldPosition<R>(before: seq<R>, creates: seq<R>, updates: seq<R>, id: R -> nat, i: nat)
    requires i < |before| + |creates|
    ensures var held := AllUpdated(before + creates, id, updates);
            held[i] in Touched(before, creates, updates, held, id) || (i < |before| && held[i] == before[i])
  {
    var list := before + creates;
    var held, found := AllUpdated(list, id, updates), Found(list, id, updates);
    if i < |before| {
      HeldPositionsAreTouched(list, id, updates, |before|, i);
      var ps := TouchedBelow(held, id, found, |before|);
      if i in ps {
        var j :| 0 <= j < |ps| && ps[j] == i;
        assert At(held, ps)[j] == held[i];
      }
    } else {
      assert held[|before|..][i - |before|] == held[i];
    }
  }

  lemma UpdatedDistinct<R>(rules: seq<R>, id: R -> nat, updates: seq<R>)
    requires Distinct(rules, id)
    ensures Distinct(AllUpdated(rules, id, updates), id)
  {
    UpdatesKeepIds(rules, id, updates);
  }

  /** What an accepted modification does to the FAR list. */
  ghost predicate FarsEdited(before: seq<Far>, held: seq<Far>, written: seq<Far>, gone: seq<Far>, rest: seq<Far>) {
    && Distinct(held, FarId)
    && (forall f :: f in written ==> f in held)
    && (forall i :: 0 <= i < |held| ==> held[i] in written || (i < |before| && held[i] == before[i]))
    && |before| <= |held| && (forall i :: 0 <= i < |before| ==> FarId(held[i]) == FarId(before[i]))
    && (forall f :: f in rest <==> f in held && !exists g :: g in gone && g.farID == f.farID)
  }

  lemma AcceptedFarsEdited(before: RuleSet, msg: Message, marking: Marking, written: RuleSet, gone: RuleSet, rest: RuleSet)
    requires Accepts(before, msg, marking, written, gone, rest)
    requires Distinct(before.fars + Values(msg.createFars), FarId)
    ensures FarsEdited(before.fars, PlanFor(before, msg, marking).held.fars, written.fars, gone.fars, rest.fars)
  {
    var creates, updates := Values(msg.createFars), Values(msg.updateFars);
    var list := before.fars + creates;
    var held := AllUpdated(list, FarId, updates);
    UpdatesKeepIds(list, FarId, updates);
    UpdatedDistinct(list, FarId, updates);
    forall i | 0 <= i < |held|
      ensures held[i] in written.fars || (i < |before.fars| && held[i] == before.fars[i])
    {
      HeldPosition(before.fars, creates, updates, FarId, i);
    }
    forall f | f in written.fars
      ensures f in held
    {
      VersionsAreHeld(held, |before.fars|, Found(list, FarId, updates), FarId, f);
    }
    GoneAndRest(held, Values(msg.removeFars), gone.fars, rest.fars);
  }

  lemma GoneAndRest(held: seq<Far>, ids: seq<nat>, gone: seq<Far>, rest: seq<Far>)
    requires Distinct(held, FarId) && AllRemoved(held, FarId, ids) == Some(rest) && gone == Removed(held, FarId, ids)
    ensures forall f :: f in rest <==> f in held && !exists g :: g in gone && g.farID == f.farID
  {
    RemovedExactly(held, FarId, ids);
    forall x
      ensures x in ids <==> exists g :: g in gone && g.farID == x
    {
      if x in ids {
        var i :| 0 <= i < |ids| && ids[i] == x;
        assert gone[i] in gone;
      }
      if g :| g in gone && g.farID == x {
        var i :| 0 <= i < |gone| && gone[i] == g;
        assert FarId(gone[i]) == ids[i];
      }
    }
    assert forall f: Far :: FarId(f) == f.farID;
  }

  lemma DistinctAt(held: seq<Far>, i: nat, j: nat)
    requires Distinct(held, FarId) && i < |held| && j < |held|
    ensures i != j ==> held[i].farID != held[j].farID
  {
    var a, b := if i < j then i else j, if i < j then j else i;
    assert a < b ==> FarId(held[a]) != FarId(held[b]);
  }

  lemma SameFar(held: seq<Far>, f: Far, g: Far)
    requires Distinct(held, FarId) && f in held && g in held && f.farID == g.farID
    ensures f == g
  {
    var i :| 0 <= i < |held| && held[i] == f;
    var j :| 0 <= j < |held| && held[j] == g;
    DistinctAt(held, i, j);
  }

  lemma FarAfterwards(t: Table, h: History, before: seq<Far>, held: seq<Far>, written: RuleSet, gone: RuleSet, rest: seq<Far>, seid: nat, x: nat)
    requires Completed(h, Images(written), Images(gone)) && Stamped(written, seid) && Stamped(gone, seid)
    requires FarsEdited(before, held, written.fars, gone.fars, rest) && FarInStep(t, before, seid, x)
    ensures FarInStep(Run(t, h), rest, seid, x)
  {
    var k := FarKey(x, seid);
    FarKeyNamed(gone, x, seid);
    FarKeyNamed(written, x, seid);
    if k in KeysOf(Images(gone)) {
      RemovedKeyAbsent(t, h, Images(written), Images(gone), k);
    } else if k in KeysOf(Images(written)) {
      var m := WrittenKeyHeld(t, h, Images(written), Images(gone), k);
      var g := FarKeyImage(written, m, x, seid);
      assert g in rest;
      forall f | f in rest && f.farID == x
        ensures f == g
      {
        SameFar(held, f, g);
      }
    } else {
      OtherKeyUnchanged(t, h, Images(written), Images(gone), k);
      UntouchedFar(t, before, held, written.fars, gone.fars, rest, seid, x);
    }
  }

  lemma UntouchedFar(t: Table, before: seq<Far>, held: seq<Far>, written: seq<Far>, gone: seq<Far>, rest: seq<Far>, seid: nat, x: nat)
    requires FarsEdited(before, held, written, gone, rest) && FarInStep(t, before, seid, x)
    requires !exists f :: f in written && f.farID == x
    requires !exists f :: f in gone && f.farID == x
    ensures FarInStep(t, rest, seid, x)
  {
    if FarKey(x, seid) in t {
      var f :| f in before && f.farID == x;
      var i :| 0 <= i < |before| && before[i] == f;
      assert FarId(held[i]) == FarId(before[i]);
      assert held[i] in rest && held[i].farID == x;
    }
    forall f | f in rest && f.farID == x
      ensures FarKey(x, seid) in t && t[FarKey(x, seid)] == FarValue(f)
    {
      var i :| 0 <= i < |held| && held[i] == f;
      assert before[i] == f;
    }
  }

  /**
   With distinct FAR IDs, once the batches of an accepted modification have finished the session's
   part of the FAR table is exactly the FAR list the session holds.
   */
  lemma AcceptedFarsInStep(
    before: RuleSet, msg: Message, marking: Marking, seid: nat, written: RuleSet, gone: RuleSet, rest: RuleSet,
    t: Table, h: History)
    requires Accepts(before, msg, marking, written, gone, rest) && Completed(h, Images(written), Images(gone))
    requires Stamped(before, seid) && StampedMessage(msg, seid)
    requires Distinct(before.fars + Values(msg.createFars), FarId)
    requires FarsInStep(t, before.fars, seid)
    ensures FarsInStep(Run(t, h), rest.fars, seid)
  {
    var held := PlanFor(before, msg, marking).held;
    AcceptedFarsEdited(before, msg, marking, written, gone, rest);
    AcceptedStamped(before, msg, marking, seid, written, gone, rest);
    forall x: nat
      ensures FarInStep(Run(t, h), rest.fars, seid, x)
    {
      FarAfterwards(t, h, before.fars, held.fars, written, gone, rest.fars, seid, x);
    }
  }

  lemma {:induction false} RemovedAreHeld<R>(rules: seq<R>, id: R -> nat, ids: seq<nat>)
    requires AllRemoved(rules, id, ids).Some?
    ensures forall r :: r in Removed(rules, id, ids) ==> r in rules
    ensures forall r :: r in AllRemoved(rules, id, ids).value ==> r in rules
  {
    if ids != [] {
      RemovedAreHeld(rules, id, ids[..|ids| - 1]);
    }
  }

  lemma AcceptedStamped(
    before: RuleSet, msg: Message, marking: Marking, seid: nat, written: RuleSet, gone: RuleSet, rest: RuleSet)
    requires Accepts(before, msg, marking, written, gone, rest)
    requires Stamped(before, seid) && StampedMessage(msg, seid)
    ensures Stamped(written, seid) && Stamped(gone, seid) && Stamped(rest, seid)
  {
    var held := PlanFor(before, msg, marking).held;
    HeldStamped(before, msg, marking, seid);
    RemovedAreHeld(held.fars, FarId, Values(msg.removeFars));
    RemovedAreHeld(held.qers, QerId, Values(msg.removeQers));
    SubsetStamped(held, gone, seid);
    SubsetStamped(held, rest, seid);
    SubsetStamped(held, written, seid);
  }

  lemma SubsetStamped(held: RuleSet, rs: RuleSet, seid: nat)
    requires Stamped(held, seid)
    requires forall f :: f in rs.fars ==> f in held.fars
    requires forall q :: q in rs.qers ==> q in held.qers
    ensures Stamped(rs, seid)
  {
    assert forall f :: f in held.fars ==> f.fseID == seid;
    assert forall q :: q in held.qers ==> q.fseID == seid;
  }
}
