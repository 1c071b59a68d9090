/**
 The session modification handler. It edits a copy of the session's rules, writes what the
 message touched, removes what the message removes, and publishes the copy only if both batches
 were accepted. A refusal after the first write puts the datapath back.
 */
module Modification {
  import opened Wrappers
  import opened Rules
  import opened RuleLists
  import opened Datapath

  datatype RuleSet = RuleSet(pdrs: seq<Pdr>, fars: seq<Far>, qers: seq<Qer>)

  datatype Session = Session(remoteSEID: nat, rules: RuleSet)

  /** A parsed message: each element is a rule or an ID, or the failure to parse it. */
  datatype Message = Message(
    remoteSEID: Option<nat>,
    createPdrs: seq<Result<Pdr>>, createFars: seq<Result<Far>>, createQers: seq<Result<Qer>>,
    updatePdrs: seq<Result<Pdr>>, updateFars: seq<Result<Far>>, updateQers: seq<Result<Qer>>,
    removePdrs: seq<Result<nat>>, removeFars: seq<Result<nat>>, removeQers: seq<Result<nat>>)

  /** The outcome of marking the session QER: any levels, and any order of each PDR's QER IDs. */
  datatype Marking = Marking(levels: seq<QosLevel>, lists: seq<seq<nat>>)

  /** What the joins of the message's batches receive. */
  datatype Verdicts = Verdicts(write: Reports, delete: Reports, remove: Reports, restore: Reports)

  datatype Answer = Accepted | Rejected | NotFound | Releasing

  const PdrId: Pdr -> nat := (p: Pdr) => p.pdrID
  const FarId: Far -> nat := (f: Far) => f.farID
  const QerId: Qer -> nat := (q: Qer) => q.qerID

  // ----- Specification -----

  predicate AllOk<T>(items: seq<Result<T>>) {
    forall i :: 0 <= i < |items| ==> items[i].Ok?
  }

  function Values<T>(items: seq<Result<T>>): (vs: seq<T>)
    requires AllOk(items)
    ensures |vs| == |items|
    ensures forall i :: 0 <= i < |items| ==> vs[i] == items[i].value
  {
    seq(|items|, i requires 0 <= i < |items| => items[i].value)
  }

  predicate Parses(msg: Message) {
    && AllOk(msg.createPdrs) && AllOk(msg.createFars) && AllOk(msg.createQers)
    && AllOk(msg.updatePdrs) && AllOk(msg.updateFars) && AllOk(msg.updateQers)
  }

  function Marked(rs: RuleSet, m: Marking): (rs': RuleSet)
    ensures |rs'.pdrs| == |rs.pdrs| && |rs'.qers| == |rs.qers| && rs'.fars == rs.fars
  {
    RuleSet(
      seq(|rs.pdrs|, i requires 0 <= i < |rs.pdrs| => if i < |m.lists| then rs.pdrs[i].(qerIDs := m.lists[i]) else rs.pdrs[i]),
      rs.fars,
      seq(|rs.qers|, i requires 0 <= i < |rs.qers| => if i < |m.levels| then rs.qers[i].(level := m.levels[i]) else rs.qers[i]))
  }

  /** The session's rules after the message's creates and updates, before the marking. */
  function Edited(before: RuleSet, msg: Message): (rs: RuleSet)
    requires Parses(msg)
  {
    RuleSet(AllUpdated(before.pdrs + Values(msg.createPdrs), PdrId, Values(msg.updatePdrs)),
            AllUpdated(before.fars + Values(msg.createFars), FarId, Values(msg.updateFars)),
            AllUpdated(before.qers + Values(msg.createQers), QerId, Values(msg.updateQers)))
  }

  /** The touched rules of one kind, in the versions the session holds. */
  function Touched<R>(before: seq<R>, creates: seq<R>, updates: seq<R>, held: seq<R>, id: R -> nat): (rs: seq<R>)
    requires |held| == |before| + |creates|
  {
    Versions(held, |before|, Found(before + creates, id, updates), id, |before|)
  }

  function Written(before: RuleSet, msg: Message, held: RuleSet): (rs: RuleSet)
    requires Parses(msg)
    requires |held.pdrs| == |before.pdrs| + |msg.createPdrs|
    requires |held.fars| == |before.fars| + |msg.createFars|
    requires |held.qers| == |before.qers| + |msg.createQers|
  {
    RuleSet(Touched(before.pdrs, Values(msg.createPdrs), Values(msg.updatePdrs), held.pdrs, PdrId),
            Touched(before.fars, Values(msg.createFars), Values(msg.updateFars), held.fars, FarId),
            Touched(before.qers, Values(msg.createQers), Values(msg.updateQers), held.qers, QerId))
  }

  /** The rules that do not occupy the entry of the session's own version of them. */
  function Moved<R>(rules: seq<R>, before: seq<R>, id: R -> nat, same: (R, R) -> bool): (moved: seq<R>)
    ensures forall r :: r in moved ==> r in rules
    ensures forall r :: r in rules && r !in moved ==>
                          exists i :: 0 <= i < |before| && id(before[i]) == id(r) && same(r, before[i])
  {
    if rules == [] then []
    else
      var front, last := Moved(rules[..|rules| - 1], before, id, same), rules[|rules| - 1];
      var i := FirstIndex(before, id, id(last));
      if i < |before| && same(last, before[i]) then front else front + [last]
  }

  const SamePdrEntry: (Pdr, Pdr) -> bool := (p: Pdr, q: Pdr) => PdrOccupiesSameEntry(p, q)
  const SameQerEntry: (Qer, Qer) -> bool := (p: Qer, q: Qer) => QerOccupiesSameEntry(p, q)

  /** What the rollback removes: the created rules, and the updated ones that moved. */
  function ToRemove(before: RuleSet, written: RuleSet, pdrs: nat, fars: nat, qers: nat): (rs: RuleSet)
    requires pdrs <= |written.pdrs| && fars <= |written.fars| && qers <= |written.qers|
  {
    RuleSet(written.pdrs[..pdrs] + Moved(written.pdrs[pdrs..], before.pdrs, PdrId, SamePdrEntry),
            written.fars[..fars],
            written.qers[..qers] + Moved(written.qers[qers..], before.qers, QerId, SameQerEntry))
  }

  /** Everything the handler derives from the session and the message before it writes. */
  datatype Plan = Plan(held: RuleSet, written: RuleSet, remove: RuleSet)

  function PlanFor(before: RuleSet, msg: Message, marking: Marking): (plan: Plan)
    requires Parses(msg)
  {
    var held := Marked(Edited(before, msg), marking);
    var written := Written(before, msg, held);
    Plan(held, written, ToRemove(before, written, |msg.createPdrs|, |msg.createFars|, |msg.createQers|))
  }

  /** The rules left, and the rules gone, after the message's removals; None if one of them fails. */
  function Removals(held: RuleSet, msg: Message): (r: Option<(RuleSet, RuleSet)>) {
    if !AllOk(msg.removePdrs) || !AllOk(msg.removeFars) || !AllOk(msg.removeQers) then None
    else
      var ps, fs, qs := Values(msg.removePdrs), Values(msg.removeFars), Values(msg.removeQers);
      var pdrs, fars, qers := AllRemoved(held.pdrs, PdrId, ps), AllRemoved(held.fars, FarId, fs), AllRemoved(held.qers, QerId, qs);
      if pdrs.None? || fars.None? || qers.None? then None
      else
        Some((RuleSet(pdrs.value, fars.value, qers.value),
              RuleSet(Removed(held.pdrs, PdrId, ps), Removed(held.fars, FarId, fs), Removed(held.qers, QerId, qs))))
  }

  function Calls(rs: RuleSet): (n: nat) {
    |rs.pdrs| + |rs.fars| + |rs.qers|
  }

  /** A batch is rejected only if it had something to do, completed, and reported a failure. */
  predicate Rejects(es: Reports, calls: nat) {
    calls > 0 && Completes(calls, es) && !Succeeds(calls, es)
  }

  /** In terms of what the join receives: all reports come before the timer, and one of them is bad. */
  lemma RejectsIff(es: Reports, calls: nat)
    ensures Rejects(es, calls) <==> calls <= |es| && Boom !in es[..calls] && Report(false) in es[..calls]
  {
    if Rejects(es, calls) {
      var i :| 0 <= i < calls && es[i] != Report(true);
      assert es[..calls][i] == Report(false);
    }
    if calls <= |es| && Boom !in es[..calls] && Report(false) in es[..calls] {
      forall i | 0 <= i < calls
        ensures es[i].Report?
      {
        assert es[..calls][i] == es[i];
      }
    }
  }

  ghost function Images(rs: RuleSet): (images: set<Image>) {
    (set p | p in rs.pdrs :: Entries(PdrRule(p))) +
    (set f | f in rs.fars :: Entries(FarRule(f))) +
    (set q | q in rs.qers :: Entries(QerRule(q)))
  }

  /** A batch sent to the datapath: every rule of the set is added, or every one deleted. */
  datatype Batch = Adds(rules: RuleSet) | Dels(rules: RuleSet)

  ghost function CommandsOf(b: Batch): (cs: set<Command>) {
    match b
    case Adds(rs) => AddCommands(Images(rs))
    case Dels(rs) => DelCommands(Images(rs))
  }

  ghost function Commands(batches: seq<Batch>): (cs: seq<set<Command>>)
    ensures |cs| == |batches|
  {
    seq(|batches|, i requires 0 <= i < |batches| => CommandsOf(batches[i]))
  }

  datatype ModificationOutcome =
    | Refuse(batches: seq<Batch>)
    | Accept(rules: RuleSet, batches: seq<Batch>)

  /** The decision once the message is parsed: two verdicts and the removals decide. */
  function DecidePlan(before: RuleSet, plan: Plan, removals: Option<(RuleSet, RuleSet)>, v: Verdicts): (o: ModificationOutcome) {
    if Rejects(v.write, Calls(plan.written)) || removals.None? then
      Refuse([Adds(plan.written), Dels(plan.remove), Adds(before)])
    else if Rejects(v.delete, Calls(removals.value.1)) then
      Refuse([Adds(plan.written), Dels(removals.value.1), Dels(plan.remove), Adds(before)])
    else Accept(removals.value.0, [Adds(plan.written), Dels(removals.value.1)])
  }

  /** The handler's decision and the batches it sends, for a session it holds. */
  function Decide(before: RuleSet, msg: Message, marking: Marking, v: Verdicts): (o: ModificationOutcome) {
    if !Parses(msg) then Refuse([])
    else
      var plan := PlanFor(before, msg, marking);
      DecidePlan(before, plan, Removals(plan.held, msg), v)
  }

  // ----- One more element of a message -----

  lemma ParsedOneMore<R>(items: seq<Result<R>>, i: nat)
    requires i < |items| && AllOk(items[..i]) && items[i].Ok?
    ensures AllOk(items[..i + 1]) && Values(items[..i + 1]) == Values(items[..i]) + [items[i].value]
  {
  }

  lemma UpdatedOneMore<R>(rules: seq<R>, id: R -> nat, items: seq<Result<R>>, i: nat)
    requires i < |items| && AllOk(items[..i]) && items[i].Ok?
    ensures AllOk(items[..i + 1])
    ensures AllUpdated(rules, id, Values(items[..i + 1])) == Updated(AllUpdated(rules, id, Values(items[..i])), id, items[i].value)
    ensures var found := Found(rules, id, Values(items[..i]));
            Found(rules, id, Values(items[..i + 1])) ==
            if FirstIndex(rules, id, id(items[i].value)) < |rules| then found + [items[i].value] else found
  {
    ParsedOneMore(items, i);
    var next := Values(items[..i + 1]);
    assert next[..|next| - 1] == Values(items[..i]);
  }

  lemma RemovedOneMore<R>(rules: seq<R>, id: R -> nat, items: seq<Result<nat>>, i: nat, rest: seq<R>)
    requires i < |items| && AllOk(items[..i]) && items[i].Ok?
    requires AllRemoved(rules, id, Values(items[..i])) == Some(rest)
    ensures AllOk(items[..i + 1])
    ensures var at := FirstIndex(rest, id, items[i].value);
            && AllRemoved(rules, id, Values(items[..i + 1])) == (if at < |rest| then Some(Without(rest, at)) else None)
            && (at < |rest| ==> Removed(rules, id, Values(items[..i + 1])) == Removed(rules, id, Values(items[..i])) + [rest[at]])
            && (at == |rest| && AllOk(items) ==> AllRemoved(rules, id, Values(items)).None?)
  {
    ParsedOneMore(items, i);
    var next := Values(items[..i + 1]);
    assert next[..|next| - 1] == Values(items[..i]);
    if AllOk(items) && AllRemoved(rules, id, next).None? {
      assert Values(items)[..i + 1] == next;
      MissingStaysMissing(rules, id, Values(items), i + 1);
    }
  }

  // ----- Handler -----

  method ParseCreates<R>(rules: seq<R>, items: seq<Result<R>>) returns (rules': seq<R>, ok: bool)
    ensures ok <==> AllOk(items)
    ensures ok ==> rules' == rules + Values(items)
  {
    rules' := rules;
    for i := 0 to |items|
      invariant AllOk(items[..i]) && rules' == rules + Values(items[..i])
    {
      if items[i].Err? {
        return rules, false;
      }
      ParsedOneMore(items, i);
      rules' := rules' + [items[i].value];
    }
    assert items[..|items|] == items;
    ok := true;
  }

  method ParseUpdates<R>(rules: seq<R>, items: seq<Result<R>>, id: R -> nat)
    returns (rules': seq<R>, found: seq<R>, ok: bool)
    ensures ok <==> AllOk(items)
    ensures ok ==> rules' == AllUpdated(rules, id, Values(items)) && found == Found(rules, id, Values(items))
  {
    rules', found := rules, [];
    for i := 0 to |items|
      invariant AllOk(items[..i])
      invariant rules' == AllUpdated(rules, id, Values(items[..i])) && found == Found(rules, id, Values(items[..i]))
    {
      if items[i].Err? {
        return rules, [], false;
      }
      UpdatedOneMore(rules, id, items, i);
      UpdatesKeepIds(rules, id, Values(items[..i]));
      SameIdsSameIndex(rules, rules', id, id(items[i].value));
      var updated, hit := Update(rules', id, items[i].value);
      rules' := updated;
      if hit {
        found := found + [items[i].value];
      }
    }
    assert items[..|items|] == items;
    ok := true;
  }

  method RemoveAll<R>(rules: seq<R>, items: seq<Result<nat>>, id: R -> nat)
    returns (rules': seq<R>, gone: seq<R>, ok: bool)
    ensures ok <==> AllOk(items) && AllRemoved(rules, id, Values(items)).Some?
    ensures ok ==> AllRemoved(rules, id, Values(items)).value == rules' && gone == Removed(rules, id, Values(items))
  {
    rules', gone := rules, [];
    for i := 0 to |items|
      invariant AllOk(items[..i])
      invariant AllRemoved(rules, id, Values(items[..i])) == Some(rules')
      invariant gone == Removed(rules, id, Values(items[..i]))
    {
      if items[i].Err? {
        return rules, [], false;
      }
      RemovedOneMore(rules, id, items, i, rules');
      var rest, taken := Remove(rules', id, items[i].value);
      if taken.None? {
        return rules, [], false;
      }
      rules', gone := rest, gone + [taken.value];
    }
    assert items[..|items|] == items;
    ok := true;
  }

  lemma {:induction false} MissingStaysMissing<R>(rules: seq<R>, id: R -> nat, ids: seq<nat>, n: nat)
    requires n <= |ids| && AllRemoved(rules, id, ids[..n]).None?
    ensures AllRemoved(rules, id, ids).None?
  {
    if n < |ids| {
      assert ids[..|ids| - 1][..n] == ids[..n];
      MissingStaysMissing(rules, id, ids[..|ids| - 1], n);
    } else {
      assert ids[..n] == ids;
    }
  }

  method MovedRules<R>(rules: seq<R>, before: seq<R>, id: R -> nat, same: (R, R) -> bool) returns (moved: seq<R>)
    ensures moved == Moved(rules, before, id, same)
  {
    moved := [];
    for i := 0 to |rules|
      invariant moved == Moved(rules[..i], before, id, same)
    {
      assert rules[..i + 1][..i] == rules[..i];
      var at := FirstIndex(before, id, id(rules[i]));
      if at == |before| || !same(rules[i], before[at]) {
        moved := moved + [rules[i]];
      }
    }
    assert rules[..|rules|] == rules;
  }

  /** Every FAR and QER of a session carries the session's own ID, as parsing stamps it. */
  predicate Stamped(rs: RuleSet, seid: nat) {
    && (forall i :: 0 <= i < |rs.fars| ==> rs.fars[i].fseID == seid)
    && (forall i :: 0 <= i < |rs.qers| ==> rs.qers[i].fseID == seid)
  }

  predicate StampedMessage(msg: Message, seid: nat) {
    && (forall i :: 0 <= i < |msg.createFars| && msg.createFars[i].Ok? ==> msg.createFars[i].value.fseID == seid)
    && (forall i :: 0 <= i < |msg.updateFars| && msg.updateFars[i].Ok? ==> msg.updateFars[i].value.fseID == seid)
    && (forall i :: 0 <= i < |msg.createQers| && msg.createQers[i].Ok? ==> msg.createQers[i].value.fseID == seid)
    && (forall i :: 0 <= i < |msg.updateQers| && msg.updateQers[i].Ok? ==> msg.updateQers[i].value.fseID == seid)
  }
}
