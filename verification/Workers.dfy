/**
 The workers of a batch: one per rule, each sending its commands one by one and reporting once. A
 worker stops at a command the datapath refuses, but goes on after a call that failed, because a
 failed call says nothing about what the datapath did. So a batch can complete, with only good
 reports, although none of its commands took effect; what the reports do say is stated here.
 */
module Workers {
  import opened Ports
  import opened Rules
  import opened Datapath
  import opened Rollback
  import opened Modification
  import opened ModificationSafety
  import opened Changes

  /** The rules of a batch, one worker each. */
  function RulesOf(b: Batch): (rs: seq<Rule>)
    ensures |rs| == Calls(b.rules)
  {
    seq(|b.rules.pdrs|, i requires 0 <= i < |b.rules.pdrs| => PdrRule(b.rules.pdrs[i])) +
    seq(|b.rules.fars|, i requires 0 <= i < |b.rules.fars| => FarRule(b.rules.fars[i])) +
    seq(|b.rules.qers|, i requires 0 <= i < |b.rules.qers| => QerRule(b.rules.qers[i]))
  }

  /** The port ranges of a PDR may not translate into match rules. */
  predicate Translates(r: Rule) {
    r.PdrRule? ==> PortRules(r.pdr.filter.srcPorts, r.pdr.filter.dstPorts).Ok?
  }

  /** The command that a batch sends for one key of a rule. */
  function CommandOn(b: Batch, r: Rule, k: Key): (c: Command) {
    if b.Adds? then Put(k, ValueAt(r, k)) else Del(k)
  }

  /** The answers to the commands a worker sent. */
  type Replies = map<Key, CommandAnswer>

  /** What a worker reports: all its commands were sent and none was refused. */
  predicate Good(b: Batch, r: Rule, replies: Replies) {
    Translates(r) && forall k :: k in Keys(r) ==> k in replies && CommandOutcome(b.Dels?, replies[k]) != Refused
  }

  /** A worker, given what the client would answer to each of its commands. */
  method Work(b: Batch, r: Rule, order: seq<Key>, client: Key -> CommandAnswer) returns (replies: Replies, ok: bool)
    requires forall k :: k in order <==> k in Keys(r)
    ensures ok <==> Good(b, r, replies)
    ensures ok <==>
            && (r.PdrRule? ==> PortRules(r.pdr.filter.srcPorts, r.pdr.filter.dstPorts).Ok?)
            && forall k :: k in Keys(r) ==> CommandOutcome(b.Dels?, client(k)) != Refused
    ensures forall k :: k in replies ==> k in Keys(r) && replies[k] == client(k)
  {
    replies := map[];
    if r.PdrRule? && PortRules(r.pdr.filter.srcPorts, r.pdr.filter.dstPorts).Err? {
      return replies, false;
    }
    for i := 0 to |order|
      invariant replies.Keys == set j | 0 <= j < i :: order[j]
      invariant forall k :: k in replies ==> replies[k] == client(k) && CommandOutcome(b.Dels?, client(k)) != Refused
    {
      replies := replies[order[i] := client(order[i])];
      if CommandOutcome(b.Dels?, client(order[i])) == Refused {
        assert order[i] in Keys(r);
        return replies, false;
      }
    }
    ok := true;
  }

  /** A rule that the datapath does not hold (error code 2) is as good as removed, but cannot be added; any other error is a refusal. */
  lemma MissingRuleIsGood(rules: RuleSet, r: Rule, replies: Replies)
    requires Translates(r) && forall k :: k in Keys(r) ==> k in replies
    ensures (forall k :: k in Keys(r) ==> replies[k] == Took || replies[k] == CallFailed || replies[k] == ModuleError(2)) <==>
            Good(Dels(rules), r, replies)
    ensures (forall k :: k in Keys(r) ==> replies[k] == Took || replies[k] == CallFailed) <==> Good(Adds(rules), r, replies)
  {
  }

  /** If the batch completes, what its join receives are the reports of its workers, in some order. */
  ghost predicate Joined(b: Batch, replies: seq<Replies>, es: Reports) {
    var n := Calls(b.rules);
    && |replies| == n
    && (Completes(n, es) ==> multiset(es[..n]) == multiset(Reported(b, replies)))
  }

  function Reported(b: Batch, replies: seq<Replies>): (rs: seq<Event>)
    requires |replies| == Calls(b.rules)
    ensures |rs| == |replies|
  {
    seq(|replies|, i requires 0 <= i < |replies| => Report(Good(b, RulesOf(b)[i], replies[i])))
  }

  lemma SucceededIsGood(b: Batch, replies: seq<Replies>, es: Reports, i: nat)
    requires Joined(b, replies, es) && Succeeds(Calls(b.rules), es) && i < |replies|
    ensures Good(b, RulesOf(b)[i], replies[i])
  {
    var n := Calls(b.rules);
    var rs := Reported(b, replies);
    assert rs[i] in multiset(rs);
    assert rs[i] in multiset(es[..n]);
    assert rs[i] in es[..n];
  }

  // ----- What the answers say about the datapath -----

  /** Some worker was told that the command took effect. */
  ghost predicate Answered(b: Batch, replies: seq<Replies>, c: Command)
    requires |replies| == Calls(b.rules)
  {
    exists i, k :: AnsweredBy(b, replies, c, i, k)
  }

  ghost predicate AnsweredBy(b: Batch, replies: seq<Replies>, c: Command, i: nat, k: Key)
    requires |replies| == Calls(b.rules)
  {
    && i < |replies| && k in replies[i] && k in Keys(RulesOf(b)[i])
    && CommandOutcome(b.Dels?, replies[i][k]) == Done && CommandOn(b, RulesOf(b)[i], k) == c
  }

  /**
   The datapath does what it answers: a command reported done took effect. A delete answered "no such
   rule" is one that took effect on a table without the entry.
   */
  ghost predicate Truthful(h: History, n: nat, b: Batch, replies: seq<Replies>)
    requires |replies| == Calls(b.rules)
  {
    forall c :: c in CommandsOf(b) && Answered(b, replies, c) ==> Issued(n, c) in h
  }

  /** No call of the batch failed. */
  predicate AllAnswered(replies: seq<Replies>) {
    forall i, k :: 0 <= i < |replies| && k in replies[i] ==> !replies[i][k].CallFailed?
  }

  lemma PdrAt(b: Batch, j: nat)
    requires j < |b.rules.pdrs|
    ensures RulesOf(b)[j] == PdrRule(b.rules.pdrs[j])
  {
  }

  lemma FarAt(b: Batch, j: nat)
    requires j < |b.rules.fars|
    ensures RulesOf(b)[|b.rules.pdrs| + j] == FarRule(b.rules.fars[j])
  {
  }

  lemma QerAt(b: Batch, j: nat)
    requires j < |b.rules.qers|
    ensures RulesOf(b)[|b.rules.pdrs| + |b.rules.fars| + j] == QerRule(b.rules.qers[j])
  {
  }

  lemma RuleAt(b: Batch, r: Rule) returns (i: nat)
    requires Holds(b.rules, r)
    ensures i < |RulesOf(b)| && RulesOf(b)[i] == r
  {
    var rs := b.rules;
    match r
    case PdrRule(p) =>
      i :| 0 <= i < |rs.pdrs| && rs.pdrs[i] == p;
      PdrAt(b, i);
    case FarRule(f) =>
      var j :| 0 <= j < |rs.fars| && rs.fars[j] == f;
      FarAt(b, j);
      i := |rs.pdrs| + j;
    case QerRule(q) =>
      var j :| 0 <= j < |rs.qers| && rs.qers[j] == q;
      QerAt(b, j);
      i := |rs.pdrs| + |rs.fars| + j;
  }

  lemma RuleOfCommand(b: Batch, c: Command) returns (r: Rule)
    requires c in CommandsOf(b)
    ensures Holds(b.rules, r) && c.key in Keys(r) && CommandOn(b, r, c.key) == c
  {
    var m: Image;
    if b.Adds? {
      m :| m in Images(b.rules) && c.key in m && c == Put(c.key, m[c.key]);
    } else {
      m :| m in Images(b.rules) && c.key in m;
    }
    r := ImageOf(b.rules, m);
  }

  lemma CommandHasRule(b: Batch, c: Command) returns (i: nat)
    requires c in CommandsOf(b)
    ensures i < |RulesOf(b)| && c.key in Keys(RulesOf(b)[i]) && CommandOn(b, RulesOf(b)[i], c.key) == c
  {
    var r := RuleOfCommand(b, c);
    i := RuleAt(b, r);
  }

  /** Every command of the batch was answered as done. */
  ghost predicate EachAnswered(b: Batch, replies: seq<Replies>) {
    |replies| == Calls(b.rules) && forall c :: c in CommandsOf(b) ==> Answered(b, replies, c)
  }

  /** Then it finished: every command took effect. */
  lemma AnsweredFinishes(h: History, batches: seq<set<Command>>, n: nat, b: Batch, replies: seq<Replies>)
    requires n < |batches| && batches[n] == CommandsOf(b)
    requires EachAnswered(b, replies) && Truthful(h, n, b, replies)
    ensures Finished(h, batches, n)
  {
  }

  /**
   Every command was answered if no call failed and each worker whose rule translates reported it as
   programmed. A rule that does not translate has no command, so its bad report, for which the whole
   batch is rejected, takes nothing away.
   */
  lemma TranslatedAreAnswered(b: Batch, replies: seq<Replies>)
    requires |replies| == Calls(b.rules) && AllAnswered(replies)
    requires forall i :: 0 <= i < |replies| && Translates(RulesOf(b)[i]) ==> Good(b, RulesOf(b)[i], replies[i])
    ensures EachAnswered(b, replies)
  {
    forall c | c in CommandsOf(b)
      ensures Answered(b, replies, c)
    {
      var i := CommandHasRule(b, c);
      KeysTranslate(RulesOf(b)[i], c.key);
      assert AnsweredBy(b, replies, c, i, c.key);
    }
  }

  lemma KeysTranslate(r: Rule, k: Key)
    requires k in Keys(r)
    ensures Translates(r)
  {
  }

  /** A batch that succeeded without a failed call finished: every command took effect. */
  lemma AnsweredBatchFinishes(h: History, batches: seq<set<Command>>, n: nat, b: Batch, replies: seq<Replies>, es: Reports)
    requires n < |batches| && batches[n] == CommandsOf(b)
    requires Joined(b, replies, es) && Succeeds(Calls(b.rules), es)
    requires AllAnswered(replies) && Truthful(h, n, b, replies)
    ensures EachAnswered(b, replies) && Finished(h, batches, n)
  {
    forall i | 0 <= i < |replies|
      ensures Good(b, RulesOf(b)[i], replies[i])
    {
      SucceededIsGood(b, replies, es, i);
    }
    TranslatedAreAnswered(b, replies);
    AnsweredFinishes(h, batches, n, b, replies);
  }

  /** A history in which exactly the answered commands of a batch took effect. */
  lemma JustTheAnswered(b: Batch, replies: seq<Replies>, n: nat) returns (h: History)
    requires |replies| == Calls(b.rules)
    ensures forall c :: Issued(n, c) in h <==> c in CommandsOf(b) && Answered(b, replies, c)
    ensures Once(h) && forall i :: 0 <= i < |h| ==> h[i].batch == n && h[i].cmd in CommandsOf(b)
  {
    var cs := set c | c in CommandsOf(b) && Answered(b, replies, c);
    h := SeqOfSet(cs, n);
  }

  /**
   All that is known of a batch: it is certain to have finished, in every history that fits the
   answers, exactly when each of its commands was answered as done by some worker.
   */
  lemma CertainToFinishIff(batches: seq<set<Command>>, n: nat, b: Batch, replies: seq<Replies>)
    requires n < |batches| && batches[n] == CommandsOf(b) && |replies| == Calls(b.rules)
    ensures (forall h :: Legal(h, batches) && InIssueOrder(h) && Once(h) && Truthful(h, n, b, replies) ==> Finished(h, batches, n))
            <==> EachAnswered(b, replies)
  {
    var h := JustTheAnswered(b, replies, n);
    assert Legal(h, batches) && InIssueOrder(h) && Truthful(h, n, b, replies);
    if Finished(h, batches, n) {
      forall c | c in CommandsOf(b)
        ensures Answered(b, replies, c)
      {
        assert Issued(n, c) in h;
      }
    }
  }

  /**
   The common slow case: every call of a batch fails at its deadline before the join's timer goes
   off. The batch completes and succeeds, and it fits the answers that none of it took effect.
   */
  lemma FailedCallsLookLikeSuccess(b: Batch) returns (replies: seq<Replies>, es: Reports)
    requires CommandsOf(b) != {} && forall i :: 0 <= i < |RulesOf(b)| ==> Translates(RulesOf(b)[i])
    ensures Joined(b, replies, es) && Completes(Calls(b.rules), es) && Succeeds(Calls(b.rules), es)
    ensures Truthful([], 0, b, replies) && !Finished([], [CommandsOf(b)], 0)
  {
    var rs := RulesOf(b);
    replies := seq(|rs|, i requires 0 <= i < |rs| => map k | k in Keys(rs[i]) :: CallFailed);
    var good := seq(|rs|, _ => Report(true));
    es := good + [Boom];
    assert es[..|rs|] == good;
    assert forall i :: 0 <= i < |rs| ==> Good(b, rs[i], replies[i]);
    assert Reported(b, replies) == good;
    NothingAnswered(b, replies);
    NothingFinished(CommandsOf(b));
  }

  lemma NothingAnswered(b: Batch, replies: seq<Replies>)
    requires |replies| == Calls(b.rules)
    requires forall i, k :: 0 <= i < |replies| && k in replies[i] ==> replies[i][k] == CallFailed
    ensures Truthful([], 0, b, replies)
  {
  }

  lemma NothingFinished(cs: set<Command>)
    requires cs != {}
    ensures !Finished([], [cs], 0)
  {
    var c :| c in cs;
    assert c in [cs][0];
  }

  /**
   Rollback from the answers: if every command of the rollback's two batches was answered as done, and
   the datapath does what it answers, a refused message leaves the datapath as it was. Whether the
   joins succeeded does not matter, so it holds of a removal that is rejected for a created rule
   that does not translate.
   */
  lemma RestoredWhenAnswered(
    before: RuleSet, msg: Message, marking: Marking, v: Verdicts, seid: nat, t: Table, h: History,
    removed: seq<Replies>, restored: seq<Replies>)
    requires Stamped(before, seid) && StampedMessage(msg, seid)
    requires Decide(before, msg, marking, v).Refuse? && Decide(before, msg, marking, v).batches != []
    requires var batches := Decide(before, msg, marking, v).batches;
             var n, cs, remove := |batches|, Commands(batches), PlanFor(before, msg, marking).remove;
             && Legal(h, cs) && InIssueOrder(h) && InStep(t, Images(before), cs) && n >= 2
             && EachAnswered(Dels(remove), removed) && Truthful(h, n - 2, Dels(remove), removed)
             && EachAnswered(Adds(before), restored) && Truthful(h, n - 1, Adds(before), restored)
    ensures Run(t, h) == t
  {
    var batches := Decide(before, msg, marking, v).batches;
    var n, cs, remove := |batches|, Commands(batches), PlanFor(before, msg, marking).remove;
    RefusedEndsWith(before, msg, marking, v);
    AnsweredFinishes(h, cs, n - 2, Dels(remove), removed);
    AnsweredFinishes(h, cs, n - 1, Adds(before), restored);
    RefusedModificationLeavesDatapath(before, msg, marking, v, seid, t, h);
  }

  /** Likewise both batches of an accepted message are completed if every command was answered as done. */
  lemma CompletedWhenAnswered(
    written: RuleSet, gone: RuleSet, h: History, writes: seq<Replies>, deletes: seq<Replies>)
    requires Legal(h, Commands([Adds(written), Dels(gone)])) && InIssueOrder(h)
    requires EachAnswered(Adds(written), writes) && Truthful(h, 0, Adds(written), writes)
    requires EachAnswered(Dels(gone), deletes) && Truthful(h, 1, Dels(gone), deletes)
    ensures Completed(h, Images(written), Images(gone))
  {
    var cs := Commands([Adds(written), Dels(gone)]);
    assert cs == [AddCommands(Images(written)), DelCommands(Images(gone))];
    AnsweredFinishes(h, cs, 0, Adds(written), writes);
    AnsweredFinishes(h, cs, 1, Dels(gone), deletes);
  }
}
