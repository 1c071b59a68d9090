/**
 Restoring the datapath after a refused modification: remove what the message created or moved,
 then write the rules the session had. The earlier batches may have taken effect in part, in any
 order, and their commands may still be landing while the restore runs, as long as commands on
 one key take effect in issue order.
 */
module Rollback {
  import opened Rules
  import opened Datapath

  /** The datapath holds the rules exactly, and nothing else under the keys the batches name. */
  ghost predicate InStep(t: Table, rules: set<Image>, batches: seq<set<Command>>) {
    && (forall r, k :: r in rules && k in r ==> k in t && t[k] == r[k])
    && (forall b, c :: 0 <= b < |batches| && c in batches[b] && c.key !in KeysOf(rules) ==> c.key !in t)
  }

  /** The last two batches remove one set of rules and then write another; earlier writes are covered by the two. */
  ghost predicate RestoresLast(batches: seq<set<Command>>, before: set<Image>, remove: set<Image>) {
    var n := |batches|;
    && n >= 2
    && batches[n - 1] == AddCommands(before)
    && batches[n - 2] == DelCommands(remove)
    && forall b, c :: 0 <= b < n - 2 && c in batches[b] && c.Put? ==> c.key in KeysOf(before) || c.key in KeysOf(remove)
  }

  ghost predicate LastTwoFinish(h: History, batches: seq<set<Command>>) {
    |batches| >= 2 && Finished(h, batches, |batches| - 2) && Finished(h, batches, |batches| - 1)
  }

  /** A key the session had ends with what one of the session's rules writes there. */
  lemma RestoredKey(t: Table, h: History, batches: seq<set<Command>>, before: set<Image>, remove: set<Image>, r: Image, k: Key)
    returns (s: Image)
    requires RestoresLast(batches, before, remove)
    requires Legal(h, batches) && InIssueOrder(h) && LastTwoFinish(h, batches)
    requires r in before && k in r
    ensures s in before && k in s && k in Run(t, h) && Run(t, h)[k] == s[k]
  {
    var n := |batches|;
    var i := LastInLatestBatch(h, batches, n - 1, Put(k, r[k]));
    LastCommandDecides(t, h, k, i);
    s :| s in before && k in s && h[i].cmd == Put(k, s[k]);
  }

  lemma ForeignLastIsDel(h: History, batches: seq<set<Command>>, before: set<Image>, remove: set<Image>, k: Key, i: nat)
    requires RestoresLast(batches, before, remove)
    requires Legal(h, batches) && InIssueOrder(h) && LastTwoFinish(h, batches)
    requires k !in KeysOf(before) && LastOn(h, k, i)
    ensures h[i].cmd.Del?
  {
    var n, b, c := |batches|, h[i].batch, h[i].cmd;
    assert c in batches[b];
    if k in KeysOf(remove) {
      var j := LastInLatestBatch(h, batches, n - 2, Del(k));
      assert j == i;
    }
  }

  /** A key the session did not have is as it was: absent, if any command names it. */
  lemma ForeignKey(t: Table, h: History, batches: seq<set<Command>>, before: set<Image>, remove: set<Image>, k: Key)
    requires RestoresLast(batches, before, remove) && InStepOutside(t, before, batches)
    requires Legal(h, batches) && InIssueOrder(h) && LastTwoFinish(h, batches)
    requires k !in KeysOf(before)
    ensures k in Run(t, h) <==> k in t
    ensures k in t ==> Run(t, h)[k] == t[k]
  {
    if exists j :: 0 <= j < |h| && h[j].cmd.key == k {
      var i := FindLast(h, k);
      ForeignLastIsDel(h, batches, before, remove, k, i);
      LastCommandDecides(t, h, k, i);
    } else {
      UnnamedKeyUnchanged(t, h, k);
    }
  }

  /** Nothing is held under a named key that the session does not have. */
  ghost predicate InStepOutside(t: Table, rules: set<Image>, batches: seq<set<Command>>) {
    forall b, c :: 0 <= b < |batches| && c in batches[b] && c.key !in KeysOf(rules) ==> c.key !in t
  }

  /** Whatever the earlier batches did, the datapath ends exactly where it started. */
  lemma RestoreIsExact(t: Table, h: History, batches: seq<set<Command>>, before: set<Image>, remove: set<Image>)
    requires RestoresLast(batches, before, remove) && InStep(t, before, batches)
    requires Legal(h, batches) && InIssueOrder(h) && LastTwoFinish(h, batches)
    ensures Run(t, h) == t
  {
    var t' := Run(t, h);
    forall k
      ensures k in t' <==> k in t
      ensures k in t ==> t'[k] == t[k]
    {
      if k in KeysOf(before) {
        var r :| r in before && k in r;
        var s := RestoredKey(t, h, batches, before, remove, r, k);
      } else {
        ForeignKey(t, h, batches, before, remove, k);
      }
    }
  }

  // ----- When the restore is exact -----

  /** The table holds, under every key of the rules, what one of them writes there. */
  ghost predicate Written(t: Table, rules: set<Image>, batches: seq<set<Command>>) {
    && (forall k :: k in KeysOf(rules) ==> k in t && exists r :: r in rules && k in r && t[k] == r[k])
    && InStepOutside(t, rules, batches)
  }

  /** The commands of a batch, each once. */
  lemma {:induction false} SeqOfSet(cs: set<Command>, b: nat) returns (h: History)
    ensures forall c :: c in cs <==> Issued(b, c) in h
    ensures Once(h) && forall i :: 0 <= i < |h| ==> h[i].batch == b && h[i].cmd in cs
    decreases cs
  {
    if cs == {} {
      h := [];
    } else {
      var c :| c in cs;
      var front := SeqOfSet(cs - {c}, b);
      h := front + [Issued(b, c)];
      forall d
        ensures d in cs <==> Issued(b, d) in h
      {
        assert d in cs - {c} <==> Issued(b, d) in front;
      }
      assert Issued(b, c) !in front;
    }
  }

  lemma AgreeingRulesInStep(t: Table, rules: set<Image>, batches: seq<set<Command>>)
    requires Agree(rules) && Written(t, rules, batches)
    ensures InStep(t, rules, batches)
  {
    forall r, k | r in rules && k in r
      ensures k in t && t[k] == r[k]
    {
      assert k in KeysOf(rules);
    }
  }

  ghost predicate AlwaysExact(t: Table, batches: seq<set<Command>>) {
    forall h :: Legal(h, batches) && InIssueOrder(h) && Once(h) && LastTwoFinish(h, batches) ==> Run(t, h) == t
  }

  /** A run of the last two batches in which the given command comes last, and each command once. */
  lemma RunEndingWith(batches: seq<set<Command>>, c: Command) returns (h: History)
    requires |batches| >= 2 && c in batches[|batches| - 1]
    ensures Legal(h, batches) && InIssueOrder(h) && Once(h) && LastTwoFinish(h, batches)
    ensures h != [] && h[|h| - 1].cmd == c
  {
    var n := |batches|;
    var removes, adds := batches[n - 2], batches[n - 1];
    var first := SeqOfSet(removes, n - 2);
    var second := SeqOfSet(adds - {c}, n - 1);
    assert Issued(n - 1, c) !in second;
    h := first + second + [Issued(n - 1, c)];
    assert forall d :: d in removes ==> Issued(n - 2, d) in first;
    forall d | d in adds
      ensures Issued(n - 1, d) in h
    {
      assert d == c || d in adds - {c};
    }
  }

  /**
   The restore is exact in every run if and only if the rules the session had agree wherever two
   of them share a datapath key.
   */
  lemma RestoreExactIffRulesAgree(t: Table, batches: seq<set<Command>>, before: set<Image>, remove: set<Image>)
    requires RestoresLast(batches, before, remove) && Written(t, before, batches)
    ensures AlwaysExact(t, batches) <==> Agree(before)
  {
    if Agree(before) {
      AgreeingRulesInStep(t, before, batches);
      forall h | Legal(h, batches) && InIssueOrder(h) && Once(h) && LastTwoFinish(h, batches)
        ensures Run(t, h) == t
      {
        RestoreIsExact(t, h, batches, before, remove);
      }
    } else {
      var h := DisagreeingRun(t, batches, before);
    }
  }

  lemma DisagreeingRun(t: Table, batches: seq<set<Command>>, before: set<Image>) returns (h: History)
    requires |batches| >= 2 && batches[|batches| - 1] == AddCommands(before)
    requires KeysOf(before) <= t.Keys && !Agree(before)
    ensures Legal(h, batches) && InIssueOrder(h) && Once(h) && LastTwoFinish(h, batches) && Run(t, h) != t
  {
    var r, s, k :| r in before && s in before && k in r && k in s && r[k] != s[k];
    assert k in KeysOf(before);
    var other := if t[k] == r[k] then s else r;
    assert Put(k, other[k]) in AddCommands(before);
    h := RunEndingWith(batches, Put(k, other[k]));
    LastCommandDecides(t, h, k, |h| - 1);
    assert Run(t, h)[k] != t[k];
  }
}
