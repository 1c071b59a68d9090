/**
 The rule lists of a session: create appends, update replaces the first rule of its ID in place,
 remove takes the first rule of its ID out. PDRs, FARs and QERs are edited alike, so the
 operations are written once, over the function that reads a rule's ID.
 */
module RuleLists {
  import opened Wrappers

  // ----- Specification -----

  /** The position of the first rule with the given ID, or the length of the list. */
  function FirstIndex<R>(rules: seq<R>, id: R -> nat, x: nat): (i: nat)
    ensures i <= |rules|
    ensures i < |rules| ==> id(rules[i]) == x
    ensures forall j :: 0 <= j < i ==> id(rules[j]) != x
  {
    FirstFrom(rules, id, x, 0)
  }

  function FirstFrom<R>(rules: seq<R>, id: R -> nat, x: nat, from: nat): (i: nat)
    requires from <= |rules|
    ensures from <= i <= |rules|
    ensures i < |rules| ==> id(rules[i]) == x
    ensures forall j :: from <= j < i ==> id(rules[j]) != x
    decreases |rules| - from
  {
    if from == |rules| || id(rules[from]) == x then from else FirstFrom(rules, id, x, from + 1)
  }

  lemma FirstIndexUnique<R>(rules: seq<R>, id: R -> nat, x: nat, i: nat)
    requires i < |rules| && id(rules[i]) == x
    requires forall j :: 0 <= j < i ==> id(rules[j]) != x
    ensures FirstIndex(rules, id, x) == i
  {
  }

  function Updated<R>(rules: seq<R>, id: R -> nat, r: R): (rules': seq<R>)
    ensures |rules'| == |rules|
  {
    var i := FirstIndex(rules, id, id(r));
    if i < |rules| then rules[i := r] else rules
  }

  /** A message's updates, in order. Those whose rule is not found are skipped. */
  function AllUpdated<R>(rules: seq<R>, id: R -> nat, updates: seq<R>): (rules': seq<R>)
    ensures |rules'| == |rules|
  {
    if updates == [] then rules
    else
      Updated(AllUpdated(rules, id, updates[..|updates| - 1]), id, updates[|updates| - 1])
  }

  /** The updates that found a rule to replace. */
  function Found<R>(rules: seq<R>, id: R -> nat, updates: seq<R>): (found: seq<R>) {
    if updates == [] then []
    else
      var front := Found(rules, id, updates[..|updates| - 1]);
      var last := updates[|updates| - 1];
      if FirstIndex(rules, id, id(last)) < |rules| then front + [last] else front
  }

  function Without<R>(rules: seq<R>, i: nat): (rules': seq<R>)
    requires i < |rules|
    ensures |rules'| == |rules| - 1
  {
    rules[..i] + rules[i + 1..]
  }

  /** The list after removing, in order, the first rule of each ID; None if one is not found. */
  function AllRemoved<R>(rules: seq<R>, id: R -> nat, ids: seq<nat>): (rules': Option<seq<R>>) {
    if ids == [] then Some(rules)
    else
      match AllRemoved(rules, id, ids[..|ids| - 1])
      case None => None
      case Some(rest) =>
        var i := FirstIndex(rest, id, ids[|ids| - 1]);
        if i < |rest| then Some(Without(rest, i)) else None
  }

  /** The rules so removed. */
  function Removed<R>(rules: seq<R>, id: R -> nat, ids: seq<nat>): (gone: seq<R>)
    requires AllRemoved(rules, id, ids).Some?
    ensures |gone| == |ids|
    ensures forall i :: 0 <= i < |ids| ==> id(gone[i]) == ids[i]
  {
    if ids == [] then []
    else
      var rest := AllRemoved(rules, id, ids[..|ids| - 1]).value;
      Removed(rules, id, ids[..|ids| - 1]) + [rest[FirstIndex(rest, id, ids[|ids| - 1])]]
  }

  // ----- The source's loops -----

  method Update<R>(rules: seq<R>, id: R -> nat, r: R) returns (rules': seq<R>, found: bool)
    ensures rules' == Updated(rules, id, r)
    ensures found <==> FirstIndex(rules, id, id(r)) < |rules|
  {
    for i := 0 to |rules|
      invariant forall j :: 0 <= j < i ==> id(rules[j]) != id(r)
    {
      if id(rules[i]) == id(r) {
        FirstIndexUnique(rules, id, id(r), i);
        return rules[i := r], true;
      }
    }
    return rules, false;
  }

  method Remove<R>(rules: seq<R>, id: R -> nat, x: nat) returns (rules': seq<R>, gone: Option<R>)
    ensures gone.Some? <==> FirstIndex(rules, id, x) < |rules|
    ensures gone.Some? ==>
              && rules' == Without(rules, FirstIndex(rules, id, x))
              && gone.value == rules[FirstIndex(rules, id, x)]
    ensures gone.None? ==> rules' == rules
  {
    for i := 0 to |rules|
      invariant forall j :: 0 <= j < i ==> id(rules[j]) != x
    {
      if id(rules[i]) == x {
        FirstIndexUnique(rules, id, x, i);
        return Without(rules, i), Some(rules[i]);
      }
    }
    return rules, None;
  }

  // ----- What a message changed -----

  /** Updates never change the ID at a position. */
  lemma {:induction false} UpdatesKeepIds<R>(rules: seq<R>, id: R -> nat, updates: seq<R>)
    ensures forall i :: 0 <= i < |rules| ==> id(AllUpdated(rules, id, updates)[i]) == id(rules[i])
  {
    if updates != [] {
      UpdatesKeepIds(rules, id, updates[..|updates| - 1]);
    }
  }

  lemma SameIdsSameIndex<R>(a: seq<R>, b: seq<R>, id: R -> nat, x: nat)
    requires |a| == |b| && forall i :: 0 <= i < |a| ==> id(a[i]) == id(b[i])
    ensures FirstIndex(a, id, x) == FirstIndex(b, id, x)
  {
    var i := FirstIndex(a, id, x);
    if i < |b| {
      FirstIndexUnique(b, id, x, i);
    }
  }

  /** Position i is replaced by one of the updates: it is the first rule of an ID they name. */
  predicate Touches<R>(rules: seq<R>, id: R -> nat, updates: seq<R>, i: nat)
    requires i < |rules|
  {
    && FirstIndex(rules, id, id(rules[i])) == i
    && exists j :: 0 <= j < |updates| && id(updates[j]) == id(rules[i])
  }

  /** The last update that names an ID. */
  function LastNaming<R>(updates: seq<R>, id: R -> nat, x: nat): (u: Option<R>)
    ensures u.None? <==> forall j :: 0 <= j < |updates| ==> id(updates[j]) != x
    ensures u.Some? ==> u.value in updates && id(u.value) == x
  {
    if updates == [] then None
    else if id(updates[|updates| - 1]) == x then Some(updates[|updates| - 1])
    else LastNaming(updates[..|updates| - 1], id, x)
  }

  /** A touched position ends up holding the last update that names its ID; any other is unchanged. */
  lemma {:induction false} UpdatesTouchExactly<R>(rules: seq<R>, id: R -> nat, updates: seq<R>, i: nat)
    requires i < |rules|
    ensures Touches(rules, id, updates, i) ==>
              LastNaming(updates, id, id(rules[i])) == Some(AllUpdated(rules, id, updates)[i])
    ensures !Touches(rules, id, updates, i) ==> AllUpdated(rules, id, updates)[i] == rules[i]
  {
    if updates != [] {
      var n := |updates| - 1;
      var front, last := updates[..n], updates[n];
      UpdatesTouchExactly(rules, id, front, i);
      UpdatesKeepIds(rules, id, front);
      SameIdsSameIndex(rules, AllUpdated(rules, id, front), id, id(last));
      if FirstIndex(rules, id, id(rules[i])) == i {
        assert Touches(rules, id, updates, i) <==> Touches(rules, id, front, i) || id(last) == id(rules[i]) by {
          if id(last) == id(rules[i]) {
            assert id(updates[n]) == id(rules[i]);
          }
          if Touches(rules, id, front, i) {
            var j :| 0 <= j < |front| && id(front[j]) == id(rules[i]);
            assert updates[j] == front[j];
          }
        }
      }
    }
  }

  /** The skipped updates named no rule, so the found ones touch the same positions. */
  lemma {:induction false} FoundTouchesAlike<R>(rules: seq<R>, id: R -> nat, updates: seq<R>, i: nat)
    requires i < |rules|
    ensures Touches(rules, id, updates, i) <==> Touches(rules, id, Found(rules, id, updates), i)
  {
    if FirstIndex(rules, id, id(rules[i])) == i {
      FoundMember(rules, id, updates, id(rules[i]));
    }
  }

  lemma {:induction false} FoundMember<R>(rules: seq<R>, id: R -> nat, updates: seq<R>, x: nat)
    requires FirstIndex(rules, id, x) < |rules|
    ensures (exists j :: 0 <= j < |updates| && id(updates[j]) == x)
       <==> (exists j :: 0 <= j < |Found(rules, id, updates)| && id(Found(rules, id, updates)[j]) == x)
  {
    if updates != [] {
      var n := |updates| - 1;
      var front, last := updates[..n], updates[n];
      FoundMember(rules, id, front, x);
      var found, before := Found(rules, id, updates), Found(rules, id, front);
      if j :| 0 <= j < |updates| && id(updates[j]) == x {
        if j < n {
          assert front[j] == updates[j];
          var k :| 0 <= k < |before| && id(before[k]) == x;
          assert found[k] == before[k];
        } else {
          assert found[|before|] == last;
        }
      }
      if j :| 0 <= j < |found| && id(found[j]) == x {
        if j < |before| {
          assert before[j] == found[j];
          var k :| 0 <= k < |front| && id(front[k]) == x;
          assert updates[k] == front[k];
        } else {
          assert updates[n] == last;
        }
      }
    }
  }

  /** The touched positions below a bound, in ascending order. */
  function TouchedBelow<R>(rules: seq<R>, id: R -> nat, updates: seq<R>, bound: nat): (ps: seq<nat>)
    requires bound <= |rules|
    ensures forall p: nat :: p in ps <==> p < bound && Touches(rules, id, updates, p)
    ensures forall i :: 0 <= i < |ps| ==> ps[i] < bound
    ensures forall i, j :: 0 <= i < j < |ps| ==> ps[i] < ps[j]
  {
    if bound == 0 then []
    else
      var front := TouchedBelow(rules, id, updates, bound - 1);
      if Touches(rules, id, updates, bound - 1) then front + [bound - 1] else front
  }

  function At<R>(rules: seq<R>, positions: seq<nat>): (rs: seq<R>)
    requires forall i :: 0 <= i < |positions| ==> positions[i] < |rules|
    ensures |rs| == |positions|
    ensures forall i :: 0 <= i < |rs| ==> rs[i] == rules[positions[i]]
  {
    seq(|positions|, i requires 0 <= i < |positions| => rules[positions[i]])
  }

  /** The created rules, and then those of the first i kept positions that are touched. */
  function Versions<R>(held: seq<R>, kept: nat, updated: seq<R>, id: R -> nat, i: nat): (rules: seq<R>)
    requires i <= kept <= |held|
  {
    held[kept..] + At(held, TouchedBelow(held, id, updated, i))
  }

  lemma VersionsStep<R>(held: seq<R>, kept: nat, updated: seq<R>, id: R -> nat, i: nat)
    requires i < kept <= |held|
    ensures Versions(held, kept, updated, id, i + 1)
         == Versions(held, kept, updated, id, i) + if Touches(held, id, updated, i) then [held[i]] else []
  {
    var ps := TouchedBelow(held, id, updated, i);
    if Touches(held, id, updated, i) {
      assert At(held, ps + [i]) == At(held, ps) + [held[i]];
    }
  }

  /**
   The rules a message created or updated, as the session holds them: everything past kept, then
   exactly the touched positions before it. held is the list after the message's updates.
   */
  method HeldVersions<R>(held: seq<R>, kept: nat, updated: seq<R>, id: R -> nat) returns (rules: seq<R>, created: nat)
    requires kept <= |held|
    ensures created == |held| - kept
    ensures rules == Versions(held, kept, updated, id, kept)
  {
    rules := held[kept..];
    created := |rules|;
    var seen: map<nat, bool> := map[];
    for i := 0 to kept
      invariant forall x :: x in seen <==> FirstIndex(held, id, x) < i
      invariant rules == Versions(held, kept, updated, id, i)
    {
      VersionsStep(held, kept, updated, id, i);
      var r := held[i];
      if id(r) in seen {
        continue;
      }
      seen := seen[id(r) := true];
      var named := IsNamed(updated, id, id(r));
      if named {
        rules := rules + [r];
      }
    }
  }

  method IsNamed<R>(updated: seq<R>, id: R -> nat, x: nat) returns (named: bool)
    ensures named <==> exists j :: 0 <= j < |updated| && id(updated[j]) == x
  {
    for j := 0 to |updated|
      invariant forall k :: 0 <= k < j ==> id(updated[k]) != x
    {
      if id(updated[j]) == x {
        return true;
      }
    }
    return false;
  }

  /**
   HeldVersions is sound and complete: with held the updated list and updated the updates that
   found their rule, it lists the created rules and exactly the kept positions that an update
   changed, each in its final version.
   */
  lemma HeldPositionsAreTouched<R>(list: seq<R>, id: R -> nat, updates: seq<R>, kept: nat, i: nat)
    requires kept <= |list| && i < kept
    ensures var held := AllUpdated(list, id, updates);
            i in TouchedBelow(held, id, Found(list, id, updates), kept) <==> Touches(list, id, updates, i)
    ensures !Touches(list, id, updates, i) ==> AllUpdated(list, id, updates)[i] == list[i]
    ensures Touches(list, id, updates, i) ==>
              LastNaming(updates, id, id(list[i])) == Some(AllUpdated(list, id, updates)[i])
  {
    var held, found := AllUpdated(list, id, updates), Found(list, id, updates);
    UpdatesTouchExactly(list, id, updates, i);
    FoundTouchesAlike(list, id, updates, i);
    UpdatesKeepIds(list, id, updates);
    SameIdsSameIndex(list, held, id, id(list[i]));
    assert Touches(held, id, found, i) <==> Touches(list, id, found, i);
  }
}
