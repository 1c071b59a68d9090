/**
 The choice of a session's session-level QER. The IDs of the last PDR's list are narrowed by the list of
 every PDR in turn, and of the QERs that are candidates and guarantee no rate the one with the greatest
 uplink limit is chosen. Narrowing overwrites only the front of the list, so IDs that are not common to
 all PDRs can stay candidates.
 */
module QerMarking {
  import opened Wrappers
  import opened Rules

  /** The QER marked as the session's, by its place, and the ID that moves to the end of the PDRs' lists. */
  datatype Choice = NoSessionQer | SessionQer(at: nat, id: nat)

  // ----- Narrowing -----

  /** The elements of a list that are also in another, in order. */
  function Common(a: seq<nat>, b: seq<nat>): (r: seq<nat>)
    ensures |r| <= |a|
    ensures forall x :: x in r <==> x in a && x in b
  {
    if a == [] then []
    else
      var front := Common(a[..|a| - 1], b);
      assert a == a[..|a| - 1] + [a[|a| - 1]];
      if a[|a| - 1] in b then front + [a[|a| - 1]] else front
  }

  method Intersect(a: seq<nat>, b: seq<nat>) returns (r: seq<nat>)
    ensures r == Common(a, b)
  {
    r := [];
    for i := 0 to |a|
      invariant r == Common(a[..i], b)
    {
      assert a[..i + 1][..i] == a[..i];
      if a[i] in b {
        r := r + [a[i]];
      }
    }
    assert a[..|a|] == a;
  }

  /** The candidates after the given lists: what is common overwrites the front, and the rest stays. */
  function Narrowed(ids: seq<nat>, lists: seq<seq<nat>>): (r: Option<seq<nat>>)
    ensures r.Some? ==> |r.value| == |ids|
  {
    if lists == [] then Some(ids)
    else
      match Narrowed(ids, lists[..|lists| - 1])
      case None => None
      case Some(c) =>
        var s := Common(c, lists[|lists| - 1]);
        if s == [] then None else Some(s + c[|s|..])
  }

  predicate InAll(x: nat, lists: seq<seq<nat>>) {
    forall i :: 0 <= i < |lists| ==> x in lists[i]
  }

  /** An ID common to all lists stays a candidate, and a candidate was one to begin with. */
  lemma {:induction false} CommonStays(ids: seq<nat>, lists: seq<seq<nat>>, x: nat)
    ensures x in ids && InAll(x, lists) ==> Narrowed(ids, lists).Some? && x in Narrowed(ids, lists).value
    ensures Narrowed(ids, lists).Some? && x in Narrowed(ids, lists).value ==> x in ids
  {
    if lists != [] {
      var n := |lists| - 1;
      CommonStays(ids, lists[..n], x);
      if InAll(x, lists) {
        assert InAll(x, lists[..n]);
      }
      if Narrowed(ids, lists).Some? && x in Narrowed(ids, lists).value {
        var c := Narrowed(ids, lists[..n]).value;
        var s := Common(c, lists[n]);
        if x in c[|s|..] {
          assert x in c;
        }
      }
    }
  }

  /** If every list has all of the IDs nothing changes. */
  lemma {:induction false} SharedByAll(ids: seq<nat>, lists: seq<seq<nat>>)
    requires ids != [] && forall x :: x in ids ==> InAll(x, lists)
    ensures Narrowed(ids, lists) == Some(ids)
  {
    if lists != [] {
      var n := |lists| - 1;
      forall x | x in ids
        ensures InAll(x, lists[..n]) && x in lists[n]
      {
        assert InAll(x, lists);
      }
      SharedByAll(ids, lists[..n]);
      CommonOfAll(ids, lists[n]);
      assert ids + ids[|ids|..] == ids;
    }
  }

  lemma {:induction false} CommonOfAll(a: seq<nat>, b: seq<nat>)
    requires forall x :: x in a ==> x in b
    ensures Common(a, b) == a
  {
    if a != [] {
      CommonOfAll(a[..|a| - 1], b);
      assert a == a[..|a| - 1] + [a[|a| - 1]];
    }
  }

  // ----- The choice -----

  /** A candidate that guarantees no rate. */
  predicate Eligible(q: Qer, ids: seq<nat>) {
    q.qerID in ids && q.uplink.gbr == 0 && q.downlink.gbr == 0
  }

  /** The eligible QER with the greatest uplink limit, the last of them if several have it. */
  ghost predicate IsBest(qers: seq<Qer>, ids: seq<nat>, i: nat) {
    && i < |qers| && Eligible(qers[i], ids)
    && (forall j :: 0 <= j < |qers| && Eligible(qers[j], ids) ==> qers[j].uplink.mbr <= qers[i].uplink.mbr)
    && (forall j :: i < j < |qers| && Eligible(qers[j], ids) ==> qers[j].uplink.mbr < qers[i].uplink.mbr)
  }

  ghost predicate NoneEligible(qers: seq<Qer>, ids: seq<nat>) {
    forall j :: 0 <= j < |qers| ==> !Eligible(qers[j], ids)
  }

  /** The candidates of a session, if its PDRs and QERs call for a choice at all. */
  function Candidates(lists: seq<seq<nat>>, qers: seq<Qer>): (ids: Option<seq<nat>>) {
    if lists == [] || lists[|lists| - 1] == [] || |qers| < 2 then None else Narrowed(lists[|lists| - 1], lists)
  }

  method Narrow(lists: seq<seq<nat>>) returns (ids: Option<seq<nat>>)
    requires lists != []
    ensures ids == Narrowed(lists[|lists| - 1], lists)
  {
    var c := lists[|lists| - 1];
    for i := 0 to |lists|
      invariant Narrowed(lists[|lists| - 1], lists[..i]) == Some(c)
    {
      assert lists[..i + 1][..i] == lists[..i];
      var s := Intersect(c, lists[i]);
      if |s| == 0 {
        NothingLeft(lists[|lists| - 1], lists, i + 1);
        return None;
      }
      c := s + c[|s|..];
    }
    assert lists[..|lists|] == lists;
    return Some(c);
  }

  lemma {:induction false} NothingLeft(ids: seq<nat>, lists: seq<seq<nat>>, n: nat)
    requires n <= |lists| && Narrowed(ids, lists[..n]).None?
    ensures Narrowed(ids, lists).None?
  {
    if n < |lists| {
      assert lists[..|lists| - 1][..n] == lists[..n];
      NothingLeft(ids, lists[..|lists| - 1], n);
    } else {
      assert lists[..n] == lists;
    }
  }

  /**
   Chooses the session QER. If no candidate is eligible the first QER of the list is marked all the
   same, and the ID zero stands for it.
   */
  method Choose(lists: seq<seq<nat>>, qers: seq<Qer>) returns (choice: Choice)
    ensures choice.NoSessionQer? <==> Candidates(lists, qers).None?
    ensures choice.SessionQer? ==>
              var ids := Candidates(lists, qers).value;
              || (IsBest(qers, ids, choice.at) && choice.id == qers[choice.at].qerID)
              || (NoneEligible(qers, ids) && choice == SessionQer(0, 0))
    // Some candidate guarantees no rate in either direction exactly if one such is chosen.
    ensures choice.SessionQer? ==>
              var ids, chosen := Candidates(lists, qers).value, qers[choice.at];
              (exists q :: q in qers && q.qerID in ids && q.uplink.gbr == 0 && q.downlink.gbr == 0) <==>
              chosen.qerID in ids && chosen.uplink.gbr == 0 && chosen.downlink.gbr == 0
  {
    if |lists| < 1 || |lists[|lists| - 1]| < 1 || |qers| < 2 {
      return NoSessionQer;
    }
    var narrowed := Narrow(lists);
    if narrowed.None? {
      return NoSessionQer;
    }
    var ids, at, id, mbr, found := narrowed.value, 0, 0, 0, false;
    for i := 0 to |qers|
      invariant !found ==> at == 0 && id == 0 && mbr == 0 && NoneEligible(qers[..i], ids)
      invariant found ==> IsBest(qers[..i], ids, at) && id == qers[at].qerID && mbr == qers[at].uplink.mbr
    {
      if qers[i].qerID in ids && !(qers[i].uplink.gbr > 0 || qers[i].downlink.gbr > 0) && qers[i].uplink.mbr >= mbr {
        at, id, mbr, found := i, qers[i].qerID, qers[i].uplink.mbr, true;
      }
    }
    assert qers[..|qers|] == qers;
    return SessionQer(at, id);
  }

  // ----- When the choice is common to all PDRs -----

  /** Of two QERs the one that would be chosen. */
  predicate Beats(qers: seq<Qer>, i: nat, j: nat)
    requires i < |qers| && j < |qers|
  {
    qers[j].uplink.mbr < qers[i].uplink.mbr || (qers[j].uplink.mbr == qers[i].uplink.mbr && j < i)
  }

  /**
   The QER chosen is in every PDR's list if and only if some eligible one is that beats every eligible
   candidate that is not.
   */
  lemma ChosenIsCommonIff(lists: seq<seq<nat>>, qers: seq<Qer>, i: nat)
    requires Candidates(lists, qers).Some? && IsBest(qers, Candidates(lists, qers).value, i)
    ensures var ids := Candidates(lists, qers).value;
            InAll(qers[i].qerID, lists) <==>
            exists j: nat :: j < |qers| && Eligible(qers[j], ids) && InAll(qers[j].qerID, lists)
                             && forall l: nat :: l < |qers| && Eligible(qers[l], ids) && !InAll(qers[l].qerID, lists) ==> Beats(qers, j, l)
  {
    var ids := Candidates(lists, qers).value;
    if InAll(qers[i].qerID, lists) {
      forall l: nat | l < |qers| && Eligible(qers[l], ids) && l != i
        ensures Beats(qers, i, l)
      {
      }
    }
  }

  /** So it is whenever all PDRs have the IDs of the last one. */
  lemma SharedChoiceIsCommon(lists: seq<seq<nat>>, qers: seq<Qer>, i: nat)
    requires Candidates(lists, qers).Some? && IsBest(qers, Candidates(lists, qers).value, i)
    requires forall x :: x in lists[|lists| - 1] ==> InAll(x, lists)
    ensures InAll(qers[i].qerID, lists)
  {
    SharedByAll(lists[|lists| - 1], lists);
  }

  function Plain(id: nat, mbr: nat, gbr: nat): (q: Qer) {
    Qer(id, 0, ApplicationQos, 0, Rates(0, mbr, gbr), Rates(0, mbr, 0))
  }

  /** The first PDR has QER 1, the last QERs 1 and 2. QER 2 stays a candidate, and its greater limit makes it the session's. */
  lemma StaleCandidateIsChosen()
    ensures var lists, qers := [[1], [1, 2]], [Plain(1, 10, 0), Plain(2, 20, 0)];
            && Candidates(lists, qers) == Some([1, 2]) && IsBest(qers, [1, 2], 1)
            && qers[1].qerID == 2 && !InAll(2, lists)
  {
    var lists: seq<seq<nat>> := [[1], [1, 2]];
    assert lists[..1] == [[1]] && lists[..1][..0] == [];
    CommonOfOneAndTwo();
    assert Narrowed([1, 2], [[1]]) == Some([1] + [1, 2][1..]);
    assert [1] + [1, 2][1..] == [1, 2];
    CommonOfAll([1, 2], [1, 2]);
    assert [1, 2] + [1, 2][2..] == [1, 2];
    assert lists[0] == [1];
  }

  lemma CommonOfOneAndTwo()
    ensures Common([1, 2], [1]) == [1]
  {
    assert [1, 2][..1] == [1] && [1][..0] == [];
    assert Common([1], [1]) == [1];
  }

  /** All candidates guarantee a rate: QER 7, which no PDR refers to, is marked as the session's. */
  lemma UnrelatedQerIsMarked()
    ensures var lists, qers := [[1]], [Plain(7, 10, 0), Plain(1, 20, 5)];
            && Candidates(lists, qers) == Some([1]) && NoneEligible(qers, [1])
            && qers[0].qerID == 7 && !InAll(7, lists)
  {
    var lists: seq<seq<nat>> := [[1]];
    assert lists[..0] == [];
    CommonOfAll([1], [1]);
    assert [1] + [1][1..] == [1];
    assert lists[0] == [1];
  }
}
