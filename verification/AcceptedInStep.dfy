/**
 When an accepted modification leaves the datapath with exactly the rules the session is left with,
 entries and values, in terms of the rules the session had and the message.
 */
module AcceptedInStep {
  import opened Wrappers
  import opened Rules
  import opened RuleLists
  import opened Datapath
  import opened Modification
  import opened ModificationSafety
  import opened AcceptedModification
  import opened Changes

  const PdrImage: Pdr -> Image := (p: Pdr) => Entries(PdrRule(p))
  const FarImage: Far -> Image := (f: Far) => Entries(FarRule(f))
  const QerImage: Qer -> Image := (q: Qer) => Entries(QerRule(q))

  // ----- The changes of one kind of rule -----

  /** The changes of a list, given the kept positions that were written and the positions removed. */
  ghost function KindChanges<R>(before: seq<R>, held: seq<R>, touched: seq<nat>, gone: seq<nat>, image: R -> Image): (cs: seq<Change>)
    requires |before| <= |held|
    ensures |cs| == |held|
    ensures forall i: nat :: i < |cs| ==>
              cs[i] == Change(if i < |before| then Some(image(before[i])) else None, image(held[i]),
                              i >= |before| || i in touched, i in gone)
  {
    seq(|held|, i requires 0 <= i < |held| =>
      Change(if i < |before| then Some(image(before[i])) else None, image(held[i]), i >= |before| || i in touched, i in gone))
  }

  ghost function ImagesOf<R(!new)>(rules: seq<R>, image: R -> Image): (images: set<Image>) {
    set r | r in rules :: image(r)
  }

  lemma OldImages<R(!new)>(before: seq<R>, held: seq<R>, touched: seq<nat>, qs: seq<nat>, image: R -> Image)
    requires |before| <= |held|
    ensures Olds(KindChanges(before, held, touched, qs, image)) == ImagesOf(before, image)
  {
    var cs := KindChanges(before, held, touched, qs, image);
    forall r | r in before
      ensures image(r) in Olds(cs)
    {
      var i: nat :| i < |before| && before[i] == r;
      assert cs[i] in cs;
    }
  }

  lemma WrittenImages<R(!new)>(before: seq<R>, held: seq<R>, touched: seq<nat>, qs: seq<nat>, image: R -> Image)
    requires |before| <= |held| && forall i :: 0 <= i < |touched| ==> touched[i] < |before|
    ensures Writes(KindChanges(before, held, touched, qs, image)) == ImagesOf(held[|before|..] + At(held, touched), image)
  {
    var cs, written := KindChanges(before, held, touched, qs, image), held[|before|..] + At(held, touched);
    forall r | r in written
      ensures image(r) in Writes(cs)
    {
      var i: nat :| i < |written| && written[i] == r;
      var n := |held| - |before|;
      var x := if i < n then |before| + i else touched[i - n];
      assert cs[x] in cs && cs[x].written && cs[x].now == image(r);
    }
    forall m | m in Writes(cs)
      ensures m in ImagesOf(written, image)
    {
      var c :| c in cs && c.written && c.now == m;
      var x: nat :| x < |cs| && cs[x] == c;
      if x >= |before| {
        assert held[|before|..][x - |before|] == held[x];
        assert held[x] in written;
      } else {
        var i: nat :| i < |touched| && touched[i] == x;
        assert At(held, touched)[i] == held[x];
        assert held[x] in written;
      }
    }
  }

  lemma RestImages<R(!new)>(before: seq<R>, held: seq<R>, touched: seq<nat>, ps: seq<nat>, qs: seq<nat>, image: R -> Image)
    requires |before| <= |held| && Splits(ps, qs, |held|)
    ensures Rests(KindChanges(before, held, touched, qs, image)) == ImagesOf(At(held, ps), image)
    ensures Gones(KindChanges(before, held, touched, qs, image)) == ImagesOf(At(held, qs), image)
  {
    var cs := KindChanges(before, held, touched, qs, image);
    forall i: nat | i < |ps|
      ensures image(held[ps[i]]) in Rests(cs)
    {
      assert ps[i] in ps && cs[ps[i]] in cs;
    }
    forall i: nat | i < |qs|
      ensures image(held[qs[i]]) in Gones(cs)
    {
      assert qs[i] in qs && cs[qs[i]] in cs;
    }
    forall x: nat | x < |cs|
      ensures x in ps ==> held[x] in At(held, ps)
      ensures x in qs ==> held[x] in At(held, qs)
    {
      if x in ps {
        var i: nat :| i < |ps| && ps[i] == x;
        assert At(held, ps)[i] == held[x];
      } else {
        var i: nat :| i < |qs| && qs[i] == x;
        assert At(held, qs)[i] == held[x];
      }
    }
  }

  lemma ConcatChanges(a: seq<Change>, b: seq<Change>)
    ensures Olds(a + b) == Olds(a) + Olds(b) && Writes(a + b) == Writes(a) + Writes(b)
    ensures Gones(a + b) == Gones(a) + Gones(b) && Rests(a + b) == Rests(a) + Rests(b)
  {
    assert forall c :: c in a + b <==> c in a || c in b;
  }

  // ----- The changes of a message -----

  /** Where the rules left and the rules removed stand in the list the session held. */
  datatype Cut = Cut(ps: seq<nat>, qs: seq<nat>)

  ghost predicate Cuts<R>(cut: Cut, held: seq<R>, gone: seq<R>, rest: seq<R>) {
    Splits(cut.ps, cut.qs, |held|) && rest == At(held, cut.ps) && gone == At(held, cut.qs)
  }

  /** The kept positions that the message wrote. */
  ghost function WrittenAt<R>(before: seq<R>, creates: seq<R>, updates: seq<R>, held: seq<R>, id: R -> nat): (ps: seq<nat>)
    requires |held| == |before| + |creates|
  {
    TouchedBelow(held, id, Found(before + creates, id, updates), |before|)
  }

  ghost function ChangesOf<R>(
    before: seq<R>, creates: seq<R>, updates: seq<R>, held: seq<R>, id: R -> nat, image: R -> Image, cut: Cut): (cs: seq<Change>)
    requires |held| == |before| + |creates|
    ensures |cs| == |held|
  {
    KindChanges(before, held, WrittenAt(before, creates, updates, held, id), cut.qs, image)
  }

  lemma KindImages<R(!new)>(
    before: seq<R>, creates: seq<R>, updates: seq<R>, held: seq<R>, id: R -> nat, image: R -> Image, cut: Cut,
    gone: seq<R>, rest: seq<R>)
    requires |held| == |before| + |creates| && Cuts(cut, held, gone, rest)
    ensures var cs := ChangesOf(before, creates, updates, held, id, image, cut);
            && Olds(cs) == ImagesOf(before, image)
            && Writes(cs) == ImagesOf(Touched(before, creates, updates, held, id), image)
            && Gones(cs) == ImagesOf(gone, image) && Rests(cs) == ImagesOf(rest, image)
  {
    var touched := WrittenAt(before, creates, updates, held, id);
    OldImages(before, held, touched, cut.qs, image);
    WrittenImages(before, held, touched, cut.qs, image);
    RestImages(before, held, touched, cut.ps, cut.qs, image);
  }

  lemma ImagesByKind(rs: RuleSet)
    ensures Images(rs) == ImagesOf(rs.pdrs, PdrImage) + ImagesOf(rs.fars, FarImage) + ImagesOf(rs.qers, QerImage)
  {
    assert ImagesOf(rs.pdrs, PdrImage) == set p | p in rs.pdrs :: Entries(PdrRule(p));
    assert ImagesOf(rs.fars, FarImage) == set f | f in rs.fars :: Entries(FarRule(f));
    assert ImagesOf(rs.qers, QerImage) == set q | q in rs.qers :: Entries(QerRule(q));
  }

  ghost function PdrChanges(before: RuleSet, msg: Message, held: RuleSet, cut: Cut): (cs: seq<Change>)
    requires Parses(msg) && |held.pdrs| == |before.pdrs| + |msg.createPdrs|
    ensures |cs| == |held.pdrs|
  {
    ChangesOf(before.pdrs, Values(msg.createPdrs), Values(msg.updatePdrs), held.pdrs, PdrId, PdrImage, cut)
  }

  ghost function FarChanges(before: RuleSet, msg: Message, held: RuleSet, cut: Cut): (cs: seq<Change>)
    requires Parses(msg) && |held.fars| == |before.fars| + |msg.createFars|
    ensures |cs| == |held.fars|
  {
    ChangesOf(before.fars, Values(msg.createFars), Values(msg.updateFars), held.fars, FarId, FarImage, cut)
  }

  ghost function QerChanges(before: RuleSet, msg: Message, held: RuleSet, cut: Cut): (cs: seq<Change>)
    requires Parses(msg) && |held.qers| == |before.qers| + |msg.createQers|
    ensures |cs| == |held.qers|
  {
    ChangesOf(before.qers, Values(msg.createQers), Values(msg.updateQers), held.qers, QerId, QerImage, cut)
  }

  /** The lists the session held are of the session's and the created rules, and the rest is cut out of them. */
  ghost predicate CutsOf(before: RuleSet, msg: Message, held: RuleSet, gone: RuleSet, rest: RuleSet, p: Cut, f: Cut, q: Cut) {
    && |held.pdrs| == |before.pdrs| + |msg.createPdrs| && Cuts(p, held.pdrs, gone.pdrs, rest.pdrs)
    && |held.fars| == |before.fars| + |msg.createFars| && Cuts(f, held.fars, gone.fars, rest.fars)
    && |held.qers| == |before.qers| + |msg.createQers| && Cuts(q, held.qers, gone.qers, rest.qers)
  }

  lemma FindCuts(before: RuleSet, msg: Message, marking: Marking, written: RuleSet, gone: RuleSet, rest: RuleSet)
    returns (p: Cut, f: Cut, q: Cut)
    requires Accepts(before, msg, marking, written, gone, rest)
    ensures CutsOf(before, msg, PlanFor(before, msg, marking).held, gone, rest, p, f, q)
  {
    var held := PlanFor(before, msg, marking).held;
    var ps, qs := RemovedPositions(held.pdrs, PdrId, Values(msg.removePdrs));
    p := Cut(ps, qs);
    ps, qs := RemovedPositions(held.fars, FarId, Values(msg.removeFars));
    f := Cut(ps, qs);
    ps, qs := RemovedPositions(held.qers, QerId, Values(msg.removeQers));
    q := Cut(ps, qs);
  }

  ghost function AllChanges(before: RuleSet, msg: Message, held: RuleSet, gone: RuleSet, rest: RuleSet, p: Cut, f: Cut, q: Cut): (cs: seq<Change>)
    requires Parses(msg) && CutsOf(before, msg, held, gone, rest, p, f, q)
  {
    PdrChanges(before, msg, held, p) + FarChanges(before, msg, held, f) + QerChanges(before, msg, held, q)
  }

  lemma AllImages(before: RuleSet, msg: Message, held: RuleSet, gone: RuleSet, rest: RuleSet, p: Cut, f: Cut, q: Cut)
    requires Parses(msg) && CutsOf(before, msg, held, gone, rest, p, f, q)
    ensures var cs := AllChanges(before, msg, held, gone, rest, p, f, q);
            && Olds(cs) == Images(before) && Writes(cs) == Images(Written(before, msg, held))
            && Gones(cs) == Images(gone) && Rests(cs) == Images(rest)
  {
    var pc, fc, qc := PdrChanges(before, msg, held, p), FarChanges(before, msg, held, f), QerChanges(before, msg, held, q);
    KindImages(before.pdrs, Values(msg.createPdrs), Values(msg.updatePdrs), held.pdrs, PdrId, PdrImage, p, gone.pdrs, rest.pdrs);
    KindImages(before.fars, Values(msg.createFars), Values(msg.updateFars), held.fars, FarId, FarImage, f, gone.fars, rest.fars);
    KindImages(before.qers, Values(msg.createQers), Values(msg.updateQers), held.qers, QerId, QerImage, q, gone.qers, rest.qers);
    ConcatChanges(pc, fc);
    ConcatChanges(pc + fc, qc);
    ImagesByKind(before);
    ImagesByKind(Written(before, msg, held));
    ImagesByKind(gone);
    ImagesByKind(rest);
  }

  // ----- Rules that share no key -----

  ghost predicate NamedAt<R>(before: seq<R>, held: seq<R>, image: R -> Image, i: nat, k: Key)
    requires |before| <= |held| && i < |held|
  {
    k in image(held[i]) || (i < |before| && k in image(before[i]))
  }

  /** No key belongs to two rules of a list, in the versions before and after the message. */
  ghost predicate KeysApart<R>(before: seq<R>, held: seq<R>, image: R -> Image) {
    && |before| <= |held|
    && forall i: nat, j: nat, k :: i < j < |held| && NamedAt(before, held, image, i, k) ==> !NamedAt(before, held, image, j, k)
  }

  ghost predicate RulesApart(before: RuleSet, held: RuleSet) {
    && KeysApart(before.pdrs, held.pdrs, PdrImage)
    && KeysApart(before.fars, held.fars, FarImage)
    && KeysApart(before.qers, held.qers, QerImage)
  }

  lemma KindSeparate<R>(
    before: seq<R>, creates: seq<R>, updates: seq<R>, held: seq<R>, id: R -> nat, image: R -> Image, cut: Cut)
    requires |held| == |before| + |creates| && KeysApart(before, held, image)
    ensures Separate(ChangesOf(before, creates, updates, held, id, image, cut))
  {
    var cs := ChangesOf(before, creates, updates, held, id, image, cut);
    forall i: nat, k | i < |cs|
      ensures cs[i].Names(k) <==> NamedAt(before, held, image, i, k)
    {
    }
  }

  lemma SeparateConcat(a: seq<Change>, b: seq<Change>)
    requires Separate(a) && Separate(b)
    requires forall i, j, k :: 0 <= i < |a| && 0 <= j < |b| && a[i].Names(k) ==> !b[j].Names(k)
    ensures Separate(a + b)
  {
  }

  lemma ThreeSeparate(pc: seq<Change>, fc: seq<Change>, qc: seq<Change>)
    requires Separate(pc) && Separate(fc) && Separate(qc)
    requires forall i, k :: 0 <= i < |pc| && pc[i].Names(k) ==> k.PdrKey?
    requires forall i, k :: 0 <= i < |fc| && fc[i].Names(k) ==> k.FarKey?
    requires forall i, k :: 0 <= i < |qc| && qc[i].Names(k) ==> k.AppQerKey? || k.SessQerKey?
    ensures Separate(pc + fc + qc)
  {
    forall i, j, k | 0 <= i < |pc| && 0 <= j < |fc| && pc[i].Names(k)
      ensures !fc[j].Names(k)
    {
      assert k.PdrKey? && (fc[j].Names(k) ==> k.FarKey?);
    }
    SeparateConcat(pc, fc);
    var both := pc + fc;
    forall i, j, k | 0 <= i < |both| && 0 <= j < |qc| && both[i].Names(k)
      ensures !qc[j].Names(k)
    {
      assert both[i] == if i < |pc| then pc[i] else fc[i - |pc|];
      assert k.PdrKey? || k.FarKey?;
      assert qc[j].Names(k) ==> k.AppQerKey? || k.SessQerKey?;
    }
    SeparateConcat(both, qc);
  }

  lemma AllSeparate(before: RuleSet, msg: Message, held: RuleSet, gone: RuleSet, rest: RuleSet, p: Cut, f: Cut, q: Cut)
    requires Parses(msg) && CutsOf(before, msg, held, gone, rest, p, f, q) && RulesApart(before, held)
    ensures Separate(AllChanges(before, msg, held, gone, rest, p, f, q))
  {
    KindSeparate(before.pdrs, Values(msg.createPdrs), Values(msg.updatePdrs), held.pdrs, PdrId, PdrImage, p);
    KindSeparate(before.fars, Values(msg.createFars), Values(msg.updateFars), held.fars, FarId, FarImage, f);
    KindSeparate(before.qers, Values(msg.createQers), Values(msg.updateQers), held.qers, QerId, QerImage, q);
    KeysOfKinds(before, msg, held, p, f, q);
    ThreeSeparate(PdrChanges(before, msg, held, p), FarChanges(before, msg, held, f), QerChanges(before, msg, held, q));
  }

  lemma KeysOfKinds(before: RuleSet, msg: Message, held: RuleSet, p: Cut, f: Cut, q: Cut)
    requires Parses(msg) && |held.pdrs| == |before.pdrs| + |msg.createPdrs|
    requires |held.fars| == |before.fars| + |msg.createFars| && |held.qers| == |before.qers| + |msg.createQers|
    ensures forall i, k :: 0 <= i < |held.pdrs| && PdrChanges(before, msg, held, p)[i].Names(k) ==> k.PdrKey?
    ensures forall i, k :: 0 <= i < |held.fars| && FarChanges(before, msg, held, f)[i].Names(k) ==> k.FarKey?
    ensures forall i, k :: 0 <= i < |held.qers| && QerChanges(before, msg, held, q)[i].Names(k) ==> k.AppQerKey? || k.SessQerKey?
  {
    PdrImageKeys();
    assert forall f: Far, k :: k in FarImage(f) ==> k.FarKey?;
    assert forall q: Qer, k :: k in QerImage(q) ==> k.AppQerKey? || k.SessQerKey?;
  }

  lemma PdrImageKeys()
    ensures forall p: Pdr, k :: k in PdrImage(p) ==> k.PdrKey?
  {
  }

  // ----- When a change is tidy, by kind -----

  /** A position is written exactly when an update touches it; otherwise the edits leave it alone. */
  lemma WrittenIffTouched<R>(before: seq<R>, creates: seq<R>, updates: seq<R>, held: seq<R>, id: R -> nat, i: nat)
    requires |held| == |before| + |creates| && i < |before|
    requires forall x :: 0 <= x < |held| ==> id(held[x]) == id((before + creates)[x])
    ensures i in WrittenAt(before, creates, updates, held, id) <==> Touches(before + creates, id, updates, i)
    ensures !Touches(before + creates, id, updates, i) ==> AllUpdated(before + creates, id, updates)[i] == before[i]
  {
    var list := before + creates;
    FoundTouchesAlike(list, id, updates, i);
    UpdatesTouchExactly(list, id, updates, i);
    SameIdsSameIndex(held, list, id, id(list[i]));
  }

  function FirstQer(p: Pdr): (id: nat) {
    if p.qerIDs == [] then 0 else p.qerIDs[0]
  }

  /** The list of QER IDs does not change a PDR's keys, and its values only by its first element. */
  lemma ListInImage(p: Pdr, list: seq<nat>)
    ensures PdrKeys(p.(qerIDs := list)) == PdrKeys(p)
    ensures PdrImage(p) == PdrImage(p.(qerIDs := list)) <==> PdrKeys(p) == {} || FirstQer(p) == FirstQer(p.(qerIDs := list))
  {
    var q := p.(qerIDs := list);
    assert PdrPortRules(p) == PdrPortRules(q);
    assert forall r :: PdrKeyOf(p, r) == PdrKeyOf(q, r);
    assert PdrKeys(p) == PdrKeys(q);
    if PdrImage(p) == PdrImage(q) && PdrKeys(p) != {} {
      var k :| k in PdrKeys(p);
      assert PdrImage(p)[k] == PdrImage(q)[k];
    }
  }

  lemma QerLevelInKeys(p: Qer, q: Qer)
    requires p.qerID == q.qerID && p.fseID == q.fseID
    ensures QerImage(p).Keys <= QerImage(q).Keys <==> p.level == q.level
  {
    assert QerKey(p, Access) in QerImage(p).Keys;
  }

  ghost predicate PdrTidy(before: seq<Pdr>, creates: seq<Pdr>, updates: seq<Pdr>, held: seq<Pdr>, cut: Cut, i: nat)
    requires |held| == |before| + |creates| && i < |before|
  {
    && PdrKeys(before[i]) <= PdrKeys(held[i])
    && (!Touches(before + creates, PdrId, updates, i) && i !in cut.qs && PdrKeys(before[i]) != {} ==>
          FirstQer(before[i]) == FirstQer(held[i]))
  }

  /** The held PDRs are the edited ones with other lists of QER IDs. */
  ghost predicate Relisted(edited: seq<Pdr>, held: seq<Pdr>) {
    |held| == |edited| && forall i :: 0 <= i < |held| ==> held[i] == edited[i].(qerIDs := held[i].qerIDs)
  }

  lemma PdrTidyIff(before: seq<Pdr>, creates: seq<Pdr>, updates: seq<Pdr>, held: seq<Pdr>, cut: Cut, i: nat)
    requires |held| == |before| + |creates| && i < |held| && Relisted(AllUpdated(before + creates, PdrId, updates), held)
    ensures var cs := ChangesOf(before, creates, updates, held, PdrId, PdrImage, cut);
            cs[i].Tidy() <==> (i < |before| ==> PdrTidy(before, creates, updates, held, cut, i))
  {
    if i < |before| {
      UpdatesKeepIds(before + creates, PdrId, updates);
      WrittenIffTouched(before, creates, updates, held, PdrId, i);
      ListInImage(before[i], held[i].qerIDs);
    }
  }

  lemma FarTidy(before: seq<Far>, creates: seq<Far>, updates: seq<Far>, held: seq<Far>, cut: Cut, seid: nat, i: nat)
    requires |held| == |before| + |creates| && i < |held| && held == AllUpdated(before + creates, FarId, updates)
    requires forall x :: 0 <= x < |before| ==> before[x].fseID == seid
    requires forall x :: 0 <= x < |held| ==> held[x].fseID == seid
    ensures ChangesOf(before, creates, updates, held, FarId, FarImage, cut)[i].Tidy()
  {
    if i < |before| {
      UpdatesKeepIds(before + creates, FarId, updates);
      WrittenIffTouched(before, creates, updates, held, FarId, i);
      assert FarId(held[i]) == FarId(before[i]);
      assert FarImage(before[i]).Keys == FarImage(held[i]).Keys;
    }
  }

  /** The held QERs are the edited ones with other levels. */
  ghost predicate Relevelled(edited: seq<Qer>, held: seq<Qer>) {
    |held| == |edited| && forall i :: 0 <= i < |held| ==> held[i] == edited[i].(level := held[i].level)
  }

  lemma QerTidyIff(before: seq<Qer>, creates: seq<Qer>, updates: seq<Qer>, held: seq<Qer>, cut: Cut, seid: nat, i: nat)
    requires |held| == |before| + |creates| && i < |held| && Relevelled(AllUpdated(before + creates, QerId, updates), held)
    requires forall x :: 0 <= x < |before| ==> before[x].fseID == seid
    requires forall x :: 0 <= x < |held| ==> held[x].fseID == seid
    ensures var cs := ChangesOf(before, creates, updates, held, QerId, QerImage, cut);
            cs[i].Tidy() <==> (i < |before| ==> before[i].level == held[i].level)
  {
    if i < |before| {
      UpdatesKeepIds(before + creates, QerId, updates);
      assert QerId(held[i]) == QerId((before + creates)[i]);
      WrittenIffTouched(before, creates, updates, held, QerId, i);
      QerLevelInKeys(before[i], held[i]);
    }
  }

  /** A PDR with keys is left exactly when its own position is not removed. */
  lemma StaysIff(before: seq<Pdr>, held: seq<Pdr>, gone: seq<Pdr>, rest: seq<Pdr>, cut: Cut, i: nat)
    requires KeysApart(before, held, PdrImage) && Cuts(cut, held, gone, rest) && i < |held| && PdrKeys(held[i]) != {}
    ensures i !in cut.qs <==> held[i] in rest
  {
    if i !in cut.qs {
      var x: nat :| x < |cut.ps| && cut.ps[x] == i;
      assert rest[x] == held[i];
    }
    if held[i] in rest {
      var x: nat :| x < |rest| && rest[x] == held[i];
      var j := cut.ps[x];
      assert j in cut.ps && held[j] == held[i];
      var k :| k in PdrKeys(held[i]);
      assert NamedAt(before, held, PdrImage, i, k) && NamedAt(before, held, PdrImage, j, k);
      assert i == j;
    }
  }

  // ----- The condition on the rules -----

  /** Every PDR the session had keeps its keys, and one that stays without being written its first QER ID. */
  ghost predicate PdrsTrack(before: RuleSet, msg: Message, held: RuleSet, rest: RuleSet)
    requires Parses(msg) && |before.pdrs| <= |held.pdrs|
  {
    && (forall i :: 0 <= i < |before.pdrs| ==> PdrKeys(before.pdrs[i]) <= PdrKeys(held.pdrs[i]))
    && (forall i: nat :: i < |before.pdrs| && PdrStays(before, msg, held, rest, i) ==>
                           FirstQer(before.pdrs[i]) == FirstQer(held.pdrs[i]))
  }

  /** Every QER the session had keeps its level. */
  ghost predicate QersTrack(before: RuleSet, held: RuleSet)
    requires |before.qers| <= |held.qers|
  {
    forall i :: 0 <= i < |before.qers| ==> before.qers[i].level == held.qers[i].level
  }

  ghost predicate PdrStays(before: RuleSet, msg: Message, held: RuleSet, rest: RuleSet, i: nat)
    requires Parses(msg) && i < |before.pdrs| <= |held.pdrs|
  {
    && PdrKeys(before.pdrs[i]) != {} && held.pdrs[i] in rest.pdrs
    && !Touches(before.pdrs + Values(msg.createPdrs), PdrId, Values(msg.updatePdrs), i)
  }

  lemma PdrsTidyIff(before: RuleSet, msg: Message, held: RuleSet, gone: RuleSet, rest: RuleSet, cut: Cut)
    requires Parses(msg) && |held.pdrs| == |before.pdrs| + |msg.createPdrs|
    requires Relisted(AllUpdated(before.pdrs + Values(msg.createPdrs), PdrId, Values(msg.updatePdrs)), held.pdrs)
    requires KeysApart(before.pdrs, held.pdrs, PdrImage) && Cuts(cut, held.pdrs, gone.pdrs, rest.pdrs)
    ensures AllTidy(PdrChanges(before, msg, held, cut)) <==> PdrsTrack(before, msg, held, rest)
  {
    var creates, updates := Values(msg.createPdrs), Values(msg.updatePdrs);
    forall i: nat | i < |held.pdrs|
      ensures PdrChanges(before, msg, held, cut)[i].Tidy() <==>
              (i < |before.pdrs| ==>
                 && PdrKeys(before.pdrs[i]) <= PdrKeys(held.pdrs[i])
                 && (PdrStays(before, msg, held, rest, i) ==> FirstQer(before.pdrs[i]) == FirstQer(held.pdrs[i])))
    {
      PdrTidyIff(before.pdrs, creates, updates, held.pdrs, cut, i);
      if PdrKeys(held.pdrs[i]) != {} {
        StaysIff(before.pdrs, held.pdrs, gone.pdrs, rest.pdrs, cut, i);
      }
    }
  }

  lemma FarsTidy(before: RuleSet, msg: Message, held: RuleSet, cut: Cut, seid: nat)
    requires Parses(msg) && |held.fars| == |before.fars| + |msg.createFars|
    requires Stamped(before, seid) && Stamped(held, seid)
    requires held.fars == AllUpdated(before.fars + Values(msg.createFars), FarId, Values(msg.updateFars))
    ensures AllTidy(FarChanges(before, msg, held, cut))
  {
    forall i: nat | i < |held.fars|
      ensures FarChanges(before, msg, held, cut)[i].Tidy()
    {
      FarTidy(before.fars, Values(msg.createFars), Values(msg.updateFars), held.fars, cut, seid, i);
    }
  }

  lemma QersTidyIff(before: RuleSet, msg: Message, held: RuleSet, cut: Cut, seid: nat)
    requires Parses(msg) && |held.qers| == |before.qers| + |msg.createQers|
    requires Stamped(before, seid) && Stamped(held, seid)
    requires Relevelled(AllUpdated(before.qers + Values(msg.createQers), QerId, Values(msg.updateQers)), held.qers)
    ensures AllTidy(QerChanges(before, msg, held, cut)) <==> QersTrack(before, held)
  {
    forall i: nat | i < |held.qers|
      ensures QerChanges(before, msg, held, cut)[i].Tidy() <==> (i < |before.qers| ==> before.qers[i].level == held.qers[i].level)
    {
      QerTidyIff(before.qers, Values(msg.createQers), Values(msg.updateQers), held.qers, cut, seid, i);
    }
  }

  lemma AllTidyIff(before: RuleSet, msg: Message, held: RuleSet, gone: RuleSet, rest: RuleSet, p: Cut, f: Cut, q: Cut, seid: nat)
    requires Parses(msg) && CutsOf(before, msg, held, gone, rest, p, f, q) && RulesApart(before, held)
    requires Stamped(before, seid) && Stamped(held, seid)
    requires Relisted(Edited(before, msg).pdrs, held.pdrs) && held.fars == Edited(before, msg).fars
    requires Relevelled(Edited(before, msg).qers, held.qers)
    ensures AllTidy(AllChanges(before, msg, held, gone, rest, p, f, q)) <==>
            PdrsTrack(before, msg, held, rest) && QersTrack(before, held)
  {
    PdrsTidyIff(before, msg, held, gone, rest, p);
    FarsTidy(before, msg, held, f, seid);
    QersTidyIff(before, msg, held, q, seid);
    TidyConcat(PdrChanges(before, msg, held, p), FarChanges(before, msg, held, f), QerChanges(before, msg, held, q));
  }

  lemma TidyConcat(a: seq<Change>, b: seq<Change>, c: seq<Change>)
    ensures AllTidy(a + b + c) <==> AllTidy(a) && AllTidy(b) && AllTidy(c)
  {
    var all := a + b + c;
    assert forall i :: 0 <= i < |a| ==> all[i] == a[i];
    assert forall i :: 0 <= i < |b| ==> all[|a| + i] == b[i];
    assert forall i :: 0 <= i < |c| ==> all[|a| + |b| + i] == c[i];
    assert forall i :: 0 <= i < |all| ==>
      all[i] == if i < |a| then a[i] else if i < |a| + |b| then b[i - |a|] else c[i - |a| - |b|];
  }

  lemma HeldIsRemarked(before: RuleSet, msg: Message, marking: Marking)
    requires Parses(msg)
    ensures var held, edited := PlanFor(before, msg, marking).held, Edited(before, msg);
            Relisted(edited.pdrs, held.pdrs) && held.fars == edited.fars && Relevelled(edited.qers, held.qers)
  {
  }

  lemma AllNamedIn(before: RuleSet, msg: Message, held: RuleSet, gone: RuleSet, rest: RuleSet, p: Cut, f: Cut, q: Cut, scope: set<Key>)
    requires Parses(msg) && CutsOf(before, msg, held, gone, rest, p, f, q)
    requires KeysOf(Images(before)) <= scope && KeysOf(Images(rest)) <= scope && KeysOf(Images(gone)) <= scope
    ensures NamedIn(AllChanges(before, msg, held, gone, rest, p, f, q), scope)
  {
    var cs := AllChanges(before, msg, held, gone, rest, p, f, q);
    AllImages(before, msg, held, gone, rest, p, f, q);
    forall i, k | 0 <= i < |cs| && cs[i].Names(k)
      ensures k in scope
    {
      assert cs[i] in cs;
      if k in cs[i].now {
        assert cs[i].now in Gones(cs) + Rests(cs);
        assert k in KeysOf(Gones(cs)) + KeysOf(Rests(cs));
      } else {
        assert cs[i].was.value in Olds(cs);
        assert k in KeysOf(Olds(cs));
      }
    }
  }

  /**
   When no two of the session's rules share a datapath key, an accepted message whose batches finish
   leaves the datapath with exactly the rules the session is left with, values included, if and only if
   every PDR keeps its keys, every QER its level, and every PDR that stays unwritten its first QER ID.
   */
  lemma AcceptedInStepIff(
    before: RuleSet, msg: Message, marking: Marking, seid: nat, written: RuleSet, gone: RuleSet, rest: RuleSet,
    t: Table, h: History, scope: set<Key>)
    requires Accepts(before, msg, marking, written, gone, rest) && Completed(h, Images(written), Images(gone))
    requires Stamped(before, seid) && StampedMessage(msg, seid)
    requires RulesApart(before, PlanFor(before, msg, marking).held)
    requires KeysOf(Images(before)) <= scope && KeysOf(Images(rest)) <= scope && KeysOf(Images(gone)) <= scope
    requires Mirrors(t, Images(before), scope)
    ensures var held := PlanFor(before, msg, marking).held;
            Mirrors(Run(t, h), Images(rest), scope) <==> PdrsTrack(before, msg, held, rest) && QersTrack(before, held)
  {
    var held := PlanFor(before, msg, marking).held;
    var p, f, q := FindCuts(before, msg, marking, written, gone, rest);
    AllImages(before, msg, held, gone, rest, p, f, q);
    AllSeparate(before, msg, held, gone, rest, p, f, q);
    AllNamedIn(before, msg, held, gone, rest, p, f, q, scope);
    MirrorsIffTidy(t, h, AllChanges(before, msg, held, gone, rest, p, f, q), scope);
    HeldIsRemarked(before, msg, marking);
    HeldStamped(before, msg, marking, seid);
    AllTidyIff(before, msg, held, gone, rest, p, f, q, seid);
  }
}
