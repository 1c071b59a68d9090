/**
 A session's rules as the source stores them: three slices, and a slice of QER IDs in every PDR. The
 modification handler works on a clone, so nothing it does before it publishes reaches an array that
 the store holds.
 */
module SessionSlices {
  import opened Wrappers
  import opened Rules
  import opened RuleLists
  import opened Modification
  import opened QerMarking
  import opened Slices

  /** A PDR with its list of QER IDs in a slice. */
  datatype Cell = Cell(pdr: Pdr, list: Slice<nat>)

  const CellId: Cell -> nat := (c: Cell) => c.pdr.pdrID

  /** The lists are within their arrays, and no two PDRs share one. */
  ghost predicate Live(cells: seq<Cell>) {
    && (forall i :: 0 <= i < |cells| ==> cells[i].list.Valid())
    && (forall i, j :: 0 <= i < j < |cells| ==> cells[i].list.arr != cells[j].list.arr)
  }

  function Value(c: Cell): (p: Pdr)
    requires c.list.Valid()
    reads c.list.arr
  {
    c.pdr.(qerIDs := c.list.Contents())
  }

  /** The cells hold these PDRs. */
  ghost predicate Holds(cells: seq<Cell>, ps: seq<Pdr>)
    reads set c | c in cells :: c.list.arr
  {
    && Live(cells) && |cells| == |ps|
    && forall i :: 0 <= i < |cells| ==> Value(cells[i]) == ps[i]
  }

  /** A PDR just parsed has a list of its own. */
  method Parse(p: Pdr, spare: nat) returns (c: Cell)
    ensures c.pdr == p && c.list.Valid() && fresh(c.list.arr) && Value(c) == p
  {
    var ids := p.qerIDs;
    var arr := new nat[|ids| + spare](_ => 0);
    for i := 0 to |ids|
      invariant arr[..i] == ids[..i]
    {
      arr[i] := ids[i];
    }
    c := Cell(p, Slice(arr, |ids|));
  }

  method CreatePdr(s: Slice<Cell>, p: Pdr, spare: nat, ghost ps: seq<Pdr>) returns (s': Slice<Cell>)
    requires s.Valid() && Holds(s.Contents(), ps)
    modifies s.arr
    ensures s'.Valid() && (s'.arr == s.arr || fresh(s'.arr)) && Holds(s'.Contents(), ps + [p])
    ensures forall c :: c in s'.Contents() ==> c in old(s.Contents()) || fresh(c.list.arr)
  {
    var c := Parse(p, spare);
    s' := Append(s, c, spare);
  }

  method CreatePdrs(s: Slice<Cell>, items: seq<Result<Pdr>>, spare: nat, ghost ps: seq<Pdr>)
    returns (s': Slice<Cell>, ok: bool)
    requires s.Valid() && Holds(s.Contents(), ps)
    modifies s.arr
    ensures ok <==> AllOk(items)
    ensures s'.Valid() && (s'.arr == s.arr || fresh(s'.arr))
    ensures ok ==> Holds(s'.Contents(), ps + Values(items))
    ensures forall c :: c in s'.Contents() ==> c in old(s.Contents()) || fresh(c.list.arr)
  {
    s' := s;
    for i := 0 to |items|
      invariant s'.Valid() && (s'.arr == s.arr || fresh(s'.arr))
      invariant AllOk(items[..i]) && Holds(s'.Contents(), ps + Values(items[..i]))
      invariant forall c :: c in s'.Contents() ==> c in old(s.Contents()) || fresh(c.list.arr)
    {
      if items[i].Err? {
        return s', false;
      }
      ParsedOneMore(items, i);
      s' := CreatePdr(s', items[i].value, spare, ps + Values(items[..i]));
      assert ps + Values(items[..i + 1]) == ps + Values(items[..i]) + [items[i].value];
    }
    assert items[..|items|] == items;
    ok := true;
  }

  lemma SameIndex(cells: seq<Cell>, ps: seq<Pdr>, x: nat)
    requires |cells| == |ps| && forall i :: 0 <= i < |ps| ==> cells[i].pdr.pdrID == ps[i].pdrID
    ensures FirstIndex(cells, CellId, x) == FirstIndex(ps, PdrId, x)
  {
    var i := FirstIndex(cells, CellId, x);
    if i < |ps| {
      FirstIndexUnique(ps, PdrId, x, i);
    }
  }

  method UpdatePdr(s: Slice<Cell>, p: Pdr, spare: nat, ghost ps: seq<Pdr>) returns (found: bool)
    requires s.Valid() && Holds(s.Contents(), ps)
    modifies s.arr
    ensures Holds(s.Contents(), Updated(ps, PdrId, p))
    ensures found <==> FirstIndex(ps, PdrId, p.pdrID) < |ps|
    ensures forall c :: c in s.Contents() ==> c in old(s.Contents()) || fresh(c.list.arr)
  {
    var c := Parse(p, spare);
    SameIndex(s.Contents(), ps, p.pdrID);
    found := UpdateFirst(s, CellId, c);
  }

  lemma HoldsWithout(cells: seq<Cell>, ps: seq<Pdr>, i: nat)
    requires Holds(cells, ps) && i < |cells|
    ensures Holds(Without(cells, i), Without(ps, i))
    ensures forall c :: c in Without(cells, i) ==> c in cells
  {
    var rest := Without(cells, i);
    assert forall k :: 0 <= k < |rest| ==> rest[k] == if k < i then cells[k] else cells[k + 1];
  }

  method RemovePdr(s: Slice<Cell>, x: nat, ghost ps: seq<Pdr>) returns (s': Slice<Cell>, gone: Option<Cell>)
    requires s.Valid() && Holds(s.Contents(), ps)
    modifies s.arr
    ensures s'.Valid() && s'.arr == s.arr
    ensures gone.Some? <==> FirstIndex(ps, PdrId, x) < |ps|
    ensures gone.None? ==> s' == s && Holds(s.Contents(), ps)
    ensures gone.Some? ==> Holds(s'.Contents(), Without(ps, FirstIndex(ps, PdrId, x)))
    ensures gone.Some? ==> gone.value.list.Valid() && Value(gone.value) == ps[FirstIndex(ps, PdrId, x)]
    ensures forall c :: c in s'.Contents() ==> c in old(s.Contents())
  {
    ghost var cells := s.Contents();
    SameIndex(cells, ps, x);
    s', gone := RemoveFirst(s, CellId, x);
    assert Holds(cells, ps);
    if gone.Some? {
      HoldsWithout(cells, ps, FirstIndex(cells, CellId, x));
    }
  }

  method UpdatePdrs(s: Slice<Cell>, items: seq<Result<Pdr>>, spare: nat, ghost ps: seq<Pdr>) returns (ok: bool)
    requires s.Valid() && Holds(s.Contents(), ps)
    modifies s.arr
    ensures ok <==> AllOk(items)
    ensures ok ==> Holds(s.Contents(), AllUpdated(ps, PdrId, Values(items)))
    ensures forall c :: c in s.Contents() ==> c in old(s.Contents()) || fresh(c.list.arr)
  {
    for i := 0 to |items|
      invariant AllOk(items[..i]) && Holds(s.Contents(), AllUpdated(ps, PdrId, Values(items[..i])))
      invariant forall c :: c in s.Contents() ==> c in old(s.Contents()) || fresh(c.list.arr)
    {
      if items[i].Err? {
        return false;
      }
      UpdatedOneMore(ps, PdrId, items, i);
      var _ := UpdatePdr(s, items[i].value, spare, AllUpdated(ps, PdrId, Values(items[..i])));
    }
    assert items[..|items|] == items;
    ok := true;
  }

  method RemovePdrs(s: Slice<Cell>, items: seq<Result<nat>>, ghost ps: seq<Pdr>) returns (s': Slice<Cell>, ok: bool)
    requires s.Valid() && Holds(s.Contents(), ps)
    modifies s.arr
    ensures s'.Valid() && s'.arr == s.arr
    ensures ok <==> AllOk(items) && AllRemoved(ps, PdrId, Values(items)).Some?
    ensures ok ==> Holds(s'.Contents(), AllRemoved(ps, PdrId, Values(items)).value)
  {
    s' := s;
    ghost var rest := ps;
    for i := 0 to |items|
      invariant s'.Valid() && s'.arr == s.arr && AllOk(items[..i]) && Holds(s'.Contents(), rest)
      invariant AllRemoved(ps, PdrId, Values(items[..i])) == Some(rest)
    {
      if items[i].Err? {
        return s', false;
      }
      RemovedOneMore(ps, PdrId, items, i, rest);
      var gone;
      s', gone := RemovePdr(s', items[i].value, rest);
      if gone.None? {
        return s', false;
      }
      rest := Without(rest, FirstIndex(rest, PdrId, items[i].value));
    }
    assert items[..|items|] == items;
    ok := true;
  }

  // ----- FARs and QERs, whose rules are plain values -----

  method CreateAll<R>(s: Slice<R>, items: seq<Result<R>>, spare: nat) returns (s': Slice<R>, ok: bool)
    requires s.Valid()
    modifies s.arr
    ensures ok <==> AllOk(items)
    ensures s'.Valid() && (s'.arr == s.arr || fresh(s'.arr))
    ensures ok ==> s'.Contents() == old(s.Contents()) + Values(items)
  {
    s' := s;
    for i := 0 to |items|
      invariant s'.Valid() && (s'.arr == s.arr || fresh(s'.arr))
      invariant AllOk(items[..i]) && s'.Contents() == old(s.Contents()) + Values(items[..i])
    {
      if items[i].Err? {
        return s', false;
      }
      ParsedOneMore(items, i);
      s' := Append(s', items[i].value, spare);
    }
    assert items[..|items|] == items;
    ok := true;
  }

  method UpdateAll<R>(s: Slice<R>, id: R -> nat, items: seq<Result<R>>) returns (ok: bool)
    requires s.Valid()
    modifies s.arr
    ensures ok <==> AllOk(items)
    ensures ok ==> s.Contents() == AllUpdated(old(s.Contents()), id, Values(items))
  {
    for i := 0 to |items|
      invariant AllOk(items[..i]) && s.Contents() == AllUpdated(old(s.Contents()), id, Values(items[..i]))
    {
      if items[i].Err? {
        return false;
      }
      UpdatedOneMore(old(s.Contents()), id, items, i);
      var _ := UpdateFirst(s, id, items[i].value);
    }
    assert items[..|items|] == items;
    ok := true;
  }

  method RemoveEach<R>(s: Slice<R>, id: R -> nat, items: seq<Result<nat>>) returns (s': Slice<R>, ok: bool)
    requires s.Valid()
    modifies s.arr
    ensures s'.Valid() && s'.arr == s.arr
    ensures ok <==> AllOk(items) && AllRemoved(old(s.Contents()), id, Values(items)).Some?
    ensures ok ==> AllRemoved(old(s.Contents()), id, Values(items)).value == s'.Contents()
  {
    s' := s;
    for i := 0 to |items|
      invariant s'.Valid() && s'.arr == s.arr && AllOk(items[..i])
      invariant AllRemoved(old(s.Contents()), id, Values(items[..i])) == Some(s'.Contents())
    {
      if items[i].Err? {
        return s', false;
      }
      RemovedOneMore(old(s.Contents()), id, items, i, s'.Contents());
      var gone;
      s', gone := RemoveFirst(s', id, items[i].value);
      if gone.None? {
        return s', false;
      }
    }
    assert items[..|items|] == items;
    ok := true;
  }

  // ----- Marking the session QER -----

  const Self: nat -> nat := (x: nat) => x

  /** A list of QER IDs with the first x moved to the end. */
  function MovedToEnd(list: seq<nat>, x: nat): (r: seq<nat>)
    ensures |r| == |list|
  {
    var i := FirstIndex(list, Self, x);
    if i < |list| then Without(list, i) + [x] else list
  }

  /** Nothing is lost: the others keep their order, and x, if it is there, comes last. */
  lemma MovedToEndKeeps(list: seq<nat>, x: nat)
    ensures multiset(MovedToEnd(list, x)) == multiset(list)
    ensures x !in list ==> MovedToEnd(list, x) == list
    ensures x in list ==> exists i :: 0 <= i < |list| && list[i] == x && x !in list[..i]
                                      && MovedToEnd(list, x) == list[..i] + list[i + 1..] + [x]
  {
    var i := FirstIndex(list, Self, x);
    if i < |list| {
      assert list == list[..i] + [list[i]] + list[i + 1..];
    }
  }

  method MoveToEnd(s: Slice<nat>, x: nat)
    requires s.Valid()
    modifies s.arr
    ensures s.Contents() == MovedToEnd(old(s.Contents()), x)
  {
    for i := 0 to s.len
      invariant s.arr[..] == old(s.arr[..])
      invariant forall j :: 0 <= j < i ==> s.arr[j] != x
    {
      if s.arr[i] == x {
        FirstIndexUnique(s.Contents(), Self, x, i);
        ShiftLeft(s, i);
        s.arr[s.len - 1] := x;
        return;
      }
    }
  }

  function Reordered(p: Pdr, x: nat): (r: Pdr) {
    p.(qerIDs := MovedToEnd(p.qerIDs, x))
  }

  /** The first n of the PDRs are reordered. */
  function Partly(ps: seq<Pdr>, x: nat, n: nat): (r: seq<Pdr>)
    requires n <= |ps|
    ensures |r| == |ps|
    ensures forall i :: 0 <= i < |ps| ==> r[i] == if i < n then Reordered(ps[i], x) else ps[i]
  {
    seq(|ps|, i requires 0 <= i < |ps| => if i < n then Reordered(ps[i], x) else ps[i])
  }

  method MarkOne(s: Slice<Cell>, i: nat, x: nat, ghost ps: seq<Pdr>)
    requires s.Valid() && i < s.len && Holds(s.Contents(), ps)
    modifies s.arr[i].list.arr
    ensures s.Contents() == old(s.Contents()) && Holds(s.Contents(), ps[i := Reordered(ps[i], x)])
  {
    ghost var cells := s.Contents();
    assert forall k :: 0 <= k < s.len && k != i ==> cells[k].list.arr != cells[i].list.arr;
    MoveToEnd(s.arr[i].list, x);
    assert forall k :: 0 <= k < s.len && k != i ==> Value(cells[k]) == ps[k];
  }

  method MarkPdrs(s: Slice<Cell>, x: nat, ghost ps: seq<Pdr>)
    requires s.Valid() && Holds(s.Contents(), ps)
    modifies set c | c in s.Contents() :: c.list.arr
    ensures s.Contents() == old(s.Contents()) && Holds(s.Contents(), Partly(ps, x, |ps|))
  {
    assert Partly(ps, x, 0) == ps;
    for i := 0 to s.len
      invariant s.Contents() == old(s.Contents()) && Holds(s.Contents(), Partly(ps, x, i))
    {
      assert s.arr[i] in s.Contents();
      MarkOne(s, i, x, Partly(ps, x, i));
      assert Partly(ps, x, i)[i := Reordered(ps[i], x)] == Partly(ps, x, i + 1);
    }
  }

  // ----- Cloning -----

  method CloneCell(c: Cell) returns (r: Cell)
    requires c.list.Valid()
    ensures r.list.Valid() && fresh(r.list.arr) && r.pdr == c.pdr && Value(r) == Value(c)
    ensures r.list.arr.Length == c.list.arr.Length
  {
    var list := CloneSlice(c.list, 0);
    r := Cell(c.pdr, list);
  }

  lemma HoldsOneMore(cells: seq<Cell>, ps: seq<Pdr>, c: Cell, p: Pdr)
    requires Holds(cells, ps) && c.list.Valid() && Value(c) == p
    requires forall i :: 0 <= i < |cells| ==> cells[i].list.arr != c.list.arr
    ensures Holds(cells + [c], ps + [p])
  {
  }

  /** PDRs with lists of their own; what fills the spare capacity is the zero cell. */
  method ClonePdrs(s: Slice<Cell>, zero: Cell, ghost ps: seq<Pdr>) returns (r: Slice<Cell>)
    requires s.Valid() && Holds(s.Contents(), ps)
    ensures r.Valid() && fresh(r.arr) && r.arr.Length == s.arr.Length && Holds(r.Contents(), ps)
    ensures forall c :: c in r.Contents() ==> fresh(c.list.arr)
  {
    var arr := new Cell[s.arr.Length](_ => zero);
    for i := 0 to s.len
      invariant Holds(arr[..i], ps[..i])
      invariant forall k :: 0 <= k < i ==> fresh(arr[k].list.arr)
    {
      assert s.Contents()[i] == s.arr[i];
      ghost var cells := arr[..i];
      var c := CloneCell(s.arr[i]);
      assert Holds(cells, ps[..i]);
      HoldsOneMore(cells, ps[..i], c, ps[i]);
      arr[i] := c;
      assert arr[..i + 1] == cells + [c] && ps[..i + 1] == ps[..i] + [ps[i]];
    }
    r := Slice(arr, s.len);
    assert ps[..s.len] == ps;
  }

  // ----- The handler -----

  datatype RuleSlices = RuleSlices(pdrs: Slice<Cell>, fars: Slice<Far>, qers: Slice<Qer>) {
    ghost predicate Valid() {
      pdrs.Valid() && fars.Valid() && qers.Valid()
    }
  }

  /** The arrays that the slices reach. */
  ghost function Reach(h: RuleSlices): (arrays: set<object>)
    requires h.Valid()
    reads h.pdrs.arr
  {
    {h.pdrs.arr as object, h.fars.arr as object, h.qers.arr as object} + set c | c in h.pdrs.Contents() :: c.list.arr as object
  }

  /** The slices hold these rules. */
  ghost predicate Represents(h: RuleSlices, rs: RuleSet)
    requires h.Valid()
    reads Reach(h)
  {
    Holds(h.pdrs.Contents(), rs.pdrs) && h.fars.Contents() == rs.fars && h.qers.Contents() == rs.qers
  }

  method Clone(h: RuleSlices, zero: Cell, zeroFar: Far, zeroQer: Qer, ghost rs: RuleSet) returns (c: RuleSlices)
    requires h.Valid() && Represents(h, rs)
    ensures c.Valid() && Represents(c, rs) && fresh(Reach(c))
  {
    var pdrs := ClonePdrs(h.pdrs, zero, rs.pdrs);
    var fars := CloneSlice(h.fars, zeroFar);
    var qers := CloneSlice(h.qers, zeroQer);
    c := RuleSlices(pdrs, fars, qers);
  }

  ghost function WithCreates(rs: RuleSet, msg: Message): (r: RuleSet)
    requires AllOk(msg.createPdrs) && AllOk(msg.createFars) && AllOk(msg.createQers)
  {
    RuleSet(rs.pdrs + Values(msg.createPdrs), rs.fars + Values(msg.createFars), rs.qers + Values(msg.createQers))
  }

  method ApplyCreates(h: RuleSlices, msg: Message, spare: nat, ghost rs: RuleSet) returns (c: RuleSlices, ok: bool)
    requires h.Valid() && Represents(h, rs)
    modifies h.pdrs.arr, h.fars.arr, h.qers.arr
    ensures ok <==> AllOk(msg.createPdrs) && AllOk(msg.createFars) && AllOk(msg.createQers)
    ensures c.Valid()
    ensures ok ==> Represents(c, WithCreates(rs, msg))
    ensures ok ==> fresh(Reach(c) - old(Reach(h)))
  {
    c := h;
    var pdrs, pdrsOk := CreatePdrs(h.pdrs, msg.createPdrs, spare, rs.pdrs);
    if !pdrsOk { return c, false; }
    var fars, farsOk := CreateAll(h.fars, msg.createFars, spare);
    if !farsOk { return c, false; }
    assert Holds(pdrs.Contents(), rs.pdrs + Values(msg.createPdrs));
    var qers, qersOk := CreateAll(h.qers, msg.createQers, spare);
    if !qersOk { return c, false; }
    assert Holds(pdrs.Contents(), rs.pdrs + Values(msg.createPdrs));
    c, ok := RuleSlices(pdrs, fars, qers), true;
  }

  ghost function WithUpdates(rs: RuleSet, msg: Message): (r: RuleSet)
    requires AllOk(msg.updatePdrs) && AllOk(msg.updateFars) && AllOk(msg.updateQers)
  {
    RuleSet(AllUpdated(rs.pdrs, PdrId, Values(msg.updatePdrs)),
            AllUpdated(rs.fars, FarId, Values(msg.updateFars)),
            AllUpdated(rs.qers, QerId, Values(msg.updateQers)))
  }

  method ApplyUpdates(h: RuleSlices, msg: Message, spare: nat, ghost rs: RuleSet) returns (ok: bool)
    requires h.Valid() && Represents(h, rs)
    modifies h.pdrs.arr, h.fars.arr, h.qers.arr
    ensures ok <==> AllOk(msg.updatePdrs) && AllOk(msg.updateFars) && AllOk(msg.updateQers)
    ensures ok ==> Represents(h, WithUpdates(rs, msg))
    ensures ok ==> fresh(Reach(h) - old(Reach(h)))
  {
    var pdrsOk := UpdatePdrs(h.pdrs, msg.updatePdrs, spare, rs.pdrs);
    if !pdrsOk { return false; }
    ghost var ps := AllUpdated(rs.pdrs, PdrId, Values(msg.updatePdrs));
    var farsOk := UpdateAll(h.fars, FarId, msg.updateFars);
    if !farsOk { return false; }
    assert Holds(h.pdrs.Contents(), ps);
    var qersOk := UpdateAll(h.qers, QerId, msg.updateQers);
    if !qersOk { return false; }
    assert Holds(h.pdrs.Contents(), ps);
    ok := true;
  }

  function MarkingOf(rs: RuleSet, choice: Choice): (m: Marking) {
    if choice.NoSessionQer? || choice.at >= |rs.qers| then Marking([], [])
    else
      Marking(seq(|rs.qers|, i requires 0 <= i < |rs.qers| => if i == choice.at then SessionQos else rs.qers[i].level),
              seq(|rs.pdrs|, i requires 0 <= i < |rs.pdrs| => MovedToEnd(rs.pdrs[i].qerIDs, choice.id)))
  }

  lemma MarkedIs(rs: RuleSet, choice: Choice)
    requires choice.SessionQer? && choice.at < |rs.qers|
    ensures Marked(rs, MarkingOf(rs, choice)) ==
            RuleSet(Partly(rs.pdrs, choice.id, |rs.pdrs|), rs.fars, rs.qers[choice.at := rs.qers[choice.at].(level := SessionQos)])
  {
    var m := MarkingOf(rs, choice);
    var marked := Marked(rs, m);
    assert marked.pdrs == Partly(rs.pdrs, choice.id, |rs.pdrs|);
    assert marked.qers == rs.qers[choice.at := rs.qers[choice.at].(level := SessionQos)];
  }

  lemma UnmarkedIs(rs: RuleSet, choice: Choice)
    requires choice.NoSessionQer? || choice.at >= |rs.qers|
    ensures Marked(rs, MarkingOf(rs, choice)) == rs
  {
    var marked := Marked(rs, MarkingOf(rs, choice));
    assert marked.pdrs == rs.pdrs && marked.qers == rs.qers;
  }

  /** The writes of MarkSessionQer, for whatever QER it chose. */
  method MarkSessionQer(h: RuleSlices, choice: Choice, ghost rs: RuleSet)
    requires h.Valid() && Represents(h, rs)
    modifies h.qers.arr, set c | c in h.pdrs.Contents() :: c.list.arr
    ensures Represents(h, Marked(rs, MarkingOf(rs, choice))) && Reach(h) == old(Reach(h))
  {
    if choice.NoSessionQer? || choice.at >= h.qers.len {
      UnmarkedIs(rs, choice);
      return;
    }
    MarkedIs(rs, choice);
    h.qers.arr[choice.at] := h.qers.arr[choice.at].(level := SessionQos);
    MarkPdrs(h.pdrs, choice.id, rs.pdrs);
  }

  method RemoveRules(h: RuleSlices, msg: Message, ghost rs: RuleSet) returns (c: RuleSlices, ok: bool)
    requires h.Valid() && Represents(h, rs)
    modifies h.pdrs.arr, h.fars.arr, h.qers.arr
    ensures c.Valid()
    ensures ok <==> Removals(rs, msg).Some?
    ensures ok ==> Represents(c, Removals(rs, msg).value.0)
  {
    c := h;
    var pdrs, pdrsOk := RemovePdrs(h.pdrs, msg.removePdrs, rs.pdrs);
    if !pdrsOk { return c, false; }
    var fars, farsOk := RemoveEach(h.fars, FarId, msg.removeFars);
    if !farsOk { return c, false; }
    var qers, qersOk := RemoveEach(h.qers, QerId, msg.removeQers);
    if !qersOk { return c, false; }
    c, ok := RuleSlices(pdrs, fars, qers), true;
  }

  ghost function Held(rs: RuleSet, msg: Message, choice: Choice): (held: RuleSet)
    requires Parses(msg)
  {
    Marked(Edited(rs, msg), MarkingOf(Edited(rs, msg), choice))
  }

  /** The rules a message leaves a session with, if it can be applied. */
  ghost function Publishes(rs: RuleSet, msg: Message, choice: Choice): (r: Option<RuleSet>) {
    if !Parses(msg) then None
    else
      match Removals(Held(rs, msg, choice), msg)
      case None => None
      case Some(removals) => Some(removals.0)
  }

  /** Zero values, for the spare capacity of new arrays. */
  datatype Zero = Zero(cell: Cell, far: Far, qer: Qer)

  method EditOwn(h: RuleSlices, msg: Message, spare: nat, ghost rs: RuleSet)
    returns (c: RuleSlices, ok: bool)
    requires h.Valid() && Represents(h, rs)
    modifies h.pdrs.arr, h.fars.arr, h.qers.arr
    ensures c.Valid() && (ok <==> Parses(msg))
    ensures ok ==> Represents(c, Edited(rs, msg)) && fresh(Reach(c) - old(Reach(h)))
  {
    c, ok := ApplyCreates(h, msg, spare, rs);
    if ok {
      ok := ApplyUpdates(c, msg, spare, WithCreates(rs, msg));
    }
  }

  /** The creates, the updates and the marking of a message, on a clone: no array that existed is written. */
  method Edit(before: RuleSlices, msg: Message, choice: Choice, zero: Zero, spare: nat, ghost rs: RuleSet)
    returns (h: RuleSlices, ok: bool)
    requires before.Valid() && Represents(before, rs)
    ensures h.Valid() && (ok <==> Parses(msg))
    ensures ok ==> Represents(h, Held(rs, msg, choice))
    ensures ok ==> fresh(h.pdrs.arr) && fresh(h.fars.arr) && fresh(h.qers.arr)
  {
    h := Clone(before, zero.cell, zero.far, zero.qer, rs);
    h, ok := EditOwn(h, msg, spare, rs);
    if ok {
      MarkSessionQer(h, choice, Edited(rs, msg));
    }
  }

  /**
   The handler, up to publishing. The two flags are the datapath's answers. There is no modifies
   clause: whether the message is refused or accepted, nothing that existed before has changed.
   */
  method Modify(before: RuleSlices, msg: Message, choice: Choice, writeRejected: bool, deleteRejected: bool,
                zero: Zero, spare: nat, ghost rs: RuleSet)
    returns (accepted: bool, h: RuleSlices, ghost after: RuleSet)
    requires before.Valid() && Represents(before, rs)
    ensures accepted <==> Publishes(rs, msg, choice).Some? && !writeRejected && !deleteRejected
    ensures accepted ==> h.Valid() && Represents(h, after) && Publishes(rs, msg, choice) == Some(after)
  {
    after := rs;
    var edited, parsed := Edit(before, msg, choice, zero, spare, rs);
    if !parsed || writeRejected {
      return false, before, rs;
    }
    var rest, removed := RemoveRules(edited, msg, Held(rs, msg, choice));
    if !removed || deleteRejected {
      return false, before, rs;
    }
    return true, rest, Publishes(rs, msg, choice).value;
  }

  /** The slices of every session hold these rules. */
  ghost predicate AllRepresent(store: map<nat, RuleSlices>, rules: map<nat, RuleSet>)
    reads *
  {
    && store.Keys == rules.Keys
    && forall seid :: seid in store ==> store[seid].Valid() && Represents(store[seid], rules[seid])
  }

  /**
   The store before and after a message for one of its sessions. A refused message leaves every session
   as it was, down to the arrays, and an accepted one leaves all the others.
   */
  method HandleModification(store: map<nat, RuleSlices>, seid: nat, msg: Message, choice: Choice,
                            writeRejected: bool, deleteRejected: bool, zero: Zero, spare: nat, ghost rules: map<nat, RuleSet>)
    returns (accepted: bool, store': map<nat, RuleSlices>, ghost rules': map<nat, RuleSet>)
    requires AllRepresent(store, rules) && seid in store
    ensures AllRepresent(store, rules) && AllRepresent(store', rules')
    ensures accepted <==> Publishes(rules[seid], msg, choice).Some? && !writeRejected && !deleteRejected
    ensures !accepted ==> store' == store && rules' == rules
    ensures accepted ==> rules' == rules[seid := Publishes(rules[seid], msg, choice).value]
    ensures accepted ==> store' == store[seid := store'[seid]]
  {
    ghost var after;
    var h;
    accepted, h, after := Modify(store[seid], msg, choice, writeRejected, deleteRejected, zero, spare, rules[seid]);
    store', rules' := store, rules;
    if accepted {
      store', rules' := store[seid := h], rules[seid := after];
    }
  }

  /** The handler over slices decides and publishes as the one over values does. */
  lemma PublishesAsDecided(rs: RuleSet, msg: Message, choice: Choice, v: Verdicts)
    requires Parses(msg)
    ensures var marking := MarkingOf(Edited(rs, msg), choice);
            var writeRejected := Rejects(v.write, Calls(PlanFor(rs, msg, marking).written));
            var removals := Removals(Held(rs, msg, choice), msg);
            var deleteRejected := removals.Some? && Rejects(v.delete, Calls(removals.value.1));
            var o := Decide(rs, msg, marking, v);
            && (o.Accept? <==> Publishes(rs, msg, choice).Some? && !writeRejected && !deleteRejected)
            && (o.Accept? ==> Some(o.rules) == Publishes(rs, msg, choice))
  {
  }

  /** Without the clone, the stored session sees an update at once, even if the message is refused later. */
  method UpdateWithoutClone(stored: RuleSlices, f: Far, ghost rs: RuleSet)
    requires stored.Valid() && Represents(stored, rs)
    requires FirstIndex(rs.fars, FarId, f.farID) < |rs.fars| && rs.fars[FirstIndex(rs.fars, FarId, f.farID)] != f
    modifies stored.fars.arr
    ensures Represents(stored, rs.(fars := Updated(rs.fars, FarId, f))) && !Represents(stored, rs)
  {
    ghost var i := FirstIndex(rs.fars, FarId, f.farID);
    var _ := UpdateFirst(stored.fars, FarId, f);
    assert stored.fars.Contents()[i] == f;
  }
}
