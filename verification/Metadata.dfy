/**
 The layout of per-packet metadata. Attributes live in scope components, sets of modules that share a
 value, and every component gets a byte offset in the metadata area so that components with a module
 in common do not overlap.
 */
module Metadata {
  import opened Offsets

  // ----- Components and their placement -----

  datatype Component = Component(attr: nat, size: int, modules: set<nat>, offset: int, isAssigned: bool, isInvalid: bool) {
    function End(): (r: int) {
      offset + size
    }
    predicate Sized() {
      1 <= size <= MAX_SIZE
    }
    predicate Placed() {
      isAssigned && offset >= 0
    }
  }

  predicate Shares(a: Component, b: Component) {
    exists m :: m in a.modules && m in b.modules
  }

  /** Two byte ranges have no byte in common. */
  predicate Apart(x: int, size: int, y: int, size': int) {
    x + size <= y || y + size' <= x
  }

  method DisjointFrom(a: Component, b: Component) returns (r: bool)
    ensures r <==> !Shares(a, b)
  {
    var left := a.modules;
    while left != {}
      invariant left <= a.modules
      invariant forall m :: m in a.modules && m !in left ==> m !in b.modules
    {
      var m :| m in left;
      if m in b.modules {
        return false;
      }
      left := left - {m};
    }
    return true;
  }

  predicate Indices(cs: seq<Component>, ns: set<nat>) {
    forall n :: n in ns ==> n < |cs|
  }

  function PlacedNeighbours(cs: seq<Component>, i: nat): (ns: set<nat>)
    requires i < |cs|
    ensures Indices(cs, ns)
  {
    set j: nat | j < |cs| && j != i && cs[j].Placed() && Shares(cs[i], cs[j])
  }

  /**
   The offset to try once the first k neighbours in q have been passed. Given where the k-th ends,
   next tells the offset after it.
   */
  function Reached(cs: seq<Component>, next: int -> int, q: seq<nat>, k: nat): (r: int)
    requires k <= |q| && forall i :: 0 <= i < |q| ==> q[i] < |cs|
  {
    if k == 0 then 0 else next(cs[q[k - 1]].End())
  }

  ghost function Members(q: seq<nat>): set<nat> {
    set n | n in q
  }

  /**
   r is a first fit among the neighbours ns: q are the neighbours passed, lowest offset first, each
   too close to the offset reached before it, and r leaves room below every other neighbour.
   */
  ghost predicate IsPlacement(cs: seq<Component>, ns: set<nat>, size: int, next: int -> int, q: seq<nat>, r: int) {
    && Passed(cs, ns, ns - Members(q), size, next, q)
    && r == Reached(cs, next, q, |q|)
    && (forall n :: n in ns && n !in q ==> r + size <= cs[n].offset)
  }

  /** Neighbours in h are those left in the queue; none of them is before those in q. */
  ghost predicate Passed(cs: seq<Component>, ns: set<nat>, h: set<nat>, size: int, next: int -> int, q: seq<nat>) {
    && Indices(cs, ns) && Indices(cs, h)
    && (forall k :: 0 <= k < |q| ==> q[k] in ns)
    && (forall n, k :: n in h && 0 <= k < |q| ==> cs[q[k]].offset <= cs[n].offset)
    && (forall k, l :: 0 <= k < l < |q| ==> cs[q[k]].offset <= cs[q[l]].offset)
    && (forall k {:trigger Reached(cs, next, q, k)} ::
          0 <= k < |q| ==> Reached(cs, next, q, k) + size > cs[q[k]].offset)
  }

  lemma {:induction false} HasLowest(cs: seq<Component>, h: set<nat>)
    requires h != {} && Indices(cs, h)
    ensures exists c :: c in h && forall n :: n in h ==> cs[c].offset <= cs[n].offset
  {
    var x :| x in h;
    if h != {x} {
      HasLowest(cs, h - {x});
      var c :| c in h - {x} && forall n :: n in h - {x} ==> cs[c].offset <= cs[n].offset;
      var d := if cs[x].offset < cs[c].offset then x else c;
      assert forall n :: n in h ==> cs[d].offset <= cs[n].offset;
    }
  }

  /** The assigned neighbours of a component, as pushed on the priority queue. */
  method Neighbours(cs: seq<Component>, i: nat) returns (h: set<nat>)
    requires i < |cs|
    ensures Indices(cs, h)
    ensures forall j: nat :: j in h <==> j < |cs| && j != i && cs[j].isAssigned && Shares(cs[i], cs[j])
  {
    h := {};
    for j := 0 to |cs|
      invariant forall k: nat :: k in h <==> k < j && k != i && cs[k].isAssigned && Shares(cs[i], cs[k])
    {
      if i != j {
        var disjoint := DisjointFrom(cs[i], cs[j]);
        if !disjoint && cs[j].isAssigned {
          h := h + {j};
        }
      }
    }
  }

  lemma PassOne(cs: seq<Component>, ns: set<nat>, h: set<nat>, size: int, next: int -> int, q: seq<nat>, c: nat)
    requires Passed(cs, ns, h, size, next, q) && c in h && c in ns
    requires forall n :: n in h ==> cs[c].offset <= cs[n].offset
    requires Reached(cs, next, q, |q|) + size > cs[c].offset
    ensures Passed(cs, ns, h - {c}, size, next, q + [c])
    ensures Reached(cs, next, q + [c], |q| + 1) == next(cs[c].End())
  {
    var p := q + [c];
    assert forall k :: 0 <= k < |p| ==> p[k] == if k < |q| then q[k] else c;
    assert forall k :: 0 <= k < |p| ==> p[k] in ns;
    forall k: nat | k <= |q| ensures Reached(cs, next, p, k) == Reached(cs, next, q, k) {
    }
  }

  /** Pops the queue h, lowest offset first and ties in any order, until there is room for size bytes. */
  method FirstFit(cs: seq<Component>, queue: set<nat>, size: int, next: int -> int, ghost ns: set<nat>)
    returns (offset: int)
    requires Indices(cs, queue) && forall n :: n in queue ==> cs[n].offset >= NO_SPACE
    requires forall n :: n in ns <==> n in queue && cs[n].offset >= 0
    ensures exists q :: IsPlacement(cs, ns, size, next, q, offset)
  {
    var h := queue;
    ghost var q: seq<nat> := [];
    offset := 0;
    while h != {}
      invariant h <= queue && Passed(cs, ns, h, size, next, q) && offset == Reached(cs, next, q, |q|)
      invariant forall n :: n in ns ==> n in h || n in q
    {
      HasLowest(cs, h);
      var c :| c in h && forall n :: n in h ==> cs[c].offset <= cs[n].offset;
      if cs[c].offset == NO_READ || cs[c].offset == NO_WRITE || cs[c].offset == NO_SPACE {
        h := h - {c};
        continue;
      }
      if offset + size > cs[c].offset {
        PassOne(cs, ns, h, size, next, q, c);
        offset := next(cs[c].End());
        q, h := q + [c], h - {c};
      } else {
        break;
      }
    }
    assert IsPlacement(cs, ns, size, next, q, offset);
  }

  function Next(size: int): (next: int -> int)
    requires 1 <= size <= MAX_SIZE
  {
    end => ComputeNextOffset(Int8(end), size)
  }

  method Place(cs: seq<Component>, i: nat) returns (offset: int)
    requires i < |cs| && cs[i].Sized()
    requires forall j :: 0 <= j < |cs| && cs[j].isAssigned ==> cs[j].offset >= NO_SPACE
    ensures exists q :: IsPlacement(cs, PlacedNeighbours(cs, i), cs[i].size, Next(cs[i].size), q, offset)
  {
    var h := Neighbours(cs, i);
    offset := FirstFit(cs, h, cs[i].size, Next(cs[i].size), PlacedNeighbours(cs, i));
  }

  // ----- When a placement is safe -----

  /** After a neighbour that ends in the area comes an offset past it with room for size bytes, or no space. */
  ghost predicate Advances(next: int -> int, size: int) {
    forall x :: 0 <= x <= TOTAL_SIZE ==> next(x) == NO_SPACE || (x <= next(x) && next(x) + size <= TOTAL_SIZE)
  }

  lemma NextAdvances(size: int)
    requires 1 <= size <= MAX_SIZE
    ensures Advances(Next(size), size) && RoundedSize(size) > 0
    ensures forall x :: 0 <= x <= TOTAL_SIZE && Next(size)(x) >= 0 ==> Next(size)(x) % RoundedSize(size) == 0
  {
    RoundedSizes(size);
    var m := RoundedSize(size);
    forall x | 0 <= x <= TOTAL_SIZE
      ensures Next(size)(x) == FirstAligned(x, size, m) && x <= CeilTo(x, m) && CeilTo(x, m) % m == 0
    {
      ComputeNextOffsetIsFirstAligned(x, size);
      CeilToIsCeil(x, m);
    }
  }

  predicate InArea(c: Component) {
    0 <= c.offset && c.Sized() && c.End() <= TOTAL_SIZE
  }

  predicate AllInArea(cs: seq<Component>, ns: set<nat>) {
    Indices(cs, ns) && forall n :: n in ns ==> InArea(cs[n])
  }

  predicate ClearOf(cs: seq<Component>, ns: set<nat>, r: int, size: int)
    requires Indices(cs, ns)
  {
    forall n :: n in ns ==> Apart(r, size, cs[n].offset, cs[n].size)
  }

  predicate PairwiseApart(cs: seq<Component>, ns: set<nat>)
    requires Indices(cs, ns)
  {
    forall m, n :: m in ns && n in ns && m != n ==> Apart(cs[m].offset, cs[m].size, cs[n].offset, cs[n].size)
  }

  /** A neighbour that was passed starts before the offset found. */
  lemma PassedStartsBelow(cs: seq<Component>, ns: set<nat>, size: int, next: int -> int, q: seq<nat>, r: int, k: nat)
    requires IsPlacement(cs, ns, size, next, q, r) && AllInArea(cs, ns) && Advances(next, size)
    requires k < |q| && r != NO_SPACE
    ensures q[k] in ns && cs[q[k]].offset <= cs[q[|q| - 1]].offset < cs[q[|q| - 1]].End() <= r && r + size <= TOTAL_SIZE
  {
    var last := q[|q| - 1];
    assert last in ns && InArea(cs[last]) && r == next(cs[last].End());
    assert k < |q| - 1 ==> cs[q[k]].offset <= cs[last].offset;
  }

  /** An offset found overlaps no neighbour exactly when none of those passed reaches beyond it. */
  lemma SafeIffNoneReachesPast(cs: seq<Component>, ns: set<nat>, size: int, next: int -> int, q: seq<nat>, r: int)
    requires IsPlacement(cs, ns, size, next, q, r) && AllInArea(cs, ns) && Advances(next, size)
    requires 1 <= size && r != NO_SPACE
    ensures ClearOf(cs, ns, r, size) <==> forall k :: 0 <= k < |q| ==> cs[q[k]].End() <= r
  {
    forall k | 0 <= k < |q|
      ensures Apart(r, size, cs[q[k]].offset, cs[q[k]].size) <==> cs[q[k]].End() <= r
    {
      PassedStartsBelow(cs, ns, size, next, q, r, k);
    }
    forall n | n in ns && (forall k :: 0 <= k < |q| ==> cs[q[k]].End() <= r)
      ensures Apart(r, size, cs[n].offset, cs[n].size)
    {
      if n in q {
        var k :| 0 <= k < |q| && q[k] == n;
      }
    }
  }

  /** Neighbours are in the same order by offset and by end, though they may overlap. */
  predicate Staggered(cs: seq<Component>, ns: set<nat>)
    requires Indices(cs, ns)
  {
    forall m, n :: m in ns && n in ns && cs[m].offset <= cs[n].offset ==> cs[m].End() <= cs[n].End()
  }

  lemma ApartAreStaggered(cs: seq<Component>, ns: set<nat>)
    requires AllInArea(cs, ns) && PairwiseApart(cs, ns)
    ensures Staggered(cs, ns)
  {
  }

  /** A placement among staggered neighbours is within the area and overlaps none of them. */
  lemma StaggeredNeighboursAreSafe(cs: seq<Component>, ns: set<nat>, size: int, next: int -> int, q: seq<nat>, r: int)
    requires IsPlacement(cs, ns, size, next, q, r) && AllInArea(cs, ns) && Advances(next, size)
    requires 1 <= size <= MAX_SIZE && Staggered(cs, ns)
    ensures r == NO_SPACE || (0 <= r && r + size <= TOTAL_SIZE && ClearOf(cs, ns, r, size))
  {
    if r != NO_SPACE {
      forall k | 0 <= k < |q| ensures cs[q[k]].End() <= r && r + size <= TOTAL_SIZE {
        PassedStartsBelow(cs, ns, size, next, q, r, k);
        assert q[|q| - 1] in ns && InArea(cs[q[k]]);
      }
      SafeIffNoneReachesPast(cs, ns, size, next, q, r);
      assert q == [] ==> r == 0;
      assert q != [] ==> cs[q[0]].End() <= r;
    }
  }

  // ----- No offset is passed over -----

  /** Below the offset after a neighbour, or anywhere if there is none, a multiple of the rounded size overlaps the neighbour. */
  lemma BelowNextOverlaps(end: int, size: int, o: int)
    requires 1 <= size <= MAX_SIZE && 0 <= end <= TOTAL_SIZE && RoundedSize(size) > 0
    requires 0 <= o && o % RoundedSize(size) == 0 && o + size <= TOTAL_SIZE
    requires Next(size)(end) == NO_SPACE || o < Next(size)(end)
    ensures o < end
  {
    var m := RoundedSize(size);
    ComputeNextOffsetIsFirstAligned(end, size);
    CeilToIsCeil(end, m);
    if o >= end {
      CeilToIs(end, m, o);
    }
  }

  /** Among offsets reached in turn, the step that passes a given one. */
  lemma {:induction false} PassingStep(cs: seq<Component>, next: int -> int, q: seq<nat>, n: nat, o: int) returns (k: nat)
    requires n <= |q| && (forall i :: 0 <= i < |q| ==> q[i] < |cs|) && 0 <= o < Reached(cs, next, q, n)
    ensures k < n && Reached(cs, next, q, k) <= o < Reached(cs, next, q, k + 1)
  {
    if Reached(cs, next, q, n - 1) <= o {
      k := n - 1;
    } else {
      k := PassingStep(cs, next, q, n - 1, o);
    }
  }

  lemma PassedOverlaps(cs: seq<Component>, ns: set<nat>, size: int, q: seq<nat>, k: nat, o: int)
    requires 1 <= size <= MAX_SIZE && RoundedSize(size) > 0
    requires Passed(cs, ns, ns - Members(q), size, Next(size), q) && AllInArea(cs, ns) && k < |q|
    requires 0 <= o && o % RoundedSize(size) == 0 && o + size <= TOTAL_SIZE
    requires Reached(cs, Next(size), q, k) <= o
    requires Reached(cs, Next(size), q, k + 1) == NO_SPACE || o < Reached(cs, Next(size), q, k + 1)
    ensures !ClearOf(cs, ns, o, size)
  {
    var c := cs[q[k]];
    assert q[k] in ns && InArea(c) && Reached(cs, Next(size), q, k) + size > c.offset;
    BelowNextOverlaps(c.End(), size, o);
  }

  /**
   First fit: every aligned offset in the area below the one found overlaps a neighbour, and if no space was
   found every one does. So the component gets the lowest offset there is for it, or there is none.
   */
  lemma NothingLower(cs: seq<Component>, ns: set<nat>, size: int, q: seq<nat>, r: int, o: int)
    requires 1 <= size <= MAX_SIZE && RoundedSize(size) > 0
    requires IsPlacement(cs, ns, size, Next(size), q, r) && AllInArea(cs, ns)
    requires 0 <= o && o % RoundedSize(size) == 0 && o + size <= TOTAL_SIZE && (r == NO_SPACE || o < r)
    ensures !ClearOf(cs, ns, o, size)
  {
    var next, n := Next(size), |q|;
    var k: nat;
    if r != NO_SPACE {
      k := PassingStep(cs, next, q, n, o);
    } else if Reached(cs, next, q, n - 1) <= o {
      k := n - 1;
    } else {
      k := PassingStep(cs, next, q, n - 1, o);
    }
    PassedOverlaps(cs, ns, size, q, k, o);
  }

  // ----- Assigning all offsets -----

  /** The components before the last of p that are placed and share a module with it. */
  function Earlier(p: seq<Component>): (ns: set<nat>)
    requires p != []
    ensures Indices(p, ns)
  {
    set j: nat | j < |p| - 1 && p[j].Placed() && Shares(p[|p| - 1], p[j])
  }

  /** A component that gets an offset of its own. */
  predicate NeedsOffset(c: Component) {
    !c.isInvalid && |c.modules| != 1
  }

  /** What became of the last component of p, given what became of those before it. */
  ghost predicate Outcome(p: seq<Component>)
    requires p != []
  {
    var c := p[|p| - 1];
    if c.isInvalid then
      c.isAssigned && c.offset == NO_READ
    else if |c.modules| == 1 then
      !c.isAssigned
    else
      c.isAssigned && c.Sized()
      && exists q :: IsPlacement(p, Earlier(p), c.size, Next(c.size), q, c.offset)
  }

  ghost predicate Outcomes(cs: seq<Component>) {
    forall n :: 0 < n <= |cs| ==> Outcome(cs[..n])
  }

  predicate SameShape(a: Component, b: Component) {
    a.attr == b.attr && a.size == b.size && a.modules == b.modules && a.isInvalid == b.isInvalid
  }

  /** Attributes that no module reads downstream need not be written. */
  function Filled(c: Component): (r: Component) {
    if |c.modules| == 1 then c.(offset := NO_WRITE) else c
  }

  /** A placement depends on nothing but the neighbours. */
  lemma PlacementFrame(p: seq<Component>, cs: seq<Component>, ns: set<nat>, size: int, next: int -> int, q: seq<nat>, r: int)
    requires IsPlacement(p, ns, size, next, q, r)
    requires forall n :: n in ns ==> n < |cs| && cs[n] == p[n]
    ensures IsPlacement(cs, ns, size, next, q, r)
  {
    forall k: nat | k <= |q| ensures Reached(cs, next, q, k) == Reached(p, next, q, k) {
      assert k > 0 ==> q[k - 1] in ns;
    }
  }

  /** Neighbours after the component being placed are not assigned yet. */
  lemma PlacementInPrefix(cs: seq<Component>, i: nat, q: seq<nat>, r: int)
    requires i < |cs| && cs[i].Sized() && forall j :: i <= j < |cs| ==> !cs[j].isAssigned
    requires IsPlacement(cs, PlacedNeighbours(cs, i), cs[i].size, Next(cs[i].size), q, r)
    ensures IsPlacement(cs[..i] + [cs[i].(offset := r, isAssigned := true)],
                        Earlier(cs[..i] + [cs[i].(offset := r, isAssigned := true)]), cs[i].size, Next(cs[i].size), q, r)
  {
    var p := cs[..i] + [cs[i].(offset := r, isAssigned := true)];
    assert Earlier(p) == PlacedNeighbours(cs, i);
    PlacementFrame(cs, p, Earlier(p), cs[i].size, Next(cs[i].size), q, r);
  }

  /** A component with a marker or with an aligned place in the area. */
  predicate Bounded(c: Component) {
    c.isAssigned ==>
      || c.offset == NO_READ || c.offset == NO_SPACE
      || (InArea(c) && RoundedSize(c.size) > 0 && c.offset % RoundedSize(c.size) == 0)
  }

  lemma OutcomeBounded(p: seq<Component>)
    requires p != [] && Outcome(p)
    requires forall j :: 0 <= j < |p| - 1 ==> Bounded(p[j])
    ensures Bounded(p[|p| - 1])
  {
    var c := p[|p| - 1];
    if NeedsOffset(c) {
      var q :| IsPlacement(p, Earlier(p), c.size, Next(c.size), q, c.offset);
      NextAdvances(c.size);
      if q != [] && c.offset != NO_SPACE {
        PassedStartsBelow(p, Earlier(p), c.size, Next(c.size), q, c.offset, 0);
      }
    }
  }

  lemma {:induction false} OutcomesBounded(cs: seq<Component>)
    requires Outcomes(cs)
    ensures forall i :: 0 <= i < |cs| ==> Bounded(cs[i])
  {
    if cs != [] {
      var p := cs[..|cs| - 1];
      assert forall n :: 0 < n <= |p| ==> p[..n] == cs[..n];
      OutcomesBounded(p);
      assert cs[..|cs|] == cs;
      OutcomeBounded(cs);
    }
  }

  lemma ExtendOutcomes(before: seq<Component>, c: Component)
    requires Outcomes(before) && Outcome(before + [c])
    ensures Outcomes(before + [c])
  {
    var p := before + [c];
    assert p[..|p|] == p;
    assert forall n :: 0 < n <= |before| ==> p[..n] == before[..n];
  }

  /** Component i, once it has been given an offset or a marker. */
  method AssignOne(cs: seq<Component>, i: nat) returns (c: Component)
    requires i < |cs| && Outcomes(cs[..i])
    requires forall j :: i <= j < |cs| ==> cs[j].Sized() && !cs[j].isAssigned
    ensures SameShape(c, cs[i]) && Outcomes(cs[..i] + [c])
  {
    OutcomesBounded(cs[..i]);
    assert forall j :: 0 <= j < i ==> cs[j] == cs[..i][j];
    c := cs[i];
    if c.isInvalid {
      c := c.(offset := NO_READ, isAssigned := true);
    } else if !(c.isAssigned || |c.modules| == 1) {
      var offset := Place(cs, i);
      ghost var q :| IsPlacement(cs, PlacedNeighbours(cs, i), c.size, Next(c.size), q, offset);
      PlacementInPrefix(cs, i, q, offset);
      c := c.(offset := offset, isAssigned := true);
    }
    ExtendOutcomes(cs[..i], c);
  }

  // ----- The layout as a whole -----

  /** Two earlier neighbours of a component are neighbours of each other. */
  predicate EarlierNeighboursShare(cs: seq<Component>) {
    forall i, j, k :: 0 <= j < k < i < |cs| && NeedsOffset(cs[j]) && NeedsOffset(cs[k]) ==>
                        Shares(cs[i], cs[j]) && Shares(cs[i], cs[k]) ==> Shares(cs[j], cs[k])
  }

  predicate NoOverlap(cs: seq<Component>) {
    forall i, j :: 0 <= j < i < |cs| && cs[i].Placed() && cs[j].Placed() && Shares(cs[i], cs[j])
                   ==> Apart(cs[i].offset, cs[i].size, cs[j].offset, cs[j].size)
  }

  lemma NoOverlapExtends(cs: seq<Component>)
    requires cs != [] && NoOverlap(cs[..|cs| - 1])
    requires cs[|cs| - 1].Placed() ==> ClearOf(cs, Earlier(cs), cs[|cs| - 1].offset, cs[|cs| - 1].size)
    ensures NoOverlap(cs)
  {
    var p := cs[..|cs| - 1];
    forall i, j | 0 <= j < i < |cs| && cs[i].Placed() && cs[j].Placed() && Shares(cs[i], cs[j])
      ensures Apart(cs[i].offset, cs[i].size, cs[j].offset, cs[j].size)
    {
      if i < |p| {
        assert p[i] == cs[i] && p[j] == cs[j];
      } else {
        assert j in Earlier(cs);
      }
    }
  }

  lemma {:induction false} LayoutHasNoOverlap(cs: seq<Component>)
    requires Outcomes(cs) && EarlierNeighboursShare(cs)
    ensures NoOverlap(cs)
  {
    if cs != [] {
      var p := cs[..|cs| - 1];
      assert forall n :: 0 < n <= |p| ==> p[..n] == cs[..n];
      LayoutHasNoOverlap(p);
      assert cs[..|cs|] == cs;
      EarlierAreApart(cs);
      EarlierInArea(cs);
      ApartAreStaggered(cs, Earlier(cs));
      LastIsApart(cs);
      NoOverlapExtends(cs);
    }
  }

  /** The same, whatever shares a module, if the earlier neighbours of each component are staggered. */
  lemma {:induction false} StaggeredLayoutHasNoOverlap(cs: seq<Component>)
    requires Outcomes(cs) && forall n :: 0 < n <= |cs| ==> Staggered(cs[..n], Earlier(cs[..n]))
    ensures NoOverlap(cs)
  {
    if cs != [] {
      var p := cs[..|cs| - 1];
      assert forall n :: 0 < n <= |p| ==> p[..n] == cs[..n];
      StaggeredLayoutHasNoOverlap(p);
      assert cs[..|cs|] == cs;
      LastIsApart(cs);
      NoOverlapExtends(cs);
    }
  }

  lemma PlacedNeedsOffset(cs: seq<Component>, j: nat)
    requires Outcomes(cs) && j < |cs| && cs[j].Placed()
    ensures NeedsOffset(cs[j])
  {
    assert Outcome(cs[..j + 1]);
  }

  lemma EarlierAreApart(cs: seq<Component>)
    requires cs != [] && Outcomes(cs) && EarlierNeighboursShare(cs) && NoOverlap(cs[..|cs| - 1])
    ensures PairwiseApart(cs, Earlier(cs))
  {
    var p := cs[..|cs| - 1];
    forall j, k | j in Earlier(cs) && k in Earlier(cs) && j < k
      ensures Apart(cs[j].offset, cs[j].size, cs[k].offset, cs[k].size)
    {
      PlacedNeedsOffset(cs, j);
      PlacedNeedsOffset(cs, k);
      assert Shares(cs[j], cs[k]) && p[j] == cs[j] && p[k] == cs[k];
      assert Shares(p[k], p[j]);
    }
  }

  lemma EarlierInArea(cs: seq<Component>)
    requires cs != [] && Outcomes(cs)
    ensures AllInArea(cs, Earlier(cs))
  {
    OutcomesBounded(cs);
  }

  lemma LastIsApart(cs: seq<Component>)
    requires cs != [] && Outcomes(cs) && Outcome(cs) && Staggered(cs, Earlier(cs))
    ensures cs[|cs| - 1].Placed() ==> ClearOf(cs, Earlier(cs), cs[|cs| - 1].offset, cs[|cs| - 1].size)
  {
    var c, ns := cs[|cs| - 1], Earlier(cs);
    EarlierInArea(cs);
    if c.Placed() {
      PlacedNeedsOffset(cs, |cs| - 1);
      var q :| IsPlacement(cs, ns, c.size, Next(c.size), q, c.offset);
      NextAdvances(c.size);
      StaggeredNeighboursAreSafe(cs, ns, c.size, Next(c.size), q, c.offset);
    }
  }

  lemma FilledHasNoOverlap(start: seq<Component>, placed: seq<Component>, final: seq<Component>)
    requires |start| == |placed| == |final| && Outcomes(placed)
    requires forall i :: 0 <= i < |start| ==> SameShape(placed[i], start[i])
    requires forall i :: 0 <= i < |start| ==> final[i] == Filled(placed[i])
    ensures EarlierNeighboursShare(start) ==> NoOverlap(final)
  {
    if EarlierNeighboursShare(start) {
      forall j, k | 0 <= j < |start| && 0 <= k < |start|
        ensures Shares(placed[j], placed[k]) <==> Shares(start[j], start[k])
      {
      }
      assert forall i :: 0 <= i < |start| ==> (NeedsOffset(placed[i]) <==> NeedsOffset(start[i]));
      LayoutHasNoOverlap(placed);
      forall i, j | 0 <= j < i < |final| && Shares(final[i], final[j])
        ensures Shares(placed[i], placed[j])
      {
      }
    }
  }

  /** Places the components in turn. */
  method PlaceAll(a: array<Component>)
    requires forall i :: 0 <= i < a.Length ==> a[i].Sized() && !a[i].isAssigned
    modifies a
    ensures Outcomes(a[..]) && forall i :: 0 <= i < a.Length ==> SameShape(a[i], old(a[i]))
  {
    for i := 0 to a.Length
      invariant Outcomes(a[..i])
      invariant forall j :: 0 <= j < i ==> SameShape(a[j], old(a[j]))
      invariant forall j :: i <= j < a.Length ==> a[j] == old(a[j])
    {
      assert a[..][..i] == a[..i];
      ghost var before := a[..i];
      var c := AssignOne(a[..], i);
      a[i] := c;
      assert a[..i + 1] == before + [c];
    }
    assert a[..] == a[..a.Length];
  }

  // ----- A layout that overlaps -----

  function Sharing(cs: seq<Component>, i: nat): (ns: set<nat>)
    requires i < |cs|
  {
    set j: nat | j < |cs| && j != i && Shares(cs[i], cs[j])
  }

  function Degree(cs: seq<Component>, i: nat): (r: nat)
    requires i < |cs|
  {
    |Sharing(cs, i)|
  }

  /** Components in the order of their degrees, highest first, as the sort leaves them. Ties come in any order. */
  predicate ByDegree(cs: seq<Component>) {
    forall i, j :: 0 <= i < j < |cs| ==> Degree(cs, i) >= Degree(cs, j)
  }

  function Fresh(attr: nat, size: int, modules: set<nat>): (c: Component) {
    Component(attr, size, modules, 0, false, false)
  }

  /** Six attributes. A large and a small neighbour of the component at index 3 do not share a module. */
  function Tangle(): (cs: seq<Component>) {
    [Fresh(0, 32, {1, 2}), Fresh(1, 4, {5, 6}), Fresh(2, 4, {3, 5}),
     Fresh(3, 4, {1, 3}), Fresh(4, 1, {2, 7}), Fresh(5, 1, {6, 8})]
  }

  lemma TangleSharing(cs: seq<Component>)
    requires |cs| == 6 && forall i :: 0 <= i < 6 ==> SameShape(cs[i], Tangle()[i])
    ensures Sharing(cs, 0) == {3, 4} && Sharing(cs, 1) == {2, 5} && Sharing(cs, 2) == {1, 3}
    ensures Sharing(cs, 3) == {0, 2} && Sharing(cs, 4) == {0} && Sharing(cs, 5) == {1}
  {
    assert 1 in cs[0].modules && 1 in cs[3].modules && 2 in cs[0].modules && 2 in cs[4].modules;
    assert 5 in cs[1].modules && 5 in cs[2].modules && 6 in cs[1].modules && 6 in cs[5].modules;
    assert 3 in cs[2].modules && 3 in cs[3].modules;
  }

  lemma TangleIsByDegree()
    ensures ByDegree(Tangle())
  {
    TangleSharing(Tangle());
    assert forall i :: 0 <= i < 6 ==> Degree(Tangle(), i) == if i < 4 then 2 else 1;
  }

  lemma NextOfFour(x: int)
    requires x in {4, 8, 32}
    ensures Next(4)(x) == x
  {
    RoundedSizes(4);
    ComputeNextOffsetIsFirstAligned(x, 4);
    CeilToIs(x, 4, x);
  }

  lemma EndsAreMembers(q: seq<nat>)
    ensures q != [] ==> q[0] in q && q[|q| - 1] in q
  {
  }

  lemma AloneAtZero(cs: seq<Component>, size: int, next: int -> int, q: seq<nat>, r: int)
    requires IsPlacement(cs, {}, size, next, q, r)
    ensures r == 0
  {
    EndsAreMembers(q);
  }

  lemma AfterOne(cs: seq<Component>, size: int, next: int -> int, q: seq<nat>, r: int, n: nat)
    requires IsPlacement(cs, {n}, size, next, q, r) && size > cs[n].offset
    ensures r == next(cs[n].End())
  {
    EndsAreMembers(q);
    assert n in {n};
  }

  /** Four bytes among 32 bytes at offset 0 and four at offset 4: the latter is passed last. */
  lemma InsideLarge(cs: seq<Component>, next: int -> int, q: seq<nat>, r: int, a: nat, b: nat)
    requires IsPlacement(cs, {a, b}, 4, next, q, r) && next(32) == 32
    requires cs[a].offset == 0 && cs[a].size == 32 && cs[b].offset == 4 && cs[b].size == 4
    ensures r == next(8)
  {
    var ns := {a, b};
    EndsAreMembers(q);
    assert a in ns && b in ns && forall k :: 0 <= k < |q| ==> q[k] in ns;
    if b in q {
      var k :| 0 <= k < |q| && q[k] == b;
      assert k < |q| - 1 ==> cs[q[k]].offset <= cs[q[|q| - 1]].offset;
    }
  }

  /** The placed components before i that share a module with it. */
  function EarlierAt(cs: seq<Component>, i: nat): (ns: set<nat>)
    requires i < |cs|
  {
    set j: nat | j in Sharing(cs, i) && j < i && cs[j].Placed()
  }

  lemma OutcomeAt(cs: seq<Component>, i: nat) returns (q: seq<nat>)
    requires Outcomes(cs) && i < |cs| && NeedsOffset(cs[i])
    ensures cs[i].isAssigned && cs[i].Sized()
    ensures IsPlacement(cs, EarlierAt(cs, i), cs[i].size, Next(cs[i].size), q, cs[i].offset)
  {
    var p := cs[..i + 1];
    assert Outcome(p) && p[i] == cs[i];
    assert Earlier(p) == EarlierAt(cs, i);
    q :| IsPlacement(p, Earlier(p), cs[i].size, Next(cs[i].size), q, cs[i].offset);
    PlacementFrame(p, cs, Earlier(p), cs[i].size, Next(cs[i].size), q, cs[i].offset);
  }

  lemma TangleNeeds(cs: seq<Component>)
    requires |cs| == 6 && forall i :: 0 <= i < 6 ==> SameShape(cs[i], Tangle()[i])
    ensures forall i :: 0 <= i < 4 ==> NeedsOffset(cs[i]) && cs[i].size == if i == 0 then 32 else 4
  {
  }

  lemma TangleFirst(cs: seq<Component>)
    requires |cs| == 6 && Outcomes(cs) && forall i :: 0 <= i < 6 ==> SameShape(cs[i], Tangle()[i])
    ensures cs[0].Placed() && cs[0].offset == 0 && cs[1].Placed() && cs[1].offset == 0
  {
    TangleNeeds(cs);
    TangleSharing(cs);
    assert EarlierAt(cs, 0) == {} && EarlierAt(cs, 1) == {};
    var q := OutcomeAt(cs, 0);
    AloneAtZero(cs, 32, Next(32), q, cs[0].offset);
    q := OutcomeAt(cs, 1);
    AloneAtZero(cs, 4, Next(4), q, cs[1].offset);
  }

  lemma TangleSecond(cs: seq<Component>)
    requires |cs| == 6 && Outcomes(cs) && forall i :: 0 <= i < 6 ==> SameShape(cs[i], Tangle()[i])
    requires cs[1].Placed() && cs[1].offset == 0
    ensures cs[2].Placed() && cs[2].offset == 4
  {
    TangleNeeds(cs);
    assert EarlierAt(cs, 2) == {1} by {
      TangleSharing(cs);
    }
    var q := OutcomeAt(cs, 2);
    AfterOne(cs, 4, Next(4), q, cs[2].offset, 1);
    assert cs[1].End() == 4;
    NextOfFour(4);
  }

  lemma TangleThird(cs: seq<Component>)
    requires |cs| == 6 && Outcomes(cs) && forall i :: 0 <= i < 6 ==> SameShape(cs[i], Tangle()[i])
    requires cs[0].Placed() && cs[0].offset == 0 && cs[2].Placed() && cs[2].offset == 4
    ensures cs[3].Placed() && cs[3].offset == 8
  {
    TangleNeeds(cs);
    assert EarlierAt(cs, 3) == {0, 2} by {
      TangleSharing(cs);
    }
    var q := OutcomeAt(cs, 3);
    NextOfFour(8);
    NextOfFour(32);
    InsideLarge(cs, Next(4), q, cs[3].offset, 0, 2);
  }

  /**
   In this order, which the source's sort by degree can produce, these components always end up with two that share a
   module and overlap.
   */
  lemma TangleOverlaps(cs: seq<Component>)
    requires |cs| == 6 && Outcomes(cs) && forall i :: 0 <= i < 6 ==> SameShape(cs[i], Tangle()[i])
    ensures ByDegree(Tangle()) && !EarlierNeighboursShare(cs) && !NoOverlap(cs)
  {
    TangleFirst(cs);
    TangleSecond(cs);
    TangleThird(cs);
    TangleIsByDegree();
    TangleShares(cs);
  }

  lemma TangleShares(cs: seq<Component>)
    requires |cs| == 6 && forall i :: 0 <= i < 6 ==> SameShape(cs[i], Tangle()[i])
    ensures Shares(cs[3], cs[0]) && Shares(cs[3], cs[2]) && !Shares(cs[0], cs[2])
    ensures NeedsOffset(cs[0]) && NeedsOffset(cs[2]) && cs[0].size == 32 && cs[3].size == 4
  {
    assert 1 in cs[3].modules && 1 in cs[0].modules && 3 in cs[3].modules && 3 in cs[2].modules;
  }
}
