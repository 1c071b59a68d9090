/**
 The DMA memory pool: a first-fit allocator over a sorted set of free regions that are merged
 whenever they touch. The set is kept in canonical form, so it is determined by the free bytes.
 */
module MemoryPool {
  import opened Wrappers

  datatype Region = Region(addr: nat, size: nat)

  const PAGE: nat := 4096
  const TWO_64: nat := 0x1_0000_0000_0000_0000

  function End(r: Region): (e: nat) {
    r.addr + r.size
  }

  ghost predicate In(r: Region, x: int) {
    r.addr <= x < End(r)
  }

  /** Sorted, non-empty, disjoint, and never touching. */
  ghost predicate Canonical(rs: seq<Region>) {
    && (forall i :: 0 <= i < |rs| ==> rs[i].size > 0)
    && (forall i, j :: 0 <= i < j < |rs| ==> End(rs[i]) < rs[j].addr)
  }

  ghost predicate Aligned(rs: seq<Region>) {
    forall i :: 0 <= i < |rs| ==> rs[i].addr % PAGE == 0 && rs[i].size % PAGE == 0
  }

  /** The byte lies in one of the regions. */
  ghost predicate Covered(rs: seq<Region>, x: int) {
    exists i :: 0 <= i < |rs| && In(rs[i], x)
  }

  function Total(rs: seq<Region>): (n: nat) {
    TotalTo(rs, |rs|)
  }

  /** The bytes of the first n regions. */
  function TotalTo(rs: seq<Region>, n: nat): (r: nat)
    requires n <= |rs|
  {
    if n == 0 then 0 else TotalTo(rs, n - 1) + rs[n - 1].size
  }

  // ----- Canonical form -----

  lemma CoveredConcat(a: seq<Region>, b: seq<Region>, x: int)
    ensures Covered(a + b, x) <==> Covered(a, x) || Covered(b, x)
  {
    if i :| 0 <= i < |a| && In(a[i], x) {
      assert In((a + b)[i], x);
    }
    if i :| 0 <= i < |b| && In(b[i], x) {
      assert In((a + b)[|a| + i], x);
    }
    if i :| 0 <= i < |a + b| && In((a + b)[i], x) {
      assert i < |a| ==> In(a[i], x);
      assert i >= |a| ==> In(b[i - |a|], x);
    }
  }

  lemma CoveredOne(r: Region, x: int)
    ensures Covered([r], x) <==> In(r, x)
  {
    if In(r, x) {
      assert In([r][0], x);
    }
  }

  lemma {:induction false} TotalFront(a: seq<Region>, b: seq<Region>, n: nat)
    requires n <= |a|
    ensures TotalTo(a + b, n) == TotalTo(a, n)
  {
    if n > 0 {
      TotalFront(a, b, n - 1);
    }
  }

  lemma {:induction false} TotalBack(a: seq<Region>, b: seq<Region>, n: nat)
    requires n <= |b|
    ensures TotalTo(a + b, |a| + n) == Total(a) + TotalTo(b, n)
  {
    if n == 0 {
      TotalFront(a, b, |a|);
    } else {
      TotalBack(a, b, n - 1);
    }
  }

  lemma TotalConcat(a: seq<Region>, b: seq<Region>)
    ensures Total(a + b) == Total(a) + Total(b)
  {
    TotalBack(a, b, |b|);
  }

  lemma TotalOne(r: Region)
    ensures Total([r]) == r.size
  {
    assert TotalTo([r], 0) == 0;
  }

  /** The first region of a canonical list starts at its least byte and ends at its first gap. */
  lemma FirstRegion(rs: seq<Region>, x: int)
    requires Canonical(rs) && rs != []
    ensures Covered(rs, rs[0].addr) && !Covered(rs, End(rs[0]))
    ensures In(rs[0], x) ==> Covered(rs, x)
    ensures Covered(rs, x) ==> x >= rs[0].addr
    ensures Covered(rs[1..], x) <==> Covered(rs, x) && x > End(rs[0])
  {
    assert In(rs[0], rs[0].addr);
    assert rs == [rs[0]] + rs[1..];
    CoveredConcat([rs[0]], rs[1..], x);
    CoveredOne(rs[0], x);
    if i :| 0 <= i < |rs[1..]| && In(rs[1..][i], x) {
      assert rs[1..][i] == rs[i + 1];
    }
  }

  /** Two canonical lists of the same bytes are the same list. */
  lemma {:induction false} CanonicalIsUnique(a: seq<Region>, b: seq<Region>)
    requires Canonical(a) && Canonical(b)
    requires forall x: int :: Covered(a, x) <==> Covered(b, x)
    ensures a == b
  {
    if a == [] {
      if b != [] {
        FirstRegion(b, 0);
      }
    } else {
      FirstRegion(a, 0);
      assert b != [];
      SameFirstRegion(a, b);
      forall x: int
        ensures Covered(a[1..], x) <==> Covered(b[1..], x)
      {
        FirstRegion(a, x);
        FirstRegion(b, x);
      }
      CanonicalIsUnique(a[1..], b[1..]);
      assert a == [a[0]] + a[1..] && b == [b[0]] + b[1..];
    }
  }

  lemma SameFirstRegion(a: seq<Region>, b: seq<Region>)
    requires Canonical(a) && Canonical(b) && a != [] && b != []
    requires forall x: int :: Covered(a, x) <==> Covered(b, x)
    ensures a[0] == b[0]
  {
    FirstRegion(a, b[0].addr);
    FirstRegion(b, a[0].addr);
    FirstRegion(a, End(b[0]));
    FirstRegion(b, End(a[0]));
  }

  /** Consecutive covered bytes lie in one region. */
  lemma {:induction false} RunInOneRegion(rs: seq<Region>, start: int, n: nat, i: nat)
    requires Canonical(rs) && n > 0 && i < |rs| && In(rs[i], start)
    requires forall x: int :: start <= x < start + n ==> Covered(rs, x)
    ensures start + n <= End(rs[i])
  {
    if n > 1 {
      RunInOneRegion(rs, start, n - 1, i);
      var x := start + n - 1;
      assert Covered(rs, x);
      var j :| 0 <= j < |rs| && In(rs[j], x);
      assert i == j;
    }
  }

  /** Two canonical lists, one after the other with a gap between them. */
  lemma CanonicalConcat(a: seq<Region>, b: seq<Region>)
    requires Canonical(a) && Canonical(b)
    requires a != [] && b != [] ==> End(a[|a| - 1]) < b[0].addr
    ensures Canonical(a + b)
  {
    forall i, j | 0 <= i < |a| && 0 <= j < |b|
      ensures End(a[i]) < b[j].addr
    {
      assert i < |a| - 1 ==> End(a[i]) < a[|a| - 1].addr;
      assert 0 < j ==> End(b[0]) < b[j].addr;
    }
    var c := a + b;
    forall i, j | 0 <= i < j < |c|
      ensures End(c[i]) < c[j].addr
    {
      assert c[i] == (if i < |a| then a[i] else b[i - |a|]) && c[j] == (if j < |a| then a[j] else b[j - |a|]);
    }
  }

  /** Replacing the regions from lo up to hi by one that keeps clear of the others. */
  lemma Splice(rs: seq<Region>, lo: nat, hi: nat, r: Region)
    requires Canonical(rs) && lo <= hi <= |rs| && r.size > 0
    requires lo > 0 ==> End(rs[lo - 1]) < r.addr
    requires hi < |rs| ==> End(r) < rs[hi].addr
    ensures Canonical(rs[..lo] + [r] + rs[hi..])
  {
    CanonicalConcat(rs[..lo], [r]);
    CanonicalConcat(rs[..lo] + [r], rs[hi..]);
  }

  lemma SpliceCovers(rs: seq<Region>, lo: nat, hi: nat, r: Region, x: int)
    requires lo <= hi <= |rs|
    ensures Covered(rs[..lo] + [r] + rs[hi..], x) <==> Covered(rs[..lo], x) || In(r, x) || Covered(rs[hi..], x)
    ensures Covered(rs, x) <==> Covered(rs[..lo], x) || Covered(rs[lo..hi], x) || Covered(rs[hi..], x)
  {
    CoveredConcat(rs[..lo] + [r], rs[hi..], x);
    CoveredConcat(rs[..lo], [r], x);
    CoveredOne(r, x);
    assert rs == rs[..lo] + rs[lo..hi] + rs[hi..];
    CoveredConcat(rs[..lo] + rs[lo..hi], rs[hi..], x);
    CoveredConcat(rs[..lo], rs[lo..hi], x);
  }

  lemma SpliceTotal(rs: seq<Region>, lo: nat, hi: nat, r: Region)
    requires lo <= hi <= |rs|
    ensures Total(rs[..lo] + [r] + rs[hi..]) + Total(rs[lo..hi]) == Total(rs) + r.size
  {
    var a, b, c := rs[..lo], rs[lo..hi], rs[hi..];
    assert rs == a + b + c;
    TotalOne(r);
    TotalOfThree(a, [r], c);
    TotalOfThree(a, b, c);
  }

  lemma TotalOfThree(a: seq<Region>, b: seq<Region>, c: seq<Region>)
    ensures Total(a + b + c) == Total(a) + Total(b) + Total(c)
  {
    TotalConcat(a + b, c);
    TotalConcat(a, b);
  }

  // ----- Taking the front of a region -----

  /** The regions after the first n bytes of region i are taken. */
  function Carve(rs: seq<Region>, i: nat, n: nat): (rs': seq<Region>)
    requires i < |rs| && n <= rs[i].size
  {
    if n < rs[i].size then rs[..i] + [Region(rs[i].addr + n, rs[i].size - n)] + rs[i + 1..]
    else rs[..i] + rs[i + 1..]
  }

  lemma CarveCanonical(rs: seq<Region>, i: nat, n: nat)
    requires Canonical(rs) && i < |rs| && 0 < n <= rs[i].size
    ensures Canonical(Carve(rs, i, n))
  {
    if n < rs[i].size {
      Splice(rs, i, i + 1, Region(rs[i].addr + n, rs[i].size - n));
    } else {
      CutCanonical(rs, i);
    }
  }

  lemma CutCanonical(rs: seq<Region>, i: nat)
    requires Canonical(rs) && i < |rs|
    ensures Canonical(rs[..i] + rs[i + 1..])
  {
    CanonicalConcat(rs[..i], rs[i + 1..]);
  }

  lemma CarveCovers(rs: seq<Region>, i: nat, n: nat, x: int)
    requires Canonical(rs) && i < |rs| && 0 < n <= rs[i].size
    ensures Covered(Carve(rs, i, n), x) <==> Covered(rs, x) && !(rs[i].addr <= x < rs[i].addr + n)
  {
    var rest := Region(rs[i].addr + n, rs[i].size - n);
    SpliceCovers(rs, i, i + 1, rest, x);
    CoveredConcat(rs[..i], rs[i + 1..], x);
    assert rs[i..i + 1] == [rs[i]];
    CoveredOne(rs[i], x);
    var front, tail := rs[..i], rs[i + 1..];
    if j :| 0 <= j < |front| && In(front[j], x) {
      assert front[j] == rs[j];
    }
    if j :| 0 <= j < |tail| && In(tail[j], x) {
      assert tail[j] == rs[i + 1 + j];
    }
  }

  lemma CarveTotal(rs: seq<Region>, i: nat, n: nat)
    requires i < |rs| && 0 < n <= rs[i].size
    ensures Total(Carve(rs, i, n)) == Total(rs) - n
  {
    TotalOne(rs[i]);
    if n < rs[i].size {
      assert rs[i..i + 1] == [rs[i]];
      SpliceTotal(rs, i, i + 1, Region(rs[i].addr + n, rs[i].size - n));
    } else {
      CutTotal(rs, i);
    }
  }

  lemma CutTotal(rs: seq<Region>, i: nat)
    requires i < |rs|
    ensures Total(rs[..i] + rs[i + 1..]) == Total(rs) - rs[i].size
  {
    var front, tail := rs[..i], rs[i + 1..];
    assert rs == front + [rs[i]] + tail;
    TotalOfThree(front, [rs[i]], tail);
    TotalConcat(front, tail);
    TotalOne(rs[i]);
  }

  lemma MultiplesAdd(a: nat, b: nat)
    requires a % PAGE == 0 && b % PAGE == 0
    ensures (a + b) % PAGE == 0
    ensures b <= a ==> (a - b) % PAGE == 0
  {
  }

  lemma CarveAligned(rs: seq<Region>, i: nat, n: nat)
    requires Aligned(rs) && i < |rs| && 0 < n <= rs[i].size && n % PAGE == 0
    ensures Aligned(Carve(rs, i, n))
  {
    var cut := Carve(rs, i, n);
    MultiplesAdd(rs[i].addr, n);
    MultiplesAdd(rs[i].size, n);
    forall k | 0 <= k < |cut|
      ensures cut[k].addr % PAGE == 0 && cut[k].size % PAGE == 0
    {
      var rest := Region(rs[i].addr + n, rs[i].size - n);
      assert cut[k] == if k < i then rs[k] else if n == rs[i].size then rs[k + 1] else if k == i then rest else rs[k];
    }
  }

  lemma CarveSpec(rs: seq<Region>, i: nat, n: nat)
    requires Canonical(rs) && Aligned(rs) && i < |rs| && 0 < n <= rs[i].size && n % PAGE == 0
    ensures Canonical(Carve(rs, i, n)) && Aligned(Carve(rs, i, n))
    ensures Total(Carve(rs, i, n)) == Total(rs) - n
    ensures forall x: int :: Covered(Carve(rs, i, n), x) <==> Covered(rs, x) && !(rs[i].addr <= x < rs[i].addr + n)
  {
    CarveCanonical(rs, i, n);
    CarveTotal(rs, i, n);
    CarveAligned(rs, i, n);
    forall x: int
      ensures Covered(Carve(rs, i, n), x) <==> Covered(rs, x) && !(rs[i].addr <= x < rs[i].addr + n)
    {
      CarveCovers(rs, i, n, x);
    }
  }

  // ----- Rounding -----

  /** The source rounds up in 64-bit arithmetic. */
  function AlignCeil(size: nat): (r: nat) {
    ((size + (PAGE - 1)) % TWO_64) / PAGE * PAGE
  }

  /** The rounded size covers the request exactly when the request is at most 2^64 - 4096. */
  lemma AlignCeilCovers(size: nat)
    requires 0 < size < TWO_64
    ensures AlignCeil(size) % 4096 == 0
    ensures size <= AlignCeil(size) <==> size <= 0x1_0000_0000_0000_0000 - 4096
    ensures size <= 0x1_0000_0000_0000_0000 - 4096 ==> AlignCeil(size) < size + 4096
    ensures size > 0x1_0000_0000_0000_0000 - 4096 ==> AlignCeil(size) == 0
  {
  }

  lemma AlignCeilIdempotent(n: nat)
    requires 0 < n <= TWO_64 - PAGE && n % PAGE == 0
    ensures AlignCeil(n) == n
  {
  }

  /** A multiple of the page size below the rounded request is below the request. */
  lemma BelowRounded(n: nat, size: nat)
    requires 0 < size <= TWO_64 - PAGE && n % PAGE == 0 && n < AlignCeil(size)
    ensures n < size
  {
  }

  // ----- Blocks -----

  ghost predicate InBlock(alloced: map<nat, nat>, x: int) {
    exists a :: a in alloced && a <= x < a + alloced[a]
  }

  /** Live blocks are non-empty, page-aligned and disjoint. */
  ghost predicate Blocks(alloced: map<nat, nat>) {
    && (forall a :: a in alloced ==> alloced[a] > 0 && alloced[a] % PAGE == 0 && a % PAGE == 0)
    && (forall a, b :: a in alloced && b in alloced && a < b ==> a + alloced[a] <= b)
  }

  /** Every byte of the initial regions is free or in a live block, and none is both. */
  ghost predicate Conserved(initial: seq<Region>, rs: seq<Region>, alloced: map<nat, nat>) {
    && (forall x: int :: Covered(initial, x) <==> Covered(rs, x) || InBlock(alloced, x))
    && (forall x: int :: !(Covered(rs, x) && InBlock(alloced, x)))
  }

  /** A run of n free bytes. */
  ghost predicate FreeRun(rs: seq<Region>, a: int, n: nat) {
    forall x: int :: a <= x < a + n ==> Covered(rs, x)
  }

  lemma RegionIsRun(rs: seq<Region>, i: nat, n: nat)
    requires i < |rs| && n <= rs[i].size
    ensures FreeRun(rs, rs[i].addr, n)
  {
    forall x: int | rs[i].addr <= x < rs[i].addr + n
      ensures Covered(rs, x)
    {
      assert In(rs[i], x);
    }
  }

  /** A free run needs a region as large as it, starting no later. */
  lemma RunNeedsRegion(rs: seq<Region>, a: int, n: nat) returns (i: nat)
    requires Canonical(rs) && n > 0 && FreeRun(rs, a, n)
    ensures i < |rs| && rs[i].addr <= a && a + n <= End(rs[i])
  {
    assert Covered(rs, a);
    i :| i < |rs| && In(rs[i], a);
    RunInOneRegion(rs, a, n, i);
  }

  // ----- Live blocks -----

  lemma BlockAdded(initial: seq<Region>, rs: seq<Region>, rs': seq<Region>, alloced: map<nat, nat>, a: nat, n: nat)
    requires Blocks(alloced) && Conserved(initial, rs, alloced)
    requires n > 0 && n % PAGE == 0 && a % PAGE == 0 && FreeRun(rs, a, n)
    requires forall x: int :: Covered(rs', x) <==> Covered(rs, x) && !(a <= x < a + n)
    ensures a !in alloced && Blocks(alloced[a := n]) && Conserved(initial, rs', alloced[a := n])
  {
    var alloced' := alloced[a := n];
    FreeRunClear(rs, alloced, a, n);
    forall x: int
      ensures InBlock(alloced', x) <==> InBlock(alloced, x) || a <= x < a + n
    {
      if a <= x < a + n {
        assert a in alloced' && a <= x < a + alloced'[a];
      }
      if b :| b in alloced && b <= x < b + alloced[b] {
        assert b in alloced' && b <= x < b + alloced'[b];
      }
    }
  }

  /** A free run keeps clear of every live block. */
  lemma FreeRunClear(rs: seq<Region>, alloced: map<nat, nat>, a: nat, n: nat)
    requires Blocks(alloced) && n > 0 && FreeRun(rs, a, n)
    requires forall x: int :: !(Covered(rs, x) && InBlock(alloced, x))
    ensures forall b :: b in alloced ==> b + alloced[b] <= a || a + n <= b
  {
    forall b | b in alloced
      ensures b + alloced[b] <= a || a + n <= b
    {
      var x := if a <= b then b else a;
      if b <= x < b + alloced[b] {
        assert InBlock(alloced, x);
      }
      assert !(a <= x < a + n) || !(b <= x < b + alloced[b]);
    }
  }

  lemma BlockRemoved(initial: seq<Region>, rs: seq<Region>, rs': seq<Region>, alloced: map<nat, nat>, a: nat)
    requires Blocks(alloced) && Conserved(initial, rs, alloced) && a in alloced
    requires forall x: int :: Covered(rs', x) <==> Covered(rs, x) || a <= x < a + alloced[a]
    ensures Blocks(alloced - {a}) && Conserved(initial, rs', alloced - {a})
  {
    var alloced' := alloced - {a};
    forall x: int
      ensures InBlock(alloced, x) <==> InBlock(alloced', x) || a <= x < a + alloced[a]
      ensures !(InBlock(alloced', x) && a <= x < a + alloced[a])
    {
      if b :| b in alloced && b <= x < b + alloced[b] {
        assert b != a ==> b in alloced' && b <= x < b + alloced'[b];
      }
    }
  }

  lemma NoLongerRun(rs: seq<Region>, most: nat)
    requires Canonical(rs) && forall j :: 0 <= j < |rs| ==> rs[j].size <= most
    ensures forall a: int, n: nat :: FreeRun(rs, a, n) ==> n <= most
  {
    forall a: int, n: nat | FreeRun(rs, a, n)
      ensures n <= most
    {
      if n > 0 {
        var j := RunNeedsRegion(rs, a, n);
      }
    }
  }

  // ----- Inserting a region -----

  /** The position of the first region at or above an address. */
  method LowerBound(rs: seq<Region>, addr: nat) returns (p: nat)
    ensures p <= |rs|
    ensures forall i :: 0 <= i < p ==> rs[i].addr < addr
    ensures p < |rs| ==> rs[p].addr >= addr
  {
    p := 0;
    while p < |rs| && rs[p].addr < addr
      invariant p <= |rs| && forall i :: 0 <= i < p ==> rs[i].addr < addr
    {
      p := p + 1;
    }
  }

  /** The new region, merged with a neighbour it touches on either side. */
  function Merged(rs: seq<Region>, p: nat, r: Region): (m: (nat, nat, Region))
    requires p <= |rs|
    ensures m.0 <= p <= m.1 <= |rs|
  {
    var touchesPrev := p > 0 && End(rs[p - 1]) == r.addr;
    var touchesNext := p < |rs| && End(r) == rs[p].addr;
    var lo := if touchesPrev then p - 1 else p;
    var hi := if touchesNext then p + 1 else p;
    var addr := if touchesPrev then rs[p - 1].addr else r.addr;
    var size := (if touchesPrev then rs[p - 1].size else 0) + r.size + (if touchesNext then rs[p].size else 0);
    (lo, hi, Region(addr, size))
  }

  function Inserted(rs: seq<Region>, p: nat, r: Region): (rs': seq<Region>)
    requires p <= |rs|
  {
    var (lo, hi, m) := Merged(rs, p, r);
    rs[..lo] + [m] + rs[hi..]
  }

  /** r lies between its neighbours in the list without overlapping them. */
  ghost predicate FitsAt(rs: seq<Region>, p: nat, r: Region) {
    && p <= |rs| && r.size > 0
    && (p > 0 ==> End(rs[p - 1]) <= r.addr)
    && (p < |rs| ==> End(r) <= rs[p].addr)
  }

  lemma InsertedCanonical(rs: seq<Region>, p: nat, r: Region)
    requires Canonical(rs) && FitsAt(rs, p, r)
    ensures Canonical(Inserted(rs, p, r))
  {
    var (lo, hi, m) := Merged(rs, p, r);
    Splice(rs, lo, hi, m);
  }

  lemma MergedCovers(rs: seq<Region>, p: nat, r: Region, x: int)
    requires Canonical(rs) && FitsAt(rs, p, r)
    ensures var (lo, hi, m) := Merged(rs, p, r);
            In(m, x) <==> Covered(rs[lo..hi], x) || In(r, x)
  {
    var (lo, hi, m) := Merged(rs, p, r);
    var mid := rs[lo..hi];
    if p - 1 == lo && x < r.addr && In(m, x) {
      assert mid[0] == rs[p - 1] && In(mid[0], x);
    }
    if p + 1 == hi && x >= End(r) && In(m, x) {
      assert mid[|mid| - 1] == rs[p] && In(mid[|mid| - 1], x);
    }
    if i :| 0 <= i < |mid| && In(mid[i], x) {
      assert mid[i] == rs[lo + i];
    }
  }

  lemma InsertedCovers(rs: seq<Region>, p: nat, r: Region, x: int)
    requires Canonical(rs) && FitsAt(rs, p, r)
    ensures Covered(Inserted(rs, p, r), x) <==> Covered(rs, x) || In(r, x)
  {
    var (lo, hi, m) := Merged(rs, p, r);
    MergedCovers(rs, p, r, x);
    SpliceCovers(rs, lo, hi, m, x);
  }

  lemma InsertedTotal(rs: seq<Region>, p: nat, r: Region)
    requires p <= |rs|
    ensures Total(Inserted(rs, p, r)) == Total(rs) + r.size
  {
    var (lo, hi, m) := Merged(rs, p, r);
    SpliceTotal(rs, lo, hi, m);
    MiddleTotal(rs, lo, p, hi);
  }

  lemma MiddleTotal(rs: seq<Region>, lo: nat, p: nat, hi: nat)
    requires lo <= p <= hi <= |rs| && p <= lo + 1 && hi <= p + 1
    ensures Total(rs[lo..hi]) == (if lo < p then rs[lo].size else 0) + (if p < hi then rs[p].size else 0)
  {
    var prevs, nexts := rs[lo..p], rs[p..hi];
    assert rs[lo..hi] == prevs + nexts;
    TotalConcat(prevs, nexts);
    if lo < p {
      assert prevs == [rs[lo]];
      TotalOne(rs[lo]);
    }
    if p < hi {
      assert nexts == [rs[p]];
      TotalOne(rs[p]);
    }
  }

  /** What inserting a region that fits does to the list. */
  lemma InsertedSpec(rs: seq<Region>, p: nat, r: Region)
    requires Canonical(rs) && Aligned(rs) && FitsAt(rs, p, r) && r.addr % PAGE == 0 && r.size % PAGE == 0
    ensures Canonical(Inserted(rs, p, r)) && Aligned(Inserted(rs, p, r))
    ensures Total(Inserted(rs, p, r)) == Total(rs) + r.size
    ensures forall x: int :: Covered(Inserted(rs, p, r), x) <==> Covered(rs, x) || In(r, x)
  {
    InsertedCanonical(rs, p, r);
    InsertedTotal(rs, p, r);
    InsertedAligned(rs, p, r);
    forall x: int
      ensures Covered(Inserted(rs, p, r), x) <==> Covered(rs, x) || In(r, x)
    {
      InsertedCovers(rs, p, r, x);
    }
  }

  /** A region whose bytes are not free fits at its lower bound. */
  lemma ClearFits(rs: seq<Region>, p: nat, r: Region)
    requires Canonical(rs) && p <= |rs| && r.size > 0
    requires forall i :: 0 <= i < p ==> rs[i].addr < r.addr
    requires p < |rs| ==> rs[p].addr >= r.addr
    requires forall x: int :: In(r, x) ==> !Covered(rs, x)
    ensures FitsAt(rs, p, r)
  {
    assert In(r, r.addr);
    if p > 0 {
      NeighbourBelow(rs, p - 1, r.addr);
    }
    if p < |rs| {
      NeighbourAbove(rs, p, r);
    }
  }

  lemma AlignedConcat(a: seq<Region>, b: seq<Region>)
    requires Aligned(a) && Aligned(b)
    ensures Aligned(a + b)
  {
  }

  lemma InsertedAligned(rs: seq<Region>, p: nat, r: Region)
    requires Aligned(rs) && p <= |rs| && r.addr % PAGE == 0 && r.size % PAGE == 0
    ensures Aligned(Inserted(rs, p, r))
  {
    var (lo, hi, m) := Merged(rs, p, r);
    assert m.addr % PAGE == 0 && m.size % PAGE == 0;
    AlignedConcat(rs[..lo], [m]);
    AlignedConcat(rs[..lo] + [m], rs[hi..]);
  }

  /** A region that starts below a free address ends at or below it. */
  lemma NeighbourBelow(rs: seq<Region>, i: nat, addr: nat)
    requires i < |rs| && rs[i].addr < addr && !Covered(rs, addr)
    ensures End(rs[i]) <= addr
  {
    assert !In(rs[i], addr);
  }

  /** A region that starts at or above a clear block starts at or above its end. */
  lemma NeighbourAbove(rs: seq<Region>, i: nat, r: Region)
    requires i < |rs| && rs[i].addr >= r.addr && rs[i].size > 0
    requires forall x: int :: r.addr <= x < End(r) ==> !Covered(rs, x)
    ensures End(r) <= rs[i].addr
  {
    assert In(rs[i], rs[i].addr);
    assert Covered(rs, rs[i].addr);
  }

  /** The pages are non-empty and overlap nowhere. */
  predicate PagesApart(pages: seq<Region>) {
    && (forall i :: 0 <= i < |pages| ==> pages[i].size > 0)
    && forall i, j :: 0 <= i < j < |pages| ==> End(pages[i]) <= pages[j].addr || End(pages[j]) <= pages[i].addr
  }

  lemma {:induction false} TotalToMonotone(rs: seq<Region>, m: nat, n: nat)
    requires m <= n <= |rs|
    ensures TotalTo(rs, m) <= TotalTo(rs, n)
  {
    if m < n {
      TotalToMonotone(rs, m, n - 1);
    }
  }

  lemma PageIsClear(pages: seq<Region>, i: nat)
    requires i < |pages| && PagesApart(pages)
    ensures forall x: int :: pages[i].addr <= x < End(pages[i]) ==> !Covered(pages[..i], x)
    ensures forall x: int :: Covered(pages[..i + 1], x) <==> Covered(pages[..i], x) || In(pages[i], x)
  {
    assert pages[..i + 1] == pages[..i] + [pages[i]];
    forall x: int
      ensures Covered(pages[..i + 1], x) <==> Covered(pages[..i], x) || In(pages[i], x)
    {
      CoveredConcat(pages[..i], [pages[i]], x);
      CoveredOne(pages[i], x);
    }
    forall x: int | pages[i].addr <= x < End(pages[i])
      ensures !Covered(pages[..i], x)
    {
      forall j | 0 <= j < i
        ensures !In(pages[..i][j], x)
      {
        assert pages[..i][j] == pages[j];
      }
    }
  }

  lemma FirstFit(rs: seq<Region>, i: nat, n: nat)
    requires Canonical(rs) && i < |rs| && n <= rs[i].size
    requires forall j :: 0 <= j < i ==> rs[j].size < n
    ensures FreeRun(rs, rs[i].addr, n)
    ensures n > 0 ==> forall a: int :: a < rs[i].addr ==> !FreeRun(rs, a, n)
  {
    RegionIsRun(rs, i, n);
    forall a: int | n > 0 && a < rs[i].addr && FreeRun(rs, a, n)
      ensures false
    {
      var j := RunNeedsRegion(rs, a, n);
    }
  }

  lemma NoFit(rs: seq<Region>, n: nat)
    requires Canonical(rs) && forall j :: 0 <= j < |rs| ==> rs[j].size < n
    ensures n > 0 ==> forall a: int :: !FreeRun(rs, a, n)
  {
    forall a: int | n > 0 && FreeRun(rs, a, n)
      ensures false
    {
      var j := RunNeedsRegion(rs, a, n);
    }
  }

  /** Inserts a region at its lower bound and splices it with the neighbours it touches. */
  method InsertRegion(rs: seq<Region>, r: Region) returns (rs': seq<Region>)
    requires Canonical(rs) && Aligned(rs) && r.size > 0 && r.addr % PAGE == 0 && r.size % PAGE == 0
    requires forall x: int :: In(r, x) ==> !Covered(rs, x)
    ensures Canonical(rs') && Aligned(rs') && Total(rs') == Total(rs) + r.size
    ensures forall x: int :: Covered(rs', x) <==> Covered(rs, x) || In(r, x)
  {
    var p := LowerBound(rs, r.addr);
    ClearFits(rs, p, r);
    InsertedSpec(rs, p, r);
    var lo, hi, merged := p, p, r;
    if p > 0 && End(rs[p - 1]) == merged.addr {
      lo, merged := p - 1, Region(rs[p - 1].addr, merged.size + rs[p - 1].size);
    }
    if p < |rs| && End(merged) == rs[p].addr {
      hi, merged := p + 1, Region(merged.addr, merged.size + rs[p].size);
    }
    assert (lo, hi, merged) == Merged(rs, p, r);
    rs' := rs[..lo] + [merged] + rs[hi..];
  }

  // ----- The pool -----

  lemma TakenSpec(initial: seq<Region>, rs: seq<Region>, alloced: map<nat, nat>, i: nat, n: nat)
    requires Canonical(rs) && Aligned(rs) && Blocks(alloced) && Conserved(initial, rs, alloced)
    requires i < |rs| && n <= rs[i].size && n % PAGE == 0
    ensures var rs', alloced' := Carve(rs, i, n), alloced[rs[i].addr := n];
            && (n > 0 ==> Canonical(rs') && Aligned(rs') && Total(rs') == Total(rs) - n)
            && (n > 0 ==> rs[i].addr !in alloced && Blocks(alloced') && Conserved(initial, rs', alloced'))
            && forall x: int :: Covered(rs', x) <==> Covered(rs, x) && !(rs[i].addr <= x < rs[i].addr + n)
  {
    if n == 0 {
      assert Carve(rs, i, n) == rs;
    } else {
      CarveSpec(rs, i, n);
      RegionIsRun(rs, i, n);
      BlockAdded(initial, rs, Carve(rs, i, n), alloced, rs[i].addr, n);
    }
  }

  /** The regions are the first n of the pages offered, merged. */
  ghost predicate MergedPages(rs: seq<Region>, offered: seq<Region>, n: nat) {
    && n <= |offered| && Canonical(rs) && Aligned(rs) && Total(rs) == TotalTo(offered, n)
    && forall x: int :: Covered(rs, x) <==> Covered(offered[..n], x)
  }

  lemma NoPages(offered: seq<Region>)
    ensures MergedPages([], offered, 0)
  {
  }

  /** Adds the next of the pages offered. */
  method AddPage(rs: seq<Region>, offered: seq<Region>, n: nat, total: nat) returns (rs': seq<Region>, total': nat)
    requires n < |offered| && Aligned(offered) && PagesApart(offered) && MergedPages(rs, offered, n)
    requires total == TotalTo(offered, n)
    ensures MergedPages(rs', offered, n + 1) && total' == TotalTo(offered, n + 1)
  {
    PageIsClear(offered, n);
    total' := total + offered[n].size;
    rs' := InsertRegion(rs, offered[n]);
  }

  /**
   Takes pages, of which the first are the large ones, until they make up the size or none is left,
   and merges them.
   */
  method TakePages(size: nat, offered: seq<Region>, large: nat) returns (rs: seq<Region>, n: nat)
    requires Aligned(offered) && PagesApart(offered) && large <= |offered|
    ensures MergedPages(rs, offered, n) && (n > 0 ==> TotalTo(offered, n - 1) < size)
    ensures size <= TotalTo(offered, n) || n == |offered|
  {
    var total, small := 0, false;
    rs, n := [], 0;
    NoPages(offered);
    while total < size
      invariant if small then large <= n <= |offered| else n <= large
      invariant total == TotalTo(offered, n) && (n > 0 ==> TotalTo(offered, n - 1) < size)
      invariant MergedPages(rs, offered, n)
      decreases |offered| - n, !small
    {
      if n < if small then |offered| else large {
        rs, total := AddPage(rs, offered, n, total);
        n := n + 1;
      } else if !small {
        small := true;
      } else {
        break;
      }
    }
  }

  class DmaMemoryPool {
    var regions: seq<Region>
    var alloced: map<nat, nat>
    var totalFreeBytes: nat
    var initialized: bool
    var pages: seq<Region>
    // The free regions when the pool was built.
    ghost const initial: seq<Region>

    ghost predicate Valid()
      reads this
    {
      && Canonical(regions) && Aligned(regions) && Canonical(initial)
      && totalFreeBytes == Total(regions)
      && Blocks(alloced) && Conserved(initial, regions, alloced)
    }

    /** Adds a region and merges it with the regions it touches. */
    method AddRegion(addr: nat, size: nat)
      requires Canonical(regions) && Aligned(regions)
      requires size > 0 && addr % PAGE == 0 && size % PAGE == 0
      requires forall x: int :: addr <= x < addr + size ==> !Covered(regions, x)
      modifies this`regions
      ensures Canonical(regions) && Aligned(regions)
      ensures forall x: int :: Covered(regions, x) <==> old(Covered(regions, x)) || addr <= x < addr + size
      ensures Total(regions) == old(Total(regions)) + size
    {
      regions := InsertRegion(regions, Region(addr, size));
    }

    /**
     A pool of at least the given size, from the pages the system has to give: those of 1 GB, and
     when they run out those of 2 MB. It takes no more pages than it needs. A pool that could not
     be built gives its pages back, though its regions still list them.
     */
    constructor (size: nat, gigabytes: seq<Region>, megabytes: seq<Region>)
      requires size > 0
      requires Aligned(gigabytes + megabytes) && PagesApart(gigabytes + megabytes)
      ensures Valid() && alloced == map[] && initial == regions
      ensures var offered := gigabytes + megabytes;
              && (initialized <==> size <= Total(offered))
              && (initialized ==> 0 < |pages| <= |offered| && pages == offered[..|pages|])
              && (initialized ==> TotalTo(offered, |pages| - 1) < size <= totalFreeBytes)
              && (!initialized ==> pages == [])
              && forall x: int :: Covered(regions, x) <==> Covered(if initialized then pages else offered, x)
    {
      var offered := gigabytes + megabytes;
      var rs, n := TakePages(size, offered, |gigabytes|);
      TotalToMonotone(offered, n, |offered|);
      var total := TotalTo(offered, n);
      assert total < size ==> offered[..n] == offered;
      regions, alloced, totalFreeBytes, initial := rs, map[], total, rs;
      initialized, pages := total >= size, if total >= size then offered[..n] else [];
      new;
      assert forall x: int :: !InBlock(alloced, x);
    }

    /**
     First fit. Fails only if no run of free bytes is as long as the rounded request, and
     otherwise takes the run of that length with the least address.
     */
    method Alloc(size: nat) returns (ret: Option<nat>)
      requires Valid() && 0 < size < TWO_64
      modifies this
      ensures initialized == old(initialized) && pages == old(pages)
      ensures size <= TWO_64 - PAGE ==> Valid()
      ensures ret.None? <==> if size <= TWO_64 - PAGE then forall a: int :: !FreeRun(old(regions), a, AlignCeil(size))
                             else old(regions) == []
      ensures ret.None? ==> regions == old(regions) && alloced == old(alloced) && totalFreeBytes == old(totalFreeBytes)
      // A request so large that rounding it up wraps to zero gets an empty block at a free address.
      ensures ret.Some? && size > TWO_64 - PAGE ==>
                && FreeRun(regions, ret.value, PAGE) && alloced == old(alloced)[ret.value := 0]
                && regions == old(regions) && totalFreeBytes == old(totalFreeBytes) && !Valid()
      ensures ret.Some? && size <= TWO_64 - PAGE ==>
                && ret.value % PAGE == 0 && ret.value !in old(alloced)
                && FreeRun(old(regions), ret.value, AlignCeil(size))
                && (forall a: int :: a < ret.value ==> !FreeRun(old(regions), a, AlignCeil(size)))
                && alloced == old(alloced)[ret.value := AlignCeil(size)]
                && totalFreeBytes == old(totalFreeBytes) - AlignCeil(size)
                && forall x: int :: Covered(regions, x) <==>
                                    old(Covered(regions, x)) && !(ret.value <= x < ret.value + AlignCeil(size))
    {
      AlignCeilCovers(size);
      var n := AlignCeil(size);
      for i := 0 to |regions|
        invariant Valid() && regions == old(regions) && alloced == old(alloced) && totalFreeBytes == old(totalFreeBytes)
        invariant forall j :: 0 <= j < i ==> regions[j].size < n
      {
        if regions[i].size >= n {
          FirstFit(regions, i, n);
          RegionIsRun(regions, i, if n == 0 then PAGE else n);
          var addr := regions[i].addr;
          Take(i, n);
          assert addr in alloced && alloced[addr] == n;
          return Some(addr);
        }
      }
      NoFit(regions, n);
      return None;
    }

    /** Moves the first n bytes of region i from the free regions to the live blocks. */
    method Take(i: nat, n: nat)
      requires Valid() && i < |regions| && n <= regions[i].size && n % PAGE == 0
      modifies this`regions, this`alloced, this`totalFreeBytes
      ensures regions == Carve(old(regions), i, n)
      ensures alloced == old(alloced)[old(regions)[i].addr := n]
      ensures totalFreeBytes == old(totalFreeBytes) - n
      ensures n > 0 ==> Valid() && old(regions)[i].addr !in old(alloced)
      ensures forall x: int :: Covered(regions, x) <==>
                               old(Covered(regions, x)) && !(old(regions)[i].addr <= x < old(regions)[i].addr + n)
    {
      var region := regions[i];
      TakenSpec(initial, regions, alloced, i, n);
      alloced := alloced[region.addr := n];
      // The leftover, if any, takes the place of the erased region.
      regions := Carve(regions, i, n);
      totalFreeBytes := totalFreeBytes - n;
    }

    /**
     Like Alloc, but takes the largest free region when nothing as long as the request is free.
     Never gives more than was asked for; gives nothing only if nothing is free.
     */
    method AllocUpto(size: nat) returns (ret: Option<nat>, got: nat)
      requires Valid() && 0 < size <= TWO_64 - PAGE
      modifies this
      ensures Valid() && got <= size
      ensures ret.None? <==> old(regions) == []
      ensures ret.None? ==> got == 0 && regions == old(regions) && alloced == old(alloced)
      ensures initialized == old(initialized) && pages == old(pages)
      // What fits is taken as Alloc would: the rounded size, where it fits first.
      ensures got == size <==> exists a: int :: FreeRun(old(regions), a, AlignCeil(size))
      ensures got == size ==>
                ret.Some? && forall a: int :: a < ret.value ==> !FreeRun(old(regions), a, AlignCeil(size))
      // Short of the request, it is the whole of the longest free run there is.
      ensures ret.Some? && got < size ==> forall a: int, n: nat :: FreeRun(old(regions), a, n) ==> n <= got
      ensures ret.Some? ==>
                var n := if got == size then AlignCeil(size) else got;
                && n > 0 && ret.value % PAGE == 0 && ret.value !in old(alloced)
                && FreeRun(old(regions), ret.value, n)
                && alloced == old(alloced)[ret.value := n] && totalFreeBytes == old(totalFreeBytes) - n
                && forall x: int :: Covered(regions, x) <==>
                                    old(Covered(regions, x)) && !(ret.value <= x < ret.value + n)
    {
      AlignCeilCovers(size);
      var aligned := AlignCeil(size);
      AlignCeilIdempotent(aligned);
      ret := Alloc(aligned);
      if ret.Some? {
        return ret, size;
      }
      if |regions| == 0 {
        NoFit(regions, aligned);
        return None, 0;
      }
      var i := 0;
      for j := 1 to |regions|
        invariant i < |regions|
        invariant forall k :: 0 <= k < j ==> regions[k].size <= regions[i].size
        invariant regions == old(regions) && alloced == old(alloced) && Valid()
      {
        if regions[i].size < regions[j].size {
          i := j;
        }
      }
      var region := regions[i];
      RegionIsRun(regions, i, region.size);
      assert region.size < aligned by {
        if region.size >= aligned {
          RegionIsRun(regions, i, aligned);
        }
      }
      BelowRounded(region.size, size);
      NoLongerRun(regions, region.size);
      Take(i, region.size);
      return Some(region.addr), region.size;
    }

    method Free(ptr: Option<nat>)
      requires Valid() && (ptr.Some? ==> ptr.value in alloced)
      modifies this
      ensures Valid()
      ensures ptr.None? ==> regions == old(regions) && alloced == old(alloced)
      ensures ptr.Some? ==>
                && alloced == old(alloced) - {ptr.value}
                && totalFreeBytes == old(totalFreeBytes) + old(alloced[ptr.value])
                && forall x: int :: Covered(regions, x) <==>
                                    old(Covered(regions, x)) || ptr.value <= x < ptr.value + old(alloced[ptr.value])
    {
      if ptr.None? {
        return;
      }
      var size := alloced[ptr.value];
      ghost var rs := regions;
      assert forall x: int :: ptr.value <= x < ptr.value + size ==> InBlock(alloced, x);
      AddRegion(ptr.value, size);
      BlockRemoved(initial, rs, regions, alloced, ptr.value);
      alloced := alloced - {ptr.value};
      totalFreeBytes := totalFreeBytes + size;
    }

    /** When no block is live the free regions are the ones the pool was built with. */
    lemma AllFreed()
      requires Valid() && alloced == map[]
      ensures regions == initial
    {
      assert forall x: int :: !InBlock(alloced, x);
      CanonicalIsUnique(regions, initial);
    }
  }

  /** Freeing what was just allocated restores the pool exactly. */
  method AllocThenFree(pool: DmaMemoryPool, size: nat)
    requires pool.Valid() && 0 < size <= TWO_64 - PAGE
    modifies pool
    ensures pool.Valid()
    ensures pool.regions == old(pool.regions) && pool.alloced == old(pool.alloced)
    ensures pool.totalFreeBytes == old(pool.totalFreeBytes)
  {
    var ptr := pool.Alloc(size);
    ghost var before := old(pool.regions);
    pool.Free(ptr);
    if ptr.Some? {
      CanonicalIsUnique(pool.regions, before);
    }
  }

  /** Freeing every live block, in any order, restores the regions the pool was built with. */
  method FreeAll(pool: DmaMemoryPool, order: seq<nat>)
    requires pool.Valid()
    requires forall i, j :: 0 <= i < j < |order| ==> order[i] != order[j]
    requires forall a :: a in order <==> a in pool.alloced
    modifies pool
    ensures pool.Valid() && pool.alloced == map[] && pool.regions == pool.initial
  {
    for i := 0 to |order|
      invariant pool.Valid()
      invariant forall a :: a in pool.alloced <==> a in order[i..]
    {
      assert order[i..] == [order[i]] + order[i + 1..];
      pool.Free(Some(order[i]));
    }
    assert pool.alloced == map[];
    pool.AllFreed();
  }
}
