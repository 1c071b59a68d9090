/** The generator of tunnel endpoint IDs: a cursor that walks the offsets in use until it finds a free one. */
module Teid {
  import opened Wrappers

  const MIN_VALUE: nat := 1
  const MAX_VALUE: nat := 0xFFFF_FFFF
  const UINT32: nat := 0x1_0000_0000

  /** The offset n places after another, in the cycle of all offsets. */
  function After(offset: nat, n: nat): (r: nat)
    requires offset < MAX_VALUE && n <= MAX_VALUE
    ensures r < MAX_VALUE
  {
    if offset + n < MAX_VALUE then offset + n else offset + n - MAX_VALUE
  }

  /** Every offset lies some number of places after any other. */
  lemma Reaches(offset: nat, x: nat) returns (n: nat)
    requires offset < MAX_VALUE && x < MAX_VALUE
    ensures n < MAX_VALUE && After(offset, n) == x
  {
    n := if x >= offset then x - offset else x + MAX_VALUE - offset;
  }

  predicate IsUsed(used: map<nat, bool>, id: nat) {
    id >= MIN_VALUE && id - MIN_VALUE in used
  }

  class FTEIDGenerator {
    var offset: nat
    var usedMap: map<nat, bool>

    ghost predicate Valid()
      reads this
    {
      offset < MAX_VALUE && forall x :: x in usedMap ==> x < MAX_VALUE
    }

    /** The IDs handed out and not freed since. */
    ghost function InUse(): (ids: set<nat>)
      reads this
    {
      set id: nat | MIN_VALUE <= id <= MAX_VALUE && IsUsed(usedMap, id)
    }

    constructor ()
      ensures Valid() && InUse() == {} && offset == 0
    {
      offset, usedMap := 0, map[];
    }

    method UpdateOffset()
      requires Valid()
      modifies this`offset
      ensures Valid() && offset == After(old(offset), 1)
    {
      // The 32-bit increment does not wrap: the cursor is below the largest value.
      assert offset + 1 < UINT32;
      offset := (offset + 1) % UINT32;
      offset := offset % MAX_VALUE;
    }

    /**
     Hands out the first unused ID from the cursor on. The offsets before it are all in use and
     each was looked at once; the call fails exactly when every ID is in use, and then changes
     nothing.
     */
    method Allocate() returns (id: Option<nat>)
      requires Valid()
      modifies this
      ensures Valid()
      ensures id.None? <==> forall x :: 1 <= x <= 0xFFFF_FFFF ==> x in old(InUse())
      ensures id.None? ==> usedMap == old(usedMap) && offset == old(offset)
      ensures id.Some? ==>
                && 1 <= id.value <= 0xFFFF_FFFF
                && id.value !in old(InUse()) && InUse() == old(InUse()) + {id.value}
                && offset == (if id.value < 0xFFFF_FFFF then id.value else 0)
                && FirstFree(old(offset), old(usedMap), id.value - MIN_VALUE)
    {
      var begin := offset;
      ghost var n: nat := 0;
      while offset in usedMap
        invariant Valid() && usedMap == old(usedMap)
        invariant n < MAX_VALUE && offset == After(begin, n)
        invariant forall j :: 0 <= j < n ==> After(begin, j) in usedMap
        decreases MAX_VALUE - n
      {
        UpdateOffset();
        n := n + 1;
        if offset == begin {
          forall x | MIN_VALUE <= x <= MAX_VALUE
            ensures x in old(InUse())
          {
            var j := Reaches(begin, x - MIN_VALUE);
            assert After(begin, j) in usedMap;
            assert IsUsed(old(usedMap), x);
          }
          return None;
        }
      }
      assert IsWalk(begin, n, usedMap, offset);
      assert offset + MIN_VALUE !in InUse();
      usedMap := usedMap[offset := true];
      id := Some(offset + MIN_VALUE);
      UpdateOffset();
      assert id.value !in old(InUse());
    }

    method FreeID(id: nat)
      requires Valid() && id <= MAX_VALUE
      modifies this`usedMap
      ensures Valid() && InUse() == old(InUse()) - {id}
    {
      if id < MIN_VALUE {
        return;
      }
      usedMap := usedMap - {id - MIN_VALUE};
    }

    method IsAllocated(id: nat) returns (r: bool)
      requires Valid() && id <= MAX_VALUE
      ensures r <==> id in InUse()
    {
      if id < MIN_VALUE {
        return false;
      }
      r := id - MIN_VALUE in usedMap;
    }
  }

  /** From begin, n offsets in use and then a free one. */
  ghost predicate IsWalk(begin: nat, n: nat, used: map<nat, bool>, free: nat) {
    && begin < MAX_VALUE && n < MAX_VALUE && free == After(begin, n) && free !in used
    && forall j :: 0 <= j < n ==> After(begin, j) in used
  }

  ghost predicate FirstFree(begin: nat, used: map<nat, bool>, free: nat) {
    exists n: nat :: IsWalk(begin, n, used, free)
  }

  /** The walk's result does not depend on how it is made: there is one first free offset. */
  lemma WalkIsUnique(begin: nat, m: nat, n: nat, used: map<nat, bool>, a: nat, b: nat)
    requires IsWalk(begin, m, used, a) && IsWalk(begin, n, used, b)
    ensures m == n && a == b
  {
  }
}
