/**
 What the modules see of a metadata layout: the byte offset of each of their attributes, and which
 scope component each byte belongs to. Attributes of one module do not overlap unless the layout does.
 */
module OffsetArrays {
  import opened Offsets
  import opened Metadata

  // ----- Bytes -----

  /** A byte of the metadata area, as one module sees it. */
  datatype Byte = Byte(mod: nat, at: int)

  /** The component has the byte. */
  predicate Claims(c: Component, k: Byte) {
    !c.isInvalid && c.offset >= 0 && k.mod in c.modules && c.offset <= k.at < c.End()
  }

  /** Which component has each byte of each module: the last one that claims it. */
  ghost predicate Owners(owner: map<Byte, nat>, cs: seq<Component>) {
    && (forall k :: k in owner ==> owner[k] < |cs| && Claims(cs[owner[k]], k))
    && (forall k, i :: 0 <= i < |cs| && Claims(cs[i], k) ==> k in owner && i <= owner[k])
  }

  method Claim(owner: map<Byte, nat>, c: Component, i: nat) returns (owner': map<Byte, nat>)
    ensures forall k :: k in owner' <==> k in owner || Claims(c, k)
    ensures forall k :: k in owner' ==> owner'[k] == if Claims(c, k) then i else owner[k]
  {
    owner' := owner;
    if !c.isInvalid && c.offset >= 0 {
      var left := c.modules;
      while left != {}
        invariant left <= c.modules
        invariant forall k :: k in owner' <==> k in owner || (Claims(c, k) && k.mod !in left)
        invariant forall k :: k in owner' ==> owner'[k] == if Claims(c, k) && k.mod !in left then i else owner[k]
      {
        var m :| m in left;
        owner' := owner' + map b | c.offset <= b < c.End() :: Byte(m, b) := i;
        left := left - {m};
      }
    }
  }

  lemma ClaimExtends(owner: map<Byte, nat>, owner': map<Byte, nat>, cs: seq<Component>, c: Component)
    requires Owners(owner, cs)
    requires forall k :: k in owner' <==> k in owner || Claims(c, k)
    requires forall k :: k in owner' ==> owner'[k] == if Claims(c, k) then |cs| else owner[k]
    ensures Owners(owner', cs + [c])
  {
  }

  // ----- Attributes -----

  const MAX_ATTRS: nat := 16

  datatype Attribute = Attribute(id: nat, readOnly: bool)

  /** The attributes each module registered, in order. */
  type Registry = map<nat, seq<Attribute>>

  function AttrsOf(registry: Registry, m: nat): (attrs: seq<Attribute>) {
    if m in registry then registry[m] else []
  }

  /** The place of an attribute in its module's list of offsets. */
  datatype Field = Field(mod: nat, k: nat)

  /** The field is the module's first attribute with the component's name, and has room in the array. */
  predicate Gives(registry: Registry, c: Component, f: Field) {
    var attrs := AttrsOf(registry, f.mod);
    && f.mod in c.modules && f.k < |attrs| && f.k < MAX_ATTRS && attrs[f.k].id == c.attr
    && forall j :: 0 <= j < f.k ==> attrs[j].id != c.attr
  }

  /** The offset a field is given: the component's, or a marker by how an invalid one is accessed. */
  function Given(registry: Registry, c: Component, f: Field): (offset: int)
    requires Gives(registry, c, f)
  {
    if !c.isInvalid then c.offset
    else if AttrsOf(registry, f.mod)[f.k].readOnly then NO_READ else NO_WRITE
  }

  /**
   In numbers, for the first attribute of the component's name in a module: it gets an offset exactly if it
   is among the first 16 the module registered. Of an invalid component a field that is only read gets -2
   and any other -1; of a valid one the component's offset, which is -1 if no second module has it.
   */
  lemma GivenInNumbers(registry: Registry, c: Component, f: Field)
    requires f.mod in c.modules && f.mod in registry && f.k < |registry[f.mod]| && registry[f.mod][f.k].id == c.attr
    requires forall j :: 0 <= j < f.k ==> registry[f.mod][j].id != c.attr
    ensures Gives(registry, Filled(c), f) <==> f.k < 16
    ensures Gives(registry, Filled(c), f) ==>
            Given(registry, Filled(c), f) ==
            if c.isInvalid then (if registry[f.mod][f.k].readOnly then -2 else -1)
            else if |c.modules| == 1 then -1 else c.offset
  {
  }

  /** The last component that gives the field an offset, or -1. */
  function Giver(registry: Registry, cs: seq<Component>, f: Field): (i: int)
    ensures -1 <= i < |cs|
    ensures i >= 0 ==> Gives(registry, cs[i], f)
    ensures forall j :: i < j < |cs| ==> !Gives(registry, cs[j], f)
  {
    if cs == [] then -1
    else if Gives(registry, cs[|cs| - 1], f) then |cs| - 1
    else Giver(registry, cs[..|cs| - 1], f)
  }

  /** Every field has the offset its last component gave it, or the one it had. */
  ghost predicate Filed(registry: Registry, was: map<Field, int>, cs: seq<Component>, offsets: map<Field, int>) {
    forall f: Field ::
      var i := Giver(registry, cs, f);
      if i >= 0 then f in offsets && offsets[f] == Given(registry, cs[i], f)
      else (f in offsets <==> f in was) && (f in was ==> offsets[f] == was[f])
  }

  /** The first attribute of a module with the component's name. */
  method FindAttr(attrs: seq<Attribute>, id: nat) returns (k: nat)
    ensures k <= |attrs| && forall j :: 0 <= j < k ==> attrs[j].id != id
    ensures k < |attrs| ==> attrs[k].id == id
  {
    k := 0;
    while k < |attrs| && attrs[k].id != id
      invariant k <= |attrs| && forall j :: 0 <= j < k ==> attrs[j].id != id
    {
      k := k + 1;
    }
  }

  method SetAttrOffset(registry: Registry, c: Component, m: nat, offsets: map<Field, int>) returns (offsets': map<Field, int>)
    requires m in c.modules
    ensures forall f: Field ::
              if f.mod == m && Gives(registry, c, f) then f in offsets' && offsets'[f] == Given(registry, c, f)
              else (f in offsets' <==> f in offsets) && (f in offsets ==> offsets'[f] == offsets[f])
  {
    var attrs := AttrsOf(registry, m);
    var k := FindAttr(attrs, c.attr);
    offsets' := offsets;
    if k < |attrs| && k < MAX_ATTRS {
      offsets' := offsets[Field(m, k) := Given(registry, c, Field(m, k))];
    }
  }

  method SetAttrOffsets(registry: Registry, c: Component, offsets: map<Field, int>) returns (offsets': map<Field, int>)
    ensures forall f: Field ::
              if Gives(registry, c, f) then f in offsets' && offsets'[f] == Given(registry, c, f)
              else (f in offsets' <==> f in offsets) && (f in offsets ==> offsets'[f] == offsets[f])
  {
    offsets' := offsets;
    var left := c.modules;
    while left != {}
      invariant left <= c.modules
      invariant forall f: Field ::
                  if Gives(registry, c, f) && f.mod !in left then f in offsets' && offsets'[f] == Given(registry, c, f)
                  else (f in offsets' <==> f in offsets) && (f in offsets ==> offsets'[f] == offsets[f])
    {
      var m :| m in left;
      offsets' := SetAttrOffset(registry, c, m, offsets');
      left := left - {m};
    }
  }

  lemma FiledExtends(
    registry: Registry, was: map<Field, int>, cs: seq<Component>, c: Component, offsets: map<Field, int>, offsets': map<Field, int>)
    requires Filed(registry, was, cs, offsets)
    requires forall f: Field ::
               if Gives(registry, c, f) then f in offsets' && offsets'[f] == Given(registry, c, f)
               else (f in offsets' <==> f in offsets) && (f in offsets ==> offsets'[f] == offsets[f])
    ensures Filed(registry, was, cs + [c], offsets')
  {
    assert (cs + [c])[..|cs|] == cs;
  }

  // ----- Filling the arrays -----

  method FillOffsetArrays(a: array<Component>, registry: Registry, was: map<Field, int>)
    returns (owner: map<Byte, nat>, offsets: map<Field, int>)
    modifies a
    ensures forall i :: 0 <= i < a.Length ==> a[i] == Filled(old(a[i]))
    ensures Owners(owner, a[..]) && Filed(registry, was, a[..], offsets)
  {
    owner, offsets := map[], was;
    for i := 0 to a.Length
      invariant forall j :: 0 <= j < i ==> a[j] == Filled(old(a[j]))
      invariant forall j :: i <= j < a.Length ==> a[j] == old(a[j])
      invariant Owners(owner, a[..i]) && Filed(registry, was, a[..i], offsets)
    {
      ghost var before := a[..i];
      if |a[i].modules| == 1 {
        a[i] := a[i].(offset := NO_WRITE);
      }
      var offsets' := SetAttrOffsets(registry, a[i], offsets);
      var owner' := Claim(owner, a[i], i);
      FiledExtends(registry, was, before, a[i], offsets, offsets');
      ClaimExtends(owner, owner', before, a[i]);
      assert a[..i + 1] == before + [a[i]];
      owner, offsets := owner', offsets';
    }
    assert a[..a.Length] == a[..];
  }

  // ----- What the modules see -----

  lemma ClaimantIsPlaced(placed: seq<Component>, i: nat, k: Byte)
    requires Outcomes(placed) && i < |placed| && Claims(Filled(placed[i]), k)
    ensures Filled(placed[i]).Placed()
  {
    assert Outcome(placed[..i + 1]);
  }

  /** Every byte belongs to just the component that claims it. */
  ghost predicate OneOwner(owner: map<Byte, nat>, cs: seq<Component>) {
    forall k, i :: 0 <= i < |cs| ==> (k in owner && owner[k] == i <==> Claims(cs[i], k))
  }

  lemma ClaimantsAreOne(placed: seq<Component>, cs: seq<Component>, k: Byte, i: nat, j: nat)
    requires Outcomes(placed) && |cs| == |placed| && i < |cs| && cs[i] == Filled(placed[i])
    requires NoOverlap(cs) && j < |cs| && cs[j] == Filled(placed[j]) && Claims(cs[i], k) && Claims(cs[j], k)
    ensures i == j
  {
    ClaimantIsPlaced(placed, i, k);
    ClaimantIsPlaced(placed, j, k);
    assert Shares(cs[j], cs[i]) && Shares(cs[i], cs[j]);
  }

  /** Where the layout has no overlap, no two components have a byte of a module in common. */
  lemma OwnerIffClaims(placed: seq<Component>, cs: seq<Component>, owner: map<Byte, nat>)
    requires Outcomes(placed) && |cs| == |placed| && forall j :: 0 <= j < |cs| ==> cs[j] == Filled(placed[j])
    requires Owners(owner, cs)
    ensures NoOverlap(cs) ==> OneOwner(owner, cs)
  {
    forall k, i | 0 <= i < |cs| && NoOverlap(cs) && Claims(cs[i], k)
      ensures owner[k] == i
    {
      ClaimantsAreOne(placed, cs, k, i, owner[k]);
    }
  }

  /** The component that gave a field an offset of its own was placed. */
  lemma GiverIsPlaced(registry: Registry, placed: seq<Component>, i: nat, f: Field)
    requires Outcomes(placed) && i < |placed| && Gives(registry, Filled(placed[i]), f)
    requires Given(registry, Filled(placed[i]), f) >= 0
    ensures Filled(placed[i]).Placed() && Given(registry, Filled(placed[i]), f) == Filled(placed[i]).offset
  {
    assert Outcome(placed[..i + 1]);
  }

  /**
   The law of the layout as a module sees it: where the layout has no overlap, two attributes of one
   module with offsets of their own have no byte in common.
   */
  lemma AttributesAreApart(
    registry: Registry, placed: seq<Component>, cs: seq<Component>, was: map<Field, int>, offsets: map<Field, int>, f: Field, g: Field)
    requires Outcomes(placed) && |cs| == |placed| && forall j :: 0 <= j < |cs| ==> cs[j] == Filled(placed[j])
    requires Filed(registry, was, cs, offsets) && NoOverlap(cs) && f.mod == g.mod && f.k != g.k
    requires Giver(registry, cs, f) >= 0 && Giver(registry, cs, g) >= 0 && offsets[f] >= 0 && offsets[g] >= 0
    ensures var i, j := Giver(registry, cs, f), Giver(registry, cs, g);
            cs[i].attr != cs[j].attr && Apart(offsets[f], cs[i].size, offsets[g], cs[j].size)
  {
    var i, j := Giver(registry, cs, f), Giver(registry, cs, g);
    GiverIsPlaced(registry, placed, i, f);
    GiverIsPlaced(registry, placed, j, g);
    assert Shares(cs[i], cs[j]) && Shares(cs[j], cs[i]);
  }

  method AssignOffsets(a: array<Component>, registry: Registry, was: map<Field, int>)
    returns (owner: map<Byte, nat>, offsets: map<Field, int>, ghost placed: seq<Component>)
    requires forall i :: 0 <= i < a.Length ==> a[i].Sized() && !a[i].isAssigned
    modifies a
    ensures |placed| == a.Length && Outcomes(placed)
    ensures forall i :: 0 <= i < a.Length ==> SameShape(placed[i], old(a[i])) && a[i] == Filled(placed[i])
    ensures EarlierNeighboursShare(old(a[..])) ==> NoOverlap(a[..])
    ensures Owners(owner, a[..]) && (NoOverlap(a[..]) ==> OneOwner(owner, a[..]))
    ensures Filed(registry, was, a[..], offsets)
  {
    PlaceAll(a);
    placed := a[..];
    owner, offsets := FillOffsetArrays(a, registry, was);
    FilledHasNoOverlap(old(a[..]), placed, a[..]);
    OwnerIffClaims(placed, a[..], owner);
  }
}
