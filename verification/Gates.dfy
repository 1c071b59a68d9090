/**
 The gate structure of the module graph. A module has vectors of input and output gates, some of
 them empty. An output gate names the input gate it is connected to, and an input gate lists the
 output gates connected to it. Connecting, disconnecting and destroying change both sides.
 */
module Gates {
  const MAX_GATES: nat := 8192

  datatype Status = Success | EBusy | EInval

  class OGate {
    const owner: Module
    const idx: nat
    var igate: IGate?

    constructor (owner: Module, idx: nat)
      ensures this.owner == owner && this.idx == idx && igate == null
    {
      this.owner, this.idx, igate := owner, idx, null;
    }

    method SetIgate(ig: IGate)
      modifies this
      ensures igate == ig
    {
      igate := ig;
    }
  }

  class IGate {
    const owner: Module
    const idx: nat
    var upstream: seq<OGate>

    constructor (owner: Module, idx: nat)
      ensures this.owner == owner && this.idx == idx && upstream == []
    {
      this.owner, this.idx, upstream := owner, idx, [];
    }

    method PushOgate(og: OGate)
      modifies this
      ensures upstream == old(upstream) + [og]
    {
      upstream := upstream + [og];
    }

    /** Takes the first occurrence of an output gate out of the list. */
    method RemoveOgate(og: OGate)
      modifies this
      ensures og !in old(upstream) ==> upstream == old(upstream)
      ensures og in old(upstream) ==>
                exists k :: 0 <= k < |old(upstream)| && old(upstream)[k] == og && og !in old(upstream)[..k]
                            && upstream == old(upstream)[..k] + old(upstream)[k + 1..]
    {
      for k := 0 to |upstream|
        invariant upstream == old(upstream) && og !in upstream[..k]
      {
        if upstream[k] == og {
          upstream := upstream[..k] + upstream[k + 1..];
          return;
        }
      }
    }
  }

  class Module {
    // How many gates the module's class allows.
    const numIGates: nat
    const numOGates: nat
    var igates: seq<IGate?>
    var ogates: seq<OGate?>

    constructor (numIGates: nat, numOGates: nat)
      ensures this.numIGates == numIGates && this.numOGates == numOGates && igates == [] && ogates == []
    {
      this.numIGates, this.numOGates, igates, ogates := numIGates, numOGates, [], [];
    }
  }

  predicate ActiveO(m: Module, i: nat)
    reads m
  {
    i < |m.ogates| && m.ogates[i] != null
  }

  predicate ActiveI(m: Module, j: nat)
    reads m
  {
    j < |m.igates| && m.igates[j] != null
  }

  ghost predicate Distinct(os: seq<OGate>) {
    forall i, j :: 0 <= i < j < |os| ==> os[i] != os[j]
  }

  // ----- The invariant -----

  /** An active output gate is listed by the input gate it names, which its module holds. */
  ghost predicate OGateOk(ms: set<Module>, m: Module, i: nat)
    requires ActiveO(m, i)
    reads *
  {
    var o := m.ogates[i];
    && o.owner == m && o.idx == i && o.igate != null
    && o.igate.owner in ms && ActiveI(o.igate.owner, o.igate.idx) && o.igate.owner.igates[o.igate.idx] == o.igate
    && o in o.igate.upstream
  }

  /** An input gate lists, without repetition, at least one output gate, all active and all naming it. */
  ghost predicate IGateOk(ms: set<Module>, m: Module, j: nat)
    requires ActiveI(m, j)
    reads *
  {
    var g := m.igates[j];
    && g.owner == m && g.idx == j && g.upstream != [] && Distinct(g.upstream)
    && forall k :: 0 <= k < |g.upstream| ==>
                     && g.upstream[k].owner in ms && ActiveO(g.upstream[k].owner, g.upstream[k].idx)
                     && g.upstream[k].owner.ogates[g.upstream[k].idx] == g.upstream[k]
                     && g.upstream[k].igate == g
  }

  ghost predicate Consistent(ms: set<Module>)
    reads *
  {
    && (forall m, i: nat :: m in ms && ActiveO(m, i) ==> OGateOk(ms, m, i))
    && (forall m, j: nat :: m in ms && ActiveI(m, j) ==> IGateOk(ms, m, j))
    && (forall m :: m in ms ==> |m.igates| <= m.numIGates && |m.ogates| <= m.numOGates)
  }

  /** Output gate i of m is connected to input gate j of n. */
  ghost predicate Connected(m: Module, i: nat, n: Module, j: nat)
    reads *
  {
    ActiveO(m, i) && m.ogates[i].igate != null && m.ogates[i].igate.owner == n && m.ogates[i].igate.idx == j
  }

  // ----- Connecting -----

  function Resized<T>(s: seq<T>, n: nat, fill: T): (r: seq<T>)
    ensures |r| == if |s| >= n then |s| else n
    ensures forall i :: 0 <= i < |s| ==> r[i] == s[i]
    ensures forall i :: |s| <= i < |r| ==> r[i] == fill
  {
    if |s| >= n then s else s + seq(n - |s|, _ => fill)
  }

  /** Output gate k of a is as it was. */
  twostate predicate SameO(a: Module, k: nat)
    reads *
  {
    && (ActiveO(a, k) <==> old(ActiveO(a, k)))
    && (ActiveO(a, k) ==> a.ogates[k] == old(a.ogates[k]) && a.ogates[k].igate == old(a.ogates[k].igate))
  }

  /** Input gate l of a is as it was. */
  twostate predicate SameI(a: Module, l: nat)
    reads *
  {
    && (ActiveI(a, l) <==> old(ActiveI(a, l)))
    && (ActiveI(a, l) ==> a.igates[l] == old(a.igates[l]) && a.igates[l].upstream == old(a.igates[l].upstream))
  }

  /** A set of modules, and an output gate of one and an input gate of another to connect. */
  datatype Link = Link(ms: set<Module>, m: Module, i: nat, n: Module, j: nat)

  /** What connecting output gate i of m to input gate j of n does to the heap. */
  twostate predicate Linked(e: Link)
    reads *
  {
    && (forall a, k: nat :: a in e.ms && !(a == e.m && k == e.i) ==> SameO(a, k))
    && (forall a, l: nat :: a in e.ms && !(a == e.n && l == e.j) ==> SameI(a, l))
    && !old(ActiveO(e.m, e.i)) && ActiveO(e.m, e.i) && ActiveI(e.n, e.j)
    && var o, g := e.m.ogates[e.i], e.n.igates[e.j];
    && o.owner == e.m && o.idx == e.i && o.igate == g && !old(allocated(o))
    && g.owner == e.n && g.idx == e.j
    && (old(ActiveI(e.n, e.j)) ==> g == old(e.n.igates[e.j]) && g.upstream == old(e.n.igates[e.j].upstream) + [o])
    && (!old(ActiveI(e.n, e.j)) ==> !old(allocated(g)) && g.upstream == [o])
  }

  twostate lemma LinkedOGates(e: Link)
    requires old(Consistent(e.ms)) && e.m in e.ms && e.n in e.ms && Linked(e)
    ensures forall a, k: nat :: a in e.ms && ActiveO(a, k) ==> OGateOk(e.ms, a, k)
  {
    var up := e.n.igates[e.j].upstream;
    assert up[|up| - 1] == e.m.ogates[e.i];
    forall a, k: nat | a in e.ms && ActiveO(a, k)
      ensures OGateOk(e.ms, a, k)
    {
      if !(a == e.m && k == e.i) {
        assert SameO(a, k) && old(OGateOk(e.ms, a, k));
        var h := a.ogates[k].igate;
        assert !(h.owner == e.n && h.idx == e.j) ==> SameI(h.owner, h.idx);
      }
    }
  }

  twostate lemma LinkedConsistent(e: Link)
    requires old(Consistent(e.ms)) && e.m in e.ms && e.n in e.ms && Linked(e)
    requires forall a :: a in e.ms ==> |a.igates| <= a.numIGates && |a.ogates| <= a.numOGates
    ensures Consistent(e.ms)
  {
    LinkedOGates(e);
    forall a, l: nat | a in e.ms && ActiveI(a, l)
      ensures IGateOk(e.ms, a, l)
    {
      var up := a.igates[l].upstream;
      assert !(a == e.n && l == e.j) ==> SameI(a, l);
      assert old(ActiveI(a, l)) ==> old(IGateOk(e.ms, a, l));
      forall x | 0 <= x < |up|
        ensures && up[x].owner in e.ms && ActiveO(up[x].owner, up[x].idx)
                && up[x].owner.ogates[up[x].idx] == up[x] && up[x].igate == a.igates[l]
      {
        assert !(up[x].owner == e.m && up[x].idx == e.i) ==> up[x].owner in e.ms ==> SameO(up[x].owner, up[x].idx);
      }
    }
  }

  twostate lemma LinkedKeeps(e: Link)
    requires old(Consistent(e.ms)) && e.m in e.ms && e.n in e.ms && Linked(e)
    requires forall a :: a in e.ms ==> |a.igates| <= a.numIGates && |a.ogates| <= a.numOGates
    ensures Consistent(e.ms)
    ensures forall a, k: nat, b, l: nat :: a in e.ms && b in e.ms ==>
              (Connected(a, k, b, l) <==> old(Connected(a, k, b, l)) || (a == e.m && k == e.i && b == e.n && l == e.j))
  {
    LinkedConsistent(e);
    forall a, k: nat, b, l: nat | a in e.ms && b in e.ms
      ensures Connected(a, k, b, l) <==> old(Connected(a, k, b, l)) || (a == e.m && k == e.i && b == e.n && l == e.j)
    {
      assert !(a == e.m && k == e.i) ==> SameO(a, k);
    }
  }

  /** The input gate of n at position j, created if there is none. */
  method FindOrCreate(n: Module, j: nat) returns (g: IGate)
    modifies n`igates
    ensures |n.igates| == if j < |old(n.igates)| then |old(n.igates)| else j + 1
    ensures n.igates[j] == g
    ensures forall l: nat :: l != j && ActiveI(n, l) ==> old(ActiveI(n, l))
    ensures forall l: nat :: l != j && old(ActiveI(n, l)) ==> ActiveI(n, l) && n.igates[l] == old(n.igates[l])
    ensures old(ActiveI(n, j)) ==> g == old(n.igates[j]) && g.upstream == old(n.igates[j].upstream)
    ensures !old(ActiveI(n, j)) ==> fresh(g) && g.owner == n && g.idx == j && g.upstream == []
  {
    n.igates := Resized(n.igates, j + 1, null);
    if n.igates[j] == null {
      g := new IGate(n, j);
      n.igates := n.igates[j := g];
    } else {
      g := n.igates[j];
    }
  }

  /** Puts a new output gate of m at position i. */
  method Create(m: Module, i: nat) returns (o: OGate)
    requires !ActiveO(m, i)
    modifies m`ogates
    ensures fresh(o) && o.owner == m && o.idx == i
    ensures |m.ogates| == if i < |old(m.ogates)| then |old(m.ogates)| else i + 1
    ensures m.ogates[i] == o
    ensures forall k: nat :: k != i && ActiveO(m, k) ==> old(ActiveO(m, k))
    ensures forall k: nat :: k != i && old(ActiveO(m, k)) ==> ActiveO(m, k) && m.ogates[k] == old(m.ogates[k])
  {
    m.ogates := Resized(m.ogates, i + 1, null);
    o := new OGate(m, i);
    m.ogates := m.ogates[i := o];
  }

  method Attach(ms: set<Module>, m: Module, i: nat, n: Module, j: nat)
    requires Consistent(ms) && m in ms && n in ms && i < m.numOGates && j < n.numIGates && !ActiveO(m, i)
    modifies m, n, if ActiveI(n, j) then {n.igates[j]} else {}
    ensures Linked(Link(ms, m, i, n, j))
    ensures forall a :: a in ms ==> |a.igates| <= a.numIGates && |a.ogates| <= a.numOGates
  {
    assert ActiveI(n, j) ==> IGateOk(ms, n, j);
    var ogate := Create(m, i);
    var igate := FindOrCreate(n, j);
    ogate.SetIgate(igate);
    igate.PushOgate(ogate);
    forall a, k: nat | a in ms && !(a == m && k == i) ensures SameO(a, k) {
      assert old(ActiveO(a, k)) ==> old(OGateOk(ms, a, k));
    }
    forall a, l: nat | a in ms && !(a == n && l == j) ensures SameI(a, l) {
      assert old(ActiveI(a, l)) ==> old(IGateOk(ms, a, l));
    }
  }

  method ConnectGate(ms: set<Module>, m: Module, i: nat, n: Module, j: nat) returns (status: Status)
    requires Consistent(ms) && m in ms && n in ms && i < m.numOGates && j < n.numIGates
    modifies m, n, if ActiveI(n, j) then {n.igates[j]} else {}
    ensures Consistent(ms)
    ensures status.EBusy? <==> old(ActiveO(m, i))
    ensures status.EBusy? || status.Success?
    ensures forall a, k: nat, b, l: nat :: a in ms && b in ms ==>
              (Connected(a, k, b, l) <==>
               old(Connected(a, k, b, l)) || (status.Success? && a == m && k == i && b == n && l == j))
  {
    if ActiveO(m, i) {
      return EBusy;
    }
    Attach(ms, m, i, n, j);
    LinkedKeeps(Link(ms, m, i, n, j));
    return Success;
  }

  // ----- Disconnecting -----

  /** A sequence with the first occurrence of an element taken out. */
  ghost predicate IsWithout(up: seq<OGate>, o: OGate, rest: seq<OGate>) {
    exists k :: 0 <= k < |up| && up[k] == o && rest == up[..k] + up[k + 1..]
  }

  lemma WithoutMembers(up: seq<OGate>, o: OGate, rest: seq<OGate>)
    requires Distinct(up) && IsWithout(up, o, rest)
    ensures Distinct(rest) && forall p :: p in rest <==> p in up && p != o
  {
    var k :| 0 <= k < |up| && up[k] == o && rest == up[..k] + up[k + 1..];
    assert forall x :: 0 <= x < |rest| ==> rest[x] == if x < k then up[x] else up[x + 1];
    forall p
      ensures p in rest <==> p in up && p != o
    {
      if p in up && p != o {
        var x :| 0 <= x < |up| && up[x] == p;
        assert rest[if x < k then x else x - 1] == p;
      }
    }
  }

  /** What disconnecting output gate i of m from input gate j of n does to the heap. */
  twostate predicate Unlinked(e: Link)
    reads *
  {
    && (forall a, k: nat :: a in e.ms && !(a == e.m && k == e.i) ==> SameO(a, k))
    && (forall a, l: nat :: a in e.ms && !(a == e.n && l == e.j) ==> SameI(a, l))
    && old(Connected(e.m, e.i, e.n, e.j)) && old(ActiveI(e.n, e.j)) && !ActiveO(e.m, e.i)
    && (ActiveI(e.n, e.j) <==> |old(e.n.igates[e.j].upstream)| != 1)
    && (ActiveI(e.n, e.j) ==>
          && e.n.igates[e.j] == old(e.n.igates[e.j])
          && IsWithout(old(e.n.igates[e.j].upstream), old(e.m.ogates[e.i]), e.n.igates[e.j].upstream))
  }

  twostate lemma UnlinkedOGates(e: Link)
    requires old(Consistent(e.ms)) && e.m in e.ms && e.n in e.ms && Unlinked(e)
    ensures forall a, k: nat :: a in e.ms && ActiveO(a, k) ==> OGateOk(e.ms, a, k)
  {
    ghost var up, gone := old(e.n.igates[e.j].upstream), old(e.m.ogates[e.i]);
    assert old(OGateOk(e.ms, e.m, e.i)) && old(IGateOk(e.ms, e.n, e.j));
    forall a, k: nat | a in e.ms && ActiveO(a, k)
      ensures OGateOk(e.ms, a, k)
    {
      assert SameO(a, k) && old(OGateOk(e.ms, a, k));
      var h := a.ogates[k].igate;
      if h.owner == e.n && h.idx == e.j {
        assert a.ogates[k] in up && gone in up && a.ogates[k] != gone;
        assert ActiveI(e.n, e.j);
        WithoutMembers(up, gone, h.upstream);
      } else {
        assert SameI(h.owner, h.idx);
      }
    }
  }

  twostate lemma UnlinkedConsistent(e: Link)
    requires old(Consistent(e.ms)) && e.m in e.ms && e.n in e.ms && Unlinked(e)
    requires forall a :: a in e.ms ==> |a.igates| <= a.numIGates && |a.ogates| <= a.numOGates
    ensures Consistent(e.ms)
  {
    UnlinkedOGates(e);
    assert old(OGateOk(e.ms, e.m, e.i)) && old(IGateOk(e.ms, e.n, e.j));
    forall a, l: nat | a in e.ms && ActiveI(a, l)
      ensures IGateOk(e.ms, a, l)
    {
      var up := a.igates[l].upstream;
      if a == e.n && l == e.j {
        WithoutMembers(old(e.n.igates[e.j].upstream), old(e.m.ogates[e.i]), up);
      } else {
        assert SameI(a, l) && old(IGateOk(e.ms, a, l));
      }
      forall x | 0 <= x < |up|
        ensures && up[x].owner in e.ms && ActiveO(up[x].owner, up[x].idx)
                && up[x].owner.ogates[up[x].idx] == up[x] && up[x].igate == a.igates[l]
      {
        assert up[x] in up;
        assert up[x].owner in e.ms && SameO(up[x].owner, up[x].idx);
      }
    }
  }

  twostate lemma UnlinkedKeeps(e: Link)
    requires old(Consistent(e.ms)) && e.m in e.ms && e.n in e.ms && Unlinked(e)
    requires forall a :: a in e.ms ==> |a.igates| <= a.numIGates && |a.ogates| <= a.numOGates
    ensures Consistent(e.ms)
    ensures forall a, k: nat, b, l: nat :: a in e.ms && b in e.ms ==>
              (Connected(a, k, b, l) <==> old(Connected(a, k, b, l)) && !(a == e.m && k == e.i))
  {
    UnlinkedConsistent(e);
    forall a, k: nat, b, l: nat | a in e.ms && b in e.ms
      ensures Connected(a, k, b, l) <==> old(Connected(a, k, b, l)) && !(a == e.m && k == e.i)
    {
      assert !(a == e.m && k == e.i) ==> SameO(a, k);
    }
  }

  method Detach(ms: set<Module>, m: Module, i: nat)
    requires Consistent(ms) && m in ms && ActiveO(m, i) && OGateOk(ms, m, i)
    modifies ms, m.ogates[i].igate
    ensures Unlinked(Link(ms, m, i, old(m.ogates[i].igate.owner), old(m.ogates[i].igate.idx)))
    ensures forall a, l: nat :: a in ms && ActiveI(a, l) ==> old(ActiveI(a, l)) && a.igates[l] == old(a.igates[l])
    ensures forall a :: a in ms ==> |a.igates| == |old(a.igates)| && |a.ogates| == |old(a.ogates)|
  {
    var ogate := m.ogates[i];
    var igate := ogate.igate;
    var n := igate.owner;
    assert IGateOk(ms, n, igate.idx);
    igate.RemoveOgate(ogate);
    if igate.upstream == [] {
      n.igates := n.igates[igate.idx := null];
    }
    m.ogates := m.ogates[i := null];
    forall a, k: nat | a in ms && !(a == m && k == i) ensures SameO(a, k) {
      assert old(ActiveO(a, k)) ==> old(OGateOk(ms, a, k));
    }
    forall a, l: nat | a in ms && !(a == n && l == igate.idx) ensures SameI(a, l) {
      assert old(ActiveI(a, l)) ==> old(IGateOk(ms, a, l));
    }
  }

  method DisconnectGate(ms: set<Module>, m: Module, i: nat)
    requires Consistent(ms) && m in ms
    modifies ms, if ActiveO(m, i) && m.ogates[i].igate != null then {m.ogates[i].igate} else {}
    ensures Consistent(ms)
    ensures forall a, k: nat, b, l: nat :: a in ms && b in ms ==>
              (Connected(a, k, b, l) <==> old(Connected(a, k, b, l)) && !(a == m && k == i))
    ensures forall a, l: nat :: a in ms && ActiveI(a, l) ==> old(ActiveI(a, l)) && a.igates[l] == old(a.igates[l])
    ensures forall a :: a in ms ==> |a.igates| == |old(a.igates)| && |a.ogates| == |old(a.ogates)|
  {
    if ActiveO(m, i) {
      assert OGateOk(ms, m, i);
      Detach(ms, m, i);
      UnlinkedKeeps(Link(ms, m, i, old(m.ogates[i].igate.owner), old(m.ogates[i].igate.idx)));
    }
  }

  /** An input gate of a module, in a set of modules. */
  datatype Input = Input(ms: set<Module>, n: Module, j: nat)

  /** What disconnecting everything upstream of input gate j of n does to the heap. */
  twostate predicate Cleared(e: Input)
    reads *
  {
    && !ActiveI(e.n, e.j)
    && (forall a, l: nat :: a in e.ms && !(a == e.n && l == e.j) ==> SameI(a, l))
    && (forall a, k: nat :: a in e.ms && old(Connected(a, k, e.n, e.j)) ==> !ActiveO(a, k))
    && (forall a, k: nat :: a in e.ms && !old(Connected(a, k, e.n, e.j)) ==> SameO(a, k))
  }

  twostate lemma ClearedConsistent(e: Input)
    requires old(Consistent(e.ms)) && e.n in e.ms && Cleared(e)
    requires forall a :: a in e.ms ==> |a.igates| <= a.numIGates && |a.ogates| <= a.numOGates
    ensures Consistent(e.ms)
  {
    forall a, k: nat | a in e.ms && ActiveO(a, k)
      ensures OGateOk(e.ms, a, k)
    {
      assert SameO(a, k) && old(OGateOk(e.ms, a, k));
      var h := a.ogates[k].igate;
      assert SameI(h.owner, h.idx);
    }
    forall a, l: nat | a in e.ms && ActiveI(a, l)
      ensures IGateOk(e.ms, a, l)
    {
      assert SameI(a, l) && old(IGateOk(e.ms, a, l));
      var up := a.igates[l].upstream;
      forall x | 0 <= x < |up|
        ensures && up[x].owner in e.ms && ActiveO(up[x].owner, up[x].idx)
                && up[x].owner.ogates[up[x].idx] == up[x] && up[x].igate == a.igates[l]
      {
        assert SameO(up[x].owner, up[x].idx);
      }
    }
  }

  twostate lemma ClearedKeeps(e: Input)
    requires old(Consistent(e.ms)) && e.n in e.ms && Cleared(e)
    requires forall a :: a in e.ms ==> |a.igates| <= a.numIGates && |a.ogates| <= a.numOGates
    ensures Consistent(e.ms)
    ensures forall a, k: nat, b, l: nat :: a in e.ms && b in e.ms ==>
              (Connected(a, k, b, l) <==> old(Connected(a, k, b, l)) && !(b == e.n && l == e.j))
  {
    ClearedConsistent(e);
    forall a, k: nat, b, l: nat | a in e.ms && b in e.ms
      ensures Connected(a, k, b, l) <==> old(Connected(a, k, b, l)) && !(b == e.n && l == e.j)
    {
      assert !old(Connected(a, k, e.n, e.j)) ==> SameO(a, k);
    }
  }

  /** The slots of output gates once those in a list are gone. */
  function Nulled(slots: seq<OGate?>, gone: seq<OGate>): (r: seq<OGate?>)
    ensures |r| == |slots|
    ensures forall k :: 0 <= k < |slots| ==> r[k] == if slots[k] != null && slots[k] in gone then null else slots[k]
  {
    seq(|slots|, k requires 0 <= k < |slots| => if slots[k] != null && slots[k] in gone then null else slots[k])
  }

  /** Empties the slots of the output gates that an input gate lists. */
  method NullUpstream(ms: set<Module>, n: Module, j: nat)
    requires Consistent(ms) && n in ms && ActiveI(n, j)
    modifies ms
    ensures forall a :: a in ms ==> a.igates == old(a.igates)
    ensures forall a :: a in ms ==> a.ogates == Nulled(old(a.ogates), n.igates[j].upstream)
  {
    assert IGateOk(ms, n, j);
    var up := n.igates[j].upstream;
    for x := 0 to |up|
      invariant forall a :: a in ms ==> a.igates == old(a.igates) && a.ogates == Nulled(old(a.ogates), up[..x])
    {
      var prev := up[x].owner;
      prev.ogates := prev.ogates[up[x].idx := null];
      forall a | a in ms ensures a.ogates == Nulled(old(a.ogates), up[..x + 1]) {
        forall k: nat | k < |a.ogates| ensures a.ogates[k] == Nulled(old(a.ogates), up[..x + 1])[k] {
          assert old(ActiveO(a, k)) ==> old(OGateOk(ms, a, k));
        }
      }
    }
    assert up[..|up|] == up;
  }

  method DisconnectModulesUpstream(ms: set<Module>, n: Module, j: nat)
    requires Consistent(ms) && n in ms && j < n.numIGates
    modifies ms
    ensures Consistent(ms)
    ensures forall a, k: nat, b, l: nat :: a in ms && b in ms ==>
              (Connected(a, k, b, l) <==> old(Connected(a, k, b, l)) && !(b == n && l == j))
    ensures forall a, l: nat :: a in ms && ActiveI(a, l) ==> old(ActiveI(a, l)) && a.igates[l] == old(a.igates[l])
    ensures forall a :: a in ms ==> |a.igates| == |old(a.igates)| && |a.ogates| == |old(a.ogates)|
  {
    forall a, k: nat | a in ms && ActiveO(a, k)
      ensures Connected(a, k, n, j) <==> ActiveI(n, j) && a.ogates[k] in n.igates[j].upstream
    {
      assert OGateOk(ms, a, k);
      assert ActiveI(n, j) ==> IGateOk(ms, n, j);
    }
    if ActiveI(n, j) {
      NullUpstream(ms, n, j);
      n.igates := n.igates[j := null];
      ClearedKeeps(Input(ms, n, j));
    }
  }

  /** No output gate is connected to an input gate that is not there, and one that is there is connected. */
  lemma IGateHasUpstream(ms: set<Module>, n: Module, j: nat)
    requires Consistent(ms) && n in ms
    ensures ActiveI(n, j) <==> exists a, k: nat :: a in ms && Connected(a, k, n, j)
  {
    if ActiveI(n, j) {
      assert IGateOk(ms, n, j);
      var o := n.igates[j].upstream[0];
      assert Connected(o.owner, o.idx, n, j);
    }
    forall a, k: nat | a in ms && Connected(a, k, n, j) ensures ActiveI(n, j) {
      assert OGateOk(ms, a, k);
    }
  }

  lemma UnconnectedIsBare(ms: set<Module>, m: Module)
    requires Consistent(ms) && m in ms
    requires forall a, k: nat, b, l: nat :: a in ms && b in ms && Connected(a, k, b, l) ==> a != m && b != m
    ensures forall k: nat :: !ActiveO(m, k) && !ActiveI(m, k)
  {
    forall k: nat ensures !ActiveO(m, k) && !ActiveI(m, k) {
      IGateHasUpstream(ms, m, k);
      if ActiveO(m, k) {
        assert OGateOk(ms, m, k);
        var g := m.ogates[k].igate;
        assert Connected(m, k, g.owner, g.idx);
      }
    }
  }

  /**
   Destroying a module disconnects everything into it and out of it, and nothing else: no gate of
   another module refers to a gate of the destroyed one.
   */
  method Destroy(ms: set<Module>, m: Module)
    requires Consistent(ms) && m in ms
    modifies ms, set a, l: nat | a in ms && ActiveI(a, l) :: a.igates[l]
    ensures Consistent(ms)
    ensures forall k: nat :: !ActiveO(m, k) && !ActiveI(m, k)
    ensures forall a, k: nat, b, l: nat :: a in ms && b in ms ==>
              (Connected(a, k, b, l) <==> old(Connected(a, k, b, l)) && a != m && b != m)
  {
    ghost var gs := set a, l: nat | a in ms && ActiveI(a, l) :: a.igates[l];
    for j := 0 to |m.igates|
      invariant Consistent(ms)
      invariant |m.igates| == |old(m.igates)| && |m.ogates| == |old(m.ogates)|
      invariant forall a, l: nat :: a in ms && ActiveI(a, l) ==> a.igates[l] in gs
      invariant forall a, k: nat, b, l: nat :: a in ms && b in ms ==>
                  (Connected(a, k, b, l) <==> old(Connected(a, k, b, l)) && !(b == m && l < j))
    {
      DisconnectModulesUpstream(ms, m, j);
    }
    for i := 0 to |m.ogates|
      invariant Consistent(ms)
      invariant |m.ogates| == |old(m.ogates)|
      invariant forall a, l: nat :: a in ms && ActiveI(a, l) ==> a.igates[l] in gs
      invariant forall a, k: nat, b, l: nat :: a in ms && b in ms ==>
                  (Connected(a, k, b, l) <==> old(Connected(a, k, b, l)) && b != m && !(a == m && k < i))
    {
      assert ActiveO(m, i) ==> OGateOk(ms, m, i);
      DisconnectGate(ms, m, i);
    }
    UnconnectedIsBare(ms, m);
  }

  lemma ConsistentWithout(ms: set<Module>, m: Module)
    requires Consistent(ms) && m in ms
    requires forall k: nat :: !ActiveO(m, k) && !ActiveI(m, k)
    ensures Consistent(ms - {m})
  {
    forall a, k: nat | a in ms - {m} && ActiveO(a, k) ensures OGateOk(ms - {m}, a, k) {
      assert OGateOk(ms, a, k);
    }
    forall a, l: nat | a in ms - {m} && ActiveI(a, l) ensures IGateOk(ms - {m}, a, l) {
      assert IGateOk(ms, a, l);
    }
  }

  /**
   The graph of all modules. Every operation keeps the two sides of every connection in step, so any
   sequence of operations does.
   */
  class ModuleGraph {
    var modules: set<Module>

    ghost predicate Valid()
      reads *
    {
      Consistent(modules)
    }

    constructor ()
      ensures Valid() && modules == {}
    {
      modules := {};
    }

    method CreateModule(numIGates: nat, numOGates: nat) returns (m: Module)
      requires Valid()
      modifies this`modules
      ensures Valid() && fresh(m) && modules == old(modules) + {m}
      ensures m.numIGates == numIGates && m.numOGates == numOGates && m.igates == [] && m.ogates == []
    {
      m := new Module(numIGates, numOGates);
      modules := modules + {m};
      assert forall a, k: nat :: a in old(modules) && ActiveO(a, k) ==> old(ActiveO(a, k)) && old(OGateOk(modules, a, k));
      assert forall a, l: nat :: a in old(modules) && ActiveI(a, l) ==> old(ActiveI(a, l)) && old(IGateOk(modules, a, l));
    }

    method DestroyModule(m: Module)
      requires Valid() && m in modules
      modifies this, modules, set a, l: nat | a in modules && ActiveI(a, l) :: a.igates[l]
      ensures Valid() && modules == old(modules) - {m}
      ensures forall a, k: nat, b, l: nat :: a in modules && b in modules ==>
                (Connected(a, k, b, l) <==> old(Connected(a, k, b, l)))
    {
      Destroy(modules, m);
      ConsistentWithout(modules, m);
      modules := modules - {m};
    }

    method ConnectModules(m: Module, i: nat, n: Module, j: nat) returns (status: Status)
      requires Valid() && m in modules && n in modules
      modifies m, n, if ActiveI(n, j) then {n.igates[j]} else {}
      ensures Valid()
      ensures status.EInval? <==> i >= m.numOGates || i >= MAX_GATES || j >= n.numIGates || j >= MAX_GATES
      ensures status.EBusy? <==> !status.EInval? && old(ActiveO(m, i))
      ensures forall a, k: nat, b, l: nat :: a in modules && b in modules ==>
                (Connected(a, k, b, l) <==>
                 old(Connected(a, k, b, l)) || (status.Success? && a == m && k == i && b == n && l == j))
    {
      if i >= m.numOGates || i >= MAX_GATES || j >= n.numIGates || j >= MAX_GATES {
        return EInval;
      }
      status := ConnectGate(modules, m, i, n, j);
    }

    method DisconnectModule(m: Module, i: nat) returns (status: Status)
      requires Valid() && m in modules
      modifies modules, if ActiveO(m, i) && m.ogates[i].igate != null then {m.ogates[i].igate} else {}
      ensures Valid()
      ensures status == if i >= m.numOGates then EInval else Success
      ensures forall a, k: nat, b, l: nat :: a in modules && b in modules ==>
                (Connected(a, k, b, l) <==> old(Connected(a, k, b, l)) && !(status.Success? && a == m && k == i))
    {
      if i >= m.numOGates {
        return EInval;
      }
      DisconnectGate(modules, m, i);
      return Success;
    }
  }
}
