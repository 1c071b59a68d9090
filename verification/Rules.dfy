/**
 The packet forwarding rules of a session, and the datapath entries they are programmed as.
 An entry's key is what the datapath's delete commands name; its value is what an add writes.
 */
module Rules {
  import opened Ports

  datatype QosLevel = ApplicationQos | SessionQos

  datatype Interface = Access | Core

  datatype AppFilter = AppFilter(
    srcIP: nat, srcIPMask: nat, dstIP: nat, dstIPMask: nat, proto: nat, protoMask: nat,
    srcPorts: PortRange, dstPorts: PortRange)

  datatype Pdr = Pdr(
    pdrID: nat, fseID: nat, srcIface: nat, srcIfaceMask: nat, tunnelDst: nat, tunnelDstMask: nat,
    tunnelTEID: nat, tunnelTEIDMask: nat, filter: AppFilter,
    precedence: nat, ctrID: nat, farID: nat, qerIDs: seq<nat>, needDecap: nat)

  datatype Far = Far(
    farID: nat, fseID: nat, applyAction: nat, dstIntf: nat, tunnelType: nat,
    tunnelSrc: nat, tunnelDst: nat, tunnelTEID: nat, tunnelPort: nat)

  /** The gate status and bit rates of one direction. */
  datatype Rates = Rates(status: nat, mbr: nat, gbr: nat)

  datatype Qer = Qer(qerID: nat, fseID: nat, level: QosLevel, qfi: nat, uplink: Rates, downlink: Rates)

  datatype Key =
    | PdrKey(srcIface: nat, srcIfaceMask: nat, tunnelDst: nat, tunnelDstMask: nat,
             tunnelTEID: nat, tunnelTEIDMask: nat, srcIP: nat, srcIPMask: nat, dstIP: nat, dstIPMask: nat,
             proto: nat, protoMask: nat, ports: PortRule)
    | FarKey(farID: nat, farSession: nat)
    | AppQerKey(appIface: Interface, qerID: nat, appSession: nat)
    | SessQerKey(sessIface: Interface, session: nat)

  datatype Value =
    | PdrValue(needDecap: nat, precedence: nat, pdrID: nat, pdrSession: nat, ctrID: nat, qerID: nat, farID: nat)
    | FarValue(far: Far)
    | AppQerValue(appRates: Rates, qfi: nat)
    | SessQerValue(sessRates: Rates, sessQfi: nat)

  datatype Rule = PdrRule(pdr: Pdr) | FarRule(far: Far) | QerRule(qer: Qer)

  // ----- Keys -----

  function PdrKeyOf(p: Pdr, ports: PortRule): (k: Key) {
    PdrKey(p.srcIface, p.srcIfaceMask, p.tunnelDst, p.tunnelDstMask, p.tunnelTEID, p.tunnelTEIDMask,
           p.filter.srcIP, p.filter.srcIPMask, p.filter.dstIP, p.filter.dstIPMask,
           p.filter.proto, p.filter.protoMask, ports)
  }

  function PdrPortRules(p: Pdr): (rules: seq<PortRule>) {
    match PortRules(p.filter.srcPorts, p.filter.dstPorts)
    case Ok(rules) => rules
    case Err => []
  }

  /** The keys the delete commands of a PDR name: one per port rule, none if it cannot be translated. */
  function PdrKeys(p: Pdr): (ks: set<Key>) {
    set r | r in PdrPortRules(p) :: PdrKeyOf(p, r)
  }

  function QerKey(q: Qer, iface: Interface): (k: Key) {
    match q.level
    case ApplicationQos => AppQerKey(iface, q.qerID, q.fseID)
    case SessionQos => SessQerKey(iface, q.fseID)
  }

  function Keys(r: Rule): (ks: set<Key>) {
    match r
    case PdrRule(p) => PdrKeys(p)
    case FarRule(f) => {FarKey(f.farID, f.fseID)}
    case QerRule(q) => {QerKey(q, Access), QerKey(q, Core)}
  }

  /** What adding a rule writes under one of its keys. */
  function ValueAt(r: Rule, k: Key): (v: Value) {
    match r
    case PdrRule(p) =>
      PdrValue(p.needDecap, p.precedence, p.pdrID, p.fseID, p.ctrID, if p.qerIDs == [] then 0 else p.qerIDs[0], p.farID)
    case FarRule(f) => FarValue(f)
    case QerRule(q) =>
      var rates := if k == QerKey(q, Access) then q.uplink else q.downlink;
      if q.level.ApplicationQos? then AppQerValue(rates, q.qfi) else SessQerValue(rates, q.qfi)
  }

  /** The datapath entries a rule is programmed as. */
  function Entries(r: Rule): (m: map<Key, Value>)
    ensures m.Keys == Keys(r)
  {
    map k | k in Keys(r) :: ValueAt(r, k)
  }

  // ----- The datapath-entry equality tests -----

  predicate PdrOccupiesSameEntry(p: Pdr, q: Pdr) {
    && p.srcIface == q.srcIface
    && p.srcIfaceMask == q.srcIfaceMask
    && p.tunnelDst == q.tunnelDst
    && p.tunnelDstMask == q.tunnelDstMask
    && p.tunnelTEID == q.tunnelTEID
    && p.tunnelTEIDMask == q.tunnelTEIDMask
    && p.filter.srcIP == q.filter.srcIP
    && p.filter.srcIPMask == q.filter.srcIPMask
    && p.filter.dstIP == q.filter.dstIP
    && p.filter.dstIPMask == q.filter.dstIPMask
    && p.filter.proto == q.filter.proto
    && p.filter.protoMask == q.filter.protoMask
    && SameMatch(p.filter.srcPorts, q.filter.srcPorts)
    && SameMatch(p.filter.dstPorts, q.filter.dstPorts)
  }

  predicate QerOccupiesSameEntry(p: Qer, q: Qer) {
    p.level == q.level
  }

  /** The ternary rules a range is compiled to, as a set. */
  ghost predicate InTernary(r: PortRange, t: TernaryRule) {
    if IsWildcard(r) then t == TernaryRule(0, 0) else t.mask == MAX_PORT && r.low <= t.port <= r.high
  }

  lemma ExactMatchesMember(r: PortRange, t: TernaryRule)
    requires ExactMatches(r).Ok?
    ensures t in ExactMatches(r).value <==> InTernary(r, t)
  {
    if IsRange(r) && InTernary(r, t) {
      assert ExactMatches(r).value[t.port - r.low] == t;
    }
  }

  lemma PortRulesMember(src: PortRange, dst: PortRange, r: PortRule)
    requires PortRules(src, dst).Ok?
    ensures r in PortRules(src, dst).value <==> InTernary(src, r.src) && InTernary(dst, r.dst)
  {
    var rules := PortRules(src, dst).value;
    if IsRange(src) {
      var ts := ExactMatches(src).value;
      ExactMatchesMember(src, r.src);
      if r.src in ts && InTernary(dst, r.dst) {
        var i :| 0 <= i < |ts| && ts[i] == r.src;
        assert rules[i] == r;
      }
    } else if IsRange(dst) {
      var ts := ExactMatches(dst).value;
      ExactMatchesMember(dst, r.dst);
      if r.dst in ts && InTernary(src, r.src) {
        var i :| 0 <= i < |ts| && ts[i] == r.dst;
        assert rules[i] == r;
      }
    }
  }

  lemma TernaryDetermines(a: PortRange, b: PortRange, t: TernaryRule)
    requires InTernary(a, t)
    requires forall u :: InTernary(a, u) <==> InTernary(b, u)
    ensures SameMatch(a, b)
  {
    assert InTernary(b, t);
    if !IsWildcard(a) && !IsWildcard(b) {
      assert InTernary(a, TernaryRule(a.low, MAX_PORT)) && InTernary(a, TernaryRule(a.high, MAX_PORT));
      assert InTernary(b, TernaryRule(b.low, MAX_PORT)) && InTernary(b, TernaryRule(b.high, MAX_PORT));
    }
  }

  lemma SameMatchCompilesAlike(a: PortRange, b: PortRange, c: PortRange, d: PortRange)
    requires SameMatch(a, b) && SameMatch(c, d)
    ensures PortRules(a, c) == PortRules(b, d)
  {
  }

  lemma EqualPortRules(a: PortRange, b: PortRange, c: PortRange, d: PortRange, r: PortRule)
    requires PortRules(a, c).Ok? && PortRules(b, d).Ok?
    requires r in PortRules(a, c).value
    requires forall s :: s in PortRules(a, c).value <==> s in PortRules(b, d).value
    ensures SameMatch(a, b) && SameMatch(c, d)
  {
    PortRulesMember(a, c, r);
    PortRulesMember(b, d, r);
    forall t
      ensures InTernary(a, t) <==> InTernary(b, t)
      ensures InTernary(c, t) <==> InTernary(d, t)
    {
      PortRulesMember(a, c, PortRule(t, r.dst));
      PortRulesMember(b, d, PortRule(t, r.dst));
      PortRulesMember(a, c, PortRule(r.src, t));
      PortRulesMember(b, d, PortRule(r.src, t));
    }
    TernaryDetermines(a, b, r.src);
    TernaryDetermines(c, d, r.dst);
  }

  /**
   The equality test is exact: two PDRs that pass it have the same delete keys, and two PDRs with
   the same delete keys pass it, unless they have no key at all.
   */
  lemma PdrEntryIdentity(p: Pdr, q: Pdr)
    ensures PdrOccupiesSameEntry(p, q) ==> PdrKeys(p) == PdrKeys(q)
    ensures PdrKeys(p) == PdrKeys(q) && PdrKeys(p) != {} ==> PdrOccupiesSameEntry(p, q)
  {
    if PdrOccupiesSameEntry(p, q) {
      SameMatchCompilesAlike(p.filter.srcPorts, q.filter.srcPorts, p.filter.dstPorts, q.filter.dstPorts);
      assert PdrPortRules(p) == PdrPortRules(q);
      assert forall r :: PdrKeyOf(p, r) == PdrKeyOf(q, r);
    }
    if PdrKeys(p) == PdrKeys(q) && PdrKeys(p) != {} {
      SameKeysSamePorts(p, q);
      SameKeysSamePorts(q, p);
      var k :| k in PdrKeys(p);
      EqualPortRules(p.filter.srcPorts, q.filter.srcPorts, p.filter.dstPorts, q.filter.dstPorts, k.ports);
    }
  }

  lemma SameKeysSamePorts(p: Pdr, q: Pdr)
    requires PdrKeys(p) == PdrKeys(q)
    ensures forall r :: r in PdrPortRules(p) ==> r in PdrPortRules(q) && PdrKeyOf(p, r) == PdrKeyOf(q, r)
    ensures PdrKeys(p) != {} ==> PortRules(q.filter.srcPorts, q.filter.dstPorts).Ok?
  {
    forall r | r in PdrPortRules(p)
      ensures r in PdrPortRules(q) && PdrKeyOf(p, r) == PdrKeyOf(q, r)
    {
      assert PdrKeyOf(p, r) in PdrKeys(q);
    }
  }

  /** A PDR has no key exactly when its ports cannot be translated or one of its ranges is inverted. */
  lemma PdrWithoutKeys(p: Pdr)
    ensures PdrKeys(p) == {} <==>
            || PortRules(p.filter.srcPorts, p.filter.dstPorts).Err?
            || p.filter.srcPorts.low > p.filter.srcPorts.high
            || p.filter.dstPorts.low > p.filter.dstPorts.high
  {
    var src, dst := p.filter.srcPorts, p.filter.dstPorts;
    if PortRules(src, dst).Ok? {
      if src.low <= src.high && dst.low <= dst.high {
        var r := PortRule(if IsWildcard(src) then TernaryRule(0, 0) else TernaryRule(src.low, MAX_PORT),
                          if IsWildcard(dst) then TernaryRule(0, 0) else TernaryRule(dst.low, MAX_PORT));
        PortRulesMember(src, dst, r);
        assert PdrKeyOf(p, r) in PdrKeys(p);
      } else {
        forall r | r in PdrPortRules(p)
          ensures false
        {
          PortRulesMember(src, dst, r);
        }
      }
    }
  }

  /** The port ranges of a filter that was parsed are not inverted. */
  predicate Ordered(p: Pdr) {
    p.filter.srcPorts.low <= p.filter.srcPorts.high && p.filter.dstPorts.low <= p.filter.dstPorts.high
  }

  /**
   Without keys the test and the keys can disagree: two PDRs on different interfaces with a range too
   wide to be translated exactly.
   */
  lemma KeylessPdrsDisagree()
    ensures exists p: Pdr, q: Pdr ::
              Ordered(p) && Ordered(q) && PdrKeys(p) == PdrKeys(q) && !PdrOccupiesSameEntry(p, q)
  {
    var wide, any := PortRange(1, 200), PortRange(0, MAX_PORT);
    assert Width(wide) == 200;
    var filter := AppFilter(0, 0, 0, 0, 0, 0, wide, any);
    var p := Pdr(1, 1, 1, 255, 0, 0, 0, 0, filter, 0, 0, 0, [], 0);
    var q := p.(srcIface := 2);
    PdrWithoutKeys(p);
    PdrWithoutKeys(q);
    assert Ordered(p) && Ordered(q) && PdrKeys(p) == PdrKeys(q) && !PdrOccupiesSameEntry(p, q);
  }

  /** For versions of one rule of one session the level decides a QER's entries. */
  lemma QerEntryIdentity(p: Qer, q: Qer)
    requires p.qerID == q.qerID && p.fseID == q.fseID
    ensures QerOccupiesSameEntry(p, q) <==> Keys(QerRule(p)) == Keys(QerRule(q))
  {
    assert QerKey(p, Access) in Keys(QerRule(p));
  }
}
