/**
 What the entries of a PDR are for: together they match exactly the packets the PDR describes, and no
 packet matches two of them.
 */
module Packets {
  import opened Bits
  import opened Ports
  import opened Rules

  /** The fields of a packet that the match table looks at. */
  datatype Packet = Packet(
    iface: nat, tunnelDst: nat, teid: nat, srcIP: nat, dstIP: nat, proto: nat, srcPort: Port, dstPort: Port)

  predicate Masked(field: nat, value: nat, mask: nat) {
    And(field, mask) == And(value, mask)
  }

  /** The match table compares each field under the entry's mask. */
  predicate KeyMatches(k: Key, pkt: Packet) {
    && k.PdrKey?
    && Masked(pkt.iface, k.srcIface, k.srcIfaceMask) && Masked(pkt.tunnelDst, k.tunnelDst, k.tunnelDstMask)
    && Masked(pkt.teid, k.tunnelTEID, k.tunnelTEIDMask) && Masked(pkt.srcIP, k.srcIP, k.srcIPMask)
    && Masked(pkt.dstIP, k.dstIP, k.dstIPMask) && Masked(pkt.proto, k.proto, k.protoMask)
    && Masked(pkt.srcPort, k.ports.src.port, k.ports.src.mask) && Masked(pkt.dstPort, k.ports.dst.port, k.ports.dst.mask)
  }

  /** The packet has the PDR's fields under their masks. */
  predicate InMasks(p: Pdr, pkt: Packet) {
    var f := p.filter;
    && Masked(pkt.iface, p.srcIface, p.srcIfaceMask) && Masked(pkt.tunnelDst, p.tunnelDst, p.tunnelDstMask)
    && Masked(pkt.teid, p.tunnelTEID, p.tunnelTEIDMask) && Masked(pkt.srcIP, f.srcIP, f.srcIPMask)
    && Masked(pkt.dstIP, f.dstIP, f.dstIPMask) && Masked(pkt.proto, f.proto, f.protoMask)
  }

  /** The packet's ports are any, or within the PDR's ranges. */
  predicate InRanges(p: Pdr, pkt: Packet) {
    var src, dst := p.filter.srcPorts, p.filter.dstPorts;
    && (AnyPort(src.low, src.high) || src.low <= pkt.srcPort <= src.high)
    && (AnyPort(dst.low, dst.high) || dst.low <= pkt.dstPort <= dst.high)
  }

  predicate Describes(p: Pdr, pkt: Packet) {
    InMasks(p, pkt) && InRanges(p, pkt)
  }

  lemma {:induction false} CountedRule(rules: seq<PortRule>, s: Port, d: Port)
    ensures PairCount(rules, s, d) > 0 <==> exists i :: 0 <= i < |rules| && RuleMatches(rules[i], s, d)
  {
    if rules != [] {
      var n := |rules| - 1;
      CountedRule(rules[..n], s, d);
      if i :| 0 <= i < |rules| && RuleMatches(rules[i], s, d) {
        assert i < n ==> RuleMatches(rules[..n][i], s, d);
      }
    }
  }

  lemma {:induction false} CountedOnce(rules: seq<PortRule>, s: Port, d: Port, i: nat, j: nat)
    requires PairCount(rules, s, d) <= 1 && i < j < |rules|
    ensures !(RuleMatches(rules[i], s, d) && RuleMatches(rules[j], s, d))
  {
    var n := |rules| - 1;
    if j < n {
      CountedOnce(rules[..n], s, d, i, j);
    } else {
      CountedRule(rules[..n], s, d);
      assert rules[..n][i] == rules[i];
    }
  }

  lemma KeyMatchesIff(p: Pdr, r: PortRule, pkt: Packet)
    ensures KeyMatches(PdrKeyOf(p, r), pkt) <==> InMasks(p, pkt) && RuleMatches(r, pkt.srcPort, pkt.dstPort)
  {
  }

  /** The port rules of a PDR match a packet's ports if and only if they are in its ranges, and then one does. */
  lemma RangesMatch(p: Pdr, pkt: Packet)
    requires PortRules(p.filter.srcPorts, p.filter.dstPorts).Ok?
    ensures var rules, s, d := PdrPortRules(p), pkt.srcPort, pkt.dstPort;
            && (InRanges(p, pkt) <==> exists r :: r in rules && RuleMatches(r, s, d))
            && forall r, q :: r in rules && q in rules && RuleMatches(r, s, d) && RuleMatches(q, s, d) ==> r == q
  {
    var rules := PdrPortRules(p);
    PortRulesInNumbers(p.filter.srcPorts, p.filter.dstPorts);
    CountedRule(rules, pkt.srcPort, pkt.dstPort);
    if InRanges(p, pkt) {
      var i :| 0 <= i < |rules| && RuleMatches(rules[i], pkt.srcPort, pkt.dstPort);
      assert rules[i] in rules;
    }
    forall r, q | r in rules && q in rules && RuleMatches(r, pkt.srcPort, pkt.dstPort) && RuleMatches(q, pkt.srcPort, pkt.dstPort)
      ensures r == q
    {
      var i :| 0 <= i < |rules| && rules[i] == r;
      var j :| 0 <= j < |rules| && rules[j] == q;
      if i != j {
        CountedOnce(rules, pkt.srcPort, pkt.dstPort, if i < j then i else j, if i < j then j else i);
      }
    }
  }

  /** The entries of a PDR whose ports translate match a packet if and only if the PDR describes it, and then one does. */
  lemma EntriesMatchDescribed(p: Pdr, pkt: Packet)
    requires PortRules(p.filter.srcPorts, p.filter.dstPorts).Ok?
    ensures Describes(p, pkt) <==> exists k :: k in PdrKeys(p) && KeyMatches(k, pkt)
    ensures forall k, l :: k in PdrKeys(p) && l in PdrKeys(p) && KeyMatches(k, pkt) && KeyMatches(l, pkt) ==> k == l
  {
    var rules := PdrPortRules(p);
    RangesMatch(p, pkt);
    if Describes(p, pkt) {
      var r :| r in rules && RuleMatches(r, pkt.srcPort, pkt.dstPort);
      KeyMatchesIff(p, r, pkt);
      assert PdrKeyOf(p, r) in PdrKeys(p);
    }
    forall k | k in PdrKeys(p) && KeyMatches(k, pkt)
      ensures InMasks(p, pkt) && k.ports in rules && RuleMatches(k.ports, pkt.srcPort, pkt.dstPort) && k == PdrKeyOf(p, k.ports)
    {
      var r :| r in rules && k == PdrKeyOf(p, r);
      KeyMatchesIff(p, r, pkt);
    }
  }

  /** A PDR whose ports do not translate matches nothing. */
  lemma UntranslatedMatchesNothing(p: Pdr, pkt: Packet)
    requires PortRules(p.filter.srcPorts, p.filter.dstPorts).Err?
    ensures forall k :: k in PdrKeys(p) ==> !KeyMatches(k, pkt)
  {
  }

  /** What the other rules are programmed as, and what each PDR entry leads to. */
  lemma ProgrammedValues(p: Pdr, f: Far, q: Qer)
    ensures forall k :: k in PdrKeys(p) ==>
              && k in Entries(PdrRule(p))
              && Entries(PdrRule(p))[k] ==
                 PdrValue(p.needDecap, p.precedence, p.pdrID, p.fseID, p.ctrID, if |p.qerIDs| > 0 then p.qerIDs[0] else 0, p.farID)
    ensures Entries(FarRule(f)) == map[FarKey(f.farID, f.fseID) := FarValue(f)]
    ensures q.level == ApplicationQos ==>
              Entries(QerRule(q)) == map[AppQerKey(Access, q.qerID, q.fseID) := AppQerValue(q.uplink, q.qfi),
                                         AppQerKey(Core, q.qerID, q.fseID) := AppQerValue(q.downlink, q.qfi)]
    ensures q.level == SessionQos ==>
              Entries(QerRule(q)) == map[SessQerKey(Access, q.fseID) := SessQerValue(q.uplink, q.qfi),
                                         SessQerKey(Core, q.fseID) := SessQerValue(q.downlink, q.qfi)]
  {
  }
}
