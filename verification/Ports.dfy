/**
 Port ranges and their compilation to the value/mask rules of the datapath's match table.
 Ports are 16-bit, and every 16-bit operation of the source is written with its wrap-around.
 */
module Ports {
  import opened Wrappers
  import opened Bits

  const MAX_PORT: nat := 65535
  const EXACT_LIMIT: nat := 100

  type Port = p: nat | p <= 65535

  datatype Strategy = Exact | Ternary

  datatype PortRange = PortRange(low: Port, high: Port)

  datatype TernaryRule = TernaryRule(port: Port, mask: Port)

  datatype PortRule = PortRule(src: TernaryRule, dst: TernaryRule)

  function Wrap16(x: int): (r: Port)
    ensures 0 <= x <= MAX_PORT ==> r == x
  {
    x % 65536
  }

  // ----- The range predicates -----

  predicate IsWildcard(r: PortRange) {
    (r.low == 0 && r.high == MAX_PORT) || (r.low == 0 && r.high == 0)
  }

  predicate IsExact(r: PortRange) {
    r.low == r.high && r.high != 0
  }

  predicate IsRange(r: PortRange) {
    !IsExact(r) && !IsWildcard(r)
  }

  predicate SameMatch(a: PortRange, b: PortRange) {
    a == b || (IsWildcard(a) && IsWildcard(b))
  }

  function Width(r: PortRange): (w: Port) {
    if IsWildcard(r) then MAX_PORT else Wrap16(r.high - r.low + 1)
  }

  /** The ports a range is meant to accept: all of them, under either wildcard spelling. */
  predicate Accepts(r: PortRange, p: Port) {
    IsWildcard(r) || r.low <= p <= r.high
  }

  // ----- What a rule matches -----

  /** The datapath compares the masked packet field with the masked rule value. */
  predicate Matches(r: TernaryRule, p: Port) {
    And(p, r.mask) == And(r.port, r.mask)
  }

  /** How many rules of a list match a port. */
  function MatchCount(rules: seq<TernaryRule>, p: Port): (n: nat)
    ensures n <= |rules|
  {
    if rules == [] then 0
    else
      MatchCount(rules[..|rules| - 1], p) + if Matches(rules[|rules| - 1], p) then 1 else 0
  }

  /** Each port from low up to but excluding high is matched once, and no other port at all. */
  ghost predicate Covers(rules: seq<TernaryRule>, low: int, high: int) {
    forall p: Port :: MatchCount(rules, p) == if low <= p < high then 1 else 0
  }

  /** An aligned prefix block: its size is a power of two and its first port a multiple of it. */
  ghost predicate PrefixBlock(r: TernaryRule, bits: nat) {
    bits <= 15 && r.mask == 65536 - Pow2(bits) && r.port % Pow2(bits) == 0
  }

  ghost predicate IsPrefixBlock(r: TernaryRule) {
    exists bits :: PrefixBlock(r, bits)
  }

  lemma BlockMatches(r: TernaryRule, bits: nat, p: Port)
    requires PrefixBlock(r, bits)
    ensures Matches(r, p) <==> r.port <= p < r.port + Pow2(bits)
  {
    Pow2Values();
    AndPrefixMask(p, bits, 16);
    AndPrefixMask(r.port, bits, 16);
    AlignedBlock(r.port, Pow2(bits), p);
  }

  lemma CoversExtend(rules: seq<TernaryRule>, low: nat, r: TernaryRule, bits: nat)
    requires PrefixBlock(r, bits) && low <= r.port && Covers(rules, low, r.port)
    ensures Covers(rules + [r], low, r.port + Pow2(bits)) && IsPrefixBlock(r)
  {
    forall p: Port
      ensures MatchCount(rules + [r], p) == if low <= p < r.port + Pow2(bits) then 1 else 0
    {
      assert (rules + [r])[..|rules|] == rules;
      BlockMatches(r, bits, p);
      assert MatchCount(rules, p) == if low <= p < r.port then 1 else 0;
    }
  }

  // ----- Ternary strategy -----

  /** The last port of the block that a rule's port and mask describe. */
  function MaxPort(port: Port, mask: Port): (r: Port)
    ensures r == And(port, mask) + (MAX_PORT - mask)
  {
    Wrap16(And(port, mask) + Wrap16(MAX_PORT - mask))
  }

  /** A block that starts below 2^16 at a multiple of its size ends below 2^16. */
  lemma MaxPortOfBlock(port: Port, bits: nat)
    requires bits <= 16 && port % Pow2(bits) == 0
    ensures 0 < Pow2(bits) <= 65536 && port + Pow2(bits) <= 65536
    ensures And(port, 65536 - Pow2(bits)) == port
    ensures MaxPort(port, 65536 - Pow2(bits)) == port + Pow2(bits) - 1
  {
    Pow2Values();
    Pow2Monotone(bits, 16);
    AndPrefixMask(port, bits, 16);
    MultipleOfSmaller(65536, bits, 16);
    MultipleBelow(port, 65536, Pow2(bits));
  }

  lemma NotMultipleOfAll(port: nat, bits: nat)
    requires 0 < port <= MAX_PORT && port % Pow2(bits) == 0
    ensures bits <= 15
  {
    Pow2Values();
    if bits > 15 {
      MultipleOfSmaller(port, 16, bits);
    }
  }

  /** Masking lowers a port exactly when the port is not a multiple of the block size. */
  lemma AlignmentTest(port: Port, bits: nat)
    requires bits <= 16 && port > 0
    ensures 0 < Pow2(bits) <= 65536
    ensures And(port, 65536 - Pow2(bits)) < port <==> port % Pow2(bits) != 0
    ensures port % Pow2(bits) == 0 ==> bits <= 15
  {
    Pow2Values();
    AndPrefixMask(port, bits, 16);
    if port % Pow2(bits) == 0 {
      NotMultipleOfAll(port, bits);
    }
  }

  /** A block of 2^bits ports that starts at port and stays within end; the next size does not. */
  ghost predicate WidestBlock(port: Port, end: Port, mask: Port, bits: nat) {
    && PrefixBlock(TernaryRule(port, mask), bits)
    && port + Pow2(bits) - 1 <= end
    && (port > 0 ==> port % Pow2(bits + 1) != 0 || port + Pow2(bits + 1) - 1 > end)
    && (port == 0 ==> bits == 0)
  }

  /**
   The widest prefix block that starts at port, is aligned there and does not pass end; a port of
   zero gets a block of its own.
   */
  method PortMask(port: Port, end: Port) returns (mask: Port)
    requires port <= end
    ensures exists bits :: WidestBlock(port, end, mask, bits)
  {
    Pow2Values();
    var bit, testMask, netPort: Port := 1, MAX_PORT, port;
    MaxPortOfBlock(port, 0);
    mask := MAX_PORT;
    var maximumPort := MaxPort(netPort, MAX_PORT);
    ghost var bits, t := 0, 0;
    while netPort > 0 && maximumPort < end
      invariant netPort == port
      invariant 0 <= t <= 16 && testMask == 65536 - Pow2(t) && bit == Pow2(t) % 65536
      invariant PrefixBlock(TernaryRule(port, mask), bits)
      invariant port + Pow2(bits) - 1 <= end
      invariant t == 0 ==> bits == 0 && maximumPort == port
      invariant t > 0 ==> maximumPort == port + Pow2(t - 1) - 1
      invariant t > 0 && maximumPort <= end ==> bits == t - 1
      invariant t > 0 && maximumPort > end ==> t == bits + 2
      invariant port == 0 ==> t == 0
      decreases 16 - t
    {
      var last;
      netPort, last := TryMask(port, testMask, t);
      if netPort < port {
        break;
      }
      maximumPort := last;
      if maximumPort <= end {
        mask := testMask;
        bits := t;
      }
      testMask, bit := NextMask(testMask, bit, t);
      t := t + 1;
    }
    assert WidestBlock(port, end, mask, bits);
  }

  /** The masked port, and the last port of its block under the mask. */
  method TryMask(port: Port, testMask: Port, ghost t: nat) returns (netPort: Port, last: Port)
    requires port > 0 && t <= 16 && testMask == 65536 - Pow2(t)
    ensures netPort < port <==> port % Pow2(t) != 0
    ensures netPort >= port ==> t <= 15 && netPort == port && last == port + Pow2(t) - 1
  {
    AlignmentTest(port, t);
    netPort := And(port, testMask);
    last := MaxPort(netPort, testMask);
    if netPort >= port {
      MaxPortOfBlock(port, t);
    }
  }

  /** Clearing the lowest set bit of the test mask, and doubling the bit. */
  method NextMask(testMask: Port, bit: Port, ghost t: nat) returns (testMask': Port, bit': Port)
    requires t <= 15 && testMask == 65536 - Pow2(t) && bit == Pow2(t) % 65536
    ensures Pow2(t + 1) <= 65536 && testMask' == 65536 - Pow2(t + 1) && bit' == Pow2(t + 1) % 65536
  {
    Pow2Values();
    Pow2Monotone(t + 1, 16);
    Pow2Monotone(t, 15);
    testMask' := Wrap16(testMask - bit);
    bit' := Wrap16(bit * 2);
  }

  /** What one more block adds: the ports up to its end, and one to the count. */
  lemma NextBlock(rules: seq<TernaryRule>, r: PortRange, rule: TernaryRule, phase: Phase) returns (phase': Phase)
    requires r.low <= rule.port <= r.high && Covers(rules, r.low, rule.port)
    requires InPhase(phase, rule.port, r.high, |rules|)
    requires exists bits :: WidestBlock(rule.port, r.high, rule.mask, bits)
    ensures IsPrefixBlock(rule)
    ensures var next := MaxPort(rule.port, rule.mask) + 1;
            && rule.port < next <= r.high + 1
            && Covers(rules + [rule], r.low, next)
            && InPhase(phase', next, r.high, |rules| + 1)
  {
    var bits :| WidestBlock(rule.port, r.high, rule.mask, bits);
    MaxPortOfBlock(rule.port, bits);
    CoversExtend(rules, r.low, rule, bits);
    phase' := NextPhase(phase, rule.port, r.high, bits, rule.port + Pow2(bits), |rules|);
  }

  /**
   The prefix blocks of a range, in ascending order: at most 32 of them, together matching
   every port of the range exactly once and no other port.
   */
  method BuildTernaryRules(r: PortRange) returns (rules: seq<TernaryRule>)
    ensures |rules| <= 32
    ensures forall i :: 0 <= i < |rules| ==> IsPrefixBlock(rules[i])
    ensures r.low <= r.high ==> Covers(rules, r.low, r.high + 1)
    ensures r.low > r.high ==> rules == []
  {
    rules := [];
    var port: nat := r.low;
    ghost var phase := Growing(0);
    assert port % Pow2(0) == 0;
    while port <= r.high
      invariant r.low <= port
      invariant r.low <= r.high ==> port <= r.high + 1
      invariant r.low > r.high ==> rules == []
      invariant Covers(rules, r.low, port)
      invariant forall i :: 0 <= i < |rules| ==> IsPrefixBlock(rules[i])
      invariant InPhase(phase, port, r.high, |rules|)
      decreases r.high + 1 - port
    {
      var mask := PortMask(port, r.high);
      var rule := TernaryRule(port, mask);
      phase := NextBlock(rules, r, rule, phase);
      var next := MaxPort(port, mask) + 1;
      rules := rules + [rule];
      port := next;
    }
  }

  /**
   How many blocks can still follow. While blocks grow, zeros bounds the alignment of the next
   port from below, and each block used up one bit of it. Once a block has been cut short by the
   end of the range, left bounds what remains of the range from above.
   */
  datatype Phase = Growing(zeros: nat) | Shrinking(left: nat)

  ghost predicate InPhase(phase: Phase, port: nat, high: Port, count: nat) {
    && (port == 0 ==> phase == Growing(0) && count == 0)
    && match phase
       case Growing(zeros) =>
         port % Pow2(zeros) == 0 && count <= zeros + 1 && count <= 32 && (0 < port <= high ==> zeros <= 15)
       case Shrinking(left) =>
         port % Pow2(left) == 0 && high + 1 - port < Pow2(left) && count + left <= 32
  }

  lemma NextPhase(phase: Phase, port: nat, high: Port, bits: nat, next: nat, count: nat) returns (phase': Phase)
    requires port <= high && InPhase(phase, port, high, count)
    requires bits <= 15 && port % Pow2(bits) == 0 && port + Pow2(bits) <= high + 1
    requires port > 0 ==> port % Pow2(bits + 1) != 0 || port + Pow2(bits + 1) - 1 > high
    requires port == 0 ==> bits == 0
    requires next == port + Pow2(bits)
    ensures InPhase(phase', next, high, count + 1)
  {
    if port == 0 {
      phase' := Growing(0);
    } else if phase.Shrinking? {
      ShrinkingStep(port, high, bits, phase.left);
      phase' := Shrinking(bits);
    } else {
      phase' := GrowingStep(port, high, bits, phase.zeros, count);
    }
  }

  lemma GrowingStep(port: nat, high: Port, bits: nat, zeros: nat, count: nat) returns (phase': Phase)
    requires 0 < port <= high && bits <= 15 && zeros <= 15 && count <= zeros + 1
    requires port % Pow2(zeros) == 0 && port % Pow2(bits) == 0 && port + Pow2(bits) <= high + 1
    requires port % Pow2(bits + 1) != 0 || port + Pow2(bits + 1) - 1 > high
    ensures InPhase(phase', port + Pow2(bits), high, count + 1)
  {
    if port % Pow2(bits + 1) == 0 {
      phase' := Shrinking(bits);
      MultipleStep(port, Pow2(bits));
    } else {
      phase' := Growing(bits + 1);
      if bits < zeros {
        MultipleOfSmaller(port, bits + 1, zeros);
      }
      OddMultipleStep(port, Pow2(bits));
      if port + Pow2(bits) <= high {
        NotMultipleOfAll(port + Pow2(bits), bits + 1);
      }
    }
  }

  /** Once the end of the range has cut a block short, every later block is smaller. */
  lemma ShrinkingStep(port: nat, high: Port, bits: nat, left: nat)
    requires 0 < port <= high
    requires port % Pow2(left) == 0 && high + 1 - port < Pow2(left)
    requires port % Pow2(bits) == 0 && port + Pow2(bits) <= high + 1
    requires port % Pow2(bits + 1) != 0 || port + Pow2(bits + 1) - 1 > high
    ensures bits < left
    ensures (port + Pow2(bits)) % Pow2(bits) == 0 && high + 1 - (port + Pow2(bits)) < Pow2(bits)
  {
    if left <= bits {
      Pow2Monotone(left, bits);
    }
    MultipleOfSmaller(port, bits + 1, left);
    MultipleStep(port, Pow2(bits));
  }

  // ----- Exact strategy -----

  /** One exact rule per port from low to high. */
  function ExactRules(low: Port, high: int): (rules: seq<TernaryRule>)
    requires high <= MAX_PORT
    ensures high < low ==> rules == []
    ensures low <= high ==> |rules| == high - low + 1
    ensures forall i :: 0 <= i < |rules| ==> rules[i] == TernaryRule(low + i, MAX_PORT)
    decreases high + 1
  {
    if high < low then [] else ExactRules(low, high - 1) + [TernaryRule(high, MAX_PORT)]
  }

  /** What the source's exact strategy makes of a range. */
  function ExactMatches(r: PortRange): (result: Result<seq<TernaryRule>>) {
    if IsExact(r) then Ok([TernaryRule(r.low, MAX_PORT)])
    else if IsWildcard(r) then Ok([TernaryRule(0, 0)])
    else if Width(r) > EXACT_LIMIT then Err
    else Ok(ExactRules(r.low, r.high))
  }

  lemma ExactRuleMatches(port: Port, p: Port)
    ensures Matches(TernaryRule(port, MAX_PORT), p) <==> p == port
  {
    Pow2Values();
    AndAllOnes(p, 16);
    AndAllOnes(port, 16);
  }

  lemma CountOneMore(rules: seq<TernaryRule>, r: TernaryRule, p: Port)
    ensures MatchCount(rules + [r], p) == MatchCount(rules, p) + if Matches(r, p) then 1 else 0
  {
    assert (rules + [r])[..|rules|] == rules;
  }

  lemma ExactRulesStep(low: Port, high: Port, p: Port)
    requires low <= high
    requires MatchCount(ExactRules(low, high - 1), p) == if low <= p <= high - 1 then 1 else 0
    ensures MatchCount(ExactRules(low, high), p) == if low <= p <= high then 1 else 0
  {
    CountOneMore(ExactRules(low, high - 1), TernaryRule(high, MAX_PORT), p);
    ExactRuleMatches(high, p);
  }

  lemma {:induction false} ExactRulesCount(low: Port, high: int, p: Port)
    requires high <= MAX_PORT
    ensures MatchCount(ExactRules(low, high), p) == if low <= p <= high then 1 else 0
    decreases high + 1
  {
    if high >= low {
      ExactRulesCount(low, high - 1, p);
      ExactRulesStep(low, high, p);
    }
  }

  /** A compiled range matches each accepted port once and every other port not at all. */
  lemma ExactMatchesAccepted(r: PortRange, p: Port)
    requires ExactMatches(r).Ok?
    ensures MatchCount(ExactMatches(r).value, p) == if Accepts(r, p) then 1 else 0
  {
    if IsExact(r) {
      SingleRuleCount(TernaryRule(r.low, MAX_PORT), p);
      ExactRuleMatches(r.low, p);
    } else if IsWildcard(r) {
      SingleRuleCount(TernaryRule(0, 0), p);
    } else {
      ExactRulesCount(r.low, r.high, p);
    }
  }

  lemma SingleRuleCount(rule: TernaryRule, p: Port)
    ensures MatchCount([rule], p) == if Matches(rule, p) then 1 else 0
  {
    assert [rule][..0] == [];
  }

  /** Compiles a range by either strategy. */
  method AsComplexTernaryMatches(r: PortRange, strategy: Strategy) returns (result: Result<seq<TernaryRule>>)
    ensures strategy.Exact? ==> result == ExactMatches(r)
    ensures strategy.Ternary? ==> result.Ok?
    ensures result.Ok? && r.low <= r.high ==>
              forall p: Port :: MatchCount(result.value, p) == if Accepts(r, p) then 1 else 0
  {
    forall p: Port | ExactMatches(r).Ok?
      ensures MatchCount(ExactMatches(r).value, p) == if Accepts(r, p) then 1 else 0
    {
      ExactMatchesAccepted(r, p);
    }
    if IsExact(r) {
      return Ok([TernaryRule(r.low, MAX_PORT)]);
    }
    if IsWildcard(r) {
      return Ok([TernaryRule(0, 0)]);
    }
    match strategy
    case Exact =>
      if Width(r) > EXACT_LIMIT {
        return Err;
      }
      var rules := [];
      var port: int := r.low;
      while port <= r.high
        invariant r.low <= port && (r.low <= r.high ==> port <= r.high + 1)
        invariant r.low <= r.high ==> rules == ExactRules(r.low, port - 1)
        invariant r.low > r.high ==> rules == []
      {
        rules := rules + [TernaryRule(port, MAX_PORT)];
        port := port + 1;
      }
      return Ok(rules);
    case Ternary =>
      var rules := BuildTernaryRules(r);
      return Ok(rules);
  }

  /** Both kinds of range that need no more than one rule. */
  function AsTrivialTernaryMatch(r: PortRange): (result: Result<TernaryRule>)
    ensures result.Ok? <==> !IsRange(r)
    ensures result.Ok? ==> ExactMatches(r) == Ok([result.value])
  {
    if IsWildcard(r) then Ok(TernaryRule(0, 0))
    else if IsExact(r) then Ok(TernaryRule(r.low, MAX_PORT))
    else Err
  }

  // ----- The Cartesian product -----

  predicate RuleMatches(r: PortRule, src: Port, dst: Port) {
    Matches(r.src, src) && Matches(r.dst, dst)
  }

  function PairCount(rules: seq<PortRule>, src: Port, dst: Port): (n: nat)
    ensures n <= |rules|
  {
    if rules == [] then 0
    else
      PairCount(rules[..|rules| - 1], src, dst) + if RuleMatches(rules[|rules| - 1], src, dst) then 1 else 0
  }

  /** Every rule of one side paired with the single rule of the other. */
  function Pairs(rangeRules: seq<TernaryRule>, fixed: TernaryRule, isSrcRange: bool): (rules: seq<PortRule>)
    ensures |rules| == |rangeRules|
    ensures forall i :: 0 <= i < |rules| ==>
                          rules[i] == if isSrcRange then PortRule(rangeRules[i], fixed) else PortRule(fixed, rangeRules[i])
  {
    seq(|rangeRules|,
        i requires 0 <= i < |rangeRules| =>
          if isSrcRange then PortRule(rangeRules[i], fixed) else PortRule(fixed, rangeRules[i]))
  }

  lemma {:induction false} PairsCount(rangeRules: seq<TernaryRule>, fixed: TernaryRule, isSrcRange: bool, src: Port, dst: Port)
    ensures PairCount(Pairs(rangeRules, fixed, isSrcRange), src, dst)
         == if Matches(fixed, if isSrcRange then dst else src)
            then MatchCount(rangeRules, if isSrcRange then src else dst)
            else 0
  {
    if rangeRules != [] {
      var n := |rangeRules| - 1;
      PairsCount(rangeRules[..n], fixed, isSrcRange, src, dst);
      assert Pairs(rangeRules, fixed, isSrcRange)[..n] == Pairs(rangeRules[..n], fixed, isSrcRange);
    }
  }

  method BuildRulesFromRange(rangeRules: seq<TernaryRule>, fixed: TernaryRule, isSrcRange: bool)
    returns (rules: seq<PortRule>)
    ensures rules == Pairs(rangeRules, fixed, isSrcRange)
  {
    rules := [];
    for i := 0 to |rangeRules|
      invariant |rules| == i && rules == Pairs(rangeRules, fixed, isSrcRange)[..i]
    {
      if isSrcRange {
        rules := rules + [PortRule(rangeRules[i], fixed)];
      } else {
        rules := rules + [PortRule(fixed, rangeRules[i])];
      }
    }
  }

  /** The port rules a source and a destination range are programmed as, or a refusal. */
  function PortRules(src: PortRange, dst: PortRange): (result: Result<seq<PortRule>>) {
    if IsRange(src) && IsRange(dst) then Err
    else if IsRange(src) then
      var rules := ExactMatches(src);
      if rules.Err? then Err else Ok(Pairs(rules.value, AsTrivialTernaryMatch(dst).value, true))
    else if IsRange(dst) then
      var rules := ExactMatches(dst);
      if rules.Err? then Err else Ok(Pairs(rules.value, AsTrivialTernaryMatch(src).value, false))
    else Ok([PortRule(AsTrivialTernaryMatch(src).value, AsTrivialTernaryMatch(dst).value)])
  }

  /**
   Compilation is exact: a pair of ports accepted by both ranges matches one emitted rule, and
   any other pair matches none. It is refused for two true ranges and for one that is too wide.
   */
  lemma PortRulesExact(src: PortRange, dst: PortRange)
    ensures PortRules(src, dst).Err? <==>
            || (IsRange(src) && IsRange(dst))
            || (IsRange(src) && Width(src) > EXACT_LIMIT)
            || (IsRange(dst) && Width(dst) > EXACT_LIMIT)
    ensures PortRules(src, dst).Ok? ==>
              forall s: Port, d: Port ::
                PairCount(PortRules(src, dst).value, s, d) == if Accepts(src, s) && Accepts(dst, d) then 1 else 0
  {
    if PortRules(src, dst).Ok? {
      forall s: Port, d: Port
        ensures PairCount(PortRules(src, dst).value, s, d) == if Accepts(src, s) && Accepts(dst, d) then 1 else 0
      {
        PortRulesPair(src, dst, s, d);
      }
    }
  }

  lemma TrivialMatch(r: PortRange, p: Port)
    requires !IsRange(r)
    ensures Matches(AsTrivialTernaryMatch(r).value, p) <==> Accepts(r, p)
  {
    ExactMatchesAccepted(r, p);
    SingleRuleCount(AsTrivialTernaryMatch(r).value, p);
  }

  lemma PortRulesPair(src: PortRange, dst: PortRange, s: Port, d: Port)
    requires PortRules(src, dst).Ok?
    ensures PairCount(PortRules(src, dst).value, s, d) == if Accepts(src, s) && Accepts(dst, d) then 1 else 0
  {
    if IsRange(src) {
      ExactMatchesAccepted(src, s);
      TrivialMatch(dst, d);
      PairsCount(ExactMatches(src).value, AsTrivialTernaryMatch(dst).value, true, s, d);
    } else if IsRange(dst) {
      ExactMatchesAccepted(dst, d);
      TrivialMatch(src, s);
      PairsCount(ExactMatches(dst).value, AsTrivialTernaryMatch(src).value, false, s, d);
    } else {
      TrivialMatch(src, s);
      TrivialMatch(dst, d);
      var rules := PortRules(src, dst).value;
      assert rules[..0] == [];
    }
  }

  // ----- The compilation in numbers -----

  /** Any port: the zero value, or all sixteen bits. */
  predicate AnyPort(low: Port, high: Port) {
    low == 0 && (high == 0 || high == 65535)
  }

  /** A range of more than one port that is not all of them. */
  predicate SeveralPorts(low: Port, high: Port) {
    low != high && !(low == 0 && high == 65535)
  }

  /**
   Refused exactly for two ranges of several ports, or for one of more than 100 in the 16-bit count.
   Otherwise a pair of ports matches one rule if each is any port or within its range, and none if not.
   */
  lemma PortRulesInNumbers(src: PortRange, dst: PortRange)
    ensures PortRules(src, dst).Err? <==>
            || (SeveralPorts(src.low, src.high) && SeveralPorts(dst.low, dst.high))
            || (SeveralPorts(src.low, src.high) && (src.high - src.low + 1) % 65536 > 100)
            || (SeveralPorts(dst.low, dst.high) && (dst.high - dst.low + 1) % 65536 > 100)
    ensures PortRules(src, dst).Ok? ==>
              forall s: Port, d: Port ::
                PairCount(PortRules(src, dst).value, s, d) ==
                if (AnyPort(src.low, src.high) || src.low <= s <= src.high) && (AnyPort(dst.low, dst.high) || dst.low <= d <= dst.high)
                then 1 else 0
  {
    PortRulesExact(src, dst);
  }

  /** Both spellings of any port compile alike, on either side; two of them give the rule that matches all. */
  lemma AnyPortCompiles(r: PortRange, other: PortRange)
    requires AnyPort(r.low, r.high)
    ensures PortRules(r, other) == PortRules(PortRange(0, 0), other) == PortRules(PortRange(0, 65535), other)
    ensures PortRules(other, r) == PortRules(other, PortRange(0, 0)) == PortRules(other, PortRange(0, 65535))
    ensures AnyPort(other.low, other.high) ==>
              && PortRules(r, other) == Ok([PortRule(TernaryRule(0, 0), TernaryRule(0, 0))])
              && forall s: Port, d: Port :: RuleMatches(PortRule(TernaryRule(0, 0), TernaryRule(0, 0)), s, d)
  {
  }

  /** One rule per port of a range that stands beside any port or a single one. */
  lemma RangeCompiles(low: Port, high: Port, other: PortRange)
    requires 0 < low < high && high - low < 100 && !SeveralPorts(other.low, other.high)
    ensures var range, fixed := PortRange(low, high),
                                if AnyPort(other.low, other.high) then TernaryRule(0, 0) else TernaryRule(other.low, 65535);
            && PortRules(range, other).Ok? && |PortRules(range, other).value| == high - low + 1
            && PortRules(other, range).Ok? && |PortRules(other, range).value| == high - low + 1
            && forall i :: 0 <= i <= high - low ==>
                 && PortRules(range, other).value[i] == PortRule(TernaryRule(low + i, 65535), fixed)
                 && PortRules(other, range).value[i] == PortRule(fixed, TernaryRule(low + i, 65535))
  {
    var range := PortRange(low, high);
    assert Width(range) == high - low + 1;
    assert ExactMatches(range) == Ok(ExactRules(low, high));
  }

  method CreatePortRangeCartesianProduct(src: PortRange, dst: PortRange) returns (result: Result<seq<PortRule>>)
    ensures result == PortRules(src, dst)
  {
    if IsRange(src) && IsRange(dst) {
      return Err;
    }
    if IsRange(src) {
      var srcRules := AsComplexTernaryMatches(src, Exact);
      if srcRules.Err? {
        return Err;
      }
      var rules := BuildRulesFromRange(srcRules.value, AsTrivialTernaryMatch(dst).value, true);
      return Ok(rules);
    } else if IsRange(dst) {
      var dstRules := AsComplexTernaryMatches(dst, Exact);
      if dstRules.Err? {
        return Err;
      }
      var rules := BuildRulesFromRange(dstRules.value, AsTrivialTernaryMatch(src).value, false);
      return Ok(rules);
    } else {
      return Ok([PortRule(AsTrivialTernaryMatch(src).value, AsTrivialTernaryMatch(dst).value)]);
    }
  }
}
