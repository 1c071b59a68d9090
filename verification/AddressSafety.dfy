/**
 Address safety over whole runs: no free address belongs to a session that still has a rule in
 the datapath or on its way there. It holds of establishments, modifications, deletions and
 teardowns, with any mix of accepted, refused and timed-out batches, on any number of associations,
 as long as every removal that counts as finished was answered, no session is deleted on a report
 response, and no modification stops naming an entry whose removal was not seen through. Each of
 these three is needed: a reachable run without it ends with a live rule's address free.
 */
module AddressSafety {
  import opened IpPool
  import opened Association
  import opened TeardownOrder

  // ----- Live entries -----

  ghost predicate HasAdd(q: seq<Cmd>) {
    exists i :: 0 <= i < |q| && q[i].add
  }

  /** A rule is held under the key, or an add for it may still take effect. */
  ghost predicate Live(sh: Shared, k: Key) {
    SlotAt(sh, k).held || HasAdd(SlotAt(sh, k).queue)
  }

  predicate EndsWithDel(sh: Shared, k: Key, batch: nat) {
    var q := SlotAt(sh, k).queue;
    q != [] && q[|q| - 1] == Cmd(false, batch)
  }

  /** Only entries the session names are live. */
  ghost predicate Within(sh: Shared, s: Session) {
    forall e: Entry :: Live(sh, Key(s.seid, e)) ==> e in s.rules
  }

  ghost predicate Quiet(sh: Shared, seid: Seid) {
    forall e: Entry :: !Live(sh, Key(seid, e))
  }

  /** Each live entry among the session's rules has the batch's delete as its last command. */
  ghost predicate Clearing(sh: Shared, s: Session, batch: nat) {
    forall e: Entry :: e in s.rules && Live(sh, Key(s.seid, e)) ==> EndsWithDel(sh, Key(s.seid, e), batch)
  }

  ghost predicate Awaits(sh: Shared, s: Session, batch: nat) {
    Clearing(sh, s, batch) && (s.seid, batch) !in sh.abandoned && batch < sh.nextBatch
  }

  /** Of the entries a drained batch was to remove none is live. */
  lemma DrainedRemoves(sh: Shared, s: Session, dels: set<Entry>, batch: nat)
    requires Within(sh, s) && Clearing(sh, Session(s.seid, dels), batch) && Drained(sh, s.seid, batch)
    ensures Within(sh, Session(s.seid, s.rules - dels))
  {
    forall e: Entry | Live(sh, Key(s.seid, e))
      ensures e in s.rules - dels
    {
      assert !EndsWithDel(sh, Key(s.seid, e), batch);
    }
  }

  lemma DrainedIsQuiet(sh: Shared, s: Session, batch: nat)
    requires Within(sh, s) && Clearing(sh, s, batch) && Drained(sh, s.seid, batch)
    ensures Quiet(sh, s.seid)
  {
    DrainedRemoves(sh, s, s.rules, batch);
    assert Within(sh, Session(s.seid, s.rules - s.rules));
  }

  predicate Owned(sh: Shared, c: ConnId, seid: Seid) {
    seid in sh.owner && sh.owner[seid] == c
  }

  /** The session holds the address it was given, if it was given one. */
  predicate Holds(sh: Shared, seid: Seid) {
    seid in sh.given ==> seid in sh.pool.inventory
  }

  // ----- The invariant -----

  ghost predicate SharedInv(sh: Shared, addresses: set<Addr>) {
    && Partitions(sh.pool, addresses)
    && (forall s :: s in sh.pool.inventory ==> s in sh.given && sh.given[s] == sh.pool.inventory[s])
    && (forall s :: s in sh.given ==> s in sh.owner)
    && (forall k :: Live(sh, k) ==> k.seid in sh.owner && Holds(sh, k.seid))
    && (forall s, b :: (s, b) in sh.abandoned ==> b < sh.nextBatch)
  }

  ghost predicate StoreAddr(c: ConnId, store: map<Seid, Session>, sh: Shared) {
    forall seid :: seid in store ==> Owned(sh, c, seid) && Holds(sh, seid) && Within(sh, store[seid])
  }

  /** The session and the entries its modification may have left live beside its own. */
  function Wider(h: Handler): (s: Session)
    requires h.Writing? || h.Dropping? || h.Undoing?
  {
    Session(h.session.seid, h.session.rules + h.adds)
  }

  ghost predicate HandlerAddr(c: ConnId, h: Handler, sh: Shared) {
    match h
    case Idle => true
    case Entered(_) => true
    case Parsing(seid) => Owned(sh, c, seid) && Quiet(sh, seid) && Holds(sh, seid)
    case Adding(s) => Owned(sh, c, s.seid) && Holds(sh, s.seid) && Within(sh, s)
    case RollingBack(s, b) => Owned(sh, c, s.seid) && Holds(sh, s.seid) && Within(sh, s) && Awaits(sh, s, b)
    case Deleting(s, b) => Awaits(sh, s, b)
    case Modifying(_) => true
    case Writing(s, _) => Owned(sh, c, s.seid) && Holds(sh, s.seid) && Within(sh, Wider(h))
    case Dropping(s, _, dels, _, b) =>
      Owned(sh, c, s.seid) && Holds(sh, s.seid) && Within(sh, Wider(h)) && Awaits(sh, Session(s.seid, dels), b)
    case Undoing(s, _, dels, b) =>
      && Owned(sh, c, s.seid) && Holds(sh, s.seid) && Within(sh, Wider(h)) && Awaits(sh, Session(s.seid, dels), b)
      && h.adds <= s.rules + dels
  }

  ghost predicate EntryAddr(e: Retry, sh: Shared) {
    match e.status
    case Unsent => true
    case Waiting(b) => Awaits(sh, e.session, b)
    case Finished => Quiet(sh, e.session.seid)
    case TimedOut => true
  }

  ghost predicate TeardownAddr(t: Teardown, sh: Shared) {
    match t
    case Awaiting(s, b, _, _) => Awaits(sh, s, b)
    case Retrying(entries) => forall i :: 0 <= i < |entries| ==> EntryAddr(entries[i], sh)
    case Finishing(entries) => forall i :: 0 <= i < |entries| ==> EntryAddr(entries[i], sh)
    case _ => true
  }

  /** The stored sessions but for one whose modification has reached the datapath. */
  function Settled(conn: Conn): (store: map<Seid, Session>)
    ensures forall seid :: seid in store ==> seid in conn.store && store[seid] == conn.store[seid]
  {
    var h := conn.handler;
    if h.Writing? || h.Dropping? || h.Undoing? then conn.store - {h.session.seid} else conn.store
  }

  ghost predicate ConnAddr(c: ConnId, conn: Conn, sh: Shared) {
    StoreAddr(c, Settled(conn), sh) && HandlerAddr(c, conn.handler, sh) && TeardownAddr(conn.teardown, sh)
  }

  // ----- What a change of the shared state keeps for a session it does not touch -----

  ghost predicate KeepsKey(sh: Shared, sh': Shared, k: Key) {
    Live(sh', k) ==>
      && Live(sh, k)
      && forall b: nat :: EndsWithDel(sh, k, b) && (k.seid, b) !in sh.abandoned ==> EndsWithDel(sh', k, b)
  }

  ghost predicate KeepsSeid(sh: Shared, sh': Shared, s: Seid) {
    && (forall e: Entry :: KeepsKey(sh, sh', Key(s, e)))
    && (forall b :: (s, b) in sh'.abandoned ==> (s, b) in sh.abandoned)
    && sh.nextBatch <= sh'.nextBatch
    && (Holds(sh, s) ==> Holds(sh', s))
  }

  ghost predicate OwnersKept(sh: Shared, sh': Shared) {
    forall s :: s in sh.owner ==> s in sh'.owner && sh'.owner[s] == sh.owner[s]
  }

  lemma KeptSession(sh: Shared, sh': Shared, s: Session)
    requires KeepsSeid(sh, sh', s.seid)
    ensures Within(sh, s) ==> Within(sh', s)
    ensures Quiet(sh, s.seid) ==> Quiet(sh', s.seid)
  {
    forall e: Entry
      ensures Live(sh', Key(s.seid, e)) ==> Live(sh, Key(s.seid, e))
    {
      assert KeepsKey(sh, sh', Key(s.seid, e));
    }
  }

  lemma KeptAwaits(sh: Shared, sh': Shared, s: Session, b: nat)
    requires KeepsSeid(sh, sh', s.seid) && Awaits(sh, s, b)
    ensures Awaits(sh', s, b)
  {
    forall e: Entry | e in s.rules && Live(sh', Key(s.seid, e))
      ensures EndsWithDel(sh', Key(s.seid, e), b)
    {
      assert KeepsKey(sh, sh', Key(s.seid, e));
    }
  }

  lemma KeptStore(c: ConnId, store: map<Seid, Session>, sh: Shared, sh': Shared)
    requires Keyed(store) && StoreAddr(c, store, sh) && OwnersKept(sh, sh')
    requires forall seid :: seid in store ==> KeepsSeid(sh, sh', seid)
    ensures StoreAddr(c, store, sh')
  {
    forall seid | seid in store
      ensures Within(sh', store[seid])
    {
      KeptSession(sh, sh', store[seid]);
    }
  }

  lemma KeptEntry(e: Retry, sh: Shared, sh': Shared)
    requires EntryAddr(e, sh) && KeepsSeid(sh, sh', e.session.seid)
    ensures EntryAddr(e, sh')
  {
    KeptSession(sh, sh', e.session);
    if e.status.Waiting? {
      KeptAwaits(sh, sh', e.session, e.status.batch);
    }
  }

  lemma KeptHandler(c: ConnId, h: Handler, sh: Shared, sh': Shared)
    requires HandlerAddr(c, h, sh) && OwnersKept(sh, sh')
    requires h.Parsing? ==> KeepsSeid(sh, sh', h.seid)
    requires Committed(h) && !h.Parsing? ==> KeepsSeid(sh, sh', h.session.seid)
    ensures HandlerAddr(c, h, sh')
  {
    match h
    case Idle =>
    case Entered(_) =>
    case Parsing(seid) => KeptSession(sh, sh', Session(seid, {}));
    case Adding(s) => KeptSession(sh, sh', s);
    case RollingBack(s, b) =>
      KeptSession(sh, sh', s);
      KeptAwaits(sh, sh', s, b);
    case Deleting(s, b) => KeptAwaits(sh, sh', s, b);
    case Modifying(_) =>
    case Writing(_, _) => KeptSession(sh, sh', Wider(h));
    case Dropping(s, _, dels, _, b) =>
      KeptSession(sh, sh', Wider(h));
      KeptAwaits(sh, sh', Session(s.seid, dels), b);
    case Undoing(s, _, dels, b) =>
      KeptSession(sh, sh', Wider(h));
      KeptAwaits(sh, sh', Session(s.seid, dels), b);
  }

  /** An association none of whose sessions is touched keeps its part of the invariant. */
  lemma KeptConn(c: ConnId, conn: Conn, sh: Shared, sh': Shared)
    requires ConnInv(conn) && ConnAddr(c, conn, sh) && OwnersKept(sh, sh')
    requires forall s :: Owned(sh, c, s) ==> KeepsSeid(sh, sh', s)
    ensures ConnAddr(c, conn, sh')
  {
    KeptStore(c, Settled(conn), sh, sh');
    assert Committed(conn.handler) && !conn.handler.Parsing? ==> Owned(sh, c, conn.handler.session.seid);
    KeptHandler(c, conn.handler, sh, sh');
    KeptTeardown(c, conn, sh, sh');
  }

  lemma KeptTeardown(c: ConnId, conn: Conn, sh: Shared, sh': Shared)
    requires ConnInv(conn) && ConnAddr(c, conn, sh)
    requires forall s :: Owned(sh, c, s) ==> KeepsSeid(sh, sh', s)
    ensures TeardownAddr(conn.teardown, sh')
  {
    var t := conn.teardown;
    if t.Awaiting? {
      ListedIsStored(Remaining(t), conn.store, 0);
      KeptAwaits(sh, sh', t.current, t.batch);
    } else if t.Retrying? || t.Finishing? {
      forall i | 0 <= i < |t.entries|
        ensures EntryAddr(t.entries[i], sh')
      {
        ListedIsStored(Remaining(t), conn.store, i);
        KeptEntry(t.entries[i], sh, sh');
      }
    }
  }

  // ----- Changes of the shared state -----

  lemma IssueSlots(sh: Shared, seid: Seid, entries: set<Entry>, add: bool, k: Key)
    ensures k.seid == seid && k.entry in entries ==>
              SlotAt(Issue(sh, seid, entries, add), k) == Slot(SlotAt(sh, k).held, SlotAt(sh, k).queue + [Cmd(add, sh.nextBatch)])
    ensures !(k.seid == seid && k.entry in entries) ==> SlotAt(Issue(sh, seid, entries, add), k) == SlotAt(sh, k)
  {
    if k.seid == seid && k.entry in entries {
      assert k == Key(seid, k.entry);
    }
  }

  lemma HasAddAppend(q: seq<Cmd>, c: Cmd)
    ensures HasAdd(q + [c]) <==> HasAdd(q) || c.add
  {
    if HasAdd(q) {
      var i :| 0 <= i < |q| && q[i].add;
      assert (q + [c])[i].add;
    }
    if c.add {
      assert (q + [c])[|q|].add;
    }
  }

  /** Issuing adds makes only the named entries live; issuing deletes makes nothing live. */
  lemma IssueLive(sh: Shared, seid: Seid, entries: set<Entry>, add: bool, k: Key)
    ensures Live(Issue(sh, seid, entries, add), k) <==> Live(sh, k) || (add && k.seid == seid && k.entry in entries)
    ensures k.seid != seid ==> KeepsKey(sh, Issue(sh, seid, entries, add), k)
  {
    IssueSlots(sh, seid, entries, add, k);
    HasAddAppend(SlotAt(sh, k).queue, Cmd(add, sh.nextBatch));
  }

  lemma IssueKeeps(sh: Shared, seid: Seid, entries: set<Entry>, add: bool, s: Seid)
    requires s != seid
    ensures KeepsSeid(sh, Issue(sh, seid, entries, add), s)
  {
    forall e: Entry
      ensures KeepsKey(sh, Issue(sh, seid, entries, add), Key(s, e))
    {
      IssueLive(sh, seid, entries, add, Key(s, e));
    }
  }

  lemma IssueDelShared(sh: Shared, seid: Seid, entries: set<Entry>, addresses: set<Addr>)
    requires SharedInv(sh, addresses)
    ensures SharedInv(Issue(sh, seid, entries, false), addresses)
    ensures forall k :: Live(Issue(sh, seid, entries, false), k) <==> Live(sh, k)
  {
    forall k
      ensures Live(Issue(sh, seid, entries, false), k) <==> Live(sh, k)
    {
      IssueLive(sh, seid, entries, false, k);
    }
  }

  /** Deletes for a session's entries leave them clearing, and nothing more live. */
  lemma IssueDeletes(sh: Shared, s: Session, addresses: set<Addr>)
    requires SharedInv(sh, addresses)
    ensures var sh' := Issue(sh, s.seid, s.rules, false);
            && Awaits(sh', s, sh.nextBatch) && SharedInv(sh', addresses)
            && (forall k :: Live(sh', k) <==> Live(sh, k))
            && forall t :: t != s.seid ==> KeepsSeid(sh, sh', t)
  {
    var sh' := Issue(sh, s.seid, s.rules, false);
    IssueDelShared(sh, s.seid, s.rules, addresses);
    forall t | t != s.seid
      ensures KeepsSeid(sh, sh', t)
    {
      IssueKeeps(sh, s.seid, s.rules, false, t);
    }
    forall e: Entry | e in s.rules && Live(sh', Key(s.seid, e))
      ensures EndsWithDel(sh', Key(s.seid, e), sh.nextBatch)
    {
      IssueSlots(sh, s.seid, s.rules, false, Key(s.seid, e));
    }
  }

  lemma IssueAdds(sh: Shared, s: Session, adds: set<Entry>, addresses: set<Addr>)
    requires Within(sh, s) && Holds(sh, s.seid) && s.seid in sh.owner && SharedInv(sh, addresses)
    ensures var sh' := Issue(sh, s.seid, adds, true);
            && Within(sh', Session(s.seid, s.rules + adds)) && SharedInv(sh', addresses)
            && forall t :: t != s.seid ==> KeepsSeid(sh, sh', t)
  {
    var sh' := Issue(sh, s.seid, adds, true);
    forall k
      ensures Live(sh', k) ==> Live(sh, k) || (k.seid == s.seid && k.entry in adds)
    {
      IssueLive(sh, s.seid, adds, true, k);
    }
    forall k | Live(sh', k)
      ensures k.seid in sh'.owner && Holds(sh', k.seid)
    {
      assert Live(sh, k) || k.seid == s.seid;
    }
    forall t | t != s.seid
      ensures KeepsSeid(sh, sh', t)
    {
      IssueKeeps(sh, s.seid, adds, true, t);
    }
  }

  /** Releasing the address of a session without live entries. */
  lemma ReleaseQuiet(sh: Shared, seid: Seid, addresses: set<Addr>)
    requires Quiet(sh, seid) && SharedInv(sh, addresses)
    ensures SharedInv(Release(sh, seid), addresses)
    ensures forall s :: s != seid ==> KeepsSeid(sh, Release(sh, seid), s)
    ensures forall k :: Live(Release(sh, seid), k) <==> Live(sh, k)
  {
    var sh' := Release(sh, seid);
    ReleaseKeepsPartition(sh.pool, addresses, seid);
    assert forall k :: SlotAt(sh', k) == SlotAt(sh, k);
    forall k | Live(sh', k)
      ensures Holds(sh', k.seid)
    {
      assert Live(sh, k) && k == Key(k.seid, k.entry);
    }
  }

  lemma AbandonShared(sh: Shared, seid: Seid, batch: nat, addresses: set<Addr>)
    requires SharedInv(sh, addresses) && batch < sh.nextBatch
    ensures SharedInv(Abandon(sh, seid, batch), addresses)
    ensures forall s :: s != seid ==> KeepsSeid(sh, Abandon(sh, seid, batch), s)
    ensures forall k :: Live(Abandon(sh, seid, batch), k) <==> Live(sh, k)
  {
    var sh' := Abandon(sh, seid, batch);
    assert forall k :: SlotAt(sh', k) == SlotAt(sh, k);
  }

  lemma GiveShared(sh: Shared, seid: Seid, addresses: set<Addr>)
    requires SharedInv(sh, addresses) && seid in sh.owner && Holds(sh, seid)
    ensures SharedInv(Give(sh, seid), addresses) && Holds(Give(sh, seid), seid)
    ensures forall s :: s != seid ==> KeepsSeid(sh, Give(sh, seid), s)
    ensures forall k :: Live(Give(sh, seid), k) <==> Live(sh, k)
  {
    var sh' := Give(sh, seid);
    AllocKeepsPartition(sh.pool, addresses, seid);
    assert forall k :: SlotAt(sh', k) == SlotAt(sh, k);
    forall k | Live(sh', k)
      ensures Holds(sh', k.seid)
    {
      assert Live(sh, k);
    }
  }

  lemma OwnShared(sh: Shared, seid: Seid, c: ConnId, addresses: set<Addr>)
    requires SharedInv(sh, addresses) && seid !in sh.owner
    ensures var sh' := sh.(owner := sh.owner[seid := c]);
            && SharedInv(sh', addresses) && OwnersKept(sh, sh') && Quiet(sh', seid) && Holds(sh', seid)
            && forall s :: s != seid ==> KeepsSeid(sh, sh', s)
  {
    var sh' := sh.(owner := sh.owner[seid := c]);
    assert forall k :: SlotAt(sh', k) == SlotAt(sh, k);
    assert forall k :: Live(sh', k) <==> Live(sh, k);
    forall e: Entry
      ensures !Live(sh', Key(seid, e))
    {
      assert Live(sh, Key(seid, e)) ==> Key(seid, e).seid in sh.owner;
    }
  }

  // ----- Steps of the datapath -----

  lemma LandedSlot(s: Slot, refused: bool)
    requires s.queue != []
    ensures var s' := Landed(s, refused);
            && (s'.held || HasAdd(s'.queue) ==> s.held || HasAdd(s.queue))
            && ((s'.held || HasAdd(s'.queue)) && !s.queue[|s.queue| - 1].add ==>
                  s'.queue != [] && s'.queue[|s'.queue| - 1] == s.queue[|s.queue| - 1])
  {
    var s' := Landed(s, refused);
    if i :| 0 <= i < |s'.queue| && s'.queue[i].add {
      assert s.queue[i + 1].add;
    }
    if s.queue[0].add {
      assert HasAdd(s.queue);
    }
  }

  lemma DroppedSlot(s: Slot, i: nat)
    requires i < |s.queue|
    ensures var s' := Dropped(s, i);
            && (HasAdd(s'.queue) ==> HasAdd(s.queue))
            && (i < |s.queue| - 1 ==> s'.queue != [] && s'.queue[|s'.queue| - 1] == s.queue[|s.queue| - 1])
  {
    var s' := Dropped(s, i);
    if j :| 0 <= j < |s'.queue| && s'.queue[j].add {
      assert s.queue[if j < i then j else j + 1].add;
    }
  }

  /** A change of one slot that keeps the invariant's view of that slot. */
  lemma SlotChanged(sh: Shared, k: Key, slot: Slot, addresses: set<Addr>)
    requires SharedInv(sh, addresses)
    requires KeepsKey(sh, sh.(slots := sh.slots[k := slot]), k)
    ensures var sh' := sh.(slots := sh.slots[k := slot]);
            SharedInv(sh', addresses) && OwnersKept(sh, sh') && forall s :: KeepsSeid(sh, sh', s)
  {
    var sh' := sh.(slots := sh.slots[k := slot]);
    forall j
      ensures KeepsKey(sh, sh', j)
    {
      if j != k {
        assert SlotAt(sh', j) == SlotAt(sh, j);
      }
    }
    assert forall j :: Live(sh', j) ==> Live(sh, j);
  }

  lemma LandKeeps(sh: Shared, k: Key, refused: bool, addresses: set<Addr>)
    requires SharedInv(sh, addresses) && SlotAt(sh, k).queue != []
    ensures var sh' := sh.(slots := sh.slots[k := Landed(SlotAt(sh, k), refused)]);
            SharedInv(sh', addresses) && OwnersKept(sh, sh') && forall s :: KeepsSeid(sh, sh', s)
  {
    LandedSlot(SlotAt(sh, k), refused);
    SlotChanged(sh, k, Landed(SlotAt(sh, k), refused), addresses);
  }

  lemma DropKeeps(sh: Shared, k: Key, i: nat, addresses: set<Addr>)
    requires SharedInv(sh, addresses) && i < |SlotAt(sh, k).queue|
    requires (k.seid, SlotAt(sh, k).queue[i].batch) in sh.abandoned
    ensures var sh' := sh.(slots := sh.slots[k := Dropped(SlotAt(sh, k), i)]);
            SharedInv(sh', addresses) && OwnersKept(sh, sh') && forall s :: KeepsSeid(sh, sh', s)
  {
    DroppedSlot(SlotAt(sh, k), i);
    SlotChanged(sh, k, Dropped(SlotAt(sh, k), i), addresses);
  }

  // ----- Steps of an association -----

  /**
   The handlers' steps the theorem covers. A removal that counts as finished was answered. A
   modification stops naming only entries whose removal was answered, and one that is undone had
   its removal answered or wrote nothing the session did not have. No report response deletes a
   session.
   */
  predicate CoveredHandler(conn: Conn, step: HandlerStep) {
    var h := conn.handler;
    match step
    case RollbackFinished(answered) => answered
    case DeleteDone(answered) => answered
    case ModifyDone(answered) =>
      h.Dropping? ==> h.session.rules + h.adds <= h.rules + if answered then h.dels else {}
    case UndoDone(answered) => h.Undoing? ==> answered || h.adds <= h.session.rules
    case CheckReport => h.Entered? && h.msg.ReportGone? ==> !Acts(conn, h.msg.seid)
    case _ => true
  }

  predicate CoveredTeardown(step: TeardownStep) {
    step.RemovalFinished? || step.RetryFinished? ==> step.answered
  }

  /** What a step of one association must leave behind. */
  ghost predicate Safe(c: ConnId, conn': Conn, sh: Shared, sh': Shared, addresses: set<Addr>) {
    && ConnAddr(c, conn', sh') && SharedInv(sh', addresses) && OwnersKept(sh, sh')
    && forall s :: s in sh.owner && sh.owner[s] != c ==> KeepsSeid(sh, sh', s)
  }

  lemma SameShared(sh: Shared)
    ensures OwnersKept(sh, sh) && forall s :: KeepsSeid(sh, sh, s)
  {
  }

  /** A store in which at most one session is touched, and that one stays within its rules. */
  lemma StoreTouched(c: ConnId, store: map<Seid, Session>, sh: Shared, sh': Shared, x: Seid)
    requires Keyed(store) && StoreAddr(c, store, sh) && OwnersKept(sh, sh')
    requires forall s :: s != x ==> KeepsSeid(sh, sh', s)
    requires x in store ==> Holds(sh', x) && Within(sh', store[x])
    ensures StoreAddr(c, store, sh')
  {
    forall seid | seid in store
      ensures Owned(sh', c, seid) && Holds(sh', seid) && Within(sh', store[seid])
    {
      if seid != x {
        assert KeepsSeid(sh, sh', seid);
        KeptSession(sh, sh', store[seid]);
      }
    }
  }

  lemma SameLiveWithin(sh: Shared, sh': Shared, s: Session)
    requires Within(sh, s) && forall k :: Live(sh', k) ==> Live(sh, k)
    ensures Within(sh', s)
  {
  }

  lemma ParsingStepSafe(c: ConnId, conn: Conn, sh: Shared, step: HandlerStep, addresses: set<Addr>)
    requires ConnInv(conn) && ConnAddr(c, conn, sh) && SharedInv(sh, addresses) && CanHandle(conn, sh, step)
    requires step.CheckEstablish? || step.Allocate? || step.RefuseParsed?
    requires !PastSnapshot(conn)
    ensures Safe(c, HandlerConn(conn, sh, step), sh, HandlerShared(conn, sh, c, step), addresses)
  {
    var sh' := HandlerShared(conn, sh, c, step);
    SameShared(sh);
    match step
    case CheckEstablish(seid) =>
      if !IsShutdown(conn) {
        OwnShared(sh, seid, c, addresses);
        StoreTouched(c, conn.store, sh, sh', seid);
      }
    case Allocate =>
      GiveShared(sh, conn.handler.seid, addresses);
      StoreTouched(c, conn.store, sh, sh', conn.handler.seid);
    case RefuseParsed =>
      ReleaseQuiet(sh, conn.handler.seid, addresses);
      StoreTouched(c, conn.store, sh, sh', conn.handler.seid);
  }

  lemma SendAddsSafe(c: ConnId, conn: Conn, sh: Shared, rules: set<Entry>, addresses: set<Addr>)
    requires ConnInv(conn) && ConnAddr(c, conn, sh) && SharedInv(sh, addresses)
    requires CanHandle(conn, sh, SendAdds(rules)) && !PastSnapshot(conn)
    ensures Safe(c, HandlerConn(conn, sh, SendAdds(rules)), sh, HandlerShared(conn, sh, c, SendAdds(rules)), addresses)
  {
    var sh', s := HandlerShared(conn, sh, c, SendAdds(rules)), Session(conn.handler.seid, {});
    IssueAdds(sh, s, rules, addresses);
    assert {} + rules == rules;
    StoreTouched(c, conn.store, sh, sh', s.seid);
  }

  lemma AddingStepSafe(c: ConnId, conn: Conn, sh: Shared, step: HandlerStep, addresses: set<Addr>)
    requires ConnInv(conn) && ConnAddr(c, conn, sh) && SharedInv(sh, addresses) && CanHandle(conn, sh, step)
    requires step.AddsAccepted? || step.AddsRejected? || step.RollbackFinished? || step.RollbackTimedOut?
    requires !PastSnapshot(conn) && CoveredHandler(conn, step)
    ensures Safe(c, HandlerConn(conn, sh, step), sh, HandlerShared(conn, sh, c, step), addresses)
  {
    var sh', s := HandlerShared(conn, sh, c, step), conn.handler.session;
    SameShared(sh);
    match step
    case AddsAccepted =>
    case AddsRejected =>
      IssueDeletes(sh, s, addresses);
      SameLiveWithin(sh, sh', s);
      StoreTouched(c, conn.store, sh, sh', s.seid);
    case RollbackFinished(_) =>
      DrainedIsQuiet(sh, s, conn.handler.batch);
      ReleaseQuiet(sh, s.seid, addresses);
      StoreTouched(c, conn.store, sh, sh', s.seid);
    case RollbackTimedOut =>
      AbandonShared(sh, s.seid, conn.handler.batch, addresses);
      StoreTouched(c, conn.store, sh, sh', s.seid);
      SameLiveWithin(sh, sh', s);
  }

  lemma DeletingStepSafe(c: ConnId, conn: Conn, sh: Shared, step: HandlerStep, addresses: set<Addr>)
    requires ConnInv(conn) && ConnAddr(c, conn, sh) && SharedInv(sh, addresses) && CanHandle(conn, sh, step)
    requires step.CheckDelete? || step.DeleteDone? || step.DeleteKept?
    requires !PastSnapshot(conn) && CoveredHandler(conn, step)
    ensures Safe(c, HandlerConn(conn, sh, step), sh, HandlerShared(conn, sh, c, step), addresses)
  {
    var sh', h := HandlerShared(conn, sh, c, step), conn.handler;
    SameShared(sh);
    match step
    case CheckDelete =>
      if Acts(conn, h.msg.seid) {
        var s := conn.store[h.msg.seid];
        IssueDeletes(sh, s, addresses);
        SameLiveWithin(sh, sh', s);
        StoreTouched(c, conn.store, sh, sh', s.seid);
      }
    case DeleteDone(_) =>
      DrainedIsQuiet(sh, h.session, h.batch);
      ReleaseQuiet(sh, h.session.seid, addresses);
      StoreTouched(c, conn.store - {h.session.seid}, sh, sh', h.session.seid);
    case DeleteKept =>
      AbandonShared(sh, h.session.seid, h.batch, addresses);
      SameLiveWithin(sh, sh', h.session);
      StoreTouched(c, conn.store, sh, sh', h.session.seid);
  }

  // ----- Modifications -----

  lemma WithinMore(sh: Shared, seid: Seid, rules: set<Entry>, more: set<Entry>)
    requires Within(sh, Session(seid, rules)) && rules <= more
    ensures Within(sh, Session(seid, more))
  {
  }

  lemma StartModifySafe(c: ConnId, conn: Conn, sh: Shared, step: HandlerStep, addresses: set<Addr>)
    requires ConnInv(conn) && ConnAddr(c, conn, sh) && SharedInv(sh, addresses) && CanHandle(conn, sh, step)
    requires step.CheckModify? || step.ModifyAllocate? || step.RefuseModify?
    requires !PastSnapshot(conn)
    ensures Safe(c, HandlerConn(conn, sh, step), sh, HandlerShared(conn, sh, c, step), addresses)
  {
    SameShared(sh);
    if step.ModifyAllocate? {
      var sh', s := HandlerShared(conn, sh, c, step), conn.handler.session;
      GiveShared(sh, s.seid, addresses);
      SameLiveWithin(sh, sh', s);
      StoreTouched(c, conn.store, sh, sh', s.seid);
    }
  }

  lemma SendModifySafe(c: ConnId, conn: Conn, sh: Shared, adds: set<Entry>, addresses: set<Addr>)
    requires ConnInv(conn) && ConnAddr(c, conn, sh) && SharedInv(sh, addresses)
    requires CanHandle(conn, sh, SendModify(adds)) && !PastSnapshot(conn)
    ensures Safe(c, HandlerConn(conn, sh, SendModify(adds)), sh, HandlerShared(conn, sh, c, SendModify(adds)), addresses)
  {
    var sh', s := HandlerShared(conn, sh, c, SendModify(adds)), conn.handler.session;
    IssueAdds(sh, s, adds, addresses);
    StoreTouched(c, conn.store - {s.seid}, sh, sh', s.seid);
  }

  /** Removals of a modification that has been written leave it as it was, and clearing. */
  lemma IssueDrops(c: ConnId, conn: Conn, sh: Shared, dels: set<Entry>, addresses: set<Addr>)
    requires ConnInv(conn) && ConnAddr(c, conn, sh) && SharedInv(sh, addresses)
    requires conn.handler.Writing? || conn.handler.Dropping?
    ensures var h, sh' := conn.handler, Issue(sh, conn.handler.session.seid, dels, false);
            && Within(sh', Wider(h)) && Awaits(sh', Session(h.session.seid, dels), sh.nextBatch)
            && StoreAddr(c, Settled(conn), sh') && SharedInv(sh', addresses)
            && forall t :: t != h.session.seid ==> KeepsSeid(sh, sh', t)
  {
    var h, sh' := conn.handler, Issue(sh, conn.handler.session.seid, dels, false);
    IssueDeletes(sh, Session(h.session.seid, dels), addresses);
    SameLiveWithin(sh, sh', Wider(h));
    StoreTouched(c, Settled(conn), sh, sh', h.session.seid);
  }

  lemma SendDropsSafe(c: ConnId, conn: Conn, sh: Shared, dels: set<Entry>, rules: set<Entry>, addresses: set<Addr>)
    requires ConnInv(conn) && ConnAddr(c, conn, sh) && SharedInv(sh, addresses)
    requires CanHandle(conn, sh, SendDrops(dels, rules)) && !PastSnapshot(conn)
    ensures Safe(c, HandlerConn(conn, sh, SendDrops(dels, rules)), sh, HandlerShared(conn, sh, c, SendDrops(dels, rules)), addresses)
  {
    IssueDrops(c, conn, sh, dels, addresses);
    var h, h' := conn.handler, HandlerConn(conn, sh, SendDrops(dels, rules)).handler;
    assert Wider(h') == Wider(h) && Settled(HandlerConn(conn, sh, SendDrops(dels, rules))) == Settled(conn);
  }

  lemma SendUndoSafe(c: ConnId, conn: Conn, sh: Shared, dels: set<Entry>, addresses: set<Addr>)
    requires ConnInv(conn) && ConnAddr(c, conn, sh) && SharedInv(sh, addresses)
    requires CanHandle(conn, sh, SendUndo(dels)) && !PastSnapshot(conn)
    ensures Safe(c, HandlerConn(conn, sh, SendUndo(dels)), sh, HandlerShared(conn, sh, c, SendUndo(dels)), addresses)
  {
    IssueDrops(c, conn, sh, dels, addresses);
    var h, h' := conn.handler, HandlerConn(conn, sh, SendUndo(dels)).handler;
    assert Wider(h') == Wider(h) && Settled(HandlerConn(conn, sh, SendUndo(dels))) == Settled(conn);
  }

  /** What a finished removal leaves of the entries the modification may have left live. */
  lemma FinishLeaves(sh: Shared, s: Session, dels: set<Entry>, batch: nat, answered: bool, addresses: set<Addr>)
    requires SharedInv(sh, addresses) && Within(sh, s) && Awaits(sh, Session(s.seid, dels), batch)
    requires CanFinish(sh, s.seid, batch, answered)
    ensures var sh' := Finish(sh, s.seid, batch, answered);
            && Within(sh', Session(s.seid, if answered then s.rules - dels else s.rules))
            && SharedInv(sh', addresses)
            && forall t :: t != s.seid ==> KeepsSeid(sh, sh', t)
  {
    SameShared(sh);
    if answered {
      DrainedRemoves(sh, s, dels, batch);
    } else {
      AbandonShared(sh, s.seid, batch, addresses);
      SameLiveWithin(sh, Abandon(sh, s.seid, batch), s);
    }
  }

  lemma ModifyDoneSafe(c: ConnId, conn: Conn, sh: Shared, answered: bool, addresses: set<Addr>)
    requires ConnInv(conn) && ConnAddr(c, conn, sh) && SharedInv(sh, addresses)
    requires CanHandle(conn, sh, ModifyDone(answered))
    requires !PastSnapshot(conn) && CoveredHandler(conn, ModifyDone(answered))
    ensures Safe(c, HandlerConn(conn, sh, ModifyDone(answered)), sh, HandlerShared(conn, sh, c, ModifyDone(answered)), addresses)
  {
    var sh', h := HandlerShared(conn, sh, c, ModifyDone(answered)), conn.handler;
    var wide := Wider(h);
    FinishLeaves(sh, wide, h.dels, h.batch, answered, addresses);
    WithinMore(sh', wide.seid, if answered then wide.rules - h.dels else wide.rules, h.rules);
    StoreReplaced(c, conn.store, sh, sh', Session(wide.seid, h.rules));
  }

  lemma UndoDoneSafe(c: ConnId, conn: Conn, sh: Shared, answered: bool, addresses: set<Addr>)
    requires ConnInv(conn) && ConnAddr(c, conn, sh) && SharedInv(sh, addresses)
    requires CanHandle(conn, sh, UndoDone(answered))
    requires !PastSnapshot(conn) && CoveredHandler(conn, UndoDone(answered))
    ensures Safe(c, HandlerConn(conn, sh, UndoDone(answered)), sh, HandlerShared(conn, sh, c, UndoDone(answered)), addresses)
  {
    var sh', h := HandlerShared(conn, sh, c, UndoDone(answered)), conn.handler;
    var wide, sh1 := Wider(h), Finish(sh, h.session.seid, h.batch, answered);
    FinishLeaves(sh, wide, h.dels, h.batch, answered, addresses);
    WithinMore(sh1, wide.seid, if answered then wide.rules - h.dels else wide.rules, h.session.rules);
    IssueAdds(sh1, h.session, h.session.rules, addresses);
    assert h.session.rules + h.session.rules == h.session.rules;
    forall t | t != wide.seid
      ensures KeepsSeid(sh, sh', t)
    {
      KeepsTwice(sh, sh1, sh', t);
    }
    StoreReplaced(c, conn.store, sh, sh', h.session);
    assert conn.store[wide.seid := h.session] == conn.store;
  }

  lemma KeepsTwice(sh: Shared, sh1: Shared, sh2: Shared, s: Seid)
    requires KeepsSeid(sh, sh1, s) && KeepsSeid(sh1, sh2, s)
    ensures KeepsSeid(sh, sh2, s)
  {
    forall e: Entry
      ensures KeepsKey(sh, sh2, Key(s, e))
    {
      assert KeepsKey(sh, sh1, Key(s, e)) && KeepsKey(sh1, sh2, Key(s, e));
    }
  }

  lemma StoreReplaced(c: ConnId, store: map<Seid, Session>, sh: Shared, sh': Shared, s: Session)
    requires Keyed(store) && StoreAddr(c, store - {s.seid}, sh) && OwnersKept(sh, sh') && Owned(sh, c, s.seid)
    requires forall t :: t != s.seid ==> KeepsSeid(sh, sh', t)
    requires Holds(sh', s.seid) && Within(sh', s)
    ensures StoreAddr(c, store[s.seid := s], sh')
  {
    StoreTouched(c, store - {s.seid}, sh, sh', s.seid);
  }

  lemma ModifyStepSafe(c: ConnId, conn: Conn, sh: Shared, step: HandlerStep, addresses: set<Addr>)
    requires ConnInv(conn) && ConnAddr(c, conn, sh) && SharedInv(sh, addresses) && CanHandle(conn, sh, step)
    requires ModifyStep(step) && !PastSnapshot(conn) && CoveredHandler(conn, step)
    ensures Safe(c, HandlerConn(conn, sh, step), sh, HandlerShared(conn, sh, c, step), addresses)
  {
    if step.SendModify? {
      SendModifySafe(c, conn, sh, step.adds, addresses);
    } else if step.SendDrops? {
      SendDropsSafe(c, conn, sh, step.dels, step.rules, addresses);
    } else if step.SendUndo? {
      SendUndoSafe(c, conn, sh, step.dels, addresses);
    } else if step.ModifyDone? {
      ModifyDoneSafe(c, conn, sh, step.answered, addresses);
    } else if step.UndoDone? {
      UndoDoneSafe(c, conn, sh, step.answered, addresses);
    } else {
      StartModifySafe(c, conn, sh, step, addresses);
    }
  }

  /** A step past the snapshot, or one that reaches neither the store nor anything shared. */
  lemma IdleStepSafe(c: ConnId, conn: Conn, sh: Shared, step: HandlerStep, addresses: set<Addr>)
    requires ConnInv(conn) && ConnAddr(c, conn, sh) && SharedInv(sh, addresses) && CanHandle(conn, sh, step)
    requires PastSnapshot(conn) || step.Enter? || step.Refuse? || step.CheckReport?
    requires CoveredHandler(conn, step)
    ensures Safe(c, HandlerConn(conn, sh, step), sh, HandlerShared(conn, sh, c, step), addresses)
  {
    SameShared(sh);
  }

  lemma HandlerStepSafe(c: ConnId, conn: Conn, sh: Shared, step: HandlerStep, addresses: set<Addr>)
    requires ConnInv(conn) && ConnAddr(c, conn, sh) && SharedInv(sh, addresses) && CanHandle(conn, sh, step)
    requires CoveredHandler(conn, step)
    ensures Safe(c, HandlerConn(conn, sh, step), sh, HandlerShared(conn, sh, c, step), addresses)
  {
    if PastSnapshot(conn) || step.Enter? || step.Refuse? || step.CheckReport? {
      IdleStepSafe(c, conn, sh, step, addresses);
    } else if ModifyStep(step) {
      ModifyStepSafe(c, conn, sh, step, addresses);
    } else if step.CheckDelete? || step.DeleteDone? || step.DeleteKept? {
      DeletingStepSafe(c, conn, sh, step, addresses);
    } else if step.AddsAccepted? || step.AddsRejected? || step.RollbackFinished? || step.RollbackTimedOut? {
      AddingStepSafe(c, conn, sh, step, addresses);
    } else if step.SendAdds? {
      SendAddsSafe(c, conn, sh, step.rules, addresses);
    } else {
      ParsingStepSafe(c, conn, sh, step, addresses);
    }
  }

  lemma CountedTwice(ss: seq<Session>, i: nat, j: nat)
    requires i < j < |ss|
    ensures ss[i] == ss[j] ==> multiset(ss)[ss[i]] >= 2
  {
    assert ss == ss[..j] + [ss[j]] + ss[j + 1..];
    assert ss[i] in multiset(ss[..j]) by {
      assert ss[..j][i] == ss[i];
    }
  }

  /** Two entries of a teardown's list belong to different sessions. */
  lemma ListedOnce(ss: seq<Session>, store: map<Seid, Session>, i: nat, j: nat)
    requires Keyed(store) && multiset(ss) == multiset(store.Values)
    requires i < |ss| && j < |ss| && i != j
    ensures ss[i].seid != ss[j].seid
  {
    ListedIsStored(ss, store, i);
    ListedIsStored(ss, store, j);
    if i < j {
      CountedTwice(ss, i, j);
    } else {
      CountedTwice(ss, j, i);
    }
  }

  lemma RemovingStepSafe(c: ConnId, conn: Conn, sh: Shared, step: TeardownStep, addresses: set<Addr>)
    requires ConnInv(conn) && ConnAddr(c, conn, sh) && SharedInv(sh, addresses) && CanTear(conn, sh, step)
    requires (step.SendRemoval? || step.RemovalFinished? || step.RemovalTimedOut?) && CoveredTeardown(step)
    ensures Safe(c, TeardownConn(conn, sh, step), sh, TeardownShared(conn, sh, step), addresses)
  {
    var sh', t := TeardownShared(conn, sh, step), conn.teardown;
    ListedIsStored(Remaining(t), conn.store, 0);
    var s := Remaining(t)[0];
    match step
    case SendRemoval =>
      IssueDeletes(sh, s, addresses);
      SameLiveWithin(sh, sh', s);
      StoreTouched(c, conn.store, sh, sh', s.seid);
    case RemovalFinished(_) =>
      DrainedIsQuiet(sh, s, t.batch);
      ReleaseQuiet(sh, s.seid, addresses);
      StoreTouched(c, conn.store - {s.seid}, sh, sh', s.seid);
    case RemovalTimedOut =>
      AbandonShared(sh, s.seid, t.batch, addresses);
      SameLiveWithin(sh, sh', s);
      StoreTouched(c, conn.store, sh, sh', s.seid);
  }

  lemma EntriesTouched(entries: seq<Retry>, store: map<Seid, Session>, sh: Shared, sh': Shared, i: nat)
    requires Keyed(store) && multiset(Sessions(entries)) == multiset(store.Values) && i < |entries|
    requires forall j :: 0 <= j < |entries| ==> EntryAddr(entries[j], sh)
    requires forall s :: s != entries[i].session.seid ==> KeepsSeid(sh, sh', s)
    ensures forall j :: 0 <= j < |entries| && j != i ==> EntryAddr(entries[j], sh')
  {
    forall j | 0 <= j < |entries| && j != i
      ensures EntryAddr(entries[j], sh')
    {
      ListedOnce(Sessions(entries), store, i, j);
      KeptEntry(entries[j], sh, sh');
    }
  }

  lemma StatusChanged(entries: seq<Retry>, i: nat, status: Status, sh: Shared)
    requires i < |entries| && EntryAddr(entries[i].(status := status), sh)
    requires forall j :: 0 <= j < |entries| && j != i ==> EntryAddr(entries[j], sh)
    ensures forall j :: 0 <= j < |entries| ==> EntryAddr(SetStatus(entries, i, status)[j], sh)
  {
  }

  lemma SendRetrySafe(c: ConnId, conn: Conn, sh: Shared, i: nat, addresses: set<Addr>)
    requires ConnInv(conn) && ConnAddr(c, conn, sh) && SharedInv(sh, addresses) && CanTear(conn, sh, SendRetry(i))
    ensures Safe(c, TeardownConn(conn, sh, SendRetry(i)), sh, TeardownShared(conn, sh, SendRetry(i)), addresses)
  {
    var entries := conn.teardown.entries;
    var s := entries[i].session;
    var sh' := Issue(sh, s.seid, s.rules, false);
    ListedIsStored(Sessions(entries), conn.store, i);
    IssueDeletes(sh, s, addresses);
    SameLiveWithin(sh, sh', s);
    StoreTouched(c, conn.store, sh, sh', s.seid);
    EntriesTouched(entries, conn.store, sh, sh', i);
    StatusChanged(entries, i, Waiting(sh.nextBatch), sh');
  }

  lemma RetryFinishedSafe(c: ConnId, conn: Conn, sh: Shared, i: nat, addresses: set<Addr>)
    requires ConnInv(conn) && ConnAddr(c, conn, sh) && SharedInv(sh, addresses) && CanTear(conn, sh, RetryFinished(i, true))
    ensures Safe(c, TeardownConn(conn, sh, RetryFinished(i, true)), sh, TeardownShared(conn, sh, RetryFinished(i, true)), addresses)
  {
    var entries := conn.teardown.entries;
    SameShared(sh);
    assert EntryAddr(entries[i], sh);
    ListedIsStored(Sessions(entries), conn.store, i);
    DrainedIsQuiet(sh, entries[i].session, entries[i].status.batch);
    StatusChanged(entries, i, Finished, sh);
  }

  lemma RetryTimedOutSafe(c: ConnId, conn: Conn, sh: Shared, i: nat, addresses: set<Addr>)
    requires ConnInv(conn) && ConnAddr(c, conn, sh) && SharedInv(sh, addresses) && CanTear(conn, sh, RetryTimedOut(i))
    ensures Safe(c, TeardownConn(conn, sh, RetryTimedOut(i)), sh, TeardownShared(conn, sh, RetryTimedOut(i)), addresses)
  {
    var entries := conn.teardown.entries;
    var s := entries[i].session;
    assert EntryAddr(entries[i], sh);
    var sh' := Abandon(sh, s.seid, entries[i].status.batch);
    ListedIsStored(Sessions(entries), conn.store, i);
    AbandonShared(sh, s.seid, entries[i].status.batch, addresses);
    SameLiveWithin(sh, sh', s);
    StoreTouched(c, conn.store, sh, sh', s.seid);
    EntriesTouched(entries, conn.store, sh, sh', i);
    StatusChanged(entries, i, TimedOut, sh');
  }

  lemma FinishOneSafe(c: ConnId, conn: Conn, sh: Shared, addresses: set<Addr>)
    requires ConnInv(conn) && ConnAddr(c, conn, sh) && SharedInv(sh, addresses) && CanTear(conn, sh, FinishOne)
    ensures Safe(c, TeardownConn(conn, sh, FinishOne), sh, TeardownShared(conn, sh, FinishOne), addresses)
  {
    var entries := conn.teardown.entries;
    var s := entries[0].session;
    var sh' := TeardownShared(conn, sh, FinishOne);
    ListedIsStored(Sessions(entries), conn.store, 0);
    FinishOneShared(sh, entries[0], addresses);
    StoreTouched(c, conn.store - {s.seid}, sh, sh', s.seid);
    EntriesTouched(entries, conn.store, sh, sh', 0);
    var rest := entries[1..];
    forall j | 0 <= j < |rest|
      ensures EntryAddr(rest[j], sh')
    {
      assert rest[j] == entries[j + 1];
    }
  }

  lemma FinishOneShared(sh: Shared, e: Retry, addresses: set<Addr>)
    requires SharedInv(sh, addresses) && EntryAddr(e, sh)
    ensures var sh' := if e.status.Finished? then Release(sh, e.session.seid) else sh;
            && SharedInv(sh', addresses) && OwnersKept(sh, sh')
            && forall s :: s != e.session.seid ==> KeepsSeid(sh, sh', s)
  {
    if e.status.Finished? {
      ReleaseQuiet(sh, e.session.seid, addresses);
    } else {
      SameShared(sh);
    }
  }

  lemma TeardownStepSafe(c: ConnId, conn: Conn, sh: Shared, step: TeardownStep, addresses: set<Addr>)
    requires ConnInv(conn) && ConnAddr(c, conn, sh) && SharedInv(sh, addresses) && CanTear(conn, sh, step)
    requires CoveredTeardown(step)
    ensures Safe(c, TeardownConn(conn, sh, step), sh, TeardownShared(conn, sh, step), addresses)
  {
    if step.SendRemoval? || step.RemovalFinished? || step.RemovalTimedOut? {
      RemovingStepSafe(c, conn, sh, step, addresses);
    } else if step.SendRetry? {
      SendRetrySafe(c, conn, sh, step.i, addresses);
    } else if step.RetryFinished? {
      RetryFinishedSafe(c, conn, sh, step.i, addresses);
    } else if step.RetryTimedOut? {
      RetryTimedOutSafe(c, conn, sh, step.i, addresses);
    } else if step.FinishOne? {
      FinishOneSafe(c, conn, sh, addresses);
    } else {
      SameShared(sh);
    }
  }

  // ----- Runs -----

  ghost predicate Inv(s: State, addresses: set<Addr>) {
    && Ordered(s) && SharedInv(s.shared, addresses)
    && forall c :: c in s.conns ==> ConnAddr(c, s.conns[c], s.shared)
  }

  ghost predicate Covered(s: State, step: Step) {
    && (step.Handle? && step.c in s.conns ==> CoveredHandler(s.conns[step.c], step.hstep))
    && (step.Tear? ==> CoveredTeardown(step.tstep))
  }

  lemma ConnStepKeepsInv(s: State, c: ConnId, conn': Conn, sh': Shared, addresses: set<Addr>)
    requires Inv(s, addresses) && c in s.conns && ConnInv(conn') && Safe(c, conn', s.shared, sh', addresses)
    ensures Inv(State(s.conns[c := conn'], sh'), addresses)
  {
    forall d | d in s.conns && d != c
      ensures ConnAddr(d, s.conns[d], sh')
    {
      KeptConn(d, s.conns[d], s.shared, sh');
    }
  }

  lemma SlotStepKeepsInv(s: State, sh': Shared, addresses: set<Addr>)
    requires Inv(s, addresses) && SharedInv(sh', addresses) && OwnersKept(s.shared, sh')
    requires forall t :: KeepsSeid(s.shared, sh', t)
    ensures Inv(s.(shared := sh'), addresses)
  {
    forall d | d in s.conns
      ensures ConnAddr(d, s.conns[d], sh')
    {
      KeptConn(d, s.conns[d], s.shared, sh');
    }
  }

  lemma StepKeepsInv(s: State, step: Step, addresses: set<Addr>)
    requires Inv(s, addresses) && CanStep(s, step) && Covered(s, step)
    ensures Inv(Apply(s, step), addresses)
  {
    StepKeepsOrder(s, step);
    match step
    case Connect(c) =>
    case Handle(c, st) =>
      HandlerStepSafe(c, s.conns[c], s.shared, st, addresses);
      HandlerStepKeeps(s.conns[c], s.shared, st);
      ConnStepKeepsInv(s, c, HandlerConn(s.conns[c], s.shared, st), HandlerShared(s.conns[c], s.shared, c, st), addresses);
    case Tear(c, st) =>
      TeardownStepSafe(c, s.conns[c], s.shared, st, addresses);
      TeardownStepKeeps(s.conns[c], s.shared, st);
      ConnStepKeepsInv(s, c, TeardownConn(s.conns[c], s.shared, st), TeardownShared(s.conns[c], s.shared, st), addresses);
    case Land(k, refused) =>
      LandKeeps(s.shared, k, refused, addresses);
      SlotStepKeepsInv(s, Apply(s, step).shared, addresses);
    case Drop(k, i) =>
      DropKeeps(s.shared, k, i, addresses);
      SlotStepKeepsInv(s, Apply(s, step).shared, addresses);
  }

  lemma {:induction false} RunKeepsInv(states: seq<State>, steps: seq<Step>, addresses: set<Addr>, n: nat)
    requires IsRun(states, steps, addresses) && n < |states|
    requires forall i :: 0 <= i < |steps| ==> Covered(states[i], steps[i])
    ensures Inv(states[n], addresses)
  {
    if n > 0 {
      RunKeepsInv(states, steps, addresses, n - 1);
      StepKeepsInv(states[n - 1], steps[n - 1], addresses);
    }
  }

  /** The address of every session with a live entry is not free, and no other session holds it. */
  ghost predicate NoLiveAddressFree(sh: Shared) {
    forall k :: Live(sh, k) && k.seid in sh.given ==>
      && sh.given[k.seid] !in sh.pool.free
      && forall s :: s in sh.pool.inventory && s != k.seid ==> sh.pool.inventory[s] != sh.given[k.seid]
  }

  lemma InvariantIsSafe(sh: Shared, addresses: set<Addr>)
    requires SharedInv(sh, addresses)
    ensures NoLiveAddressFree(sh)
  {
  }

  /**
   Address safety: at every point of every run of covered steps, an address that is free, or held
   by another session, belongs to no session with a rule programmed or on its way.
   */
  lemma AddressesAreSafe(states: seq<State>, steps: seq<Step>, addresses: set<Addr>, n: nat)
    requires IsRun(states, steps, addresses) && n < |states|
    requires forall i :: 0 <= i < |steps| ==> Covered(states[i], steps[i])
    ensures NoLiveAddressFree(states[n].shared)
    ensures Partitions(states[n].shared.pool, addresses)
  {
    RunKeepsInv(states, steps, addresses, n);
    InvariantIsSafe(states[n].shared, addresses);
  }

  /**
   Why every release waits for a finished removal: releasing a session's address is safe exactly
   when the session holds none or has no live entry, whether or not the session names the entry.
   */
  lemma ReleaseIsSafeIff(sh: Shared, seid: Seid, addresses: set<Addr>)
    requires SharedInv(sh, addresses)
    ensures NoLiveAddressFree(Release(sh, seid)) <==> seid !in sh.pool.inventory || Quiet(sh, seid)
  {
    var sh' := Release(sh, seid);
    assert forall k :: SlotAt(sh', k) == SlotAt(sh, k);
    assert forall k :: Live(sh', k) <==> Live(sh, k);
    if seid in sh.pool.inventory && !Quiet(sh, seid) {
      var e: Entry :| Live(sh, Key(seid, e));
      assert sh'.pool.free[|sh.pool.free|] == sh.given[seid];
      assert Live(sh', Key(seid, e)) && sh'.given[seid] in sh'.pool.free;
    } else {
      QuietReleaseSafe(sh, sh', seid, addresses);
    }
  }

  lemma QuietReleaseSafe(sh: Shared, sh': Shared, seid: Seid, addresses: set<Addr>)
    requires SharedInv(sh, addresses) && (seid !in sh.pool.inventory || Quiet(sh, seid))
    requires sh'.pool == Released(sh.pool, seid) && sh'.given == sh.given
    requires forall k :: Live(sh', k) <==> Live(sh, k)
    ensures NoLiveAddressFree(sh')
  {
    InvariantIsSafe(sh, addresses);
    ReleaseKeepsPartition(sh.pool, addresses, seid);
    forall k | Live(sh', k) && k.seid in sh'.given
      ensures sh'.given[k.seid] !in sh'.pool.free
      ensures forall s :: s in sh'.pool.inventory && s != k.seid ==> sh'.pool.inventory[s] != sh'.given[k.seid]
    {
      assert Live(sh, k) && k == Key(k.seid, k.entry);
      assert k.seid in sh.pool.inventory;
    }
  }

  /** The local deletion on a report response does not wait, so it is safe only in that case. */
  lemma ReportIsSafeIff(conn: Conn, sh: Shared, c: ConnId, addresses: set<Addr>)
    requires SharedInv(sh, addresses) && CanHandle(conn, sh, CheckReport) && Acts(conn, conn.handler.msg.seid)
    ensures var seid := conn.handler.msg.seid;
            NoLiveAddressFree(HandlerShared(conn, sh, c, CheckReport)) <==>
            seid !in sh.pool.inventory || Quiet(sh, seid)
  {
    var seid := conn.handler.msg.seid;
    var released, sh' := Release(sh, seid), HandlerShared(conn, sh, c, CheckReport);
    forall k
      ensures Live(sh', k) <==> Live(released, k)
    {
      IssueLive(released, seid, conn.store[seid].rules, false, k);
    }
    assert NoLiveAddressFree(sh') <==> NoLiveAddressFree(released);
    ReleaseIsSafeIff(sh, seid, addresses);
  }
}
