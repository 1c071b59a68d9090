/**
 Two batches that both finish, the first writing rules and the second removing some: what becomes of
 each key, and when the table ends up holding exactly the rules that are left. A rule's change is
 described by its image before, its image after, and whether it was written and whether it is gone.
 */
module Changes {
  import opened Wrappers
  import opened Rules
  import opened Datapath

  // ----- Two finished batches -----

  /** Both batches finished and nothing of them was refused. */
  ghost predicate Completed(h: History, written: set<Image>, gone: set<Image>) {
    var batches := [AddCommands(written), DelCommands(gone)];
    Legal(h, batches) && InIssueOrder(h) && Finished(h, batches, 0) && Finished(h, batches, 1)
  }

  lemma CompletedCommand(h: History, written: set<Image>, gone: set<Image>, i: nat)
    requires Completed(h, written, gone) && i < |h|
    ensures h[i].batch == 0 ==> h[i].cmd in AddCommands(written)
    ensures h[i].batch != 0 ==> h[i].batch == 1 && h[i].cmd in DelCommands(gone)
  {
  }

  /** A removed key is absent, whatever was written under it. */
  lemma RemovedKeyAbsent(t: Table, h: History, written: set<Image>, gone: set<Image>, k: Key)
    requires Completed(h, written, gone) && k in KeysOf(gone)
    ensures k !in Run(t, h)
  {
    var batches := [AddCommands(written), DelCommands(gone)];
    var i := LastInLatestBatch(h, batches, 1, Del(k));
    CompletedCommand(h, written, gone, i);
    LastCommandDecides(t, h, k, i);
  }

  /** A key that is written and not removed holds what one of the written rules writes. */
  lemma WrittenKeyHeld(t: Table, h: History, written: set<Image>, gone: set<Image>, k: Key) returns (m: Image)
    requires Completed(h, written, gone) && k in KeysOf(written) && k !in KeysOf(gone)
    ensures m in written && k in m && k in Run(t, h) && Run(t, h)[k] == m[k]
  {
    var batches := [AddCommands(written), DelCommands(gone)];
    var n :| n in written && k in n;
    assert Put(k, n[k]) in batches[0];
    var i := LastInLatestBatch(h, batches, 0, Put(k, n[k]));
    CompletedCommand(h, written, gone, i);
    LastCommandDecides(t, h, k, i);
    m :| m in written && k in m && h[i].cmd == Put(k, m[k]);
  }

  /** Any other key is as it was. */
  lemma OtherKeyUnchanged(t: Table, h: History, written: set<Image>, gone: set<Image>, k: Key)
    requires Completed(h, written, gone) && k !in KeysOf(written) && k !in KeysOf(gone)
    ensures k in Run(t, h) <==> k in t
    ensures k in t ==> Run(t, h)[k] == t[k]
  {
    forall i | 0 <= i < |h|
      ensures h[i].cmd.key != k
    {
      CompletedCommand(h, written, gone, i);
    }
    UnnamedKeyUnchanged(t, h, k);
  }

  /** A key that was there and is not removed stays there, whoever still names it. */
  lemma UnremovedKeyStays(t: Table, h: History, written: set<Image>, gone: set<Image>, k: Key)
    requires Completed(h, written, gone) && k in t && k !in KeysOf(gone)
    ensures k in Run(t, h)
  {
    if k in KeysOf(written) {
      var m := WrittenKeyHeld(t, h, written, gone, k);
    } else {
      OtherKeyUnchanged(t, h, written, gone, k);
    }
  }

  // ----- Changes -----

  datatype Change = Change(was: Option<Image>, now: Image, written: bool, gone: bool) {
    ghost predicate Names(k: Key) {
      k in now || (was.Some? && k in was.value)
    }

    /** What the table holds under a key of this rule afterwards. */
    ghost function After(k: Key): (v: Option<Value>) {
      if k in now && gone then None
      else if k in now && written then Some(now[k])
      else if was.Some? && k in was.value then Some(was.value[k])
      else None
    }

    /** What it should hold: the rule as it is now, unless it is gone. */
    ghost function Wanted(k: Key): (v: Option<Value>) {
      if k in now && !gone then Some(now[k]) else None
    }

    /** The rule leaves nothing behind, and an unwritten one that stays is what it was. */
    ghost predicate Tidy() {
      if gone || written then was.Some? ==> was.value.Keys <= now.Keys else was == Some(now)
    }
  }

  ghost function Olds(cs: seq<Change>): (images: set<Image>) {
    set c | c in cs && c.was.Some? :: c.was.value
  }

  ghost function Writes(cs: seq<Change>): (images: set<Image>) {
    set c | c in cs && c.written :: c.now
  }

  ghost function Gones(cs: seq<Change>): (images: set<Image>) {
    set c | c in cs && c.gone :: c.now
  }

  ghost function Rests(cs: seq<Change>): (images: set<Image>) {
    set c | c in cs && !c.gone :: c.now
  }

  /** No key belongs to two rules, in any version; an unwritten rule was there before. */
  ghost predicate Separate(cs: seq<Change>) {
    && (forall i, j, k :: 0 <= i < j < |cs| && cs[i].Names(k) ==> !cs[j].Names(k))
    && (forall i :: 0 <= i < |cs| && !cs[i].written ==> cs[i].was.Some?)
  }

  ghost predicate AllTidy(cs: seq<Change>) {
    forall i :: 0 <= i < |cs| ==> cs[i].Tidy()
  }

  /** Within the scope the table holds exactly these images. */
  ghost predicate Mirrors(t: Table, images: set<Image>, scope: set<Key>) {
    && t.Keys * scope == KeysOf(images)
    && forall m, k :: m in images && k in m ==> k in t && t[k] == m[k]
  }

  ghost predicate NamedIn(cs: seq<Change>, scope: set<Key>) {
    forall i, k :: 0 <= i < |cs| && cs[i].Names(k) ==> k in scope
  }

  lemma OnlyNamer(cs: seq<Change>, i: nat, k: Key, c: Change)
    requires Separate(cs) && i < |cs| && cs[i].Names(k) && c in cs && c.Names(k)
    ensures c == cs[i]
  {
    var j :| 0 <= j < |cs| && cs[j] == c;
  }

  lemma KeyAfter(t: Table, h: History, cs: seq<Change>, scope: set<Key>, i: nat, k: Key)
    requires Separate(cs) && NamedIn(cs, scope) && Mirrors(t, Olds(cs), scope) && Completed(h, Writes(cs), Gones(cs))
    requires i < |cs| && cs[i].Names(k)
    ensures k in Run(t, h) <==> cs[i].After(k).Some?
    ensures k in Run(t, h) ==> cs[i].After(k) == Some(Run(t, h)[k])
  {
    var c := cs[i];
    GoneNames(cs, i, k);
    WriteNames(cs, i, k);
    OldNames(t, cs, scope, i, k);
    if k in KeysOf(Gones(cs)) {
      RemovedKeyAbsent(t, h, Writes(cs), Gones(cs), k);
    } else if k in KeysOf(Writes(cs)) {
      var m := WrittenKeyHeld(t, h, Writes(cs), Gones(cs), k);
      var d :| d in cs && d.written && d.now == m;
      OnlyNamer(cs, i, k, d);
    } else {
      OtherKeyUnchanged(t, h, Writes(cs), Gones(cs), k);
    }
  }

  lemma GoneNames(cs: seq<Change>, i: nat, k: Key)
    requires Separate(cs) && i < |cs| && cs[i].Names(k)
    ensures k in KeysOf(Gones(cs)) <==> cs[i].gone && k in cs[i].now
  {
    if k in KeysOf(Gones(cs)) {
      var c :| c in cs && c.gone && k in c.now;
      OnlyNamer(cs, i, k, c);
    }
    assert cs[i] in cs;
  }

  lemma WriteNames(cs: seq<Change>, i: nat, k: Key)
    requires Separate(cs) && i < |cs| && cs[i].Names(k)
    ensures k in KeysOf(Writes(cs)) <==> cs[i].written && k in cs[i].now
  {
    if k in KeysOf(Writes(cs)) {
      var c :| c in cs && c.written && k in c.now;
      OnlyNamer(cs, i, k, c);
    }
    assert cs[i] in cs;
  }

  lemma RestNames(cs: seq<Change>, i: nat, k: Key)
    requires Separate(cs) && i < |cs| && cs[i].Names(k)
    ensures k in KeysOf(Rests(cs)) <==> !cs[i].gone && k in cs[i].now
  {
    if k in KeysOf(Rests(cs)) {
      var c :| c in cs && !c.gone && k in c.now;
      OnlyNamer(cs, i, k, c);
    }
    assert cs[i] in cs;
  }

  lemma OldNames(t: Table, cs: seq<Change>, scope: set<Key>, i: nat, k: Key)
    requires Separate(cs) && NamedIn(cs, scope) && Mirrors(t, Olds(cs), scope) && i < |cs| && cs[i].Names(k)
    ensures k in t <==> cs[i].was.Some? && k in cs[i].was.value
    ensures k in t ==> t[k] == cs[i].was.value[k]
  {
    assert cs[i] in cs && k in scope;
    if k in t {
      assert k in t.Keys * scope;
      var c :| c in cs && c.was.Some? && k in c.was.value;
      OnlyNamer(cs, i, k, c);
    }
    if cs[i].was.Some? && k in cs[i].was.value {
      assert cs[i].was.value in Olds(cs);
    }
  }

  lemma TidyIff(c: Change)
    requires !c.written ==> c.was.Some?
    ensures c.Tidy() <==> forall k :: c.Names(k) ==> c.After(k) == c.Wanted(k)
  {
    if forall k :: c.Names(k) ==> c.After(k) == c.Wanted(k) {
      forall k | c.was.Some? && k in c.was.value
        ensures k in c.now
      {
        assert c.Names(k);
      }
      if !c.gone && !c.written {
        forall k | k in c.now
          ensures k in c.was.value && c.was.value[k] == c.now[k]
        {
          assert c.Names(k);
        }
        assert c.was.value == c.now;
      }
    }
  }

  lemma WantedIsRest(t: Table, h: History, cs: seq<Change>, scope: set<Key>, i: nat, k: Key)
    requires Separate(cs) && NamedIn(cs, scope) && Mirrors(t, Olds(cs), scope) && Completed(h, Writes(cs), Gones(cs))
    requires Mirrors(Run(t, h), Rests(cs), scope) && i < |cs| && cs[i].Names(k)
    ensures cs[i].After(k) == cs[i].Wanted(k)
  {
    KeyAfter(t, h, cs, scope, i, k);
    RestNames(cs, i, k);
    assert k in scope && cs[i] in cs;
    assert k in Run(t, h).Keys * scope <==> k in KeysOf(Rests(cs));
    if cs[i].Wanted(k).Some? {
      assert cs[i].now in Rests(cs);
    }
  }

  lemma UnnamedStaysAway(t: Table, h: History, cs: seq<Change>, scope: set<Key>, k: Key)
    requires Mirrors(t, Olds(cs), scope) && Completed(h, Writes(cs), Gones(cs))
    requires k in scope && forall i :: 0 <= i < |cs| ==> !cs[i].Names(k)
    ensures k !in Run(t, h) && k !in KeysOf(Rests(cs))
  {
    assert forall c :: c in cs ==> !c.Names(k);
    assert k !in t.Keys * scope;
    OtherKeyUnchanged(t, h, Writes(cs), Gones(cs), k);
  }

  /** With rules that share no key, the table ends up with exactly those that are left if and only if each change is tidy. */
  lemma MirrorsIffTidy(t: Table, h: History, cs: seq<Change>, scope: set<Key>)
    requires Separate(cs) && NamedIn(cs, scope) && Mirrors(t, Olds(cs), scope) && Completed(h, Writes(cs), Gones(cs))
    ensures Mirrors(Run(t, h), Rests(cs), scope) <==> AllTidy(cs)
  {
    if Mirrors(Run(t, h), Rests(cs), scope) {
      forall i | 0 <= i < |cs|
        ensures cs[i].Tidy()
      {
        forall k | cs[i].Names(k)
          ensures cs[i].After(k) == cs[i].Wanted(k)
        {
          WantedIsRest(t, h, cs, scope, i, k);
        }
        TidyIff(cs[i]);
      }
    }
    if AllTidy(cs) {
      TidyMirrors(t, h, cs, scope);
    }
  }

  lemma TidyMirrors(t: Table, h: History, cs: seq<Change>, scope: set<Key>)
    requires Separate(cs) && NamedIn(cs, scope) && Mirrors(t, Olds(cs), scope) && Completed(h, Writes(cs), Gones(cs))
    requires AllTidy(cs)
    ensures Mirrors(Run(t, h), Rests(cs), scope)
  {
    RestsInScope(cs, scope);
    forall k
      ensures k in Run(t, h).Keys * scope <==> k in KeysOf(Rests(cs))
    {
      if i :| 0 <= i < |cs| && cs[i].Names(k) {
        TidyIff(cs[i]);
        KeyAfter(t, h, cs, scope, i, k);
        RestNames(cs, i, k);
      } else if k in scope {
        UnnamedStaysAway(t, h, cs, scope, k);
      }
    }
    forall m, k | m in Rests(cs) && k in m
      ensures k in Run(t, h) && Run(t, h)[k] == m[k]
    {
      var c :| c in cs && !c.gone && c.now == m;
      var i :| 0 <= i < |cs| && cs[i] == c;
      TidyIff(c);
      KeyAfter(t, h, cs, scope, i, k);
    }
  }

  lemma RestsInScope(cs: seq<Change>, scope: set<Key>)
    requires NamedIn(cs, scope)
    ensures KeysOf(Rests(cs)) <= scope
  {
    forall k | k in KeysOf(Rests(cs))
      ensures k in scope
    {
      var c :| c in cs && !c.gone && k in c.now;
      var i :| 0 <= i < |cs| && cs[i] == c;
      assert cs[i].Names(k);
    }
  }
}
