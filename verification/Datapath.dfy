/**
 The datapath tables and the command batches that program them. A batch's commands run
 concurrently; what the model keeps of the datapath is the order in which commands take effect.
 */
module Datapath {
  import opened Rules

  type Table = map<Key, Value>

  datatype Command = Put(key: Key, value: Value) | Del(key: Key)

  /** A command together with the position of its batch in the order of issue. */
  datatype Issued = Issued(batch: nat, cmd: Command)

  type History = seq<Issued>

  function Apply(t: Table, c: Command): (t': Table) {
    match c
    case Put(k, v) => t[k := v]
    case Del(k) => t - {k}
  }

  /** The table after every command of a history has taken effect, in order. */
  function Run(t: Table, h: History): (t': Table) {
    if h == [] then t else Apply(Run(t, h[..|h| - 1]), h[|h| - 1].cmd)
  }

  // ----- What the environment guarantees of a history -----

  /** Every command that takes effect belongs to the batch it was issued in. */
  ghost predicate Legal(h: History, batches: seq<set<Command>>) {
    forall i :: 0 <= i < |h| ==> h[i].batch < |batches| && h[i].cmd in batches[h[i].batch]
  }

  /** Commands on one key take effect in the order in which their batches were issued. */
  ghost predicate InIssueOrder(h: History) {
    forall i, j :: 0 <= i < j < |h| && h[i].cmd.key == h[j].cmd.key ==> h[i].batch <= h[j].batch
  }

  /** No command takes effect twice. Two rules of a batch may issue the same command, so this is not part of Legal. */
  ghost predicate Once(h: History) {
    forall i, j :: 0 <= i < j < |h| ==> h[i] != h[j]
  }

  /** Every command of the batch took effect: it finished and none of it was refused. */
  ghost predicate Finished(h: History, batches: seq<set<Command>>, b: nat)
    requires b < |batches|
  {
    forall c :: c in batches[b] ==> Issued(b, c) in h
  }

  // ----- The last command on a key decides -----

  ghost predicate LastOn(h: History, k: Key, i: nat) {
    && i < |h| && h[i].cmd.key == k
    && forall j :: i < j < |h| ==> h[j].cmd.key != k
  }

  lemma {:induction false} LastCommandDecides(t: Table, h: History, k: Key, i: nat)
    requires LastOn(h, k, i)
    ensures h[i].cmd.Put? ==> k in Run(t, h) && Run(t, h)[k] == h[i].cmd.value
    ensures h[i].cmd.Del? ==> k !in Run(t, h)
  {
    if i < |h| - 1 {
      LastCommandDecides(t, h[..|h| - 1], k, i);
    }
  }

  lemma {:induction false} UnnamedKeyUnchanged(t: Table, h: History, k: Key)
    requires forall i :: 0 <= i < |h| ==> h[i].cmd.key != k
    ensures k in Run(t, h) <==> k in t
    ensures k in t ==> Run(t, h)[k] == t[k]
  {
    if h != [] {
      UnnamedKeyUnchanged(t, h[..|h| - 1], k);
    }
  }

  lemma {:induction false} FindLast(h: History, k: Key) returns (i: nat)
    requires exists j :: 0 <= j < |h| && h[j].cmd.key == k
    ensures LastOn(h, k, i)
  {
    if h[|h| - 1].cmd.key == k {
      i := |h| - 1;
    } else {
      i := FindLast(h[..|h| - 1], k);
    }
  }

  /** The last command on a key belongs to the latest finished batch that names the key, or a later one. */
  lemma LastInLatestBatch(h: History, batches: seq<set<Command>>, b: nat, c: Command) returns (i: nat)
    requires b < |batches| && c in batches[b]
    requires InIssueOrder(h) && Finished(h, batches, b)
    ensures LastOn(h, c.key, i) && h[i].batch >= b
  {
    var j :| 0 <= j < |h| && h[j] == Issued(b, c);
    i := FindLast(h, c.key);
  }

  // ----- Rules as commands -----

  /** What programming a rule writes: its entries. */
  type Image = map<Key, Value>

  ghost function KeysOf(images: set<Image>): (ks: set<Key>) {
    set m, k | m in images && k in m :: k
  }

  ghost function AddCommands(images: set<Image>): (cs: set<Command>) {
    set m, k | m in images && k in m :: Put(k, m[k])
  }

  ghost function DelCommands(images: set<Image>): (cs: set<Command>) {
    set k | k in KeysOf(images) :: Del(k)
  }

  /** Two rules that share a key write the same value under it. */
  ghost predicate Agree(images: set<Image>) {
    forall m, n, k :: m in images && n in images && k in m && k in n ==> m[k] == n[k]
  }

  // ----- Joining a batch -----

  /** What the control client reports for one command: success, a failed call or a module's error code. */
  datatype CommandAnswer = Took | CallFailed | ModuleError(code: nat)

  datatype Outcome = Done | Unknown | Refused

  const ENOENT: nat := 2

  /** Only an answered error is a refusal, and "no such rule" is not one for a delete. */
  function CommandOutcome(isDelete: bool, answer: CommandAnswer): (o: Outcome) {
    match answer
    case CallFailed => Unknown
    case Took => Done
    case ModuleError(code) => if isDelete && code == ENOENT then Done else Refused
  }

  datatype Event = Report(ok: bool) | Boom

  /** What a join receives: reports of workers, and the timer, which goes off sooner or later. */
  type Reports = es: seq<Event> | Boom in es witness [Boom]

  /** Every worker reported before the timer. */
  predicate Completes(calls: nat, es: Reports) {
    calls <= |es| && forall i :: 0 <= i < calls ==> es[i].Report?
  }

  /** They all did, and all reports are good. */
  predicate Succeeds(calls: nat, es: Reports) {
    calls <= |es| && forall i :: 0 <= i < calls ==> es[i] == Report(true)
  }

  /**
   Waits for a number of reports or for the timer, whichever comes first. A batch completes
   exactly when all its reports precede the timer, and succeeds exactly when they are all good.
   */
  method GRPCJoin(calls: nat, events: Reports) returns (completed: bool, succeeded: bool)
    ensures completed <==> Completes(calls, events)
    ensures succeeded <==> Succeeds(calls, events)
  {
    var left, at := calls, 0;
    succeeded := true;
    while left > 0
      invariant 0 <= left && at + left == calls && at <= |events|
      invariant forall i :: 0 <= i < at ==> events[i].Report?
      invariant succeeded <==> forall i :: 0 <= i < at ==> events[i] == Report(true)
    {
      match events[at] {
        case Report(ok) =>
          if !ok {
            succeeded := false;
          }
          left, at := left - 1, at + 1;
        case Boom =>
          return false, false;
      }
    }
    completed := true;
  }
}
