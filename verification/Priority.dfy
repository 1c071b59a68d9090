/**
 Scheduling priorities of input gates. From each task module a depth-first pass walks the output
 gates, raises the priority of every input gate it reaches to the number of hops, and goes on from
 there unless the module is itself a task. Then every gate gets a unique index, input gates first.
 Gates keep their priorities from one update to the next, which cuts later passes short.
 */
module Priority {
  import opened Wrappers

  /**
   Input gates are numbered, and moduleOf says which module each belongs to. ogates lists, for
   each module, the input gates its output gates are connected to.
   */
  datatype Graph = Graph(moduleOf: seq<nat>, ogates: seq<seq<Option<nat>>>, isTask: seq<bool>)

  ghost predicate Valid(g: Graph) {
    && |g.isTask| == |g.ogates|
    && (forall x :: 0 <= x < |g.moduleOf| ==> g.moduleOf[x] < |g.ogates|)
    && (forall m, i :: 0 <= m < |g.ogates| && 0 <= i < |g.ogates[m]| && g.ogates[m][i].Some? ==> g.ogates[m][i].value < |g.moduleOf|)
  }

  /** Module m has an output gate connected to input gate y. */
  ghost predicate Feeds(g: Graph, m: nat, y: nat) {
    m < |g.ogates| && exists i :: 0 <= i < |g.ogates[m]| && g.ogates[m][i] == Some(y)
  }

  /** A packet entering at x leaves, through a module that is no task, for y. */
  ghost predicate Edge(g: Graph, x: nat, y: nat) {
    && x < |g.moduleOf| && g.moduleOf[x] < |g.isTask| && !g.isTask[g.moduleOf[x]]
    && Feeds(g, g.moduleOf[x], y)
  }

  /** A walk of hops from a task module, as the input gates it enters. */
  ghost predicate IsWalk(g: Graph, tasks: set<nat>, w: seq<nat>) {
    && w != []
    && (exists t :: t in tasks && Feeds(g, t, w[0]))
    && forall i :: 0 <= i < |w| - 1 ==> Edge(g, w[i], w[i + 1])
  }

  /**
   A walk that is not cut short by the priorities earlier updates left: at each gate it has made more
   hops than the gate's priority says.
   */
  ghost predicate IsOpenWalk(g: Graph, tasks: set<nat>, left: seq<nat>, w: seq<nat>) {
    IsWalk(g, tasks, w) && forall i :: 0 <= i < |w| ==> w[i] < |left| && left[w[i]] <= i
  }

  /** A walk starts at an output gate of a task module and leaves no other task module. */
  lemma WalkStopsAtTasks(g: Graph, tasks: set<nat>, w: seq<nat>, i: nat)
    requires IsWalk(g, tasks, w) && i < |w| - 1
    ensures w[i] < |g.moduleOf| && g.moduleOf[w[i]] < |g.isTask| && !g.isTask[g.moduleOf[w[i]]]
    ensures g.moduleOf[w[i]] < |g.ogates| && Some(w[i + 1]) in g.ogates[g.moduleOf[w[i]]]
    ensures exists t :: t in tasks && t < |g.ogates| && Some(w[0]) in g.ogates[t]
  {
    assert Edge(g, w[i], w[i + 1]);
  }

  ghost predicate Reached(g: Graph, tasks: set<nat>, left: seq<nat>, y: nat, hops: nat) {
    exists w :: IsOpenWalk(g, tasks, left, w) && |w| == hops && w[hops - 1] == y
  }

  /** The greatest number of hops to y of an open walk, or what was left if none makes more. */
  ghost predicate IsLongest(g: Graph, tasks: set<nat>, left: seq<nat>, y: nat, hops: nat)
    requires y < |left|
  {
    && left[y] <= hops && (hops > left[y] ==> Reached(g, tasks, left, y, hops))
    && forall w :: IsOpenWalk(g, tasks, left, w) && w[|w| - 1] == y ==> |w| <= hops
  }

  /** A numbering that increases along every edge: the graph of edges has no cycle. */
  ghost predicate Ranked(g: Graph, rank: seq<nat>) {
    |rank| == |g.moduleOf| && forall x: nat, y: nat :: Edge(g, x, y) && y < |rank| ==> rank[x] < rank[y]
  }

  ghost predicate Acyclic(g: Graph) {
    exists rank :: Ranked(g, rank)
  }

  // ----- The state of a pass -----

  /**
   Every priority that was raised above the one left over from earlier updates is the length of some
   walk, and at most the number of input gates.
   */
  ghost predicate Sound(g: Graph, tasks: set<nat>, left: seq<nat>, prio: seq<nat>) {
    && |left| == |prio|
    && forall y: nat :: y < |prio| && prio[y] > left[y] ==> Reached(g, tasks, left, y, prio[y]) && prio[y] <= |g.moduleOf|
  }

  /** Beyond the exempt gates, priorities increase along every edge from a gate that was raised. */
  ghost predicate Closed(g: Graph, left: seq<nat>, prio: seq<nat>, exempt: set<nat>) {
    && |left| == |prio|
    && forall x: nat, y: nat :: Edge(g, x, y) && x < |prio| && y < |prio| && x !in exempt && prio[x] > left[x] ==> prio[x] < prio[y]
  }

  ghost predicate Raised(before: seq<nat>, after: seq<nat>) {
    |before| == |after| && forall y :: 0 <= y < |before| ==> before[y] <= after[y]
  }

  lemma WalkExtends(g: Graph, tasks: set<nat>, left: seq<nat>, x: nat, hops: nat, y: nat)
    requires hops > 0 && Reached(g, tasks, left, x, hops) && Edge(g, x, y) && y < |left| && left[y] <= hops
    ensures Reached(g, tasks, left, y, hops + 1)
  {
    var w :| IsOpenWalk(g, tasks, left, w) && |w| == hops && w[hops - 1] == x;
    assert IsOpenWalk(g, tasks, left, w + [y]);
  }

  lemma FirstHop(g: Graph, tasks: set<nat>, left: seq<nat>, t: nat, y: nat)
    requires t in tasks && Feeds(g, t, y) && y < |left| && left[y] == 0
    ensures Reached(g, tasks, left, y, 1)
  {
    assert IsOpenWalk(g, tasks, left, [y]);
  }

  /** Raising one gate that is then exempt keeps the rest closed. */
  lemma RaiseKeepsClosed(g: Graph, left: seq<nat>, prio: seq<nat>, exempt: set<nat>, y: nat, p: nat)
    requires y < |prio| && prio[y] < p && Closed(g, left, prio, exempt)
    ensures Closed(g, left, prio[y := p], exempt + {y})
  {
  }

  /** The part of the contract that needs an acyclic graph. */
  ghost predicate Ahead(g: Graph, rank: Option<seq<nat>>, visited: set<nat>, from: nat) {
    rank.Some? ==>
      && Ranked(g, rank.value) && from < |rank.value|
      && forall v :: v in visited && v < |rank.value| ==> rank.value[v] <= rank.value[from]
  }

  ghost predicate Same(before: seq<nat>, after: seq<nat>, gates: set<nat>) {
    |before| == |after| && forall v :: v in gates && v < |before| ==> after[v] == before[v]
  }

  predicate IsBelow(x: nat, n: nat) {
    x < n
  }

  ghost function Below(n: nat): (s: set<nat>) {
    set x: nat | x < n && IsBelow(x, n)
  }

  lemma {:induction false} BelowCount(n: nat)
    ensures |Below(n)| == n
  {
    if n > 0 {
      BelowCount(n - 1);
      assert Below(n) == Below(n - 1) + {n - 1};
    }
  }

  lemma {:induction false} SubsetCount(a: set<nat>, b: set<nat>)
    requires a <= b
    ensures |a| <= |b|
  {
    if a != {} {
      var x :| x in a;
      SubsetCount(a - {x}, b - {x});
    }
  }

  /** A path without repetition is shorter than the number of gates as long as one is left. */
  lemma RoomOnPath(visited: set<nat>, next: nat, n: nat)
    requires visited <= Below(n) && next < n && next !in visited
    ensures |visited| < n && visited + {next} <= Below(n) && |visited + {next}| == |visited| + 1
  {
    BelowCount(n);
    assert next in Below(n);
    SubsetCount(visited + {next}, Below(n));
  }

  /** On a ranked graph no gate on the path can be the next one. */
  lemma NextIsNew(g: Graph, rank: Option<seq<nat>>, visited: set<nat>, from: nat, next: nat)
    requires rank.Some? && Ahead(g, rank, visited, from) && Edge(g, from, next) && next < |rank.value|
    ensures next !in visited && Ahead(g, rank, visited + {next}, next)
  {
  }

  /** Once every gate fed from x is above it, x need not be exempt. */
  lemma NoLongerExempt(g: Graph, left: seq<nat>, prio: seq<nat>, exempt: set<nat>, x: nat)
    requires x < |prio| && Closed(g, left, prio, exempt)
    requires forall y: nat :: Edge(g, x, y) && y < |prio| ==> prio[x] < prio[y]
    ensures Closed(g, left, prio, exempt - {x})
  {
  }

  /** The gates that the first n of the output gates are connected to have a priority of at least p. */
  ghost predicate Above(os: seq<Option<nat>>, n: nat, prio: seq<nat>, p: nat) {
    n <= |os| && forall j :: 0 <= j < n && os[j].Some? ==> os[j].value < |prio| && prio[os[j].value] >= p
  }

  lemma AboveKept(os: seq<Option<nat>>, n: nat, before: seq<nat>, after: seq<nat>, p: nat)
    requires Above(os, n, before, p) && Raised(before, after) && n < |os|
    ensures (os[n].Some? ==> os[n].value < |after| && after[os[n].value] >= p) ==> Above(os, n + 1, after, p)
  {
  }

  lemma RaisedTwice(a: seq<nat>, b: seq<nat>, c: seq<nat>, gates: set<nat>)
    requires Raised(a, b) && Raised(b, c)
    ensures Raised(a, c)
    ensures Same(a, b, gates) && Same(b, c, gates) ==> Same(a, c, gates)
  {
  }

  /** What a pass keeps: raised priorities are walked, and on a ranked graph closed but for the path. */
  ghost predicate Pass(
    g: Graph, tasks: set<nat>, left: seq<nat>, rank: Option<seq<nat>>, prio: seq<nat>, path: set<nat>)
  {
    && |prio| == |g.moduleOf| && Sound(g, tasks, left, prio) && Raised(left, prio)
    && (rank.Some? ==> Closed(g, left, prio, path))
  }

  /** Once every gate fed from x is above it, x need not be on the path. */
  lemma PathDone(
    g: Graph, tasks: set<nat>, left: seq<nat>, rank: Option<seq<nat>>, prio: seq<nat>, path: set<nat>, x: nat)
    requires Valid(g) && x < |prio| && Pass(g, tasks, left, rank, prio, path)
    requires var os := g.ogates[g.moduleOf[x]]; rank.Some? && !g.isTask[g.moduleOf[x]] ==> Above(os, |os|, prio, prio[x] + 1)
    ensures Pass(g, tasks, left, rank, prio, path - {x})
  {
    if rank.Some? {
      var os := g.ogates[g.moduleOf[x]];
      forall y: nat | Edge(g, x, y) && y < |prio|
        ensures prio[x] < prio[y]
      {
        var j :| 0 <= j < |os| && os[j] == Some(y);
      }
      NoLongerExempt(g, left, prio, path, x);
    }
  }

  // ----- The pass -----

  /**
   Walks on from an input gate already at priority - 1. It ends on every graph, because each
   call has one more gate on its path, and the path bounds the priority. On a ranked graph the gate it
   was called for is no longer exempt afterwards.
   */
  method PropagateIGatePriority(
    g: Graph, prio: array<nat>, igate: nat, visited: set<nat>, priority: nat,
    ghost tasks: set<nat>, ghost left: seq<nat>, ghost rank: Option<seq<nat>>)
    requires Valid(g) && prio.Length == |g.moduleOf| && igate < prio.Length
    requires igate in visited && visited <= Below(prio.Length) && |visited| == priority - 1
    requires priority > 1 && prio[igate] == priority - 1 && Reached(g, tasks, left, igate, priority - 1)
    requires Pass(g, tasks, left, rank, prio[..], visited) && Ahead(g, rank, visited, igate)
    modifies prio
    ensures Raised(old(prio[..]), prio[..]) && Same(old(prio[..]), prio[..], visited)
    ensures Pass(g, tasks, left, rank, prio[..], visited - {igate})
    decreases Below(prio.Length) - visited
  {
    var m := g.moduleOf[igate];
    if g.isTask[m] {
      PathDone(g, tasks, left, rank, prio[..], visited, igate);
      return;
    }
    var ogates := g.ogates[m];
    ghost var start := prio[..];
    for i := 0 to |ogates|
      invariant Raised(start, prio[..]) && Same(start, prio[..], visited)
      invariant Pass(g, tasks, left, rank, prio[..], visited)
      invariant rank.Some? ==> Above(ogates, i, prio[..], priority)
    {
      ghost var before := prio[..];
      if ogates[i].Some? {
        var next := ogates[i].value;
        assert Edge(g, igate, next);
        if rank.Some? {
          NextIsNew(g, rank, visited, igate, next);
        }
        if next !in visited && prio[next] < priority {
          Hop(g, prio, next, visited, priority, tasks, left, rank, igate);
        }
      }
      RaisedTwice(start, before, prio[..], visited);
      if rank.Some? {
        AboveKept(ogates, i, before, prio[..], priority);
      }
    }
    PathDone(g, tasks, left, rank, prio[..], visited, igate);
  }

  /** Raises the next gate and walks on from it, with it on the path meanwhile. */
  method Hop(
    g: Graph, prio: array<nat>, next: nat, visited: set<nat>, priority: nat,
    ghost tasks: set<nat>, ghost left: seq<nat>, ghost rank: Option<seq<nat>>, ghost from: nat)
    requires Valid(g) && prio.Length == |g.moduleOf| && next < prio.Length
    requires next !in visited && visited <= Below(prio.Length) && |visited| == priority - 1 && prio[next] < priority
    requires Reached(g, tasks, left, next, priority) || (priority > 1 && Reached(g, tasks, left, from, priority - 1) && Edge(g, from, next))
    requires Pass(g, tasks, left, rank, prio[..], visited) && Ahead(g, rank, visited + {next}, next)
    modifies prio
    ensures Raised(old(prio[..]), prio[..]) && Same(old(prio[..]), prio[..], visited) && prio[next] >= priority
    ensures Pass(g, tasks, left, rank, prio[..], visited)
    decreases Below(prio.Length) - visited, 0
  {
    if !Reached(g, tasks, left, next, priority) {
      WalkExtends(g, tasks, left, from, priority - 1, next);
    }
    if rank.Some? {
      RaiseKeepsClosed(g, left, prio[..], visited, next, priority);
    }
    RoomOnPath(visited, next, prio.Length);
    ghost var before := prio[..];
    prio[next] := priority;
    assert prio[..] == before[next := priority];
    PropagateIGatePriority(g, prio, next, visited + {next}, priority + 1, tasks, left, rank);
    assert visited + {next} - {next} == visited;
  }

  /** Every gate fed by a task module has been reached. */
  ghost predicate Started(g: Graph, tasks: set<nat>, prio: seq<nat>) {
    forall t, y: nat :: t in tasks && Feeds(g, t, y) && y < |prio| ==> prio[y] > 0
  }

  /** One task's pass. */
  method SetIGatePriority(g: Graph, prio: array<nat>, task: nat, ghost tasks: set<nat>, ghost left: seq<nat>, ghost rank: Option<seq<nat>>)
    requires Valid(g) && prio.Length == |g.moduleOf| && task < |g.ogates| && task in tasks
    requires Pass(g, tasks, left, rank, prio[..], {}) && (rank.Some? ==> Ranked(g, rank.value))
    modifies prio
    ensures Raised(old(prio[..]), prio[..]) && Pass(g, tasks, left, rank, prio[..], {})
    ensures Started(g, {task}, prio[..])
  {
    var ogates := g.ogates[task];
    ghost var start := prio[..];
    for i := 0 to |ogates|
      invariant Raised(start, prio[..]) && Pass(g, tasks, left, rank, prio[..], {}) && Above(ogates, i, prio[..], 1)
    {
      ghost var before := prio[..];
      if ogates[i].Some? {
        var next := ogates[i].value;
        if prio[next] < 1 {
          FirstHop(g, tasks, left, task, next);
          Hop(g, prio, next, {}, 1, tasks, left, rank, next);
        }
      }
      RaisedTwice(start, before, prio[..], {});
      AboveKept(ogates, i, before, prio[..], 1);
    }
    AboveIsStarted(g, task, prio[..]);
  }

  lemma AboveIsStarted(g: Graph, task: nat, prio: seq<nat>)
    requires task < |g.ogates| && Above(g.ogates[task], |g.ogates[task]|, prio, 1)
    ensures Started(g, {task}, prio)
  {
    forall t, y: nat | t in {task} && Feeds(g, t, y) && y < |prio|
      ensures prio[y] > 0
    {
      var j :| 0 <= j < |g.ogates[task]| && g.ogates[task][j] == Some(y);
    }
  }

  /**
   The passes of all tasks, in any order, over the priorities that earlier updates left. On every
   graph they end, and no priority grows beyond the number of input gates. On an acyclic one each
   priority is the length of the longest open walk, or what was left if that is more.
   */
  method AssignPriorities(g: Graph, tasks: seq<nat>, prio: array<nat>)
    requires Valid(g) && prio.Length == |g.moduleOf| && forall i :: 0 <= i < |tasks| ==> tasks[i] < |g.ogates|
    modifies prio
    ensures Sound(g, TaskSet(tasks), old(prio[..]), prio[..]) && Raised(old(prio[..]), prio[..])
    ensures Acyclic(g) ==> Closed(g, old(prio[..]), prio[..], {})
    ensures Acyclic(g) ==> AllLongest(g, TaskSet(tasks), old(prio[..]), prio[..])
  {
    ghost var left, rank: Option<seq<nat>> := prio[..], None;
    if Acyclic(g) {
      var r :| Ranked(g, r);
      rank := Some(r);
    }
    for i := 0 to |tasks|
      invariant Pass(g, TaskSet(tasks), left, rank, prio[..], {})
      invariant Started(g, TaskSet(tasks[..i]), prio[..])
    {
      ghost var before := prio[..];
      SetIGatePriority(g, prio, tasks[i], TaskSet(tasks), left, rank);
      assert tasks[..i + 1] == tasks[..i] + [tasks[i]];
      StartedTogether(g, TaskSet(tasks[..i]), tasks[i], before, prio[..]);
      assert TaskSet(tasks[..i + 1]) == TaskSet(tasks[..i]) + {tasks[i]};
    }
    assert tasks[..|tasks|] == tasks;
    if Acyclic(g) {
      LongestWalks(g, TaskSet(tasks), left, prio[..]);
    }
  }

  ghost function TaskSet(tasks: seq<nat>): (s: set<nat>) {
    set t | t in tasks
  }

  lemma StartedTogether(g: Graph, tasks: set<nat>, t: nat, before: seq<nat>, after: seq<nat>)
    requires Started(g, tasks, before) && Started(g, {t}, after) && Raised(before, after)
    ensures Started(g, tasks + {t}, after)
  {
    forall u, y: nat | u in tasks + {t} && Feeds(g, u, y) && y < |after|
      ensures after[y] > 0
    {
      if u in tasks {
        assert before[y] > 0;
      }
    }
  }

  /** Along an open walk closed priorities keep up with the hops. */
  lemma {:induction false} WalkKeepsUp(g: Graph, tasks: set<nat>, left: seq<nat>, prio: seq<nat>, w: seq<nat>, n: nat)
    requires Started(g, tasks, prio) && Closed(g, left, prio, {})
    requires IsOpenWalk(g, tasks, left, w) && n < |w|
    ensures w[n] < |prio| && prio[w[n]] >= n + 1
  {
    if n > 0 {
      WalkKeepsUp(g, tasks, left, prio, w, n - 1);
      assert Edge(g, w[n - 1], w[n - 1 + 1]);
    }
  }

  ghost predicate AllLongest(g: Graph, tasks: set<nat>, left: seq<nat>, prio: seq<nat>) {
    |left| == |prio| && forall y: nat :: y < |prio| ==> IsLongest(g, tasks, left, y, prio[y])
  }

  lemma LongestWalks(g: Graph, tasks: set<nat>, left: seq<nat>, prio: seq<nat>)
    requires Started(g, tasks, prio) && Closed(g, left, prio, {}) && Sound(g, tasks, left, prio) && Raised(left, prio)
    ensures AllLongest(g, tasks, left, prio)
  {
    forall y: nat, w | y < |prio| && IsOpenWalk(g, tasks, left, w) && w[|w| - 1] == y
      ensures |w| <= prio[y]
    {
      WalkKeepsUp(g, tasks, left, prio, w, |w| - 1);
    }
  }

  /** That number of hops is one number. */
  lemma LongestIsUnique(g: Graph, tasks: set<nat>, left: seq<nat>, y: nat, m: nat, n: nat)
    requires y < |left| && IsLongest(g, tasks, left, y, m) && IsLongest(g, tasks, left, y, n)
    ensures m == n
  {
    if m > left[y] {
      var w :| IsOpenWalk(g, tasks, left, w) && |w| == m && w[m - 1] == y;
      assert m <= n;
    }
    if n > left[y] {
      var w :| IsOpenWalk(g, tasks, left, w) && |w| == n && w[n - 1] == y;
      assert n <= m;
    }
  }

  /** All gates are new, and have the priority zero. */
  ghost predicate Fresh(left: seq<nat>) {
    forall y :: 0 <= y < |left| ==> left[y] == 0
  }

  /** Over fresh gates every walk is open, so the priority is the length of the longest walk of all. */
  lemma FreshIsOpen(g: Graph, tasks: set<nat>, left: seq<nat>, w: seq<nat>)
    requires Valid(g) && |left| == |g.moduleOf| && Fresh(left) && IsWalk(g, tasks, w)
    ensures IsOpenWalk(g, tasks, left, w)
  {
    forall i | 0 <= i < |w|
      ensures w[i] < |left|
    {
      assert i > 0 ==> Edge(g, w[i - 1], w[i - 1 + 1]);
    }
  }

  // ----- Unique indices -----

  /** An output gate: its module and its position there. */
  datatype OGate = OGate(m: nat, i: nat)

  ghost predicate IsOGate(g: Graph, o: OGate) {
    o.m < |g.ogates| && o.i < |g.ogates[o.m]| && g.ogates[o.m][o.i].Some?
  }

  ghost predicate IsIndex<T(!new)>(idx: map<T, nat>, n: nat) {
    exists a :: a in idx && idx[a] == n
  }

  /** A numbering of a set by each number of an interval once. */
  ghost predicate Numbers<T(!new)>(idx: map<T, nat>, gates: set<T>, from: nat, to: nat) {
    && idx.Keys == gates && from <= to
    && (forall a, b :: a in idx && b in idx && a != b ==> idx[a] != idx[b])
    && (forall a :: a in idx ==> from <= idx[a] < to)
    && (forall n: nat :: from <= n < to ==> IsIndex(idx, n))
  }

  lemma NumbersExtend<T(!new)>(idx: map<T, nat>, gates: set<T>, from: nat, to: nat, x: T)
    requires Numbers(idx, gates, from, to) && x !in gates
    ensures Numbers(idx[x := to], gates + {x}, from, to + 1)
  {
    var idx' := idx[x := to];
    forall n: nat | from <= n < to + 1
      ensures IsIndex(idx', n)
    {
      if n < to {
        assert IsIndex(idx, n);
        var a :| a in idx && idx[a] == n;
        assert idx'[a] == n;
      } else {
        assert idx'[x] == n;
      }
    }
  }

  lemma {:induction false} LeastExists(queue: set<nat>, prio: seq<nat>) returns (x: nat)
    requires queue != {} && forall y :: y in queue ==> y < |prio|
    ensures x in queue && forall y :: y in queue ==> prio[x] <= prio[y]
    decreases queue
  {
    x :| x in queue;
    if queue != {x} {
      var z := LeastExists(queue - {x}, prio);
      if prio[z] < prio[x] {
        x := z;
      }
    }
  }

  /** The connected input gates and the connected output gates of all modules. */
  method CollectGates(g: Graph) returns (igates: set<nat>, ogates: set<OGate>)
    requires Valid(g)
    ensures forall y: nat :: y in igates <==> exists m: nat :: Feeds(g, m, y)
    ensures forall o :: o in ogates <==> IsOGate(g, o)
  {
    igates, ogates := {}, {};
    for m := 0 to |g.ogates|
      invariant forall y: nat :: y in igates <==> exists k: nat :: k < m && Feeds(g, k, y)
      invariant forall o :: o in ogates <==> IsOGate(g, o) && o.m < m
    {
      ghost var igates0, ogates0 := igates, ogates;
      for i := 0 to |g.ogates[m]|
        invariant forall y: nat :: y in igates <==> y in igates0 || exists j :: 0 <= j < i && g.ogates[m][j] == Some(y)
        invariant forall o :: o in ogates <==> o in ogates0 || (IsOGate(g, o) && o.m == m && o.i < i)
      {
        if g.ogates[m][i].Some? {
          ogates := ogates + {OGate(m, i)};
          igates := igates + {g.ogates[m][i].value};
        }
      }
      assert forall y: nat :: y in igates <==> y in igates0 || Feeds(g, m, y);
    }
    assert forall m: nat, y: nat :: Feeds(g, m, y) ==> m < |g.ogates|;
  }

  /** Of two input gates the one with the lower priority has the lower index. */
  ghost predicate Ordered(idx: map<nat, nat>, prio: seq<nat>) {
    forall x, y :: x in idx && y in idx && x < |prio| && y < |prio| && prio[x] < prio[y] ==> idx[x] < idx[y]
  }

  /** Every popped gate is at most every queued one. */
  ghost predicate Split(prio: seq<nat>, popped: set<nat>, queue: set<nat>) {
    forall x, y :: x in popped && y in queue ==> x < |prio| && y < |prio| && prio[x] <= prio[y]
  }

  lemma SplitMove(prio: seq<nat>, popped: set<nat>, queue: set<nat>, top: nat)
    requires Split(prio, popped, queue) && top in queue && top < |prio|
    requires forall y :: y in queue ==> y < |prio| && prio[top] <= prio[y]
    ensures Split(prio, popped + {top}, queue - {top})
  {
  }

  lemma OrderedExtend(idx: map<nat, nat>, prio: seq<nat>, top: nat, count: nat)
    requires Ordered(idx, prio) && top < |prio| && top !in idx
    requires forall x :: x in idx ==> x < |prio| && prio[x] <= prio[top] && idx[x] < count
    ensures Ordered(idx[top := count], prio)
  {
  }

  /** The numbering after some gates have been popped and the others are queued. */
  ghost predicate Popped(prio: seq<nat>, igates: set<nat>, queue: set<nat>, idx: map<nat, nat>, count: nat) {
    && queue <= igates && Numbers(idx, igates - queue, 0, count)
    && Ordered(idx, prio) && Split(prio, igates - queue, queue)
  }

  lemma PopStep(prio: seq<nat>, igates: set<nat>, queue: set<nat>, idx: map<nat, nat>, count: nat, top: nat)
    requires Popped(prio, igates, queue, idx, count) && top in queue && top < |prio|
    requires forall y :: y in queue ==> y < |prio| && prio[top] <= prio[y]
    ensures Popped(prio, igates, queue - {top}, idx[top := count], count + 1)
  {
    var popped := igates - queue;
    assert igates - (queue - {top}) == popped + {top};
    NumbersExtend(idx, popped, 0, count, top);
    SplitMove(prio, popped, queue, top);
    forall x | x in idx
      ensures x < |prio| && prio[x] <= prio[top] && idx[x] < count
    {
      assert x in popped;
    }
    OrderedExtend(idx, prio, top, count);
  }

  method Top(prio: seq<nat>, queue: set<nat>) returns (top: nat)
    requires queue != {} && forall y :: y in queue ==> y < |prio|
    ensures top in queue && forall y :: y in queue ==> prio[top] <= prio[y]
  {
    ghost var least := LeastExists(queue, prio);
    top :| top in queue && forall y :: y in queue ==> prio[top] <= prio[y];
  }

  /** Pops input gates off the priority queue, lowest priority first. */
  method NumberIGates(prio: seq<nat>, igates: set<nat>) returns (idx: map<nat, nat>, count: nat)
    requires forall y :: y in igates ==> y < |prio|
    ensures Numbers(idx, igates, 0, count) && Ordered(idx, prio)
  {
    idx, count := map[], 0;
    var queue := igates;
    while queue != {}
      invariant Popped(prio, igates, queue, idx, count)
      decreases |queue|
    {
      var top := Top(prio, queue);
      PopStep(prio, igates, queue, idx, count, top);
      queue, idx, count := queue - {top}, idx[top := count], count + 1;
    }
    assert igates - queue == igates;
  }

  method NumberOGates(ogates: set<OGate>, from: nat) returns (idx: map<OGate, nat>, count: nat)
    ensures Numbers(idx, ogates, from, count)
  {
    idx, count := map[], from;
    var queue := ogates;
    while queue != {}
      invariant queue <= ogates && Numbers(idx, ogates - queue, from, count)
      decreases |queue|
    {
      var top :| top in queue;
      NumbersExtend(idx, ogates - queue, from, count, top);
      assert ogates - (queue - {top}) == ogates - queue + {top};
      queue, idx, count := queue - {top}, idx[top := count], count + 1;
    }
    assert ogates - queue == ogates;
  }

  /**
   Numbers the connected input gates by ascending priority and then the output gates: together
   they get each index from 0 up to the count exactly once.
   */
  method SetUniqueGateIdx(g: Graph, prio: seq<nat>)
    returns (igateIdx: map<nat, nat>, ogateIdx: map<OGate, nat>, igateCnt: nat, gateCnt: nat)
    requires Valid(g) && |prio| == |g.moduleOf|
    ensures forall y: nat :: y in igateIdx <==> exists m: nat :: Feeds(g, m, y)
    ensures forall o :: o in ogateIdx <==> IsOGate(g, o)
    ensures Numbers(igateIdx, igateIdx.Keys, 0, igateCnt) && Numbers(ogateIdx, ogateIdx.Keys, igateCnt, gateCnt)
    ensures Ordered(igateIdx, prio)
  {
    var igates, ogates := CollectGates(g);
    igateIdx, igateCnt := NumberIGates(prio, igates);
    ogateIdx, gateCnt := NumberOGates(ogates, igateCnt);
  }

  /** Some walk from a task module enters at x. */
  ghost predicate OnWalk(g: Graph, tasks: set<nat>, x: nat) {
    exists w :: IsWalk(g, tasks, w) && w[|w| - 1] == x
  }

  lemma OnWalkIsFed(g: Graph, tasks: set<nat>, x: nat)
    requires OnWalk(g, tasks, x)
    ensures exists m: nat :: Feeds(g, m, x)
  {
    var w :| IsWalk(g, tasks, w) && w[|w| - 1] == x;
    if |w| > 1 {
      assert Edge(g, w[|w| - 2], w[|w| - 1]);
    }
  }

  /** The priorities increase along every edge a task's walk can take. */
  ghost predicate Increasing(g: Graph, tasks: set<nat>, prio: seq<nat>) {
    forall x: nat, y: nat :: OnWalk(g, tasks, x) && Edge(g, x, y) && x < |prio| && y < |prio| ==> prio[x] < prio[y]
  }

  /**
   Downstream of every gate on a walk, each gate has more left over than that gate, or an open walk to
   it makes more hops than that.
   */
  ghost predicate Overtaken(g: Graph, tasks: set<nat>, left: seq<nat>) {
    forall x: nat, y: nat :: OnWalk(g, tasks, x) && Edge(g, x, y) && x < |left| && y < |left| ==>
      left[x] < left[y] || exists w :: IsOpenWalk(g, tasks, left, w) && w[|w| - 1] == y && left[x] < |w|
  }

  /** When an update puts the gates in order, whatever priorities earlier ones left. */
  lemma IncreasingIffOvertaken(g: Graph, tasks: set<nat>, left: seq<nat>, prio: seq<nat>)
    requires Closed(g, left, prio, {}) && AllLongest(g, tasks, left, prio)
    ensures Increasing(g, tasks, prio) <==> Overtaken(g, tasks, left)
  {
    forall x: nat, y: nat | Edge(g, x, y) && x < |prio| && y < |prio|
      ensures prio[x] < prio[y] <==>
              left[x] < left[y] || exists w :: IsOpenWalk(g, tasks, left, w) && w[|w| - 1] == y && left[x] < |w|
    {
      OvertakenOnEdge(g, tasks, left, prio, x, y);
    }
  }

  lemma OvertakenOnEdge(g: Graph, tasks: set<nat>, left: seq<nat>, prio: seq<nat>, x: nat, y: nat)
    requires Closed(g, left, prio, {}) && AllLongest(g, tasks, left, prio)
    requires Edge(g, x, y) && x < |prio| && y < |prio|
    ensures prio[x] < prio[y] <==>
            left[x] < left[y] || exists w :: IsOpenWalk(g, tasks, left, w) && w[|w| - 1] == y && left[x] < |w|
  {
    assert IsLongest(g, tasks, left, x, prio[x]) && IsLongest(g, tasks, left, y, prio[y]);
    if prio[x] < prio[y] && prio[y] > left[y] {
      var w :| IsOpenWalk(g, tasks, left, w) && |w| == prio[y] && w[prio[y] - 1] == y;
      assert left[x] < |w|;
    }
  }

  /** With fresh gates that is so on every acyclic graph. */
  lemma FreshIsOvertaken(g: Graph, tasks: set<nat>, left: seq<nat>)
    requires Valid(g) && |left| == |g.moduleOf| && Fresh(left)
    ensures Overtaken(g, tasks, left)
  {
    forall x: nat, y: nat | OnWalk(g, tasks, x) && Edge(g, x, y)
      ensures exists w :: IsOpenWalk(g, tasks, left, w) && w[|w| - 1] == y && 0 < |w|
    {
      var w :| IsWalk(g, tasks, w) && w[|w| - 1] == x;
      var longer := w + [y];
      assert IsWalk(g, tasks, longer);
      FreshIsOpen(g, tasks, left, longer);
    }
  }

  /** Input gates are numbered in the order of their priorities, so upstream ones first if these increase. */
  ghost predicate InOrder(g: Graph, tasks: set<nat>, idx: map<nat, nat>) {
    forall x: nat, y: nat :: OnWalk(g, tasks, x) && Edge(g, x, y) ==> x in idx && y in idx && idx[x] < idx[y]
  }

  lemma UpstreamFirst(g: Graph, tasks: set<nat>, prio: seq<nat>, idx: map<nat, nat>)
    requires Valid(g) && |prio| == |g.moduleOf| && Ordered(idx, prio) && Increasing(g, tasks, prio)
    requires forall y: nat :: y in idx <==> exists m: nat :: Feeds(g, m, y)
    ensures InOrder(g, tasks, idx)
  {
    forall x: nat, y: nat | OnWalk(g, tasks, x) && Edge(g, x, y)
      ensures x in idx && y in idx && idx[x] < idx[y]
    {
      OnWalkIsFed(g, tasks, x);
    }
  }

  /**
   The whole update: priorities from every task module, then unique numbers for all connected gates.
   On an acyclic graph upstream gates come first exactly if what earlier updates left is overtaken,
   as it is when all gates are fresh. Exactly, that is, up to ties, which the queue breaks as it likes.
   */
  method UpdateTaskGraph(g: Graph, tasks: seq<nat>, prio: array<nat>)
    returns (igateIdx: map<nat, nat>, ogateIdx: map<OGate, nat>, igateCnt: nat, gateCnt: nat)
    requires Valid(g) && prio.Length == |g.moduleOf| && forall i :: 0 <= i < |tasks| ==> tasks[i] < |g.ogates|
    modifies prio
    ensures forall y: nat :: y in igateIdx <==> exists m: nat :: Feeds(g, m, y)
    ensures forall o :: o in ogateIdx <==> IsOGate(g, o)
    ensures Numbers(igateIdx, igateIdx.Keys, 0, igateCnt) && Numbers(ogateIdx, ogateIdx.Keys, igateCnt, gateCnt)
    ensures Sound(g, TaskSet(tasks), old(prio[..]), prio[..]) && Ordered(igateIdx, prio[..])
    ensures Acyclic(g) ==> AllLongest(g, TaskSet(tasks), old(prio[..]), prio[..])
    ensures Acyclic(g) ==> (Increasing(g, TaskSet(tasks), prio[..]) <==> Overtaken(g, TaskSet(tasks), old(prio[..])))
    ensures Acyclic(g) && Overtaken(g, TaskSet(tasks), old(prio[..])) ==> InOrder(g, TaskSet(tasks), igateIdx)
    ensures Acyclic(g) && Fresh(old(prio[..])) ==> InOrder(g, TaskSet(tasks), igateIdx)
  {
    ghost var left := prio[..];
    AssignPriorities(g, tasks, prio);
    igateIdx, ogateIdx, igateCnt, gateCnt := SetUniqueGateIdx(g, prio[..]);
    if Acyclic(g) {
      IncreasingIffOvertaken(g, TaskSet(tasks), left, prio[..]);
      if Fresh(left) {
        FreshIsOvertaken(g, TaskSet(tasks), left);
      }
      if Increasing(g, TaskSet(tasks), prio[..]) {
        UpstreamFirst(g, TaskSet(tasks), prio[..], igateIdx);
      }
    }
  }

  // ----- Priorities left over -----

  /** A task module, a module it feeds, and a third that the second is connected to, or not yet. */
  function Chain(joined: bool): (g: Graph) {
    Graph([1, 2], [[Some(0)], [if joined then Some(1) else None], []], [true, false, false])
  }

  lemma ChainFacts(joined: bool)
    ensures Valid(Chain(joined)) && Acyclic(Chain(joined))
    ensures Feeds(Chain(joined), 0, 0) && (Feeds(Chain(joined), 1, 1) <==> joined)
    ensures forall m: nat, y: nat :: Feeds(Chain(joined), m, y) ==> (m == 0 && y == 0) || (m == 1 && y == 1 && joined)
  {
    var g := Chain(joined);
    assert g.ogates[0][0] == Some(0);
    assert joined ==> g.ogates[1][0] == Some(1);
    assert Ranked(g, [0, 1]);
  }

  lemma ChainIsWalked(joined: bool)
    ensures OnWalk(Chain(joined), {0}, 0) && (joined ==> Edge(Chain(joined), 0, 1))
  {
    ChainFacts(joined);
    assert IsWalk(Chain(joined), {0}, [0]);
  }

  lemma UnfedIsNotReached(g: Graph, tasks: set<nat>, left: seq<nat>, y: nat, hops: nat)
    requires forall m: nat :: !Feeds(g, m, y)
    ensures !(hops > 0 && Reached(g, tasks, left, y, hops))
  {
    if w :| IsWalk(g, tasks, w) && w[|w| - 1] == y {
      OnWalkIsFed(g, tasks, y);
    }
  }

  /** After the first update the gate of the module that is not connected yet has no priority. */
  lemma FirstUpdate(left: seq<nat>, prio: seq<nat>)
    requires |left| == 2 && Fresh(left) && AllLongest(Chain(false), {0}, left, prio)
    ensures prio[0] > 0 && prio[1] == 0
  {
    ChainFacts(false);
    assert IsLongest(Chain(false), {0}, left, 0, prio[0]) && IsLongest(Chain(false), {0}, left, 1, prio[1]);
    UnfedIsNotReached(Chain(false), {0}, left, 1, prio[1]);
    assert IsWalk(Chain(false), {0}, [0]);
    FreshIsOpen(Chain(false), {0}, left, [0]);
  }

  /** No walk is open any more, so the second update raises nothing. */
  lemma SecondUpdate(left: seq<nat>, prio: seq<nat>)
    requires |left| == 2 && left[0] > 0 && left[1] == 0 && AllLongest(Chain(true), {0}, left, prio)
    ensures prio[1] < prio[0]
  {
    ChainFacts(true);
    forall w | IsWalk(Chain(true), {0}, w)
      ensures !IsOpenWalk(Chain(true), {0}, left, w)
    {
      assert w[0] == 0;
    }
    assert IsLongest(Chain(true), {0}, left, 0, prio[0]) && IsLongest(Chain(true), {0}, left, 1, prio[1]);
  }

  /** An update of the chain before its last module is connected. */
  method UpdateEarly() returns (prio: array<nat>)
    ensures fresh(prio) && prio.Length == 2 && prio[0] > 0 && prio[1] == 0
  {
    prio := new nat[2](_ => 0);
    ChainFacts(false);
    assert TaskSet([0]) == {0};
    ghost var zeros := prio[..];
    var igateIdx, ogateIdx, igateCnt, gateCnt := UpdateTaskGraph(Chain(false), [0], prio);
    FirstUpdate(zeros, prio[..]);
  }

  /**
   An update does not start over: gates keep the priorities of the one before. A module that is
   connected after an update is reached through a gate that has its priority already, so the second
   update stops there, and numbers the gate downstream first.
   */
  method StaleOrder() returns (igateIdx: map<nat, nat>)
    ensures Acyclic(Chain(true)) && OnWalk(Chain(true), {0}, 0) && Edge(Chain(true), 0, 1)
    ensures 0 in igateIdx && 1 in igateIdx && igateIdx[1] < igateIdx[0]
  {
    var prio := UpdateEarly();
    ChainFacts(true);
    ChainIsWalked(true);
    assert TaskSet([0]) == {0};
    ghost var left := prio[..];
    var ogateIdx, igateCnt, gateCnt;
    igateIdx, ogateIdx, igateCnt, gateCnt := UpdateTaskGraph(Chain(true), [0], prio);
    SecondUpdate(left, prio[..]);
  }
}
