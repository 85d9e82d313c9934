/** The inspector: a group of executors scheduled by priority, and its run loop. The switch
    into an executor is one step, described by what the executor did before it came back. */
module Inspectors {
  import opened Errors
  import opened FastPq

  datatype Status = Idle | Running(id: nat) | Pending(id: nat)

  datatype Executor = Executor(priority: nat, finished: bool)

  /** What one executor does between being switched in and switching back: the executors it
      registers, whether the inspector is marked pending, and whether it finishes. */
  datatype Slice = Slice(spawned: seq<(nat, nat)>, marked: bool, finishes: bool)

  ghost function Ids(spawned: seq<(nat, nat)>): set<nat> {
    set s | s in spawned :: s.0
  }

  lemma IdsAppend(spawned: seq<(nat, nat)>, s: (nat, nat))
    ensures Ids(spawned + [s]) == Ids(spawned) + {s.0}
  {
  }

  /** Why the run loop stopped: nothing was queued, the inspector was marked pending, or the
      given slices are used up and the loop is still going. */
  datatype Exit = Drained | Preempted | StillRunning

  /** The queue holds each registered executor exactly once, at its priority, except those in `out`. */
  ghost predicate Conserved(registry: map<nat, Executor>, entries: seq<(nat, nat)>, out: set<nat>) {
    && out <= registry.Keys
    && (forall e | e in entries :: e.1 in registry && e.1 !in out && e.0 == registry[e.1].priority)
    && (forall id | id in registry && id !in out :: (registry[id].priority, id) in entries)
    && (forall i, j | 0 <= i < j < |entries| :: entries[i].1 != entries[j].1)
  }

  /** What registering the given ids and priorities adds to the queue: known ids are refused. */
  ghost function Newcomers(known: set<nat>, spawned: seq<(nat, nat)>): seq<(nat, nat)> {
    if spawned == [] then []
    else
      var n := |spawned| - 1;
      Newcomers(known, spawned[..n]) +
      if spawned[n].0 in known || spawned[n].0 in Ids(spawned[..n]) then [] else [(spawned[n].1, spawned[n].0)]
  }

  lemma NewcomersLast(known: set<nat>, spawned: seq<(nat, nat)>, entries: seq<(nat, nat)>)
    requires spawned != []
    ensures var n := |spawned| - 1;
            entries + Newcomers(known, spawned) ==
            entries + Newcomers(known, spawned[..n]) +
            if spawned[n].0 in known + Ids(spawned[..n]) then [] else [(spawned[n].1, spawned[n].0)]
  {
  }

  /** What one round puts into a queue with front entry `front`. */
  ghost function Queues(front: (nat, nat), known: set<nat>, slice: Slice): seq<(nat, nat)> {
    Newcomers(known, slice.spawned) + if slice.finishes then [] else [front]
  }

  lemma QueuesGroup(rest: seq<(nat, nat)>, front: (nat, nat), known: set<nat>, slice: Slice)
    ensures rest + Queues(front, known, slice) ==
            rest + Newcomers(known, slice.spawned) + if slice.finishes then [] else [front]
  {
  }

  // ----- whole runs

  /** The queue of an inspector and its registered ids. */
  datatype Group = Group(entries: seq<(nat, nat)>, keys: set<nat>)

  /** The executor that runs next. */
  function Front(g: Group): nat
    requires g.entries != []
  {
    g.entries[FrontIndex(g.entries)].1
  }

  /** The front executor runs one slice: it leaves the queue, and joins it again behind the executors that it has
      registered, unless it finishes. */
  ghost function Next(g: Group, slice: Slice): Group
    requires g.entries != []
  {
    var k := FrontIndex(g.entries);
    Group(Without(g.entries, k) + Joining(g, slice),
          g.keys + Ids(slice.spawned) - if slice.finishes then {Front(g)} else {})
  }

  /** Round `j` of a run that passes through the groups `log`. */
  ghost predicate RoundAt(log: seq<Group>, slices: seq<Slice>, j: nat)
    requires j < |slices| && j + 1 < |log|
  {
    log[j].entries != [] && log[j + 1] == Next(log[j], slices[j])
  }

  /** The groups before, between and after the rounds of a run. */
  ghost predicate Logged(log: seq<Group>, slices: seq<Slice>) {
    0 < |log| <= |slices| + 1 && forall j: nat | j + 1 < |log| :: RoundAt(log, slices, j)
  }

  lemma LogOneMore(log: seq<Group>, slices: seq<Slice>)
    requires Logged(log, slices) && |log| <= |slices| && log[|log| - 1].entries != []
    ensures Logged(log + [Next(log[|log| - 1], slices[|log| - 1])], slices)
  {
    var more := log + [Next(log[|log| - 1], slices[|log| - 1])];
    forall j: nat | j + 1 < |more|
      ensures RoundAt(more, slices, j)
    {
      assert j + 1 < |log| ==> RoundAt(log, slices, j);
    }
  }

  /** What the first `n` rounds do to the queue. */
  ghost function Trace(log: seq<Group>, slices: seq<Slice>, n: nat): seq<Op<nat>>
    requires Logged(log, slices) && n < |log|
  {
    if n == 0 then []
    else
      assert RoundAt(log, slices, n - 1);
      Trace(log, slices, n - 1) + ([Get] + PutsOf(Joining(log[n - 1], slices[n - 1])))
  }

  /** What a round puts into the queue. */
  ghost function Joining(g: Group, slice: Slice): seq<(nat, nat)>
    requires g.entries != []
  {
    Queues(g.entries[FrontIndex(g.entries)], g.keys, slice)
  }

  lemma OneRound(now: seq<(nat, nat)>, added: seq<(nat, nat)>, i: nat)
    requires i < |now|
    ensures RunOps(now, [Get] + PutsOf(added)) == Without(now, FrontIndex(now)) + added
    ensures Track(now, [Get] + PutsOf(added), i).None? <==> i == FrontIndex(now)
  {
    GetOne(now, i);
    RunOpsAppend(now, [Get], PutsOf(added));
    RunPutsOf(RunOps(now, [Get]), added);
    TrackAppend(now, [Get], PutsOf(added), i);
    if i != FrontIndex(now) {
      TrackPutsOf(RunOps(now, [Get]), added, Track(now, [Get], i).value);
    }
  }

  lemma OneMoreRound(entries: seq<(nat, nat)>, trace: seq<Op<nat>>, g: Group, slice: Slice)
    requires g.entries != [] && g.entries == RunOps(entries, trace)
    ensures RunOps(entries, trace + ([Get] + PutsOf(Joining(g, slice)))) == Next(g, slice).entries
  {
    RunOpsAppend(entries, trace, [Get] + PutsOf(Joining(g, slice)));
    OneRound(g.entries, Joining(g, slice), 0);
  }

  /** The queue of executors is the stable priority queue after that trace. */
  ghost predicate FollowsTrace(log: seq<Group>, slices: seq<Slice>, n: nat)
    requires Logged(log, slices) && n < |log|
  {
    log[n].entries == RunOps(log[0].entries, Trace(log, slices, n))
  }

  lemma {:induction false} TraceRuns(log: seq<Group>, slices: seq<Slice>, n: nat)
    requires Logged(log, slices) && n < |log|
    ensures FollowsTrace(log, slices, n)
  {
    if n > 0 {
      TraceRuns(log, slices, n - 1);
      TraceRound(log, slices, n - 1);
    }
  }

  lemma TraceRound(log: seq<Group>, slices: seq<Slice>, n: nat)
    requires Logged(log, slices) && n + 1 < |log|
    requires FollowsTrace(log, slices, n)
    ensures FollowsTrace(log, slices, n + 1)
  {
    assert RoundAt(log, slices, n);
    var trace := Trace(log, slices, n);
    assert Trace(log, slices, n + 1) == trace + ([Get] + PutsOf(Joining(log[n], slices[n])));
    OneMoreRound(log[0].entries, trace, log[n], slices[n]);
  }

  /** Which entry a round takes out. */
  lemma OneMoreTaken(entries: seq<(nat, nat)>, trace: seq<Op<nat>>, added: seq<(nat, nat)>, i: nat)
    requires i < |entries| && RunOps(entries, trace) != []
    requires Track(entries, trace, i).Some? && Track(entries, trace + ([Get] + PutsOf(added)), i).None?
    ensures var now := RunOps(entries, trace); now[FrontIndex(now)] == entries[i]
  {
    TrackAppend(entries, trace, [Get] + PutsOf(added), i);
    Tracked(entries, trace, i);
    OneRound(RunOps(entries, trace), added, Track(entries, trace, i).value);
  }

  /** Entry `i` of the first queue has been taken out within the first `n` rounds. */
  ghost predicate Gone(log: seq<Group>, slices: seq<Slice>, n: nat, i: nat)
    requires Logged(log, slices) && n < |log| && i < |log[0].entries|
  {
    Track(log[0].entries, Trace(log, slices, n), i) == None
  }

  lemma TakenInRound(log: seq<Group>, slices: seq<Slice>, n: nat, i: nat)
    requires Logged(log, slices) && n + 1 < |log| && i < |log[0].entries|
    requires !Gone(log, slices, n, i) && Gone(log, slices, n + 1, i)
    ensures log[n].entries != [] && Front(log[n]) == log[0].entries[i].1
  {
    assert RoundAt(log, slices, n);
    TraceRuns(log, slices, n);
    OneMoreTaken(log[0].entries, Trace(log, slices, n), Joining(log[n], slices[n]), i);
  }

  lemma NoneGone(log: seq<Group>, slices: seq<Slice>, i: nat)
    requires Logged(log, slices) && i < |log[0].entries|
    ensures !Gone(log, slices, 0, i)
  {
  }

  /** An entry that is no longer queued belongs to an executor that has run, in round `j`. */
  lemma GoneHasRun(log: seq<Group>, slices: seq<Slice>, n: nat, i: nat) returns (j: nat)
    requires Logged(log, slices) && n < |log| && i < |log[0].entries| && Gone(log, slices, n, i)
    ensures j < n && log[j].entries != [] && Front(log[j]) == log[0].entries[i].1
  {
    NoneGone(log, slices, i);
    j := LastBefore(k requires 0 <= k <= n => Gone(log, slices, k, i), n);
    TakenInRound(log, slices, j, i);
  }

  /** A property that does not hold at zero begins to hold somewhere before a point where it holds. */
  lemma LastBefore(p: nat --> bool, n: nat) returns (j: nat)
    requires forall k: nat | k <= n :: p.requires(k)
    requires !p(0) && p(n)
    ensures j < n && !p(j) && p(j + 1)
  {
    j := n - 1;
    while p(j)
      invariant j < n && p(j + 1)
      decreases j
    {
      j := j - 1;
    }
  }

  /** Turns: a queued executor runs only after all those of equal or higher priority that were queued before it have
      run, whatever they register and whether or not they finish. In particular one that has just run does. */
  lemma TakesTurns(log: seq<Group>, slices: seq<Slice>, n: nat, m: nat, i: nat) returns (j: nat)
    requires Logged(log, slices) && n < |log| && log[n].entries != []
    requires i < m < |log[0].entries| && log[0].entries[i].0 >= log[0].entries[m].0
    requires Track(log[0].entries, Trace(log, slices, n), m) == Some(FrontIndex(log[n].entries))
    ensures j < n && log[j].entries != [] && Front(log[j]) == log[0].entries[i].1
  {
    TraceRuns(log, slices, n);
    NoOvertaking(log[0].entries, Trace(log, slices, n), i, m);
    j := GoneHasRun(log, slices, n, i);
  }

  /** No mark in the first `n` slices. */
  predicate Unmarked(slices: seq<Slice>, n: nat)
    requires n <= |slices|
  {
    n == 0 || (Unmarked(slices, n - 1) && !slices[n - 1].marked)
  }

  lemma TakeOut(registry: map<nat, Executor>, entries: seq<(nat, nat)>, k: nat)
    requires Conserved(registry, entries, {}) && k < |entries|
    ensures Conserved(registry, Without(entries, k), {entries[k].1})
  {
    var rest := Without(entries, k);
    var id := entries[k].1;
    forall e | e in rest
      ensures e in entries && e.1 != id
    {
      var i :| 0 <= i < |rest| && rest[i] == e;
      assert e == entries[if i < k then i else i + 1];
    }
    forall other | other in registry && other != id
      ensures (registry[other].priority, other) in rest
    {
      var i :| 0 <= i < |entries| && entries[i] == (registry[other].priority, other);
      assert rest[if i < k then i else i - 1] == entries[i];
    }
  }

  class Inspector {
    var status: Status
    var registry: map<nat, Executor>
    const queue: FastPriorityQueue<nat>

    ghost predicate Valid(out: set<nat>)
      reads this, queue, queue.queues
    {
      && queue.Valid()
      && Conserved(registry, queue.entries, out)
      && (forall id | id in registry :: registry[id].priority < NUM)
    }

    ghost function Contents(): Group
      reads this, queue
    {
      Group(queue.entries, registry.Keys)
    }

    constructor (root: nat, priority: nat)
      requires priority < NUM
      ensures Valid({}) && fresh(queue) && fresh(queue.queues) && status == Idle
      ensures registry == map[root := Executor(priority, false)] && queue.entries == [(priority, root)]
    {
      status := Idle;
      registry := map[root := Executor(priority, false)];
      queue := new FastPriorityQueue<nat>();
      new;
      queue.Enqueue(priority, root);
      assert queue.entries == [(priority, root)];
    }

    /** `register`: a known id is refused and changes nothing. */
    method Register(id: nat, priority: nat, ghost out: set<nat>) returns (r: Result<()>)
      requires Valid(out) && priority < NUM
      modifies this`registry, queue, queue.queues
      ensures Valid(out)
      ensures r == if id in old(registry) then Err(DuplicateExecutorId) else Ok(())
      ensures registry == if id in old(registry) then old(registry) else old(registry)[id := Executor(priority, false)]
      ensures queue.entries == old(queue.entries) + if id in old(registry) then [] else [(priority, id)]
    {
      if id in registry {
        return Err(DuplicateExecutorId);
      }
      registry := registry[id := Executor(priority, false)];
      queue.Enqueue(priority, id);
      return Ok(());
    }

    /** `mark_pending`: refused when idle, and idempotent. */
    method MarkPending() returns (r: Result<()>)
      modifies this`status
      ensures r == if old(status).Idle? then Err(InvalidInspectorStatus) else Ok(())
      ensures status == if old(status).Running? then Pending(old(status).id) else old(status)
    {
      if status.Idle? {
        return Err(InvalidInspectorStatus);
      }
      if status.Running? {
        status := Pending(status.id);
      }
      return Ok(());
    }

    method SetCurrent(id: Option<nat>)
      modifies this`status
      ensures status == match id
                        case Some(x) => Running(x)
                        case None => if old(status).Running? then Idle else old(status)
    {
      if id.Some? {
        status := Running(id.value);
      } else if status.Running? {
        status := Idle;
      }
    }

    /** The executors that `id` registers while it runs; already known ids are refused. */
    method RegisterAll(spawned: seq<(nat, nat)>, id: nat)
      requires Valid({id}) && forall s | s in spawned :: s.1 < NUM
      modifies this`registry, queue, queue.queues
      ensures Valid({id}) && registry.Keys == old(registry).Keys + Ids(spawned)
      ensures registry[id] == old(registry)[id]
      ensures queue.entries == old(queue.entries) + Newcomers(old(registry).Keys, spawned)
    {
      if spawned == [] {
        return;
      }
      var n := |spawned| - 1;
      assert spawned == spawned[..n] + [spawned[n]];
      IdsAppend(spawned[..n], spawned[n]);
      RegisterAll(spawned[..n], id);
      var _ := Register(spawned[n].0, spawned[n].1, {id});
      NewcomersLast(old(registry).Keys, spawned, old(queue.entries));
    }

    /** The switch: the executor registers others, may be marked pending by its window's end, and
        comes back, finished or not. */
    method Switch(id: nat, slice: Slice)
      requires Valid({id}) && status == Running(id)
      requires forall s | s in slice.spawned :: s.1 < NUM
      modifies this`status, this`registry, queue, queue.queues
      ensures Valid({id})
      ensures status == if slice.marked then Pending(id) else Running(id)
      ensures id in registry && registry[id] == Executor(old(registry)[id].priority, slice.finishes)
      ensures queue.entries == old(queue.entries) + Newcomers(old(registry).Keys, slice.spawned)
      ensures registry.Keys == old(registry).Keys + Ids(slice.spawned)
    {
      RegisterAll(slice.spawned, id);
      if slice.marked {
        var _ := MarkPending();
      }
      registry := registry[id := registry[id].(finished := slice.finishes)];
    }

    /** `dequeue`: takes the front executor; an empty queue means an empty registry. */
    method Take() returns (id: Option<nat>)
      requires Valid({})
      modifies queue, queue.queues
      ensures match id
              case None => Valid({}) && registry == map[] && old(queue.entries) == queue.entries == []
              case Some(x) =>
                && Valid({x}) && old(queue.entries) != []
                && var k := FrontIndex(old(queue.entries));
                   old(queue.entries)[k] == (registry[x].priority, x) && queue.entries == Without(old(queue.entries), k)
    {
      ghost var entries := queue.entries;
      var head := queue.Dequeue();
      if head.None? {
        return None;
      }
      ghost var k: nat :| IsFront(entries, k) && head == Some(entries[k]) && queue.entries == Without(entries, k);
      FrontUnique(entries, k, FrontIndex(entries));
      assert entries[k] in entries;
      TakeOut(registry, entries, k);
      return Some(head.value.1);
    }

    /** After the switch: a finished executor is unregistered, any other one queued again. */
    method PutBack(id: nat)
      requires Valid({id})
      modifies this`registry, queue, queue.queues
      ensures Valid({})
      ensures registry == if old(registry)[id].finished then old(registry) - {id} else old(registry)
      ensures queue.entries ==
              old(queue.entries) + if old(registry)[id].finished then [] else [(old(registry)[id].priority, id)]
    {
      if registry[id].finished {
        registry := registry - {id};
      } else {
        queue.Enqueue(registry[id].priority, id);
      }
    }

    /** One round of the run loop. None of its unwraps fails: the executor taken from the queue is
        registered, and still registered when it comes back. */
    method RunOne(slice: Slice) returns (ran: Option<nat>)
      requires Valid({}) && !status.Running?
      requires forall s | s in slice.spawned :: s.1 < NUM
      modifies this`status, this`registry, queue, queue.queues
      ensures Valid({}) && !status.Running?
      ensures ran.None? <==> old(registry) == map[]
      ensures match ran
              case None => old(Contents()).entries == [] && Contents() == old(Contents()) && status == old(status)
              case Some(id) =>
                && id in old(registry) && old(queue.entries) != [] && id == Front(old(Contents()))
                && Contents() == Next(old(Contents()), slice)
                && status == if slice.marked then Pending(id) else Idle
    {
      ran := Take();
      if ran.None? {
        return;
      }
      RunTaken(ran.value, slice);
    }

    /** The rest of the round, with the executor in hand. */
    method RunTaken(id: nat, slice: Slice)
      requires Valid({id}) && forall s | s in slice.spawned :: s.1 < NUM
      modifies this`status, this`registry, queue, queue.queues
      ensures Valid({}) && status == if slice.marked then Pending(id) else Idle
      ensures registry.Keys == old(registry).Keys + Ids(slice.spawned) - if slice.finishes then {id} else {}
      ensures queue.entries ==
              old(queue.entries) + Queues((old(registry)[id].priority, id), old(registry).Keys, slice)
    {
      QueuesGroup(queue.entries, (registry[id].priority, id), registry.Keys, slice);
      SetCurrent(Some(id));
      Switch(id, slice);
      SetCurrent(None);
      PutBack(id);
    }

    /** One round of a run with its log. */
    method Round(slices: seq<Slice>, n: nat, ghost log: seq<Group>) returns (id: Option<nat>, ghost more: seq<Group>)
      requires Valid({}) && !status.Running? && n < |slices|
      requires forall s | s in slices[n].spawned :: s.1 < NUM
      requires Logged(log, slices) && |log| == n + 1 && log[n] == Contents()
      modifies this`status, this`registry, queue, queue.queues
      ensures Valid({}) && !status.Running? && Logged(more, slices)
      ensures id.None? <==> old(registry) == map[]
      ensures match id
              case None => more == log && Contents() == old(Contents()) && status == old(status)
              case Some(x) =>
                && |more| == n + 2 && more[0] == log[0] && more[n + 1] == Contents()
                && status == if slices[n].marked then Pending(x) else Idle
    {
      id := RunOne(slices[n]);
      more := log;
      if id.Some? {
        LogOneMore(log, slices);
        more := log + [Next(log[n], slices[n])];
      }
    }

    /** `run`: rounds until nothing is queued or the inspector is pending. The registry is what the rounds make of
        it, so no executor is lost on the way, and the loop ends only with an empty registry or a pending mark. */
    method Run(slices: seq<Slice>) returns (exit: Exit, rounds: nat, ghost log: seq<Group>)
      requires Valid({}) && !status.Running?
      requires forall slice, s | slice in slices && s in slice.spawned :: s.1 < NUM
      modifies this`status, this`registry, queue, queue.queues
      ensures Valid({}) && !status.Running? && rounds <= |slices|
      ensures Logged(log, slices) && |log| == rounds + 1 && log[0] == old(Contents()) && log[rounds] == Contents()
      ensures match exit
              case Drained => registry == map[] && status == (if rounds == 0 then old(status) else Idle)
              case Preempted => status.Pending? && rounds > 0 && slices[rounds - 1].marked
              case StillRunning => rounds == |slices|
      ensures exit == Drained ==> (rounds == 0 <==> old(registry) == map[])
      ensures old(registry) == map[] && slices != [] ==> exit == Drained
      ensures Unmarked(slices, if exit == Preempted then rounds - 1 else rounds)
    {
      rounds, log := 0, [Contents()];
      while rounds < |slices|
        invariant 0 <= rounds <= |slices|
        invariant Valid({}) && !status.Running?
        invariant if rounds == 0 then status == old(status) && registry == old(registry)
                  else status == Idle && old(registry) != map[]
        invariant Logged(log, slices) && |log| == rounds + 1 && log[0] == old(Contents()) && log[rounds] == Contents()
        invariant Unmarked(slices, rounds)
      {
        var id;
        id, log := Round(slices, rounds, log);
        if id.None? {
          return Drained, rounds, log;
        }
        rounds := rounds + 1;
        if status.Pending? {
          return Preempted, rounds, log;
        }
      }
      return StillRunning, rounds, log;
    }

    /** The runtime's visit to an inspector: run it, then drop it when it is empty and idle and queue it again
        otherwise. A visit that drained the inspector drops it exactly when it was idle or had an executor to run; a
        preempted one never does. So an inspector that a visit emptied is dropped exactly when the slice that
        emptied it was not marked pending, and one that is empty and pending is never dropped again. */
    method Visit(slices: seq<Slice>) returns (dropped: bool, exit: Exit, rounds: nat, ghost log: seq<Group>)
      requires Valid({}) && !status.Running?
      requires forall slice, s | slice in slices && s in slice.spawned :: s.1 < NUM
      modifies this`status, this`registry, queue, queue.queues
      ensures Valid({}) && !status.Running? && rounds <= |slices|
      ensures Logged(log, slices) && |log| == rounds + 1 && log[0] == old(Contents()) && log[rounds] == Contents()
      ensures exit == Preempted <==> rounds > 0 && slices[rounds - 1].marked
      ensures exit == StillRunning ==> rounds == |slices|
      ensures exit == Drained ==> registry == map[] && (rounds == 0 <==> old(registry) == map[])
      ensures exit == Preempted ==> status.Pending?
      ensures exit == Drained ==> (dropped <==> old(status).Idle? || old(registry) != map[])
      ensures dropped ==> exit == Drained
      ensures exit != StillRunning && old(registry) != map[] && registry == map[] ==>
                rounds > 0 && (dropped <==> !slices[rounds - 1].marked)
      ensures old(registry) == map[] && old(status).Pending? && slices != [] ==>
                !dropped && exit == Drained && registry == map[] && status == old(status)
    {
      exit, rounds, log := Run(slices);
      dropped := exit != StillRunning && registry == map[] && status.Idle?;
    }
  }

  /** A run that strands an inspector: its only executor finishes after the pending mark. However often the
      inspector is visited from then on, it stays empty and pending and is not dropped. */
  method Stranded(visits: nat) returns (inspector: Inspector, drops: seq<bool>)
    ensures fresh(inspector) && inspector.Valid({}) && inspector.registry == map[] && inspector.status.Pending?
    ensures |drops| == 1 + visits && forall i | 0 <= i < |drops| :: !drops[i]
  {
    inspector := new Inspector(1, 0);
    assert 1 in inspector.registry;
    var finishing := Slice([], true, true);
    var dropped, exit, rounds, log := inspector.Visit([finishing]);
    assert exit == Preempted && RoundAt(log, [finishing], 0);
    assert inspector.registry.Keys == {1} + Ids([]) - {1};
    drops := [dropped];
    for i := 0 to visits
      invariant fresh(inspector) && inspector.Valid({}) && inspector.registry == map[] && inspector.status.Pending?
      invariant fresh(inspector.queue) && fresh(inspector.queue.queues)
      invariant |drops| == 1 + i && forall k | 0 <= k < |drops| :: !drops[k]
    {
      dropped, exit, rounds, log := inspector.Visit([Slice([], false, false)]);
      drops := drops + [dropped];
    }
  }
}
