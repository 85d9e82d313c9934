/** The per-CPU queue of timed events: a registry by id and a heap by (time, id) that must agree, the hardware
    timer that must follow the earliest event, and the interrupt handler that drains due events. */
module TimerQueues {
  import opened Errors
  import Clock

  /** An event as the heap orders it: time first, then serial id. */
  type Slot = (nat, nat)

  predicate Earlier(a: Slot, b: Slot) {
    a.0 < b.0 || (a.0 == b.0 && a.1 < b.1)
  }

  /** The heap, in no particular order, holds exactly the registered events, each once. */
  ghost predicate Agree(registry: map<nat, nat>, heap: seq<Slot>) {
    && (forall s | s in heap :: s.1 in registry && registry[s.1] == s.0)
    && (forall id | id in registry :: (registry[id], id) in heap)
    && (forall i, j | 0 <= i < j < |heap| :: heap[i].1 != heap[j].1)
  }

  ghost predicate IsLeast(heap: seq<Slot>, s: Slot) {
    s in heap && forall t | t in heap :: t == s || Earlier(s, t)
  }

  /** What the timer of the owning CPU should hold: the earliest time, or `None` for `Duration::MAX`. */
  ghost predicate Follows(timer: Option<nat>, heap: seq<Slot>) {
    match timer
    case None => heap == []
    case Some(time) => (exists s | s in heap :: s.0 == time) && forall s | s in heap :: time <= s.0
  }

  function Retain(heap: seq<Slot>, id: nat): seq<Slot> {
    if heap == [] then []
    else Retain(heap[..|heap| - 1], id) + if heap[|heap| - 1].1 == id then [] else [heap[|heap| - 1]]
  }

  lemma {:induction false} RetainMembers(heap: seq<Slot>, id: nat, s: Slot)
    ensures s in Retain(heap, id) <==> s in heap && s.1 != id
    decreases |heap|
  {
    if heap != [] {
      RetainMembers(heap[..|heap| - 1], id, s);
      assert heap == heap[..|heap| - 1] + [heap[|heap| - 1]];
    }
  }

  lemma {:induction false} RetainDistinct(heap: seq<Slot>, id: nat)
    requires forall i, j | 0 <= i < j < |heap| :: heap[i].1 != heap[j].1
    ensures var r := Retain(heap, id); forall i, j | 0 <= i < j < |r| :: r[i].1 != r[j].1
    decreases |heap|
  {
    if heap != [] {
      var n := |heap| - 1;
      RetainDistinct(heap[..n], id);
      var r := Retain(heap[..n], id);
      forall i | 0 <= i < |r|
        ensures r[i].1 != heap[n].1
      {
        RetainMembers(heap[..n], id, r[i]);
        var k :| 0 <= k < n && heap[k] == r[i];
      }
    }
  }

  lemma RetainAgrees(registry: map<nat, nat>, heap: seq<Slot>, id: nat)
    requires Agree(registry, heap)
    ensures Agree(registry - {id}, Retain(heap, id))
  {
    RetainDistinct(heap, id);
    forall s: Slot
      ensures s in Retain(heap, id) <==> s in heap && s.1 != id
    {
      RetainMembers(heap, id, s);
    }
  }

  /** An event other than `id` is at least as early. */
  ghost predicate AnotherAsEarly(registry: map<nat, nat>, id: nat)
    requires id in registry
  {
    exists x: nat :: x in registry && x != id && registry[x] <= registry[id]
  }

  lemma AsEarlyFollows(before: map<nat, nat>, heap: seq<Slot>, heap': seq<Slot>, id: nat, timer: Option<nat>)
    requires Agree(before, heap) && id in before && Agree(before - {id}, heap')
    requires Follows(timer, heap) && AnotherAsEarly(before, id)
    ensures Follows(timer, heap')
  {
    var x: nat :| x in before && x != id && before[x] <= before[id];
    assert (before[id], id) in heap && (before[x], x) in heap;
    var s: Slot :| s in heap && s.0 == timer.value;
    var y := if s.1 == id then x else s.1;
    assert y in before - {id} && (before[y], y) in heap';
    forall e: Slot | e in heap'
      ensures timer.value <= e.0
    {
      assert (before[e.1], e.1) in heap;
    }
  }

  lemma FollowsAsEarly(before: map<nat, nat>, heap: seq<Slot>, heap': seq<Slot>, id: nat, timer: Option<nat>)
    requires Agree(before, heap) && id in before && Agree(before - {id}, heap')
    requires Follows(timer, heap) && Follows(timer, heap')
    ensures AnotherAsEarly(before, id)
  {
    assert (before[id], id) in heap;
    var e: Slot :| e in heap' && e.0 == timer.value;
    assert e.1 in before - {id} && before[e.1] <= before[id];
  }

  /** A timer that is left alone while an event is removed stays right exactly when another is as early. */
  lemma StillFollows(before: map<nat, nat>, heap: seq<Slot>, heap': seq<Slot>, id: nat, timer: Option<nat>)
    requires Agree(before, heap) && id in before && Agree(before - {id}, heap') && Follows(timer, heap)
    ensures Follows(timer, heap') <==> AnotherAsEarly(before, id)
  {
    if AnotherAsEarly(before, id) {
      AsEarlyFollows(before, heap, heap', id, timer);
    }
    if Follows(timer, heap') {
      FollowsAsEarly(before, heap, heap', id, timer);
    }
  }

  /** After the least event has fired, all that is queued comes after it. */
  lemma FiredFirst(registry: map<nat, nat>, heap: seq<Slot>, registry': map<nat, nat>, heap': seq<Slot>, s: Slot,
                   horizon: nat, gone: set<nat>)
    requires Agree(registry, heap) && Agree(registry', heap') && IsLeast(heap, s) && s.0 <= horizon
    requires Evolves(registry, registry', horizon, gone) && (s.1 in registry' ==> registry'[s.1] > horizon)
    ensures forall x | x in heap' :: Earlier(s, x)
  {
    forall x | x in heap'
      ensures Earlier(s, x)
    {
      if x.0 <= horizon {
        assert (registry[x.1], x.1) in heap;
      }
    }
  }

  ghost function Due(registry: map<nat, nat>, horizon: nat): set<nat> {
    set id | id in registry && registry[id] <= horizon
  }

  lemma DueShrinks(registry: map<nat, nat>, registry': map<nat, nat>, horizon: nat, gone: set<nat>, id: nat)
    requires Evolves(registry, registry', horizon, gone) && id in registry && registry[id] <= horizon
    requires id in registry' ==> registry'[id] > horizon
    ensures Due(registry', horizon) < Due(registry, horizon)
  {
    assert id in Due(registry, horizon) && id !in Due(registry', horizon);
  }

  lemma OrderAppend(fired: seq<Slot>, s: Slot)
    requires InOrder(fired) && forall i | 0 <= i < |fired| :: Earlier(fired[i], s)
    ensures InOrder(fired + [s])
  {
  }

  /** What the drain loop has done so far: it took up old events, in order, each one due, all that is queued comes
      after them, and only what is in `gone` has gone. */
  ghost predicate Drained(before: map<nat, nat>, now: map<nat, nat>, heap: seq<Slot>, tried: seq<Slot>,
                          clock: nat -> nat, horizon: nat, gone: set<nat>) {
    && InOrder(tried)
    && (forall k | 0 <= k < |tried| :: tried[k].0 <= clock(k))
    && (forall s | s in tried :: s.1 in before && before[s.1] == s.0)
    && Behind(heap, tried)
    && Evolves(before, now, horizon, gone)
  }

  ghost predicate Behind(heap: seq<Slot>, fired: seq<Slot>) {
    forall s: Slot, p: Slot | s in heap && p in fired :: Earlier(p, s)
  }

  lemma BehindStep(heap: seq<Slot>, heap': seq<Slot>, fired: seq<Slot>, s: Slot)
    requires Behind(heap, fired) && s in heap && forall x | x in heap' :: Earlier(s, x)
    ensures Behind(heap', fired + [s])
  {
  }

  /** A turn in which `s` was the least event that was due. */
  lemma DrainedStep(before: map<nat, nat>, now: map<nat, nat>, heap: seq<Slot>, tried: seq<Slot>, clock: nat -> nat,
                    horizon: nat, gone: set<nat>, now': map<nat, nat>, heap': seq<Slot>, s: Slot, more: set<nat>)
    requires Drained(before, now, heap, tried, clock, horizon, gone) && clock(|tried|) <= horizon
    requires Agree(now, heap) && s in heap && s.0 <= clock(|tried|) && forall x | x in heap' :: Earlier(s, x)
    requires Evolves(now, now', horizon, more)
    ensures Drained(before, now', heap', tried + [s], clock, horizon, gone + more)
  {
    EvolvesTwice(before, now, now', horizon, gone, more);
    OrderAppend(tried, s);
    BehindStep(heap, heap', tried, s);
  }

  /** A turn that only lost events. */
  lemma DrainedLess(before: map<nat, nat>, now: map<nat, nat>, heap: seq<Slot>, tried: seq<Slot>, clock: nat -> nat,
                    horizon: nat, gone: set<nat>, now': map<nat, nat>, heap': seq<Slot>, more: set<nat>)
    requires Drained(before, now, heap, tried, clock, horizon, gone) && Agree(now, heap) && Agree(now', heap')
    requires Evolves(now, now', horizon, more) && forall id | id in now' :: id in now && now'[id] == now[id]
    ensures Drained(before, now', heap', tried, clock, horizon, gone + more)
  {
    EvolvesTwice(before, now, now', horizon, gone, more);
    forall x: Slot | x in heap'
      ensures x in heap
    {
      assert (now[x.1], x.1) in heap;
    }
  }

  // ----- what a callback does

  /** The registry without the listed ids. */
  ghost function Dropped(registry: map<nat, nat>, ids: seq<nat>): map<nat, nat> {
    map id | id in registry && id !in ids :: registry[id]
  }

  /** The registry with one new event per time, under the next serial ids. */
  ghost function Added(registry: map<nat, nat>, nextId: nat, times: seq<nat>): map<nat, nat> {
    if times == [] then registry
    else Added(registry, nextId, times[..|times| - 1])[nextId + |times| - 1 := times[|times| - 1]]
  }

  /** The registry after event `id` has fired. */
  ghost function AfterFire(registry: map<nat, nat>, nextId: nat, id: nat, effect: Effect): map<nat, nat> {
    Added(Dropped(registry - {id}, effect.cancels), nextId, effect.creates)
  }

  lemma {:induction false} AddedHas(registry: map<nat, nat>, nextId: nat, times: seq<nat>, id: nat)
    requires forall x | x in registry :: x < nextId
    ensures id < nextId ==> (id in Added(registry, nextId, times) <==> id in registry)
    ensures id < nextId && id in registry ==> Added(registry, nextId, times)[id] == registry[id]
    ensures nextId <= id ==> (id in Added(registry, nextId, times) <==> id < nextId + |times|)
    ensures nextId <= id < nextId + |times| ==> Added(registry, nextId, times)[id] == times[id - nextId]
    decreases |times|
  {
    if times != [] {
      AddedHas(registry, nextId, times[..|times| - 1], id);
    }
  }

  /** Of the events there were, exactly the one that fired and those its callback cancels are gone; and there is
      exactly one new event per time that the callback creates, with that time. */
  lemma FireEffect(registry: map<nat, nat>, nextId: nat, id: nat, effect: Effect, x: nat)
    requires forall y | y in registry :: y < nextId
    ensures var after := AfterFire(registry, nextId, id, effect);
            && (x < nextId ==> (x in after <==> x in registry && x != id && x !in effect.cancels))
            && (x < nextId && x in after ==> after[x] == registry[x])
            && (nextId <= x ==> (x in after <==> x < nextId + |effect.creates|))
            && (nextId <= x < nextId + |effect.creates| ==> after[x] == effect.creates[x - nextId])
  {
    AddedHas(Dropped(registry - {id}, effect.cancels), nextId, effect.creates, x);
  }

  /** Registry and next id after the turns of a drain loop: in each, other CPUs' cancels, and the callback if the event
      taken up fired. */
  ghost function AfterTurns(registry: map<nat, nat>, nextId: nat, tried: seq<Slot>, fires: seq<bool>,
                            effects: nat -> Effect, remote: nat -> Remote): (map<nat, nat>, nat)
    requires |tried| == |fires|
  {
    if tried == [] then (registry, nextId)
    else
      var n := |tried| - 1;
      var (r, next) := AfterTurns(registry, nextId, tried[..n], fires[..n], effects, remote);
      AfterTurn(r, next, tried[n].1, fires[n], effects(tried[n].1), remote(n))
  }

  ghost function AfterTurn(registry: map<nat, nat>, nextId: nat, id: nat, fires: bool, effect: Effect, r: Remote)
    : (map<nat, nat>, nat)
  {
    var left := Less(registry, r.early + r.late);
    if fires then (AfterFire(left, nextId, id, effect), nextId + |effect.creates|) else (left, nextId)
  }

  lemma AfterTurnSplit(registry: map<nat, nat>, nextId: nat, id: nat, fires: bool, effect: Effect, r: Remote)
    ensures var left := Less(Less(registry, r.early), r.late);
            AfterTurn(registry, nextId, id, fires, effect, r) ==
            if fires then (AfterFire(left, nextId, id, effect), nextId + |effect.creates|) else (left, nextId)
  {
    KeepsAppend(registry, r.early, r.late);
  }

  lemma AfterTurnsAppend(registry: map<nat, nat>, nextId: nat, tried: seq<Slot>, fires: seq<bool>,
                         effects: nat -> Effect, remote: nat -> Remote, s: Slot, f: bool)
    requires |tried| == |fires|
    ensures var (r, next) := AfterTurns(registry, nextId, tried, fires, effects, remote);
            AfterTurns(registry, nextId, tried + [s], fires + [f], effects, remote) ==
            AfterTurn(r, next, s.1, f, effects(s.1), remote(|tried|))
  {
    assert (tried + [s])[..|tried|] == tried && (fires + [f])[..|tried|] == fires;
  }

  // ----- cancels from other CPUs while the loop runs

  datatype Cancel = Cancel(id: nat, caller: nat)

  /** What other CPUs cancel in one turn of the loop: before it looks, and between its look and the timeout. */
  datatype Remote = Remote(early: seq<Cancel>, late: seq<Cancel>)

  ghost function IdSet(cancels: seq<Cancel>): set<nat> {
    set c | c in cancels :: c.id
  }

  /** The events left after some cancels. */
  ghost function Less(registry: map<nat, nat>, cancels: seq<Cancel>): map<nat, nat> {
    if cancels == [] then registry else Less(registry - {cancels[0].id}, cancels[1..])
  }

  /** Each of the cancels hits an unknown event, or leaves another one that is as early. */
  ghost predicate KeepsTimer(registry: map<nat, nat>, cancels: seq<Cancel>) {
    cancels == [] ||
    (&& (cancels[0].id in registry ==> AnotherAsEarly(registry, cancels[0].id))
     && KeepsTimer(registry - {cancels[0].id}, cancels[1..]))
  }

  lemma {:induction false} KeepsAppend(registry: map<nat, nat>, a: seq<Cancel>, b: seq<Cancel>)
    ensures Less(registry, a + b) == Less(Less(registry, a), b)
    ensures KeepsTimer(registry, a + b) <==> KeepsTimer(registry, a) && KeepsTimer(Less(registry, a), b)
    decreases |a|
  {
    if a == [] {
      assert a + b == b;
    } else {
      assert (a + b)[0] == a[0] && (a + b)[1..] == a[1..] + b;
      KeepsAppend(registry - {a[0].id}, a[1..], b);
    }
  }

  lemma {:induction false} LessHas(registry: map<nat, nat>, cancels: seq<Cancel>, id: nat)
    ensures id in Less(registry, cancels) <==> id in registry && id !in IdSet(cancels)
    ensures id in Less(registry, cancels) ==> Less(registry, cancels)[id] == registry[id]
    decreases |cancels|
  {
    if cancels != [] {
      LessHas(registry - {cancels[0].id}, cancels[1..], id);
      assert id in IdSet(cancels) <==> id == cancels[0].id || id in IdSet(cancels[1..]) by {
        assert cancels == [cancels[0]] + cancels[1..];
        assert forall c :: c in cancels <==> c == cancels[0] || c in cancels[1..];
        assert id == cancels[0].id ==> cancels[0] in cancels && id in IdSet(cancels);
      }
    }
  }

  lemma LessEvolves(registry: map<nat, nat>, cancels: seq<Cancel>, horizon: nat)
    ensures Evolves(registry, Less(registry, cancels), horizon, IdSet(cancels))
    ensures forall id | id in Less(registry, cancels) :: id in registry && Less(registry, cancels)[id] == registry[id]
  {
    forall id: nat
      ensures id in Less(registry, cancels) <==> id in registry && id !in IdSet(cancels)
      ensures id in Less(registry, cancels) ==> Less(registry, cancels)[id] == registry[id]
    {
      LessHas(registry, cancels, id);
    }
  }

  /** What the turns of the loop remove: the events they took up, what the handlers of those that fired cancelled, and
      what other CPUs cancelled meanwhile. */
  ghost function Gone(tried: seq<Slot>, fires: seq<bool>, effects: nat -> Effect, remote: nat -> Remote): set<nat>
    requires |tried| == |fires|
  {
    if tried == [] then {}
    else
      var n := |tried| - 1;
      Gone(tried[..n], fires[..n], effects, remote) + TurnGone(tried[n], fires[n], effects, remote(n))
  }

  /** An event that was taken up fires unless another CPU cancelled it after the look. */
  ghost predicate FiresOk(tried: seq<Slot>, fires: seq<bool>, remote: nat -> Remote)
    requires |tried| == |fires|
  {
    tried == [] ||
    var n := |tried| - 1;
    FiresOk(tried[..n], fires[..n], remote) && (fires[n] <==> tried[n].1 !in IdSet(remote(n).late))
  }

  predicate AnyFired(fires: seq<bool>) {
    fires != [] && (fires[|fires| - 1] || AnyFired(fires[..|fires| - 1]))
  }

  lemma FiresAppend(tried: seq<Slot>, fires: seq<bool>, remote: nat -> Remote, s: Slot, f: bool)
    requires |tried| == |fires| && FiresOk(tried, fires, remote) && (f <==> s.1 !in IdSet(remote(|tried|).late))
    ensures FiresOk(tried + [s], fires + [f], remote) && (AnyFired(fires + [f]) <==> f || AnyFired(fires))
  {
    assert (tried + [s])[..|tried|] == tried && (fires + [f])[..|tried|] == fires;
  }

  lemma {:induction false} FiresAt(tried: seq<Slot>, fires: seq<bool>, remote: nat -> Remote, k: nat)
    requires |tried| == |fires| && FiresOk(tried, fires, remote) && k < |tried|
    ensures fires[k] <==> tried[k].1 !in IdSet(remote(k).late)
    decreases |tried|
  {
    if k < |tried| - 1 {
      FiresAt(tried[..|tried| - 1], fires[..|fires| - 1], remote, k);
    }
  }

  ghost function TurnGone(s: Slot, fires: bool, effects: nat -> Effect, r: Remote): set<nat> {
    IdSet(r.early) + IdSet(r.late) + {s.1} + (if fires then set id | id in effects(s.1).cancels else {})
  }

  lemma GoneAppend(tried: seq<Slot>, fires: seq<bool>, effects: nat -> Effect, remote: nat -> Remote, s: Slot, f: bool)
    requires |tried| == |fires|
    ensures Gone(tried + [s], fires + [f], effects, remote) ==
            Gone(tried, fires, effects, remote) + TurnGone(s, f, effects, remote(|tried|))
  {
    assert (tried + [s])[..|tried|] == tried && (fires + [f])[..|tried|] == fires;
  }

  /** An event that is left after cancels was queued before. */
  lemma LessHeap(registry: map<nat, nat>, heap: seq<Slot>, cancels: seq<Cancel>, heap': seq<Slot>, s: Slot)
    requires Agree(registry, heap) && Agree(Less(registry, cancels), heap') && s in heap'
    ensures s in heap
  {
    LessHas(registry, cancels, s.1);
    assert (registry[s.1], s.1) in heap;
  }

  lemma LeastIsFirst(looked: map<nat, nat>, heap: seq<Slot>, now: map<nat, nat>, heap': seq<Slot>, s: Slot,
                     horizon: nat, gone: set<nat>)
    requires Agree(looked, heap) && Agree(now, heap') && IsLeast(heap, s) && s.0 <= horizon
    requires Evolves(looked, now, horizon, gone) && (s.1 in now ==> now[s.1] > horizon)
    ensures forall x | x in heap' :: Earlier(s, x)
    ensures Due(now, horizon) < Due(looked, horizon)
  {
    FiredFirst(looked, heap, now, heap', s, horizon, gone);
    DueShrinks(looked, now, horizon, gone, s.1);
  }

  lemma DueLess(registry: map<nat, nat>, cancels: seq<Cancel>, horizon: nat)
    ensures Due(Less(registry, cancels), horizon) <= Due(registry, horizon)
  {
    LessEvolves(registry, cancels, horizon);
  }

  /** The timer is armed earlier than anything queued. */
  ghost predicate Overdue(timer: Option<nat>, heap: seq<Slot>) {
    timer.Some? && forall s | s in heap :: timer.value < s.0
  }

  lemma OverdueNotFollows(timer: Option<nat>, heap: seq<Slot>)
    requires Overdue(timer, heap)
    ensures !Follows(timer, heap)
  {
  }

  /** A timer that was right and is not after a removal is armed too early. */
  lemma LostIsOverdue(before: map<nat, nat>, heap: seq<Slot>, heap': seq<Slot>, id: nat, timer: Option<nat>)
    requires Agree(before, heap) && id in before && Agree(before - {id}, heap')
    requires Follows(timer, heap) && !Follows(timer, heap')
    ensures Overdue(timer, heap')
  {
    assert (before[id], id) in heap;
    forall s: Slot | s in heap'
      ensures timer.value < s.0
    {
      assert (before[s.1], s.1) in heap;
    }
  }

  /** The hardware timers, one per CPU. */
  class Hal {
    var timers: map<nat, Option<nat>>

    constructor ()
      ensures timers == map[]
    {
      timers := map[];
    }

    method SetTimer(cpu: nat, time: Option<nat>)
      modifies this
      ensures timers == old(timers)[cpu := time]
    {
      timers := timers[cpu := time];
    }
  }

  /** What a timeout handler does to its own CPU's queue: events it cancels, then times of events it creates. */
  datatype Effect = Effect(cancels: seq<nat>, creates: seq<nat>)

  /** Each fired event comes before the next in (time, id) order. */
  ghost predicate InOrder(fired: seq<Slot>) {
    forall i, j | 0 <= i < j < |fired| :: Earlier(fired[i], fired[j])
  }

  /** So events fire by time, and those of the same time in the order of their creation. */
  lemma FiresByTime(fired: seq<Slot>, i: nat, j: nat)
    requires InOrder(fired) && i < j < |fired|
    ensures fired[i].0 <= fired[j].0 && (fired[i].0 == fired[j].0 ==> fired[i].1 < fired[j].1)
  {
    assert Earlier(fired[i], fired[j]);
  }

  /** `after` holds events of `before`, unchanged, and new ones later than `horizon`; what is gone from `before`
      is in `gone`. */
  ghost predicate Evolves(before: map<nat, nat>, after: map<nat, nat>, horizon: nat, gone: set<nat>) {
    && (forall id | id in after :: (id in before && before[id] == after[id]) || after[id] > horizon)
    && (forall id | id in before :: (id in after && after[id] == before[id]) || id in gone)
  }

  lemma EvolvesTwice(a: map<nat, nat>, b: map<nat, nat>, c: map<nat, nat>,
                     horizon: nat, gone: set<nat>, gone': set<nat>)
    requires Evolves(a, b, horizon, gone) && Evolves(b, c, horizon, gone')
    ensures Evolves(a, c, horizon, gone + gone')
  {
  }

  class TimedEventQueue {
    const cpu: nat
    const hal: Hal
    var registry: map<nat, nat>
    var heap: seq<Slot>
    /** The next serial id. */
    var nextId: nat

    ghost predicate Valid()
      reads this
    {
      Agree(registry, heap) && forall id | id in registry :: id < nextId
    }

    ghost predicate Coherent()
      reads this, hal
    {
      cpu in hal.timers && Follows(hal.timers[cpu], heap)
    }

    /** The owning CPU's timer is armed for an event that is gone, earlier than all that is queued. */
    ghost predicate Stale()
      reads this, hal
    {
      cpu in hal.timers && Overdue(hal.timers[cpu], heap)
    }

    constructor (cpu: nat, hal: Hal)
      ensures Valid() && this.cpu == cpu && this.hal == hal && registry == map[] && heap == [] && nextId == 0
    {
      this.cpu, this.hal := cpu, hal;
      registry, heap, nextId := map[], [], 0;
    }

    /** `peek`: the least (time, id); its registry lookup always succeeds. */
    method Peek() returns (s: Option<Slot>)
      requires Valid()
      ensures match s
              case None => heap == []
              case Some(x) => IsLeast(heap, x) && x.1 in registry && registry[x.1] == x.0
    {
      if heap == [] {
        return None;
      }
      var best := heap[0];
      for i := 1 to |heap|
        invariant best in heap
        invariant forall k | 0 <= k < i :: heap[k] == best || Earlier(best, heap[k])
      {
        if Earlier(heap[i], best) {
          best := heap[i];
        }
        assert heap[i] == best || Earlier(best, heap[i]) by {
          assert heap[i].0 == best.0 && heap[i].1 == best.1 ==> heap[i] == best;
        }
      }
      return Some(best);
    }

    method PeekOutdated(now: nat) returns (s: Option<Slot>)
      requires Valid()
      ensures match s
              case None => forall x | x in heap :: x.0 > now
              case Some(x) => IsLeast(heap, x) && x.0 <= now && x.1 in registry && registry[x.1] == x.0
    {
      s := Peek();
      if s.Some? && s.value.0 > now {
        s := None;
      }
    }

    /** `update_timer` writes the timer of the CPU it runs on, whichever queue it looks at. */
    method UpdateTimer(caller: nat)
      requires Valid()
      modifies hal
      ensures hal.timers.Keys == old(hal.timers).Keys + {caller}
      ensures Follows(hal.timers[caller], heap)
      ensures forall c | c in old(hal.timers) && c != caller :: hal.timers[c] == old(hal.timers)[c]
    {
      var least := Peek();
      if least.Some? {
        hal.SetTimer(caller, Some(least.value.0));
      } else {
        hal.SetTimer(caller, None);
      }
    }

    /** `TimedEvent::create` and `add`: always on the owning CPU, with a new serial id. */
    method Create(time: nat) returns (id: nat)
      requires Valid()
      modifies this, hal
      ensures Valid() && Coherent()
      ensures id == old(nextId) && id !in old(registry) && registry == old(registry)[id := time] && nextId == id + 1
      ensures heap == old(heap) + [(time, id)] && hal.timers.Keys == old(hal.timers).Keys + {cpu}
      ensures forall c | c in old(hal.timers) && c != cpu :: c in hal.timers && hal.timers[c] == old(hal.timers)[c]
    {
      id := nextId;
      nextId := nextId + 1;
      registry := registry[id := time];
      heap := heap + [(time, id)];
      UpdateTimer(cpu);
    }

    /** `remove`: succeeds exactly for a registered event. On the owning CPU the timer follows. On another CPU
        the owner's timer is left alone, and the caller's own timer is overwritten with this queue's time; so a
        coherent owner stays coherent exactly when the caller is the owner, the event is not registered, or
        another event is at least as early. */
    method Remove(id: nat, caller: nat) returns (r: Result<()>)
      requires Valid()
      modifies this, hal
      ensures Valid() && registry == old(registry) - {id} && nextId == old(nextId)
      ensures r == if id in old(registry) then Ok(()) else Err(InvalidTimedEventStatus)
      ensures r.Err? ==> heap == old(heap) && hal.timers == old(hal.timers)
      ensures r.Ok? ==> heap == Retain(old(heap), id) && hal.timers.Keys == old(hal.timers).Keys + {caller}
      ensures r.Ok? ==> Follows(hal.timers[caller], heap)
      ensures forall c | c in old(hal.timers) && c != caller :: c in hal.timers && hal.timers[c] == old(hal.timers)[c]
      ensures old(Coherent()) ==>
                (Coherent() <==> caller == cpu || id !in old(registry) || AnotherAsEarly(old(registry), id))
      ensures caller != cpu && (old(Coherent()) || old(Stale())) && !Coherent() ==> Stale()
      ensures caller != cpu && old(Stale()) ==> Stale()
    {
      if id !in registry {
        return Err(InvalidTimedEventStatus);
      }
      RetainAgrees(registry, heap, id);
      ghost var before, heap0, timer := registry, heap, if cpu in hal.timers then hal.timers[cpu] else None;
      registry := registry - {id};
      heap := Retain(heap, id);
      UpdateTimer(caller);
      if Follows(timer, heap0) {
        StillFollows(before, heap0, heap, id, timer);
        if !Follows(timer, heap) {
          LostIsOverdue(before, heap0, heap, id, timer);
        }
      }
      assert forall x | x in heap :: x in heap0 by {
        forall x | x in heap
          ensures x in heap0
        {
          RetainMembers(heap0, id, x);
        }
      }
      return Ok(());
    }

    method CancelAll(ids: seq<nat>, ghost horizon: nat)
      requires Valid()
      modifies this, hal
      ensures Valid() && (old(Coherent()) ==> Coherent())
      ensures registry == Dropped(old(registry), ids) && nextId == old(nextId)
      ensures Evolves(old(registry), registry, horizon, set id | id in ids)
    {
      for i := 0 to |ids|
        invariant Valid() && (old(Coherent()) ==> Coherent())
        invariant registry == Dropped(old(registry), ids[..i]) && nextId == old(nextId)
      {
        assert ids[..i + 1] == ids[..i] + [ids[i]];
        var _ := Remove(ids[i], cpu);
      }
      assert ids[..|ids|] == ids;
    }

    method CreateAll(times: seq<nat>, ghost horizon: nat)
      requires Valid() && forall t | t in times :: t > horizon
      modifies this, hal
      ensures Valid() && (old(Coherent()) || times != [] ==> Coherent())
      ensures registry == Added(old(registry), old(nextId), times) && nextId == old(nextId) + |times|
      ensures Evolves(old(registry), registry, horizon, {})
    {
      for i := 0 to |times|
        invariant Valid() && (old(Coherent()) || i > 0 ==> Coherent())
        invariant registry == Added(old(registry), old(nextId), times[..i]) && nextId == old(nextId) + i
        invariant Evolves(old(registry), registry, horizon, {})
      {
        assert times[i] in times && times[..i + 1][..i] == times[..i];
        var _ := Create(times[i]);
      }
      assert times[..|times|] == times;
    }

    /** `timeout` of a queued event on its own CPU: removed, then its callback runs. The timer follows the queue
        afterwards even if it did not before. */
    method Fire(s: Slot, effect: Effect, ghost horizon: nat)
      requires Valid() && s.1 in registry
      requires forall t | t in effect.creates :: t > horizon
      modifies this, hal
      ensures Valid() && Coherent() && (s.1 in registry ==> registry[s.1] > horizon)
      ensures registry == AfterFire(old(registry), old(nextId), s.1, effect)
      ensures nextId == old(nextId) + |effect.creates|
      ensures Evolves(old(registry), registry, horizon, {s.1} + set id | id in effect.cancels)
    {
      var _ := Remove(s.1, cpu);
      assert Evolves(old(registry), registry, horizon, {s.1});
      ghost var r1 := registry;
      CancelAll(effect.cancels, horizon);
      ghost var r2 := registry;
      CreateAll(effect.creates, horizon);
      EvolvesTwice(r1, r2, registry, horizon, set id | id in effect.cancels, {});
      EvolvesTwice(old(registry), r1, registry, horizon, {s.1}, (set id | id in effect.cancels) + {});
    }

    /** Cancels by other CPUs: they leave the owner's timer alone, which stays right exactly as long as each of them
        leaves an event that is as early, and is armed too early from then on. */
    method RemoteAll(cancels: seq<Cancel>)
      requires Valid() && forall c | c in cancels :: c.caller != cpu
      modifies this, hal
      ensures Valid() && registry == Less(old(registry), cancels) && nextId == old(nextId)
      ensures old(Coherent()) ==> if KeepsTimer(old(registry), cancels) then Coherent() else Stale()
      ensures old(Stale()) ==> Stale()
      ensures cancels == [] ==> heap == old(heap) && hal.timers == old(hal.timers)
    {
      if cancels == [] {
        return;
      }
      var _ := Remove(cancels[0].id, cancels[0].caller);
      RemoteAll(cancels[1..]);
    }

    /** The timer is right exactly when the cancels `since` the registry was `base` have kept it right. */
    ghost predicate TimerTracks(base: map<nat, nat>, since: seq<Cancel>)
      reads this, hal
    {
      (Coherent() && KeepsTimer(base, since)) || (Stale() && !KeepsTimer(base, since))
    }

    /** One turn of the drain loop at clock reading `now`: the least due event is taken up, and fires unless another CPU
        cancelled it after the look. */
    method Turn(now: nat, effects: nat -> Effect, r: Remote, ghost horizon: nat)
      returns (next: Option<Slot>, fires: bool)
      requires Valid() && now <= horizon && forall c | c in r.early + r.late :: c.caller != cpu
      requires forall id, t | t in effects(id).creates :: t > horizon
      modifies this, hal
      ensures Valid()
      ensures fires <==> next.Some? && next.value.1 !in IdSet(r.late)
      ensures next.None? ==> forall x | x in heap :: x.0 > now
      ensures next.Some? ==>
                && next.value in old(heap) && next.value.0 <= now
                && (forall x | x in heap :: Earlier(next.value, x))
                && Evolves(old(registry), registry, horizon, TurnGone(next.value, fires, effects, r))
                && Due(registry, horizon) < Due(old(registry), horizon)
      ensures next.Some? ==>
                var after := AfterTurn(old(registry), old(nextId), next.value.1, fires, effects(next.value.1), r);
                registry == after.0 && nextId == after.1
      ensures fires ==> Coherent()
      ensures !fires ==> registry == Less(old(registry), r.early + r.late) && nextId == old(nextId)
      ensures !fires && old(Coherent()) ==>
                if KeepsTimer(old(registry), r.early + r.late) then Coherent() else Stale()
      ensures !fires && old(Stale()) ==> Stale()
      ensures next.None? && r == Remote([], []) ==> heap == old(heap) && hal.timers == old(hal.timers)
    {
      KeepsAppend(registry, r.early, r.late);
      LessEvolves(registry, r.early, horizon);
      DueLess(registry, r.early, horizon);
      RemoteAll(r.early);
      next := PeekOutdated(now);
      if next.Some? {
        LessHeap(old(registry), old(heap), r.early, heap, next.value);
        fires := Timeout(next.value, effects, r.late, horizon);
        AfterTurnSplit(old(registry), old(nextId), next.value.1, fires, effects(next.value.1), r);
        ghost var cancels := if fires then set id | id in effects(next.value.1).cancels else {};
        EvolvesTwice(old(registry), Less(old(registry), r.early), registry, horizon, IdSet(r.early),
                     IdSet(r.late) + {next.value.1} + cancels);
      } else {
        ghost var looked, heap0 := registry, heap;
        RemoteAll(r.late);
        forall x | x in heap
          ensures x.0 > now
        {
          LessHeap(looked, heap0, r.late, heap, x);
        }
        fires := false;
      }
    }

    /** The second half of a turn: cancels after the look at `s`, and its timeout. */
    method Timeout(s: Slot, effects: nat -> Effect, late: seq<Cancel>, ghost horizon: nat) returns (fires: bool)
      requires Valid() && IsLeast(heap, s) && s.0 <= horizon && forall c | c in late :: c.caller != cpu
      requires forall id, t | t in effects(id).creates :: t > horizon
      modifies this, hal
      ensures Valid() && (fires <==> s.1 !in IdSet(late))
      ensures forall x | x in heap :: Earlier(s, x)
      ensures Evolves(old(registry), registry, horizon,
                      IdSet(late) + {s.1} + (if fires then set id | id in effects(s.1).cancels else {}))
      ensures Due(registry, horizon) < Due(old(registry), horizon)
      ensures fires ==> registry == AfterFire(Less(old(registry), late), old(nextId), s.1, effects(s.1))
      ensures nextId == old(nextId) + if fires then |effects(s.1).creates| else 0
      ensures fires ==> Coherent()
      ensures !fires ==> registry == Less(old(registry), late)
      ensures !fires && old(Coherent()) ==> if KeepsTimer(old(registry), late) then Coherent() else Stale()
      ensures !fires && old(Stale()) ==> Stale()
    {
      LessEvolves(registry, late, horizon);
      LessHas(registry, late, s.1);
      RemoteAll(late);
      ghost var left := registry;
      fires := s.1 in registry;
      ghost var more := {s.1} + (if fires then set id | id in effects(s.1).cancels else {});
      if fires {
        Fire(s, effects(s.1), horizon);
      }
      EvolvesTwice(old(registry), left, registry, horizon, IdSet(late), more);
      LeastIsFirst(old(registry), old(heap), registry, heap, s, horizon, IdSet(late) + more);
    }

    /** The same turn, seen from the event that fired last. */
    method TrackedTurn(now: nat, effects: nat -> Effect, r: Remote, ghost horizon: nat, ghost base: map<nat, nat>,
                       ghost since: seq<Cancel>)
      returns (next: Option<Slot>, fires: bool, ghost base': map<nat, nat>, ghost since': seq<Cancel>)
      requires Valid() && now <= horizon && forall c | c in r.early + r.late :: c.caller != cpu
      requires (forall id, t | t in effects(id).creates :: t > horizon) && registry == Less(base, since)
      modifies this, hal
      ensures Valid() && registry == Less(base', since')
      ensures fires <==> next.Some? && next.value.1 !in IdSet(r.late)
      ensures next.None? ==> (forall x | x in heap :: x.0 > now) && registry == Less(old(registry), r.early + r.late)
      ensures next.Some? ==>
                && next.value in old(heap) && next.value.0 <= now
                && (forall x | x in heap :: Earlier(next.value, x))
                && Evolves(old(registry), registry, horizon, TurnGone(next.value, fires, effects, r))
                && Due(registry, horizon) < Due(old(registry), horizon)
                && var after := AfterTurn(old(registry), old(nextId), next.value.1, fires, effects(next.value.1), r);
                   registry == after.0 && nextId == after.1
      ensures !fires ==> nextId == old(nextId)
      ensures if fires then base' == registry && since' == [] else base' == base && since' == since + (r.early + r.late)
      ensures fires || old(TimerTracks(base, since)) ==> TimerTracks(base', since')
      ensures next.None? && r == Remote([], []) ==> heap == old(heap) && hal.timers == old(hal.timers)
    {
      KeepsAppend(base, since, r.early + r.late);
      next, fires := Turn(now, effects, r, horizon);
      base', since' := if fires then registry else base, if fires then [] else since + (r.early + r.late);
    }

    /** The same turn, entered in the log of the loop, which started at registry `first`. */
    method LoggedTurn(clock: nat -> nat, effects: nat -> Effect, remote: nat -> Remote, ghost horizon: nat,
                      ghost first: map<nat, nat>, ghost firstId: nat, tried: seq<Slot>, fires: seq<bool>,
                      ghost base: map<nat, nat>, ghost since: seq<Cancel>)
      returns (go: bool, tried': seq<Slot>, fires': seq<bool>, ghost base': map<nat, nat>, ghost since': seq<Cancel>)
      requires Valid() && |fires| == |tried| && FiresOk(tried, fires, remote) && registry == Less(base, since)
      requires forall k :: clock(k) <= horizon
      requires forall id, t | t in effects(id).creates :: t > horizon
      requires forall k, c | c in remote(k).early + remote(k).late :: c.caller != cpu
      requires Drained(first, registry, heap, tried, clock, horizon, Gone(tried, fires, effects, remote))
      requires (registry, nextId) == AfterTurns(first, firstId, tried, fires, effects, remote)
      modifies this, hal
      ensures Valid() && |fires'| == |tried'| && FiresOk(tried', fires', remote) && registry == Less(base', since')
      ensures go ==>
                && Drained(first, registry, heap, tried', clock, horizon, Gone(tried', fires', effects, remote))
                && Due(registry, horizon) < Due(old(registry), horizon) && tried' != []
                && (registry, nextId) == AfterTurns(first, firstId, tried', fires', effects, remote)
      ensures !go ==>
                && tried' == tried && fires' == fires && (forall s | s in heap :: s.0 > clock(|tried|))
                && registry == Less(old(registry), remote(|tried|).early + remote(|tried|).late)
                && nextId == old(nextId)
                && var last := IdSet(remote(|tried|).early + remote(|tried|).late);
                   Drained(first, registry, heap, tried, clock, horizon, Gone(tried, fires, effects, remote) + last)
      ensures AnyFired(fires) ==> AnyFired(fires')
      ensures base' == base || AnyFired(fires')
      ensures old(TimerTracks(base, since)) || (AnyFired(fires') && !AnyFired(fires)) ==> TimerTracks(base', since')
      ensures !go && remote(|tried|) == Remote([], []) ==> heap == old(heap) && hal.timers == old(hal.timers)
    {
      ghost var gone := Gone(tried, fires, effects, remote);
      ghost var r := remote(|tried|);
      var next, fired;
      next, fired, base', since' := TrackedTurn(clock(|tried|), effects, remote(|tried|), horizon, base, since);
      if next.None? {
        LessEvolves(old(registry), r.early + r.late, horizon);
        DrainedLess(first, old(registry), old(heap), tried, clock, horizon, gone, registry, heap,
                    IdSet(r.early + r.late));
        return false, tried, fires, base', since';
      }
      GoneAppend(tried, fires, effects, remote, next.value, fired);
      AfterTurnsAppend(first, firstId, tried, fires, effects, remote, next.value, fired);
      FiresAppend(tried, fires, remote, next.value, fired);
      DrainedStep(first, old(registry), old(heap), tried, clock, horizon, gone, registry, heap, next.value,
                  TurnGone(next.value, fired, effects, r));
      return true, tried + [next.value], fires + [fired], base', since';
    }

    /** The drain loop of the timer interrupt, with other CPUs cancelling events at any time. `clock(k)` is the k-th
        clock reading, and handlers create only events later than every reading. The loop ends; it takes events up
        in (time, id) order, each one due, and fires those that nobody cancelled after the look; it leaves none due
        at its last reading; and an old event is gone only if it was taken up or cancelled. The timer is right
        exactly when the cancels since the last event that fired have kept it right. */
    method Drain(clock: nat -> nat, ghost horizon: nat, effects: nat -> Effect, remote: nat -> Remote)
      returns (tried: seq<Slot>, fires: seq<bool>, ghost base: map<nat, nat>, ghost since: seq<Cancel>)
      requires Valid()
      requires forall k :: clock(k) <= horizon
      requires forall id, t | t in effects(id).creates :: t > horizon
      requires forall k, c | c in remote(k).early + remote(k).late :: c.caller != cpu
      modifies this, hal
      ensures Valid() && |fires| == |tried| && FiresOk(tried, fires, remote)
      ensures var last := IdSet(remote(|tried|).early + remote(|tried|).late);
              Drained(old(registry), registry, heap, tried, clock, horizon, Gone(tried, fires, effects, remote) + last)
      ensures forall s | s in heap :: s.0 > clock(|tried|)
      ensures var (r, next) := AfterTurns(old(registry), old(nextId), tried, fires, effects, remote);
              registry == Less(r, remote(|tried|).early + remote(|tried|).late) && nextId == next
      ensures registry == Less(base, since) && (!AnyFired(fires) ==> base == old(registry))
      ensures old(Coherent()) || AnyFired(fires) ==> TimerTracks(base, since)
      ensures tried == [] && remote(0) == Remote([], []) ==> heap == old(heap) && hal.timers == old(hal.timers)
    {
      tried, fires, base, since := [], [], registry, [];
      var go := true;
      while go
        invariant Valid() && |fires| == |tried| && FiresOk(tried, fires, remote)
        invariant go ==>
                    Drained(old(registry), registry, heap, tried, clock, horizon, Gone(tried, fires, effects, remote))
        invariant !go ==>
                    && (forall s | s in heap :: s.0 > clock(|tried|))
                    && var last := IdSet(remote(|tried|).early + remote(|tried|).late);
                       Drained(old(registry), registry, heap, tried, clock, horizon,
                               Gone(tried, fires, effects, remote) + last)
        invariant var (r, next) := AfterTurns(old(registry), old(nextId), tried, fires, effects, remote);
                  && nextId == next
                  && registry == if go then r else Less(r, remote(|tried|).early + remote(|tried|).late)
        invariant registry == Less(base, since) && (!AnyFired(fires) ==> base == old(registry))
        invariant old(Coherent()) || AnyFired(fires) ==> TimerTracks(base, since)
        invariant tried == [] && (go || remote(0) == Remote([], [])) ==>
                    heap == old(heap) && hal.timers == old(hal.timers)
        decreases go, Due(registry, horizon)
      {
        go, tried, fires, base, since :=
          LoggedTurn(clock, effects, remote, horizon, old(registry), old(nextId), tried, fires, base, since);
      }
    }

    /** The whole handler. `ticks(k)` is the tick of the k-th clock reading and `last` the tick at which the
        handler asks whether the timer interrupt is still pending; if so it takes it for a stray one and sets the
        timer to `MAX`. When the timer was right after the drain, that detaches it from the queue exactly when the
        tick programmed for the earliest remaining event has come, although the event was not due when the clock was
        read. When a tick is `ns` nanoseconds: exactly when the event's time lies before the end of tick `last`. */
    method HandleInterrupt(freq: nat, ticks: nat -> nat, last: nat, ghost horizon: nat, effects: nat -> Effect,
                           remote: nat -> Remote, ghost ns: nat)
      returns (tried: seq<Slot>, fires: seq<bool>, ghost base: map<nat, nat>, ghost since: seq<Cancel>)
      requires Valid()
      requires forall k :: Clock.GetTime(ticks(k), freq) <= horizon
      requires forall id, t | t in effects(id).creates :: t > horizon
      requires forall k, c | c in remote(k).early + remote(k).late :: c.caller != cpu
      modifies this, hal
      ensures Valid() && |fires| == |tried| && FiresOk(tried, fires, remote)
      ensures var final := IdSet(remote(|tried|).early + remote(|tried|).late);
              Drained(old(registry), registry, heap, tried, k => Clock.GetTime(ticks(k), freq), horizon,
                      Gone(tried, fires, effects, remote) + final)
      ensures forall s | s in heap :: s.0 > Clock.GetTime(ticks(|tried|), freq)
      ensures var (r, next) := AfterTurns(old(registry), old(nextId), tried, fires, effects, remote);
              registry == Less(r, remote(|tried|).early + remote(|tried|).late) && nextId == next
      ensures registry == Less(base, since) && (!AnyFired(fires) ==> base == old(registry))
      ensures (old(Coherent()) || AnyFired(fires)) && KeepsTimer(base, since) ==>
                Detachment(Coherent(), heap, freq, last, ns)
      ensures tried == [] && remote(0) == Remote([], []) ==>
                heap == old(heap) && hal.timers == AfterStray(old(hal.timers), cpu, freq, last)
    {
      tried, fires, base, since := Drain(k => Clock.GetTime(ticks(k), freq), horizon, effects, remote);
      CheckStray(freq, last, ns);
    }

    /** The second half of the handler. */
    method CheckStray(freq: nat, last: nat, ghost ns: nat)
      requires Valid()
      modifies hal
      ensures hal.timers == AfterStray(old(hal.timers), cpu, freq, last)
      ensures old(Coherent()) ==> Detachment(Coherent(), heap, freq, last, ns)
    {
      if Coherent() {
        StrayDetaches(hal.timers[cpu], heap, freq, last, ns);
      }
      if TimerPending(hal.timers, cpu, freq, last) {
        hal.SetTimer(cpu, None);
      }
    }
  }

  function AfterStray(timers: map<nat, Option<nat>>, cpu: nat, freq: nat, last: nat): map<nat, Option<nat>> {
    if TimerPending(timers, cpu, freq, last) then timers[cpu := None] else timers
  }

  /** When the timer is still attached to the queue after the handler has asked at tick `last`. */
  ghost predicate Detachment(attached: bool, heap: seq<Slot>, freq: nat, last: nat, ns: nat) {
    && (heap == [] ==> attached)
    && forall s: Slot | IsLeast(heap, s) ::
         && (attached <==> Clock.TimerTicks(s.0, freq) > last)
         && (ns >= 1 && freq * ns == Clock.BILLION && s.0 / ns < Clock.U64 ==> (attached <==> (last + 1) * ns <= s.0))
  }

  /** The timer interrupt of a CPU is pending from its programmed tick on. */
  predicate TimerPending(timers: map<nat, Option<nat>>, cpu: nat, freq: nat, tick: nat) {
    cpu in timers && Reached(timers[cpu], freq, tick)
  }

  predicate Reached(timer: Option<nat>, freq: nat, tick: nat) {
    match timer
    case None => Clock.U64 - 1 <= tick
    case Some(time) => Clock.TimerTicks(time, freq) <= tick
  }

  /** A timer set to `Duration::MAX` is pending from the tick that is programmed for it. */
  lemma MaxReached(freq: nat, tick: nat)
    requires 1 <= freq <= Clock.BILLION
    ensures Reached(None, freq, tick) <==> Reached(Some(Clock.DURATION_MAX), freq, tick)
  {
    Clock.MaxIsNever(freq);
  }

  lemma StrayDetaches(timer: Option<nat>, heap: seq<Slot>, freq: nat, last: nat, ns: nat)
    requires Follows(timer, heap)
    ensures Detachment(!Reached(timer, freq, last) || heap == [], heap, freq, last, ns)
  {
    forall s: Slot | IsLeast(heap, s)
      ensures timer == Some(s.0)
      ensures ns >= 1 && freq * ns == Clock.BILLION && s.0 / ns < Clock.U64 ==>
                (Clock.TimerTicks(s.0, freq) > last <==> (last + 1) * ns <= s.0)
    {
      if ns >= 1 && freq * ns == Clock.BILLION && s.0 / ns < Clock.U64 {
        Clock.TickReached(s.0, freq, ns, last);
      }
    }
  }

  /** When the drain read the clock last at the tick of that question: the event is lost exactly when its time lies
      strictly inside that tick. */
  lemma LostInsideTick(attached: bool, heap: seq<Slot>, freq: nat, tick: nat, ns: nat, s: Slot)
    requires Detachment(attached, heap, freq, tick, ns) && IsLeast(heap, s)
    requires s.0 > Clock.GetTime(tick, freq) && tick * Clock.BILLION < Clock.U64
    requires freq >= 1 && ns >= 1 && freq * ns == Clock.BILLION && s.0 / ns < Clock.U64
    ensures !attached <==> tick * ns < s.0 < (tick + 1) * ns
  {
    Clock.NoWrap(tick, freq);
    Clock.TicksToTime(tick, freq, ns);
  }

  /** A lost event: at ten megahertz an event is created for 150 nanoseconds. The interrupt comes at tick 1, when the
      clock reads 100, so the event is not due; the interrupt is still pending, and the timer is set to `MAX` with
      the event in the queue. */
  method LostEvent() returns (q: TimedEventQueue)
    ensures fresh(q) && q.Valid() && q.heap == [(150, 0)] && q.hal.timers == map[q.cpu := None] && !q.Coherent()
  {
    var hal := new Hal();
    q := OneEvent(hal, 0, 150);
    InsideTickOne();
    var tried, _, base, since := q.HandleInterrupt(10_000_000, AlwaysOne, 1, 100, NoEffect, NoCancel, 100);
    NothingDue(tried, 100, 150);
  }

  function AlwaysOne(k: nat): nat {
    1
  }

  function NoEffect(id: nat): Effect {
    Effect([], [])
  }

  function NoCancel(k: nat): Remote {
    Remote([], [])
  }

  lemma InsideTickOne()
    ensures Clock.TimerTicks(150, 10_000_000) == 1 && Clock.GetTime(1, 10_000_000) == 100
  {
  }

  lemma NothingDue(fired: seq<Slot>, now: nat, earliest: nat)
    requires forall k | 0 <= k < |fired| :: fired[k].0 <= now
    requires forall s | s in fired :: earliest <= s.0
    ensures fired == [] || earliest <= now
  {
    if fired != [] {
      assert fired[0] in fired;
    }
  }

  /** A queue with one event, whose timer follows it. */
  method OneEvent(hal: Hal, cpu: nat, time: nat) returns (q: TimedEventQueue)
    modifies hal
    ensures fresh(q) && q.Valid() && q.Coherent() && q.hal == hal && q.cpu == cpu
    ensures q.registry == map[0 := time] && q.heap == [(time, 0)]
    ensures hal.timers == old(hal.timers)[cpu := Some(time)]
  {
    q := new TimedEventQueue(cpu, hal);
    var _ := q.Create(time);
    assert (time, 0) in q.heap;
  }

  /** A cancel from another CPU: CPU 1 cancels the only event of CPU 0. The timer of CPU 0 stays armed for an event
      that is gone, and the timer of CPU 1 is set to `MAX` although its own queue has an event. */
  method RemoteCancel() returns (q: TimedEventQueue, r: TimedEventQueue)
    ensures fresh(q) && fresh(r) && q.cpu == 0 && r.cpu == 1 && q.hal == r.hal
    ensures q.Valid() && q.heap == [] && q.hal.timers == map[0 := Some(5), 1 := None] && r.Valid() && r.heap == [(9, 0)]
    ensures !q.Coherent() && !r.Coherent()
  {
    var hal := new Hal();
    q := OneEvent(hal, 0, 5);
    r := OneEvent(hal, 1, 9);
    var _ := q.Remove(0, 1);
    assert q.heap == [];
  }
}
