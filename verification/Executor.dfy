/** The executor: runs its tasks by polling them whenever their id comes off the task queue. A poll is
    one step, described by what the task did: tasks it spawned, tasks it woke, and its result. */
module Executors {
  import opened Errors
  import opened FastPq

  /** Something a task, or anyone holding a waker, does to the queue. */
  datatype Action = Wake(id: nat, priority: nat) | Spawn(id: nat, priority: nat)

  datatype Poll = Poll(actions: seq<Action>, ready: bool)

  /** Queue entries of one task. */
  function Queued(entries: seq<(nat, nat)>, id: nat): nat {
    if entries == [] then 0
    else (if entries[|entries| - 1].1 == id then 1 else 0) + Queued(entries[..|entries| - 1], id)
  }

  lemma {:induction false} QueuedAppend(a: seq<(nat, nat)>, b: seq<(nat, nat)>, id: nat)
    ensures Queued(a + b, id) == Queued(a, id) + Queued(b, id)
    decreases |b|
  {
    if b == [] {
      assert a + b == a;
    } else {
      assert (a + b)[..|a + b| - 1] == a + b[..|b| - 1];
      QueuedAppend(a, b[..|b| - 1], id);
    }
  }

  lemma QueuedWithout(entries: seq<(nat, nat)>, k: nat, id: nat)
    requires k < |entries|
    ensures Queued(entries, id) == Queued(Without(entries, k), id) + if entries[k].1 == id then 1 else 0
  {
    assert entries == entries[..k] + ([entries[k]] + entries[k + 1..]);
    QueuedAppend(entries[..k], [entries[k]] + entries[k + 1..], id);
    QueuedAppend([entries[k]], entries[k + 1..], id);
    QueuedAppend(entries[..k], entries[k + 1..], id);
  }

  /** What has happened to one task so far. `repeats` counts refused spawns of a live id, which
      leave a queue entry behind. */
  datatype Account = Account(priority: nat, polls: nat, wakes: nat, repeats: nat, done: bool)

  /** The books balance: a live task was queued once by its spawn, once by each wake and once by each
      refused spawn, and every one of these entries has led to a poll, is still queued, or has just
      been taken from the queue by the run loop (`inHand`). */
  ghost predicate Balanced(registry: map<nat, nat>, entries: seq<(nat, nat)>, book: map<nat, Account>,
                           inHand: Option<nat>) {
    && registry.Keys <= book.Keys
    && (forall id | id in book :: book[id].priority < NUM && (book[id].done <==> id !in registry))
    && (forall id | id in registry ::
          && registry[id] == book[id].priority
          && book[id].polls + Queued(entries, id) + (if inHand == Some(id) then 1 else 0) ==
             1 + book[id].wakes + book[id].repeats)
    && (forall e | e in entries :: e.1 in book && e.0 == book[e.1].priority)
  }

  lemma {:induction false} NotQueued(entries: seq<(nat, nat)>, id: nat)
    requires forall e | e in entries :: e.1 != id
    ensures Queued(entries, id) == 0
  {
    if entries != [] {
      var n := |entries| - 1;
      assert entries[n] in entries;
      NotQueued(entries[..n], id);
    }
  }

  // ----- how each step keeps the books

  lemma BookSpawn(registry: map<nat, nat>, entries: seq<(nat, nat)>, book: map<nat, Account>, inHand: Option<nat>,
                  id: nat, priority: nat)
    requires Balanced(registry, entries, book, inHand) && id !in book && priority < NUM && inHand != Some(id)
    ensures Balanced(registry[id := priority], entries + [(priority, id)],
                     book[id := Account(priority, 0, 0, 0, false)], inHand)
  {
    NotQueued(entries, id);
    AppendOne(entries, priority, id);
  }

  lemma BookRepeat(registry: map<nat, nat>, entries: seq<(nat, nat)>, book: map<nat, Account>, inHand: Option<nat>,
                  id: nat, priority: nat)
    requires Balanced(registry, entries, book, inHand) && id in registry && book[id].priority == priority
    ensures Balanced(registry, entries + [(priority, id)],
                     book[id := book[id].(repeats := book[id].repeats + 1)], inHand)
  {
    AppendOne(entries, priority, id);
  }

  lemma BookWake(registry: map<nat, nat>, entries: seq<(nat, nat)>, book: map<nat, Account>, inHand: Option<nat>,
                  id: nat, priority: nat)
    requires Balanced(registry, entries, book, inHand) && id in book && book[id].priority == priority
    ensures Balanced(registry, entries + [(priority, id)],
                     book[id := book[id].(wakes := book[id].wakes + 1)], inHand)
  {
    AppendOne(entries, priority, id);
  }

  lemma BookTake(registry: map<nat, nat>, entries: seq<(nat, nat)>, book: map<nat, Account>, k: nat)
    requires Balanced(registry, entries, book, None) && k < |entries|
    ensures Balanced(registry, Without(entries, k), book, Some(entries[k].1))
    ensures entries[k].1 !in registry ==> Balanced(registry, Without(entries, k), book, None)
  {
    forall other: nat
      ensures Queued(entries, other) == Queued(Without(entries, k), other) + if other == entries[k].1 then 1 else 0
    {
      QueuedWithout(entries, k, other);
    }
    assert forall e | e in Without(entries, k) :: e in entries;
  }

  function PollOnce(book: map<nat, Account>, id: nat): map<nat, Account>
    requires id in book
  {
    book[id := book[id].(polls := book[id].polls + 1)]
  }

  function Complete(book: map<nat, Account>, id: nat): map<nat, Account>
    requires id in book
  {
    book[id := book[id].(done := true)]
  }

  lemma BookPoll(registry: map<nat, nat>, entries: seq<(nat, nat)>, book: map<nat, Account>, id: nat)
    requires Balanced(registry, entries, book, Some(id)) && id in registry
    ensures Balanced(registry, entries, PollOnce(book, id), None)
  {
  }

  lemma BookDone(registry: map<nat, nat>, entries: seq<(nat, nat)>, book: map<nat, Account>, id: nat)
    requires Balanced(registry, entries, book, None) && id in registry
    ensures Balanced(registry - {id}, entries, Complete(book, id), None)
  {
  }

  lemma BookRoot(root: nat, priority: nat)
    requires priority < NUM
    ensures Balanced(map[root := priority], [(priority, root)], map[root := Account(priority, 0, 0, 0, false)], None)
  {
    BookSpawn(map[], [], map[], None, root, priority);
    assert map[][root := priority] == map[root := priority];
    assert [] + [(priority, root)] == [(priority, root)];
    assert map[][root := Account(priority, 0, 0, 0, false)] == map[root := Account(priority, 0, 0, 0, false)];
  }

  // ----- the executor as a value, and what its run loop does to it

  datatype View = View(registry: map<nat, nat>, entries: seq<(nat, nat)>, book: map<nat, Account>)

  function Act(book: map<nat, Account>, a: Action): map<nat, Account> {
    match a
    case Wake(id, _) => if id in book then book[id := book[id].(wakes := book[id].wakes + 1)] else book
    case Spawn(id, priority) => book[id := Account(priority, 0, 0, 0, false)]
  }

  /** The accounts after a sequence of wakes and spawns. */
  function Performed(book: map<nat, Account>, actions: seq<Action>): (r: map<nat, Account>)
    ensures book.Keys <= r.Keys
  {
    if actions == [] then book else Act(Performed(book, actions[..|actions| - 1]), actions[|actions| - 1])
  }

  /** The live tasks after it. */
  function Enrolled(registry: map<nat, nat>, actions: seq<Action>): (r: map<nat, nat>)
    ensures registry.Keys <= r.Keys
  {
    if actions == [] then registry
    else
      var r := Enrolled(registry, actions[..|actions| - 1]);
      var a := actions[|actions| - 1];
      if a.Spawn? then r[a.id := a.priority] else r
  }

  /** The queue entries it leaves, in order. */
  function Puts(actions: seq<Action>): seq<(nat, nat)> {
    if actions == [] then []
    else Puts(actions[..|actions| - 1]) + [(actions[|actions| - 1].priority, actions[|actions| - 1].id)]
  }

  function Arrived(x: View, actions: seq<Action>): View {
    View(Enrolled(x.registry, actions), x.entries + Puts(actions), Performed(x.book, actions))
  }

  /** A poll of task `id`: one more on its account, the actions, and completion if it returned ready. */
  function Polled(x: View, id: nat, poll: Poll): View
    requires id in x.book
  {
    var y := Arrived(x.(book := PollOnce(x.book, id)), poll.actions);
    if poll.ready then y.(registry := y.registry - {id}, book := Complete(y.book, id)) else y
  }

  /** One round on a queue that is not empty: the front entry goes, and its task is polled if it is live. */
  function AfterRound(x: View, poll: Poll): View
    requires x.entries != []
  {
    var k := FrontIndex(x.entries);
    var id := x.entries[k].1;
    var y := x.(entries := Without(x.entries, k));
    if id in x.registry && id in x.book then Polled(y, id, poll) else y
  }

  /** The task that such a round polls. */
  function Picked(x: View): Option<nat>
    requires x.entries != []
  {
    var id := x.entries[FrontIndex(x.entries)].1;
    if id in x.registry then Some(id) else None
  }

  /** One turn of the run loop: what others queue before it looks, and the poll it makes. */
  datatype Round = Round(arrivals: seq<Action>, poll: Poll)

  /** The run loop, until it finds the queue empty or the given rounds are over. */
  function RunFrom(x: View, rounds: seq<Round>): View
    decreases |rounds|
  {
    if rounds == [] then x
    else
      var y := Arrived(x, rounds[0].arrivals);
      if y.entries == [] then y else RunFrom(AfterRound(y, rounds[0].poll), rounds[1..])
  }

  /** The loop has found the queue empty, so the executor is finished. */
  predicate Finishes(x: View, rounds: seq<Round>)
    decreases |rounds|
  {
    rounds != [] &&
    var y := Arrived(x, rounds[0].arrivals);
    y.entries == [] || Finishes(AfterRound(y, rounds[0].poll), rounds[1..])
  }

  /** All wakes and spawns along the way are possible when they happen. */
  ghost predicate AllPossible(x: View, rounds: seq<Round>)
    decreases |rounds|
  {
    rounds == [] ||
    (&& Possible(x.book, rounds[0].arrivals)
     && var y := Arrived(x, rounds[0].arrivals);
        y.entries != [] ==>
          Possible(y.book, rounds[0].poll.actions) && AllPossible(AfterRound(y, rounds[0].poll), rounds[1..]))
  }

  /** How often `id` is woken by the actions. */
  function WakesOf(actions: seq<Action>, id: nat): nat {
    if actions == [] then 0
    else WakesOf(actions[..|actions| - 1], id) +
         (if actions[|actions| - 1].Wake? && actions[|actions| - 1].id == id then 1 else 0)
  }

  /** The actions change the account of a known task by its wakes alone. */
  lemma {:induction false} WakesCounted(book: map<nat, Account>, actions: seq<Action>, id: nat)
    requires Possible(book, actions) && id in book
    ensures Performed(book, actions)[id] == book[id].(wakes := book[id].wakes + WakesOf(actions, id))
  {
    if actions != [] {
      PossiblePrefix(book, actions);
      WakesCounted(book, actions[..|actions| - 1], id);
    }
  }

  lemma PossiblePrefix(book: map<nat, Account>, actions: seq<Action>)
    requires Possible(book, actions) && actions != []
    ensures Possible(book, actions[..|actions| - 1])
  {
  }

  /** A round adds exactly its poll and the wakes of its actions to the account of a live task. */
  lemma RoundAccount(x: View, poll: Poll, id: nat)
    requires x.entries != [] && Possible(x.book, poll.actions) && id in x.book && x.registry.Keys <= x.book.Keys
    ensures var now, polled := AfterRound(x, poll).book, Picked(x) == Some(id);
            && id in now && now[id].priority == x.book[id].priority
            && now[id].polls == x.book[id].polls + (if polled then 1 else 0)
            && now[id].wakes == x.book[id].wakes + (if Picked(x).Some? then WakesOf(poll.actions, id) else 0)
            && now[id].done == (x.book[id].done || (polled && poll.ready))
  {
    if Picked(x).Some? {
      var book := PollOnce(x.book, Picked(x).value);
      assert Possible(book, poll.actions);
      WakesCounted(book, poll.actions, id);
    }
  }

  class Executor {
    /** Live tasks and their priorities. */
    var registry: map<nat, nat>
    /** Tasks that have a waker of this executor. */
    var wakers: set<nat>
    const queue: FastPriorityQueue<nat>
    var finished: bool
    var currentPriority: nat
    ghost var book: map<nat, Account>

    ghost predicate Valid(inHand: Option<nat>)
      reads this, queue, queue.queues
    {
      && queue.Valid()
      && Balanced(registry, queue.entries, book, inHand)
      && wakers <= registry.Keys
    }

    ghost function Now(): View
      reads this, queue
    {
      View(registry, queue.entries, book)
    }

    constructor (root: nat, priority: nat)
      requires priority < NUM
      ensures Valid(None) && fresh(queue) && fresh(queue.queues) && !finished
      ensures Now() == View(map[root := priority], [(priority, root)], map[root := Account(priority, 0, 0, 0, false)])
    {
      registry := map[root := priority];
      wakers := {};
      queue := new FastPriorityQueue<nat>();
      finished, currentPriority := false, 0;
      book := map[root := Account(priority, 0, 0, 0, false)];
      new;
      queue.Enqueue(priority, root);
      assert queue.entries == [(priority, root)];
      BookRoot(root, priority);
    }

    /** `spawn`: queues the id first, then registers the task unless the id is live already. Ids are
        serial numbers, so the id of a completed task never comes back. */
    method SpawnTask(id: nat, priority: nat) returns (r: Result<()>)
      requires Valid(None) && priority < NUM
      requires id in book ==> !book[id].done && book[id].priority == priority
      modifies this`registry, this`book, queue, queue.queues
      ensures Valid(None)
      ensures r == if id in old(registry) then Err(DuplicateTaskId) else Ok(())
      ensures queue.entries == old(queue.entries) + [(priority, id)]
      ensures registry == if id in old(registry) then old(registry) else old(registry)[id := priority]
      ensures book == old(book)[id := if id in old(book) then old(book)[id].(repeats := old(book)[id].repeats + 1)
                                      else Account(priority, 0, 0, 0, false)]
    {
      if id in registry {
        BookRepeat(registry, queue.entries, book, None, id, priority);
      } else {
        BookSpawn(registry, queue.entries, book, None, id, priority);
      }
      queue.Enqueue(priority, id);
      if id in registry {
        book := book[id := book[id].(repeats := book[id].repeats + 1)];
        return Err(DuplicateTaskId);
      }
      registry := registry[id := priority];
      book := book[id := Account(priority, 0, 0, 0, false)];
      return Ok(());
    }

    /** `wake_task`: by any holder of the waker at any time, also while the run loop has an entry in hand, and
        even after the task has completed. */
    method WakeTask(id: nat, priority: nat, ghost inHand: Option<nat>)
      requires Valid(inHand) && id in book && book[id].priority == priority
      modifies this`book, queue, queue.queues
      ensures Valid(inHand)
      ensures queue.entries == old(queue.entries) + [(priority, id)]
      ensures book == old(book)[id := old(book)[id].(wakes := old(book)[id].wakes + 1)]
    {
      BookWake(registry, queue.entries, book, inHand, id, priority);
      queue.Enqueue(priority, id);
      book := book[id := book[id].(wakes := book[id].wakes + 1)];
    }

    method PerformOne(a: Action)
      requires Valid(None) && a.priority < NUM
      requires if a.Wake? then a.id in book && book[a.id].priority == a.priority else a.id !in book
      modifies this`registry, this`book, queue, queue.queues
      ensures Valid(None)
      ensures queue.entries == old(queue.entries) + [(a.priority, a.id)]
      ensures registry == if a.Spawn? then old(registry)[a.id := a.priority] else old(registry)
      ensures book == Act(old(book), a)
    {
      match a
      case Wake(id, priority) => WakeTask(id, priority, None);
      case Spawn(id, priority) => var _ := SpawnTask(id, priority);
    }

    /** What tasks and wakers do to the queue, in order. */
    method Perform(actions: seq<Action>)
      requires Valid(None) && Possible(book, actions)
      modifies this`registry, this`book, queue, queue.queues
      ensures Valid(None) && Now() == Arrived(old(Now()), actions)
    {
      if actions == [] {
        return;
      }
      var n := |actions| - 1;
      PossiblePrefix(book, actions);
      PossibleLast(book, actions);
      Perform(actions[..n]);
      PerformOne(actions[n]);
    }

    /** Takes the next id off the queue. */
    method NextId() returns (id: Option<nat>)
      requires Valid(None)
      modifies queue, queue.queues
      ensures id.None? <==> old(queue.entries) == []
      ensures match id
              case None => Valid(None) && queue.entries == []
              case Some(x) =>
                && Valid(id) && (x !in registry ==> Valid(None))
                && var k := FrontIndex(old(queue.entries));
                   x == old(queue.entries)[k].1 && queue.entries == Without(old(queue.entries), k)
    {
      ghost var entries := queue.entries;
      var head := queue.Dequeue();
      if head.None? {
        return None;
      }
      ghost var k: nat :| IsFront(entries, k) && head == Some(entries[k]) && queue.entries == Without(entries, k);
      FrontUnique(entries, k, FrontIndex(entries));
      BookTake(registry, entries, book, k);
      return Some(head.value.1);
    }

    /** One poll of a live task. */
    method PollTask(id: nat, poll: Poll)
      requires Valid(Some(id)) && id in registry && Possible(book, poll.actions)
      modifies this`registry, this`wakers, this`currentPriority, this`book, queue, queue.queues
      ensures Valid(None) && Now() == Polled(old(Now()), id, poll)
      ensures currentPriority == old(registry)[id]
      ensures wakers == if poll.ready then old(wakers) - {id} else old(wakers) + {id}
    {
      wakers := wakers + {id};
      currentPriority := registry[id];
      BookPoll(registry, queue.entries, book, id);
      book := PollOnce(book, id);
      Perform(poll.actions);
      if poll.ready {
        Finish(id);
      }
    }

    /** A task whose poll returned ready leaves the executor, with its waker. */
    method Finish(id: nat)
      requires Valid(None) && id in registry
      modifies this`registry, this`wakers, this`book
      ensures Valid(None) && registry == old(registry) - {id} && wakers == old(wakers) - {id}
      ensures book == Complete(old(book), id)
    {
      BookDone(registry, queue.entries, book, id);
      registry := registry - {id};
      wakers := wakers - {id};
      book := Complete(book, id);
    }

    /** One turn of the run loop. An empty queue finishes the executor, and then every live task has
        used up all its wakes; an entry of a completed task is skipped; any other entry is one poll. */
    method RunOne(poll: Poll) returns (polled: Option<nat>)
      requires Valid(None) && !finished && (queue.entries != [] ==> Possible(book, poll.actions))
      modifies this, queue, queue.queues
      ensures Valid(None)
      ensures finished <==> old(queue.entries) == []
      ensures if finished then polled == None && Now() == old(Now())
              else polled == Picked(old(Now())) && Now() == AfterRound(old(Now()), poll)
      ensures finished ==> forall id | id in registry :: book[id].polls == 1 + book[id].wakes + book[id].repeats
      ensures match polled
              case None => currentPriority == old(currentPriority) && wakers == old(wakers)
              case Some(id) => currentPriority == old(registry)[id] && (id in wakers <==> !poll.ready)
    {
      var id := NextId();
      if id.None? {
        finished := true;
        return None;
      }
      if id.value !in registry {
        return None;
      }
      PollTask(id.value, poll);
      return id;
    }

    /** What is queued from outside, and then one turn. */
    method Turn(round: Round)
      requires Valid(None) && !finished && AllPossible(Now(), [round])
      modifies this, queue, queue.queues
      ensures var y := Arrived(old(Now()), round.arrivals);
              && Valid(None) && (finished <==> y.entries == [])
              && Now() == if finished then y else AfterRound(y, round.poll)
    {
      Perform(round.arrivals);
      var _ := RunOne(round.poll);
    }

    /** `run`: the whole loop, with whatever is queued from outside between its turns. */
    method Run(rounds: seq<Round>)
      requires Valid(None) && !finished && AllPossible(Now(), rounds)
      modifies this, queue, queue.queues
      ensures Valid(None) && Now() == RunFrom(old(Now()), rounds)
      ensures finished <==> Finishes(old(Now()), rounds)
      ensures finished ==> queue.entries == [] && (registry == map[] <==> forall id | id in book :: book[id].done)
    {
      var i := 0;
      while i < |rounds|
        invariant 0 <= i <= |rounds| && Valid(None) && !finished && AllPossible(Now(), rounds[i..])
        invariant RunFrom(Now(), rounds[i..]) == RunFrom(old(Now()), rounds)
        invariant Finishes(Now(), rounds[i..]) == Finishes(old(Now()), rounds)
      {
        assert rounds[i..][0] == rounds[i] && rounds[i..][1..] == rounds[i + 1..];
        Turn(rounds[i]);
        if finished {
          return;
        }
        i := i + 1;
      }
    }
  }

  /** Wakes name known tasks at their priority; each spawn brings a new serial id. */
  ghost predicate Possible(book: map<nat, Account>, actions: seq<Action>) {
    && (forall i | 0 <= i < |actions| :: actions[i].priority < NUM)
    && (forall i | 0 <= i < |actions| && actions[i].Wake? ::
          actions[i].id in book && book[actions[i].id].priority == actions[i].priority)
    && (forall i | 0 <= i < |actions| && actions[i].Spawn? :: actions[i].id !in book)
    && forall i, j | 0 <= i < j < |actions| && actions[i].Spawn? && actions[j].Spawn? :: actions[i].id != actions[j].id
  }

  /** The last action is possible once the others have been performed. */
  lemma {:induction false} PossibleLast(book: map<nat, Account>, actions: seq<Action>)
    requires Possible(book, actions) && actions != []
    ensures var n := |actions| - 1;
            var now, a := Performed(book, actions[..n]), actions[n];
            a.priority < NUM && if a.Wake? then a.id in now && now[a.id].priority == a.priority else a.id !in now
  {
    var n := |actions| - 1;
    if actions[n].Wake? {
      PossiblePrefix(book, actions);
      WakesCounted(book, actions[..n], actions[n].id);
    } else {
      NotYetKnown(book, actions[..n], actions[n].id);
    }
  }

  lemma {:induction false} NotYetKnown(book: map<nat, Account>, actions: seq<Action>, id: nat)
    requires id !in book && forall i | 0 <= i < |actions| :: actions[i].id != id || actions[i].Wake?
    ensures id !in Performed(book, actions)
  {
    if actions != [] {
      NotYetKnown(book, actions[..|actions| - 1], id);
    }
  }

  lemma AppendOne(entries: seq<(nat, nat)>, priority: nat, id: nat)
    ensures forall other: nat :: Queued(entries + [(priority, id)], other) ==
                                 Queued(entries, other) + if other == id then 1 else 0
  {
    var after := entries + [(priority, id)];
    assert after[..|after| - 1] == entries;
  }

  // ----- accounts over whole runs

  lemma {:induction false} KeysIncluded(registry: map<nat, nat>, book: map<nat, Account>, actions: seq<Action>)
    requires registry.Keys <= book.Keys
    ensures Enrolled(registry, actions).Keys <= Performed(book, actions).Keys
  {
    if actions != [] {
      KeysIncluded(registry, book, actions[..|actions| - 1]);
    }
  }

  lemma RoundKeys(x: View, poll: Poll)
    requires x.entries != [] && x.registry.Keys <= x.book.Keys
    ensures AfterRound(x, poll).registry.Keys <= AfterRound(x, poll).book.Keys
  {
    if Picked(x).Some? {
      KeysIncluded(x.registry, PollOnce(x.book, Picked(x).value), poll.actions);
    }
  }

  /** How often the run wakes and polls `id`, and whether one of the polls returned ready. */
  datatype Tally = Tally(polls: nat, wakes: nat, ready: bool)

  function TallyOf(x: View, rounds: seq<Round>, id: nat): Tally
    decreases |rounds|
  {
    if rounds == [] then Tally(0, 0, false)
    else
      var y := Arrived(x, rounds[0].arrivals);
      var early := WakesOf(rounds[0].arrivals, id);
      if y.entries == [] then Tally(0, early, false)
      else
        var rest := TallyOf(AfterRound(y, rounds[0].poll), rounds[1..], id);
        var poll := rounds[0].poll;
        Tally(rest.polls + (if Picked(y) == Some(id) then 1 else 0),
              rest.wakes + early + (if Picked(y).Some? then WakesOf(poll.actions, id) else 0),
              rest.ready || (Picked(y) == Some(id) && poll.ready))
  }

  /** Over any run of the loop, the account of a task has grown by exactly the polls and wakes that happened, and
      it is done exactly when a poll of it has returned ready. */
  lemma {:induction false} RunAccount(x: View, rounds: seq<Round>, id: nat)
    requires AllPossible(x, rounds) && id in x.book && x.registry.Keys <= x.book.Keys
    ensures var now, tally := RunFrom(x, rounds).book, TallyOf(x, rounds, id);
            && id in now && now[id].polls == x.book[id].polls + tally.polls
            && now[id].wakes == x.book[id].wakes + tally.wakes
            && now[id].done == (x.book[id].done || tally.ready)
    decreases |rounds|
  {
    if rounds != [] {
      var y := Arrived(x, rounds[0].arrivals);
      WakesCounted(x.book, rounds[0].arrivals, id);
      KeysIncluded(x.registry, x.book, rounds[0].arrivals);
      if y.entries != [] {
        RoundAccount(y, rounds[0].poll, id);
        RoundKeys(y, rounds[0].poll);
        RunAccount(AfterRound(y, rounds[0].poll), rounds[1..], id);
      }
    }
  }

  /** An executor finishes as soon as it finds its queue empty, whether or not tasks still wait to be woken: here
      its only task waits, and the finished executor still has it. */
  method FinishesTooEarly() returns (e: Executor)
    ensures fresh(e) && e.Valid(None) && e.finished && 1 in e.registry && !e.book[1].done
  {
    e := new Executor(1, 0);
    assert FrontIndex(e.queue.entries) == 0 && Without(e.queue.entries, 0) == [];
    var _ := e.RunOne(Poll([], false));
    assert e.queue.entries == [] + Puts([]);
    var _ := e.RunOne(Poll([], false));
  }

  // ----- the order in which a task that yields is resumed

  /** Entries ahead of the tracked one were ahead of it from the start. */
  lemma {:induction false} NothingSlipsAhead(entries: seq<(nat, nat)>, ops: seq<Op<nat>>, m: nat, id: nat, j: nat)
    requires m < |entries| && (forall i | 0 <= i < m :: entries[i].1 != id)
    requires Track(entries, ops, m).Some? && j < Track(entries, ops, m).value
    ensures j < |RunOps(entries, ops)| && RunOps(entries, ops)[j].1 != id
    decreases |ops|
  {
    Tracked(entries, ops, m);
    if ops != [] {
      var n := |ops| - 1;
      var before := RunOps(entries, ops[..n]);
      Tracked(entries, ops[..n], m);
      var position := Track(entries, ops[..n], m).value;
      if ops[n].Get? && FrontIndex(before) <= j {
        NothingSlipsAhead(entries, ops[..n], m, id, j + 1);
      } else {
        NothingSlipsAhead(entries, ops[..n], m, id, j);
      }
    }
  }

  lemma {:induction false} OnePriority(entries: seq<(nat, nat)>, ops: seq<Op<nat>>, id: nat, p: nat, j: nat)
    requires forall e | e in entries && e.1 == id :: e.0 == p
    requires forall op | op in ops && op.Put? && op.item == id :: op.priority == p
    requires j < |RunOps(entries, ops)| && RunOps(entries, ops)[j].1 == id
    ensures RunOps(entries, ops)[j].0 == p
    decreases |ops|
  {
    if ops == [] {
      assert entries[j] in entries;
    } else {
      var n := |ops| - 1;
      var before := RunOps(entries, ops[..n]);
      assert ops[n] in ops;
      if ops[n].Put? {
        if j < |before| {
          OnePriority(entries, ops[..n], id, p, j);
        }
      } else if before != [] {
        var k := FrontIndex(before);
        OnePriority(entries, ops[..n], id, p, if j < k then j else j + 1);
      }
    }
  }

  /** Where the first queue entry of a task stands. */
  function FirstEntry(entries: seq<(nat, nat)>, id: nat): (m: nat)
    ensures m <= |entries| && (m < |entries| ==> entries[m].1 == id)
    ensures forall j | 0 <= j < m :: entries[j].1 != id
  {
    if entries == [] || entries[0].1 == id then 0
    else
      assert forall j | 1 <= j < |entries| :: entries[j] == entries[1..][j - 1];
      1 + FirstEntry(entries[1..], id)
  }

  /** All entries of the task, queued or to come, have its priority. */
  ghost predicate AtPriority(entries: seq<(nat, nat)>, ops: seq<Op<nat>>, id: nat, p: nat) {
    && (forall e | e in entries && e.1 == id :: e.0 == p)
    && (forall op | op in ops && op.Put? && op.item == id :: op.priority == p)
  }

  /** After `ops` the run loop is about to pick task `id` for the first time since `entries`. */
  ghost predicate Resumes(entries: seq<(nat, nat)>, ops: seq<Op<nat>>, id: nat) {
    var m, now := FirstEntry(entries, id), RunOps(entries, ops);
    && m < |entries| && Track(entries, ops, m).Some?
    && now != [] && now[FrontIndex(now)].1 == id
  }

  /** The entry it picks is the one that was its first. */
  lemma ResumesAtFirst(entries: seq<(nat, nat)>, ops: seq<Op<nat>>, id: nat, p: nat)
    requires AtPriority(entries, ops, id, p) && Resumes(entries, ops, id)
    ensures var m := FirstEntry(entries, id);
            entries[m] == (p, id) && Track(entries, ops, m) == Some(FrontIndex(RunOps(entries, ops)))
  {
    var m := FirstEntry(entries, id);
    var now := RunOps(entries, ops);
    var position, k := Track(entries, ops, m).value, FrontIndex(now);
    Tracked(entries, ops, m);
    OnePriority(entries, ops, id, p, k);
    if k < position {
      NothingSlipsAhead(entries, ops, m, id, k);
      assert false;
    }
  }

  /** Whatever is queued and taken, when a task is resumed, every entry that stood ahead of its first one with equal
      or higher priority has been taken out. */
  lemma YieldOrder(entries: seq<(nat, nat)>, p: nat, id: nat, ops: seq<Op<nat>>, i: nat)
    requires AtPriority(entries, ops, id, p) && Resumes(entries, ops, id)
    requires i < FirstEntry(entries, id) && entries[i].0 >= p
    ensures Track(entries, ops, i) == None
  {
    ResumesAtFirst(entries, ops, id, p);
    NoOvertaking(entries, ops, i, FirstEntry(entries, id));
  }

  /** Nor is there then any entry of higher priority, wherever it stood. */
  lemma HigherGone(entries: seq<(nat, nat)>, p: nat, id: nat, ops: seq<Op<nat>>, i: nat)
    requires AtPriority(entries, ops, id, p) && Resumes(entries, ops, id) && i < |entries| && entries[i].0 > p
    ensures Track(entries, ops, i) == None
  {
    ResumesAtFirst(entries, ops, id, p);
    Tracked(entries, ops, i);
    Tracked(entries, ops, FirstEntry(entries, id));
  }

  /** The promise of a yield that queued the task behind `before`: when it is resumed, every entry of another task
      that was queued then with equal or higher priority has been taken. */
  ghost predicate YieldKeepsPromise(before: seq<(nat, nat)>, p: nat, id: nat) {
    var entries := before + [(p, id)];
    forall ops: seq<Op<nat>>, i: nat |
      && AtPriority(entries, ops, id, p) && Resumes(entries, ops, id)
      && i < |before| && before[i].1 != id && before[i].0 >= p ::
      Track(entries, ops, i) == None
  }

  /** It is kept exactly when no other task has an entry of the same priority behind an entry that the task already
      had in the queue. In particular it is kept when the task had none. */
  lemma YieldPromiseExactly(before: seq<(nat, nat)>, p: nat, id: nat)
    requires forall e | e in before && e.1 == id :: e.0 == p
    ensures YieldKeepsPromise(before, p, id) <==>
            forall i: nat | FirstEntry(before + [(p, id)], id) < i < |before| :: before[i].0 != p || before[i].1 == id
  {
    var entries := before + [(p, id)];
    var m := FirstEntry(entries, id);
    if forall i: nat | m < i < |before| :: before[i].0 != p || before[i].1 == id {
      forall ops: seq<Op<nat>>, i: nat |
        && AtPriority(entries, ops, id, p) && Resumes(entries, ops, id)
        && i < |before| && before[i].1 != id && before[i].0 >= p
        ensures Track(entries, ops, i) == None
      {
        if i < m {
          YieldOrder(entries, p, id, ops, i);
        } else {
          HigherGone(entries, p, id, ops, i);
        }
      }
    } else {
      var i: nat :| m < i < |before| && before[i].0 == p && before[i].1 != id;
      assert before[m] == entries[m] && before[m] in before;
      var ops := UntilFront(entries, [], m, i);
      assert AtPriority(entries, ops, id, p);
      Tracked(entries, ops, m);
      assert Resumes(entries, ops, id) && Track(entries, ops, i) != None;
    }
  }

  /** Taking entries out brings entry `m` to the front while the later entry `i` of the same priority is queued. */
  lemma UntilFront(entries: seq<(nat, nat)>, done: seq<Op<nat>>, m: nat, i: nat) returns (ops: seq<Op<nat>>)
    requires m < i < |entries| && entries[m].0 == entries[i].0
    requires Track(entries, done, m).Some? && Track(entries, done, i).Some? && forall op | op in done :: op.Get?
    ensures forall op | op in ops :: op.Get?
    ensures RunOps(entries, ops) != [] && Track(entries, ops, i).Some?
    ensures Track(entries, ops, m) == Some(FrontIndex(RunOps(entries, ops)))
    decreases |RunOps(entries, done)|
  {
    Tracked(entries, done, m);
    Tracked(entries, done, i);
    TrackedInOrder(entries, done, m, i);
    var now := RunOps(entries, done);
    if Track(entries, done, m) == Some(FrontIndex(now)) {
      return done;
    }
    assert FrontIndex(now) != Track(entries, done, i).value;
    assert (done + [Get])[..|done|] == done;
    ops := UntilFront(entries, done + [Get], m, i);
  }

  /** A task with a wake still queued resumes before its turn: task 7 yields behind task 9, and is next. */
  lemma YieldWithWakeQueued()
    ensures var entries := [(0, 7), (0, 9)] + [(0, 7)];
            && Resumes(entries, [], 7) && AtPriority(entries, [], 7, 0) && Track(entries, [], 1) == Some(1)
    ensures !YieldKeepsPromise([(0, 7), (0, 9)], 0, 7)
  {
    var before: seq<(nat, nat)> := [(0, 7), (0, 9)];
    var entries := before + [(0, 7)];
    assert FirstEntry(entries, 7) == 0;
    assert IsFront(entries, 0);
    FrontUnique(entries, 0, FrontIndex(entries));
    YieldPromiseExactly(before, 0, 7);
    assert before[1].0 == 0 && before[1].1 != 7;
  }

  /** Further wakes of the task itself pass nobody over. */
  lemma OwnWakesPassNobody(n: nat, id: nat, p: nat)
    ensures YieldKeepsPromise(seq(n, _ => (p, id)), p, id)
  {
    var before := seq(n, _ => (p, id));
    YieldPromiseExactly(before, p, id);
  }

  // ----- the same on the executor

  function OpsOf(actions: seq<Action>): seq<Op<nat>> {
    if actions == [] then []
    else OpsOf(actions[..|actions| - 1]) + [Put(actions[|actions| - 1].priority, actions[|actions| - 1].id)]
  }

  /** What a run of the loop does to the queue. */
  function Trace(x: View, rounds: seq<Round>): seq<Op<nat>>
    decreases |rounds|
  {
    if rounds == [] then []
    else
      var y := Arrived(x, rounds[0].arrivals);
      if y.entries == [] then OpsOf(rounds[0].arrivals)
      else
        OpsOf(rounds[0].arrivals) + [Get] + (if Picked(y).Some? then OpsOf(rounds[0].poll.actions) else []) +
        Trace(AfterRound(y, rounds[0].poll), rounds[1..])
  }

  lemma {:induction false} RunPuts(entries: seq<(nat, nat)>, actions: seq<Action>)
    ensures RunOps(entries, OpsOf(actions)) == entries + Puts(actions)
  {
    if actions != [] {
      RunPuts(entries, actions[..|actions| - 1]);
    }
  }

  /** The queue after any run of the loop is the stable priority queue after that trace. */
  lemma {:induction false} TraceRuns(x: View, rounds: seq<Round>)
    requires x.registry.Keys <= x.book.Keys
    ensures RunFrom(x, rounds).entries == RunOps(x.entries, Trace(x, rounds))
    decreases |rounds|
  {
    if rounds != [] {
      var y := Arrived(x, rounds[0].arrivals);
      RunPuts(x.entries, rounds[0].arrivals);
      if y.entries != [] {
        KeysIncluded(x.registry, x.book, rounds[0].arrivals);
        RoundKeys(y, rounds[0].poll);
        var z := AfterRound(y, rounds[0].poll);
        var first := OpsOf(rounds[0].arrivals);
        var puts := if Picked(y).Some? then OpsOf(rounds[0].poll.actions) else [];
        GetOne(y.entries, 0);
        RunPuts(Without(y.entries, FrontIndex(y.entries)), rounds[0].poll.actions);
        RunOpsAppend(x.entries, first, [Get]);
        RunOpsAppend(x.entries, first + [Get], puts);
        RunOpsAppend(x.entries, first + [Get] + puts, Trace(z, rounds[1..]));
        TraceRuns(z, rounds[1..]);
      }
    }
  }

  lemma {:induction false} OpsPriority(book: map<nat, Account>, actions: seq<Action>, id: nat, op: Op<nat>)
    requires Possible(book, actions) && id in book && op in OpsOf(actions) && op.Put? && op.item == id
    ensures op.priority == book[id].priority
  {
    PossiblePrefix(book, actions);
    if op in OpsOf(actions[..|actions| - 1]) {
      OpsPriority(book, actions[..|actions| - 1], id, op);
    }
  }

  /** Everything a run queues for a known task has the task's priority. */
  lemma {:induction false} TracePriority(x: View, rounds: seq<Round>, id: nat, op: Op<nat>)
    requires AllPossible(x, rounds) && id in x.book && x.registry.Keys <= x.book.Keys
    requires op in Trace(x, rounds) && op.Put? && op.item == id
    ensures op.priority == x.book[id].priority
    decreases |rounds|
  {
    var y := Arrived(x, rounds[0].arrivals);
    WakesCounted(x.book, rounds[0].arrivals, id);
    if op in OpsOf(rounds[0].arrivals) {
      OpsPriority(x.book, rounds[0].arrivals, id, op);
    } else if Picked(y).Some? && op in OpsOf(rounds[0].poll.actions) {
      OpsPriority(y.book, rounds[0].poll.actions, id, op);
    } else {
      KeysIncluded(x.registry, x.book, rounds[0].arrivals);
      RoundAccount(y, rounds[0].poll, id);
      RoundKeys(y, rounds[0].poll);
      TracePriority(AfterRound(y, rounds[0].poll), rounds[1..], id, op);
    }
  }

  /** On the executor itself: after any run of the loop, when a task is about to be picked by its first entry, all
      that stood ahead of that entry with equal or higher priority has been taken out. */
  lemma ExecutorYieldOrder(x: View, rounds: seq<Round>, id: nat, i: nat)
    requires Balanced(x.registry, x.entries, x.book, None) && AllPossible(x, rounds) && id in x.book
    requires i < FirstEntry(x.entries, id) && x.entries[i].0 >= x.book[id].priority
    requires Resumes(x.entries, Trace(x, rounds), id)
    ensures RunFrom(x, rounds).entries == RunOps(x.entries, Trace(x, rounds))
    ensures Track(x.entries, Trace(x, rounds), i) == None
  {
    TraceRuns(x, rounds);
    forall op | op in Trace(x, rounds) && op.Put? && op.item == id
      ensures op.priority == x.book[id].priority
    {
      TracePriority(x, rounds, id, op);
    }
    YieldOrder(x.entries, x.book[id].priority, id, Trace(x, rounds), i);
  }
}
