/** The stack allocator called from any number of threads at once, as a transition system: every step is one
    critical section of `allocate` or `deallocate`, or one call of the mapper or unmapper. The books, and the
    lemmas about how they change, are those of the allocator object. */
module StackRuns {
  import opened Errors
  import opened StackAllocators
  import Addressing
  import Paging

  /** `strict`: the unmapper fails on a page for which no frame is recorded, as the kernel's does. */
  datatype Config = Config(guard: nat, regionEnd: nat, strict: bool)

  /** How far a thread is: idle, holding a slot that it has not entered as allocated yet, mapping page `done` of a
      slot, or unmapping page `done` of a slot that it has taken off the books. */
  datatype Task =
    | Idle
    | Took(a: nat, size: nat)
    | Mapping(a: nat, size: nat, done: nat)
    | Unmapping(a: nat, size: nat, done: nat)

  /** `recorded`: the pages for which the page table holds a frame; `owner`: those that are mapped. */
  datatype State = State(slots: Slots, next: nat, live: map<nat, nat>, cached: map<nat, seq<nat>>, recorded: Pages,
                         owner: Pages, tasks: seq<Task>)

  /** What the mapper does with a page: map it, record its frame and fail, or fail without a trace. */
  datatype Outcome = Done | Recorded | Refused

  /** An unmapper that fails may have dropped the frame all the same. */
  datatype Step =
    | Take(t: nat, request: nat)
    | Enter(t: nat)
    | MapNext(t: nat, outcome: Outcome)
    | Remove(t: nat, top: nat)
    | UnmapNext(t: nat, ok: bool, forgets: bool)

  predicate Enabled(c: Config, st: State, step: Step) {
    && step.t < |st.tasks|
    && var task := st.tasks[step.t];
       match step
       case Take(_, request) => task.Idle? && RoundUp(request) + c.guard > 0
       case Enter(_) => task.Took?
       case MapNext(_, _) => task.Mapping?
       case Remove(_, top) => task.Idle?
       case UnmapNext(_, ok, _) =>
         task.Unmapping? &&
         (c.strict && ok && task.done < PageCount(task.size) ==> PageAt(c.guard, task.a, task.done) in st.recorded)
  }

  function Set(st: State, t: nat, task: Task): State
    requires t < |st.tasks|
  {
    st.(tasks := st.tasks[t := task])
  }

  function Taken(c: Config, st: State, t: nat, size: nat): State
    requires t < |st.tasks|
  {
    if Full(st.cached, st.next, size, c.regionEnd) then st.(cached := PopFront(st.cached, size))
    else
      var a := Candidate(st.cached, st.next, size);
      st.(slots := st.slots[a := Slot(size, Lost)],
          next := if Listed(st.cached, size) == [] then st.next + size + c.guard else st.next,
          cached := PopFront(st.cached, size), tasks := st.tasks[t := Took(a, size)])
  }

  function Entered(c: Config, st: State, t: nat): State
    requires t < |st.tasks| && st.tasks[t].Took?
  {
    var a, size := st.tasks[t].a, st.tasks[t].size;
    st.(slots := st.slots[a := Slot(size, InUse)], live := st.live[SlotEnd(c.guard, a, size) := size],
        tasks := st.tasks[t := Mapping(a, size, 0)])
  }

  function Mapped(c: Config, st: State, t: nat, outcome: Outcome): State
    requires t < |st.tasks| && st.tasks[t].Mapping?
  {
    var a, size, done := st.tasks[t].a, st.tasks[t].size, st.tasks[t].done;
    var page := PageAt(c.guard, a, done);
    if done >= PageCount(size) || outcome.Refused? then Set(st, t, Idle)
    else
      var recorded := st.recorded[page := Owner(a, done)];
      if outcome.Recorded? then Set(st, t, Idle).(recorded := recorded)
      else
        st.(recorded := recorded, owner := st.owner[page := Owner(a, done)],
            tasks := st.tasks[t := Mapping(a, size, done + 1)])
  }

  function Removed(c: Config, st: State, t: nat, top: nat): State
    requires t < |st.tasks|
  {
    if top !in st.live then st
    else
      var size := st.live[top];
      var a := SlotStart(c.guard, top, size);
      st.(slots := st.slots[a := Slot(size, Lost)], live := st.live - {top},
          tasks := st.tasks[t := Unmapping(a, size, 0)])
  }

  function Pushed(c: Config, st: State, t: nat): State
    requires t < |st.tasks| && st.tasks[t].Unmapping?
  {
    var a, size := st.tasks[t].a, st.tasks[t].size;
    st.(slots := st.slots[a := Slot(size, Cached)], cached := st.cached[size := [a] + Listed(st.cached, size)],
        tasks := st.tasks[t := Idle])
  }

  function Unmapped(c: Config, st: State, t: nat, ok: bool, forgets: bool): State
    requires t < |st.tasks| && st.tasks[t].Unmapping?
  {
    var a, size, done := st.tasks[t].a, st.tasks[t].size, st.tasks[t].done;
    var page := PageAt(c.guard, a, done);
    if done >= PageCount(size) then Pushed(c, st, t)
    else if !ok && !forgets then Set(st, t, Idle)
    else Without(st, page, t, if ok then Unmapping(a, size, done + 1) else Idle)
  }

  function Do(c: Config, st: State, step: Step): State
    requires Enabled(c, st, step)
  {
    match step
    case Take(t, request) => Taken(c, st, t, RoundUp(request))
    case Enter(t) => Entered(c, st, t)
    case MapNext(t, outcome) => Mapped(c, st, t, outcome)
    case Remove(t, top) => Removed(c, st, t, top)
    case UnmapNext(t, ok, forgets) => Unmapped(c, st, t, ok, forgets)
  }

  // ----- the invariant

  /** The task still has something to do with its slot. */
  predicate Active(task: Task) {
    task.Took? || task.Unmapping? || (task.Mapping? && task.done < PageCount(task.size))
  }

  predicate Busy(task: Task, a: nat) {
    Active(task) && task.a == a
  }

  ghost predicate TaskOk(slots: Slots, recorded: Pages, task: Task)
    requires Active(task)
  {
    && task.a in slots && slots[task.a].size == task.size
    && slots[task.a].place != Cached && (!task.Mapping? ==> slots[task.a].place == Lost)
    && match task
       case Took(a, _) => forall p | p in recorded :: recorded[p].slot != a
       case Mapping(a, _, done) => forall p | p in recorded && recorded[p].slot == a :: recorded[p].index < done
       case Unmapping(a, _, done) => forall p | p in recorded && recorded[p].slot == a :: recorded[p].index >= done
  }

  /** Two threads may be busy with one slot only if one still maps it while the other, behind, unmaps it. */
  predicate PairOk(x: Task, y: Task) {
    || (x.Mapping? && y.Unmapping? && y.done <= x.done)
    || (x.Unmapping? && y.Mapping? && x.done <= y.done)
  }

  ghost predicate TasksOk(slots: Slots, recorded: Pages, tasks: seq<Task>) {
    && (forall t | 0 <= t < |tasks| && Active(tasks[t]) :: TaskOk(slots, recorded, tasks[t]))
    && (forall t, u | 0 <= t < |tasks| && 0 <= u < |tasks| && t != u && Active(tasks[t]) && Active(tasks[u])
                      && tasks[t].a == tasks[u].a :: PairOk(tasks[t], tasks[u]))
  }

  /** What is mapped is recorded. */
  ghost predicate Backed(owner: Pages, recorded: Pages) {
    forall p | p in owner :: p in recorded && recorded[p] == owner[p]
  }

  ghost predicate Inv(c: Config, st: State) {
    && Books(st.slots, c.guard, st.next, st.live, st.cached, st.recorded)
    && Within(st.slots, c.guard, c.regionEnd)
    && Backed(st.owner, st.recorded)
    && TasksOk(st.slots, st.recorded, st.tasks)
  }

  // ----- what a step leaves to the other threads

  /** Slot `a` and its pages change, and thread `t` moves on; whoever else is busy with the slot can live with it. */
  lemma TasksMoved(slots: Slots, recorded: Pages, tasks: seq<Task>, t: nat, a: nat, slot: Slot, recorded': Pages,
                   task: Task)
    requires TasksOk(slots, recorded, tasks) && t < |tasks|
    requires forall u | 0 <= u < |tasks| && u != t && Busy(tasks[u], a) ::
               TaskOk(slots[a := slot], recorded', tasks[u]) && (Active(task) ==> PairOk(task, tasks[u]))
    requires Active(task) ==> task.a == a && TaskOk(slots[a := slot], recorded', task)
    requires forall p | p in recorded' && recorded'[p].slot != a :: p in recorded && recorded[p] == recorded'[p]
    ensures TasksOk(slots[a := slot], recorded', tasks[t := task])
  {
    var tasks' := tasks[t := task];
    forall u | 0 <= u < |tasks'| && Active(tasks'[u])
      ensures TaskOk(slots[a := slot], recorded', tasks'[u])
    {
      if u != t {
        assert TaskOk(slots, recorded, tasks[u]);
        assert !Busy(tasks[u], a) ==> tasks[u].a != a;
      }
    }
  }

  lemma TaskStopped(slots: Slots, recorded: Pages, tasks: seq<Task>, t: nat)
    requires TasksOk(slots, recorded, tasks) && t < |tasks|
    ensures TasksOk(slots, recorded, tasks[t := Idle])
  {
  }

  /** A slot that is being handed out has no busy thread. */
  lemma NobodyBusy(slots: Slots, recorded: Pages, tasks: seq<Task>, a: nat)
    requires TasksOk(slots, recorded, tasks) && (a in slots ==> slots[a].place == Cached)
    ensures forall u | 0 <= u < |tasks| :: !Busy(tasks[u], a)
  {
    forall u | 0 <= u < |tasks|
      ensures !Busy(tasks[u], a)
    {
      assert Active(tasks[u]) ==> TaskOk(slots, recorded, tasks[u]);
    }
  }

  // ----- allocate

  /** Taking a slot off its list, or carving it: it is then on no list and nothing is recorded in it. */
  lemma TakeLost(c: Config, st: State, size: nat)
    requires Inv(c, st) && size + c.guard > 0 && !Full(st.cached, st.next, size, c.regionEnd)
    ensures var a := Candidate(st.cached, st.next, size);
            var next := if Listed(st.cached, size) == [] then st.next + size + c.guard else st.next;
            var slots := st.slots[a := Slot(size, Lost)];
            && Books(slots, c.guard, next, st.live, PopFront(st.cached, size), st.recorded)
            && Within(slots, c.guard, c.regionEnd)
            && Available(st.slots, c.guard, st.live, st.recorded, a, size)
  {
    var a := Candidate(st.cached, st.next, size);
    var next := if Listed(st.cached, size) == [] then st.next + size + c.guard else st.next;
    var used, top := st.slots[a := Slot(size, InUse)], SlotEnd(c.guard, a, size);
    TakeBooks(st.slots, c.guard, st.next, st.live, st.cached, st.recorded, size, c.regionEnd);
    Release(used, c.guard, next, st.live[top := size], PopFront(st.cached, size), st.recorded, a, size);
    Overwritten(st.slots, a, Slot(size, InUse), Slot(size, Lost));
    StillWithin(used, c.guard, c.regionEnd, a, Slot(size, Lost));
    assert st.live[top := size] - {top} == st.live;
  }

  lemma TakeKeepsInv(c: Config, st: State, t: nat, size: nat)
    requires Inv(c, st) && t < |st.tasks| && st.tasks[t].Idle? && size + c.guard > 0
    ensures Inv(c, Taken(c, st, t, size))
  {
    if Full(st.cached, st.next, size, c.regionEnd) {
      EmptyList(st.slots, st.cached, size);
    } else {
      TakeLost(c, st, size);
      var a := Candidate(st.cached, st.next, size);
      NobodyBusy(st.slots, st.recorded, st.tasks, a);
      TasksMoved(st.slots, st.recorded, st.tasks, t, a, Slot(size, Lost), st.recorded, Took(a, size));
    }
  }

  lemma ReviveCached(slots: Slots, cached: map<nat, seq<nat>>, a: nat, slot: Slot)
    requires CachedOk(slots, cached) && a in slots && slots[a].place == Lost && slot.place == InUse
    ensures CachedOk(slots[a := slot], cached)
  {
    forall n | n in cached
      ensures ListOk(slots[a := slot], n, cached[n])
    {
      assert ListOk(slots, n, cached[n]);
    }
  }

  lemma RevivePages(slots: Slots, guard: nat, owner: Pages, a: nat, size: nat)
    requires PagesOk(slots, guard, owner) && a in slots && slots[a].size == size
    ensures PagesOk(slots[a := Slot(size, InUse)], guard, owner)
  {
    forall p | p in owner
      ensures PageOk(slots[a := Slot(size, InUse)], guard, p, owner[p])
    {
      assert PageOk(slots, guard, p, owner[p]);
    }
  }

  /** Entering a slot as allocated. */
  lemma Revive(slots: Slots, guard: nat, next: nat, live: map<nat, nat>, cached: map<nat, seq<nat>>, owner: Pages,
               a: nat, size: nat)
    requires Books(slots, guard, next, live, cached, owner) && a in slots && slots[a] == Slot(size, Lost)
    ensures Books(slots[a := Slot(size, InUse)], guard, next, live[SlotEnd(guard, a, size) := size], cached, owner)
  {
    MovedSlot(slots, guard, next, a, InUse);
    MakeLive(slots, guard, live, a, size);
    ReviveCached(slots, cached, a, Slot(size, InUse));
    RevivePages(slots, guard, owner, a, size);
  }

  lemma EnterKeepsInv(c: Config, st: State, t: nat)
    requires Inv(c, st) && t < |st.tasks| && st.tasks[t].Took?
    ensures Inv(c, Entered(c, st, t))
  {
    var a, size := st.tasks[t].a, st.tasks[t].size;
    assert TaskOk(st.slots, st.recorded, st.tasks[t]);
    Revive(st.slots, c.guard, st.next, st.live, st.cached, st.recorded, a, size);
    StillWithin(st.slots, c.guard, c.regionEnd, a, Slot(size, InUse));
    TasksMoved(st.slots, st.recorded, st.tasks, t, a, Slot(size, InUse), st.recorded, Mapping(a, size, 0));
  }

  lemma StopKeepsInv(c: Config, st: State, t: nat)
    requires Inv(c, st) && t < |st.tasks|
    ensures Inv(c, Set(st, t, Idle))
  {
    TaskStopped(st.slots, st.recorded, st.tasks, t);
  }

  /** The page that a thread maps next has no frame recorded yet. */
  lemma NotYetRecorded(slots: Slots, guard: nat, next: nat, recorded: Pages, tasks: seq<Task>, t: nat)
    requires Carved(slots, guard, next) && PagesOk(slots, guard, recorded) && TasksOk(slots, recorded, tasks)
    requires t < |tasks| && tasks[t].Mapping? && Active(tasks[t])
    ensures PageAt(guard, tasks[t].a, tasks[t].done) !in recorded
  {
    var a, done := tasks[t].a, tasks[t].done;
    assert TaskOk(slots, recorded, tasks[t]);
    var page := PageAt(guard, a, done);
    if page in recorded {
      OwnerUnique(slots, guard, next, page, recorded[page], a, done);
    }
  }

  /** Recording the next page suits the others, whether the thread goes on or stops. */
  lemma RecordTasks(slots: Slots, guard: nat, recorded: Pages, tasks: seq<Task>, t: nat, task: Task)
    requires TasksOk(slots, recorded, tasks) && t < |tasks| && tasks[t].Mapping? && Active(tasks[t])
    requires PagesOk(slots, guard, recorded)
    requires task.Idle? || task == Mapping(tasks[t].a, tasks[t].size, tasks[t].done + 1)
    ensures var page, o := PageAt(guard, tasks[t].a, tasks[t].done), Owner(tasks[t].a, tasks[t].done);
            PagesOk(slots, guard, recorded[page := o]) && TasksOk(slots, recorded[page := o], tasks[t := task])
  {
    var a, size, done := tasks[t].a, tasks[t].size, tasks[t].done;
    assert TaskOk(slots, recorded, tasks[t]);
    MapPage(slots, guard, recorded, a, done);
    var recorded' := recorded[PageAt(guard, a, done) := Owner(a, done)];
    assert slots[a := slots[a]] == slots;
    forall u | 0 <= u < |tasks| && u != t && Busy(tasks[u], a)
      ensures TaskOk(slots, recorded', tasks[u]) && (Active(task) ==> PairOk(task, tasks[u]))
    {
      assert PairOk(tasks[t], tasks[u]) && TaskOk(slots, recorded, tasks[u]);
    }
    TasksMoved(slots, recorded, tasks, t, a, slots[a], recorded', task);
  }

  /** A step that leaves slots and books alone, and suits pages and threads. */
  ghost predicate Suits(c: Config, st: State, after: State) {
    && after == st.(recorded := after.recorded, owner := after.owner, tasks := after.tasks)
    && PagesOk(after.slots, c.guard, after.recorded) && TasksOk(after.slots, after.recorded, after.tasks)
    && Backed(after.owner, after.recorded)
  }

  lemma MapSuits(c: Config, st: State, t: nat, outcome: Outcome)
    requires PagesOk(st.slots, c.guard, st.recorded) && TasksOk(st.slots, st.recorded, st.tasks)
    requires t < |st.tasks| && st.tasks[t].Mapping? && Active(st.tasks[t]) && !outcome.Refused?
    requires Backed(st.owner, st.recorded) && PageAt(c.guard, st.tasks[t].a, st.tasks[t].done) !in st.recorded
    ensures Suits(c, st, Mapped(c, st, t, outcome))
  {
    var a, size, done := st.tasks[t].a, st.tasks[t].size, st.tasks[t].done;
    var task := if outcome.Done? then Mapping(a, size, done + 1) else Idle;
    RecordTasks(st.slots, c.guard, st.recorded, st.tasks, t, task);
  }

  lemma MapOneKeepsInv(c: Config, st: State, t: nat, outcome: Outcome)
    requires Inv(c, st) && t < |st.tasks| && st.tasks[t].Mapping? && Active(st.tasks[t]) && !outcome.Refused?
    ensures Inv(c, Mapped(c, st, t, outcome))
  {
    NotYetRecorded(st.slots, c.guard, st.next, st.recorded, st.tasks, t);
    MapSuits(c, st, t, outcome);
  }

  lemma MapKeepsInv(c: Config, st: State, t: nat, outcome: Outcome)
    requires Inv(c, st) && t < |st.tasks| && st.tasks[t].Mapping?
    ensures Inv(c, Mapped(c, st, t, outcome))
  {
    if Active(st.tasks[t]) && !outcome.Refused? {
      MapOneKeepsInv(c, st, t, outcome);
    } else {
      StopKeepsInv(c, st, t);
      assert Mapped(c, st, t, outcome) == Set(st, t, Idle);
    }
  }

  // ----- deallocate

  /** Taking a slot off the books: a thread that still maps it goes on ahead. */
  lemma RemoveTasks(slots: Slots, recorded: Pages, tasks: seq<Task>, t: nat, a: nat, size: nat)
    requires TasksOk(slots, recorded, tasks) && t < |tasks| && tasks[t].Idle?
    requires a in slots && slots[a] == Slot(size, InUse)
    ensures TasksOk(slots[a := Slot(size, Lost)], recorded, tasks[t := Unmapping(a, size, 0)])
  {
    forall u | 0 <= u < |tasks| && u != t && Busy(tasks[u], a)
      ensures TaskOk(slots[a := Slot(size, Lost)], recorded, tasks[u]) && PairOk(Unmapping(a, size, 0), tasks[u])
    {
      assert TaskOk(slots, recorded, tasks[u]);
    }
    TasksMoved(slots, recorded, tasks, t, a, Slot(size, Lost), recorded, Unmapping(a, size, 0));
  }

  lemma RemoveLiveKeepsInv(c: Config, st: State, t: nat, top: nat)
    requires Inv(c, st) && t < |st.tasks| && st.tasks[t].Idle? && top in st.live
    ensures Inv(c, Removed(c, st, t, top))
  {
    var size := st.live[top];
    var a := SlotStart(c.guard, top, size);
    OnTheBooks(st.slots, c.guard, st.live, top);
    Release(st.slots, c.guard, st.next, st.live, st.cached, st.recorded, a, size);
    StillWithin(st.slots, c.guard, c.regionEnd, a, Slot(size, Lost));
    RemoveTasks(st.slots, st.recorded, st.tasks, t, a, size);
  }

  lemma RemoveKeepsInv(c: Config, st: State, t: nat, top: nat)
    requires Inv(c, st) && t < |st.tasks| && st.tasks[t].Idle?
    ensures Inv(c, Removed(c, st, t, top))
  {
    if top in st.live {
      RemoveLiveKeepsInv(c, st, t, top);
    }
  }

  /** A thread that still maps the slot is past every page that is recorded. */
  lemma MapperIsAhead(slots: Slots, recorded: Pages, tasks: seq<Task>, t: nat, page: nat, u: nat)
    requires TasksOk(slots, recorded, tasks) && t < |tasks| && u < |tasks| && t != u
    requires tasks[t].Unmapping? && Busy(tasks[u], tasks[t].a)
    requires page in recorded && recorded[page] == Owner(tasks[t].a, tasks[t].done)
    ensures TaskOk(slots, recorded - {page}, tasks[u])
    ensures PairOk(Unmapping(tasks[t].a, tasks[t].size, tasks[t].done + 1), tasks[u])
  {
    assert PairOk(tasks[t], tasks[u]) && TaskOk(slots, recorded, tasks[u]);
  }

  /** Unmapping the next page: it was recorded, so a thread that still maps the slot is past it. */
  lemma UnmapMoved(slots: Slots, recorded: Pages, tasks: seq<Task>, t: nat, page: nat)
    requires TasksOk(slots, recorded, tasks) && t < |tasks| && tasks[t].Unmapping?
    requires page in recorded && recorded[page] == Owner(tasks[t].a, tasks[t].done)
    requires forall p | p in recorded - {page} && recorded[p].slot == tasks[t].a ::
               recorded[p].index >= tasks[t].done + 1
    ensures var a, size, done := tasks[t].a, tasks[t].size, tasks[t].done;
            TasksOk(slots, recorded - {page}, tasks[t := Unmapping(a, size, done + 1)])
  {
    var a, size, done := tasks[t].a, tasks[t].size, tasks[t].done;
    assert TaskOk(slots, recorded, tasks[t]);
    assert slots[a := slots[a]] == slots;
    forall u | 0 <= u < |tasks| && u != t && Busy(tasks[u], a)
      ensures TaskOk(slots, recorded - {page}, tasks[u]) && PairOk(Unmapping(a, size, done + 1), tasks[u])
    {
      MapperIsAhead(slots, recorded, tasks, t, page, u);
    }
    TasksMoved(slots, recorded, tasks, t, a, slots[a], recorded - {page}, Unmapping(a, size, done + 1));
  }

  /** Fewer pages recorded, and one thread stopped, suits everyone. */
  lemma ForgetTasks(slots: Slots, recorded: Pages, page: nat, tasks: seq<Task>, t: nat)
    requires TasksOk(slots, recorded, tasks) && t < |tasks|
    ensures TasksOk(slots, recorded - {page}, tasks[t := Idle])
  {
    var tasks' := tasks[t := Idle];
    forall u | 0 <= u < |tasks'| && Active(tasks'[u])
      ensures TaskOk(slots, recorded - {page}, tasks'[u])
    {
      assert TaskOk(slots, recorded, tasks[u]);
    }
  }

  lemma ForgetPage(slots: Slots, guard: nat, recorded: Pages, owner: Pages, page: nat)
    requires PagesOk(slots, guard, recorded) && Backed(owner, recorded)
    ensures PagesOk(slots, guard, recorded - {page}) && Backed(owner - {page}, recorded - {page})
  {
    forall p | p in recorded - {page}
      ensures PageOk(slots, guard, p, recorded[p])
    {
      assert p in recorded;
    }
  }

  /** The state without `page`, and with thread `t` at `task`. */
  function Without(st: State, page: nat, t: nat, task: Task): State
    requires t < |st.tasks|
  {
    st.(recorded := st.recorded - {page}, owner := st.owner - {page}, tasks := st.tasks[t := task])
  }

  lemma UnmapSuits(c: Config, st: State, t: nat, forgets: bool)
    requires PagesOk(st.slots, c.guard, st.recorded) && TasksOk(st.slots, st.recorded, st.tasks)
    requires Backed(st.owner, st.recorded)
    requires t < |st.tasks| && st.tasks[t].Unmapping? && st.tasks[t].done < PageCount(st.tasks[t].size)
    requires var page := PageAt(c.guard, st.tasks[t].a, st.tasks[t].done);
             page in st.recorded && st.recorded[page] == Owner(st.tasks[t].a, st.tasks[t].done)
    ensures Suits(c, st, Unmapped(c, st, t, true, forgets))
  {
    var a, done := st.tasks[t].a, st.tasks[t].done;
    var page := PageAt(c.guard, a, done);
    assert TaskOk(st.slots, st.recorded, st.tasks[t]);
    ForgetPage(st.slots, c.guard, st.recorded, st.owner, page);
    UnmapPage(st.slots, c.guard, st.recorded, a, done);
    UnmapMoved(st.slots, st.recorded, st.tasks, t, page);
  }

  lemma ForgetSuits(c: Config, st: State, t: nat)
    requires PagesOk(st.slots, c.guard, st.recorded) && TasksOk(st.slots, st.recorded, st.tasks)
    requires Backed(st.owner, st.recorded)
    requires t < |st.tasks| && st.tasks[t].Unmapping? && st.tasks[t].done < PageCount(st.tasks[t].size)
    ensures Suits(c, st, Unmapped(c, st, t, false, true))
  {
    var page := PageAt(c.guard, st.tasks[t].a, st.tasks[t].done);
    ForgetPage(st.slots, c.guard, st.recorded, st.owner, page);
    ForgetTasks(st.slots, st.recorded, page, st.tasks, t);
  }

  lemma PageIsOurs(c: Config, st: State, t: nat)
    requires Carved(st.slots, c.guard, st.next) && PagesOk(st.slots, c.guard, st.recorded)
    requires t < |st.tasks| && Active(st.tasks[t]) && TaskOk(st.slots, st.recorded, st.tasks[t])
    requires st.tasks[t].Unmapping? && st.tasks[t].done < PageCount(st.tasks[t].size)
    requires PageAt(c.guard, st.tasks[t].a, st.tasks[t].done) in st.recorded
    ensures st.recorded[PageAt(c.guard, st.tasks[t].a, st.tasks[t].done)] == Owner(st.tasks[t].a, st.tasks[t].done)
  {
    var page := PageAt(c.guard, st.tasks[t].a, st.tasks[t].done);
    OwnerUnique(st.slots, c.guard, st.next, page, st.recorded[page], st.tasks[t].a, st.tasks[t].done);
  }

  lemma UnmapOneKeepsInv(c: Config, st: State, t: nat, forgets: bool)
    requires Inv(c, st) && t < |st.tasks| && st.tasks[t].Unmapping? && st.tasks[t].done < PageCount(st.tasks[t].size)
    requires PageAt(c.guard, st.tasks[t].a, st.tasks[t].done) in st.recorded
    ensures Inv(c, Unmapped(c, st, t, true, forgets))
  {
    PageIsOurs(c, st, t);
    UnmapSuits(c, st, t, forgets);
  }

  lemma ForgetKeepsInv(c: Config, st: State, t: nat)
    requires Inv(c, st) && t < |st.tasks| && st.tasks[t].Unmapping? && st.tasks[t].done < PageCount(st.tasks[t].size)
    ensures Inv(c, Unmapped(c, st, t, false, true))
  {
    ForgetSuits(c, st, t);
  }

  /** Once all pages are unmapped, nobody maps the slot any more. */
  lemma PushTasks(slots: Slots, guard: nat, recorded: Pages, tasks: seq<Task>, t: nat)
    requires TasksOk(slots, recorded, tasks) && PagesOk(slots, guard, recorded)
    requires t < |tasks| && tasks[t].Unmapping? && tasks[t].done >= PageCount(tasks[t].size)
    ensures var a, size := tasks[t].a, tasks[t].size;
            && a in slots && slots[a] == Slot(size, Lost) && (forall p | p in recorded :: recorded[p].slot != a)
            && TasksOk(slots[a := Slot(size, Cached)], recorded, tasks[t := Idle])
  {
    var a, size := tasks[t].a, tasks[t].size;
    assert TaskOk(slots, recorded, tasks[t]);
    NoPageLeft(slots, guard, recorded, a);
    forall u | 0 <= u < |tasks| && u != t
      ensures !Busy(tasks[u], a)
    {
      assert Active(tasks[u]) ==> TaskOk(slots, recorded, tasks[u]);
      assert Active(tasks[u]) && tasks[u].a == a ==> PairOk(tasks[t], tasks[u]);
    }
    TasksMoved(slots, recorded, tasks, t, a, Slot(size, Cached), recorded, Idle);
  }

  lemma PushKeepsInv(c: Config, st: State, t: nat)
    requires Inv(c, st) && t < |st.tasks| && st.tasks[t].Unmapping? && st.tasks[t].done >= PageCount(st.tasks[t].size)
    ensures Inv(c, Pushed(c, st, t))
  {
    var a, size := st.tasks[t].a, st.tasks[t].size;
    PushTasks(st.slots, c.guard, st.recorded, st.tasks, t);
    PutBack(st.slots, c.guard, st.next, st.live, st.cached, st.recorded, a, size);
    StillWithin(st.slots, c.guard, c.regionEnd, a, Slot(size, Cached));
  }

  lemma UnmapKeepsInv(c: Config, st: State, t: nat, ok: bool, forgets: bool)
    requires Inv(c, st) && c.strict && Enabled(c, st, UnmapNext(t, ok, forgets))
    ensures Inv(c, Unmapped(c, st, t, ok, forgets))
  {
    if st.tasks[t].done >= PageCount(st.tasks[t].size) {
      PushKeepsInv(c, st, t);
      assert Unmapped(c, st, t, ok, forgets) == Pushed(c, st, t);
    } else if ok {
      UnmapOneKeepsInv(c, st, t, forgets);
    } else if forgets {
      ForgetKeepsInv(c, st, t);
    } else {
      StopKeepsInv(c, st, t);
      assert Unmapped(c, st, t, ok, forgets) == Set(st, t, Idle);
    }
  }

  // ----- whole runs

  lemma StepKeepsInv(c: Config, st: State, step: Step)
    requires Inv(c, st) && c.strict && Enabled(c, st, step)
    ensures Inv(c, Do(c, st, step))
  {
    match step
    case Take(t, request) => TakeKeepsInv(c, st, t, RoundUp(request));
    case Enter(t) => EnterKeepsInv(c, st, t);
    case MapNext(t, outcome) => MapKeepsInv(c, st, t, outcome);
    case Remove(t, top) => RemoveKeepsInv(c, st, t, top);
    case UnmapNext(t, ok, forgets) => UnmapKeepsInv(c, st, t, ok, forgets);
  }

  /** No slots, no pages, any number of idle threads. */
  ghost predicate Initial(st: State) {
    && st.slots == map[] && st.live == map[] && st.cached == map[] && st.recorded == map[] && st.owner == map[]
    && forall t | 0 <= t < |st.tasks| :: st.tasks[t].Idle?
  }

  predicate IsRun(c: Config, st: State, steps: seq<Step>)
    decreases |steps|
  {
    steps == [] || (Enabled(c, st, steps[0]) && IsRun(c, Do(c, st, steps[0]), steps[1..]))
  }

  function RunFrom(c: Config, st: State, steps: seq<Step>): State
    requires IsRun(c, st, steps)
    decreases |steps|
  {
    if steps == [] then st else RunFrom(c, Do(c, st, steps[0]), steps[1..])
  }

  lemma {:induction false} RunKeepsInv(c: Config, st: State, steps: seq<Step>)
    requires Inv(c, st) && c.strict && IsRun(c, st, steps)
    ensures Inv(c, RunFrom(c, st, steps))
    decreases |steps|
  {
    if steps != [] {
      StepKeepsInv(c, st, steps[0]);
      RunKeepsInv(c, Do(c, st, steps[0]), steps[1..]);
    }
  }

  /** Address `x` lies in slot `a`, guard included. */
  ghost predicate InSlot(slots: Slots, guard: nat, a: nat, x: nat) {
    a in slots && a <= x < SlotEnd(guard, a, slots[a].size)
  }

  /** A page of a cached slot is mapped, so the slot will be handed out with a page already mapped. */
  ghost predicate Unsafe(c: Config, st: State) {
    exists a: nat, i: nat ::
      && a in st.slots && st.slots[a].place == Cached
      && i < PageCount(st.slots[a].size) && PageAt(c.guard, a, i) in st.owner
  }

  lemma InvIsSafe(c: Config, st: State)
    requires Inv(c, st)
    ensures !Unsafe(c, st)
  {
    forall a: nat, i: nat | a in st.slots && st.slots[a].place == Cached && i < PageCount(st.slots[a].size)
      ensures PageAt(c.guard, a, i) !in st.owner
    {
      CachedIsUnmapped(st.slots, c.guard, st.next, st.recorded, a, i);
    }
  }

  /** In every interleaving of any calls, also when a stack is freed while it is still being mapped: no address is in
      two slots, no page of a cached slot is mapped, and the books say which slots are allocated and which cached,
      each once. */
  lemma SlotsStaySafe(c: Config, start: State, steps: seq<Step>)
    requires c.strict && Initial(start) && IsRun(c, start, steps)
    ensures var st := RunFrom(c, start, steps);
            && Inv(c, st) && !Unsafe(c, st)
            && (forall a: nat, b: nat, x: nat | InSlot(st.slots, c.guard, a, x) && InSlot(st.slots, c.guard, b, x) ::
                  a == b)
  {
    assert Inv(c, start);
    RunKeepsInv(c, start, steps);
    var st := RunFrom(c, start, steps);
    InvIsSafe(c, st);
    forall a: nat, b: nat, x: nat | InSlot(st.slots, c.guard, a, x) && InSlot(st.slots, c.guard, b, x)
      ensures a == b
    {
      if a != b {
        SlotsDisjoint(st.slots, c.guard, st.next, a, b, x);
      }
    }
  }

  /** A page about to be mapped is neither mapped nor recorded. */
  lemma NeverMappedTwice(c: Config, st: State, t: nat)
    requires Inv(c, st) && t < |st.tasks| && st.tasks[t].Mapping? && Active(st.tasks[t])
    ensures PageAt(c.guard, st.tasks[t].a, st.tasks[t].done) !in st.recorded
    ensures PageAt(c.guard, st.tasks[t].a, st.tasks[t].done) !in st.owner
  {
    NotYetRecorded(st.slots, c.guard, st.next, st.recorded, st.tasks, t);
  }

  // ----- the kernel's mapper and unmapper

  /** The page table agrees with the model on the pages of the stack area. */
  ghost predicate Matches(pt: Paging.PageTable, st: State, area: set<nat>)
    reads pt
  {
    && (forall p | p in area :: p in st.recorded <==> p in pt.frames)
    && (forall p | p in area :: p in st.owner <==> p in pt.View())
  }

  /** The mapper of the executor stacks is a mapper of the model: it fails without a trace when no frame is left for
      the stack page itself, and leaves that frame recorded when none is left for a table. */
  method KernelMap(pt: Paging.PageTable, c: Config, ghost st: State, t: nat, page: nat, frame: Option<nat>,
                   perm: Addressing.Perm, supply: seq<nat>, ghost area: set<nat>)
    returns (outcome: Outcome)
    requires pt.Valid() && Matches(pt, st, area) && page in area && forall p | p in area :: Paging.UserPage(pt.c, p)
    requires t < |st.tasks| && st.tasks[t].Mapping? && Active(st.tasks[t])
    requires page == PageAt(c.guard, st.tasks[t].a, st.tasks[t].done)
    requires frame.Some? ==> Addressing.IsFrame(pt.c.arch, frame.value) &&
                             Paging.Fresh(pt.c, supply, pt.frames[page := frame.value])
    modifies pt
    ensures pt.Valid() && Enabled(c, st, MapNext(t, outcome)) && Matches(pt, Do(c, st, MapNext(t, outcome)), area)
    ensures outcome.Refused? <==> frame.None?
  {
    if frame.None? {
      return Refused;
    }
    Paging.PageIsAligned(pt.c, page);
    var r := pt.Map(page, frame.value, perm, supply);
    outcome := if r.Ok? then Done else Recorded;
    MapMatches(pt.c, old(pt.frames), old(pt.View()), pt.frames, pt.View(), st, c, t, page, frame.value, outcome, area);
  }

  lemma MapMatches(pc: Paging.Config, frames: map<nat, nat>, view: Paging.Views, frames': map<nat, nat>,
                   view': Paging.Views, st: State, c: Config, t: nat, page: nat, frame: nat,
                   outcome: Outcome, area: set<nat>)
    requires forall p | p in area :: Paging.UserPage(pc, p)
    requires forall p | p in area :: (p in st.recorded <==> p in frames) && (p in st.owner <==> p in view)
    requires Paging.Extends(pc, frames[page := frame], frames')
    requires outcome.Done? || outcome.Recorded?
    requires view'.Keys == if outcome.Done? then view.Keys + {page} else view.Keys
    requires t < |st.tasks| && st.tasks[t].Mapping? && Active(st.tasks[t]) && page in area
    requires page == PageAt(c.guard, st.tasks[t].a, st.tasks[t].done)
    ensures var after := Mapped(c, st, t, outcome);
            forall p | p in area :: (p in after.recorded <==> p in frames') && (p in after.owner <==> p in view')
  {
  }

  /** The unmapper is a strict one: it succeeds only on a page for which a frame is recorded, always on one that is
      mapped, and in every case the frame is dropped and the page unmapped. */
  method KernelUnmap(pt: Paging.PageTable, c: Config, ghost st: State, t: nat, page: nat, ghost area: set<nat>)
    returns (ok: bool)
    requires pt.Valid() && Matches(pt, st, area) && page in area && forall p | p in area :: Paging.UserPage(pt.c, p)
    requires t < |st.tasks| && st.tasks[t].Unmapping? && Active(st.tasks[t])
    requires st.tasks[t].done < PageCount(st.tasks[t].size)
    requires page == PageAt(c.guard, st.tasks[t].a, st.tasks[t].done)
    modifies pt
    ensures pt.Valid() && (ok ==> page in st.recorded) && (page in st.owner ==> ok)
    ensures Enabled(c, st, UnmapNext(t, ok, true)) && Matches(pt, Do(c, st, UnmapNext(t, ok, true)), area)
  {
    Paging.PageIsAligned(pt.c, page);
    if page in pt.View() {
      Paging.MappedCanBeUnmapped(pt.c, pt.root, pt.mem, pt.frames, page);
    }
    var r := pt.Unmap(page);
    ok := r.Ok?;
  }

  // ----- why the unmapper must be strict

  /** With one that accepts any page, a stack freed while it is being mapped is cached too early: thread 1 frees it
      before thread 0 maps its only page. */
  function TooEarly(c: Config, next: nat): seq<Step> {
    [Take(0, PAGE_SIZE), Enter(0), Remove(1, SlotEnd(c.guard, next, PAGE_SIZE)), UnmapNext(1, true, true),
     UnmapNext(1, true, true), MapNext(0, Done)]
  }

  ghost predicate AllRunsSafe(c: Config, start: State) {
    forall steps: seq<Step> | IsRun(c, start, steps) :: !Unsafe(c, RunFrom(c, start, steps))
  }

  /** The states of that run. */
  function TooEarlyState(c: Config, start: State, i: nat): State
    requires |start.tasks| >= 2
  {
    var a, top := start.next, SlotEnd(c.guard, start.next, PAGE_SIZE);
    var carved := start.(next := a + PAGE_SIZE + c.guard, cached := map[PAGE_SIZE := []]);
    var lost, used := map[a := Slot(PAGE_SIZE, Lost)], map[a := Slot(PAGE_SIZE, InUse)];
    if i == 0 then start
    else if i == 1 then carved.(slots := lost, tasks := start.tasks[0 := Took(a, PAGE_SIZE)])
    else if i == 2 then
      carved.(slots := used, live := map[top := PAGE_SIZE], tasks := start.tasks[0 := Mapping(a, PAGE_SIZE, 0)])
    else if i <= 4 then
      carved.(slots := lost, tasks := start.tasks[0 := Mapping(a, PAGE_SIZE, 0)][1 := Unmapping(a, PAGE_SIZE, i - 3)])
    else
      var cached := carved.(slots := map[a := Slot(PAGE_SIZE, Cached)], cached := map[PAGE_SIZE := [a]],
                            tasks := start.tasks[0 := Mapping(a, PAGE_SIZE, 0)]);
      if i == 5 then cached
      else
        var page, o := PageAt(c.guard, a, 0), Owner(a, 0);
        cached.(recorded := map[page := o], owner := map[page := o],
                tasks := start.tasks[0 := Mapping(a, PAGE_SIZE, 1)])
  }

  ghost predicate TooEarlyOk(c: Config, start: State, i: nat)
    requires |start.tasks| >= 2 && i < 6
  {
    var st, step := TooEarlyState(c, start, i), TooEarly(c, start.next)[i];
    Enabled(c, st, step) && Do(c, st, step) == TooEarlyState(c, start, i + 1)
  }

  /** An unmapper that is not strict, two threads and room for a stack of one page. */
  ghost predicate Careless(c: Config, start: State) {
    !c.strict && Initial(start) && |start.tasks| >= 2 && start.next + PAGE_SIZE <= c.regionEnd
  }

  lemma OnePage()
    ensures RoundUp(PAGE_SIZE) == PAGE_SIZE && PageCount(PAGE_SIZE) == 1
  {
  }

  lemma TooEarlyTake(c: Config, start: State)
    requires Careless(c, start)
    ensures TooEarlyOk(c, start, 0)
  {
    OnePage();
    var after := Taken(c, start, 0, PAGE_SIZE);
    assert after.slots == TooEarlyState(c, start, 1).slots;
    assert after.cached == TooEarlyState(c, start, 1).cached;
  }

  lemma TooEarlyEnter(c: Config, start: State)
    requires Careless(c, start)
    ensures TooEarlyOk(c, start, 1)
  {
    var after, next := Entered(c, TooEarlyState(c, start, 1), 0), TooEarlyState(c, start, 2);
    assert after.slots == next.slots && after.live == next.live && after.tasks == next.tasks;
  }

  lemma TooEarlyRemove(c: Config, start: State)
    requires Careless(c, start)
    ensures TooEarlyOk(c, start, 2)
  {
    var st, next := TooEarlyState(c, start, 2), TooEarlyState(c, start, 3);
    var after := Removed(c, st, 1, SlotEnd(c.guard, start.next, PAGE_SIZE));
    assert after.slots == next.slots && after.live == next.live && after.tasks == next.tasks;
  }

  lemma TooEarlyUnmap(c: Config, start: State)
    requires Careless(c, start)
    ensures TooEarlyOk(c, start, 3)
  {
    OnePage();
    var after, next := Unmapped(c, TooEarlyState(c, start, 3), 1, true, true), TooEarlyState(c, start, 4);
    assert after.tasks == next.tasks && after.recorded == next.recorded && after.owner == next.owner;
  }

  lemma TooEarlyPush(c: Config, start: State)
    requires Careless(c, start)
    ensures TooEarlyOk(c, start, 4)
  {
    OnePage();
    var after, next := Pushed(c, TooEarlyState(c, start, 4), 1), TooEarlyState(c, start, 5);
    assert [start.next] + Listed(TooEarlyState(c, start, 4).cached, PAGE_SIZE) == [start.next];
    assert after.tasks == next.tasks && after.slots == next.slots && after.cached == next.cached;
  }

  lemma TooEarlyMap(c: Config, start: State)
    requires Careless(c, start)
    ensures TooEarlyOk(c, start, 5) && Unsafe(c, TooEarlyState(c, start, 6))
  {
    OnePage();
    var after, next := Mapped(c, TooEarlyState(c, start, 5), 0, Done), TooEarlyState(c, start, 6);
    assert after.tasks == next.tasks && after.recorded == next.recorded && after.owner == next.owner;
    assert PageAt(c.guard, start.next, 0) in next.owner;
  }

  lemma TooEarlyStep(c: Config, start: State, i: nat)
    requires Careless(c, start) && i < 6
    ensures TooEarlyOk(c, start, i)
  {
    match i
    case 0 => TooEarlyTake(c, start);
    case 1 => TooEarlyEnter(c, start);
    case 2 => TooEarlyRemove(c, start);
    case 3 => TooEarlyUnmap(c, start);
    case 4 => TooEarlyPush(c, start);
    case _ => TooEarlyMap(c, start);
  }

  lemma {:induction false} TooEarlyRun(c: Config, start: State, i: nat)
    requires Careless(c, start) && i <= 6
    ensures var rest := TooEarly(c, start.next)[i..];
            IsRun(c, TooEarlyState(c, start, i), rest) &&
            RunFrom(c, TooEarlyState(c, start, i), rest) == TooEarlyState(c, start, 6)
    decreases 6 - i
  {
    var steps := TooEarly(c, start.next);
    if i < 6 {
      TooEarlyStep(c, start, i);
      TooEarlyRun(c, start, i + 1);
      assert steps[i..][0] == steps[i] && steps[i..][1..] == steps[i + 1..];
    } else {
      assert steps[6..] == [];
    }
  }

  /** From a start with two threads and room for a page: every run is safe if and only if the unmapper refuses the
      pages that have not been handed to the mapper. */
  lemma SafeExactlyIfStrict(c: Config, start: State)
    requires Initial(start) && |start.tasks| >= 2 && start.next + PAGE_SIZE <= c.regionEnd
    ensures AllRunsSafe(c, start) <==> c.strict
  {
    if c.strict {
      forall steps: seq<Step> | IsRun(c, start, steps)
        ensures !Unsafe(c, RunFrom(c, start, steps))
      {
        SlotsStaySafe(c, start, steps);
      }
    } else {
      var steps := TooEarly(c, start.next);
      TooEarlyRun(c, start, 0);
      TooEarlyMap(c, start);
      assert steps[0..] == steps;
      assert IsRun(c, start, steps) && Unsafe(c, RunFrom(c, start, steps));
    }
  }
}
