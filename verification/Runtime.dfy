/** The runtimes of all CPUs, running without schedule tables, as one transition system: the run loop
    over inspectors, and the protocol by which the last idle CPU halts the machine. Every step is one
    critical section of the source; steps of different CPUs interleave freely. */
module Runtimes {
  import opened Errors

  datatype Status = Unused | Init | Idle | Running(id: nat) | Endpoint

  /** Where a CPU stands: not booted, at the head of its run loop, holding a popped inspector, inside
      it, just out of it, about to decide on halting, or waiting for an interrupt. */
  datatype Place = Off | Top | Popped(id: nat) | Inside(id: nat) | Back(id: nat) | Deciding | Waiting

  datatype Cpu = Cpu(status: Status, place: Place, queue: seq<nat>, registry: set<nat>, ipi: bool)

  datatype State = State(cpus: seq<Cpu>, halted: bool)

  datatype Step =
    | Boot(c: nat, id: nat)
    | Pop(c: nat)
    | Enter(c: nat)
    | Register(c: nat, id: nat)
    | TakeIpi(c: nat)
    | Leave(c: nat)
    | Settle(c: nat, finished: bool)
    | Decide(c: nat)
    | Wake(c: nat)

  /** Lowest CPU at its endpoint, from `i` on. */
  function FirstEndpoint(cpus: seq<Cpu>, i: nat): (m: Option<nat>)
    requires i <= |cpus|
    ensures m.Some? ==> i <= m.value < |cpus| && cpus[m.value].status == Endpoint
    ensures m.Some? ==> forall k | i <= k < m.value :: cpus[k].status != Endpoint
    ensures m.None? ==> forall k | i <= k < |cpus| :: cpus[k].status != Endpoint
    decreases |cpus| - i
  {
    if i == |cpus| then None
    else if cpus[i].status == Endpoint then Some(i)
    else FirstEndpoint(cpus, i + 1)
  }

  predicate AllAtEndpoint(cpus: seq<Cpu>) {
    forall k | 0 <= k < |cpus| :: cpus[k].status == Unused || cpus[k].status == Endpoint
  }

  predicate Enabled(s: State, step: Step) {
    && !s.halted && step.c < |s.cpus|
    && var cpu := s.cpus[step.c];
       match step
       case Boot(_, id) => cpu.place == Off
       case Pop(_) => cpu.place == Top
       case Enter(_) => cpu.place.Popped?
       case Register(_, id) => cpu.place.Inside? && id !in cpu.registry
       case TakeIpi(_) => cpu.place.Inside? && cpu.ipi
       case Leave(_) => cpu.place.Inside?
       case Settle(_, _) => cpu.place.Back?
       case Decide(_) => cpu.place == Deciding
       case Wake(_) => cpu.place == Waiting
  }

  function Put(s: State, c: nat, cpu: Cpu): State
    requires c < |s.cpus|
  {
    s.(cpus := s.cpus[c := cpu])
  }

  /** Raising the interrupt of the first CPU at its endpoint, unless that is the sender. */
  function SendIpi(s: State, c: nat): State {
    match FirstEndpoint(s.cpus, 0)
    case Some(m) => if m != c then Put(s, m, s.cpus[m].(ipi := true)) else s
    case None => s
  }

  function Do(s: State, step: Step): State
    requires Enabled(s, step)
  {
    var c := step.c;
    var cpu := s.cpus[c];
    match step
    case Boot(_, id) => Put(s, c, cpu.(place := Top, queue := [id], registry := {id}))
    case Pop(_) =>
      if cpu.queue == [] then Put(s, c, cpu.(place := Deciding))
      else Put(s, c, cpu.(place := Popped(cpu.queue[0]), queue := cpu.queue[1..]))
    case Enter(_) => Put(s, c, cpu.(place := Inside(cpu.place.id), status := Running(cpu.place.id)))
    case Register(_, id) => Put(s, c, cpu.(registry := cpu.registry + {id}, queue := cpu.queue + [id]))
    case TakeIpi(_) => Put(s, c, cpu.(ipi := false))
    case Leave(_) => Put(s, c, cpu.(place := Back(cpu.place.id), status := Idle))
    case Settle(_, finished) =>
      if finished then Put(s, c, cpu.(place := Top, registry := cpu.registry - {cpu.place.id}))
      else Put(s, c, cpu.(place := Top, queue := cpu.queue + [cpu.place.id]))
    case Decide(_) =>
      if |s.cpus| == 1 || AllAtEndpoint(s.cpus) then s.(halted := true)
      else
        var sent := SendIpi(s, c);
        Put(sent, c, sent.cpus[c].(status := Endpoint, place := Waiting))
    case Wake(_) => Put(s, c, cpu.(place := Top, ipi := false))
  }

  // ----- what every CPU keeps

  /** Queued inspectors and the one in hand are exactly the registered ones, each once. So the lookups
      after an inspector comes back, which the source unwraps, always succeed. */
  predicate Conserved(cpu: Cpu) {
    && (forall i, j | 0 <= i < j < |cpu.queue| :: cpu.queue[i] != cpu.queue[j])
    && (forall id | id in cpu.queue :: id in cpu.registry)
    && match cpu.place
       case Popped(x) => HoldsOut(cpu, x)
       case Inside(x) => HoldsOut(cpu, x)
       case Back(x) => HoldsOut(cpu, x)
       case _ => forall id | id in cpu.registry :: id in cpu.queue
  }

  predicate HoldsOut(cpu: Cpu, x: nat) {
    x in cpu.registry && x !in cpu.queue && forall id | id in cpu.registry && id != x :: id in cpu.queue
  }

  /** The status follows the place, and a CPU at its endpoint has nothing to run. */
  predicate Honest(cpu: Cpu) {
    && (cpu.place.Inside? <==> cpu.status.Running?)
    && (cpu.place.Inside? ==> cpu.status == Running(cpu.place.id))
    && (cpu.place.Deciding? || cpu.place.Waiting? ==> cpu.queue == [])
    && (cpu.place.Waiting? ==> cpu.status == Endpoint)
    && (cpu.place.Off? ==> cpu.status == Unused)
    && (cpu.status == Endpoint ==> cpu.queue == [] && (cpu.place.Top? || cpu.place.Deciding? || cpu.place.Waiting?))
  }

  /** A CPU that has booted and is still `Unused` has something to run, and one that has not booted has nothing. */
  predicate Begun(cpu: Cpu) {
    && (cpu.place.Off? ==> cpu.registry == {} && cpu.queue == [])
    && (cpu.status == Unused && !cpu.place.Off? ==> (cpu.place.Top? || cpu.place.Popped?) && cpu.registry != {})
  }

  predicate CpuOk(cpu: Cpu) {
    Conserved(cpu) && Honest(cpu) && Begun(cpu)
  }

  /** A CPU at its endpoint that will look at the others again: it is on its way to decide, or an
      interrupt is pending for it. */
  predicate WillRecheck(cpu: Cpu) {
    cpu.status == Endpoint && (cpu.place.Top? || cpu.place.Deciding? || (cpu.place.Waiting? && cpu.ipi))
  }

  ghost predicate TwoStarted(cpus: seq<Cpu>) {
    exists a, b :: 0 <= a < b < |cpus| && cpus[a].status != Unused && cpus[b].status != Unused
  }

  ghost predicate Inv(s: State) {
    && (forall k | 0 <= k < |s.cpus| :: CpuOk(s.cpus[k]))
    && (s.halted ==> if |s.cpus| == 1 then s.cpus[0].place.Deciding? else AllAtEndpoint(s.cpus))
    && (!s.halted && TwoStarted(s.cpus) && AllAtEndpoint(s.cpus) ==>
          exists k :: 0 <= k < |s.cpus| && WillRecheck(s.cpus[k]))
  }

  ghost predicate Initial(s: State) {
    && !s.halted
    && forall k | 0 <= k < |s.cpus| :: s.cpus[k] == Cpu(Unused, Off, [], {}, false)
  }

  /** The states after each of a sequence of steps. */
  ghost predicate IsRun(states: seq<State>, steps: seq<Step>) {
    && |states| == |steps| + 1 && Initial(states[0])
    && forall i | 0 <= i < |steps| :: Enabled(states[i], steps[i]) && states[i + 1] == Do(states[i], steps[i])
  }

  lemma ConservedKept(s: State, step: Step)
    requires Enabled(s, step) && CpuOk(s.cpus[step.c])
    ensures Conserved(Do(s, step).cpus[step.c])
  {
    var cpu := s.cpus[step.c];
    if step.Pop? && cpu.queue != [] {
      PopConserves(cpu);
    }
  }

  lemma PopConserves(cpu: Cpu)
    requires Conserved(cpu) && cpu.place == Top && cpu.queue != []
    ensures Conserved(cpu.(place := Popped(cpu.queue[0]), queue := cpu.queue[1..]))
  {
    assert cpu.queue == [cpu.queue[0]] + cpu.queue[1..];
  }

  lemma HonestKept(s: State, step: Step)
    requires Enabled(s, step) && CpuOk(s.cpus[step.c])
    ensures Honest(Do(s, step).cpus[step.c])
  {
  }

  lemma BegunKept(s: State, step: Step)
    requires Enabled(s, step) && CpuOk(s.cpus[step.c])
    ensures Begun(Do(s, step).cpus[step.c])
  {
    var cpu := s.cpus[step.c];
    if step.Boot? {
      assert step.id in Do(s, step).cpus[step.c].registry;
    }
  }

  /** Only its own steps change where a CPU stands; others can only raise its interrupt. */
  lemma OthersKeep(s: State, step: Step, k: nat)
    requires Enabled(s, step) && k < |s.cpus| && k != step.c
    ensures Do(s, step).cpus[k] == s.cpus[k] || Do(s, step).cpus[k] == s.cpus[k].(ipi := true)
  {
  }

  /** The last CPU to reach its endpoint has woken one that is already there. */
  lemma LastArrival(s: State, c: nat, other: nat)
    requires Enabled(s, Decide(c)) && !Do(s, Decide(c)).halted && forall k | 0 <= k < |s.cpus| :: Honest(s.cpus[k])
    requires s.cpus[c].status != Endpoint && other < |s.cpus| && s.cpus[other].status == Endpoint
    ensures exists k :: 0 <= k < |s.cpus| && WillRecheck(Do(s, Decide(c)).cpus[k])
  {
    var m := FirstEndpoint(s.cpus, 0).value;
    assert Honest(s.cpus[m]) && m != c;
    assert Do(s, Decide(c)).cpus[m] == s.cpus[m].(ipi := true);
    assert WillRecheck(Do(s, Decide(c)).cpus[m]);
  }

  /** A CPU that will re-check does so until the machine halts. */
  lemma StillRechecks(s: State, step: Step, k: nat)
    requires Inv(s) && Enabled(s, step) && AllAtEndpoint(s.cpus) && k < |s.cpus| && WillRecheck(s.cpus[k])
    ensures Do(s, step).halted || WillRecheck(Do(s, step).cpus[k])
  {
    if k != step.c {
      OthersKeep(s, step, k);
    }
  }

  /** Statuses before and after a step that ends with everyone at the endpoint. */
  lemma OnlyDecideArrives(s: State, step: Step)
    requires Inv(s) && Enabled(s, step) && AllAtEndpoint(Do(s, step).cpus)
    ensures forall k | 0 <= k < |s.cpus| && k != step.c :: s.cpus[k].status == Do(s, step).cpus[k].status
    ensures step.Decide? || s.cpus[step.c].status == Do(s, step).cpus[step.c].status
  {
    forall k | 0 <= k < |s.cpus| && k != step.c
      ensures s.cpus[k].status == Do(s, step).cpus[k].status
    {
      OthersKeep(s, step, k);
    }
  }

  /** When the statuses do not change, whoever was due to look again still is. */
  lemma RecheckSame(s: State, step: Step)
    requires Inv(s) && Enabled(s, step) && s.cpus[step.c].status == Do(s, step).cpus[step.c].status
    requires var t := Do(s, step); !t.halted && TwoStarted(t.cpus) && AllAtEndpoint(t.cpus)
    ensures exists k :: 0 <= k < |s.cpus| && WillRecheck(Do(s, step).cpus[k])
  {
    OnlyDecideArrives(s, step);
    SameStatuses(s.cpus, Do(s, step).cpus);
    var k :| 0 <= k < |s.cpus| && WillRecheck(s.cpus[k]);
    StillRechecks(s, step, k);
  }

  /** When the last CPU arrives, another is already there. */
  lemma RecheckArrival(s: State, c: nat)
    requires Inv(s) && Enabled(s, Decide(c)) && s.cpus[c].status != Endpoint
    requires var t := Do(s, Decide(c)); !t.halted && TwoStarted(t.cpus) && AllAtEndpoint(t.cpus)
    ensures exists k :: 0 <= k < |s.cpus| && WillRecheck(Do(s, Decide(c)).cpus[k])
  {
    var t := Do(s, Decide(c));
    OnlyDecideArrives(s, Decide(c));
    var a, b :| 0 <= a < b < |t.cpus| && t.cpus[a].status != Unused && t.cpus[b].status != Unused;
    LastArrival(s, c, if a == c then b else a);
  }

  lemma RecheckKept(s: State, step: Step)
    requires Inv(s) && Enabled(s, step)
    requires var t := Do(s, step); !t.halted && TwoStarted(t.cpus) && AllAtEndpoint(t.cpus)
    ensures exists k :: 0 <= k < |s.cpus| && WillRecheck(Do(s, step).cpus[k])
  {
    if s.cpus[step.c].status == Do(s, step).cpus[step.c].status {
      RecheckSame(s, step);
    } else {
      OnlyDecideArrives(s, step);
      RecheckArrival(s, step.c);
    }
  }

  lemma SameStatuses(cpus: seq<Cpu>, cpus': seq<Cpu>)
    requires |cpus| == |cpus'| && forall k | 0 <= k < |cpus| :: cpus[k].status == cpus'[k].status
    requires TwoStarted(cpus') && AllAtEndpoint(cpus')
    ensures TwoStarted(cpus) && AllAtEndpoint(cpus)
  {
    var a, b :| 0 <= a < b < |cpus'| && cpus'[a].status != Unused && cpus'[b].status != Unused;
    assert cpus[a].status != Unused && cpus[b].status != Unused;
  }

  lemma StepKeepsInv(s: State, step: Step)
    requires Inv(s) && Enabled(s, step)
    ensures Inv(Do(s, step))
  {
    assert |Do(s, step).cpus| == |s.cpus|;
    forall k | 0 <= k < |s.cpus|
      ensures CpuOk(Do(s, step).cpus[k])
    {
      if k == step.c {
        ConservedKept(s, step);
        HonestKept(s, step);
        BegunKept(s, step);
      } else {
        OthersKeep(s, step, k);
      }
    }
    var t := Do(s, step);
    if !t.halted && TwoStarted(t.cpus) && AllAtEndpoint(t.cpus) {
      RecheckKept(s, step);
    }
  }

  // ----- whole runs

  lemma {:induction false} RunKeepsInv(states: seq<State>, steps: seq<Step>, i: nat)
    requires IsRun(states, steps) && i < |states|
    ensures Inv(states[i]) && |states[i].cpus| == |states[0].cpus|
  {
    if i == 0 {
      assert !TwoStarted(states[0].cpus);
    } else {
      RunKeepsInv(states, steps, i - 1);
      StepKeepsInv(states[i - 1], steps[i - 1]);
    }
  }

  /** Safety: on several CPUs, the machine is halted only when every CPU that has left `Unused` is at its
      endpoint, with nothing queued, nothing registered and no inspector in hand. */
  lemma HaltedMeansAllDone(states: seq<State>, steps: seq<Step>, i: nat, k: nat)
    requires IsRun(states, steps) && i < |states| && states[i].halted && |states[0].cpus| > 1
    requires k < |states[i].cpus| && states[i].cpus[k].status != Unused
    ensures var cpu := states[i].cpus[k];
            cpu.status == Endpoint && cpu.queue == [] && cpu.registry == {} && !cpu.place.Inside?
  {
    RunKeepsInv(states, steps, i);
    assert CpuOk(states[i].cpus[k]);
  }

  lemma EmptyHands(cpu: Cpu)
    requires CpuOk(cpu) && cpu.queue == [] && (cpu.place.Deciding? || cpu.place.Off?)
    ensures cpu.registry == {}
  {
    assert forall id | id in cpu.registry :: id in cpu.queue;
  }

  /** Exactly which CPUs are left without work by the halt, on any number of CPUs: those that have left `Unused` and
      those that never booted. A CPU that booted and is still `Unused` always loses work. */
  lemma HaltLosesExactly(states: seq<State>, steps: seq<Step>, i: nat, k: nat)
    requires IsRun(states, steps) && i < |states| && states[i].halted && k < |states[i].cpus|
    ensures var cpu := states[i].cpus[k];
            && (cpu.registry == {} <==> cpu.status != Unused || cpu.place == Off)
            && (cpu.registry == {} ==> cpu.queue == [])
    ensures |states[0].cpus| == 1 ==> states[i].cpus[k].registry == {}
  {
    RunKeepsInv(states, steps, i);
    var cpu := states[i].cpus[k];
    assert CpuOk(cpu) && (cpu.queue != [] ==> cpu.queue[0] in cpu.registry);
    if |states[0].cpus| == 1 {
      assert cpu.place == Deciding;
      EmptyHands(cpu);
    } else if cpu.status != Unused {
      HaltedMeansAllDone(states, steps, i, k);
    }
  }

  /** No lost wake-up: while the machine is not halted, everyone who has started (two CPUs at least)
      cannot be at the endpoint without one of them being due to look again. */
  lemma NobodyIsStranded(states: seq<State>, steps: seq<Step>, i: nat)
    requires IsRun(states, steps) && i < |states| && !states[i].halted
    requires TwoStarted(states[i].cpus) && AllAtEndpoint(states[i].cpus)
    ensures exists k :: 0 <= k < |states[i].cpus| && WillRecheck(states[i].cpus[k])
  {
    RunKeepsInv(states, steps, i);
  }

  /** How many steps of its own such a CPU is away from deciding. */
  function StepsToDecide(cpu: Cpu): nat {
    match cpu.place
    case Waiting => 2
    case Top => 1
    case _ => 0
  }

  /** The step such a CPU takes next. */
  function NextStep(cpu: Cpu, c: nat): Step {
    match cpu.place
    case Waiting => Wake(c)
    case Top => Pop(c)
    case _ => Decide(c)
  }

  /** And looking again halts the machine: each of its own steps brings the CPU nearer to deciding, with
      everyone still at the endpoint, and the decision is to halt. Steps of the others do not set it back
      (`StillRechecks`). */
  lemma RecheckHalts(s: State, k: nat)
    requires Inv(s) && !s.halted && AllAtEndpoint(s.cpus) && k < |s.cpus| && WillRecheck(s.cpus[k])
    ensures Enabled(s, NextStep(s.cpus[k], k))
    ensures var t := Do(s, NextStep(s.cpus[k], k));
            if StepsToDecide(s.cpus[k]) == 0 then t.halted
            else AllAtEndpoint(t.cpus) && WillRecheck(t.cpus[k]) &&
                 StepsToDecide(t.cpus[k]) == StepsToDecide(s.cpus[k]) - 1
  {
    assert CpuOk(s.cpus[k]);
  }

  // ----- the order in which a CPU runs its inspectors

  /** The inspector that CPU `c` takes off its queue in step `k`, if any. */
  ghost function PoppedIn(states: seq<State>, steps: seq<Step>, c: nat, k: nat): seq<nat>
    requires |states| == |steps| + 1 && k < |steps|
  {
    if steps[k] == Pop(c) && c < |states[k + 1].cpus| && states[k + 1].cpus[c].place.Popped?
    then [states[k + 1].cpus[c].place.id] else []
  }

  /** The inspector that joins the queue of CPU `c` in step `k`, if any: a new one, or one that ran unfinished. */
  ghost function JoinedIn(states: seq<State>, steps: seq<Step>, c: nat, k: nat): seq<nat>
    requires |states| == |steps| + 1 && k < |steps|
  {
    match steps[k]
    case Boot(b, id) => if b == c then [id] else []
    case Register(b, id) => if b == c then [id] else []
    case Settle(b, finished) =>
      if b == c && !finished && c < |states[k].cpus| && states[k].cpus[c].place.Back?
      then [states[k].cpus[c].place.id] else []
    case _ => []
  }

  ghost function PoppedBetween(states: seq<State>, steps: seq<Step>, c: nat, j: nat, k: nat): seq<nat>
    requires |states| == |steps| + 1 && j <= k <= |steps|
  {
    if j == k then [] else PoppedBetween(states, steps, c, j, k - 1) + PoppedIn(states, steps, c, k - 1)
  }

  ghost function JoinedBetween(states: seq<State>, steps: seq<Step>, c: nat, j: nat, k: nat): seq<nat>
    requires |states| == |steps| + 1 && j <= k <= |steps|
  {
    if j == k then [] else JoinedBetween(states, steps, c, j, k - 1) + JoinedIn(states, steps, c, k - 1)
  }

  lemma RunLength(states: seq<State>, steps: seq<Step>, i: nat)
    requires IsRun(states, steps) && i < |states|
    ensures |states[i].cpus| == |states[0].cpus|
  {
    RunKeepsInv(states, steps, i);
  }

  lemma QueueStep(states: seq<State>, steps: seq<Step>, c: nat, k: nat)
    requires IsRun(states, steps) && k < |steps| && c < |states[0].cpus|
    ensures |states[k].cpus| == |states[k + 1].cpus| == |states[0].cpus|
    ensures PoppedIn(states, steps, c, k) + states[k + 1].cpus[c].queue ==
            states[k].cpus[c].queue + JoinedIn(states, steps, c, k)
  {
    RunKeepsInv(states, steps, k);
    RunKeepsInv(states, steps, k + 1);
    var s, step := states[k], steps[k];
    assert CpuOk(s.cpus[c]);
    if step.c != c {
      OthersKeep(s, step, c);
    } else {
      QueueOwnStep(s, step);
    }
  }

  /** Only its own waking or taking clears a pending interrupt, and both do. */
  lemma InterruptsAreKept(s: State, step: Step, k: nat)
    requires Enabled(s, step) && k < |s.cpus| && s.cpus[k].ipi
    ensures Do(s, step).cpus[k].ipi <==> step.c != k || !(step.TakeIpi? || step.Wake?)
  {
    if k != step.c {
      OthersKeep(s, step, k);
    }
  }

  /** What a CPU's own step does to its queue. */
  lemma QueueOwnStep(s: State, step: Step)
    requires Enabled(s, step) && CpuOk(s.cpus[step.c])
    ensures var cpu, after := s.cpus[step.c], Do(s, step).cpus[step.c];
            match step
            case Boot(_, id) => cpu.queue == [] && after.queue == [id]
            case Pop(_) => if after.place.Popped? then cpu.queue == [after.place.id] + after.queue
                           else cpu.queue == [] && after.queue == []
            case Register(_, id) => after.queue == cpu.queue + [id]
            case Settle(_, finished) => after.queue == cpu.queue + if finished then [] else [cpu.place.id]
            case _ => after.queue == cpu.queue
  {
    var cpu := s.cpus[step.c];
    if step.Pop? && cpu.queue != [] {
      assert cpu.queue == [cpu.queue[0]] + cpu.queue[1..];
    }
  }

  /** What step `k` does to the queue of CPU `c`. */
  ghost predicate QueueMoves(states: seq<State>, steps: seq<Step>, c: nat, k: nat)
    requires |states| == |steps| + 1 && k < |steps|
  {
    && c < |states[k].cpus| && c < |states[k + 1].cpus|
    && PoppedIn(states, steps, c, k) + states[k + 1].cpus[c].queue ==
       states[k].cpus[c].queue + JoinedIn(states, steps, c, k)
  }

  lemma {:induction false} QueuesMove(states: seq<State>, steps: seq<Step>, c: nat, j: nat, k: nat)
    requires |states| == |steps| + 1 && j <= k <= |steps| && c < |states[j].cpus|
    requires forall i: nat | i < |steps| :: QueueMoves(states, steps, c, i)
    ensures c < |states[k].cpus|
    ensures PoppedBetween(states, steps, c, j, k) + states[k].cpus[c].queue ==
            states[j].cpus[c].queue + JoinedBetween(states, steps, c, j, k)
  {
    if j < k {
      QueuesMove(states, steps, c, j, k - 1);
      assert QueueMoves(states, steps, c, k - 1);
      var popped, joined := PoppedBetween(states, steps, c, j, k - 1), JoinedBetween(states, steps, c, j, k - 1);
      var p, q := PoppedIn(states, steps, c, k - 1), JoinedIn(states, steps, c, k - 1);
      Regroup(popped, p, states[k].cpus[c].queue, states[k - 1].cpus[c].queue, q, states[j].cpus[c].queue, joined);
    }
  }

  /** First in, first out, over any stretch of any run: what CPU `c` pops, followed by what is then queued, is what was
      queued, followed by what has joined. So the inspector at position `i` is popped after exactly the `i` ahead of
      it, in their order, whatever joins meanwhile. */
  lemma FirstInFirstOut(states: seq<State>, steps: seq<Step>, c: nat, j: nat, k: nat)
    requires IsRun(states, steps) && j <= k <= |steps| && c < |states[0].cpus|
    ensures |states[j].cpus| == |states[k].cpus| == |states[0].cpus|
    ensures PoppedBetween(states, steps, c, j, k) + states[k].cpus[c].queue ==
            states[j].cpus[c].queue + JoinedBetween(states, steps, c, j, k)
  {
    RunLength(states, steps, j);
    RunLength(states, steps, k);
    forall i: nat | i < |steps|
      ensures QueueMoves(states, steps, c, i)
    {
      QueueStep(states, steps, c, i);
    }
    QueuesMove(states, steps, c, j, k);
  }

  lemma Regroup(a: seq<nat>, p: seq<nat>, now: seq<nat>, was: seq<nat>, q: seq<nat>, first: seq<nat>, b: seq<nat>)
    requires p + now == was + q && a + was == first + b
    ensures (a + p) + now == first + (b + q)
  {
    assert (a + p) + now == a + (p + now);
    assert a + (was + q) == (a + was) + q;
    assert (first + b) + q == first + (b + q);
  }

  /** The inspector queued at position `i` is the one that is popped after `i` others. */
  lemma PoppedInTurn(states: seq<State>, steps: seq<Step>, c: nat, j: nat, k: nat, i: nat)
    requires IsRun(states, steps) && j <= k <= |steps| && c < |states[0].cpus| && c < |states[j].cpus|
    requires i < |PoppedBetween(states, steps, c, j, k)| && i < |states[j].cpus[c].queue|
    ensures PoppedBetween(states, steps, c, j, k)[i] == states[j].cpus[c].queue[i]
  {
    FirstInFirstOut(states, steps, c, j, k);
    var popped, queue := PoppedBetween(states, steps, c, j, k), states[j].cpus[c].queue;
    assert (popped + states[k].cpus[c].queue)[i] == popped[i];
    assert (queue + JoinedBetween(states, steps, c, j, k))[i] == queue[i];
  }

  /** Round robin: when an inspector that has run and is not finished is next popped, exactly those that were queued
      when it came back have been popped in between, each once and in their order. */
  lemma RoundRobin(states: seq<State>, steps: seq<Step>, c: nat, j: nat, k: nat)
    requires IsRun(states, steps) && j < k < |steps| && c < |states[j].cpus|
    requires steps[j] == Settle(c, false)
    requires PoppedIn(states, steps, c, k) == [states[j].cpus[c].place.id]
    requires states[j].cpus[c].place.id !in PoppedBetween(states, steps, c, j + 1, k)
    ensures PoppedBetween(states, steps, c, j + 1, k) == states[j].cpus[c].queue
    ensures forall a, b | 0 <= a < b < |states[j].cpus[c].queue| ::
              states[j].cpus[c].queue[a] != states[j].cpus[c].queue[b]
  {
    RunKeepsInv(states, steps, j);
    assert CpuOk(states[j].cpus[c]);
    var x, queue := states[j].cpus[c].place.id, states[j].cpus[c].queue;
    QueueStep(states, steps, c, j);
    QueueStep(states, steps, c, k);
    FirstInFirstOut(states, steps, c, j + 1, k);
    var popped, now := PoppedBetween(states, steps, c, j + 1, k), states[k].cpus[c].queue;
    assert states[j + 1].cpus[c].queue == queue + [x];
    assert now == [x] + states[k + 1].cpus[c].queue;
    assert popped + ([x] + states[k + 1].cpus[c].queue) == (queue + [x]) + JoinedBetween(states, steps, c, j + 1, k);
    SplitAtFirst(popped, states[k + 1].cpus[c].queue, queue, JoinedBetween(states, steps, c, j + 1, k), x);
  }

  lemma {:induction false} PoppedSplit(states: seq<State>, steps: seq<Step>, c: nat, j: nat, m: nat, k: nat)
    requires |states| == |steps| + 1 && j <= m <= k <= |steps|
    ensures PoppedBetween(states, steps, c, j, k) ==
            PoppedBetween(states, steps, c, j, m) + PoppedBetween(states, steps, c, m, k)
  {
    if m < k {
      PoppedSplit(states, steps, c, j, m, k - 1);
    }
  }

  predicate InHand(cpu: Cpu, x: nat) {
    cpu.place == Popped(x) || cpu.place == Inside(x) || cpu.place == Back(x)
  }

  /** Step `i` leaves the inspector in the hands of CPU `c`, unless it settles it. */
  ghost predicate HandMoves(states: seq<State>, steps: seq<Step>, c: nat, x: nat, i: nat)
    requires |states| == |steps| + 1 && i < |steps|
  {
    c < |states[i].cpus| && InHand(states[i].cpus[c], x) && !(steps[i].Settle? && steps[i].c == c) ==>
      c < |states[i + 1].cpus| && InHand(states[i + 1].cpus[c], x) && steps[i] != Pop(c)
  }

  lemma NotPopped(states: seq<State>, steps: seq<Step>, c: nat, j: nat, k: nat)
    requires |states| == |steps| + 1 && j <= k < |steps| && steps[k] != Pop(c)
    ensures PoppedBetween(states, steps, c, j, k + 1) == PoppedBetween(states, steps, c, j, k)
  {
  }

  /** A popped inspector stays in hand, with nothing else popped, until step `m` settles it. */
  lemma {:induction false} HeldUntilSettled(states: seq<State>, steps: seq<Step>, c: nat, j: nat, k: nat, x: nat)
    returns (m: nat)
    requires |states| == |steps| + 1 && j < k <= |steps| && PoppedIn(states, steps, c, j) == [x]
    requires forall i: nat | i < |steps| :: HandMoves(states, steps, c, x, i)
    ensures j < m <= k && PoppedBetween(states, steps, c, j + 1, m) == []
    ensures c < |states[m].cpus| && InHand(states[m].cpus[c], x)
    ensures m < k ==> steps[m].Settle? && steps[m].c == c
    decreases k
  {
    m := k;
    if j + 1 < k {
      m := HeldUntilSettled(states, steps, c, j, k - 1, x);
      if m == k - 1 && !(steps[m].Settle? && steps[m].c == c) {
        assert HandMoves(states, steps, c, x, m);
        NotPopped(states, steps, c, j + 1, m);
        m := k;
      }
    }
  }

  lemma StaysInHand(s: State, step: Step, c: nat, x: nat)
    requires Enabled(s, step) && c < |s.cpus| && InHand(s.cpus[c], x) && !(step.Settle? && step.c == c)
    ensures InHand(Do(s, step).cpus[c], x) && step != Pop(c)
  {
    if step.c != c {
      OthersKeep(s, step, c);
    }
  }

  /** Between two pops of an inspector that stays registered, every inspector queued at the first is popped exactly
      once, in order, and after them only those that joined before this one was put back, also once each. */
  lemma BetweenPops(states: seq<State>, steps: seq<Step>, c: nat, j: nat, k: nat, x: nat) returns (m: nat)
    requires IsRun(states, steps) && j < k < |steps| && c < |states[0].cpus|
    requires PoppedIn(states, steps, c, j) == PoppedIn(states, steps, c, k) == [x]
    requires x !in PoppedBetween(states, steps, c, j + 1, k)
    requires forall i | j < i <= k :: c < |states[i].cpus| && x in states[i].cpus[c].registry
    ensures j < m < k && c < |states[j + 1].cpus|
    ensures var popped := PoppedBetween(states, steps, c, j + 1, k);
            && popped == states[j + 1].cpus[c].queue + JoinedBetween(states, steps, c, j + 1, m)
            && forall a, b | 0 <= a < b < |popped| :: popped[a] != popped[b]
  {
    forall i: nat | i < |steps|
      ensures HandMoves(states, steps, c, x, i)
    {
      HandMove(states, steps, c, x, i);
    }
    m := HeldUntilSettled(states, steps, c, j, k, x);
    assert m < k by {
      PopNeedsTop(states, steps, c, k, x);
    }
    SettledUnfinished(states, steps, c, m, x);
    FirstInFirstOut(states, steps, c, j + 1, m);
    PoppedAcross(states, steps, c, j + 1, m, k);
    RoundRobin(states, steps, c, m, k);
  }

  lemma HandMove(states: seq<State>, steps: seq<Step>, c: nat, x: nat, i: nat)
    requires IsRun(states, steps) && i < |steps|
    ensures HandMoves(states, steps, c, x, i)
  {
    if c < |states[i].cpus| && InHand(states[i].cpus[c], x) && !(steps[i].Settle? && steps[i].c == c) {
      StaysInHand(states[i], steps[i], c, x);
    }
  }

  lemma PopNeedsTop(states: seq<State>, steps: seq<Step>, c: nat, k: nat, x: nat)
    requires IsRun(states, steps) && k < |steps| && PoppedIn(states, steps, c, k) == [x]
    ensures c < |states[k].cpus| && states[k].cpus[c].place == Top
  {
    assert Enabled(states[k], steps[k]);
  }

  lemma SettledUnfinished(states: seq<State>, steps: seq<Step>, c: nat, m: nat, x: nat)
    requires IsRun(states, steps) && m < |steps| && steps[m].Settle? && steps[m].c == c
    requires c < |states[m].cpus| && InHand(states[m].cpus[c], x)
    requires c < |states[m + 1].cpus| && x in states[m + 1].cpus[c].registry
    ensures steps[m] == Settle(c, false) && states[m].cpus[c].place == Back(x)
  {
    assert Enabled(states[m], steps[m]) && states[m + 1] == Do(states[m], steps[m]);
  }

  lemma PoppedAcross(states: seq<State>, steps: seq<Step>, c: nat, j: nat, m: nat, k: nat)
    requires |states| == |steps| + 1 && j <= m < k <= |steps| && steps[m].Settle?
    requires PoppedBetween(states, steps, c, j, m) == []
    ensures PoppedBetween(states, steps, c, j, k) == PoppedBetween(states, steps, c, m + 1, k)
  {
    NotPopped(states, steps, c, j, m);
    PoppedSplit(states, steps, c, j, m + 1, k);
  }

  lemma SplitAtFirst(a: seq<nat>, b: seq<nat>, c: seq<nat>, d: seq<nat>, x: nat)
    requires a + ([x] + b) == (c + [x]) + d && x !in a && x !in c
    ensures a == c
  {
    var s := a + ([x] + b);
    assert s[|a|] == x && s[|c|] == x;
    assert forall i | 0 <= i < |a| :: s[i] == a[i];
    assert forall i | 0 <= i < |c| :: s[i] == c[i];
  }

  // ----- without the proviso that everyone has left `Unused`

  /** CPU 0 runs its only inspector to completion, finds nobody else started, waits, is woken by some other
      interrupt, and halts the machine. */
  function EarlySteps(): seq<Step> {
    [Boot(0, 1), Boot(1, 2), Pop(0), Enter(0), Leave(0), Settle(0, true), Pop(0), Decide(0), Wake(0), Pop(0), Decide(0)]
  }

  const OFF := Cpu(Unused, Off, [], {}, false)
  const BOOTED := Cpu(Unused, Top, [2], {2}, false)

  /** The states it passes through; CPU 1 has booted but is still `Unused`. */
  function EarlyStates(): seq<State> {
    [State([OFF, OFF], false),
     State([Cpu(Unused, Top, [1], {1}, false), OFF], false),
     State([Cpu(Unused, Top, [1], {1}, false), BOOTED], false),
     State([Cpu(Unused, Popped(1), [], {1}, false), BOOTED], false),
     State([Cpu(Running(1), Inside(1), [], {1}, false), BOOTED], false),
     State([Cpu(Idle, Back(1), [], {1}, false), BOOTED], false),
     State([Cpu(Idle, Top, [], {}, false), BOOTED], false),
     State([Cpu(Idle, Deciding, [], {}, false), BOOTED], false),
     State([Cpu(Endpoint, Waiting, [], {}, false), BOOTED], false),
     State([Cpu(Endpoint, Top, [], {}, false), BOOTED], false),
     State([Cpu(Endpoint, Deciding, [], {}, false), BOOTED], false),
     State([Cpu(Endpoint, Deciding, [], {}, false), BOOTED], true)]
  }

  ghost predicate EarlyStepOk(i: nat)
    requires i < 11
  {
    Enabled(EarlyStates()[i], EarlySteps()[i]) && Do(EarlyStates()[i], EarlySteps()[i]) == EarlyStates()[i + 1]
  }

  lemma EarlyBoot()
    ensures EarlyStepOk(0) && EarlyStepOk(1) && EarlyStepOk(2)
  {
    assert [1][1..] == [];
    assert Do(EarlyStates()[0], Boot(0, 1)).cpus == EarlyStates()[1].cpus;
    assert Do(EarlyStates()[1], Boot(1, 2)).cpus == EarlyStates()[2].cpus;
    assert Do(EarlyStates()[2], Pop(0)).cpus == EarlyStates()[3].cpus;
  }

  lemma EarlyWork()
    ensures EarlyStepOk(3) && EarlyStepOk(4) && EarlyStepOk(5) && EarlyStepOk(6)
  {
    assert {1} - {1} == {};
    assert Do(EarlyStates()[3], Enter(0)).cpus == EarlyStates()[4].cpus;
    assert Do(EarlyStates()[4], Leave(0)).cpus == EarlyStates()[5].cpus;
    assert Do(EarlyStates()[5], Settle(0, true)).cpus == EarlyStates()[6].cpus;
    assert Do(EarlyStates()[6], Pop(0)).cpus == EarlyStates()[7].cpus;
  }

  lemma EarlyEnd()
    ensures EarlyStepOk(7) && EarlyStepOk(8) && EarlyStepOk(9) && EarlyStepOk(10)
  {
    assert EarlyStates()[7].cpus[0].status == Idle;
    assert FirstEndpoint(EarlyStates()[7].cpus, 0).None?;
    assert Do(EarlyStates()[7], Decide(0)).cpus == EarlyStates()[8].cpus;
    assert Do(EarlyStates()[8], Wake(0)).cpus == EarlyStates()[9].cpus;
    assert Do(EarlyStates()[9], Pop(0)).cpus == EarlyStates()[10].cpus;
  }

  /** So a CPU that has not left `Unused` may lose its work: this run halts with an inspector queued on CPU 1. */
  lemma HaltWithWorkLeft()
    ensures IsRun(EarlyStates(), EarlySteps())
    ensures var end := EarlyStates()[11]; end.halted && end.cpus[1].queue == [2] && end.cpus[1].status == Unused
  {
    forall i | 0 <= i < 11
      ensures Enabled(EarlyStates()[i], EarlySteps()[i])
              && EarlyStates()[i + 1] == Do(EarlyStates()[i], EarlySteps()[i])
    {
      EarlyStep(i);
    }
  }

  lemma EarlyStep(i: nat)
    requires i < 11
    ensures EarlyStepOk(i)
  {
    if i < 3 {
      EarlyBoot();
    } else if i < 7 {
      EarlyWork();
    } else {
      EarlyEnd();
    }
  }
}
