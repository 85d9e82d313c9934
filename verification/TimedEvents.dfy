/** One timed event raced by any number of `timeout` and `cancel` calls. A call removes the event from the
    queue under the queue lock, takes the handler under the event lock, and runs the callback outside both;
    these three steps of different calls interleave freely. */
module TimedEvents {
  import opened Errors

  datatype Kind = Timeout | Cancel

  datatype Status = Pending | Completed(kind: Kind)

  /** How far a call has got: not begun, holding the removed event, holding the callback, returned after
      running it, or turned away by the queue or, in `invoke`, by a missing handler. */
  datatype Place = Ready | Removed | Holding | Returned | TurnedAway | HandlerMissing

  datatype Call = Call(kind: Kind, place: Place)

  datatype State = State(queued: bool, handler: bool, status: Status, calls: seq<Call>, ran: seq<Kind>)

  datatype Step = Arrive(kind: Kind) | Remove(c: nat) | Take(c: nat) | RunCallback(c: nat)

  predicate Enabled(s: State, step: Step) {
    match step
    case Arrive(_) => true
    case Remove(c) => c < |s.calls| && s.calls[c].place == Ready
    case Take(c) => c < |s.calls| && s.calls[c].place == Removed
    case RunCallback(c) => c < |s.calls| && s.calls[c].place == Holding
  }

  function Move(s: State, c: nat, place: Place): State
    requires c < |s.calls|
  {
    s.(calls := s.calls[c := s.calls[c].(place := place)])
  }

  function Do(s: State, step: Step): State
    requires Enabled(s, step)
  {
    match step
    case Arrive(kind) => s.(calls := s.calls + [Call(kind, Ready)])
    case Remove(c) => if s.queued then Move(s, c, Removed).(queued := false) else Move(s, c, TurnedAway)
    case Take(c) =>
      if s.handler then Move(s, c, Holding).(handler := false, status := Completed(s.calls[c].kind))
      else Move(s, c, HandlerMissing)
    case RunCallback(c) => Move(s, c, Returned).(ran := s.ran + [s.calls[c].kind])
  }

  /** A new event: registered, with its handler, before any call. */
  predicate Created(s: State) {
    s == State(true, true, Pending, [], [])
  }

  ghost predicate IsRun(states: seq<State>, steps: seq<Step>) {
    && |states| == |steps| + 1 && Created(states[0])
    && forall i | 0 <= i < |steps| :: Enabled(states[i], steps[i]) && states[i + 1] == Do(states[i], steps[i])
  }

  /** At most one call, the owner, ever gets past the queue; everything else follows how far it is. */
  ghost predicate Owned(s: State, owner: Option<nat>) {
    && (forall c | 0 <= c < |s.calls| && owner != Some(c) ::
          s.calls[c].place == Ready || s.calls[c].place == TurnedAway)
    && match owner
       case None =>
         && s.queued && s.handler && s.status == Pending && s.ran == []
         && forall c | 0 <= c < |s.calls| :: s.calls[c].place == Ready
       case Some(o) =>
         && !s.queued && o < |s.calls|
         && match s.calls[o].place
            case Removed => s.handler && s.status == Pending && s.ran == []
            case Holding => !s.handler && s.status == Completed(s.calls[o].kind) && s.ran == []
            case Returned => !s.handler && s.status == Completed(s.calls[o].kind) && s.ran == [s.calls[o].kind]
            case _ => false
  }

  /** The calls made in the order of their arrival, `Timeout` for `timeout()` and `Cancel` for `cancel()`. */
  function Arrivals(steps: seq<Step>): seq<Kind> {
    if steps == [] then []
    else Arrivals(steps[..|steps| - 1]) +
         match steps[|steps| - 1] {
           case Arrive(kind) => [kind]
           case _ => []
         }
  }

  /** The call that gets to the queue first. */
  function FirstAtQueue(steps: seq<Step>): Option<nat> {
    if steps == [] then None
    else
      match FirstAtQueue(steps[..|steps| - 1])
      case Some(c) => Some(c)
      case None => if steps[|steps| - 1].Remove? then Some(steps[|steps| - 1].c) else None
  }

  lemma StepKeepsOwner(s: State, step: Step, owner: Option<nat>) returns (owner': Option<nat>)
    requires Owned(s, owner) && Enabled(s, step)
    ensures Owned(Do(s, step), owner')
    ensures owner' == if owner.Some? then owner else if step.Remove? then Some(step.c) else None
  {
    owner' := if step.Remove? && s.queued then Some(step.c) else owner;
  }

  /** The owner is the call that got to the queue first. */
  lemma {:induction false} RunHasOwner(states: seq<State>, steps: seq<Step>, i: nat) returns (owner: Option<nat>)
    requires IsRun(states, steps) && i < |states|
    ensures Owned(states[i], owner) && owner == FirstAtQueue(steps[..i])
  {
    if i == 0 {
      owner := None;
    } else {
      var before := RunHasOwner(states, steps, i - 1);
      owner := StepKeepsOwner(states[i - 1], steps[i - 1], before);
      assert steps[..i][..i - 1] == steps[..i - 1];
    }
  }

  /** Every call is of the kind it was made as. */
  lemma {:induction false} CallsAreArrivals(states: seq<State>, steps: seq<Step>, i: nat)
    requires IsRun(states, steps) && i < |states|
    ensures |states[i].calls| == |Arrivals(steps[..i])|
    ensures forall c | 0 <= c < |states[i].calls| :: states[i].calls[c].kind == Arrivals(steps[..i])[c]
  {
    if i > 0 {
      CallsAreArrivals(states, steps, i - 1);
      assert steps[..i][..i - 1] == steps[..i - 1];
    }
  }

  /** In every interleaving, at most one callback has run and it ran once; the status names the callback that
      runs; an event taken off the queue always still has its handler; and `retired` is true exactly when the
      handler has been taken. */
  lemma AtMostOnce(states: seq<State>, steps: seq<Step>, i: nat)
    requires IsRun(states, steps) && i < |states|
    ensures var s := states[i];
            && |s.ran| <= 1
            && (s.ran != [] ==> s.status == Completed(s.ran[0]))
            && (s.status != Pending <==> !s.handler)
            && (forall c | 0 <= c < |s.calls| :: s.calls[c].place != HandlerMissing)
            && |s.calls| == |Arrivals(steps[..i])|
            && (forall c | 0 <= c < |s.calls| && s.calls[c].place == Returned :: s.ran == [Arrivals(steps[..i])[c]])
  {
    var owner := RunHasOwner(states, steps, i);
    CallsAreArrivals(states, steps, i);
  }

  predicate Ended(s: State) {
    forall c | 0 <= c < |s.calls| ::
      s.calls[c].place != Ready && s.calls[c].place != Removed && s.calls[c].place != Holding
  }

  /** Once every call has ended, and there was one, exactly one of them succeeded, the one that got to the queue first;
      the callback of the kind it was made as has run, and the status names it. */
  lemma ExactlyOnce(states: seq<State>, steps: seq<Step>, i: nat) returns (winner: nat)
    requires IsRun(states, steps) && i < |states| && Ended(states[i]) && Arrivals(steps[..i]) != []
    ensures var s, made := states[i], Arrivals(steps[..i]);
            && |s.calls| == |made| && winner < |made| && FirstAtQueue(steps[..i]) == Some(winner)
            && s.calls[winner].place == Returned
            && s.ran == [made[winner]] && s.status == Completed(made[winner])
            && forall c | 0 <= c < |s.calls| && c != winner :: s.calls[c].place == TurnedAway
  {
    var owner := RunHasOwner(states, steps, i);
    CallsAreArrivals(states, steps, i);
    assert states[i].calls[0].place != Ready;
    winner := owner.value;
  }

  /** The status changes once: what a later state shows is what the first taken handler decided. */
  lemma {:induction false} StatusIsFinal(states: seq<State>, steps: seq<Step>, i: nat, j: nat)
    requires IsRun(states, steps) && i <= j < |states| && states[i].status != Pending
    ensures states[j].status == states[i].status
    decreases j
  {
    if i < j {
      StatusIsFinal(states, steps, i, j - 1);
      AtMostOnce(states, steps, j - 1);
      assert states[j] == Do(states[j - 1], steps[j - 1]);
    }
  }
}
