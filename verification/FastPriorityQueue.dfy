/** A priority queue of 64 FIFO lanes with a 64-bit occupancy word, and the stable
    priority queue it implements. */
module FastPq {
  import opened Errors

  // ----- the occupancy word, as a natural number read bit by bit

  function Bit(b: nat, p: nat): bool {
    if p == 0 then b % 2 == 1 else Bit(b / 2, p - 1)
  }

  /** `b | 1 << p` */
  function SetBit(b: nat, p: nat): nat {
    if p == 0 then b - b % 2 + 1 else 2 * SetBit(b / 2, p - 1) + b % 2
  }

  /** `b & !(1 << p)` */
  function ClearBit(b: nat, p: nat): nat {
    if p == 0 then b - b % 2 else 2 * ClearBit(b / 2, p - 1) + b % 2
  }

  /** Position of the highest set bit: `63 - b.leading_zeros()` for a non-zero 64-bit word. */
  function HighBit(b: nat): nat
    requires b > 0
  {
    if b == 1 then 0 else 1 + HighBit(b / 2)
  }

  lemma {:induction false} SetBitSpec(b: nat, p: nat, q: nat)
    ensures Bit(SetBit(b, p), q) <==> q == p || Bit(b, q)
  {
    if p > 0 && q > 0 {
      SetBitSpec(b / 2, p - 1, q - 1);
    }
  }

  lemma {:induction false} ClearBitSpec(b: nat, p: nat, q: nat)
    ensures Bit(ClearBit(b, p), q) <==> q != p && Bit(b, q)
  {
    if p > 0 && q > 0 {
      ClearBitSpec(b / 2, p - 1, q - 1);
    }
  }

  lemma {:induction false} HighBitSpec(b: nat, q: nat)
    requires b > 0
    ensures Bit(b, HighBit(b))
    ensures Bit(b, q) ==> q <= HighBit(b)
  {
    if b > 1 {
      HighBitSpec(b / 2, if q > 0 then q - 1 else 0);
    } else if q > 0 {
      ZeroHasNoBit(q - 1);
    }
  }

  lemma {:induction false} ZeroHasNoBit(q: nat)
    ensures !Bit(0, q)
  {
    if q > 0 {
      ZeroHasNoBit(q - 1);
    }
  }

  // ----- the specification: a stable priority queue kept in arrival order

  /** The entries of one priority, oldest first. */
  function Lane<I>(entries: seq<(nat, I)>, p: nat): seq<(nat, I)> {
    if entries == [] then []
    else (if entries[0].0 == p then [entries[0]] else []) + Lane(entries[1..], p)
  }

  /** Entry `k` is the oldest of the highest priority. */
  predicate IsFront<I>(entries: seq<(nat, I)>, k: nat) {
    && k < |entries|
    && (forall j | 0 <= j < k :: entries[j].0 < entries[k].0)
    && (forall j | k < j < |entries| :: entries[j].0 <= entries[k].0)
  }

  function Without<I>(entries: seq<(nat, I)>, k: nat): seq<(nat, I)>
    requires k < |entries|
  {
    entries[..k] + entries[k + 1..]
  }

  /** There is at most one front. */
  lemma FrontUnique<I>(entries: seq<(nat, I)>, j: nat, k: nat)
    requires IsFront(entries, j) && IsFront(entries, k)
    ensures j == k
  {
    assert entries[j].0 == entries[k].0;
  }

  lemma {:induction false} LaneAppend<I>(a: seq<(nat, I)>, b: seq<(nat, I)>, p: nat)
    ensures Lane(a + b, p) == Lane(a, p) + Lane(b, p)
  {
    if a == [] {
      assert a + b == b;
    } else {
      var first := if a[0].0 == p then [a[0]] else [];
      assert (a + b)[1..] == a[1..] + b;
      LaneAppend(a[1..], b, p);
      assert Lane(a + b, p) == first + (Lane(a[1..], p) + Lane(b, p));
      assert Lane(a, p) == first + Lane(a[1..], p);
    }
  }

  lemma {:induction false} LaneEmpty<I>(entries: seq<(nat, I)>, p: nat)
    ensures Lane(entries, p) == [] <==> forall e | e in entries :: e.0 != p
  {
    if entries != [] {
      LaneEmpty(entries[1..], p);
      assert forall e :: e in entries <==> e == entries[0] || e in entries[1..];
    }
  }

  /** Index of the oldest entry of priority `p`. */
  function FirstOf<I>(entries: seq<(nat, I)>, p: nat): (k: nat)
    requires Lane(entries, p) != []
    ensures k < |entries| && entries[k].0 == p
    ensures forall j | 0 <= j < k :: entries[j].0 != p
    ensures entries[k] == Lane(entries, p)[0]
  {
    if entries[0].0 == p then 0 else 1 + FirstOf(entries[1..], p)
  }

  /** Removing the oldest entry of a priority pops its lane and leaves the other lanes alone. */
  lemma PopLane<I>(entries: seq<(nat, I)>, p: nat, q: nat)
    requires Lane(entries, p) != []
    ensures Lane(Without(entries, FirstOf(entries, p)), q) ==
            if q == p then Lane(entries, p)[1..] else Lane(entries, q)
  {
    var k := FirstOf(entries, p);
    var front, rest := entries[..k], entries[k + 1..];
    assert entries == front + ([entries[k]] + rest);
    LaneAppend(front, [entries[k]] + rest, q);
    LaneAppend([entries[k]], rest, q);
    LaneAppend(front, rest, q);
    LaneEmpty(front, p);
  }

  /** The head of the highest non-empty lane is the front. */
  lemma HighestLane<I>(entries: seq<(nat, I)>, p: nat)
    requires Lane(entries, p) != []
    requires forall q: nat | q > p :: Lane(entries, q) == []
    ensures IsFront(entries, FirstOf(entries, p))
  {
    forall j | 0 <= j < |entries|
      ensures entries[j].0 <= p
    {
      LaneEmpty(entries, entries[j].0);
      assert entries[j] in entries;
    }
  }

  // ----- runs of the stable queue

  function FrontIndex<I>(entries: seq<(nat, I)>): (k: nat)
    requires entries != []
    ensures IsFront(entries, k)
  {
    var n := |entries| - 1;
    if n == 0 then 0
    else
      var k := FrontIndex(entries[..n]);
      assert entries[..n][k] == entries[k];
      if entries[n].0 > entries[k].0 then n else k
  }

  datatype Op<I> = Put(priority: nat, item: I) | Get

  function Step<I>(entries: seq<(nat, I)>, op: Op<I>): seq<(nat, I)> {
    match op
    case Put(p, item) => entries + [(p, item)]
    case Get => if entries == [] then [] else Without(entries, FrontIndex(entries))
  }

  function RunOps<I>(entries: seq<(nat, I)>, ops: seq<Op<I>>): seq<(nat, I)> {
    if ops == [] then entries else Step(RunOps(entries, ops[..|ops| - 1]), ops[|ops| - 1])
  }

  /** Where the entry first at index `i` stands after the operations, if it is still queued. */
  function Track<I>(entries: seq<(nat, I)>, ops: seq<Op<I>>, i: nat): Option<nat>
    requires i < |entries|
  {
    if ops == [] then Some(i)
    else
      var before := RunOps(entries, ops[..|ops| - 1]);
      match Track(entries, ops[..|ops| - 1], i)
      case None => None
      case Some(j) => Moved(before, ops[|ops| - 1], j)
  }

  /** Where one operation takes the entry at index `j`, if it stays queued. */
  function Moved<I>(entries: seq<(nat, I)>, op: Op<I>, j: nat): Option<nat> {
    if op.Put? || entries == [] then Some(j)
    else
      var k := FrontIndex(entries);
      if j == k then None else if j > k then Some(j - 1) else Some(j)
  }

  lemma MovedEntry<I>(entries: seq<(nat, I)>, op: Op<I>, j: nat)
    requires j < |entries|
    ensures match Moved(entries, op, j)
            case None => true
            case Some(k) => k < |Step(entries, op)| && Step(entries, op)[k] == entries[j]
  {
  }

  lemma {:induction false} Tracked<I>(entries: seq<(nat, I)>, ops: seq<Op<I>>, i: nat)
    requires i < |entries|
    ensures match Track(entries, ops, i)
            case None => true
            case Some(j) => j < |RunOps(entries, ops)| && RunOps(entries, ops)[j] == entries[i]
    decreases |ops|
  {
    if ops != [] {
      var before := RunOps(entries, ops[..|ops| - 1]);
      Tracked(entries, ops[..|ops| - 1], i);
      if Track(entries, ops[..|ops| - 1], i).Some? {
        MovedEntry(before, ops[|ops| - 1], Track(entries, ops[..|ops| - 1], i).value);
      }
    }
  }

  lemma {:induction false} TrackedInOrder<I>(entries: seq<(nat, I)>, ops: seq<Op<I>>, i: nat, j: nat)
    requires i < j < |entries|
    ensures Track(entries, ops, i).Some? && Track(entries, ops, j).Some? ==>
              Track(entries, ops, i).value < Track(entries, ops, j).value
    decreases |ops|
  {
    if ops != [] {
      TrackedInOrder(entries, ops[..|ops| - 1], i, j);
    }
  }

  /** When a queued entry reaches the front, every entry that was ahead of it with at least its
      priority has been taken out, whatever was queued and taken in between. */
  lemma NoOvertaking<I>(entries: seq<(nat, I)>, ops: seq<Op<I>>, i: nat, m: nat)
    requires i < m < |entries| && entries[i].0 >= entries[m].0
    requires RunOps(entries, ops) != [] && Track(entries, ops, m) == Some(FrontIndex(RunOps(entries, ops)))
    ensures Track(entries, ops, i) == None
  {
    Tracked(entries, ops, i);
    Tracked(entries, ops, m);
    TrackedInOrder(entries, ops, i, m);
  }

  lemma {:induction false} RunOpsAppend<I>(entries: seq<(nat, I)>, a: seq<Op<I>>, b: seq<Op<I>>)
    ensures RunOps(entries, a + b) == RunOps(RunOps(entries, a), b)
    decreases |b|
  {
    if b == [] {
      assert a + b == a;
    } else {
      assert (a + b)[..|a + b| - 1] == a + b[..|b| - 1];
      RunOpsAppend(entries, a, b[..|b| - 1]);
    }
  }

  lemma {:induction false} TrackAppend<I>(entries: seq<(nat, I)>, a: seq<Op<I>>, b: seq<Op<I>>, i: nat)
    requires i < |entries|
    ensures Track(entries, a, i).Some? ==> Track(entries, a, i).value < |RunOps(entries, a)|
    ensures Track(entries, a + b, i) == match Track(entries, a, i)
                                        case None => None
                                        case Some(j) => Track(RunOps(entries, a), b, j)
    decreases |b|
  {
    Tracked(entries, a, i);
    if b == [] {
      assert a + b == a;
    } else {
      var b', op := b[..|b| - 1], b[|b| - 1];
      assert (a + b)[..|a + b| - 1] == a + b' && (a + b)[|a + b| - 1] == op;
      TrackAppend(entries, a, b', i);
      RunOpsAppend(entries, a, b');
    }
  }

  /** Putting the given entries, in order. */
  function PutsOf<I>(added: seq<(nat, I)>): seq<Op<I>> {
    if added == [] then []
    else PutsOf(added[..|added| - 1]) + [Put(added[|added| - 1].0, added[|added| - 1].1)]
  }

  lemma {:induction false} RunPutsOf<I>(entries: seq<(nat, I)>, added: seq<(nat, I)>)
    ensures RunOps(entries, PutsOf(added)) == entries + added
  {
    if added != [] {
      RunPutsOf(entries, added[..|added| - 1]);
    }
  }

  lemma {:induction false} TrackPutsOf<I>(entries: seq<(nat, I)>, added: seq<(nat, I)>, i: nat)
    requires i < |entries|
    ensures Track(entries, PutsOf(added), i) == Some(i)
  {
    if added != [] {
      TrackPutsOf(entries, added[..|added| - 1], i);
    }
  }

  lemma GetOne<I>(entries: seq<(nat, I)>, i: nat)
    requires i < |entries|
    ensures RunOps(entries, [Get]) == Without(entries, FrontIndex(entries))
    ensures Track(entries, [Get], i).None? <==> i == FrontIndex(entries)
  {
    var ops: seq<Op<I>> := [Get];
    assert ops[..0] == [];
  }

  // ----- the bitmap queue

  const NUM: nat := 64

  class FastPriorityQueue<I> {
    var bits: nat
    const queues: array<seq<(nat, I)>>
    /** All queued entries in arrival order. */
    ghost var entries: seq<(nat, I)>

    ghost predicate Valid()
      reads this, queues
    {
      && queues.Length == NUM
      && (forall p: nat | p < NUM :: queues[p] == Lane(entries, p))
      && (forall e | e in entries :: e.0 < NUM)
      && (forall p: nat :: Bit(bits, p) <==> p < NUM && queues[p] != [])
    }

    constructor ()
      ensures Valid() && fresh(queues) && entries == []
    {
      bits := 0;
      queues := new seq<(nat, I)>[NUM](_ => []);
      entries := [];
      new;
      forall p: nat
        ensures !Bit(0, p)
      {
        ZeroHasNoBit(p);
      }
    }

    method Enqueue(priority: nat, item: I)
      requires Valid() && priority < NUM
      modifies this, queues
      ensures Valid() && entries == old(entries) + [(priority, item)]
    {
      forall q: nat
        ensures Bit(SetBit(bits, priority), q) <==> q == priority || Bit(bits, q)
        ensures Lane(entries + [(priority, item)], q) ==
                Lane(entries, q) + if q == priority then [(priority, item)] else []
      {
        SetBitSpec(bits, priority, q);
        LaneAppend(entries, [(priority, item)], q);
      }
      bits := SetBit(bits, priority);
      queues[priority] := queues[priority] + [(priority, item)];
      entries := entries + [(priority, item)];
    }

    /** Takes the oldest entry of the highest priority; `None` exactly when nothing is queued. */
    method Dequeue() returns (r: Option<(nat, I)>)
      requires Valid()
      modifies this, queues
      ensures Valid()
      ensures old(entries) == [] ==> r == None && entries == []
      ensures old(entries) != [] ==>
                exists k: nat | IsFront(old(entries), k) ::
                  r == Some(old(entries)[k]) && entries == Without(old(entries), k)
    {
      if bits == 0 {
        forall p: nat
          ensures !Bit(0, p)
        {
          ZeroHasNoBit(p);
        }
        if entries != [] {
          LaneEmpty(entries, entries[0].0);
        }
        return None;
      }
      var highest := HighBit(bits);
      HighBitSpec(bits, 0);
      forall q: nat | q > highest
        ensures Lane(entries, q) == []
      {
        HighBitSpec(bits, q);
        LaneEmpty(entries, q);
      }
      HighestLane(entries, highest);
      ghost var k := FirstOf(entries, highest);
      forall q: nat
        ensures Lane(Without(entries, k), q) == if q == highest then Lane(entries, q)[1..] else Lane(entries, q)
      {
        PopLane(entries, highest, q);
      }
      r := Some(queues[highest][0]);
      queues[highest] := queues[highest][1..];
      entries := Without(entries, k);
      if queues[highest] == [] {
        forall q: nat
          ensures Bit(ClearBit(bits, highest), q) <==> q != highest && Bit(bits, q)
        {
          ClearBitSpec(bits, highest, q);
        }
        bits := ClearBit(bits, highest);
      }
    }
  }

  /** What the stable priority queue gives out during the operations, `None` for a `Get` on an empty queue. */
  function Answers<I>(entries: seq<(nat, I)>, ops: seq<Op<I>>): seq<Option<(nat, I)>> {
    if ops == [] then []
    else
      var before := RunOps(entries, ops[..|ops| - 1]);
      Answers(entries, ops[..|ops| - 1]) +
      match ops[|ops| - 1] {
        case Put(_, _) => []
        case Get => [if before == [] then None else Some(before[FrontIndex(before)])]
      }
  }

  /** Over any run the bitmap queue answers as the stable priority queue does, and holds the same entries. */
  method RunQueue<I>(q: FastPriorityQueue<I>, ops: seq<Op<I>>) returns (answers: seq<Option<(nat, I)>>)
    requires q.Valid() && forall op | op in ops && op.Put? :: op.priority < NUM
    modifies q, q.queues
    ensures q.Valid() && q.entries == RunOps(old(q.entries), ops) && answers == Answers(old(q.entries), ops)
  {
    answers := [];
    for n := 0 to |ops|
      invariant q.Valid() && q.entries == RunOps(old(q.entries), ops[..n])
      invariant answers == Answers(old(q.entries), ops[..n])
    {
      assert ops[..n + 1][..n] == ops[..n];
      match ops[n]
      case Put(p, item) =>
        assert ops[n] in ops;
        q.Enqueue(p, item);
      case Get =>
        ghost var before := q.entries;
        var r := q.Dequeue();
        if before != [] {
          ghost var k: nat :| IsFront(before, k) && r == Some(before[k]) && q.entries == Without(before, k);
          FrontUnique(before, k, FrontIndex(before));
        }
        answers := answers + [r];
    }
    assert ops[..|ops|] == ops;
  }
}
