/** Interval subtraction by a sweep over weighted endpoints: an added bound weighs one, a subtracted
    bound weighs minus `INFINITY`. Addresses are natural numbers, so `start + len` never wraps. */
module Intervals {
  import opened Errors

  const INFINITY: int := 32767

  datatype Bound = Bound(start: nat, len: nat)

  /** A change of weight at a position. */
  type Endpoint = (nat, int)

  predicate Covers(b: Bound, x: nat) {
    b.start <= x < b.start + b.len
  }

  ghost predicate CoveredBy(bounds: seq<Bound>, x: nat) {
    exists i :: 0 <= i < |bounds| && Covers(bounds[i], x)
  }

  // ----- weights

  /** The sum of the changes at or before `x`. */
  function Weight(es: seq<Endpoint>, x: nat): int {
    if es == [] then 0
    else Weight(es[..|es| - 1], x) + if es[|es| - 1].0 <= x then es[|es| - 1].1 else 0
  }

  lemma {:induction false} WeightAppend(a: seq<Endpoint>, b: seq<Endpoint>, x: nat)
    ensures Weight(a + b, x) == Weight(a, x) + Weight(b, x)
    decreases |b|
  {
    if b == [] {
      assert a + b == a;
    } else {
      assert (a + b)[..|a + b| - 1] == a + b[..|b| - 1];
      WeightAppend(a, b[..|b| - 1], x);
    }
  }

  /** How many of the bounds cover `x`. */
  function Count(bounds: seq<Bound>, x: nat): (n: nat)
    ensures n <= |bounds|
    ensures n > 0 <==> CoveredBy(bounds, x)
  {
    if bounds == [] then 0
    else
      var m := |bounds| - 1;
      assert CoveredBy(bounds, x) <==> CoveredBy(bounds[..m], x) || Covers(bounds[m], x) by {
        CoveredLast(bounds, x);
      }
      Count(bounds[..m], x) + if Covers(bounds[m], x) then 1 else 0
  }

  lemma CoveredLast(bounds: seq<Bound>, x: nat)
    requires bounds != []
    ensures var m := |bounds| - 1; CoveredBy(bounds, x) <==> CoveredBy(bounds[..m], x) || Covers(bounds[m], x)
  {
    var m := |bounds| - 1;
    if CoveredBy(bounds[..m], x) {
      var i :| 0 <= i < m && Covers(bounds[..m][i], x);
      assert Covers(bounds[i], x);
    }
    if CoveredBy(bounds, x) {
      var i :| 0 <= i <= m && Covers(bounds[i], x);
      if i < m {
        assert Covers(bounds[..m][i], x);
      }
    }
  }

  /** The endpoints of bounds that each weigh `w`. */
  function Ends(bounds: seq<Bound>, w: int): seq<Endpoint> {
    if bounds == [] then []
    else
      var b := bounds[|bounds| - 1];
      Ends(bounds[..|bounds| - 1], w) + [(b.start, w), (b.start + b.len, -w)]
  }

  lemma WeightOne(e: Endpoint, x: nat)
    ensures Weight([e], x) == if e.0 <= x then e.1 else 0
  {
    assert [e][..0] == [];
  }

  lemma PairWeight(b: Bound, w: int, x: nat)
    ensures Weight([(b.start, w), (b.start + b.len, -w)], x) == if Covers(b, x) then w else 0
  {
    var first: Endpoint, second: Endpoint := (b.start, w), (b.start + b.len, -w);
    assert [first, second] == [first] + [second];
    WeightAppend([first], [second], x);
    WeightOne(first, x);
    WeightOne(second, x);
  }

  lemma {:induction false} EndsWeight(bounds: seq<Bound>, w: int, x: nat)
    ensures Weight(Ends(bounds, w), x) == w * Count(bounds, x)
    decreases |bounds|
  {
    if bounds != [] {
      var m := |bounds| - 1;
      var b := bounds[m];
      EndsWeight(bounds[..m], w, x);
      WeightAppend(Ends(bounds[..m], w), [(b.start, w), (b.start + b.len, -w)], x);
      PairWeight(b, w, x);
      assert w * (Count(bounds[..m], x) + 1) == w * Count(bounds[..m], x) + w;
    }
  }

  // ----- sorting and merging endpoints at the same position

  predicate Below(a: Endpoint, b: Endpoint) {
    a.0 < b.0 || (a.0 == b.0 && a.1 <= b.1)
  }

  function Insert(es: seq<Endpoint>, e: Endpoint): seq<Endpoint> {
    if es == [] || Below(es[|es| - 1], e) then es + [e] else Insert(es[..|es| - 1], e) + [es[|es| - 1]]
  }

  function Sort(es: seq<Endpoint>): seq<Endpoint> {
    if es == [] then [] else Insert(Sort(es[..|es| - 1]), es[|es| - 1])
  }

  ghost predicate Sorted(es: seq<Endpoint>) {
    forall i, j | 0 <= i < j < |es| :: es[i].0 <= es[j].0
  }

  ghost predicate Ascending(es: seq<Endpoint>) {
    forall i, j | 0 <= i < j < |es| :: es[i].0 < es[j].0
  }

  lemma {:induction false} InsertSorted(es: seq<Endpoint>, e: Endpoint)
    requires Sorted(es)
    ensures Sorted(Insert(es, e)) && |Insert(es, e)| == |es| + 1
    ensures forall i | 0 <= i <= |es| :: Insert(es, e)[i].0 <= e.0 || (es != [] && Insert(es, e)[i].0 <= es[|es| - 1].0)
    decreases |es|
  {
    if es != [] && !Below(es[|es| - 1], e) {
      InsertSorted(es[..|es| - 1], e);
    }
  }

  lemma {:induction false} InsertWeight(es: seq<Endpoint>, e: Endpoint, x: nat)
    ensures Weight(Insert(es, e), x) == Weight(es, x) + if e.0 <= x then e.1 else 0
    decreases |es|
  {
    if es == [] || Below(es[|es| - 1], e) {
      assert (es + [e])[..|es|] == es;
    } else {
      var n := |es| - 1;
      InsertWeight(es[..n], e, x);
      var r := Insert(es[..n], e);
      assert (r + [es[n]])[..|r|] == r;
    }
  }

  lemma {:induction false} SortSpec(es: seq<Endpoint>, x: nat)
    ensures Sorted(Sort(es)) && Weight(Sort(es), x) == Weight(es, x)
    decreases |es|
  {
    if es != [] {
      SortSpec(es[..|es| - 1], x);
      InsertSorted(Sort(es[..|es| - 1]), es[|es| - 1]);
      InsertWeight(Sort(es[..|es| - 1]), es[|es| - 1], x);
    }
  }

  /** `group_by` position, summing the changes of each group. */
  function Merge(es: seq<Endpoint>): seq<Endpoint> {
    if es == [] then []
    else
      var n := |es| - 1;
      var done := Merge(es[..n]);
      if done != [] && done[|done| - 1].0 == es[n].0
      then done[..|done| - 1] + [(es[n].0, done[|done| - 1].1 + es[n].1)]
      else done + [es[n]]
  }

  lemma Extend(done: seq<Endpoint>, e: Endpoint)
    requires done != [] && Ascending(done) && done[|done| - 1].0 <= e.0
    ensures done[|done| - 1].0 < e.0 ==> Ascending(done + [e])
    ensures done[|done| - 1].0 == e.0 ==> Ascending(done[..|done| - 1] + [(e.0, done[|done| - 1].1 + e.1)])
  {
    var m := |done| - 1;
    assert forall i | 0 <= i < m :: done[i].0 < done[m].0;
  }

  lemma {:induction false} MergeAscends(es: seq<Endpoint>)
    requires Sorted(es)
    ensures Ascending(Merge(es))
    ensures es == [] <==> Merge(es) == []
    ensures es != [] ==> Merge(es)[|Merge(es)| - 1].0 == es[|es| - 1].0
    decreases |es|
  {
    if es != [] {
      var n := |es| - 1;
      MergeAscends(es[..n]);
      var done := Merge(es[..n]);
      if done != [] {
        assert done[|done| - 1].0 == es[n - 1].0 <= es[n].0;
        Extend(done, es[n]);
      }
    }
  }

  lemma {:induction false} MergeWeight(es: seq<Endpoint>, x: nat)
    ensures Weight(Merge(es), x) == Weight(es, x)
    decreases |es|
  {
    if es != [] {
      var n := |es| - 1;
      MergeWeight(es[..n], x);
      var done := Merge(es[..n]);
      if done != [] && done[|done| - 1].0 == es[n].0 {
        var head, last, sum := done[..|done| - 1], done[|done| - 1], (es[n].0, done[|done| - 1].1 + es[n].1);
        assert (head + [sum])[..|head|] == head;
      } else {
        assert (done + [es[n]])[..|done|] == done;
      }
    }
  }

  // ----- the sweep

  predicate Open(left: Option<nat>, sum: int) {
    left.Some? <==> sum > 0
  }

  /** What the iterator still yields, when the running sum is `sum` and an interval has been open since
      `left`. */
  function Sweep(es: seq<Endpoint>, sum: int, left: Option<nat>): seq<Bound>
    requires Open(left, sum) && Ascending(es)
    requires left.Some? && es != [] ==> left.value < es[0].0
  {
    if es == [] then []
    else
      var (pos, after) := (es[0].0, sum + es[0].1);
      if sum <= 0 && after > 0 then Sweep(es[1..], after, Some(pos))
      else if sum > 0 && after <= 0 then [Bound(left.value, pos - left.value)] + Sweep(es[1..], after, None)
      else Sweep(es[1..], after, left)
  }

  /** Sum of all changes. */
  function Total(es: seq<Endpoint>): int {
    if es == [] then 0 else es[0].1 + Total(es[1..])
  }

  /** Running weight at `x`, from the front. */
  function Ahead(es: seq<Endpoint>, x: nat): int {
    if es == [] || es[0].0 > x then 0 else es[0].1 + Ahead(es[1..], x)
  }

  /** Ascending, not empty, and with a gap before the next one; all at or after `from`. */
  ghost predicate Separated(bounds: seq<Bound>, from: nat) {
    && (forall i | 0 <= i < |bounds| :: bounds[i].len > 0 && bounds[i].start >= from)
    && (forall i, j | 0 <= i < j < |bounds| :: bounds[i].start + bounds[i].len < bounds[j].start)
  }

  lemma {:induction false} SweepSeparated(es: seq<Endpoint>, sum: int, left: Option<nat>, from: nat)
    requires Open(left, sum) && Ascending(es)
    requires left.Some? && es != [] ==> left.value < es[0].0
    requires match left
             case Some(l) => from <= l
             case None => es != [] ==> from <= es[0].0
    ensures Separated(Sweep(es, sum, left), from)
    decreases |es|
  {
    if es != [] {
      var (pos, after) := (es[0].0, sum + es[0].1);
      if sum <= 0 && after > 0 {
        SweepSeparated(es[1..], after, Some(pos), from);
      } else if sum > 0 && after <= 0 {
        SweepSeparated(es[1..], after, None, pos + 1);
      } else {
        SweepSeparated(es[1..], after, left, from);
      }
    }
  }

  lemma CoveredFirst(b: Bound, rest: seq<Bound>, x: nat)
    ensures CoveredBy([b] + rest, x) <==> Covers(b, x) || CoveredBy(rest, x)
  {
    var all := [b] + rest;
    if Covers(b, x) {
      assert Covers(all[0], x);
    }
    if CoveredBy(rest, x) {
      var i :| 0 <= i < |rest| && Covers(rest[i], x);
      assert Covers(all[i + 1], x);
    }
    if CoveredBy(all, x) {
      var i :| 0 <= i < |all| && Covers(all[i], x);
      if i > 0 {
        assert Covers(rest[i - 1], x);
      }
    }
  }

  /** A point at or after the open start, or after everything swept so far, is covered by what the sweep
      yields exactly when the weight there is positive, provided the weights cancel in the end. */
  lemma {:induction false} SweepExact(es: seq<Endpoint>, sum: int, left: Option<nat>, from: nat, x: nat)
    requires Open(left, sum) && Ascending(es) && sum + Total(es) == 0
    requires left.Some? && es != [] ==> left.value < es[0].0
    requires match left
             case Some(l) => from == l
             case None => es != [] ==> from <= es[0].0
    requires x >= from
    ensures CoveredBy(Sweep(es, sum, left), x) <==> sum + Ahead(es, x) > 0
    decreases |es|
  {
    if es != [] {
      var (pos, after) := (es[0].0, sum + es[0].1);
      if sum <= 0 && after > 0 {
        if x >= pos {
          SweepExact(es[1..], after, Some(pos), pos, x);
        } else {
          SweepSeparated(es[1..], after, Some(pos), pos);
        }
      } else if sum > 0 && after <= 0 {
        var b := Bound(left.value, pos - left.value);
        CoveredFirst(b, Sweep(es[1..], after, None), x);
        if x >= pos {
          SweepExact(es[1..], after, None, pos, x);
        } else {
          SweepSeparated(es[1..], after, None, pos);
        }
      } else {
        SweepExact(es[1..], after, left, from, x);
      }
    }
  }

  lemma {:induction false} AheadIsWeight(es: seq<Endpoint>, x: nat)
    requires Ascending(es)
    ensures Ahead(es, x) == Weight(es, x)
    decreases |es|
  {
    if es != [] {
      AheadIsWeight(es[1..], x);
      assert es == [es[0]] + es[1..];
      WeightAppend([es[0]], es[1..], x);
      WeightOne(es[0], x);
      if es[0].0 > x {
        NothingBefore(es[1..], x);
      }
    }
  }

  lemma {:induction false} NothingBefore(es: seq<Endpoint>, x: nat)
    requires forall i | 0 <= i < |es| :: es[i].0 > x
    ensures Weight(es, x) == 0
    decreases |es|
  {
    if es != [] {
      NothingBefore(es[..|es| - 1], x);
    }
  }

  /** Far enough to the right, the weight is the sum of all changes. */
  lemma {:induction false} TotalIsWeight(es: seq<Endpoint>, x: nat)
    requires forall i | 0 <= i < |es| :: es[i].0 <= x
    ensures Total(es) == Weight(es, x)
    decreases |es|
  {
    if es != [] {
      TotalIsWeight(es[1..], x);
      assert es == [es[0]] + es[1..];
      WeightAppend([es[0]], es[1..], x);
      WeightOne(es[0], x);
    }
  }

  /** All endpoints of the added and the subtracted bounds. */
  function Endpoints(added: seq<Bound>, subtracted: seq<Bound>): seq<Endpoint> {
    Ends(added, 1) + Ends(subtracted, -INFINITY)
  }

  lemma PointWeight(added: seq<Bound>, subtracted: seq<Bound>, x: nat)
    ensures Weight(Endpoints(added, subtracted), x) == Count(added, x) - INFINITY * Count(subtracted, x)
  {
    WeightAppend(Ends(added, 1), Ends(subtracted, -INFINITY), x);
    EndsWeight(added, 1, x);
    EndsWeight(subtracted, -INFINITY, x);
  }

  /** With at most `INFINITY` added bounds, the weight is positive exactly on added minus subtracted. */
  lemma PositiveWeight(added: seq<Bound>, subtracted: seq<Bound>, x: nat)
    requires |added| <= INFINITY
    ensures Weight(Endpoints(added, subtracted), x) > 0 <==> CoveredBy(added, x) && !CoveredBy(subtracted, x)
  {
    PointWeight(added, subtracted, x);
    if Count(subtracted, x) >= 1 {
      assert INFINITY * Count(subtracted, x) >= INFINITY;
    }
  }

  function Merged(added: seq<Bound>, subtracted: seq<Bound>): seq<Endpoint> {
    Merge(Sort(Endpoints(added, subtracted)))
  }

  /** A position that no bound reaches. */
  function Beyond(bounds: seq<Bound>): (x: nat)
    ensures forall i | 0 <= i < |bounds| :: bounds[i].start + bounds[i].len <= x
  {
    if bounds == [] then 0
    else
      var m, b := Beyond(bounds[..|bounds| - 1]), bounds[|bounds| - 1];
      if b.start + b.len > m then b.start + b.len else m
  }

  function Last(es: seq<Endpoint>): (x: nat)
    requires Ascending(es)
    ensures forall i | 0 <= i < |es| :: es[i].0 <= x
  {
    if es == [] then 0 else es[|es| - 1].0
  }

  /** The sweep starts from, and returns to, sum zero. */
  lemma MergedSpec(added: seq<Bound>, subtracted: seq<Bound>, x: nat)
    ensures var es := Merged(added, subtracted);
            && Ascending(es) && Total(es) == 0
            && Ahead(es, x) == Count(added, x) - INFINITY * Count(subtracted, x)
  {
    var raw := Endpoints(added, subtracted);
    var es := Merged(added, subtracted);
    SortSpec(raw, x);
    MergeAscends(Sort(raw));
    MergeWeight(Sort(raw), x);
    AheadIsWeight(es, x);
    PointWeight(added, subtracted, x);
    var a, b, c := Beyond(added), Beyond(subtracted), Last(es);
    var far := a + b + c;
    SortSpec(raw, far);
    MergeWeight(Sort(raw), far);
    PointWeight(added, subtracted, far);
    TotalIsWeight(es, far);
    assert !CoveredBy(added, far) && !CoveredBy(subtracted, far);
  }

  /** What the sweep over all endpoints yields. */
  lemma SweepResult(added: seq<Bound>, subtracted: seq<Bound>)
    ensures Ascending(Merged(added, subtracted))
    ensures var result := Sweep(Merged(added, subtracted), 0, None);
            && Separated(result, 0)
            && (forall x: nat :: CoveredBy(result, x) <==> Count(added, x) > INFINITY * Count(subtracted, x))
            && (|added| <= INFINITY ==>
                  forall x: nat :: CoveredBy(result, x) <==> CoveredBy(added, x) && !CoveredBy(subtracted, x))
  {
    var es := Merged(added, subtracted);
    MergedSpec(added, subtracted, 0);
    SweepSeparated(es, 0, None, 0);
    forall x: nat
      ensures CoveredBy(Sweep(es, 0, None), x) <==> Count(added, x) > INFINITY * Count(subtracted, x)
      ensures |added| <= 32767 ==>
                (CoveredBy(Sweep(es, 0, None), x) <==> CoveredBy(added, x) && !CoveredBy(subtracted, x))
    {
      MergedSpec(added, subtracted, x);
      SweepExact(es, 0, None, 0, x);
      if |added| <= INFINITY {
        PositiveWeight(added, subtracted, x);
        PointWeight(added, subtracted, x);
      }
    }
  }

  // ----- the objects

  class ExclusiveIntervals {
    var inner: seq<Endpoint>
    ghost var added: seq<Bound>
    ghost var subtracted: seq<Bound>

    ghost predicate Valid()
      reads this
    {
      inner == Endpoints(added, subtracted)
    }

    constructor (bounds: seq<Bound>)
      ensures Valid() && added == bounds && subtracted == []
    {
      inner := Ends(bounds, 1);
      added, subtracted := bounds, [];
    }

    /** `-=` */
    method Subtract(b: Bound)
      requires Valid()
      modifies this
      ensures Valid() && added == old(added) && subtracted == old(subtracted) + [b]
    {
      assert (subtracted + [b])[..|subtracted|] == subtracted;
      inner := inner + [(b.start, -INFINITY)];
      inner := inner + [(b.start + b.len, INFINITY)];
      subtracted := subtracted + [b];
    }

    /** `into_iter`: sorts the endpoints and merges those at the same position. */
    method IntoIter() returns (iter: Iter)
      requires Valid()
      ensures fresh(iter) && iter.Valid()
      ensures iter.sum == 0 && iter.rest == Merged(added, subtracted)
    {
      MergedSpec(added, subtracted, 0);
      iter := new Iter(Merge(Sort(inner)));
    }

    /** Runs the iterator to its end: ascending, non-empty, strictly separated intervals that cover exactly the
        points with more than `INFINITY` added bounds per subtracted one. With at most `INFINITY` added bounds,
        these are the points added and not subtracted. */
    method Collect() returns (result: seq<Bound>)
      requires Valid()
      ensures Separated(result, 0)
      ensures forall x: nat ::
                CoveredBy(result, x) <==> Count(added, x) > 32767 * Count(subtracted, x)
      ensures |added| <= 32767 ==>
                forall x: nat :: CoveredBy(result, x) <==> CoveredBy(added, x) && !CoveredBy(subtracted, x)
    {
      var iter := IntoIter();
      result := iter.RunOut();
      SweepResult(added, subtracted);
    }
  }

  class Iter {
    var sum: int
    var rest: seq<Endpoint>

    /** Between calls no interval is open, and the weights ahead cancel the running sum. */
    ghost predicate Valid()
      reads this
    {
      Ascending(rest) && sum <= 0 && sum + Total(rest) == 0
    }

    ghost function Remaining(): seq<Bound>
      requires Valid()
      reads this
    {
      Sweep(rest, sum, None)
    }

    constructor (es: seq<Endpoint>)
      requires Ascending(es) && Total(es) == 0
      ensures Valid() && sum == 0 && rest == es
    {
      sum, rest := 0, es;
    }

    /** `next`: `left` is set whenever it is unwrapped, and the sweep ends with sum zero. */
    method Next() returns (b: Option<Bound>)
      requires Valid()
      modifies this
      ensures Valid()
      ensures match b
              case None => old(Remaining()) == [] && Remaining() == [] && sum == 0 && rest == []
              case Some(x) => old(Remaining()) == [x] + Remaining() && |rest| < |old(rest)|
    {
      var left: Option<nat> := None;
      while rest != []
        invariant Ascending(rest) && Open(left, sum) && sum + Total(rest) == 0
        invariant left.Some? && rest != [] ==> left.value < rest[0].0
        invariant Sweep(rest, sum, left) == old(Remaining())
        invariant |rest| <= |old(rest)|
        decreases |rest|
      {
        var (pos, delta) := rest[0];
        rest := rest[1..];
        var before := sum;
        sum := sum + delta;
        if before <= 0 && sum > 0 {
          left := Some(pos);
        } else if before > 0 && sum <= 0 {
          return Some(Bound(left.value, pos - left.value));
        }
      }
      return None;
    }

    method RunOut() returns (result: seq<Bound>)
      requires Valid()
      modifies this
      ensures Valid() && rest == [] && sum == 0
      ensures result == old(Remaining())
    {
      result := [];
      while true
        invariant Valid()
        invariant old(Remaining()) == result + Remaining()
        decreases |rest|
      {
        var b := Next();
        if b.None? {
          return;
        }
        result := result + [b.value];
      }
    }
  }

  /** One added bound too many, at one point: the subtracted bound is outweighed there. */
  lemma Outweighed(added: seq<Bound>, b: Bound, x: nat)
    requires |added| == INFINITY + 1 && (forall i | 0 <= i < |added| :: Covers(added[i], x)) && Covers(b, x)
    ensures Count(added, x) > INFINITY * Count([b], x) && CoveredBy([b], x)
  {
    CountAll(added, x);
    assert [b][..0] == [];
    assert Count([b], x) == 1;
  }

  lemma {:induction false} CountAll(bounds: seq<Bound>, x: nat)
    requires forall i | 0 <= i < |bounds| :: Covers(bounds[i], x)
    ensures Count(bounds, x) == |bounds|
    decreases |bounds|
  {
    if bounds != [] {
      CountAll(bounds[..|bounds| - 1], x);
    }
  }
}
