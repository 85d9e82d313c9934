/** The cyclic schedule table of the runtime: the validator, and the walk through the entries
    frame after frame. Durations are natural numbers of nanoseconds. */
module ScheduleTables {
  import opened Errors

  datatype Entry = Entry(inspector: nat, offset: nat, period: nat, duration: nat)

  function End(e: Entry): nat {
    e.offset + e.duration
  }

  // ----- what the validator accepts

  ghost predicate SortedByOffset(t: seq<Entry>) {
    forall i, j | 0 <= i < j < |t| :: t[i].offset <= t[j].offset
  }

  /** Offsets lie inside the frame, and no window runs into the next one. */
  ghost predicate WindowsOk(frame: nat, t: seq<Entry>) {
    && (forall i | 0 <= i < |t| :: t[i].offset < frame)
    && (forall i | 0 <= i < |t| - 1 :: End(t[i]) <= t[i + 1].offset)
  }

  /** The entries of one inspector, in table order. */
  function Group(t: seq<Entry>, id: nat): seq<Entry> {
    if t == [] then []
    else Group(t[..|t| - 1], id) + if t[|t| - 1].inspector == id then [t[|t| - 1]] else []
  }

  /** Distance from one start to the next, wrapping at the frame end. */
  function Gap(frame: nat, e1: Entry, e2: Entry): int {
    if e2.offset <= e1.offset then e2.offset + frame - e1.offset else e2.offset - e1.offset
  }

  /** The two checks on an inspector's entries: one period and one duration, and every gap to the
      cyclic successor equal to the period. */
  ghost predicate GroupOk(frame: nat, g: seq<Entry>) {
    && (forall i | 0 <= i < |g| :: g[i].period == g[0].period && g[i].duration == g[0].duration)
    && (forall i | 0 <= i < |g| :: Gap(frame, g[i], g[if i + 1 < |g| then i + 1 else 0]) == g[i].period)
  }

  ghost predicate Accepted(frame: nat, t: seq<Entry>) {
    && WindowsOk(frame, t)
    && forall e | e in t :: GroupOk(frame, Group(t, e.inspector))
  }

  lemma {:induction false} GroupMembers(t: seq<Entry>, id: nat, e: Entry)
    ensures e in Group(t, id) <==> e in t && e.inspector == id
    decreases |t|
  {
    if t != [] {
      GroupMembers(t[..|t| - 1], id, e);
      assert t == t[..|t| - 1] + [t[|t| - 1]];
    }
  }

  // ----- sorting by inspector and cutting into groups

  predicate Before(e1: Entry, e2: Entry) {
    e1.inspector < e2.inspector || (e1.inspector == e2.inspector && e1.offset <= e2.offset)
  }

  ghost predicate SortedByInspector(s: seq<Entry>) {
    forall i, j | 0 <= i < j < |s| :: s[i].inspector <= s[j].inspector
  }

  /** Insertion after every entry that is not larger. */
  function Insert(s: seq<Entry>, e: Entry): seq<Entry> {
    if s == [] || Before(s[|s| - 1], e) then s + [e] else Insert(s[..|s| - 1], e) + [s[|s| - 1]]
  }

  function SortByInspector(t: seq<Entry>): seq<Entry> {
    if t == [] then [] else Insert(SortByInspector(t[..|t| - 1]), t[|t| - 1])
  }

  lemma {:induction false} InsertMembers(s: seq<Entry>, e: Entry)
    ensures forall x :: x in Insert(s, e) <==> x == e || x in s
    decreases |s|
  {
    if s != [] && !Before(s[|s| - 1], e) {
      InsertMembers(s[..|s| - 1], e);
      assert s == s[..|s| - 1] + [s[|s| - 1]];
    }
  }

  lemma {:induction false} InsertSorted(s: seq<Entry>, e: Entry)
    requires SortedByInspector(s)
    ensures SortedByInspector(Insert(s, e))
    decreases |s|
  {
    if s != [] {
      if Before(s[|s| - 1], e) {
      } else {
        InsertSorted(s[..|s| - 1], e);
        InsertMembers(s[..|s| - 1], e);
        var r := Insert(s[..|s| - 1], e);
        forall i | 0 <= i < |r|
          ensures r[i].inspector <= s[|s| - 1].inspector
        {
          assert r[i] in r;
        }
      }
    }
  }

  /** Inserting an entry that is not earlier than its group goes to the group's end. */
  lemma {:induction false} InsertGroup(s: seq<Entry>, e: Entry, id: nat)
    requires forall x | x in s && x.inspector == e.inspector :: x.offset <= e.offset
    ensures Group(Insert(s, e), id) == Group(s, id) + if e.inspector == id then [e] else []
    decreases |s|
  {
    if s == [] || Before(s[|s| - 1], e) {
      assert (s + [e])[..|s|] == s;
    } else {
      var n := |s| - 1;
      assert s[n] in s;
      InsertGroup(s[..n], e, id);
      var r := Insert(s[..n], e);
      assert (r + [s[n]])[..|r|] == r;
      assert s[n].inspector != e.inspector;
    }
  }

  lemma {:induction false} SortMembers(t: seq<Entry>, x: Entry)
    ensures x in SortByInspector(t) <==> x in t
    decreases |t|
  {
    if t != [] {
      var n := |t| - 1;
      SortMembers(t[..n], x);
      InsertMembers(SortByInspector(t[..n]), t[n]);
      assert x in t <==> x in t[..n] || x == t[n];
    }
  }

  lemma {:induction false} SortSorts(t: seq<Entry>)
    ensures SortedByInspector(SortByInspector(t))
    decreases |t|
  {
    if t != [] {
      SortSorts(t[..|t| - 1]);
      InsertSorted(SortByInspector(t[..|t| - 1]), t[|t| - 1]);
    }
  }

  lemma {:induction false} SortKeepsGroups(t: seq<Entry>, id: nat)
    requires SortedByOffset(t)
    ensures Group(SortByInspector(t), id) == Group(t, id)
    decreases |t|
  {
    if t != [] {
      var n := |t| - 1;
      SortKeepsGroups(t[..n], id);
      var s := SortByInspector(t[..n]);
      forall x | x in s
        ensures x.offset <= t[n].offset
      {
        SortMembers(t[..n], x);
      }
      InsertGroup(s, t[n], id);
    }
  }

  lemma {:induction false} GroupAppend(a: seq<Entry>, b: seq<Entry>, id: nat)
    ensures Group(a + b, id) == Group(a, id) + Group(b, id)
    decreases |b|
  {
    if b == [] {
      assert a + b == a;
    } else {
      assert (a + b)[..|a + b| - 1] == a + b[..|b| - 1];
      GroupAppend(a, b[..|b| - 1], id);
    }
  }

  lemma {:induction false} GroupAll(s: seq<Entry>, id: nat)
    requires forall e | e in s :: e.inspector == id
    ensures Group(s, id) == s
    decreases |s|
  {
    if s != [] {
      assert s[|s| - 1] in s;
      GroupAll(s[..|s| - 1], id);
    }
  }

  /** A maximal run of equal inspectors in a sorted sequence is that inspector's whole group. */
  lemma RunIsGroup(s: seq<Entry>, lo: nat, hi: nat)
    requires SortedByInspector(s) && lo < hi <= |s|
    requires forall i | lo <= i < hi :: s[i].inspector == s[lo].inspector
    requires lo > 0 ==> s[lo - 1].inspector != s[lo].inspector
    requires hi < |s| ==> s[hi].inspector != s[lo].inspector
    ensures Group(s, s[lo].inspector) == s[lo..hi]
  {
    var id := s[lo].inspector;
    Outside(s, lo, hi);
    var b := s[lo..hi];
    forall e | e in b
      ensures e.inspector == id
    {
      var i :| 0 <= i < |b| && b[i] == e;
      assert b[i] == s[lo + i];
    }
    Sandwich(s[..lo], b, s[hi..], id);
    Split(s, lo, hi);
  }

  lemma Split(s: seq<Entry>, lo: nat, hi: nat)
    requires lo <= hi <= |s|
    ensures s == s[..lo] + (s[lo..hi] + s[hi..])
  {
  }

  lemma Sandwich(a: seq<Entry>, b: seq<Entry>, c: seq<Entry>, id: nat)
    requires forall e | e in a :: e.inspector != id
    requires forall e | e in b :: e.inspector == id
    requires forall e | e in c :: e.inspector != id
    ensures Group(a + (b + c), id) == b
  {
    GroupAppend(a, b + c, id);
    GroupAppend(b, c, id);
    GroupNone(a, id);
    GroupAll(b, id);
    GroupNone(c, id);
  }

  lemma Outside(s: seq<Entry>, lo: nat, hi: nat)
    requires SortedByInspector(s) && lo < hi <= |s|
    requires lo > 0 ==> s[lo - 1].inspector != s[lo].inspector
    requires hi < |s| ==> s[hi].inspector != s[lo].inspector
    ensures forall e | e in s[..lo] :: e.inspector != s[lo].inspector
    ensures forall e | e in s[hi..] :: e.inspector != s[lo].inspector
  {
    forall i | 0 <= i < lo
      ensures s[i].inspector < s[lo].inspector
    {
      assert s[i].inspector <= s[lo - 1].inspector;
    }
    forall i | hi <= i < |s|
      ensures s[i].inspector > s[lo].inspector
    {
      assert s[hi].inspector <= s[i].inspector;
    }
  }

  lemma {:induction false} GroupNone(s: seq<Entry>, id: nat)
    requires forall e | e in s :: e.inspector != id
    ensures Group(s, id) == []
    decreases |s|
  {
    if s != [] {
      assert s[|s| - 1] in s;
      GroupNone(s[..|s| - 1], id);
    }
  }

  // ----- the validator

  method CheckGroup(frame: nat, g: seq<Entry>) returns (ok: bool)
    requires g != []
    ensures ok <==> GroupOk(frame, g)
  {
    for i := 0 to |g|
      invariant forall k | 0 <= k < i :: g[k].period == g[0].period && g[k].duration == g[0].duration
    {
      if g[i].period != g[0].period || g[i].duration != g[0].duration {
        return false;
      }
    }
    for i := 0 to |g|
      invariant forall k | 0 <= k < i :: Gap(frame, g[k], g[if k + 1 < |g| then k + 1 else 0]) == g[k].period
    {
      if Gap(frame, g[i], g[if i + 1 < |g| then i + 1 else 0]) != g[i].period {
        return false;
      }
    }
    return true;
  }

  method CheckWindows(frame: nat, t: seq<Entry>) returns (ok: bool)
    ensures ok <==> WindowsOk(frame, t)
  {
    for i := 0 to |t|
      invariant forall k | 0 <= k < i :: t[k].offset < frame
      invariant forall k | 0 <= k < i && k < |t| - 1 :: End(t[k]) <= t[k + 1].offset
    {
      if t[i].offset >= frame {
        return false;
      }
      if i + 1 < |t| && End(t[i]) > t[i + 1].offset {
        return false;
      }
    }
    return true;
  }

  /** The groups of a table sorted by inspector, each checked once. */
  method CheckGroups(frame: nat, s: seq<Entry>) returns (ok: bool)
    requires SortedByInspector(s)
    ensures ok <==> forall e | e in s :: GroupOk(frame, Group(s, e.inspector))
  {
    var lo := 0;
    while lo < |s|
      invariant 0 <= lo <= |s|
      invariant 0 < lo < |s| ==> s[lo - 1].inspector != s[lo].inspector
      invariant forall k | 0 <= k < lo :: GroupOk(frame, Group(s, s[k].inspector))
    {
      var hi := lo + 1;
      while hi < |s| && s[hi].inspector == s[lo].inspector
        invariant lo < hi <= |s|
        invariant forall i | lo <= i < hi :: s[i].inspector == s[lo].inspector
      {
        hi := hi + 1;
      }
      RunIsGroup(s, lo, hi);
      ok := CheckGroup(frame, s[lo..hi]);
      if !ok {
        assert s[lo] in s;
        return;
      }
      lo := hi;
    }
    return true;
  }

  /** `RuntimeSchedTable::valid` on a table already sorted by offset. */
  method Valid(frame: nat, t: seq<Entry>) returns (ok: bool)
    requires SortedByOffset(t)
    ensures ok <==> Accepted(frame, t)
  {
    ok := CheckWindows(frame, t);
    if ok {
      var s := SortByInspector(t);
      SortSorts(t);
      forall e: Entry
        ensures e in s <==> e in t
        ensures Group(s, e.inspector) == Group(t, e.inspector)
      {
        SortMembers(t, e);
        SortKeepsGroups(t, e.inspector);
      }
      ok := CheckGroups(frame, s);
    }
  }

  function InsertByOffset(t: seq<Entry>, e: Entry): seq<Entry> {
    if t == [] || t[|t| - 1].offset <= e.offset then t + [e] else InsertByOffset(t[..|t| - 1], e) + [t[|t| - 1]]
  }

  lemma {:induction false} InsertByOffsetHas(t: seq<Entry>, e: Entry)
    ensures multiset(InsertByOffset(t, e)) == multiset(t) + multiset{e}
    decreases |t|
  {
    if t != [] && t[|t| - 1].offset > e.offset {
      assert t == t[..|t| - 1] + [t[|t| - 1]];
      InsertByOffsetHas(t[..|t| - 1], e);
    }
  }

  lemma {:induction false} InsertByOffsetSorted(t: seq<Entry>, e: Entry)
    requires SortedByOffset(t)
    ensures SortedByOffset(InsertByOffset(t, e))
    decreases |t|
  {
    if t != [] && t[|t| - 1].offset > e.offset {
      var n := |t| - 1;
      InsertByOffsetSorted(t[..n], e);
      InsertByOffsetHas(t[..n], e);
      var r := InsertByOffset(t[..n], e);
      forall i | 0 <= i < |r|
        ensures r[i].offset <= t[n].offset
      {
        assert r[i] in multiset(r);
        assert r[i] == e || r[i] in t[..n];
      }
    }
  }

  /** `RuntimeSchedTable::new`: the entries in any order, sorted by offset and then checked. */
  method New(frame: nat, entries: seq<Entry>) returns (r: Result<seq<Entry>>)
    ensures match r
            case Ok(t) => SortedByOffset(t) && multiset(t) == multiset(entries) && Accepted(frame, t)
            case Err(e) =>
              && e == InvalidRuntimeSchedTable
              && exists t :: SortedByOffset(t) && multiset(t) == multiset(entries) && !Accepted(frame, t)
  {
    var t: seq<Entry> := [];
    for i := 0 to |entries|
      invariant SortedByOffset(t) && multiset(t) == multiset(entries[..i])
    {
      assert entries[..i + 1] == entries[..i] + [entries[i]];
      InsertByOffsetSorted(t, entries[i]);
      InsertByOffsetHas(t, entries[i]);
      t := InsertByOffset(t, entries[i]);
    }
    assert entries[..|entries|] == entries;
    var ok := Valid(frame, t);
    if ok {
      return Ok(t);
    }
    return Err(InvalidRuntimeSchedTable);
  }

  // ----- what acceptance means

  /** Windows of one frame are pairwise disjoint. */
  lemma {:induction false} DisjointInFrame(frame: nat, t: seq<Entry>, i: nat, j: nat)
    requires WindowsOk(frame, t) && i < j < |t|
    ensures End(t[i]) <= t[j].offset
    decreases j
  {
    if i + 1 < j {
      DisjointInFrame(frame, t, i, j - 1);
    }
  }

  ghost predicate DistinctOffsets(g: seq<Entry>) {
    forall i, j | 0 <= i < j < |g| :: g[i].offset != g[j].offset
  }

  lemma {:induction false} GroupSorted(t: seq<Entry>, id: nat)
    requires SortedByOffset(t)
    ensures SortedByOffset(Group(t, id))
    decreases |t|
  {
    if t != [] {
      var n := |t| - 1;
      GroupSorted(t[..n], id);
      var g := Group(t[..n], id);
      forall i | 0 <= i < |g|
        ensures g[i].offset <= t[n].offset
      {
        GroupMembers(t[..n], id, g[i]);
        assert g[i] in g;
      }
    }
  }

  /** In an accepted group with distinct offsets, starts are evenly spaced. */
  lemma {:induction false} EvenlySpaced(frame: nat, g: seq<Entry>, i: nat)
    requires SortedByOffset(g) && DistinctOffsets(g) && GroupOk(frame, g) && i < |g|
    ensures g[i].offset == g[0].offset + i * g[0].period
  {
    if i > 0 {
      EvenlySpaced(frame, g, i - 1);
      assert g[i - 1].offset < g[i].offset;
    }
  }

  lemma DistinctFillFrame(frame: nat, g: seq<Entry>)
    requires g != [] && SortedByOffset(g) && GroupOk(frame, g) && DistinctOffsets(g)
    ensures |g| * g[0].period == frame
  {
    var n, p := |g| - 1, g[0].period;
    EvenlySpaced(frame, g, n);
    assert g[n].period == p && Gap(frame, g[n], g[0]) == p;
    assert g[0].offset <= g[n].offset;
    assert |g| * p == n * p + p;
  }

  lemma EqualOffsetsOverfill(frame: nat, g: seq<Entry>, i: nat)
    requires GroupOk(frame, g) && i + 1 < |g| && g[i].offset == g[i + 1].offset < frame
    ensures |g| * g[0].period >= 2 * frame
  {
    assert g[i].period == g[0].period && Gap(frame, g[i], g[i + 1]) == frame;
    assert |g| * frame >= 2 * frame;
  }

  /** For an accepted inspector, the number of entries times the period is the frame size exactly
      when no two of its entries start at the same offset. */
  lemma PeriodFillsFrame(frame: nat, g: seq<Entry>)
    requires g != [] && SortedByOffset(g) && GroupOk(frame, g)
    requires forall i | 0 <= i < |g| :: g[i].offset < frame
    ensures |g| * g[0].period == frame <==> DistinctOffsets(g)
  {
    if DistinctOffsets(g) {
      DistinctFillFrame(frame, g);
    } else {
      var i, j :| 0 <= i < j < |g| && g[i].offset == g[j].offset;
      assert g[i].offset <= g[i + 1].offset;
      assert i + 1 < j ==> g[i + 1].offset <= g[j].offset;
      EqualOffsetsOverfill(frame, g, i);
    }
  }

  /** Windows that are not empty start at distinct offsets. */
  lemma NonEmptyWindowsDistinct(frame: nat, t: seq<Entry>, i: nat, j: nat)
    requires WindowsOk(frame, t) && i < j < |t| && t[i].duration > 0
    ensures t[i].offset < t[j].offset
  {
    DisjointInFrame(frame, t, i, j);
  }

  lemma {:induction false} GroupDistinct(frame: nat, t: seq<Entry>, id: nat)
    requires WindowsOk(frame, t) && forall e | e in t && e.inspector == id :: e.duration > 0
    ensures DistinctOffsets(Group(t, id))
    decreases |t|
  {
    if t != [] {
      var n := |t| - 1;
      GroupDistinct(frame, t[..n], id);
      var g := Group(t[..n], id);
      forall i | 0 <= i < |g|
        ensures g[i].offset < t[n].offset
      {
        assert g[i] in g;
        GroupMembers(t[..n], id, g[i]);
        var j :| 0 <= j < n && t[j] == g[i];
        assert t[j] in t;
        NonEmptyWindowsDistinct(frame, t, j, n);
      }
    }
  }

  /** In an accepted table, an inspector whose windows are not empty fills the frame with its period. */
  lemma AcceptedIsPeriodic(frame: nat, t: seq<Entry>, id: nat)
    requires SortedByOffset(t) && Accepted(frame, t) && Group(t, id) != []
    requires forall e | e in t && e.inspector == id :: e.duration > 0
    ensures var g := Group(t, id);
            SortedByOffset(g) && GroupOk(frame, g) && DistinctOffsets(g) && |g| * g[0].period == frame
  {
    var g := Group(t, id);
    assert g[0] in g;
    GroupMembers(t, id, g[0]);
    GroupSorted(t, id);
    GroupDistinct(frame, t, id);
    DistinctFillFrame(frame, g);
  }

  /** Start `i` of frame `m`, for a table started at time zero. */
  function StartInstant(frame: nat, g: seq<Entry>, m: nat, i: nat): nat
    requires i < |g|
  {
    m * frame + g[i].offset
  }

  /** The start instants of an accepted inspector with distinct offsets, over all frames, are exactly
      the arithmetic progression from its first offset: start `i` of frame `m` is term `m * n + i`. */
  lemma StartsArePeriodic(frame: nat, g: seq<Entry>, m: nat, i: nat)
    requires SortedByOffset(g) && GroupOk(frame, g) && DistinctOffsets(g) && i < |g|
    ensures StartInstant(frame, g, m, i) == g[0].offset + (m * |g| + i) * g[0].period
  {
    DistinctFillFrame(frame, g);
    EvenlySpaced(frame, g, i);
    Distribute(m, |g|, i, g[0].period);
  }

  lemma Distribute(m: nat, n: nat, i: nat, p: nat)
    ensures (m * n + i) * p == m * (n * p) + i * p
  {
    assert m * (n * p) == (m * n) * p;
  }

  lemma EveryTermIsAStart(frame: nat, g: seq<Entry>, k: nat)
    requires g != [] && SortedByOffset(g) && GroupOk(frame, g) && DistinctOffsets(g)
    ensures StartInstant(frame, g, k / |g|, k % |g|) == g[0].offset + k * g[0].period
  {
    StartsArePeriodic(frame, g, k / |g|, k % |g|);
    assert k / |g| * |g| + k % |g| == k;
  }

  function EndInstant(frame: nat, t: seq<Entry>, m: nat, i: nat): nat
    requires i < |t|
  {
    m * frame + End(t[i])
  }

  /** Windows of different frames do not overlap. */
  ghost predicate DisjointAcrossFrames(frame: nat, t: seq<Entry>) {
    forall m: nat, m': nat, i: nat, j: nat | m < m' && i < |t| && j < |t| ::
      EndInstant(frame, t, m, i) <= StartInstant(frame, t, m', j)
  }

  lemma {:induction false} EndsAscend(frame: nat, t: seq<Entry>, i: nat)
    requires WindowsOk(frame, t) && i < |t|
    ensures End(t[i]) <= End(t[|t| - 1]) && t[0].offset <= t[i].offset
  {
    if i < |t| - 1 {
      DisjointInFrame(frame, t, i, |t| - 1);
    }
    if i > 0 {
      DisjointInFrame(frame, t, 0, i);
    }
  }

  lemma FramesApart(frame: nat, m: nat, m': nat)
    requires m < m'
    ensures m * frame + frame <= m' * frame
  {
    assert (m + 1) * frame <= m' * frame;
  }

  /** The validator does not look past the frame end. Windows of different frames are disjoint exactly
      when the last window also ends before the first one of the next frame starts. */
  lemma FrameBoundary(frame: nat, t: seq<Entry>)
    requires t != [] && WindowsOk(frame, t)
    ensures DisjointAcrossFrames(frame, t) <==> End(t[|t| - 1]) <= t[0].offset + frame
  {
    if DisjointAcrossFrames(frame, t) {
      assert EndInstant(frame, t, 0, |t| - 1) <= StartInstant(frame, t, 1, 0);
    }
    if End(t[|t| - 1]) <= t[0].offset + frame {
      forall m: nat, m': nat, i: nat, j: nat | m < m' && i < |t| && j < |t|
        ensures EndInstant(frame, t, m, i) <= StartInstant(frame, t, m', j)
      {
        EndsAscend(frame, t, i);
        EndsAscend(frame, t, j);
        FramesApart(frame, m, m');
      }
    }
  }

  /** An accepted table whose only window is longer than the frame. */
  lemma AcceptedButOverrunning()
    ensures var t := [Entry(7, 1, 4, 6)];
            Accepted(4, t) && !DisjointAcrossFrames(4, t)
  {
    var t := [Entry(7, 1, 4, 6)];
    AcceptedAlone(4, t[0]);
    FrameBoundary(4, t);
  }

  /** An entry whose period is the frame is accepted alone, whatever its duration. */
  lemma AcceptedAlone(frame: nat, e: Entry)
    requires e.offset < frame && e.period == frame
    ensures Accepted(frame, [e])
  {
    var t := [e];
    GroupAll(t, e.inspector);
    assert GroupOk(frame, t) by {
      assert Gap(frame, e, e) == frame;
    }
    forall x | x in t
      ensures GroupOk(frame, Group(t, x.inspector))
    {
      assert x == e;
    }
  }

  /** An accepted table in which one inspector has two empty windows at the same offset: two entries of
      period four in a frame of four. */
  lemma AcceptedButNotPeriodic()
    ensures var t := [Entry(7, 1, 4, 0), Entry(7, 1, 4, 0)];
            Accepted(4, t) && |Group(t, 7)| * Group(t, 7)[0].period != 4
  {
    var e := Entry(7, 1, 4, 0);
    var t := [e, e];
    GroupAll(t, 7);
    assert GroupOk(4, t) by {
      assert Gap(4, e, e) == 4;
    }
    assert forall x | x in t :: x == e;
  }

  // ----- the order of entries at one offset

  /** An empty and a non-empty window start at the same offset. */
  ghost predicate Mixed(t: seq<Entry>) {
    exists x, y :: x in t && y in t && x.offset == y.offset && x.duration == 0 && y.duration > 0
  }

  ghost predicate SameEntries(t: seq<Entry>, t': seq<Entry>) {
    SortedByOffset(t') && multiset(t') == multiset(t)
  }

  lemma Shared(t: seq<Entry>, t': seq<Entry>, x: Entry)
    requires multiset(t') == multiset(t)
    ensures x in t' <==> x in t
  {
    assert x in multiset(t') <==> x in multiset(t);
  }

  function DropAt(t: seq<Entry>, a: nat): seq<Entry>
    requires a < |t|
  {
    t[..a] + t[a + 1..]
  }

  lemma Dropped(t: seq<Entry>, a: nat)
    requires a < |t|
    ensures multiset(DropAt(t, a)) == multiset(t) - multiset{t[a]}
  {
    assert t == t[..a] + [t[a]] + t[a + 1..];
  }

  /** Two positions of one sequence are two positions of every other with the same entries. */
  lemma TwoPositions(t: seq<Entry>, t': seq<Entry>, i: nat, j: nat) returns (a: nat, b: nat)
    requires multiset(t') == multiset(t) && i < j < |t'|
    ensures a < |t| && b < |t| && a != b && t[a] == t'[i] && t[b] == t'[j]
  {
    Shared(t, t', t'[i]);
    a :| 0 <= a < |t| && t[a] == t'[i];
    Dropped(t, a);
    Dropped(t', i);
    assert DropAt(t', i)[j - 1] == t'[j];
    Shared(DropAt(t, a), DropAt(t', i), t'[j]);
    var k :| 0 <= k < |DropAt(t, a)| && DropAt(t, a)[k] == t'[j];
    b := if k < a then k else k + 1;
  }

  /** Without mixed offsets the windows are in order whichever sorted order is taken. */
  lemma WindowsAgree(frame: nat, t: seq<Entry>, t': seq<Entry>)
    requires WindowsOk(frame, t) && SortedByOffset(t) && SameEntries(t, t') && !Mixed(t)
    ensures WindowsOk(frame, t')
  {
    forall i | 0 <= i < |t'|
      ensures t'[i].offset < frame
    {
      Shared(t, t', t'[i]);
    }
    forall i | 0 <= i < |t'| - 1
      ensures End(t'[i]) <= t'[i + 1].offset
    {
      var a, b := TwoPositions(t, t', i, i + 1);
      if a < b {
        DisjointInFrame(frame, t, a, b);
      } else {
        DisjointInFrame(frame, t, b, a);
        assert t[a] in t && t[b] in t;
      }
    }
  }

  lemma {:induction false} GroupEntries(t: seq<Entry>, id: nat, x: Entry)
    ensures multiset(Group(t, id))[x] == if x.inspector == id then multiset(t)[x] else 0
    decreases |t|
  {
    if t != [] {
      GroupEntries(t[..|t| - 1], id, x);
      assert t == t[..|t| - 1] + [t[|t| - 1]];
    }
  }

  /** At most one kind of entry per offset. */
  ghost predicate OneEach(g: seq<Entry>) {
    forall x, y | x in g && y in g && x.offset == y.offset :: x == y
  }

  lemma LastUnique(g: seq<Entry>, g': seq<Entry>)
    requires SortedByOffset(g) && SortedByOffset(g') && multiset(g) == multiset(g') && g != [] && g' != []
    requires OneEach(g)
    ensures g[|g| - 1] == g'[|g'| - 1]
  {
    var x, y := g[|g| - 1], g'[|g'| - 1];
    Shared(g, g', x);
    Shared(g, g', y);
    assert x in g && y in g';
    var i :| 0 <= i < |g| && g[i] == y;
    var j :| 0 <= j < |g'| && g'[j] == x;
    assert y.offset <= x.offset <= y.offset;
  }

  lemma Shorter(g: seq<Entry>)
    requires g != []
    ensures multiset(g[..|g| - 1]) == multiset(g) - multiset{g[|g| - 1]}
    ensures SortedByOffset(g) ==> SortedByOffset(g[..|g| - 1])
    ensures OneEach(g) ==> OneEach(g[..|g| - 1])
  {
    assert g == g[..|g| - 1] + [g[|g| - 1]];
  }

  /** Sorted sequences with the same entries are equal when equal offsets mean equal entries. */
  lemma {:induction false} SortedUnique(g: seq<Entry>, g': seq<Entry>)
    requires SortedByOffset(g) && SortedByOffset(g') && multiset(g) == multiset(g')
    requires OneEach(g)
    ensures g == g'
    decreases |g|
  {
    SameLength(g, g');
    if g != [] {
      var init, init' := g[..|g| - 1], g'[..|g'| - 1];
      LastUnique(g, g');
      Shorter(g);
      Shorter(g');
      SortedUnique(init, init');
      assert g == init + [g[|g| - 1]];
      assert g' == init' + [g'[|g'| - 1]];
    }
  }

  lemma SameLength(g: seq<Entry>, g': seq<Entry>)
    requires multiset(g) == multiset(g')
    ensures |g| == |g'|
  {
    assert |multiset(g)| == |g| && |multiset(g')| == |g'|;
  }

  lemma GroupsAgree(frame: nat, t: seq<Entry>, t': seq<Entry>, id: nat)
    requires SortedByOffset(t) && SameEntries(t, t') && GroupOk(frame, Group(t, id))
    requires forall e | e in Group(t, id) :: e.inspector == id
    ensures Group(t', id) == Group(t, id)
  {
    var g, g' := Group(t, id), Group(t', id);
    GroupSorted(t, id);
    GroupSorted(t', id);
    forall x: Entry
      ensures multiset(g)[x] == multiset(g')[x]
    {
      GroupEntries(t, id, x);
      GroupEntries(t', id, x);
    }
    assert multiset(g) == multiset(g');
    forall x, y | x in g && y in g && x.offset == y.offset
      ensures x == y
    {
      assert x.period == g[0].period && y.period == g[0].period;
      assert x.duration == g[0].duration && y.duration == g[0].duration;
    }
    SortedUnique(g, g');
  }

  lemma OrdersAgree(frame: nat, t: seq<Entry>, t': seq<Entry>)
    requires SortedByOffset(t) && Accepted(frame, t) && SameEntries(t, t') && !Mixed(t)
    ensures Accepted(frame, t')
  {
    WindowsAgree(frame, t, t');
    forall e | e in t'
      ensures GroupOk(frame, Group(t', e.inspector))
    {
      Shared(t, t', e);
      forall x | x in Group(t, e.inspector)
        ensures x.inspector == e.inspector
      {
        GroupMembers(t, e.inspector, x);
      }
      GroupsAgree(frame, t, t', e.inspector);
    }
  }

  /** With mixed offsets an accepted order can be turned into a rejected one. */
  lemma OrdersDisagree(frame: nat, t: seq<Entry>) returns (t': seq<Entry>)
    requires SortedByOffset(t) && WindowsOk(frame, t) && Mixed(t)
    ensures SameEntries(t, t') && !WindowsOk(frame, t')
  {
    var x, y :| x in t && y in t && x.offset == y.offset && x.duration == 0 && y.duration > 0;
    var i :| 0 <= i < |t| && t[i] == x;
    var j :| 0 <= j < |t| && t[j] == y;
    if j < i {
      DisjointInFrame(frame, t, j, i);
    }
    assert i < j;
    t' := t[i := y][j := x];
    assert End(t'[i]) > t'[i + 1].offset;
  }

  /** For a table that one sorted order makes acceptable, the sort may choose any order exactly when no empty window
      shares its offset with a non-empty one. */
  lemma AnyOrderExactly(frame: nat, t: seq<Entry>)
    requires SortedByOffset(t) && Accepted(frame, t)
    ensures (forall t' | SameEntries(t, t') :: Accepted(frame, t')) <==> !Mixed(t)
  {
    if Mixed(t) {
      var t' := OrdersDisagree(frame, t);
      assert SameEntries(t, t') && !Accepted(frame, t');
    } else {
      forall t' | SameEntries(t, t')
        ensures Accepted(frame, t')
      {
        OrdersAgree(frame, t, t');
      }
    }
  }

  /** Two entries at offset zero, one of them empty: accepted one way round and rejected the other. */
  lemma OrderMatters()
    ensures var empty, full := Entry(1, 0, 4, 0), Entry(2, 0, 4, 3);
            && SameEntries([empty, full], [full, empty])
            && Accepted(4, [empty, full]) && !Accepted(4, [full, empty])
  {
    var empty, full := Entry(1, 0, 4, 0), Entry(2, 0, 4, 3);
    PairAccepted(4, empty, full);
    var t' := [full, empty];
    assert End(t'[0]) > t'[1].offset;
  }

  lemma GroupOfPair(x: Entry, y: Entry)
    requires x.inspector != y.inspector
    ensures Group([x, y], x.inspector) == [x] && Group([x, y], y.inspector) == [y]
  {
    assert [x, y] == [x] + [y];
    GroupAppend([x], [y], x.inspector);
    GroupAppend([x], [y], y.inspector);
    GroupAll([x], x.inspector);
    GroupAll([y], y.inspector);
    GroupNone([x], y.inspector);
    GroupNone([y], x.inspector);
  }

  /** Two inspectors with one entry each, of the period of the frame, the first ending in time. */
  lemma PairAccepted(frame: nat, x: Entry, y: Entry)
    requires x.inspector != y.inspector && x.period == frame && y.period == frame
    requires x.offset < frame && y.offset < frame && End(x) <= y.offset
    ensures Accepted(frame, [x, y])
  {
    var t := [x, y];
    GroupOfPair(x, y);
    AcceptedAlone(frame, x);
    AcceptedAlone(frame, y);
    GroupAll([x], x.inspector);
    GroupAll([y], y.inspector);
    assert [x][0] in [x] && [y][0] in [y];
    forall e | e in t
      ensures GroupOk(frame, Group(t, e.inspector))
    {
      assert e == x || e == y;
    }
  }

  // ----- walking through the table

  /** Start of the window of call `k` on a table started at `base`. */
  function CallStart(base: nat, frame: nat, t: seq<Entry>, k: nat): nat
    requires t != []
  {
    base + k / |t| * frame + t[k % |t|].offset
  }

  lemma NextCall(k: nat, n: nat)
    requires n > 0
    ensures if k % n + 1 < n then (k + 1) / n == k / n && (k + 1) % n == k % n + 1
            else (k + 1) / n == k / n + 1 && (k + 1) % n == 0
  {
    var q, r := k / n, k % n;
    assert k == q * n + r;
    if r + 1 < n {
      QuotientUnique(k + 1, n, q, r + 1);
    } else {
      assert k + 1 == (q + 1) * n;
      QuotientUnique(k + 1, n, q + 1, 0);
    }
  }

  lemma QuotientUnique(k: nat, n: nat, q: nat, r: nat)
    requires n > 0 && k == q * n + r && r < n
    ensures k / n == q && k % n == r
  {
    var d := k / n - q;
    assert k == (k / n) * n + k % n;
    assert d * n == r - k % n;
    MulGrows(d, n);
  }

  lemma MulGrows(d: int, n: int)
    requires n >= 0
    ensures d >= 1 ==> d * n >= n
    ensures d <= -1 ==> d * n <= -n
  {
  }

  /** Starts never go backwards, within a frame or from one frame to the next. */
  lemma StartsNeverGoBack(base: nat, frame: nat, t: seq<Entry>, k: nat)
    requires t != [] && WindowsOk(frame, t)
    ensures CallStart(base, frame, t, k) <= CallStart(base, frame, t, k + 1)
  {
    NextCall(k, |t|);
    var q := k / |t|;
    if k % |t| + 1 < |t| {
      DisjointInFrame(frame, t, k % |t|, k % |t| + 1);
    } else {
      assert (q + 1) * frame == q * frame + frame;
    }
  }

  datatype Armed = WindowStart(at: nat) | WindowEnd(at: nat)

  function Keep(events: seq<Armed>, retired: Armed -> bool): seq<Armed> {
    if events == [] then []
    else Keep(events[..|events| - 1], retired) +
         if retired(events[|events| - 1]) then [] else [events[|events| - 1]]
  }

  /** Exactly the events that are not retired are kept, as often as they were there. */
  lemma {:induction false} KeptExactly(events: seq<Armed>, retired: Armed -> bool, e: Armed)
    ensures multiset(Keep(events, retired))[e] == if retired(e) then 0 else multiset(events)[e]
    decreases |events|
  {
    if events != [] {
      KeptExactly(events[..|events| - 1], retired, e);
      assert events == events[..|events| - 1] + [events[|events| - 1]];
    }
  }

  /** And in their order: those kept of a list are those kept of its first part, then those kept of the rest. */
  lemma {:induction false} KeptInOrder(first: seq<Armed>, rest: seq<Armed>, retired: Armed -> bool)
    ensures Keep(first + rest, retired) == Keep(first, retired) + Keep(rest, retired)
    decreases |rest|
  {
    if rest == [] {
      assert first + rest == first;
    } else {
      var n := |rest| - 1;
      assert (first + rest)[..|first + rest| - 1] == first + rest[..n];
      KeptInOrder(first, rest[..n], retired);
    }
  }

  class SchedTable {
    const frameSize: nat
    const table: seq<Entry>
    var next: nat
    var datum: nat
    var events: seq<Armed>
    /** When the current round of calls started, and how many calls it has seen; a table started
        in the middle counts the entries it skips. */
    ghost var base: nat
    ghost var calls: nat

    ghost predicate Valid()
      reads this
    {
      && WindowsOk(frameSize, table)
      && (table != [] ==> next == calls % |table| && datum == base + calls / |table| * frameSize)
    }

    constructor (frame: nat, t: seq<Entry>)
      requires WindowsOk(frame, t)
      ensures Valid() && frameSize == frame && table == t && next == 0 && calls == 0 && base == 0
    {
      frameSize, table := frame, t;
      next, datum, events := 0, 0, [];
      base, calls := 0, 0;
    }

    method Start(now: nat)
      requires Valid()
      modifies this`datum, this`base, this`calls
      ensures Valid() && base == now && calls == next
    {
      datum := now;
      base, calls := now, next;
      if table != [] {
        QuotientUnique(next, |table|, 0, next);
      }
    }

    /** `sched_next` at clock reading `now`: call `k` returns entry `k mod n` and arms the end of its
        window in frame `k div n`, and its start too when that still lies ahead. On an empty table, and on no
        other, its index is out of range; the result is then `None`. */
    method SchedNext(now: nat, retired: Armed -> bool) returns (entry: Option<Entry>)
      requires Valid()
      modifies this
      ensures Valid() && base == old(base)
      ensures entry.None? <==> table == []
      ensures table != [] ==>
                var start := CallStart(base, frameSize, table, old(calls));
                && calls == old(calls) + 1 && entry == Some(table[old(calls) % |table|])
                && start == base + old(calls) / |table| * frameSize + table[old(calls) % |table|].offset
                && events == Keep(old(events), retired) + (if now < start then [WindowStart(start)] else [])
                             + [WindowEnd(start + table[old(calls) % |table|].duration)]
    {
      events := Keep(events, retired);
      if next >= |table| {
        return None;
      }
      var e := table[next];
      next := next + 1;
      if now < datum + e.offset {
        events := events + [WindowStart(datum + e.offset)];
      }
      events := events + [WindowEnd(datum + e.offset + e.duration)];
      NextCall(calls, |table|);
      if next >= |table| {
        next := 0;
        datum := datum + frameSize;
        assert (calls / |table| + 1) * frameSize == calls / |table| * frameSize + frameSize;
      }
      calls := calls + 1;
      return Some(e);
    }
  }

  /** The validator accepts the empty table, and the first call on it fails. */
  method EmptyTableAccepted(frame: nat, now: nat) returns (t: Result<seq<Entry>>, entry: Option<Entry>)
    ensures t == Ok([]) && entry == None
  {
    t := New(frame, []);
    forall s: seq<Entry> | SortedByOffset(s) && multiset(s) == multiset([])
      ensures s == [] && Accepted(frame, s)
    {
      assert |multiset(s)| == |s|;
    }
    var table := new SchedTable(frame, t.value);
    table.Start(now);
    entry := table.SchedNext(now, _ => false);
  }
}
