/** The multi-level page table: a radix tree held in physical frames, together with
    the side map `frames` that keeps those frames, and every mapped frame, alive. */
module Paging {
  import opened Errors
  import opened Addressing

  /** `boot` is the root table of the boot page table, whose upper half every page table copies. */
  datatype Config = Config(arch: Arch, boot: seq<nat>)

  /** Contents of the frames that serve as tables. */
  type Memory = map<nat, seq<nat>>

  /** Page to physical address and stored permission. */
  type Views = map<nat, (nat, Perm)>

  /** The boot table has huge-page entries over the whole linear map of physical memory. */
  ghost predicate BootReady(c: Config) {
    && |c.boot| == Fanout(c.arch)
    && forall i | 0 <= i < |c.boot| && WindowIndex(c.arch, i) :: EntryValid(c.boot[i])
  }

  /** Root slots that hold an entry copied from the boot table. */
  predicate Reserved(c: Config, i: nat) {
    Fanout(c.arch) / 2 <= i < |c.boot| && EntryValid(c.boot[i])
  }

  /** Index sequences of the pages the table manages: those not below a copied boot entry. */
  predicate UserPath(c: Config, ix: seq<nat>) {
    && |ix| == Levels(c.arch) && !Reserved(c, ix[0])
    && forall k | 0 <= k < |ix| :: ix[k] < Fanout(c.arch)
  }

  predicate UserPage(c: Config, va: nat) {
    IsPage(c.arch, va) && UserPath(c, Indexes(c.arch, va))
  }

  /** Every table sits at one path of indexes, and each valid entry above the last level
      leads to the table at the extended path. `path` is the witness. */
  ghost predicate Shape(c: Config, root: nat, mem: Memory, path: map<nat, seq<nat>>) {
    && root in mem && path.Keys == mem.Keys && path[root] == []
    && (forall t | t in mem ::
          && IsFrame(c.arch, t)
          && |mem[t]| == Fanout(c.arch)
          && |path[t]| < Levels(c.arch)
          && (path[t] == [] ==> t == root))
    && (forall t, i | t in mem && 0 <= i < Fanout(c.arch) :: LinkOk(c, root, mem, path, t, i))
  }

  ghost predicate LinkOk(c: Config, root: nat, mem: Memory, path: map<nat, seq<nat>>, t: nat, i: nat)
    requires t in mem && i < |mem[t]| && path.Keys == mem.Keys
  {
    |path[t]| + 1 < Levels(c.arch) && EntryValid(mem[t][i]) && !(t == root && Reserved(c, i)) ==>
      && EntryPhys(c.arch, mem[t][i]) in mem && path[EntryPhys(c.arch, mem[t][i])] == path[t] + [i]
      && Pointer(mem[t][i])
  }

  /** The hardware takes the entry for a link to a table and not for a huge page. */
  predicate Pointer(word: nat) {
    !PermOf(word).r && !PermOf(word).w && !PermOf(word).x
  }

  /** Each table frame is kept alive under its address in the linear map, and a
      linear-map key keeps alive the frame it names. */
  ghost predicate TablesOwned(c: Config, mem: Memory, frames: map<nat, nat>) {
    && (forall t | t in mem :: ToVirt(c.arch, t) in frames)
    && forall f | IsFrame(c.arch, f) && ToVirt(c.arch, f) in frames :: frames[ToVirt(c.arch, f)] == f
  }

  /** The table a walk from the root stands in after following `n` indexes. */
  function At(c: Config, root: nat, mem: Memory, ix: seq<nat>, n: nat): Option<nat>
    requires n <= |ix|
  {
    if n == 0 then Some(root)
    else
      match At(c, root, mem, ix, n - 1)
      case None => None
      case Some(t) =>
        if t in mem && ix[n - 1] < |mem[t]| && EntryValid(mem[t][ix[n - 1]])
        then Some(EntryPhys(c.arch, mem[t][ix[n - 1]])) else None
  }

  /** How many tables are missing below `pa`, where `i` indexes have been followed. */
  function Lacks(c: Config, mem: Memory, pa: nat, ix: seq<nat>, i: nat): nat
    requires i < |ix|
    decreases |ix| - i
  {
    if i == |ix| - 1 then 0
    else if pa in mem && ix[i] < |mem[pa]| && EntryValid(mem[pa][ix[i]])
    then Lacks(c, mem, EntryPhys(c.arch, mem[pa][ix[i]]), ix, i + 1)
    else |ix| - 1 - i
  }

  /** The valid leaf entry at a path. */
  function Leaf(c: Config, root: nat, mem: Memory, ix: seq<nat>): Option<nat>
    requires ix != []
  {
    match At(c, root, mem, ix, |ix| - 1)
    case None => None
    case Some(t) =>
      var k := ix[|ix| - 1];
      if t in mem && k < |mem[t]| && EntryValid(mem[t][k]) then Some(mem[t][k]) else None
  }

  /** Two memories hold the same leaf entries. */
  ghost predicate SameLeaves(c: Config, root: nat, mem: Memory, mem': Memory) {
    forall ix | UserPath(c, ix) :: Leaf(c, root, mem', ix) == Leaf(c, root, mem, ix)
  }

  /** `mem'` holds the leaf entries of `mem`, except that word `w` stands at path `ix`. */
  ghost predicate LeafStored(c: Config, root: nat, mem: Memory, mem': Memory, ix: seq<nat>, w: nat) {
    forall other | UserPath(c, other) ::
      Leaf(c, root, mem', other) ==
      if other == ix then (if EntryValid(w) then Some(w) else None) else Leaf(c, root, mem, other)
  }

  // ----- what walks know

  lemma {:induction false} AtPath(c: Config, root: nat, mem: Memory, path: map<nat, seq<nat>>, ix: seq<nat>, n: nat)
    requires Shape(c, root, mem, path) && UserPath(c, ix) && n < |ix|
    ensures At(c, root, mem, ix, n).Some? ==>
              At(c, root, mem, ix, n).value in mem && path[At(c, root, mem, ix, n).value] == ix[..n]
  {
    if n > 0 {
      AtPath(c, root, mem, path, ix, n - 1);
      if At(c, root, mem, ix, n).Some? {
        var t := At(c, root, mem, ix, n - 1).value;
        assert LinkOk(c, root, mem, path, t, ix[n - 1]);
        assert ix[..n] == ix[..n - 1] + [ix[n - 1]];
      }
    }
  }

  lemma {:induction false} CutShort(c: Config, root: nat, mem: Memory, ix: seq<nat>, n: nat, m: nat)
    requires n <= m <= |ix| && At(c, root, mem, ix, n).None?
    ensures At(c, root, mem, ix, m).None?
  {
    if n < m {
      CutShort(c, root, mem, ix, n, m - 1);
    }
  }

  function WithEntry(mem: Memory, t: nat, k: nat, w: nat): Memory
    requires t in mem && k < |mem[t]|
  {
    var table: seq<nat> := mem[t][k := w];
    mem[t := table]
  }

  function ZeroTable(c: Config): seq<nat> {
    seq<nat>(Fanout(c.arch), _ => 0)
  }

  // ----- adding an empty table

  /** Memory after an empty table `f` has been linked into slot `j` of table `t`. */
  function WithTable(c: Config, mem: Memory, t: nat, j: nat, f: nat): Memory
    requires t in mem && j < |mem[t]|
  {
    WithEntry(mem, t, j, EntryBits(f, TABLE_PERM))[f := ZeroTable(c)]
  }

  /** Slot `j` of table `t`, above the last level, is empty and `f` is a frame not yet in use. */
  ghost predicate CanAdd(c: Config, root: nat, mem: Memory, path: map<nat, seq<nat>>, t: nat, j: nat, f: nat) {
    && Shape(c, root, mem, path) && t in mem && j < |mem[t]|
    && |path[t]| + 1 < Levels(c.arch) && !EntryValid(mem[t][j])
    && IsFrame(c.arch, f) && f !in mem
  }

  lemma TableEntry(c: Config, f: nat)
    requires IsFrame(c.arch, f)
    ensures EntryValid(EntryBits(f, TABLE_PERM))
    ensures EntryPhys(c.arch, EntryBits(f, TABLE_PERM)) == f && Pointer(EntryBits(f, TABLE_PERM))
  {
    EntryRoundTrip(c.arch, f, TABLE_PERM);
  }

  lemma AddTableShape(c: Config, root: nat, mem: Memory, path: map<nat, seq<nat>>, t: nat, j: nat, f: nat)
    requires CanAdd(c, root, mem, path, t, j, f)
    ensures Shape(c, root, WithTable(c, mem, t, j, f), path[f := path[t] + [j]])
  {
    var mem' := WithTable(c, mem, t, j, f);
    var path' := path[f := path[t] + [j]];
    TableEntry(c, f);
    forall s, i | s in mem' && 0 <= i < Fanout(c.arch)
      ensures LinkOk(c, root, mem', path', s, i)
    {
      if s in mem {
        assert LinkOk(c, root, mem, path, s, i);
      }
    }
  }

  /** Walks that went somewhere still go there; a walk that was cut short may now enter
      the new table, and can go no further. */
  lemma {:induction false} AddTableAt(c: Config, root: nat, mem: Memory, path: map<nat, seq<nat>>,
                                      t: nat, j: nat, f: nat, ix: seq<nat>, n: nat)
    requires CanAdd(c, root, mem, path, t, j, f) && UserPath(c, ix) && n < |ix|
    ensures var before, after := At(c, root, mem, ix, n), At(c, root, WithTable(c, mem, t, j, f), ix, n);
            after == before || (before == None && after == Some(f))
  {
    if n > 0 {
      TableEntry(c, f);
      AddTableAt(c, root, mem, path, t, j, f, ix, n - 1);
      AtPath(c, root, mem, path, ix, n - 1);
    }
  }

  /** The walk that asked for the table goes on into it, and lacks all tables below it. */
  lemma AddTableWalk(c: Config, root: nat, mem: Memory, path: map<nat, seq<nat>>, t: nat, f: nat, ix: seq<nat>, i: nat)
    requires UserPath(c, ix) && i + 1 < |ix| && CanAdd(c, root, mem, path, t, ix[i], f)
    requires At(c, root, mem, ix, i) == Some(t)
    ensures var mem' := WithTable(c, mem, t, ix[i], f);
            At(c, root, mem', ix, i + 1) == Some(f) && Lacks(c, mem', f, ix, i + 1) == |ix| - 1 - (i + 1)
  {
    AddTableAt(c, root, mem, path, t, ix[i], f, ix, i);
    TableEntry(c, f);
    assert WithTable(c, mem, t, ix[i], f)[f] == ZeroTable(c);
  }

  lemma AddTableLeaf(c: Config, root: nat, mem: Memory, path: map<nat, seq<nat>>, t: nat, j: nat, f: nat, ix: seq<nat>)
    requires CanAdd(c, root, mem, path, t, j, f) && UserPath(c, ix)
    ensures Leaf(c, root, WithTable(c, mem, t, j, f), ix) == Leaf(c, root, mem, ix)
  {
    AddTableAt(c, root, mem, path, t, j, f, ix, |ix| - 1);
    AtPath(c, root, mem, path, ix, |ix| - 1);
  }

  /** Linking in an empty table changes no mapping. */
  lemma AddTableLeaves(c: Config, root: nat, mem: Memory, path: map<nat, seq<nat>>, t: nat, j: nat, f: nat)
    requires CanAdd(c, root, mem, path, t, j, f)
    ensures SameLeaves(c, root, mem, WithTable(c, mem, t, j, f))
  {
    forall ix | UserPath(c, ix)
      ensures Leaf(c, root, WithTable(c, mem, t, j, f), ix) == Leaf(c, root, mem, ix)
    {
      AddTableLeaf(c, root, mem, path, t, j, f, ix);
    }
  }

  // ----- overwriting a leaf entry

  lemma SetLeafShape(c: Config, root: nat, mem: Memory, path: map<nat, seq<nat>>, t: nat, k: nat, w: nat)
    requires Shape(c, root, mem, path) && t in mem && k < |mem[t]|
    requires |path[t]| + 1 == Levels(c.arch)
    ensures Shape(c, root, WithEntry(mem, t, k, w), path)
  {
    var mem' := WithEntry(mem, t, k, w);
    forall s, i | s in mem' && 0 <= i < Fanout(c.arch)
      ensures LinkOk(c, root, mem', path, s, i)
    {
      assert LinkOk(c, root, mem, path, s, i);
    }
  }

  lemma {:induction false} SetLeafAt(c: Config, root: nat, mem: Memory, path: map<nat, seq<nat>>,
                                     t: nat, k: nat, w: nat, ix: seq<nat>, n: nat)
    requires Shape(c, root, mem, path) && t in mem && k < |mem[t]|
    requires |path[t]| + 1 == Levels(c.arch) && UserPath(c, ix) && n < |ix|
    ensures At(c, root, WithEntry(mem, t, k, w), ix, n) == At(c, root, mem, ix, n)
  {
    if n > 0 {
      SetLeafAt(c, root, mem, path, t, k, w, ix, n - 1);
      AtPath(c, root, mem, path, ix, n - 1);
    }
  }

  /** Writing the leaf slot of path `ix` sets the leaf there and at no other path. */
  lemma SetLeafFrame(c: Config, root: nat, mem: Memory, path: map<nat, seq<nat>>,
                     ix: seq<nat>, t: nat, w: nat, other: seq<nat>)
    requires Shape(c, root, mem, path) && UserPath(c, ix) && UserPath(c, other)
    requires At(c, root, mem, ix, |ix| - 1) == Some(t)
    ensures t in mem && ix[|ix| - 1] < |mem[t]|
    ensures Leaf(c, root, WithEntry(mem, t, ix[|ix| - 1], w), other) ==
            if other == ix then (if EntryValid(w) then Some(w) else None) else Leaf(c, root, mem, other)
  {
    var n := |ix| - 1;
    AtPath(c, root, mem, path, ix, n);
    AtPath(c, root, mem, path, other, n);
    SetLeafAt(c, root, mem, path, t, ix[n], w, other, n);
    assert ix == ix[..n] + [ix[n]] && other == other[..n] + [other[n]];
  }

  lemma SetLeafLeaves(c: Config, root: nat, mem: Memory, path: map<nat, seq<nat>>, ix: seq<nat>, t: nat, w: nat)
    requires Shape(c, root, mem, path) && UserPath(c, ix) && At(c, root, mem, ix, |ix| - 1) == Some(t)
    ensures t in mem && |path[t]| + 1 == Levels(c.arch) && ix[|ix| - 1] < |mem[t]|
    ensures LeafStored(c, root, mem, WithEntry(mem, t, ix[|ix| - 1], w), ix, w)
  {
    AtPath(c, root, mem, path, ix, |ix| - 1);
    forall other | UserPath(c, other)
      ensures Leaf(c, root, WithEntry(mem, t, ix[|ix| - 1], w), other) ==
              if other == ix then (if EntryValid(w) then Some(w) else None) else Leaf(c, root, mem, other)
    {
      SetLeafFrame(c, root, mem, path, ix, t, w, other);
    }
  }

  // ----- the mapping a tree denotes

  function PageLeaf(c: Config, root: nat, mem: Memory, va: nat): Option<nat> {
    Leaf(c, root, mem, Indexes(c.arch, va))
  }

  /** No dangling mapping: a valid leaf's frame is the one recorded for that page. */
  ghost predicate Backed(c: Config, root: nat, mem: Memory, frames: map<nat, nat>) {
    forall va | UserPage(c, va) && PageLeaf(c, root, mem, va).Some? ::
      va in frames && frames[va] == EntryPhys(c.arch, PageLeaf(c, root, mem, va).value)
  }

  ghost function ViewOf(c: Config, root: nat, mem: Memory, frames: map<nat, nat>): Views {
    map va | va in frames && UserPage(c, va) && PageView(c, root, mem, va).Some? :: PageView(c, root, mem, va).value
  }

  /** Tables that a walk to this page still lacks. */
  function Missing(c: Config, root: nat, mem: Memory, va: nat): nat {
    Lacks(c, mem, root, Indexes(c.arch, va), 0)
  }

  /** The last-level table for a page, if every table above it exists. */
  function LastTable(c: Config, root: nat, mem: Memory, va: nat): Option<nat> {
    At(c, root, mem, Indexes(c.arch, va), Levels(c.arch) - 1)
  }

  /** A user page is never the linear-map address of a frame, so the two kinds of key
      in `frames` cannot collide. */
  lemma KeysApart(c: Config, va: nat, t: nat)
    requires BootReady(c) && UserPage(c, va) && IsFrame(c.arch, t)
    ensures va != ToVirt(c.arch, t)
  {
    FrameInWindow(c.arch, t);
  }

  lemma TablesAlive(c: Config, mem: Memory, frames: map<nat, nat>)
    requires TablesOwned(c, mem, frames) && forall t | t in mem :: IsFrame(c.arch, t)
    ensures forall t | t in mem :: t in frames.Values
  {
    forall t | t in mem
      ensures t in frames.Values
    {
      assert frames[ToVirt(c.arch, t)] == t;
    }
  }

  /** The root table of a new page table. */
  function NewRoot(c: Config): (table: seq<nat>)
    requires |c.boot| == Fanout(c.arch)
    ensures |table| == Fanout(c.arch)
    ensures forall i | 0 <= i < |table| :: EntryValid(table[i]) <==> Reserved(c, i)
  {
    var half := Fanout(c.arch) / 2;
    ZeroTable(c)[..half] + c.boot[half..]
  }

  lemma NewTree(c: Config, frame: nat)
    requires BootReady(c) && IsFrame(c.arch, frame)
    ensures Shape(c, frame, map[frame := NewRoot(c)], map[frame := []])
    ensures TablesOwned(c, map[frame := NewRoot(c)], map[ToVirt(c.arch, frame) := frame])
    ensures forall ix | UserPath(c, ix) :: Leaf(c, frame, map[frame := NewRoot(c)], ix).None?
  {
    var mem := map[frame := NewRoot(c)];
    var path: map<nat, seq<nat>> := map[frame := []];
    forall t, i | t in mem && 0 <= i < Fanout(c.arch)
      ensures LinkOk(c, frame, mem, path, t, i)
    {
    }
    forall ix | UserPath(c, ix)
      ensures Leaf(c, frame, mem, ix).None?
    {
      assert At(c, frame, mem, ix, 1).None?;
    }
  }

  // ----- the specification of one call, and of a whole run

  datatype Op = MapOp(page: nat, frame: nat, perm: Perm) | UnmapOp(page: nat)

  function Stored(p: Perm): Perm {
    Closure(p.(v := true))
  }

  /** The effect of a call on the mapping: a failed `map` changes nothing, and after
      any `unmap` the page is absent. */
  function Apply(view: Views, op: Op, ok: bool): Views {
    match op
    case MapOp(page, frame, perm) => if ok then view[page := (frame, Stored(perm))] else view
    case UnmapOp(page) => view - {page}
  }

  /** The mapping after the calls `ops`, whose results were `oks`. */
  function Replay(view: Views, ops: seq<Op>, oks: seq<bool>): Views
    requires |ops| == |oks|
  {
    if ops == [] then view
    else Apply(Replay(view, ops[..|ops| - 1], oks[..|oks| - 1]), ops[|ops| - 1], oks[|oks| - 1])
  }

  /** Call `k` is the last one that decides what `page` maps to. */
  ghost predicate Decides(ops: seq<Op>, oks: seq<bool>, page: nat, k: nat)
    requires |ops| == |oks|
  {
    && k < |ops| && ops[k].page == page && (ops[k].MapOp? ==> oks[k])
    && forall j | k < j < |ops| :: ops[j].page == page ==> ops[j].MapOp? && !oks[j]
  }

  /** What the deciding call leaves behind for its page. */
  ghost predicate Outcome(view: Views, op: Op) {
    match op
    case MapOp(page, frame, perm) => page in view && view[page] == (frame, Stored(perm))
    case UnmapOp(page) => page !in view
  }

  /** After any run, a page maps to exactly what the last deciding call gave it. */
  lemma {:induction false} LastCallWins(view: Views, ops: seq<Op>, oks: seq<bool>, page: nat, k: nat)
    requires |ops| == |oks| && Decides(ops, oks, page, k)
    ensures Outcome(Replay(view, ops, oks), ops[k])
    decreases |ops|
  {
    var n := |ops| - 1;
    if k < n {
      LastCallWins(view, ops[..n], oks[..n], page, k);
    }
  }

  /** A page that no call decides keeps the mapping it had. */
  lemma {:induction false} UndecidedPageKept(view: Views, ops: seq<Op>, oks: seq<bool>, page: nat)
    requires |ops| == |oks|
    requires forall k | 0 <= k < |ops| && ops[k].page == page :: ops[k].MapOp? && !oks[k]
    ensures page in Replay(view, ops, oks) <==> page in view
    ensures page in view ==> Replay(view, ops, oks)[page] == view[page]
    decreases |ops|
  {
    if ops != [] {
      var n := |ops| - 1;
      UndecidedPageKept(view, ops[..n], oks[..n], page);
    }
  }

  /** Frames that `PhysFrame::alloc` may hand out: distinct, and kept alive by nobody. */
  ghost predicate Fresh(c: Config, supply: seq<nat>, frames: map<nat, nat>) {
    && (forall i | 0 <= i < |supply| :: IsFrame(c.arch, supply[i]) && supply[i] !in frames.Values)
    && forall i, j | 0 <= i < j < |supply| :: supply[i] != supply[j]
  }

  lemma FreshTail(c: Config, supply: seq<nat>, frames: map<nat, nat>, key: nat)
    requires supply != [] && Fresh(c, supply, frames)
    ensures Fresh(c, [supply[0]], frames) && Fresh(c, supply[1..], frames[key := supply[0]])
  {
    var rest := supply[1..];
    forall i | 0 <= i < |rest|
      ensures IsFrame(c.arch, rest[i]) && rest[i] !in frames[key := supply[0]].Values
    {
      assert rest[i] == supply[i + 1];
    }
  }

  /** `after` keeps every frame of `before` and adds none under a user page. */
  ghost predicate Extends(c: Config, before: map<nat, nat>, after: map<nat, nat>) {
    && (forall k | k in before :: k in after && after[k] == before[k])
    && forall k | k in after && UserPage(c, k) :: k in before
  }

  /** Recording or forgetting the frame of a user page leaves the tables owned. */
  lemma RecordPage(c: Config, mem: Memory, frames: map<nat, nat>, page: nat, frame: nat)
    requires BootReady(c) && UserPage(c, page) && TablesOwned(c, mem, frames)
    ensures TablesOwned(c, mem, frames[page := frame])
  {
    forall f | IsFrame(c.arch, f)
      ensures page != ToVirt(c.arch, f)
    {
      KeysApart(c, page, f);
    }
  }

  lemma ForgetPage(c: Config, mem: Memory, frames: map<nat, nat>, page: nat)
    requires BootReady(c) && UserPage(c, page) && TablesOwned(c, mem, frames)
    requires forall t | t in mem :: IsFrame(c.arch, t)
    ensures TablesOwned(c, mem, frames - {page})
  {
    forall f | IsFrame(c.arch, f)
      ensures page != ToVirt(c.arch, f)
    {
      KeysApart(c, page, f);
    }
  }

  /** `mem'` holds the page entries of `mem`, except that word `w` stands at `page`. */
  ghost predicate PageStored(c: Config, root: nat, mem: Memory, mem': Memory, page: nat, w: nat) {
    forall va | UserPage(c, va) ::
      PageLeaf(c, root, mem', va) ==
      if va == page then (if EntryValid(w) then Some(w) else None) else PageLeaf(c, root, mem, va)
  }

  lemma StoredByPage(c: Config, root: nat, mem: Memory, mem': Memory, page: nat, w: nat)
    requires UserPage(c, page) && LeafStored(c, root, mem, mem', Indexes(c.arch, page), w)
    ensures PageStored(c, root, mem, mem', page, w)
  {
    forall va | UserPage(c, va)
      ensures PageLeaf(c, root, mem', va) ==
              if va == page then (if EntryValid(w) then Some(w) else None) else PageLeaf(c, root, mem, va)
    {
      if Indexes(c.arch, va) == Indexes(c.arch, page) {
        IndexesInjective(c.arch, va, page);
      }
    }
  }

  lemma StoredThrough(c: Config, root: nat, mem0: Memory, mem: Memory, mem': Memory, page: nat, w: nat)
    requires SameLeaves(c, root, mem0, mem) && PageStored(c, root, mem, mem', page, w)
    ensures PageStored(c, root, mem0, mem', page, w)
  {
    forall va | UserPage(c, va)
      ensures PageLeaf(c, root, mem, va) == PageLeaf(c, root, mem0, va)
    {
      assert UserPath(c, Indexes(c.arch, va));
    }
  }

  /** The mapping of one page, if its leaf entry is valid. */
  ghost function PageView(c: Config, root: nat, mem: Memory, va: nat): Option<(nat, Perm)> {
    match PageLeaf(c, root, mem, va)
    case None => None
    case Some(w) => Some((EntryPhys(c.arch, w), PermOf(w)))
  }

  /** Installing the entry of a recorded frame keeps every leaf backed. */
  lemma MapBacked(c: Config, root: nat, mem: Memory, mem': Memory, before: map<nat, nat>, after: map<nat, nat>,
                  page: nat, frame: nat, w: nat)
    requires UserPage(c, page) && Backed(c, root, mem, before) && Extends(c, before[page := frame], after)
    requires PageStored(c, root, mem, mem', page, w) && EntryPhys(c.arch, w) == frame
    ensures Backed(c, root, mem', after)
  {
  }

  /** Installing the entry of a recorded frame adds exactly that mapping. */
  lemma MapView(c: Config, root: nat, mem: Memory, mem': Memory, before: map<nat, nat>, after: map<nat, nat>,
                page: nat, frame: nat, w: nat)
    requires UserPage(c, page) && Extends(c, before[page := frame], after) && Backed(c, root, mem, before)
    requires PageStored(c, root, mem, mem', page, w) && EntryValid(w)
    ensures ViewOf(c, root, mem', after) ==
            ViewOf(c, root, mem, before)[page := (EntryPhys(c.arch, w), PermOf(w))]
  {
    var view, view' := ViewOf(c, root, mem, before), ViewOf(c, root, mem', after);
    forall va | va != page
      ensures va in view' <==> va in view
      ensures va in view ==> view'[va] == view[va]
    {
      if UserPage(c, va) {
        assert PageView(c, root, mem', va) == PageView(c, root, mem, va);
      }
    }
    assert PageView(c, root, mem', page) == Some((EntryPhys(c.arch, w), PermOf(w)));
  }

  /** A failed `map` leaves a recorded frame behind, but neither a leaf nor a mapping. */
  lemma MapFailedView(c: Config, root: nat, mem: Memory, mem': Memory, before: map<nat, nat>, after: map<nat, nat>,
                      page: nat, frame: nat)
    requires UserPage(c, page) && Extends(c, before[page := frame], after) && Backed(c, root, mem, before)
    requires SameLeaves(c, root, mem, mem') && PageLeaf(c, root, mem, page).None?
    ensures Backed(c, root, mem', after)
    ensures ViewOf(c, root, mem', after) == ViewOf(c, root, mem, before)
  {
    forall va | UserPage(c, va)
      ensures PageView(c, root, mem', va) == PageView(c, root, mem, va)
      ensures va != page && va in after ==> va in before
    {
      assert UserPath(c, Indexes(c.arch, va));
    }
  }

  /** Clearing the entry of a forgotten page removes exactly that mapping. */
  lemma UnmapView(c: Config, root: nat, mem: Memory, mem': Memory, frames: map<nat, nat>, page: nat)
    requires UserPage(c, page) && Backed(c, root, mem, frames)
    requires PageStored(c, root, mem, mem', page, 0)
    ensures Backed(c, root, mem', frames - {page})
    ensures ViewOf(c, root, mem', frames - {page}) == ViewOf(c, root, mem, frames) - {page}
  {
    var view, view' := ViewOf(c, root, mem, frames), ViewOf(c, root, mem', frames - {page});
    forall va | va != page
      ensures va in view' <==> va in view
      ensures va in view ==> view'[va] == view[va]
    {
      if UserPage(c, va) {
        assert PageView(c, root, mem', va) == PageView(c, root, mem, va);
      }
    }
  }

  // ----- the page table object

  class PageTable {
    const c: Config
    const root: nat
    /** Virtual address to the physical address of the frame kept alive for it. */
    var frames: map<nat, nat>
    var mem: Memory
    ghost var path: map<nat, seq<nat>>

    ghost predicate Structured()
      reads this
    {
      && BootReady(c)
      && Shape(c, root, mem, path)
      && TablesOwned(c, mem, frames)
    }

    ghost predicate Valid()
      reads this
    {
      Structured() && Backed(c, root, mem, frames)
    }

    ghost function View(): Views
      reads this
    {
      ViewOf(c, root, mem, frames)
    }

    /** A new table owns its root frame and maps nothing below the copied kernel entries. */
    constructor (c: Config, frame: nat)
      requires BootReady(c) && IsFrame(c.arch, frame)
      ensures Valid() && this.c == c && root == frame && View() == map[]
      ensures frames == map[ToVirt(c.arch, frame) := frame] && mem == map[frame := NewRoot(c)]
      ensures forall i: nat | Reserved(c, i) :: i < |mem[root]| && mem[root][i] == c.boot[i]
    {
      this.c, root := c, frame;
      frames := map[ToVirt(c.arch, frame) := frame];
      mem := map[frame := NewRoot(c)];
      path := map[frame := []];
      new;
      NewTree(c, frame);
    }

    /** `find`: walks down without creating anything. */
    method Find(va: nat) returns (r: Result<nat>)
      requires Structured() && UserPage(c, va)
      ensures r == match LastTable(c, root, mem, va)
                   case Some(t) => Ok(t)
                   case None => Err(InvalidVirtAddr)
    {
      var ix := Indexes(c.arch, va);
      var pa := root;
      var i := 0;
      while i < |ix|
        invariant i < |ix| && pa in mem && At(c, root, mem, ix, i) == Some(pa)
        decreases |ix| - i
      {
        if i == |ix| - 1 {
          return Ok(pa);
        } else if !EntryValid(mem[pa][ix[i]]) {
          assert At(c, root, mem, ix, i + 1).None?;
          return Err(InvalidVirtAddr);
        }
        pa := EntryPhys(c.arch, mem[pa][ix[i]]);
        i := i + 1;
        AtPath(c, root, mem, path, ix, i);
      }
      return Err(InvalidVirtAddr);
    }

    /** `lookup`: the recorded frame and the permission of a valid leaf; the index
        `frames[page]` is in the map whenever it is read. */
    method Lookup(addr: nat) returns (r: Result<(nat, Perm)>)
      requires Valid() && UserPage(c, PageDown(addr))
      ensures r == if PageDown(addr) in View() then Ok(View()[PageDown(addr)]) else Err(InvalidVirtAddr)
    {
      var page := PageDown(addr);
      var found := Find(page);
      if found.Err? {
        return Err(InvalidVirtAddr);
      }
      var ix := Indexes(c.arch, page);
      AtPath(c, root, mem, path, ix, |ix| - 1);
      var e := mem[found.value][ix[|ix| - 1]];
      if EntryValid(e) {
        assert PageLeaf(c, root, mem, page) == Some(e);
        return Ok((frames[page], PermOf(e)));
      } else {
        return Err(InvalidVirtAddr);
      }
    }

    method Translate(addr: nat) returns (r: Result<(nat, Perm)>)
      requires Valid() && UserPage(c, PageDown(addr))
      ensures r.Ok? <==> PageDown(addr) in View()
      ensures match r
              case Ok(answer) =>
                answer.0 == View()[PageDown(addr)].0 + addr % PAGE_SIZE && answer.1 == View()[PageDown(addr)].1
              case Err(e) => e == InvalidVirtAddr
    {
      var found := Lookup(addr);
      if found.Err? {
        return Err(InvalidVirtAddr);
      }
      var (frame, perm) := found.value;
      return Ok((frame + addr % PAGE_SIZE, perm));
    }

    /** One round of `find_or_create` that finds an empty slot: a fresh table is linked in and owned. */
    method AddTable(pa: nat, j: nat, frame: nat)
      requires Structured() && pa in mem && j < |mem[pa]|
      requires |path[pa]| + 1 < Levels(c.arch) && !EntryValid(mem[pa][j])
      requires Fresh(c, [frame], frames)
      modifies this`frames, this`mem, this`path
      ensures Structured() && SameLeaves(c, root, old(mem), mem)
      ensures old(frame !in mem) && mem == old(WithTable(c, mem, pa, j, frame))
      ensures frames == old(frames)[ToVirt(c.arch, frame) := frame]
      ensures Extends(c, old(frames), frames)
    {
      assert [frame][0] == frame;
      TablesAlive(c, mem, frames);
      AddTableShape(c, root, mem, path, pa, j, frame);
      AddTableLeaves(c, root, mem, path, pa, j, frame);
      forall vb | UserPage(c, vb)
        ensures vb != ToVirt(c.arch, frame)
      {
        KeysApart(c, vb, frame);
      }
      path := path[frame := path[pa] + [j]];
      mem := WithEntry(mem, pa, j, EntryBits(frame, TABLE_PERM));
      mem := mem[frame := ZeroTable(c)];
      frames := frames[ToVirt(c.arch, frame) := frame];
    }

    /** The creating branch of `find_or_create`, seen from the walk that asks for table `ix[..i + 1]`. */
    method Grow(ix: seq<nat>, i: nat, pa: nat, supply: seq<nat>)
      requires Structured() && UserPath(c, ix) && i + 1 < |ix|
      requires At(c, root, mem, ix, i) == Some(pa) && pa in mem && !EntryValid(mem[pa][ix[i]])
      requires supply != [] && Fresh(c, supply, frames)
      modifies this`frames, this`mem, this`path
      ensures Structured() && SameLeaves(c, root, old(mem), mem) && Extends(c, old(frames), frames)
      ensures Fresh(c, supply[1..], frames)
      ensures At(c, root, mem, ix, i + 1) == Some(supply[0]) && supply[0] in mem
      ensures Lacks(c, mem, supply[0], ix, i + 1) == |ix| - 1 - (i + 1)
    {
      var frame := supply[0];
      AtPath(c, root, mem, path, ix, i);
      TablesAlive(c, mem, frames);
      FreshTail(c, supply, frames, ToVirt(c.arch, frame));
      assert IsFrame(c.arch, frame) && frame !in mem;
      AddTableWalk(c, root, mem, path, pa, frame, ix, i);
      AddTable(pa, ix[i], frame);
    }

    /** `find_or_create`. `supply` lists the frames `PhysFrame::alloc` returns before it fails. */
    method FindOrCreate(va: nat, supply: seq<nat>) returns (r: Result<nat>)
      requires Structured() && UserPage(c, va) && Fresh(c, supply, frames)
      modifies this`frames, this`mem, this`path
      ensures Structured() && SameLeaves(c, root, old(mem), mem) && Extends(c, old(frames), frames)
      ensures r.Ok? <==> |supply| >= old(Missing(c, root, mem, va))
      ensures match r
              case Ok(t) => LastTable(c, root, mem, va) == Some(t)
              case Err(e) => e == NotEnoughMem && LastTable(c, root, mem, va) == None
      ensures supply == [] ==> frames == old(frames)
    {
      var ix := Indexes(c.arch, va);
      var pa, rest := root, supply;
      var i := 0;
      while i < |ix|
        invariant i < |ix|
        invariant Structured() && pa in mem && At(c, root, mem, ix, i) == Some(pa)
        invariant |rest| - Lacks(c, mem, pa, ix, i) == |supply| - old(Lacks(c, mem, root, ix, 0))
        invariant SameLeaves(c, root, old(mem), mem) && Extends(c, old(frames), frames)
        invariant Fresh(c, rest, frames)
        invariant supply == [] ==> rest == [] && frames == old(frames)
        decreases |ix| - i
      {
        if i == |ix| - 1 {
          return Ok(pa);
        }
        if EntryValid(mem[pa][ix[i]]) {
          pa := EntryPhys(c.arch, mem[pa][ix[i]]);
          AtPath(c, root, mem, path, ix, i + 1);
        } else if rest == [] {
          assert At(c, root, mem, ix, i + 1).None?;
          CutShort(c, root, mem, ix, i + 1, |ix| - 1);
          return Err(NotEnoughMem);
        } else {
          Grow(ix, i, pa, rest);
          pa, rest := rest[0], rest[1..];
        }
        i := i + 1;
      }
      return Err(InvalidVirtAddr);
    }

    /** `map`: records the frame first, then installs the entry. It fails exactly when the
        allocator cannot provide the missing tables, and then no mapping has changed. */
    method Map(addr: nat, frame: nat, perm: Perm, supply: seq<nat>) returns (r: Result<()>)
      requires Valid() && UserPage(c, PageDown(addr)) && IsFrame(c.arch, frame)
      requires Fresh(c, supply, frames[PageDown(addr) := frame])
      modifies this`frames, this`mem, this`path
      ensures Valid()
      ensures r.Ok? <==> |supply| >= old(Missing(c, root, mem, PageDown(addr)))
      ensures r.Err? ==> r.error == NotEnoughMem
      ensures View() == Apply(old(View()), MapOp(PageDown(addr), frame, perm), r.Ok?)
      ensures Extends(c, old(frames)[PageDown(addr) := frame], frames)
      ensures supply == [] ==> frames == old(frames)[PageDown(addr) := frame]
    {
      var page := PageDown(addr);
      RecordPage(c, mem, frames, page, frame);
      frames := frames[page := frame];
      var slot := FindOrCreate(page, supply);
      if slot.Err? {
        MapFailedView(c, root, old(mem), mem, old(frames), frames, page, frame);
        return Err(NotEnoughMem);
      }
      Install(page, frame, perm, slot.value, old(mem), old(frames));
      return Ok(());
    }

    /** The end of `map`: the entry of the recorded frame is written. `mem0` and `frames0` are from before the call. */
    method Install(page: nat, frame: nat, perm: Perm, t: nat, ghost mem0: Memory, ghost frames0: map<nat, nat>)
      requires Structured() && UserPage(c, page) && IsFrame(c.arch, frame) && LastTable(c, root, mem, page) == Some(t)
      requires SameLeaves(c, root, mem0, mem) && Backed(c, root, mem0, frames0)
      requires Extends(c, frames0[page := frame], frames)
      modifies this`mem
      ensures Valid() && View() == ViewOf(c, root, mem0, frames0)[page := (frame, Stored(perm))]
    {
      var w := EntryBits(frame, perm.(v := true));
      EntryRoundTrip(c.arch, frame, perm.(v := true));
      WriteLeaf(page, t, w);
      StoredThrough(c, root, mem0, old(mem), mem, page, w);
      MapBacked(c, root, mem0, mem, frames0, frames, page, frame, w);
      MapView(c, root, mem0, mem, frames0, frames, page, frame, w);
    }

    /** The entry store shared by `map` (`set`) and `unmap` (`clr`). */
    method WriteLeaf(page: nat, t: nat, w: nat)
      requires Structured() && UserPage(c, page) && LastTable(c, root, mem, page) == Some(t)
      modifies this`mem
      ensures Structured() && PageStored(c, root, old(mem), mem, page, w)
    {
      var ix := Indexes(c.arch, page);
      var k := ix[|ix| - 1];
      SetLeafLeaves(c, root, mem, path, ix, t, w);
      SetLeafShape(c, root, mem, path, t, k, w);
      StoredByPage(c, root, mem, WithEntry(mem, t, k, w), page, w);
      mem := WithEntry(mem, t, k, w);
    }

    /** `unmap`: drops the recorded frame, then clears the entry. It succeeds exactly when a frame
        was recorded and the tables exist; in every case the page ends up unmapped. */
    method Unmap(addr: nat) returns (r: Result<()>)
      requires Valid() && UserPage(c, PageDown(addr))
      modifies this`frames, this`mem
      ensures Valid()
      ensures r.Ok? <==> PageDown(addr) in old(frames) && old(LastTable(c, root, mem, PageDown(addr))).Some?
      ensures r.Err? ==> r.error == InvalidVirtAddr
      ensures View() == Apply(old(View()), UnmapOp(PageDown(addr)), r.Ok?)
      ensures frames == old(frames) - {PageDown(addr)}
    {
      var page := PageDown(addr);
      if page !in frames {
        return Err(InvalidVirtAddr);
      }
      ForgetPage(c, mem, frames, page);
      frames := frames - {page};
      var slot := Find(page);
      if slot.Err? {
        assert PageStored(c, root, mem, mem, page, 0);
        UnmapView(c, root, old(mem), mem, old(frames), page);
        return Err(InvalidVirtAddr);
      }
      WriteLeaf(page, slot.value, 0);
      UnmapView(c, root, old(mem), mem, old(frames), page);
      return Ok(());
    }
  }

  // ----- whole runs

  /** The frames of `pool` that nobody keeps alive, at most `limit` of them: what the allocator still gives. */
  function Supply(pool: seq<nat>, frames: map<nat, nat>, limit: nat): seq<nat> {
    if pool == [] || limit == 0 then []
    else if pool[0] in frames.Values then Supply(pool[1..], frames, limit)
    else [pool[0]] + Supply(pool[1..], frames, limit - 1)
  }

  lemma {:induction false} SupplyMember(pool: seq<nat>, frames: map<nat, nat>, limit: nat, f: nat)
    requires f in Supply(pool, frames, limit)
    ensures f in pool && f !in frames.Values
  {
    if pool[0] in frames.Values {
      SupplyMember(pool[1..], frames, limit, f);
    } else if f != pool[0] {
      SupplyMember(pool[1..], frames, limit - 1, f);
    }
  }

  /** A frame that nobody keeps alive is on offer, unless the limit is reached first. */
  lemma {:induction false} SupplyComplete(pool: seq<nat>, frames: map<nat, nat>, limit: nat, f: nat)
    requires f in pool && f !in frames.Values
    ensures |Supply(pool, frames, limit)| <= limit
    ensures f in Supply(pool, frames, limit) || |Supply(pool, frames, limit)| == limit
  {
    if limit > 0 && f != pool[0] {
      SupplyComplete(pool[1..], frames, if pool[0] in frames.Values then limit else limit - 1, f);
    } else if limit > 0 {
      SupplyAtMost(pool[1..], frames, limit - 1);
    }
  }

  lemma {:induction false} SupplyAtMost(pool: seq<nat>, frames: map<nat, nat>, limit: nat)
    ensures |Supply(pool, frames, limit)| <= limit
  {
    if pool != [] && limit > 0 {
      SupplyAtMost(pool[1..], frames, if pool[0] in frames.Values then limit else limit - 1);
    }
  }

  ghost predicate Distinct(s: seq<nat>) {
    forall i, j | 0 <= i < j < |s| :: s[i] != s[j]
  }

  lemma DistinctCons(x: nat, s: seq<nat>)
    requires Distinct(s) && x !in s
    ensures Distinct([x] + s)
  {
    var r := [x] + s;
    forall i, j | 0 <= i < j < |r|
      ensures r[i] != r[j]
    {
      assert r[j] == s[j - 1] && (i > 0 ==> r[i] == s[i - 1]);
    }
  }

  lemma {:induction false} SupplyDistinct(pool: seq<nat>, frames: map<nat, nat>, limit: nat)
    requires Distinct(pool)
    ensures Distinct(Supply(pool, frames, limit))
  {
    if pool != [] && limit > 0 {
      if pool[0] in frames.Values {
        SupplyDistinct(pool[1..], frames, limit);
      } else {
        SupplyDistinct(pool[1..], frames, limit - 1);
        var rest := Supply(pool[1..], frames, limit - 1);
        if pool[0] in rest {
          SupplyMember(pool[1..], frames, limit - 1, pool[0]);
        }
        DistinctCons(pool[0], rest);
      }
    }
  }

  lemma SupplyFresh(c: Config, pool: seq<nat>, frames: map<nat, nat>, limit: nat)
    requires forall f | f in pool :: IsFrame(c.arch, f)
    requires Distinct(pool)
    ensures Fresh(c, Supply(pool, frames, limit), frames)
  {
    SupplyDistinct(pool, frames, limit);
    var r := Supply(pool, frames, limit);
    forall i | 0 <= i < |r|
      ensures IsFrame(c.arch, r[i]) && r[i] !in frames.Values
    {
      SupplyMember(pool, frames, limit, r[i]);
    }
  }

  ghost predicate Proper(c: Config, op: Op) {
    UserPage(c, op.page) && (op.MapOp? ==> IsFrame(c.arch, op.frame))
  }

  lemma PageIsAligned(c: Config, page: nat)
    requires UserPage(c, page)
    ensures PageDown(page) == page
  {
  }

  /** One call of a run. */
  method Call(pt: PageTable, op: Op, pool: seq<nat>, limit: nat) returns (ok: bool)
    requires pt.Valid() && Proper(pt.c, op)
    requires forall f | f in pool :: IsFrame(pt.c.arch, f)
    requires Distinct(pool)
    modifies pt
    ensures pt.Valid() && pt.View() == Apply(old(pt.View()), op, ok)
  {
    PageIsAligned(pt.c, op.page);
    if op.MapOp? {
      var supply := Supply(pool, pt.frames[op.page := op.frame], limit);
      SupplyFresh(pt.c, pool, pt.frames[op.page := op.frame], limit);
      var r := pt.Map(op.page, op.frame, op.perm, supply);
      ok := r.Ok?;
    } else {
      var r := pt.Unmap(op.page);
      ok := r.Ok?;
    }
  }

  /** Any run of `map` and `unmap`, with an allocator that may run dry at any call: the table stays valid and
      denotes what the calls leave behind. */
  method RunCalls(pt: PageTable, ops: seq<Op>, pool: seq<nat>, limits: seq<nat>) returns (oks: seq<bool>)
    requires pt.Valid() && |limits| == |ops| && forall op | op in ops :: Proper(pt.c, op)
    requires forall f | f in pool :: IsFrame(pt.c.arch, f)
    requires Distinct(pool)
    modifies pt
    ensures pt.Valid() && |oks| == |ops| && pt.View() == Replay(old(pt.View()), ops, oks)
  {
    oks := [];
    for k := 0 to |ops|
      invariant pt.Valid() && |oks| == k && pt.View() == Replay(old(pt.View()), ops[..k], oks)
    {
      assert ops[k] in ops;
      var ok := Call(pt, ops[k], pool, limits[k]);
      assert ops[..k + 1][..k] == ops[..k] && (oks + [ok])[..k] == oks;
      oks := oks + [ok];
    }
    assert ops[..|ops|] == ops;
  }

  /** So `lookup` answers with the last call that decides the page. */
  method RunThenLookup(pt: PageTable, ops: seq<Op>, pool: seq<nat>, limits: seq<nat>, page: nat, ghost last: nat)
    returns (oks: seq<bool>, r: Result<(nat, Perm)>)
    requires pt.Valid() && |limits| == |ops| && forall op | op in ops :: Proper(pt.c, op)
    requires forall f | f in pool :: IsFrame(pt.c.arch, f)
    requires Distinct(pool)
    requires UserPage(pt.c, page)
    modifies pt
    ensures pt.Valid() && |oks| == |ops|
    ensures Decides(ops, oks, page, last) ==>
              r == match ops[last]
                   case MapOp(_, frame, perm) => Ok((frame, Stored(perm)))
                   case UnmapOp(_) => Err(InvalidVirtAddr)
    ensures Decides(ops, oks, page, last) && ops[last].MapOp? ==>
              && r.Ok? && r.value.0 == ops[last].frame && r.value.1.v
              && Accessible(ops[last].perm.(v := true), r.value.1)
  {
    oks := RunCalls(pt, ops, pool, limits);
    PageIsAligned(pt.c, page);
    r := pt.Lookup(page);
    if Decides(ops, oks, page, last) {
      LastCallWins(old(pt.View()), ops, oks, page, last);
    }
  }

  /** A page that is mapped is recorded and has its tables, so `unmap` of it succeeds. */
  lemma MappedCanBeUnmapped(c: Config, root: nat, mem: Memory, frames: map<nat, nat>, page: nat)
    requires page in ViewOf(c, root, mem, frames)
    ensures page in frames && LastTable(c, root, mem, page).Some?
  {
    assert PageLeaf(c, root, mem, page).Some?;
  }

  // ----- unmapping a page that was never mapped

  lemma {:induction false} SamePrefix(c: Config, root: nat, mem: Memory, ix: seq<nat>, jx: seq<nat>, n: nat)
    requires n <= |ix| && n <= |jx| && ix[..n] == jx[..n]
    ensures At(c, root, mem, ix, n) == At(c, root, mem, jx, n)
  {
    if n > 0 {
      assert ix[..n][..n - 1] == ix[..n - 1] && jx[..n][..n - 1] == jx[..n - 1];
      assert ix[n - 1] == ix[..n][n - 1] && jx[n - 1] == jx[..n][n - 1];
      SamePrefix(c, root, mem, ix, jx, n - 1);
    }
  }

  lemma {:induction false} LacksAtMost(c: Config, mem: Memory, pa: nat, ix: seq<nat>, i: nat)
    requires i < |ix|
    ensures Lacks(c, mem, pa, ix, i) <= |ix| - 1 - i
    decreases |ix| - i
  {
    if i < |ix| - 1 && pa in mem && ix[i] < |mem[pa]| && EntryValid(mem[pa][ix[i]]) {
      LacksAtMost(c, mem, EntryPhys(c.arch, mem[pa][ix[i]]), ix, i + 1);
    }
  }

  /** Two pages that share their last-level table. */
  predicate Neighbours(arch: Arch, page: nat, next: nat) {
    page != next && Indexes(arch, page)[..Levels(arch) - 1] == Indexes(arch, next)[..Levels(arch) - 1]
  }

  lemma SharedTable(c: Config, root: nat, mem: Memory, frames: map<nat, nat>, page: nat, next: nat)
    requires Neighbours(c.arch, page, next) && next in ViewOf(c, root, mem, frames)
    ensures LastTable(c, root, mem, page).Some?
  {
    assert PageLeaf(c, root, mem, next).Some?;
    SamePrefix(c, root, mem, Indexes(c.arch, page), Indexes(c.arch, next), Levels(c.arch) - 1);
  }

  /** `map` of a page fails for lack of frames and leaves its frame recorded; `map` of a neighbour builds the
      tables; `unmap` of the page then succeeds, although it was never mapped. */
  method UnmapUnmapped(pt: PageTable, page: nat, frame: nat, next: nat, other: nat, perm: Perm, supply: seq<nat>)
    returns (failed: Result<()>, mapped: Result<()>, ghost before: Views, unmapped: Result<()>)
    requires pt.Valid() && UserPage(pt.c, page) && UserPage(pt.c, next) && Neighbours(pt.c.arch, page, next)
    requires page !in pt.View() && Missing(pt.c, pt.root, pt.mem, page) > 0
    requires IsFrame(pt.c.arch, frame) && IsFrame(pt.c.arch, other) && |supply| >= Levels(pt.c.arch)
    requires Fresh(pt.c, supply, pt.frames[page := frame][next := other])
    modifies pt
    ensures failed.Err? && mapped.Ok? && unmapped.Ok?
    ensures page !in before && next in before && pt.Valid() && pt.View() == before
  {
    PageIsAligned(pt.c, page);
    PageIsAligned(pt.c, next);
    failed := pt.Map(page, frame, perm, []);
    mapped := MapNeighbour(pt, page, next, other, perm, supply);
    before := pt.View();
    unmapped := pt.Unmap(page);
    RemoveAbsent(before, page);
  }

  lemma RemoveAbsent(view: Views, page: nat)
    requires page !in view
    ensures view - {page} == view
  {
  }

  /** Mapping a neighbour gives a page its last-level table, and keeps what is recorded for it. */
  method MapNeighbour(pt: PageTable, page: nat, next: nat, other: nat, perm: Perm, supply: seq<nat>)
    returns (mapped: Result<()>)
    requires pt.Valid() && UserPage(pt.c, next) && Neighbours(pt.c.arch, page, next)
    requires IsFrame(pt.c.arch, other) && |supply| >= Levels(pt.c.arch) && Fresh(pt.c, supply, pt.frames[next := other])
    modifies pt
    ensures mapped.Ok? && pt.Valid() && LastTable(pt.c, pt.root, pt.mem, page).Some?
    ensures pt.View() == old(pt.View())[next := (other, Stored(perm))] && old(pt.frames).Keys <= pt.frames.Keys
  {
    PageIsAligned(pt.c, next);
    LacksAtMost(pt.c, pt.mem, pt.root, Indexes(pt.c.arch, next), 0);
    mapped := pt.Map(next, other, perm, supply);
    SharedTable(pt.c, pt.root, pt.mem, pt.frames, page, next);
  }

  /** Such a table: a new one, and the first two pages. */
  method NewAndUnmapUnmapped(c: Config, perm: Perm)
    returns (pt: PageTable, failed: Result<()>, mapped: Result<()>, ghost before: Views, unmapped: Result<()>)
    requires BootReady(c)
    ensures fresh(pt) && pt.Valid() && pt.c == c && failed.Err? && mapped.Ok?
    ensures 0 !in before && unmapped.Ok? && pt.View() == before
  {
    pt := new PageTable(c, PHYS_MEM_BASE);
    FirstPages(c);
    FramesFresh(c);
    NewTableLacks(c, PHYS_MEM_BASE);
    failed, mapped, before, unmapped := UnmapUnmapped(pt, 0, FrameNo(1), 0x1000, FrameNo(2), perm,
                                                      [FrameNo(3), FrameNo(4), FrameNo(5)]);
  }

  function FrameNo(k: nat): nat {
    PHYS_MEM_BASE + k * PAGE_SIZE
  }

  lemma FramesFresh(c: Config)
    ensures IsFrame(c.arch, PHYS_MEM_BASE) && IsFrame(c.arch, FrameNo(1)) && IsFrame(c.arch, FrameNo(2))
    ensures Fresh(c, [FrameNo(3), FrameNo(4), FrameNo(5)],
                  map[ToVirt(c.arch, PHYS_MEM_BASE) := PHYS_MEM_BASE][0 := FrameNo(1)][0x1000 := FrameNo(2)])
  {
  }

  lemma FirstPages(c: Config)
    requires BootReady(c)
    ensures UserPage(c, 0) && UserPage(c, 0x1000) && Neighbours(c.arch, 0, 0x1000)
  {
  }

  lemma NewTableLacks(c: Config, frame: nat)
    requires BootReady(c)
    ensures Missing(c, frame, map[frame := NewRoot(c)], 0) > 0
  {
    assert Indexes(c.arch, 0)[0] == 0;
    assert !EntryValid(NewRoot(c)[0]);
  }
}
