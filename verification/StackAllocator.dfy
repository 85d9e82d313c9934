/** The stack allocator: carves guard-separated slots from a region, keeps freed slots by size, and maps and
    unmaps the pages of a slot through functions that may fail at any page. */
module StackAllocators {
  import opened Errors

  const PAGE_SIZE: nat := 4096

  /** `next_multiple_of(PAGE_SIZE)` */
  function RoundUp(size: nat): (r: nat)
    ensures r >= size && r % PAGE_SIZE == 0 && r < size + PAGE_SIZE
  {
    (size + PAGE_SIZE - 1) / PAGE_SIZE * PAGE_SIZE
  }

  /** The number of pages in a stack. */
  function PageCount(size: nat): nat {
    size / PAGE_SIZE
  }

  datatype Place = InUse | Cached | Lost

  /** A slot is its guard followed by its stack; it is named by its first address. */
  datatype Slot = Slot(size: nat, place: Place)

  type Slots = map<nat, Slot>

  function SlotEnd(guard: nat, start: nat, size: nat): nat {
    start + size + guard
  }

  /** `stack_top - size - guard_size`; no slot on the books makes this go below zero. */
  function SlotStart(guard: nat, top: nat, size: nat): nat {
    if top >= size + guard then top - size - guard else 0
  }

  /** Slots of all kinds lie side by side below `next`, without overlapping. */
  ghost predicate Carved(slots: Slots, guard: nat, next: nat) {
    && (forall a | a in slots :: slots[a].size + guard > 0 && SlotEnd(guard, a, slots[a].size) <= next)
    && (forall a, b | a in slots && b in slots && a < b :: SlotEnd(guard, a, slots[a].size) <= b)
  }

  /** The `allocated` map of the source, here `live`, lists exactly the slots in use, by stack top. */
  ghost predicate AllocatedOk(slots: Slots, guard: nat, live: map<nat, nat>) {
    && (forall top | top in live :: LiveSlot(slots, guard, top, live[top]))
    && (forall a | a in slots && slots[a].place == InUse :: SlotEnd(guard, a, slots[a].size) in live)
  }

  predicate LiveSlot(slots: Slots, guard: nat, top: nat, size: nat) {
    var a := SlotStart(guard, top, size);
    a in slots && slots[a] == Slot(size, InUse) && SlotEnd(guard, a, size) == top
  }

  /** `cached` lists exactly the free slots, each once, under its own size. */
  ghost predicate CachedOk(slots: Slots, cached: map<nat, seq<nat>>) {
    && (forall size | size in cached :: ListOk(slots, size, cached[size]))
    && (forall a | a in slots && slots[a].place == Cached :: slots[a].size in cached && a in cached[slots[a].size])
  }

  ghost predicate ListOk(slots: Slots, size: nat, starts: seq<nat>) {
    && (forall a | a in starts :: a in slots && slots[a] == Slot(size, Cached))
    && (forall i, j | 0 <= i < j < |starts| :: starts[i] != starts[j])
  }

  /** A page that the allocator has mapped: for which slot, and which page of its stack. */
  datatype Owner = Owner(slot: nat, index: nat)

  type Pages = map<nat, Owner>

  /** `va + guard_size + i` for the page `i / PAGE_SIZE` */
  function PageAt(guard: nat, start: nat, index: nat): (page: nat) {
    start + guard + index * PAGE_SIZE
  }

  lemma PageInside(guard: nat, start: nat, size: nat, index: nat)
    requires index < PageCount(size)
    ensures start + guard <= PageAt(guard, start, index)
    ensures PageAt(guard, start, index) + PAGE_SIZE <= start + guard + size == SlotEnd(guard, start, size)
  {
  }

  /** Every mapped page lies in the stack of a slot that is not cached. */
  ghost predicate PagesOk(slots: Slots, guard: nat, owner: Pages) {
    forall p | p in owner :: PageOk(slots, guard, p, owner[p])
  }

  ghost predicate PageOk(slots: Slots, guard: nat, page: nat, o: Owner) {
    && o.slot in slots && slots[o.slot].place != Cached
    && o.index < PageCount(slots[o.slot].size) && page == PageAt(guard, o.slot, o.index)
  }

  /** Two different slots have no address in common. */
  lemma SlotsDisjoint(slots: Slots, guard: nat, next: nat, a: nat, b: nat, x: nat)
    requires Carved(slots, guard, next) && a in slots && b in slots && a != b
    ensures !(a <= x < SlotEnd(guard, a, slots[a].size) && b <= x < SlotEnd(guard, b, slots[b].size))
  {
    if a < b {
      assert SlotEnd(guard, a, slots[a].size) <= b;
    } else {
      assert SlotEnd(guard, b, slots[b].size) <= a;
    }
  }

  /** No page of a cached slot is mapped. */
  lemma CachedIsUnmapped(slots: Slots, guard: nat, next: nat, owner: Pages, a: nat, index: nat)
    requires Carved(slots, guard, next) && PagesOk(slots, guard, owner)
    requires a in slots && slots[a].place == Cached && index < PageCount(slots[a].size)
    ensures PageAt(guard, a, index) !in owner
  {
    var page := PageAt(guard, a, index);
    if page in owner {
      OwnerUnique(slots, guard, next, page, owner[page], a, index);
    }
  }

  /** A page of one slot is not a page of another. */
  lemma OwnerUnique(slots: Slots, guard: nat, next: nat, page: nat, o: Owner, a: nat, index: nat)
    requires Carved(slots, guard, next) && PageOk(slots, guard, page, o)
    requires a in slots && index < PageCount(slots[a].size) && page == PageAt(guard, a, index)
    ensures o == Owner(a, index)
  {
    PageInside(guard, a, slots[a].size, index);
    PageInside(guard, o.slot, slots[o.slot].size, o.index);
    if o.slot != a {
      SlotsDisjoint(slots, guard, next, a, o.slot, page);
    }
  }

  /** The bound the check on `next` gives: a stack may end up to one guard size past the region. */
  ghost predicate Within(slots: Slots, guard: nat, regionEnd: nat) {
    forall a | a in slots :: SlotEnd(guard, a, slots[a].size) <= regionEnd + guard
  }

  // ----- how the books change

  ghost predicate Books(slots: Slots, guard: nat, next: nat, live: map<nat, nat>, cached: map<nat, seq<nat>>,
                        owner: Pages) {
    && Carved(slots, guard, next)
    && AllocatedOk(slots, guard, live)
    && CachedOk(slots, cached)
    && PagesOk(slots, guard, owner)
  }

  /** Different slots end at different addresses. */
  lemma EndsDiffer(slots: Slots, guard: nat, next: nat, a: nat, b: nat)
    requires Carved(slots, guard, next) && a in slots && b in slots && a != b
    ensures SlotEnd(guard, a, slots[a].size) != SlotEnd(guard, b, slots[b].size)
  {
    if a < b {
      assert SlotEnd(guard, a, slots[a].size) <= b;
    } else {
      assert SlotEnd(guard, b, slots[b].size) <= a;
    }
  }

  /** Moving a slot between uses leaves the layout alone. */
  lemma MovedSlot(slots: Slots, guard: nat, next: nat, a: nat, place: Place)
    requires Carved(slots, guard, next) && a in slots
    ensures Carved(slots[a := Slot(slots[a].size, place)], guard, next)
  {
  }

  lemma MakeLive(slots: Slots, guard: nat, live: map<nat, nat>, a: nat, size: nat)
    requires AllocatedOk(slots, guard, live)
    requires a in slots && slots[a].size == size && slots[a].place != InUse
    ensures AllocatedOk(slots[a := Slot(size, InUse)], guard, live[SlotEnd(guard, a, size) := size])
  {
    var after, live' := slots[a := Slot(size, InUse)], live[SlotEnd(guard, a, size) := size];
    forall top | top in live'
      ensures LiveSlot(after, guard, top, live'[top])
    {
      if top == SlotEnd(guard, a, size) {
        assert SlotStart(guard, top, size) == a;
      } else {
        assert LiveSlot(slots, guard, top, live[top]);
      }
    }
  }

  lemma TakeCached(slots: Slots, cached: map<nat, seq<nat>>, size: nat)
    requires CachedOk(slots, cached) && size in cached && cached[size] != []
    ensures var a := cached[size][0];
            && a in slots && slots[a] == Slot(size, Cached)
            && CachedOk(slots[a := Slot(size, InUse)], cached[size := cached[size][1..]])
  {
    var starts := cached[size];
    var a := starts[0];
    assert ListOk(slots, size, starts);
    var after, cached' := slots[a := Slot(size, InUse)], cached[size := starts[1..]];
    forall n | n in cached'
      ensures ListOk(after, n, cached'[n])
    {
      assert ListOk(slots, n, cached[n]);
    }
    forall b | b in after && after[b].place == Cached
      ensures after[b].size in cached' && b in cached'[after[b].size]
    {
      assert slots[b] == after[b];
    }
  }

  /** A slot that may be handed out: not in use, nothing mapped in it, its top not on the books. */
  ghost predicate Available(slots: Slots, guard: nat, live: map<nat, nat>, owner: Pages, a: nat, size: nat) {
    && (a in slots ==> slots[a] == Slot(size, Cached))
    && SlotEnd(guard, a, size) !in live
    && forall p | p in owner :: owner[p].slot != a
  }

  lemma CachedAvailable(slots: Slots, guard: nat, next: nat, live: map<nat, nat>, owner: Pages,
                        a: nat, size: nat)
    requires Carved(slots, guard, next) && AllocatedOk(slots, guard, live) && PagesOk(slots, guard, owner)
    requires a in slots && slots[a] == Slot(size, Cached)
    ensures Available(slots, guard, live, owner, a, size)
  {
    var top := SlotEnd(guard, a, size);
    if top in live {
      assert LiveSlot(slots, guard, top, live[top]);
      EndsDiffer(slots, guard, next, a, SlotStart(guard, top, live[top]));
    }
  }

  lemma TopsBelow(slots: Slots, guard: nat, next: nat, live: map<nat, nat>, top: nat)
    requires Carved(slots, guard, next) && AllocatedOk(slots, guard, live) && top in live
    ensures top <= next
  {
    assert LiveSlot(slots, guard, top, live[top]);
  }

  lemma FreshAvailable(slots: Slots, guard: nat, next: nat, live: map<nat, nat>, owner: Pages, size: nat)
    requires Carved(slots, guard, next) && AllocatedOk(slots, guard, live) && PagesOk(slots, guard, owner)
    requires size + guard > 0
    ensures Available(slots, guard, live, owner, next, size)
  {
    if SlotEnd(guard, next, size) in live {
      TopsBelow(slots, guard, next, live, SlotEnd(guard, next, size));
    }
  }

  /** Taking the most recently freed slot of the right size. */
  lemma Reuse(slots: Slots, guard: nat, next: nat, live: map<nat, nat>, cached: map<nat, seq<nat>>,
              owner: Pages, size: nat)
    requires Books(slots, guard, next, live, cached, owner) && size in cached && cached[size] != []
    ensures var a := cached[size][0];
            && Available(slots, guard, live, owner, a, size)
            && a in slots
            && Books(slots[a := Slot(size, InUse)], guard, next, live[SlotEnd(guard, a, size) := size],
                     cached[size := cached[size][1..]], owner)
  {
    TakeCached(slots, cached, size);
    CachedAvailable(slots, guard, next, live, owner, cached[size][0], size);
    MovedSlot(slots, guard, next, cached[size][0], InUse);
    MakeLive(slots, guard, live, cached[size][0], size);
  }

  lemma CarveLost(slots: Slots, guard: nat, next: nat, size: nat)
    requires Carved(slots, guard, next) && size + guard > 0
    ensures next !in slots
    ensures Carved(slots[next := Slot(size, Lost)], guard, next + size + guard)
  {
  }

  lemma CarveCached(slots: Slots, cached: map<nat, seq<nat>>, a: nat, slot: Slot)
    requires CachedOk(slots, cached) && a !in slots && slot.place != Cached
    ensures CachedOk(slots[a := slot], cached)
  {
    forall n | n in cached
      ensures ListOk(slots[a := slot], n, cached[n])
    {
      assert ListOk(slots, n, cached[n]);
    }
  }

  lemma CarveLive(slots: Slots, guard: nat, live: map<nat, nat>, a: nat, slot: Slot)
    requires AllocatedOk(slots, guard, live) && a !in slots && slot.place != InUse
    ensures AllocatedOk(slots[a := slot], guard, live)
  {
    forall top | top in live
      ensures LiveSlot(slots[a := slot], guard, top, live[top])
    {
      assert LiveSlot(slots, guard, top, live[top]);
    }
  }

  lemma CarvePages(slots: Slots, guard: nat, owner: Pages, a: nat, slot: Slot)
    requires PagesOk(slots, guard, owner) && a !in slots
    ensures PagesOk(slots[a := slot], guard, owner)
  {
    forall p | p in owner
      ensures PageOk(slots[a := slot], guard, p, owner[p])
    {
      assert PageOk(slots, guard, p, owner[p]);
    }
  }

  /** Carving a fresh slot. */
  lemma Carve(slots: Slots, guard: nat, next: nat, live: map<nat, nat>, cached: map<nat, seq<nat>>,
              owner: Pages, size: nat)
    requires Books(slots, guard, next, live, cached, owner) && size + guard > 0
    ensures Available(slots, guard, live, owner, next, size)
    ensures Books(slots[next := Slot(size, InUse)], guard, next + size + guard,
                  live[SlotEnd(guard, next, size) := size], cached, owner)
  {
    CarveLost(slots, guard, next, size);
    FreshAvailable(slots, guard, next, live, owner, size);
    var lost := slots[next := Slot(size, Lost)];
    CarveLive(slots, guard, live, next, Slot(size, Lost));
    MovedSlot(lost, guard, next + size + guard, next, InUse);
    MakeLive(lost, guard, live, next, size);
    assert lost[next := Slot(size, InUse)] == slots[next := Slot(size, InUse)];
    CarveCached(slots, cached, next, Slot(size, InUse));
    CarvePages(slots, guard, owner, next, Slot(size, InUse));
  }

  /** An empty list under a size changes nothing. */
  lemma EmptyList(slots: Slots, cached: map<nat, seq<nat>>, size: nat)
    requires CachedOk(slots, cached) && (size in cached ==> cached[size] == [])
    ensures CachedOk(slots, cached[size := []])
  {
    forall n | n in cached
      ensures ListOk(slots, n, cached[n])
    {
    }
  }

  /** Freeing a slot: its top leaves the books whatever becomes of it. */
  lemma MakeDead(slots: Slots, guard: nat, live: map<nat, nat>, a: nat, slot: Slot)
    requires AllocatedOk(slots, guard, live) && a in slots && slot.place != InUse
    requires forall b | b in slots && b != a :: SlotEnd(guard, b, slots[b].size) != SlotEnd(guard, a, slots[a].size)
    ensures AllocatedOk(slots[a := slot], guard, live - {SlotEnd(guard, a, slots[a].size)})
  {
    var end := SlotEnd(guard, a, slots[a].size);
    forall t | t in live - {end}
      ensures LiveSlot(slots[a := slot], guard, t, live[t])
    {
      assert LiveSlot(slots, guard, t, live[t]);
    }
  }

  /** The slot behind a stack top that is on the books. */
  function SlotOf(guard: nat, live: map<nat, nat>, top: nat): nat
    requires top in live
  {
    SlotStart(guard, top, live[top])
  }

  lemma OnTheBooks(slots: Slots, guard: nat, live: map<nat, nat>, top: nat)
    requires AllocatedOk(slots, guard, live) && top in live
    ensures SlotOf(guard, live, top) in slots && slots[SlotOf(guard, live, top)] == Slot(live[top], InUse)
    ensures SlotEnd(guard, SlotOf(guard, live, top), live[top]) == top
  {
    assert LiveSlot(slots, guard, top, live[top]);
  }

  lemma LoseCached(slots: Slots, cached: map<nat, seq<nat>>, a: nat, slot: Slot)
    requires CachedOk(slots, cached) && a in slots && slots[a].place == InUse && slot.place == Lost
    ensures CachedOk(slots[a := slot], cached)
  {
    forall n | n in cached
      ensures ListOk(slots[a := slot], n, cached[n])
    {
      assert ListOk(slots, n, cached[n]);
    }
  }

  lemma LosePages(slots: Slots, guard: nat, owner: Pages, a: nat, size: nat)
    requires PagesOk(slots, guard, owner) && a in slots && slots[a].size == size
    ensures PagesOk(slots[a := Slot(size, Lost)], guard, owner)
  {
    forall p | p in owner
      ensures PageOk(slots[a := Slot(size, Lost)], guard, p, owner[p])
    {
      assert PageOk(slots, guard, p, owner[p]);
    }
  }

  /** A slot leaves the books before its pages are unmapped: until that is done it is on no list. */
  lemma Release(slots: Slots, guard: nat, next: nat, live: map<nat, nat>, cached: map<nat, seq<nat>>,
                owner: Pages, a: nat, size: nat)
    requires Books(slots, guard, next, live, cached, owner) && a in slots && slots[a] == Slot(size, InUse)
    ensures Books(slots[a := Slot(size, Lost)], guard, next, live - {SlotEnd(guard, a, size)}, cached, owner)
  {
    MovedSlot(slots, guard, next, a, Lost);
    forall b | b in slots && b != a
      ensures SlotEnd(guard, b, slots[b].size) != SlotEnd(guard, a, slots[a].size)
    {
      EndsDiffer(slots, guard, next, a, b);
    }
    MakeDead(slots, guard, live, a, Slot(size, Lost));
    LoseCached(slots, cached, a, Slot(size, Lost));
    LosePages(slots, guard, owner, a, size);
  }

  function Listed(cached: map<nat, seq<nat>>, size: nat): seq<nat> {
    if size in cached then cached[size] else []
  }

  lemma PutCached(slots: Slots, cached: map<nat, seq<nat>>, a: nat, size: nat)
    requires CachedOk(slots, cached) && a in slots && slots[a] == Slot(size, Lost)
    ensures CachedOk(slots[a := Slot(size, Cached)], cached[size := [a] + Listed(cached, size)])
  {
    var after, cached' := slots[a := Slot(size, Cached)], cached[size := [a] + Listed(cached, size)];
    forall n | n in cached'
      ensures ListOk(after, n, cached'[n])
    {
      assert n in cached ==> ListOk(slots, n, cached[n]);
    }
    forall b | b in after && after[b].place == Cached
      ensures after[b].size in cached' && b in cached'[after[b].size]
    {
      assert b != a ==> slots[b] == after[b];
    }
  }

  /** A page of a slot that is not cached may be mapped for it. */
  lemma MapPage(slots: Slots, guard: nat, owner: Pages, a: nat, index: nat)
    requires PagesOk(slots, guard, owner)
    requires a in slots && slots[a].place != Cached && index < PageCount(slots[a].size)
    ensures PagesOk(slots, guard, owner[PageAt(guard, a, index) := Owner(a, index)])
  {
    var page := PageAt(guard, a, index);
    assert PageOk(slots, guard, page, Owner(a, index));
    forall p | p in owner
      ensures PageOk(slots, guard, p, owner[p])
    {
    }
  }

  /** The first `n` pages of a stack, mapped. */
  function WithPages(owner: Pages, guard: nat, a: nat, n: nat): Pages {
    if n == 0 then owner else WithPages(owner, guard, a, n - 1)[PageAt(guard, a, n - 1) := Owner(a, n - 1)]
  }

  /** The operation works on the first `n` pages of a stack. */
  predicate AllWork(ok: nat -> bool, guard: nat, a: nat, n: nat) {
    n == 0 || (AllWork(ok, guard, a, n - 1) && ok(PageAt(guard, a, n - 1)))
  }

  lemma {:induction false} AllWorkAt(ok: nat -> bool, guard: nat, a: nat, n: nat, k: nat)
    requires AllWork(ok, guard, a, n) && k < n
    ensures ok(PageAt(guard, a, k))
  {
    if k < n - 1 {
      AllWorkAt(ok, guard, a, n - 1, k);
    }
  }

  /** The first `n` pages of a stack, unmapped. */
  function WithoutPages(owner: Pages, guard: nat, a: nat, n: nat): Pages {
    if n == 0 then owner else WithoutPages(owner, guard, a, n - 1) - {PageAt(guard, a, n - 1)}
  }

  ghost predicate Inside(slots: Slots, guard: nat, regionEnd: nat) {
    forall a | a in slots :: SlotEnd(guard, a, slots[a].size) <= regionEnd
  }

  /** Exactly when an allocation that passes the check keeps all stacks inside the region: the check would have to
      count the guard as well. */
  lemma StaysInside(slots: Slots, guard: nat, next: nat, live: map<nat, nat>, cached: map<nat, seq<nat>>,
                    owner: Pages, size: nat, regionEnd: nat)
    requires Books(slots, guard, next, live, cached, owner) && Inside(slots, guard, regionEnd)
    requires !Full(cached, next, size, regionEnd)
    ensures Inside(slots[Candidate(cached, next, size) := Slot(size, InUse)], guard, regionEnd)
            <==> Listed(cached, size) != [] || next + size + guard <= regionEnd
  {
    var a := Candidate(cached, next, size);
    var after := slots[a := Slot(size, InUse)];
    assert after[a].size == size;
    if Listed(cached, size) != [] {
      assert ListOk(slots, size, cached[size]);
      assert slots[a] == Slot(size, Cached);
    }
  }

  /** No page of a slot that is being handed out is mapped, so none is mapped twice. */
  lemma NothingMapped(slots: Slots, guard: nat, next: nat, before: Slots, owner: Pages, a: nat, size: nat)
    requires Carved(slots, guard, next) && slots == before[a := Slot(size, InUse)] && PagesOk(before, guard, owner)
    requires a in before ==> before[a].size == size
    requires forall p | p in owner :: owner[p].slot != a
    ensures forall k: nat | k < PageCount(size) :: PageAt(guard, a, k) !in owner
  {
    forall k: nat | k < PageCount(size)
      ensures PageAt(guard, a, k) !in owner
    {
      var page := PageAt(guard, a, k);
      if page in owner {
        assert PageOk(before, guard, page, owner[page]);
        OwnerUnique(slots, guard, next, page, owner[page], a, k);
      }
    }
  }

  lemma UnmapPage(slots: Slots, guard: nat, owner: Pages, a: nat, index: nat)
    requires PagesOk(slots, guard, owner)
    requires forall p | p in owner && owner[p].slot == a :: owner[p].index >= index
    ensures PagesOk(slots, guard, owner - {PageAt(guard, a, index)})
    ensures forall p | p in owner - {PageAt(guard, a, index)} && owner[p].slot == a :: owner[p].index >= index + 1
  {
    forall p | p in owner
      ensures PageOk(slots, guard, p, owner[p])
    {
    }
  }

  lemma NoPageLeft(slots: Slots, guard: nat, owner: Pages, a: nat)
    requires PagesOk(slots, guard, owner) && a in slots
    requires forall p | p in owner && owner[p].slot == a :: owner[p].index >= PageCount(slots[a].size)
    ensures forall p | p in owner :: owner[p].slot != a
  {
    forall p | p in owner
      ensures owner[p].slot != a
    {
      assert PageOk(slots, guard, p, owner[p]);
    }
  }

  lemma CachePages(slots: Slots, guard: nat, owner: Pages, a: nat, slot: Slot)
    requires PagesOk(slots, guard, owner) && a in slots
    requires forall p | p in owner :: owner[p].slot != a
    ensures PagesOk(slots[a := slot], guard, owner)
  {
    forall p | p in owner
      ensures PageOk(slots[a := slot], guard, p, owner[p])
    {
      assert PageOk(slots, guard, p, owner[p]);
    }
  }

  lemma MoveDead(slots: Slots, guard: nat, live: map<nat, nat>, a: nat, slot: Slot)
    requires AllocatedOk(slots, guard, live) && a in slots && slots[a].place != InUse && slot.place != InUse
    ensures AllocatedOk(slots[a := slot], guard, live)
  {
    forall t | t in live
      ensures LiveSlot(slots[a := slot], guard, t, live[t])
    {
      assert LiveSlot(slots, guard, t, live[t]);
    }
  }

  lemma StillWithin(slots: Slots, guard: nat, regionEnd: nat, a: nat, slot: Slot)
    requires Within(slots, guard, regionEnd) && a in slots && slots[a].size == slot.size
    ensures Within(slots[a := slot], guard, regionEnd)
  {
  }

  lemma Overwritten(slots: Slots, a: nat, x: Slot, y: Slot)
    ensures slots[a := x][a := y] == slots[a := y]
  {
  }

  /** A slot without mapped pages goes to the front of the list of its size. */
  lemma PutBack(slots: Slots, guard: nat, next: nat, live: map<nat, nat>, cached: map<nat, seq<nat>>,
                owner: Pages, a: nat, size: nat)
    requires Books(slots, guard, next, live, cached, owner) && a in slots && slots[a] == Slot(size, Lost)
    requires forall p | p in owner :: owner[p].slot != a
    ensures Books(slots[a := Slot(size, Cached)], guard, next, live,
                  cached[size := [a] + Listed(cached, size)], owner)
  {
    MovedSlot(slots, guard, next, a, Cached);
    MoveDead(slots, guard, live, a, Slot(size, Cached));
    PutCached(slots, cached, a, size);
    CachePages(slots, guard, owner, a, Slot(size, Cached));
  }

  /** The slot that `allocate` takes. */
  function Candidate(cached: map<nat, seq<nat>>, next: nat, size: nat): nat {
    if Listed(cached, size) != [] then Listed(cached, size)[0] else next
  }

  predicate Full(cached: map<nat, seq<nat>>, next: nat, size: nat, regionEnd: nat) {
    Listed(cached, size) == [] && next + size > regionEnd
  }

  /** `entry(size).or_default().pop_front()` */
  function PopFront(cached: map<nat, seq<nat>>, size: nat): map<nat, seq<nat>> {
    cached[size := if Listed(cached, size) == [] then [] else Listed(cached, size)[1..]]
  }

  /** Taking the candidate keeps the books. */
  lemma TakeBooks(slots: Slots, guard: nat, next: nat, live: map<nat, nat>, cached: map<nat, seq<nat>>,
                  owner: Pages, size: nat, regionEnd: nat)
    requires Books(slots, guard, next, live, cached, owner) && Within(slots, guard, regionEnd) && size + guard > 0
    requires !Full(cached, next, size, regionEnd)
    ensures var a := Candidate(cached, next, size);
            var next' := if Listed(cached, size) == [] then next + size + guard else next;
            && Available(slots, guard, live, owner, a, size)
            && Books(slots[a := Slot(size, InUse)], guard, next', live[SlotEnd(guard, a, size) := size],
                     PopFront(cached, size), owner)
            && Within(slots[a := Slot(size, InUse)], guard, regionEnd)
  {
    if Listed(cached, size) == [] {
      EmptyList(slots, cached, size);
      Carve(slots, guard, next, live, cached[size := []], owner, size);
    } else {
      Reuse(slots, guard, next, live, cached, owner, size);
    }
  }

  // ----- what is mapped, address by address

  /** Address `x` lies in a mapped page. */
  ghost predicate MappedAt(owner: Pages, x: nat) {
    exists p: nat :: p in owner && p <= x < p + PAGE_SIZE
  }

  /** From `before` to `after`, exactly the stack of `size` bytes below `top` has become mapped; its guard is not. */
  ghost predicate StackMapped(before: Pages, after: Pages, guard: nat, top: nat, size: nat) {
    && size + guard <= top
    && (forall x: nat :: MappedAt(after, x) <==> MappedAt(before, x) || top - size <= x < top)
    && (forall x: nat | top - size <= x < top :: !MappedAt(before, x))
    && (forall x: nat | top - size - guard <= x < top - size :: !MappedAt(after, x))
  }

  /** From `before` to `after`, exactly the stack of `size` bytes below `top` has ceased to be mapped, and nothing of it
      or its guard is left. */
  ghost predicate StackUnmapped(before: Pages, after: Pages, guard: nat, top: nat, size: nat) {
    && size + guard <= top
    && (forall x: nat :: MappedAt(after, x) <==> MappedAt(before, x) && !(top - size <= x < top))
    && (forall x: nat | top - size - guard <= x < top :: !MappedAt(after, x))
  }

  lemma {:induction false} PagesAdded(owner: Pages, guard: nat, a: nat, n: nat, x: nat)
    ensures MappedAt(WithPages(owner, guard, a, n), x) <==>
            MappedAt(owner, x) || a + guard <= x < a + guard + n * PAGE_SIZE
  {
    if n > 0 {
      PagesAdded(owner, guard, a, n - 1, x);
      var before, page := WithPages(owner, guard, a, n - 1), PageAt(guard, a, n - 1);
      assert page == a + guard + (n - 1) * PAGE_SIZE;
      PageAdded(before, page, Owner(a, n - 1), x);
    }
  }

  lemma PageAdded(owner: Pages, page: nat, o: Owner, x: nat)
    ensures MappedAt(owner[page := o], x) <==> MappedAt(owner, x) || page <= x < page + PAGE_SIZE
  {
    var after := owner[page := o];
    if MappedAt(owner, x) {
      var p: nat :| p in owner && p <= x < p + PAGE_SIZE;
      assert p in after;
    }
    if page <= x < page + PAGE_SIZE {
      assert page in after;
    }
  }

  /** A mapped address lies in the stack of the slot that the page belongs to. */
  lemma WhereMapped(slots: Slots, guard: nat, owner: Pages, x: nat) returns (page: nat, b: nat)
    requires PagesOk(slots, guard, owner) && MappedAt(owner, x)
    ensures page in owner && page <= x < page + PAGE_SIZE && owner[page].slot == b && b in slots
    ensures b + guard <= x < SlotEnd(guard, b, slots[b].size)
  {
    page :| page in owner && page <= x < page + PAGE_SIZE;
    assert PageOk(slots, guard, page, owner[page]);
    b := owner[page].slot;
    PageInside(guard, b, slots[b].size, owner[page].index);
  }

  /** No address of a guard is mapped, nor any of a slot without pages. */
  lemma NotMappedAt(slots: Slots, guard: nat, next: nat, owner: Pages, a: nat, x: nat)
    requires Carved(slots, guard, next) && PagesOk(slots, guard, owner) && a in slots
    requires a <= x < SlotEnd(guard, a, slots[a].size)
    requires x < a + guard || forall p | p in owner :: owner[p].slot != a
    ensures !MappedAt(owner, x)
  {
    if MappedAt(owner, x) {
      var page, b := WhereMapped(slots, guard, owner, x);
      if b != a {
        SlotsDisjoint(slots, guard, next, a, b, x);
      }
    }
  }

  /** A slot handed out with all its pages. */
  lemma AllocatedIsMapped(slots: Slots, guard: nat, next: nat, before: Slots, owner: Pages, after: Pages, a: nat,
                          size: nat)
    requires Carved(slots, guard, next) && slots == before[a := Slot(size, InUse)] && PagesOk(before, guard, owner)
    requires (a in before ==> before[a] == Slot(size, Cached)) && forall p | p in owner :: owner[p].slot != a
    requires size % PAGE_SIZE == 0 && after == WithPages(owner, guard, a, PageCount(size))
    requires PagesOk(slots, guard, after)
    ensures StackMapped(owner, after, guard, SlotEnd(guard, a, size), size)
  {
    var top := a + size + guard;
    assert SlotEnd(guard, a, size) == top;
    assert PageCount(size) * PAGE_SIZE == size;
    assert PagesOk(slots, guard, owner) by {
      forall p | p in owner
        ensures PageOk(slots, guard, p, owner[p])
      {
        assert PageOk(before, guard, p, owner[p]);
      }
    }
    forall x: nat
      ensures MappedAt(after, x) <==> MappedAt(owner, x) || top - size <= x < top
    {
      PagesAdded(owner, guard, a, PageCount(size), x);
    }
    forall x: nat | top - size <= x < top
      ensures !MappedAt(owner, x)
    {
      NotMappedAt(slots, guard, next, owner, a, x);
    }
    forall x: nat | top - size - guard <= x < top - size
      ensures !MappedAt(after, x)
    {
      NotMappedAt(slots, guard, next, after, a, x);
    }
  }

  lemma {:induction false} PagesRemoved(owner: Pages, guard: nat, a: nat, n: nat, p: nat)
    ensures p in WithoutPages(owner, guard, a, n) ==> p in owner
    ensures p in owner && p !in WithoutPages(owner, guard, a, n) ==>
              a + guard <= p && p + PAGE_SIZE <= a + guard + n * PAGE_SIZE
  {
    if n > 0 {
      PagesRemoved(owner, guard, a, n - 1, p);
      assert PageAt(guard, a, n - 1) == a + guard + (n - 1) * PAGE_SIZE;
    }
  }

  /** A slot given back without any page. */
  lemma FreedIsUnmapped(slots: Slots, guard: nat, next: nat, owner: Pages, after: Pages, a: nat, size: nat)
    requires Carved(slots, guard, next) && a in slots && slots[a].size == size
    requires after == WithoutPages(owner, guard, a, PageCount(size)) && PagesOk(slots, guard, after)
    requires forall p | p in after :: after[p].slot != a
    ensures StackUnmapped(owner, after, guard, SlotEnd(guard, a, size), size)
  {
    var top := a + size + guard;
    assert SlotEnd(guard, a, size) == top;
    forall x: nat | top - size - guard <= x < top
      ensures !MappedAt(after, x)
    {
      NotMappedAt(slots, guard, next, after, a, x);
    }
    forall x: nat
      ensures MappedAt(after, x) <==> MappedAt(owner, x) && !(top - size <= x < top)
    {
      if MappedAt(after, x) {
        var p: nat :| p in after && p <= x < p + PAGE_SIZE;
        PagesRemoved(owner, guard, a, PageCount(size), p);
      }
      if MappedAt(owner, x) && !(top - size <= x < top) {
        var p: nat :| p in owner && p <= x < p + PAGE_SIZE;
        PagesRemoved(owner, guard, a, PageCount(size), p);
        assert p in after;
      }
    }
  }

  class StackAllocator {
    const regionStart: nat
    const regionLen: nat
    const guardSize: nat
    var next: nat
    var live: map<nat, nat>
    var cached: map<nat, seq<nat>>
    /** Pages the allocator has mapped, as the page table sees them; each is mapped for one slot. */
    ghost var owner: Pages
    ghost var slots: Slots

    ghost predicate Valid()
      reads this
    {
      && Books(slots, guardSize, next, live, cached, owner)
      && Within(slots, guardSize, regionStart + regionLen)
    }

    constructor (start: nat, len: nat, guard: nat)
      requires start >= RoundUp(guard)
      ensures Valid() && slots == map[] && live == map[] && cached == map[] && owner == map[]
              && regionStart == start && regionLen == len
      ensures guardSize == RoundUp(guard) && next == start - guardSize
    {
      regionStart, regionLen, guardSize := start, len, RoundUp(guard);
      next := start - RoundUp(guard);
      live, cached := map[], map[];
      owner, slots := map[], map[];
    }

    /** The part of `allocate` under the cache lock: a cached slot of that size, or a fresh one. */
    method TakeSlot(size: nat) returns (a: nat)
      requires Valid() && size + guardSize > 0 && !Full(cached, next, size, regionStart + regionLen)
      modifies this`next, this`cached
      ensures a == Candidate(old(cached), old(next), size)
      ensures Available(slots, guardSize, live, owner, a, size)
      ensures Books(slots[a := Slot(size, InUse)], guardSize, next,
                    live[SlotEnd(guardSize, a, size) := size], cached, owner)
      ensures Within(slots[a := Slot(size, InUse)], guardSize, regionStart + regionLen)
      ensures cached == PopFront(old(cached), size)
      ensures next == if Listed(old(cached), size) != [] then old(next) else old(next) + size + guardSize
    {
      TakeBooks(slots, guardSize, next, live, cached, owner, size, regionStart + regionLen);
      var starts := Listed(cached, size);
      cached := PopFront(cached, size);
      if starts != [] {
        a := starts[0];
      } else {
        a := next;
        next := next + size + guardSize;
      }
    }

    /** All of `allocate` but the mapping. The slot is in use from here on. */
    method Claim(size: nat) returns (r: Result<nat>)
      requires Valid() && size + guardSize > 0
      modifies this`next, this`cached, this`live, this`slots
      ensures Valid() && cached == PopFront(old(cached), size)
      ensures var a := Candidate(old(cached), old(next), size);
              if Full(old(cached), old(next), size, regionStart + regionLen) then
                r == Err(NotEnoughMem) && slots == old(slots) && next == old(next) && live == old(live)
              else
                && r == Ok(a) && slots == old(slots)[a := Slot(size, InUse)]
                && Available(old(slots), guardSize, old(live), owner, a, size)
                && live == old(live)[SlotEnd(guardSize, a, size) := size]
                && next == (if Listed(old(cached), size) != [] then old(next) else old(next) + size + guardSize)
    {
      if Listed(cached, size) == [] && next + size > regionStart + regionLen {
        EmptyList(slots, cached, size);
        cached := PopFront(cached, size);
        return Err(NotEnoughMem);
      }
      var a := TakeSlot(size);
      slots := slots[a := Slot(size, InUse)];
      live := live[SlotEnd(guardSize, a, size) := size];
      return Ok(a);
    }

    /** The mapping loop of `allocate`: stops at the first page that cannot be mapped. */
    method MapStack(a: nat, size: nat, mapOk: nat -> bool) returns (mapped: nat)
      requires PagesOk(slots, guardSize, owner) && a in slots && slots[a] == Slot(size, InUse)
      modifies this`owner
      ensures PagesOk(slots, guardSize, owner) && mapped <= PageCount(size)
      ensures owner == WithPages(old(owner), guardSize, a, mapped)
      ensures AllWork(mapOk, guardSize, a, mapped)
      ensures mapped < PageCount(size) ==> !mapOk(PageAt(guardSize, a, mapped))
    {
      mapped := 0;
      while mapped < PageCount(size)
        invariant mapped <= PageCount(size)
        invariant PagesOk(slots, guardSize, owner)
        invariant owner == WithPages(old(owner), guardSize, a, mapped)
        invariant AllWork(mapOk, guardSize, a, mapped)
      {
        if !mapOk(PageAt(guardSize, a, mapped)) {
          return;
        }
        MapPage(slots, guardSize, owner, a, mapped);
        owner := owner[PageAt(guardSize, a, mapped) := Owner(a, mapped)];
        mapped := mapped + 1;
      }
    }

    /** A stack is handed out with all its pages mapped, each for the first time, and its top at most one guard
        past the region. When mapping fails at a page, the slot stays on the books as in use, with exactly
        the pages below that one mapped. */
    method Allocate(request: nat, mapOk: nat -> bool) returns (r: Result<nat>, ghost mapped: nat)
      requires Valid() && RoundUp(request) + guardSize > 0
      modifies this
      ensures Valid() && cached == PopFront(old(cached), RoundUp(request))
      ensures var size := RoundUp(request);
              var a := Candidate(old(cached), old(next), size);
              if Full(old(cached), old(next), size, regionStart + regionLen) then
                r == Err(NotEnoughMem) &&
                slots == old(slots) && live == old(live) && owner == old(owner) && next == old(next)
              else
                && Available(old(slots), guardSize, old(live), old(owner), a, size)
                && slots == old(slots)[a := Slot(size, InUse)]
                && live == old(live)[SlotEnd(guardSize, a, size) := size]
                && next == (if Listed(old(cached), size) != [] then old(next) else old(next) + size + guardSize)
                && owner == WithPages(old(owner), guardSize, a, mapped)
                && AllWork(mapOk, guardSize, a, mapped)
                && (forall k: nat | k < PageCount(size) :: PageAt(guardSize, a, k) !in old(owner))
                && (if mapped == PageCount(size)
                    then r == Ok(SlotEnd(guardSize, a, size)) && r.value <= regionStart + regionLen + guardSize
                    else mapped < PageCount(size) && !mapOk(PageAt(guardSize, a, mapped)) && r == Err(NotEnoughMem))
      ensures r.Ok? ==> StackMapped(old(owner), owner, guardSize, r.value, RoundUp(request))
      ensures r.Ok? && Listed(old(cached), RoundUp(request)) == [] ==>
                r.value == old(next) + RoundUp(request) + guardSize
    {
      var size := RoundUp(request);
      mapped := 0;
      var claim := Claim(size);
      if claim.Err? {
        return claim, 0;
      }
      var a: nat := claim.value;
      var n := MapStack(a, size, mapOk);
      mapped := n;
      NothingMapped(slots, guardSize, next, old(slots), old(owner), a, size);
      if n == PageCount(size) {
        AllocatedIsMapped(slots, guardSize, next, old(slots), old(owner), owner, a, size);
      }
      r := if n < PageCount(size) then Err(NotEnoughMem) else Ok(SlotEnd(guardSize, a, size));
    }

    /** The unmapping loop of `deallocate`: stops at the first page that cannot be unmapped. */
    method UnmapStack(a: nat, size: nat, unmapOk: nat -> bool) returns (unmapped: nat)
      requires Valid() && a in slots && slots[a] == Slot(size, Lost)
      modifies this`owner
      ensures Valid() && unmapped <= PageCount(size)
      ensures owner == WithoutPages(old(owner), guardSize, a, unmapped)
      ensures AllWork(unmapOk, guardSize, a, unmapped)
      ensures unmapped < PageCount(size) ==> !unmapOk(PageAt(guardSize, a, unmapped))
      ensures unmapped == PageCount(size) ==> forall p | p in owner :: owner[p].slot != a
    {
      unmapped := 0;
      while unmapped < PageCount(size) && unmapOk(PageAt(guardSize, a, unmapped))
        invariant unmapped <= PageCount(size)
        invariant PagesOk(slots, guardSize, owner)
        invariant owner == WithoutPages(old(owner), guardSize, a, unmapped)
        invariant forall p | p in owner && owner[p].slot == a :: owner[p].index >= unmapped
        invariant AllWork(unmapOk, guardSize, a, unmapped)
      {
        UnmapPage(slots, guardSize, owner, a, unmapped);
        owner := owner - {PageAt(guardSize, a, unmapped)};
        unmapped := unmapped + 1;
      }
      if unmapped == PageCount(size) {
        NoPageLeft(slots, guardSize, owner, a);
      }
      assert Books(slots, guardSize, next, live, cached, owner);
    }

    /** The first step of `deallocate` on a known top. */
    method Withdraw(top: nat) returns (size: nat, a: nat)
      requires Valid() && top in live
      modifies this`live, this`slots
      ensures Valid() && size == old(live)[top] && a == SlotOf(guardSize, old(live), top)
      ensures a in old(slots) && old(slots)[a] == Slot(size, InUse)
      ensures live == old(live) - {top} && slots == old(slots)[a := Slot(size, Lost)]
    {
      size, a := live[top], SlotOf(guardSize, live, top);
      OnTheBooks(slots, guardSize, live, top);
      Release(slots, guardSize, next, live, cached, owner, a, size);
      StillWithin(slots, guardSize, regionStart + regionLen, a, Slot(size, Lost));
      live, slots := live - {top}, slots[a := Slot(size, Lost)];
      assert Books(slots, guardSize, next, live, cached, owner);
    }

    /** The last step of `deallocate`. */
    method GiveBack(a: nat, size: nat)
      requires Valid() && a in slots && slots[a] == Slot(size, Lost)
      requires forall p | p in owner :: owner[p].slot != a
      modifies this`cached, this`slots
      ensures Valid() && slots == old(slots)[a := Slot(size, Cached)]
      ensures cached == old(cached)[size := [a] + Listed(old(cached), size)]
    {
      PutBack(slots, guardSize, next, live, cached, owner, a, size);
      StillWithin(slots, guardSize, regionStart + regionLen, a, Slot(size, Cached));
      cached, slots := cached[size := [a] + Listed(cached, size)], slots[a := Slot(size, Cached)];
      assert Books(slots, guardSize, next, live, cached, owner);
    }

    /** An unknown top is refused. Otherwise the slot goes to the front of its list once all its pages are
        unmapped; when a page cannot be unmapped, the slot is never used again. */
    method Deallocate(top: nat, unmapOk: nat -> bool) returns (r: Result<()>, ghost unmapped: nat)
      requires Valid()
      modifies this
      ensures Valid() && next == old(next)
      ensures if top !in old(live) then
                r == Err(InvalidVirtAddr) &&
                slots == old(slots) && live == old(live) && owner == old(owner) && cached == old(cached)
              else
                var size := old(live)[top];
                var a := SlotOf(guardSize, old(live), top);
                && a in old(slots) && old(slots)[a] == Slot(size, InUse)
                && live == old(live) - {top}
                && owner == WithoutPages(old(owner), guardSize, a, unmapped)
                && AllWork(unmapOk, guardSize, a, unmapped)
                && (if unmapped == PageCount(size)
                    then
                      && r == Ok(()) && slots == old(slots)[a := Slot(size, Cached)]
                      && cached == old(cached)[size := [a] + Listed(old(cached), size)]
                    else
                      && unmapped < PageCount(size) && !unmapOk(PageAt(guardSize, a, unmapped))
                      && r == Err(InvalidVirtAddr) && slots == old(slots)[a := Slot(size, Lost)]
                      && cached == old(cached))
      ensures r.Ok? ==> top in old(live) && StackUnmapped(old(owner), owner, guardSize, top, old(live)[top])
    {
      unmapped := 0;
      if top !in live {
        return Err(InvalidVirtAddr), 0;
      }
      var size, a := Withdraw(top);
      var n := UnmapStack(a, size, unmapOk);
      unmapped := n;
      if n < PageCount(size) {
        return Err(InvalidVirtAddr), n;
      }
      Overwritten(old(slots), a, Slot(size, Lost), Slot(size, Cached));
      FreedIsUnmapped(slots, guardSize, next, old(owner), owner, a, size);
      OnTheBooks(old(slots), guardSize, old(live), top);
      GiveBack(a, size);
      r := Ok(());
    }
  }

  /** A freed stack is the next one handed out for that size, even when the region is used up. */
  method Recycle(s: StackAllocator, top: nat) returns (again: nat)
    requires s.Valid() && top in s.live && RoundUp(s.live[top]) == s.live[top] && s.live[top] + s.guardSize > 0
    modifies s
    ensures s.Valid() && again == top
  {
    var size := s.live[top];
    OnTheBooks(s.slots, s.guardSize, s.live, top);
    var freed, n := s.Deallocate(top, p => true);
    assert n == PageCount(size);
    assert Candidate(s.cached, s.next, size) == SlotOf(s.guardSize, old(s.live), top);
    var r, m := s.Allocate(size, p => true);
    assert m == PageCount(size);
    again := r.value;
  }

  /** A region that `n` slots fill exactly, with a guard at least as large as the stacks: the first `n` stacks lie
      in the region, and one more is handed out whose stack starts at the end of the region. */
  method Overrun(start: nat, guard: nat, size: nat, n: nat, len: nat) returns (s: StackAllocator, top: nat)
    requires RoundUp(size) == size && RoundUp(guard) == guard && 0 < size <= guard <= start && len == n * (size + guard)
    ensures fresh(s) && s.Valid() && s.regionStart == start && s.regionLen == len && s.guardSize == guard
    ensures top == start + len + size && top in s.live && s.live[top] == size && |s.live| == n + 1
    ensures !Inside(s.slots, guard, start + len)
    ensures forall t | t in s.live && t != top :: t <= start + len
  {
    s := Fill(start, guard, size, n, len);
    ghost var a := s.next;
    top := OneMore(s, size);
    EndsOutside(s.slots, guard, start + len, a);
  }

  /** The `n` stacks that fill a region of `len`. */
  method Fill(start: nat, guard: nat, size: nat, n: nat, len: nat) returns (s: StackAllocator)
    requires RoundUp(size) == size && RoundUp(guard) == guard && 0 < size <= guard <= start && len == n * (size + guard)
    ensures fresh(s) && s.Valid() && s.regionStart == start && s.regionLen == len && s.guardSize == guard
    ensures s.next == start - guard + len && Listed(s.cached, size) == [] && |s.live| == n
    ensures forall t | t in s.live :: t <= s.next
  {
    s := new StackAllocator(start, len, guard);
    var i, used := 0, 0;
    while i < n
      invariant 0 <= i <= n && s.Valid() && fresh(s) && used == i * (size + guard)
      invariant s.regionStart == start && s.regionLen == len && s.guardSize == guard
      invariant s.next == start - guard + used && Listed(s.cached, size) == [] && |s.live| == i
      invariant forall t | t in s.live :: t <= s.next
    {
      SlotFits(i, n, size, guard);
      var _ := OneMore(s, size);
      i, used := i + 1, used + size + guard;
    }
  }

  lemma EndsOutside(slots: Slots, guard: nat, regionEnd: nat, a: nat)
    requires a in slots && SlotEnd(guard, a, slots[a].size) > regionEnd
    ensures !Inside(slots, guard, regionEnd)
  {
  }

  /** A fresh stack that the check lets through and whose pages can all be mapped. */
  method OneMore(s: StackAllocator, size: nat) returns (top: nat)
    requires s.Valid() && RoundUp(size) == size && size + s.guardSize > 0
    requires Listed(s.cached, size) == [] && s.next + size <= s.regionStart + s.regionLen
    modifies s
    ensures s.Valid() && top == SlotEnd(s.guardSize, old(s.next), size) == s.next
    ensures top !in old(s.live) && s.live == old(s.live)[top := size] && |s.live| == |old(s.live)| + 1
    ensures Listed(s.cached, size) == []
    ensures old(s.next) in s.slots && s.slots[old(s.next)] == Slot(size, InUse)
  {
    var r, _ := s.Allocate(size, p => true);
    top := r.value;
  }

  const STACK_SIZE: nat := PAGE_SIZE * 1024

  /** Both configured executor stack regions are of that kind, with 32 and 15872 slots. On riscv64 the stack
      past the end starts where the device region does. */
  method KernelOverrun() returns (s32: StackAllocator, s64: StackAllocator)
    ensures s32.Valid() && s32.regionStart == 0xE000_0000 && s32.regionLen == 0x1000_0000
    ensures |s32.live| == 33 && HandedOutPastEnd(s32.live, s32.regionStart + s32.regionLen)
    ensures s64.Valid() && s64.regionStart == 0xFFFF_FFE0_0000_0000 && s64.regionLen == 0x1F_0000_0000
    ensures |s64.live| == 15873 && HandedOutPastEnd(s64.live, s64.regionStart + s64.regionLen)
  {
    var top;
    s32, top := Overrun(0xE000_0000, STACK_SIZE, STACK_SIZE, 32, 0x1000_0000);
    s64, top := Overrun(0xFFFF_FFE0_0000_0000, STACK_SIZE, STACK_SIZE, 15872, 0x1F_0000_0000);
  }

  /** A stack of the configured size is allocated whose first address is the end of the region. */
  ghost predicate HandedOutPastEnd(live: map<nat, nat>, regionEnd: nat) {
    regionEnd + STACK_SIZE in live && live[regionEnd + STACK_SIZE] == STACK_SIZE
  }

  lemma SlotFits(i: nat, n: nat, size: nat, guard: nat)
    requires i < n
    ensures (i + 1) * (size + guard) == i * (size + guard) + size + guard <= n * (size + guard)
  {
    Multiples(i, n, size + guard);
  }

  lemma {:induction false} Multiples(i: nat, n: nat, unit: nat)
    requires i < n
    ensures (i + 1) * unit == i * unit + unit <= n * unit
    decreases n - i
  {
    if i + 1 < n {
      Multiples(i + 1, n, unit);
    }
  }
}
