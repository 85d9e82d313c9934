/** Interrupt routing: the enable words of the interrupt controller, one bit per context and interrupt, and the
    strategies that rewrite them. */
module IrqRouting {
  import opened Errors
  import opened FastPq

  const CPU_COUNT: nat := 5
  const IRQS: nat := 1024
  const NET: nat := 8
  const UART: nat := 10
  const NET_LOAD: int := 4
  const UART_LOAD: int := 1
  const WORDS_PER_CONTEXT: nat := 32

  datatype Board = Virtio | Sifive | Unknown

  /** `get_context_id`; `None` where the source panics. */
  function ContextId(board: Board, cpu: nat): Option<nat> {
    match board
    case Virtio => Some(cpu * 2 + 1)
    case Sifive => if cpu == 0 then None else Some(cpu * 2)
    case Unknown => None
  }

  predicate HasContext(board: Board, cpu: nat) {
    ContextId(board, cpu).Some?
  }

  // ----- the enable words

  /** Index of the word that holds the bit of an interrupt in a context. */
  function WordOf(context: nat, irq: nat): nat {
    context * WORDS_PER_CONTEXT + irq / 32
  }

  lemma WordInjective(c: nat, i: nat, d: nat, j: nat)
    requires i < IRQS && j < IRQS && WordOf(c, i) == WordOf(d, j) && i % 32 == j % 32
    ensures c == d && i == j
  {
    assert i / 32 < 32 && j / 32 < 32;
    assert c == d;
  }

  /** Interrupt `irq` is enabled in `context`. */
  predicate On(words: seq<nat>, context: nat, irq: nat) {
    WordOf(context, irq) < |words| && Bit(words[WordOf(context, irq)], irq % 32)
  }

  function Enabled(words: seq<nat>, context: nat, irq: nat): seq<nat>
    requires WordOf(context, irq) < |words|
  {
    words[WordOf(context, irq) := SetBit(words[WordOf(context, irq)], irq % 32)]
  }

  function Disabled(words: seq<nat>, context: nat, irq: nat): seq<nat>
    requires WordOf(context, irq) < |words|
  {
    words[WordOf(context, irq) := ClearBit(words[WordOf(context, irq)], irq % 32)]
  }

  /** Enabling sets one bit and no other, of any context. */
  lemma EnabledSpec(words: seq<nat>, context: nat, irq: nat, c: nat, i: nat)
    requires WordOf(context, irq) < |words| && irq < IRQS && i < IRQS
    ensures On(Enabled(words, context, irq), c, i) <==> (c == context && i == irq) || On(words, c, i)
  {
    if WordOf(context, irq) == WordOf(c, i) {
      SetBitSpec(words[WordOf(c, i)], irq % 32, i % 32);
      if irq % 32 == i % 32 {
        WordInjective(context, irq, c, i);
      }
    }
  }

  lemma DisabledSpec(words: seq<nat>, context: nat, irq: nat, c: nat, i: nat)
    requires WordOf(context, irq) < |words| && irq < IRQS && i < IRQS
    ensures On(Disabled(words, context, irq), c, i) <==> !(c == context && i == irq) && On(words, c, i)
  {
    if WordOf(context, irq) == WordOf(c, i) {
      ClearBitSpec(words[WordOf(c, i)], irq % 32, i % 32);
      if irq % 32 == i % 32 {
        WordInjective(context, irq, c, i);
      }
    }
  }

  // ----- choosing the CPUs

  /** A CPU and what it is ordered by. */
  datatype Load = Load(cpu: nat, key: nat)

  predicate Before(a: Load, b: Load) {
    a.key < b.key || (a.key == b.key && a.cpu < b.cpu)
  }

  /** Stable insertion: after all loads with the same or a smaller key. */
  function Insert(x: Load, v: seq<Load>): seq<Load> {
    if v == [] || x.key < v[0].key then [x] + v else [v[0]] + Insert(x, v[1..])
  }

  /** `sort_by` on the key; a stable sort. */
  function SortByKey(v: seq<Load>): seq<Load> {
    if v == [] then [] else Insert(v[|v| - 1], SortByKey(v[..|v| - 1]))
  }

  predicate Sorted(v: seq<Load>) {
    forall i, j | 0 <= i < j < |v| :: Before(v[i], v[j])
  }

  predicate Ascending(v: seq<Load>) {
    forall i, j | 0 <= i < j < |v| :: v[i].cpu < v[j].cpu
  }

  lemma {:induction false} InsertSpec(x: Load, v: seq<Load>)
    requires Sorted(v) && forall y | y in v :: y.cpu < x.cpu
    ensures Sorted(Insert(x, v)) && multiset(Insert(x, v)) == multiset(v) + multiset{x}
  {
    if v != [] && x.key >= v[0].key {
      assert v == [v[0]] + v[1..];
      InsertSpec(x, v[1..]);
      var r := Insert(x, v[1..]);
      forall y | y in r
        ensures Before(v[0], y)
      {
        assert y in multiset(r);
        assert y == x || y in v[1..];
        assert v[0] in v;
      }
    }
  }

  /** From CPUs in ascending order, the sort gives the order by key and then by CPU. */
  lemma {:induction false} SortSpec(v: seq<Load>)
    requires Ascending(v)
    ensures Sorted(SortByKey(v)) && multiset(SortByKey(v)) == multiset(v) && |SortByKey(v)| == |v|
  {
    if v != [] {
      var init := v[..|v| - 1];
      assert v == init + [v[|v| - 1]];
      SortSpec(init);
      forall y | y in SortByKey(init)
        ensures y.cpu < v[|v| - 1].cpu
      {
        assert y in multiset(SortByKey(init));
      }
      InsertSpec(v[|v| - 1], SortByKey(init));
      assert |multiset(SortByKey(v))| == |multiset(v)|;
    }
  }

  /** `first` and `second` are the two lowest of the loads. */
  ghost predicate TwoLowest(loads: map<nat, nat>, first: nat, second: nat) {
    && first in loads && second in loads && first != second
    && (forall c | c in loads && c != first :: Before(Load(first, loads[first]), Load(c, loads[c])))
    && (forall c | c in loads && c != first && c != second :: Before(Load(second, loads[second]), Load(c, loads[c])))
  }

  /** `v` lists the loads. */
  ghost predicate Lists(v: seq<Load>, loads: map<nat, nat>) {
    && (forall x | x in v :: x.cpu in loads && loads[x.cpu] == x.key)
    && (forall c | c in loads :: Load(c, loads[c]) in v)
  }

  lemma LowestTwo(v: seq<Load>, loads: map<nat, nat>)
    requires Ascending(v) && Lists(v, loads) && |v| >= 2
    ensures |SortByKey(v)| == |v| && TwoLowest(loads, SortByKey(v)[0].cpu, SortByKey(v)[1].cpu)
  {
    SortSpec(v);
    var r := SortByKey(v);
    forall x: Load
      ensures x in r <==> x in v
    {
      assert x in multiset(r) <==> x in multiset(v);
    }
    assert r[0] in r && r[1] in r;
    assert Before(r[0], r[1]);
    forall c | c in loads && c != r[0].cpu
      ensures Before(r[0], Load(c, loads[c])) && (c != r[1].cpu ==> Before(r[1], Load(c, loads[c])))
    {
      assert Load(c, loads[c]) in r;
    }
  }

  // ----- routing on the words

  /** The context of a CPU that has one. */
  function ContextOn(board: Board, cpu: nat): nat {
    if board.Sifive? then cpu * 2 else cpu * 2 + 1
  }

  /** The context of a CPU on the virtio board. */
  function Context(cpu: nat): nat {
    ContextOn(Virtio, cpu)
  }

  /** Enough words for the contexts of all CPUs. */
  predicate Wide(words: seq<nat>) {
    |words| >= (Context(CPU_COUNT - 1) + 1) * WORDS_PER_CONTEXT
  }

  /** UART and network disabled on the first `n` CPUs. */
  function Cleared(words: seq<nat>, n: nat): (r: seq<nat>)
    requires Wide(words) && n <= CPU_COUNT
    ensures |r| == |words|
  {
    if n == 0 then words
    else Disabled(Disabled(Cleared(words, n - 1), Context(n - 1), UART), Context(n - 1), NET)
  }

  lemma {:induction false} ClearedSpec(words: seq<nat>, n: nat, c: nat, i: nat)
    requires Wide(words) && n <= CPU_COUNT && i < IRQS
    ensures On(Cleared(words, n), c, i) <==>
            On(words, c, i) && !((i == NET || i == UART) && exists k: nat :: k < n && c == Context(k))
  {
    if n > 0 {
      ClearedSpec(words, n - 1, c, i);
      var before := Cleared(words, n - 1);
      DisabledSpec(before, Context(n - 1), UART, c, i);
      DisabledSpec(Disabled(before, Context(n - 1), UART), Context(n - 1), NET, c, i);
      if c == Context(n - 1) {
        assert n - 1 < n;
      }
    }
  }

  /** The two interrupts in either order. */
  predicate Both(p: nat, q: nat) {
    (p == NET && q == UART) || (p == UART && q == NET)
  }

  /** Interrupt `p` on CPU `a` and `q` on CPU `b`. */
  function Routed(words: seq<nat>, p: nat, a: nat, q: nat, b: nat): (r: seq<nat>)
    requires Wide(words) && Both(p, q) && a < CPU_COUNT && b < CPU_COUNT
    ensures |r| == |words|
  {
    Enabled(Enabled(Cleared(words, CPU_COUNT), Context(a), p), Context(b), q)
  }

  /** `irq` is enabled on CPU `cpu`. */
  predicate OnCpu(words: seq<nat>, board: Board, irq: nat, cpu: nat) {
    On(words, ContextOn(board, cpu), irq)
  }

  /** `irq` is enabled on `cpu` and on no other CPU. */
  ghost predicate OnlyOn(words: seq<nat>, board: Board, irq: nat, cpu: nat) {
    forall k: nat | k < CPU_COUNT && HasContext(board, k) :: OnCpu(words, board, irq, k) <==> k == cpu
  }

  ghost predicate OnNone(words: seq<nat>, board: Board, irq: nat) {
    forall k: nat | k < CPU_COUNT && HasContext(board, k) :: !OnCpu(words, board, irq, k)
  }

  ghost predicate OfSomeCpu(context: nat) {
    exists k: nat :: k < CPU_COUNT && context == Context(k)
  }

  /** No bit has changed but those of the two interrupts on the CPUs. */
  ghost predicate OthersKept(before: seq<nat>, after: seq<nat>) {
    forall c: nat, i: nat | i < IRQS && !((i == NET || i == UART) && OfSomeCpu(c)) ::
      On(after, c, i) <==> On(before, c, i)
  }

  /** Whatever the words were, each of the two interrupts ends up on exactly the given CPU, and no other bit of any
      context changes. */
  lemma RoutedSpec(words: seq<nat>, p: nat, a: nat, q: nat, b: nat)
    requires Wide(words) && Both(p, q) && a < CPU_COUNT && b < CPU_COUNT
    ensures OnlyOn(Routed(words, p, a, q, b), Virtio, p, a) && OnlyOn(Routed(words, p, a, q, b), Virtio, q, b)
    ensures OthersKept(words, Routed(words, p, a, q, b))
  {
    var cleared := Cleared(words, CPU_COUNT);
    var half := Enabled(cleared, Context(a), p);
    forall c: nat, i: nat | i < IRQS
      ensures On(Routed(words, p, a, q, b), c, i) <==>
              (c == Context(a) && i == p) || (c == Context(b) && i == q) || On(cleared, c, i)
      ensures On(cleared, c, i) <==> On(words, c, i) && !((i == NET || i == UART) && OfSomeCpu(c))
    {
      ClearedSpec(words, CPU_COUNT, c, i);
      EnabledSpec(cleared, Context(a), p, c, i);
      EnabledSpec(half, Context(b), q, c, i);
    }
    var after := Routed(words, p, a, q, b);
    forall k: nat | k < CPU_COUNT
      ensures OnCpu(after, Virtio, p, k) <==> k == a
      ensures OnCpu(after, Virtio, q, k) <==> k == b
    {
      assert OfSomeCpu(Context(k));
      assert On(after, Context(k), p) <==> Context(k) == Context(a);
      assert On(after, Context(k), q) <==> Context(k) == Context(b);
    }
  }

  /** The contexts by number, and where the PLIC Specification 1.0.0 puts their enable bits: 0x80 bytes, or 32 words,
      for each context, one bit for each interrupt. */
  lemma ContextNumbers(cpu: nat, irq: nat)
    ensures ContextId(Virtio, cpu) == Some(2 * cpu + 1) && ContextOn(Virtio, cpu) == Context(cpu) == 2 * cpu + 1
    ensures ContextId(Sifive, cpu) == (if cpu == 0 then None else Some(2 * cpu)) && ContextOn(Sifive, cpu) == 2 * cpu
    ensures ContextId(Unknown, cpu) == None
    ensures WordOf(Context(cpu), irq) == (2 * cpu + 1) * 32 + irq / 32
  {
  }

  // ----- rotation on the words

  function Previous(cpu: nat): nat {
    (cpu + CPU_COUNT - 1) % CPU_COUNT
  }

  function Rotated(words: seq<nat>, board: Board, index: nat): (r: seq<nat>)
    requires Wide(words) && index < CPU_COUNT
    ensures |r| == |words|
  {
    Enabled(Disabled(words, ContextOn(board, Previous(index)), UART), ContextOn(board, index), UART)
  }

  /** The UART ends up on exactly the CPU the index names, if and only if it was on no other CPU but that one and
      the one before. Other interrupts do not change. */
  lemma RotatedSpec(words: seq<nat>, board: Board, index: nat)
    requires Wide(words) && index < CPU_COUNT && HasContext(board, index)
    ensures OnlyOn(Rotated(words, board, index), board, UART, index) <==>
            forall k: nat | k < CPU_COUNT && HasContext(board, k) && k != index && k != Previous(index) ::
              !OnCpu(words, board, UART, k)
    ensures forall c: nat, i: nat | i < IRQS && i != UART :: On(Rotated(words, board, index), c, i) <==> On(words, c, i)
  {
    var last, now := ContextOn(board, Previous(index)), ContextOn(board, index);
    forall c: nat, i: nat | i < IRQS
      ensures On(Rotated(words, board, index), c, i) <==>
              (c == now && i == UART) || (!(c == last && i == UART) && On(words, c, i))
    {
      DisabledSpec(words, last, UART, c, i);
      EnabledSpec(Disabled(words, last, UART), now, UART, c, i);
    }
    var after := Rotated(words, board, index);
    forall k: nat | k < CPU_COUNT && HasContext(board, k)
      ensures OnCpu(after, board, UART, k) <==> k == index || (k != Previous(index) && OnCpu(words, board, UART, k))
    {
      assert k != index && k != Previous(index) ==> ContextOn(board, k) != last && ContextOn(board, k) != now;
    }
  }

  /** Disabling the UART on the only CPU that has it leaves it on none. */
  lemma SwitchedOff(words: seq<nat>, board: Board, cpu: nat)
    requires Wide(words) && cpu < CPU_COUNT && OnlyOn(words, board, UART, cpu)
    ensures OnNone(Disabled(words, ContextOn(board, cpu), UART), board, UART)
  {
    var after := Disabled(words, ContextOn(board, cpu), UART);
    forall k: nat | k < CPU_COUNT && HasContext(board, k)
      ensures !OnCpu(after, board, UART, k)
    {
      assert OnCpu(words, board, UART, k) <==> k == cpu;
      DisabledSpec(words, ContextOn(board, cpu), UART, ContextOn(board, k), UART);
    }
  }

  /** Both interrupts enabled on a CPU: the UART is then on exactly that CPU if and only if no other had it. */
  lemma InitSpec(words: seq<nat>, board: Board, cpu: nat)
    requires Wide(words) && cpu < CPU_COUNT && HasContext(board, cpu)
    ensures var after := Enabled(Enabled(words, ContextOn(board, cpu), NET), ContextOn(board, cpu), UART);
            && (forall c: nat, i: nat | i < 1024 ::
                  On(after, c, i) <==> On(words, c, i) || (c == ContextOn(board, cpu) && (i == 8 || i == 10)))
            && (OnlyOn(after, board, UART, cpu) <==>
                forall k: nat | k < CPU_COUNT && HasContext(board, k) && k != cpu :: !OnCpu(words, board, UART, k))
  {
    var c := ContextOn(board, cpu);
    var half := Enabled(words, c, NET);
    var after := Enabled(half, c, UART);
    forall d: nat, i: nat | i < 1024
      ensures On(after, d, i) <==> On(words, d, i) || (d == c && (i == 8 || i == 10))
    {
      EnabledSpec(words, c, NET, d, i);
      EnabledSpec(half, c, UART, d, i);
    }
    forall k: nat | k < CPU_COUNT && HasContext(board, k)
      ensures OnCpu(after, board, UART, k) <==> k == cpu || OnCpu(words, board, UART, k)
    {
      assert On(after, ContextOn(board, k), UART) <==> On(words, ContextOn(board, k), UART) || ContextOn(board, k) == c;
    }
  }

  lemma ClearedOff(words: seq<nat>, irq: nat)
    requires Wide(words) && (irq == NET || irq == UART)
    ensures OnNone(Cleared(words, CPU_COUNT), Virtio, irq)
  {
    forall k: nat | k < CPU_COUNT
      ensures !OnCpu(Cleared(words, CPU_COUNT), Virtio, irq, k)
    {
      ClearedSpec(words, CPU_COUNT, Context(k), irq);
      assert k < CPU_COUNT && Context(k) == ContextOn(Virtio, k);
    }
  }

  /** Enabling one interrupt does not bring another back. */
  lemma StillOff(words: seq<nat>, irq: nat, p: nat, cpu: nat)
    requires Wide(words) && OnNone(words, Virtio, irq) && p < IRQS && irq < IRQS && p != irq && cpu < CPU_COUNT
    ensures OnNone(Enabled(words, Context(cpu), p), Virtio, irq)
  {
    forall k: nat | k < CPU_COUNT
      ensures !OnCpu(Enabled(words, Context(cpu), p), Virtio, irq, k)
    {
      assert !OnCpu(words, Virtio, irq, k);
      EnabledSpec(words, Context(cpu), p, ContextOn(Virtio, k), irq);
    }
  }

  /** `Vec::from_iter` over an ordered map: the loads of the CPUs below `n`, by ascending CPU. */
  function ByCpu(loads: map<nat, nat>, n: nat): seq<Load> {
    if n == 0 then []
    else ByCpu(loads, n - 1) + (if n - 1 in loads then [Load(n - 1, loads[n - 1])] else [])
  }

  lemma {:induction false} ByCpuHas(loads: map<nat, nat>, n: nat, x: Load)
    ensures x in ByCpu(loads, n) <==> x.cpu < n && x.cpu in loads && loads[x.cpu] == x.key
  {
    if n > 0 {
      ByCpuHas(loads, n - 1, x);
    }
  }

  lemma {:induction false} ByCpuAscending(loads: map<nat, nat>, n: nat)
    ensures Ascending(ByCpu(loads, n))
  {
    if n > 0 {
      ByCpuAscending(loads, n - 1);
      var v := ByCpu(loads, n - 1);
      forall i | 0 <= i < |v|
        ensures v[i].cpu < n - 1
      {
        ByCpuHas(loads, n - 1, v[i]);
      }
    }
  }

  lemma TwoOf(loads: map<nat, nat>) returns (a: nat, b: nat)
    requires |loads| >= 2
    ensures a in loads && b in loads && a != b
  {
    assert |loads| == |loads.Keys|;
    a :| a in loads.Keys;
    assert |loads.Keys - {a}| >= 1;
    b :| b in loads.Keys - {a};
  }

  lemma ByCpuTwo(loads: map<nat, nat>)
    requires |loads| >= 2 && forall c | c in loads :: c < CPU_COUNT
    ensures |ByCpu(loads, CPU_COUNT)| >= 2
  {
    var v := ByCpu(loads, CPU_COUNT);
    var a, b := TwoOf(loads);
    ByCpuHas(loads, CPU_COUNT, Load(a, loads[a]));
    ByCpuHas(loads, CPU_COUNT, Load(b, loads[b]));
    var i :| 0 <= i < |v| && v[i] == Load(a, loads[a]);
    var j :| 0 <= j < |v| && v[j] == Load(b, loads[b]);
    assert i != j;
  }

  lemma ByCpuLists(loads: map<nat, nat>)
    requires forall c | c in loads :: c < CPU_COUNT
    ensures Lists(ByCpu(loads, CPU_COUNT), loads)
  {
    var v := ByCpu(loads, CPU_COUNT);
    forall x | x in v
      ensures x.cpu in loads && loads[x.cpu] == x.key
    {
      ByCpuHas(loads, CPU_COUNT, x);
    }
    forall c | c in loads
      ensures Load(c, loads[c]) in v
    {
      ByCpuHas(loads, CPU_COUNT, Load(c, loads[c]));
    }
  }

  /** The CPUs in the order in which the strategies prefer them. */
  function Preferred(loads: map<nat, nat>): (r: seq<Load>)
    requires forall c | c in loads :: c < CPU_COUNT
    ensures |r| >= 2 <==> |loads| >= 2
    ensures |r| >= 2 ==> TwoLowest(loads, r[0].cpu, r[1].cpu)
    ensures forall x | x in r :: x.cpu < CPU_COUNT
  {
    var v := ByCpu(loads, CPU_COUNT);
    ByCpuLists(loads);
    ByCpuAscending(loads, CPU_COUNT);
    SortedMembers(v, loads);
    if |v| >= 2 then TwoListed(v, loads); LowestTwo(v, loads); SortByKey(v)
    else FewListed(loads); SortByKey(v)
  }

  lemma FewListed(loads: map<nat, nat>)
    requires forall c | c in loads :: c < CPU_COUNT
    requires |ByCpu(loads, CPU_COUNT)| < 2
    ensures |loads| < 2
  {
    if |loads| >= 2 {
      ByCpuTwo(loads);
    }
  }

  lemma SortedMembers(v: seq<Load>, loads: map<nat, nat>)
    requires Ascending(v) && Lists(v, loads) && forall c | c in loads :: c < CPU_COUNT
    ensures |SortByKey(v)| == |v| && forall x | x in SortByKey(v) :: x.cpu < CPU_COUNT
  {
    SortSpec(v);
    forall x | x in SortByKey(v)
      ensures x.cpu < CPU_COUNT
    {
      assert x in multiset(SortByKey(v));
      assert x in v;
    }
  }

  lemma TwoListed(v: seq<Load>, loads: map<nat, nat>)
    requires Ascending(v) && Lists(v, loads) && |v| >= 2
    ensures |loads| >= 2
  {
    assert v[0] in v && v[1] in v && v[0].cpu != v[1].cpu;
    SubsetSize({v[0].cpu, v[1].cpu}, loads.Keys);
    assert |loads| == |loads.Keys|;
  }

  /** The interrupt controller and the state of the strategies. Each strategy returns whether it got through; where
      it does not, the source panics. */
  class Router {
    const board: Board
    const enable: array<nat>
    var irqCount: map<nat, int>
    var rotateIndex: nat

    ghost predicate Valid()
      reads this, enable
    {
      Wide(enable[..]) && NET in irqCount && UART in irqCount && rotateIndex < CPU_COUNT
    }

    constructor (board: Board, words: array<nat>)
      requires Wide(words[..])
      ensures Valid() && this.board == board && enable == words && rotateIndex == 0
    {
      this.board, enable := board, words;
      irqCount := map[NET := 0, UART := 0];
      rotateIndex := 0;
    }

    method Enable(cpu: nat, irq: nat) returns (ok: bool)
      requires Wide(enable[..]) && cpu < CPU_COUNT && irq < IRQS
      modifies enable
      ensures ok <==> HasContext(board, cpu)
      ensures enable[..] == if ok then Enabled(old(enable[..]), ContextOn(board, cpu), irq) else old(enable[..])
    {
      var context := ContextId(board, cpu);
      if context.None? {
        return false;
      }
      var k := WordOf(context.value, irq);
      enable[k] := SetBit(enable[k], irq % 32);
      return true;
    }

    method Disable(cpu: nat, irq: nat) returns (ok: bool)
      requires Wide(enable[..]) && cpu < CPU_COUNT && irq < IRQS
      modifies enable
      ensures ok <==> HasContext(board, cpu)
      ensures enable[..] == if ok then Disabled(old(enable[..]), ContextOn(board, cpu), irq) else old(enable[..])
    {
      var context := ContextId(board, cpu);
      if context.None? {
        return false;
      }
      var k := WordOf(context.value, irq);
      enable[k] := ClearBit(enable[k], irq % 32);
      return true;
    }

    /** The disabling part of the load strategies, for the CPUs up to the first that is not among `wanted`. */
    method DisableBoth(wanted: set<nat>) returns (done: nat)
      requires Wide(enable[..])
      modifies enable
      ensures board != Virtio ==> done == 0 && enable[..] == old(enable[..])
      ensures board == Virtio ==>
                && done <= CPU_COUNT && (forall k: nat | k < done :: k in wanted)
                && (done < CPU_COUNT ==> done !in wanted && enable[..] == Cleared(old(enable[..]), done + 1))
                && (done == CPU_COUNT ==> enable[..] == Cleared(old(enable[..]), CPU_COUNT))
    {
      done := 0;
      while done < CPU_COUNT
        invariant done <= CPU_COUNT && enable[..] == Cleared(old(enable[..]), done)
        invariant board == Virtio || done == 0
        invariant forall k: nat | k < done :: k in wanted
      {
        var uart := Disable(done, UART);
        if !uart {
          return;
        }
        var net := Disable(done, NET);
        if done !in wanted {
          return;
        }
        done := done + 1;
      }
    }

    /** `init_strategy` on `cpu` enables both interrupts there and changes no other bit. The UART is then on that
        CPU alone if and only if no other CPU had it. */
    method Init(cpu: nat) returns (ok: bool)
      requires Valid() && cpu < CPU_COUNT
      modifies this, enable
      ensures Valid() && rotateIndex == cpu && irqCount == old(irqCount)[NET := 0][UART := 0]
      ensures ok <==> HasContext(board, cpu)
      ensures !ok ==> enable[..] == old(enable[..])
      ensures ok ==>
                forall c: nat, i: nat | i < 1024 ::
                  On(enable[..], c, i) <==>
                  On(old(enable[..]), c, i) || (c == ContextOn(board, cpu) && (i == 8 || i == 10))
      ensures ok ==>
                (OnlyOn(enable[..], board, UART, cpu) <==>
                 forall k: nat | k < CPU_COUNT && HasContext(board, k) && k != cpu ::
                   !OnCpu(old(enable[..]), board, UART, k))
    {
      rotateIndex := cpu;
      irqCount := irqCount[NET := 0][UART := 0];
      if HasContext(board, cpu) {
        InitSpec(enable[..], board, cpu);
      }
      ok := Enable(cpu, NET);
      if ok {
        ok := Enable(cpu, UART);
      }
    }

    /** The two running CPUs of lowest task priority get the two interrupts, the lowest the heavier load. This works
        on a virtio board with two running CPUs; with fewer, the lighter interrupt is left enabled nowhere. */
    method MinLoad(running: map<nat, nat>) returns (ok: bool, ghost first: nat, ghost second: nat)
      requires Valid() && forall c | c in running :: c < CPU_COUNT
      modifies this`irqCount, enable
      ensures Valid()
      ensures ok <==> board == Virtio && |running| >= 2
      ensures board != Virtio ==> enable[..] == old(enable[..]) && irqCount == old(irqCount)
      ensures board == Virtio ==> irqCount == old(irqCount)[NET := 0][UART := 0]
      ensures var netHeavier := 4 * old(irqCount)[8] > old(irqCount)[10];
              && (ok ==>
                    && first < 5 && second < 5 && TwoLowest(running, first, second)
                    && OnlyOn(enable[..], board, 8, if netHeavier then first else second)
                    && OnlyOn(enable[..], board, 10, if netHeavier then second else first)
                    && OthersKept(old(enable[..]), enable[..]))
              && (!ok && board == Virtio ==> OnNone(enable[..], board, if netHeavier then 10 else 8))
    {
      first, second := 0, 0;
      var done := DisableBoth(ALL_CPUS);
      if done < CPU_COUNT {
        return false, 0, 0;
      }
      var sorted := Preferred(running);
      var net, uart := irqCount[NET], irqCount[UART];
      irqCount := irqCount[NET := 0][UART := 0];
      if NET_LOAD * net > UART_LOAD * uart {
        ok := EnablePair(sorted, NET, UART, old(enable[..]));
      } else {
        ok := EnablePair(sorted, UART, NET, old(enable[..]));
      }
      if ok {
        first, second := sorted[0].cpu, sorted[1].cpu;
      }
    }

    /** The enabling part: `heavy` on the first CPU, then `light` on the second, as far as there are CPUs. */
    method EnablePair(sorted: seq<Load>, heavy: nat, light: nat, ghost words: seq<nat>) returns (ok: bool)
      requires board == Virtio && Wide(words) && Both(heavy, light) && forall x | x in sorted :: x.cpu < CPU_COUNT
      requires enable[..] == Cleared(words, CPU_COUNT)
      modifies enable
      ensures |enable[..]| == |words| && (ok <==> |sorted| >= 2)
      ensures ok ==>
                && OnlyOn(enable[..], board, heavy, sorted[0].cpu) && OnlyOn(enable[..], board, light, sorted[1].cpu)
                && OthersKept(words, enable[..])
      ensures !ok ==> OnNone(enable[..], board, light)
    {
      ClearedOff(words, light);
      if |sorted| == 0 {
        return false;
      }
      assert sorted[0] in sorted;
      StillOff(enable[..], light, heavy, sorted[0].cpu);
      ok := Enable(sorted[0].cpu, heavy);
      if |sorted| == 1 {
        return false;
      }
      assert sorted[1] in sorted;
      RoutedSpec(words, heavy, sorted[0].cpu, light, sorted[1].cpu);
      ok := Enable(sorted[1].cpu, light);
    }

    /** `min_count_cpu_strategy_event`: the CPUs are ordered by task priority, then by the number of interrupts they
        took; the network goes to the lowest and the UART to the second. This works on a virtio board with all CPUs
        running; otherwise it stops at the first that is not, with both interrupts disabled up to there. */
    method MinCount(running: map<nat, nat>, taken: seq<nat>)
      returns (ok: bool, done: nat, ghost first: nat, ghost second: nat)
      requires Valid() && |taken| == CPU_COUNT && forall i | 0 <= i < CPU_COUNT :: taken[i] < 256
      modifies enable
      ensures Valid()
      ensures ok <==> board == Virtio && forall k: nat | k < CPU_COUNT :: k in running
      ensures ok ==>
                && first < CPU_COUNT && second < CPU_COUNT && first != second
                && OnlyOn(enable[..], board, NET, first) && OnlyOn(enable[..], board, UART, second)
                && OthersKept(old(enable[..]), enable[..])
                && (forall k: nat | k < CPU_COUNT && k != first :: Lighter(running, taken, first, k))
                && (forall k: nat | k < CPU_COUNT && k != first && k != second :: Lighter(running, taken, second, k))
      ensures !ok && board != Virtio ==> enable[..] == old(enable[..])
      ensures !ok && board == Virtio ==>
                done < CPU_COUNT && done !in running && enable[..] == Cleared(old(enable[..]), done + 1)
    {
      first, second := 0, 0;
      done := DisableBoth(running.Keys);
      if done < CPU_COUNT {
        return false, done, 0, 0;
      }
      var loads := CountLoads(running, taken);
      var sorted := Preferred(loads);
      CountOrder(running, taken, sorted[0].cpu, sorted[1].cpu);
      ok := EnablePair(sorted, NET, UART, old(enable[..]));
      first, second := sorted[0].cpu, sorted[1].cpu;
    }

    /** One rotation gets through if the CPU that the index names and the one before have contexts. The UART is then
        on exactly the CPU that the index named if and only if it was on no other but these two. When only the named
        CPU has no context, the UART has been taken from the CPU before and given to none. */
    method Rotate() returns (ok: bool)
      requires Valid()
      modifies this`rotateIndex, enable
      ensures Valid()
      ensures ok <==> HasContext(board, old(rotateIndex)) && HasContext(board, Previous(old(rotateIndex)))
      ensures ok ==> enable[..] == Rotated(old(enable[..]), board, old(rotateIndex))
      ensures ok ==>
                (OnlyOn(enable[..], board, UART, old(rotateIndex)) <==>
                 forall k: nat | k < CPU_COUNT && HasContext(board, k) && k != old(rotateIndex)
                                 && k != Previous(old(rotateIndex)) :: !OnCpu(old(enable[..]), board, UART, k))
      ensures rotateIndex == if ok then (old(rotateIndex) + 1) % 5 else old(rotateIndex)
      ensures !ok ==> enable[..] ==
                        if HasContext(board, Previous(rotateIndex))
                        then Disabled(old(enable[..]), ContextOn(board, Previous(rotateIndex)), UART)
                        else old(enable[..])
    {
      if HasContext(board, rotateIndex) {
        RotatedSpec(enable[..], board, rotateIndex);
      }
      ok := Disable((rotateIndex + CPU_COUNT - 1) % CPU_COUNT, UART);
      if ok {
        ok := Enable(rotateIndex, UART);
      }
      if ok {
        rotateIndex := (rotateIndex + 1) % CPU_COUNT;
      }
    }

    /** Rotations after `init_strategy`, until one fails: on a virtio board none does, and the UART is always on
        exactly one CPU, going round them all. On a SiFive board, started on CPU 2 or later, the rotation that comes
        round to CPU 0 fails and leaves the UART enabled nowhere; started on CPU 1, the first one fails and leaves it
        there. */
    method InitAndRotate(cpu: nat, n: nat) returns (done: nat)
      requires Valid() && cpu < CPU_COUNT && OnNone(enable[..], board, UART)
      modifies this, enable
      ensures Valid() && done <= n
      ensures board == Virtio ==>
                done == n && OnlyOn(enable[..], board, 10, if n == 0 then cpu else (cpu + n - 1) % 5)
      ensures board == Sifive && cpu >= 2 ==>
                if n <= CPU_COUNT - cpu
                then done == n && OnlyOn(enable[..], board, UART, HolderAfter(cpu, n))
                else done == CPU_COUNT - cpu && OnNone(enable[..], board, UART)
      ensures board == Sifive && cpu == 1 ==> done == 0 && OnlyOn(enable[..], board, UART, 1)
      ensures !HasContext(board, cpu) ==> done == 0 && OnNone(enable[..], board, UART)
    {
      done := 0;
      var ok := Init(cpu);
      if !ok {
        return;
      }
      while done < n
        invariant done <= n && Valid() && rotateIndex == (cpu + done) % CPU_COUNT && HasContext(board, cpu)
        invariant board == Sifive && cpu >= 2 ==> done <= CPU_COUNT - cpu
        invariant board == Sifive && cpu == 1 ==> done == 0
        invariant OnlyOn(enable[..], board, UART, HolderAfter(cpu, done))
      {
        ok := RotateAgain(cpu, done);
        if !ok {
          return;
        }
        done := done + 1;
      }
    }

    /** Rotation number `done`, counted from zero. */
    method RotateAgain(cpu: nat, done: nat) returns (ok: bool)
      requires Valid() && cpu < CPU_COUNT && HasContext(board, cpu) && rotateIndex == (cpu + done) % CPU_COUNT
      requires OnlyOn(enable[..], board, UART, HolderAfter(cpu, done))
      modifies this`rotateIndex, enable
      ensures Valid()
      ensures ok ==> rotateIndex == (cpu + done + 1) % CPU_COUNT
                      && OnlyOn(enable[..], board, UART, HolderAfter(cpu, done + 1))
      ensures board == Virtio ==> ok
      ensures board == Sifive && cpu >= 2 && done < CPU_COUNT - cpu ==> ok
      ensures board == Sifive && cpu >= 2 && done == CPU_COUNT - cpu ==> !ok && OnNone(enable[..], board, UART)
      ensures board == Sifive && cpu == 1 && done == 0 ==> !ok && enable[..] == old(enable[..])
    {
      HolderStep(cpu, done);
      NotElsewhere(enable[..], board, rotateIndex, HolderAfter(cpu, done));
      RotationContexts(board, cpu, done);
      if board == Sifive && cpu >= 2 && done == CPU_COUNT - cpu {
        SwitchedOff(enable[..], board, CPU_COUNT - 1);
      }
      ok := Rotate();
    }
  }

  /** The CPU that has the UART after so many rotations. */
  function HolderAfter(cpu: nat, done: nat): nat {
    if done == 0 then cpu else (cpu + done - 1) % CPU_COUNT
  }

  const ALL_CPUS: set<nat> := {0, 1, 2, 3, 4}

  /** Which rotations after `init_strategy` on `cpu` get through. */
  lemma RotationContexts(board: Board, cpu: nat, done: nat)
    requires cpu < CPU_COUNT && HasContext(board, cpu)
    ensures var index := (cpu + done) % CPU_COUNT;
            && (board == Virtio ==> HasContext(board, index) && HasContext(board, Previous(index)))
            && (board == Sifive && cpu >= 2 && done < CPU_COUNT - cpu ==>
                  index == cpu + done && HasContext(board, index) && HasContext(board, Previous(index)))
            && (board == Sifive && cpu >= 2 && done == CPU_COUNT - cpu ==>
                  index == 0 && Previous(index) == CPU_COUNT - 1 && HasContext(board, CPU_COUNT - 1))
  {
  }

  /** The index names the next holder, and the present one is that CPU or the one before. */
  lemma HolderStep(cpu: nat, done: nat)
    requires cpu < CPU_COUNT
    ensures var index := (cpu + done) % CPU_COUNT;
            && HolderAfter(cpu, done + 1) == index && (index + 1) % CPU_COUNT == (cpu + done + 1) % CPU_COUNT
            && HolderAfter(cpu, done) == if done == 0 then index else Previous(index)
  {
  }

  lemma NotElsewhere(words: seq<nat>, board: Board, index: nat, holder: nat)
    requires OnlyOn(words, board, UART, holder) && (holder == index || holder == Previous(index))
    ensures forall k: nat | k < CPU_COUNT && HasContext(board, k) && k != index && k != Previous(index) ::
              !OnCpu(words, board, UART, k)
  {
  }

  /** Lower task priority, then fewer interrupts, then the lower CPU number. */
  predicate Lighter(priority: map<nat, nat>, taken: seq<nat>, a: nat, b: nat)
    requires a in priority && b in priority && a < |taken| && b < |taken|
  {
    || priority[a] < priority[b]
    || (priority[a] == priority[b] && (taken[a] < taken[b] || (taken[a] == taken[b] && a < b)))
  }

  /** `count | priority << 16`, with a count of eight bits. */
  function CountLoads(priority: map<nat, nat>, taken: seq<nat>): (r: map<nat, nat>)
    requires (forall k: nat | k < CPU_COUNT :: k in priority) && |taken| == CPU_COUNT
    ensures |r| >= 2
  {
    var r := map c: nat | c < CPU_COUNT :: priority[c] * 0x1_0000 + taken[c];
    assert {0, 1} <= r.Keys;
    SubsetSize({0, 1}, r.Keys);
    assert |r| == |r.Keys|;
    r
  }

  lemma {:induction false} SubsetSize(a: set<nat>, b: set<nat>)
    requires a <= b
    ensures |a| <= |b|
  {
    if a != {} {
      var x :| x in a;
      SubsetSize(a - {x}, b - {x});
    }
  }

  lemma CountOrder(priority: map<nat, nat>, taken: seq<nat>, first: nat, second: nat)
    requires (forall k: nat | k < CPU_COUNT :: k in priority) && |taken| == CPU_COUNT
    requires forall i | 0 <= i < CPU_COUNT :: taken[i] < 256
    requires TwoLowest(CountLoads(priority, taken), first, second)
    ensures first < CPU_COUNT && second < CPU_COUNT
    ensures forall k: nat | k < CPU_COUNT && k != first :: Lighter(priority, taken, first, k)
    ensures forall k: nat | k < CPU_COUNT && k != first && k != second :: Lighter(priority, taken, second, k)
  {
    var loads := CountLoads(priority, taken);
    forall a: nat, b: nat | a < CPU_COUNT && b < CPU_COUNT && Before(Load(a, loads[a]), Load(b, loads[b]))
      ensures Lighter(priority, taken, a, b)
    {
      PackedOrder(priority[a], taken[a], priority[b], taken[b]);
    }
  }

  lemma PackedOrder(p: nat, m: nat, q: nat, n: nat)
    requires m < 256 && n < 256
    ensures p * 0x1_0000 + m < q * 0x1_0000 + n <==> p < q || (p == q && m < n)
    ensures p * 0x1_0000 + m == q * 0x1_0000 + n <==> p == q && m == n
  {
  }
}
