/** TCP sockets driven from any number of threads by `bind`, `listen`, `accept`, `shutdown` and drop, all sharing
    one table of listening ports, as a transition system. Every step is one atomic action of the source: a
    compare-and-swap or store of the socket state, an access to the address cell, or a critical section of the
    port table. Three fields are history and are read by no guard: who holds a BUSY socket, which socket
    inserted a table entry, and where each connection handle lives. */
module ListenOwnership {
  import opened Errors

  const LISTEN_QUEUE_SIZE: nat := 512

  datatype SockState = Closed | Busy | Connected | Listening

  /** `port == 0 && addr == 0` is the unspecified endpoint. `holder` and `dropper` are history. */
  datatype Sock = Sock(state: SockState, addr: nat, port: nat, handle: Option<nat>,
                       holder: Option<nat>, dropper: Option<nat>)

  /** What follows the store that ends a BUSY section. */
  datatype After = Return | Second | Last

  /** How far a thread is in an operation on a socket. From `Binding` to `Finish` it is inside the BUSY section. */
  datatype Stage =
    | Binding
    | ListenEntered
    | ListenBound
    | StreamEntered
    | ListenerEntered
    | ListenerCleared(port: nat)
    | Finish(to: SockState, after: After)
    | ShutFirst
    | ShutSecond
    | ShutLast
    | AcceptChecked
    | AcceptFrom(port: nat)

  /** A thread is idle or at some stage of an operation on socket `s`; `drop` when the operation is its drop. */
  datatype Place = Idle | At(s: nat, stage: Stage, drop: bool)

  datatype Entry = Entry(addr: nat, queue: seq<nat>, owner: nat)

  datatype Home = InQueue(port: nat) | InSocket(s: nat)

  type Threads = seq<Place>
  type Socks = map<nat, Sock>
  type Table = map<nat, Entry>
  type Live = map<nat, Home>

  datatype State = State(threads: Threads, socks: Socks, table: Table, live: Live)

  datatype Op = Bind | Listen | Accept | Shutdown | Drop

  /** `Advance` takes the thread's operation one action further; the endpoint and the set of connected handles are what
      the caller, the ephemeral port search and the TCP engine supply. */
  datatype Step =
    | Create(s: nat)
    | Start(t: nat, s: nat, op: Op)
    | Advance(t: nat, addr: nat, chosen: Option<nat>)
    | Take(t: nat, connected: set<nat>, s: nat, addr: nat, lport: nat)
    | GiveUp(t: nat)
    | Incoming(port: nat, dst: nat, handle: nat)

  predicate InSection(stage: Stage) {
    stage.Binding? || stage.ListenEntered? || stage.ListenBound? || stage.StreamEntered? ||
    stage.ListenerEntered? || stage.ListenerCleared? || stage.Finish?
  }

  // ----- the steps

  predicate Refers(place: Place, s: nat) {
    place.At? && place.s == s
  }

  predicate Enabled(st: State, step: Step) {
    match step
    case Create(s) => s !in st.socks
    case Start(t, s, op) =>
      && t < |st.threads| && st.threads[t].Idle? && s in st.socks && st.socks[s].dropper.None?
      && (op == Drop ==> forall u | 0 <= u < |st.threads| :: !Refers(st.threads[u], s))
    case Advance(t, _, port) =>
      && t < |st.threads| && st.threads[t].At? && !st.threads[t].stage.AcceptFrom?
      && st.threads[t].s in st.socks && port != Some(0)
    case Take(t, connected, s, _, _) =>
      && t < |st.threads| && st.threads[t].At? && st.threads[t].stage.AcceptFrom? && s !in st.socks
    case GiveUp(t) => t < |st.threads| && st.threads[t].At? && st.threads[t].stage.AcceptFrom?
    case Incoming(port, dst, handle) => handle !in st.live
  }

  function Put(st: State, t: nat, place: Place, s: nat, sock: Sock): State
    requires t < |st.threads|
  {
    st.(threads := st.threads[t := place], socks := st.socks[s := sock])
  }

  function Enter(st: State, t: nat, s: nat, stage: Stage, drop: bool): State
    requires t < |st.threads| && s in st.socks
  {
    Put(st, t, At(s, stage, drop), s, st.socks[s].(state := Busy, holder := Some(t)))
  }

  function Go(st: State, t: nat, place: Place): State
    requires t < |st.threads|
  {
    st.(threads := st.threads[t := place])
  }

  function Started(st: State, t: nat, s: nat, op: Op): State
    requires t < |st.threads| && s in st.socks
  {
    match op
    case Bind => if st.socks[s].state == Closed then Enter(st, t, s, Binding, false) else st
    case Listen => if st.socks[s].state == Closed then Enter(st, t, s, ListenEntered, false) else st
    case Accept => if st.socks[s].state == Listening then Go(st, t, At(s, AcceptChecked, false)) else st
    case Shutdown => Go(st, t, At(s, ShutFirst, false))
    case Drop => Put(st, t, At(s, ShutFirst, true), s, st.socks[s].(dropper := Some(t)))
  }

  /** The SYN queue of an entry is dropped with it, and the handles in it leave the socket set. */
  function WithoutQueue(live: Live, port: nat): Live {
    map h | h in live && live[h] != InQueue(port) :: live[h]
  }

  function Followed(place: Place, after: After): Place
    requires place.At?
  {
    match after
    case Return => Idle
    case Second => At(place.s, ShutSecond, place.drop)
    case Last => At(place.s, ShutLast, place.drop)
  }

  function Advanced(st: State, t: nat, addr: nat, port: Option<nat>): State
    requires Enabled(st, Advance(t, addr, port))
  {
    var place := st.threads[t];
    var s, drop := place.s, place.drop;
    var sock := st.socks[s];
    match place.stage
    case Binding =>
      Put(st, t, At(s, Finish(Closed, Return), drop), s,
          if port.Some? && sock.addr == 0 && sock.port == 0 then sock.(addr := addr, port := port.value) else sock)
    case ListenEntered =>
      if sock.port != 0 then Go(st, t, At(s, ListenBound, drop))
      else if port.Some? then Put(st, t, At(s, ListenBound, drop), s, sock.(port := port.value))
      else Go(st, t, At(s, Finish(Closed, Return), drop))
    case ListenBound =>
      if sock.port in st.table then Go(st, t, At(s, Finish(Closed, Return), drop))
      else
        Go(st, t, At(s, Finish(Listening, Return), drop)).(table := st.table[sock.port := Entry(sock.addr, [], s)])
    case StreamEntered => Put(st, t, At(s, Finish(Closed, Second), drop), s, sock.(addr := 0, port := 0))
    case ListenerEntered => Put(st, t, At(s, ListenerCleared(sock.port), drop), s, sock.(addr := 0, port := 0))
    case ListenerCleared(p) =>
      Go(st, t, At(s, Finish(Closed, Last), drop)).(table := st.table - {p}, live := WithoutQueue(st.live, p))
    case Finish(to, after) => Put(st, t, Followed(place, after), s, sock.(state := to, holder := None))
    case ShutFirst =>
      if sock.state == Connected then Enter(st, t, s, StreamEntered, drop) else Go(st, t, At(s, ShutSecond, drop))
    case ShutSecond =>
      if sock.state == Listening then Enter(st, t, s, ListenerEntered, drop) else Go(st, t, At(s, ShutLast, drop))
    case ShutLast =>
      if drop then
        Go(st, t, Idle).(socks := st.socks - {s},
                         live := if sock.handle.Some? then st.live - {sock.handle.value} else st.live)
      else Go(st, t, Idle)
    case AcceptChecked => Go(st, t, At(s, AcceptFrom(sock.port), drop))
    case AcceptFrom(_) => st
  }

  /** The first connected handle of a queue, or its length. */
  function FirstConnected(queue: seq<nat>, connected: set<nat>): (i: nat)
    ensures i <= |queue| && (i < |queue| ==> queue[i] in connected)
    ensures forall k | 0 <= k < i :: queue[k] !in connected
  {
    if queue == [] || queue[0] in connected then 0 else
      assert forall k | 1 <= k < |queue| :: queue[k] == queue[1..][k - 1];
      1 + FirstConnected(queue[1..], connected)
  }

  /** `swap_remove_front` */
  function SwapRemoveFront(queue: seq<nat>, i: nat): (r: seq<nat>)
    requires i < |queue|
  {
    queue[i := queue[0]][1..]
  }

  /** The table after `ListenTable::accept` took the handle at position `i`. */
  function Popped(table: Table, port: nat, i: nat): Table
    requires port in table && i < |table[port].queue|
  {
    table[port := table[port].(queue := SwapRemoveFront(table[port].queue, i))]
  }

  /** `ListenTable::accept` and the socket made from its result. */
  function Taken(st: State, t: nat, connected: set<nat>, s: nat, addr: nat, lport: nat): State
    requires Enabled(st, Take(t, connected, s, addr, lport))
  {
    var p := st.threads[t].stage.port;
    if p !in st.table then Go(st, t, Idle) else
    var queue := st.table[p].queue;
    var i := FirstConnected(queue, connected);
    if i == |queue| then st else
    var h := queue[i];
    Put(st, t, Idle, s, Sock(Connected, addr, lport, Some(h), None, None)).(
      table := Popped(st.table, p, i),
      live := st.live[h := InSocket(s)])
  }

  /** `ListenTable::incoming_tcp_packet` takes the packet: someone listens on its address and has room. */
  predicate Welcome(table: Table, port: nat, dst: nat) {
    && port in table && (table[port].addr == 0 || table[port].addr == dst)
    && |table[port].queue| < LISTEN_QUEUE_SIZE
  }

  function Pushed(table: Table, port: nat, handle: nat): Table
    requires port in table
  {
    table[port := table[port].(queue := table[port].queue + [handle])]
  }

  function Arrived(st: State, port: nat, dst: nat, handle: nat): State {
    if Welcome(st.table, port, dst)
    then st.(table := Pushed(st.table, port, handle), live := st.live[handle := InQueue(port)])
    else st
  }

  function Next(st: State, step: Step): State
    requires Enabled(st, step)
  {
    match step
    case Create(s) => st.(socks := st.socks[s := Sock(Closed, 0, 0, None, None, None)])
    case Start(t, s, op) => Started(st, t, s, op)
    case Advance(t, addr, port) => Advanced(st, t, addr, port)
    case Take(t, connected, s, addr, lport) => Taken(st, t, connected, s, addr, lport)
    case GiveUp(t) => Go(st, t, Idle)
    case Incoming(port, dst, handle) => Arrived(st, port, dst, handle)
  }

  // ----- the invariant

  /** A socket is BUSY exactly while its one holder is inside its section. */
  ghost predicate SectionsOk(threads: Threads, socks: Socks) {
    && (forall t: nat | t < |threads| && threads[t].At? ::
          threads[t].s in socks && (InSection(threads[t].stage) ==> socks[threads[t].s].holder == Some(t)))
    && (forall s | s in socks :: SockSection(threads, socks[s], s))
  }

  ghost predicate SockSection(threads: Threads, sock: Sock, s: nat) {
    if sock.state == Busy
    then sock.holder.Some? && sock.holder.value < |threads| && Refers(threads[sock.holder.value], s) &&
         InSection(threads[sock.holder.value].stage)
    else sock.holder.None?
  }

  /** A socket being dropped is known to the dropping thread alone, and shut down by it step by step. */
  ghost predicate DropsOk(threads: Threads, socks: Socks) {
    forall t: nat | t < |threads| && threads[t].At? && threads[t].s in socks ::
      PlaceOk(threads[t], t, socks[threads[t].s])
  }

  ghost predicate PlaceOk(place: Place, t: nat, sock: Sock)
    requires place.At?
  {
    && (place.drop <==> sock.dropper == Some(t))
    && (sock.dropper.Some? ==> place.drop && DropStage(place.stage, sock.state))
    && StageOk(place.stage, sock)
  }

  /** How far a drop has got tells the state. */
  predicate DropStage(stage: Stage, state: SockState) {
    match stage
    case ShutFirst => state != Busy
    case ShutSecond => state == Closed || state == Listening
    case ShutLast => state == Closed
    case _ => InSection(stage)
  }

  predicate StageOk(stage: Stage, sock: Sock) {
    match stage
    case ListenBound => sock.port != 0
    case StreamEntered => sock.handle.Some?
    case Finish(to, after) =>
      match after {
        case Return => to == Closed || to == Listening
        case Second => to == Closed
        case Last => to == Closed
      }
    case _ => true
  }

  /** The port that a thread inside the section of `sock` answers for. */
  function StageClaim(stage: Stage, sock: Sock): Option<nat> {
    match stage
    case ListenerEntered => Some(sock.port)
    case ListenerCleared(p) => Some(p)
    case Finish(to, _) => if to == Listening then Some(sock.port) else None
    case _ => None
  }

  function Claim(threads: Threads, sock: Sock): Option<nat> {
    if sock.state == Listening then Some(sock.port)
    else if sock.state == Busy && sock.holder.Some? && sock.holder.value < |threads| && threads[sock.holder.value].At?
    then StageClaim(threads[sock.holder.value].stage, sock)
    else None
  }

  /** The occupied ports are those claimed by a socket, each by the one that inserted the entry. */
  ghost predicate PortsOk(threads: Threads, socks: Socks, table: Table) {
    && (forall p | p in table :: table[p].owner in socks && Claim(threads, socks[table[p].owner]) == Some(p))
    && (forall s | s in socks :: ClaimOk(table, s, Claim(threads, socks[s])))
  }

  ghost predicate ClaimOk(table: Table, s: nat, claim: Option<nat>) {
    claim.Some? ==> claim.value in table && table[claim.value].owner == s
  }

  /** Every live handle has exactly one home, and homes hold live handles only. */
  ghost predicate HandlesOk(socks: Socks, table: Table, live: Live) {
    && (forall h | h in live :: AtHome(socks, table, h, live[h]))
    && (forall p | p in table :: QueueOk(table[p].queue, p, live))
    && (forall s | s in socks && socks[s].handle.Some? ::
          socks[s].handle.value in live && live[socks[s].handle.value] == InSocket(s))
    && (forall s | s in socks :: socks[s].state == Connected ==> socks[s].handle.Some?)
  }

  ghost predicate AtHome(socks: Socks, table: Table, h: nat, home: Home) {
    match home
    case InQueue(p) => p in table && h in table[p].queue
    case InSocket(s) => s in socks && socks[s].handle == Some(h)
  }

  ghost predicate QueueOk(queue: seq<nat>, p: nat, live: Live) {
    && |queue| <= LISTEN_QUEUE_SIZE
    && (forall i | 0 <= i < |queue| :: queue[i] in live && live[queue[i]] == InQueue(p))
    && (forall i, j | 0 <= i < j < |queue| :: queue[i] != queue[j])
  }

  ghost predicate Inv(st: State) {
    && SectionsOk(st.threads, st.socks)
    && DropsOk(st.threads, st.socks)
    && PortsOk(st.threads, st.socks, st.table)
    && HandlesOk(st.socks, st.table, st.live)
  }

  // ----- every step keeps the sections

  /** A thread moves within, into or out of the section of one socket. */
  lemma SectionMoved(threads: Threads, socks: Socks, t: nat, place: Place, s: nat, sock: Sock)
    requires SectionsOk(threads, socks) && t < |threads| && s in socks
    requires threads[t].At? ==> threads[t].s == s
    requires place.At? ==> place.s == s
    requires socks[s].state == Busy ==> socks[s].holder == Some(t)
    requires if place.At? && InSection(place.stage) then sock.state == Busy && sock.holder == Some(t)
             else sock.state != Busy && sock.holder == None
    ensures SectionsOk(threads[t := place], socks[s := sock])
  {
    var threads', socks' := threads[t := place], socks[s := sock];
    forall r | r in socks'
      ensures SockSection(threads', socks'[r], r)
    {
      assert r in socks && SockSection(threads, socks[r], r);
    }
    forall u: nat | u < |threads'| && threads'[u].At?
      ensures threads'[u].s in socks'
      ensures InSection(threads'[u].stage) ==> socks'[threads'[u].s].holder == Some(u)
    {
      if u != t {
        assert threads[u] == threads'[u];
        assert SockSection(threads, socks[threads[u].s], threads[u].s);
      }
    }
  }

  /** A thread moves outside all sections. */
  lemma OutsideMoved(threads: Threads, socks: Socks, t: nat, place: Place)
    requires SectionsOk(threads, socks) && t < |threads|
    requires threads[t].At? ==> !InSection(threads[t].stage)
    requires place.At? ==> place.s in socks && !InSection(place.stage)
    ensures SectionsOk(threads[t := place], socks)
  {
    var threads' := threads[t := place];
    forall r | r in socks
      ensures SockSection(threads', socks[r], r)
    {
      assert SockSection(threads, socks[r], r);
    }
  }

  // ----- what a move leaves alone

  /** Moves of one thread at one socket change no other socket's claim. */
  lemma OtherClaim(threads: Threads, socks: Socks, t: nat, place: Place, s: nat, r: nat)
    requires SectionsOk(threads, socks) && t < |threads| && r in socks && r != s
    requires threads[t].At? ==> threads[t].s == s
    ensures Claim(threads[t := place], socks[r]) == Claim(threads, socks[r])
  {
    assert SockSection(threads, socks[r], r);
  }

  lemma PortsKept(threads: Threads, socks: Socks, table: Table, t: nat, place: Place, s: nat, sock: Sock)
    requires SectionsOk(threads, socks) && PortsOk(threads, socks, table) && t < |threads| && s in socks
    requires threads[t].At? ==> threads[t].s == s
    requires Claim(threads[t := place], sock) == Claim(threads, socks[s])
    ensures PortsOk(threads[t := place], socks[s := sock], table)
  {
    var threads', socks' := threads[t := place], socks[s := sock];
    forall r | r in socks'
      ensures Claim(threads', socks'[r]) == Claim(threads, socks[r])
    {
      if r != s {
        OtherClaim(threads, socks, t, place, s, r);
      }
    }
    forall r | r in socks'
      ensures ClaimOk(table, r, Claim(threads', socks'[r]))
    {
      assert ClaimOk(table, r, Claim(threads, socks[r]));
    }
  }

  lemma DropsKept(threads: Threads, socks: Socks, t: nat, place: Place, s: nat, sock: Sock)
    requires SectionsOk(threads, socks) && DropsOk(threads, socks) && t < |threads| && s in socks
    requires threads[t].At? ==> threads[t].s == s
    requires place.At? ==> place.s == s && PlaceOk(place, t, sock)
    requires sock.dropper == socks[s].dropper && (sock.dropper.Some? ==> sock.dropper == Some(t))
    requires socks[s].state == Busy ==> socks[s].holder == Some(t)
    ensures DropsOk(threads[t := place], socks[s := sock])
  {
    var threads', socks' := threads[t := place], socks[s := sock];
    forall u: nat | u < |threads'| && threads'[u].At? && threads'[u].s in socks'
      ensures PlaceOk(threads'[u], u, socks'[threads'[u].s])
    {
      if u != t {
        assert PlaceOk(threads[u], u, socks[threads[u].s]);
        assert SockSection(threads, socks[s], s);
      }
    }
  }

  lemma HandlesKept(socks: Socks, table: Table, live: Live, s: nat, sock: Sock)
    requires HandlesOk(socks, table, live) && s in socks && sock.handle == socks[s].handle
    requires sock.state == Connected ==> sock.handle.Some?
    ensures HandlesOk(socks[s := sock], table, live)
  {
    forall h | h in live
      ensures AtHome(socks[s := sock], table, h, live[h])
    {
      assert AtHome(socks, table, h, live[h]);
    }
    forall p | p in table
      ensures QueueOk(table[p].queue, p, live)
    {
    }
  }

  // ----- steps that change one thread and one socket

  /** A thread moves within, into or out of a section: the claim of the socket must stay. */
  lemma Moved(st: State, t: nat, place: Place, s: nat, sock: Sock)
    requires Inv(st) && t < |st.threads| && s in st.socks
    requires st.threads[t].At? ==> st.threads[t].s == s
    requires place.At? ==> place.s == s && PlaceOk(place, t, sock)
    requires st.socks[s].state == Busy ==> st.socks[s].holder == Some(t)
    requires if place.At? && InSection(place.stage) then sock.state == Busy && sock.holder == Some(t)
             else sock.state != Busy && sock.holder == None
    requires sock.dropper == st.socks[s].dropper && (sock.dropper.Some? ==> sock.dropper == Some(t))
    requires sock.handle == st.socks[s].handle && (sock.state == Connected ==> sock.handle.Some?)
    requires Claim(st.threads[t := place], sock) == Claim(st.threads, st.socks[s])
    ensures Inv(Put(st, t, place, s, sock))
  {
    SectionMoved(st.threads, st.socks, t, place, s, sock);
    DropsKept(st.threads, st.socks, t, place, s, sock);
    PortsKept(st.threads, st.socks, st.table, t, place, s, sock);
    HandlesKept(st.socks, st.table, st.live, s, sock);
  }

  /** A thread moves outside all sections. */
  lemma MovedOutside(st: State, t: nat, place: Place)
    requires Inv(st) && t < |st.threads|
    requires st.threads[t].At? ==> !InSection(st.threads[t].stage)
    requires place.At? ==> place.s in st.socks && !InSection(place.stage) && PlaceOk(place, t, st.socks[place.s])
    ensures Inv(Go(st, t, place))
  {
    OutsideMoved(st.threads, st.socks, t, place);
    forall r | r in st.socks
      ensures Claim(st.threads[t := place], st.socks[r]) == Claim(st.threads, st.socks[r])
    {
      assert SockSection(st.threads, st.socks[r], r);
    }
    forall r | r in st.socks
      ensures ClaimOk(st.table, r, Claim(st.threads[t := place], st.socks[r]))
    {
      assert ClaimOk(st.table, r, Claim(st.threads, st.socks[r]));
    }
  }

  /** The thread inside a section holds the socket, and its stage is consistent with it. */
  lemma Holder(st: State, t: nat)
    requires Inv(st) && t < |st.threads| && st.threads[t].At?
    ensures st.threads[t].s in st.socks
    ensures PlaceOk(st.threads[t], t, st.socks[st.threads[t].s])
    ensures InSection(st.threads[t].stage) ==>
              st.socks[st.threads[t].s].state == Busy && st.socks[st.threads[t].s].holder == Some(t)
  {
    var s := st.threads[t].s;
    assert SockSection(st.threads, st.socks[s], s);
  }

  lemma StartKeepsInv(st: State, t: nat, s: nat, op: Op)
    requires Inv(st) && Enabled(st, Start(t, s, op)) && op != Drop
    ensures Inv(Started(st, t, s, op))
  {
    assert SockSection(st.threads, st.socks[s], s);
    var busy := st.socks[s].(state := Busy, holder := Some(t));
    match op
    case Bind => if st.socks[s].state == Closed { Moved(st, t, At(s, Binding, false), s, busy); }
    case Listen => if st.socks[s].state == Closed { Moved(st, t, At(s, ListenEntered, false), s, busy); }
    case Accept => if st.socks[s].state == Listening { MovedOutside(st, t, At(s, AcceptChecked, false)); }
    case Shutdown => MovedOutside(st, t, At(s, ShutFirst, false));
  }

  /** Nobody else refers to a socket that is dropped, so nobody is in its section. */
  lemma DropKeepsInv(st: State, t: nat, s: nat)
    requires Inv(st) && Enabled(st, Start(t, s, Drop))
    ensures Inv(Started(st, t, s, Drop))
  {
    var place, sock := At(s, ShutFirst, true), st.socks[s].(dropper := Some(t));
    assert SockSection(st.threads, st.socks[s], s);
    SectionMoved(st.threads, st.socks, t, place, s, sock);
    PortsKept(st.threads, st.socks, st.table, t, place, s, sock);
    HandlesKept(st.socks, st.table, st.live, s, sock);
    var after := Started(st, t, s, Drop);
    forall u: nat | u < |after.threads| && after.threads[u].At? && after.threads[u].s in after.socks
      ensures PlaceOk(after.threads[u], u, after.socks[after.threads[u].s])
    {
      if u != t {
        assert !Refers(st.threads[u], s);
        assert PlaceOk(st.threads[u], u, st.socks[st.threads[u].s]);
      }
    }
  }

  /** The section of `bind`. */
  lemma BindingKeepsInv(st: State, t: nat, addr: nat, port: Option<nat>)
    requires Inv(st) && Enabled(st, Advance(t, addr, port)) && st.threads[t].stage.Binding?
    ensures Inv(Advanced(st, t, addr, port))
  {
    Holder(st, t);
    var s, place := st.threads[t].s, At(st.threads[t].s, Finish(Closed, Return), st.threads[t].drop);
    var sock := st.socks[s];
    var unbound := sock.addr == 0 && sock.port == 0;
    var bound := if port.Some? && unbound then sock.(addr := addr, port := port.value) else sock;
    Moved(st, t, place, s, bound);
    assert Advanced(st, t, addr, port) == Put(st, t, place, s, bound);
  }

  /** The address writes of `shutdown`. */
  lemma InsideKeepsInv(st: State, t: nat, addr: nat, port: Option<nat>)
    requires Inv(st) && Enabled(st, Advance(t, addr, port))
    requires st.threads[t].stage.StreamEntered? || st.threads[t].stage.ListenerEntered?
    ensures Inv(Advanced(st, t, addr, port))
  {
    Holder(st, t);
    var s, stage := st.threads[t].s, st.threads[t].stage;
    var sock := st.socks[s];
    var to := if stage.StreamEntered? then Finish(Closed, Second) else ListenerCleared(sock.port);
    Moved(st, t, At(s, to, st.threads[t].drop), s, sock.(addr := 0, port := 0));
    assert Advanced(st, t, addr, port) == Put(st, t, At(s, to, st.threads[t].drop), s, sock.(addr := 0, port := 0));
  }

  /** `bound_endpoint` and the port write of `listen`. */
  lemma ListenBindsKeepsInv(st: State, t: nat, addr: nat, port: Option<nat>)
    requires Inv(st) && Enabled(st, Advance(t, addr, port)) && st.threads[t].stage.ListenEntered?
    ensures Inv(Advanced(st, t, addr, port))
  {
    Holder(st, t);
    var s, drop := st.threads[t].s, st.threads[t].drop;
    var sock := st.socks[s];
    assert st.socks[s := sock] == st.socks;
    if sock.port != 0 {
      Moved(st, t, At(s, ListenBound, drop), s, sock);
    } else if port.Some? {
      Moved(st, t, At(s, ListenBound, drop), s, sock.(port := port.value));
    } else {
      Moved(st, t, At(s, Finish(Closed, Return), drop), s, sock);
    }
  }

  lemma FinishKeepsInv(st: State, t: nat, addr: nat, port: Option<nat>)
    requires Inv(st) && Enabled(st, Advance(t, addr, port)) && st.threads[t].stage.Finish?
    ensures Inv(Advanced(st, t, addr, port))
  {
    Holder(st, t);
    var place := st.threads[t];
    var sock := st.socks[place.s];
    Moved(st, t, Followed(place, place.stage.after), place.s, sock.(state := place.stage.to, holder := None));
  }

  /** `shutdown` tries to enter the section for a stream, then the one for a listener. */
  lemma ShutFirstKeepsInv(st: State, t: nat, addr: nat, port: Option<nat>)
    requires Inv(st) && Enabled(st, Advance(t, addr, port)) && st.threads[t].stage.ShutFirst?
    ensures Inv(Advanced(st, t, addr, port))
  {
    Holder(st, t);
    var s, drop := st.threads[t].s, st.threads[t].drop;
    var sock := st.socks[s];
    assert SockSection(st.threads, sock, s);
    if sock.state == Connected {
      Moved(st, t, At(s, StreamEntered, drop), s, sock.(state := Busy, holder := Some(t)));
    } else {
      MovedOutside(st, t, At(s, ShutSecond, drop));
    }
  }

  lemma ShutSecondKeepsInv(st: State, t: nat, addr: nat, port: Option<nat>)
    requires Inv(st) && Enabled(st, Advance(t, addr, port)) && st.threads[t].stage.ShutSecond?
    ensures Inv(Advanced(st, t, addr, port))
  {
    Holder(st, t);
    var s, drop := st.threads[t].s, st.threads[t].drop;
    var sock := st.socks[s];
    assert SockSection(st.threads, sock, s);
    if sock.state == Listening {
      var place, busy := At(s, ListenerEntered, drop), sock.(state := Busy, holder := Some(t));
      assert Claim(st.threads[t := place], busy) == Some(sock.port) == Claim(st.threads, sock);
      Moved(st, t, place, s, busy);
      assert Advanced(st, t, addr, port) == Put(st, t, place, s, busy);
    } else {
      MovedOutside(st, t, At(s, ShutLast, drop));
      assert Advanced(st, t, addr, port) == Go(st, t, At(s, ShutLast, drop));
    }
  }

  /** `shutdown` after its sections, and the address read of `accept`. */
  lemma OutsideKeepsInv(st: State, t: nat, addr: nat, port: Option<nat>)
    requires Inv(st) && Enabled(st, Advance(t, addr, port)) && !InSection(st.threads[t].stage)
    requires !st.threads[t].stage.ShutFirst? && !st.threads[t].stage.ShutSecond?
    requires st.threads[t].stage.ShutLast? ==> !st.threads[t].drop
    ensures Inv(Advanced(st, t, addr, port))
  {
    Holder(st, t);
    var place := st.threads[t];
    if place.stage.ShutLast? {
      MovedOutside(st, t, Idle);
    } else {
      MovedOutside(st, t, At(place.s, AcceptFrom(st.socks[place.s].port), place.drop));
    }
  }

  // ----- steps that change the port table

  /** `ListenTable::listen` on a free port: the socket comes to claim it. */
  lemma ListenGains(threads: Threads, socks: Socks, table: Table, t: nat, place: Place, s: nat, p: nat, addr: nat)
    requires SectionsOk(threads, socks) && PortsOk(threads, socks, table) && t < |threads| && s in socks
    requires threads[t].At? && threads[t].s == s && p !in table
    requires Claim(threads, socks[s]) == None && Claim(threads[t := place], socks[s]) == Some(p)
    ensures PortsOk(threads[t := place], socks, table[p := Entry(addr, [], s)])
  {
    var threads', table' := threads[t := place], table[p := Entry(addr, [], s)];
    forall r | r in socks
      ensures r != s ==> Claim(threads', socks[r]) == Claim(threads, socks[r])
      ensures ClaimOk(table', r, Claim(threads', socks[r]))
    {
      assert ClaimOk(table, r, Claim(threads, socks[r]));
      if r != s {
        OtherClaim(threads, socks, t, place, s, r);
      }
    }
  }

  /** `ListenTable::unlisten`: the entry it clears is the one its socket inserted. */
  lemma UnlistenLoses(threads: Threads, socks: Socks, table: Table, t: nat, place: Place, s: nat, p: nat)
    requires SectionsOk(threads, socks) && PortsOk(threads, socks, table) && t < |threads| && s in socks
    requires threads[t].At? && threads[t].s == s
    requires Claim(threads, socks[s]) == Some(p) && Claim(threads[t := place], socks[s]) == None
    ensures p in table && table[p].owner == s
    ensures PortsOk(threads[t := place], socks, table - {p})
  {
    var threads', table' := threads[t := place], table - {p};
    assert ClaimOk(table, s, Claim(threads, socks[s]));
    forall r | r in socks
      ensures r != s ==> Claim(threads', socks[r]) == Claim(threads, socks[r])
      ensures ClaimOk(table', r, Claim(threads', socks[r]))
    {
      assert ClaimOk(table, r, Claim(threads, socks[r]));
      if r != s {
        OtherClaim(threads, socks, t, place, s, r);
      }
    }
  }

  lemma EmptyQueueAdded(socks: Socks, table: Table, live: Live, p: nat, addr: nat, s: nat)
    requires HandlesOk(socks, table, live) && p !in table
    ensures HandlesOk(socks, table[p := Entry(addr, [], s)], live)
  {
    var table' := table[p := Entry(addr, [], s)];
    forall h | h in live
      ensures AtHome(socks, table', h, live[h])
    {
      assert AtHome(socks, table, h, live[h]);
    }
    forall q | q in table'
      ensures QueueOk(table'[q].queue, q, live)
    {
      assert q != p ==> QueueOk(table[q].queue, q, live);
    }
  }

  lemma QueueDropped(socks: Socks, table: Table, live: Live, p: nat)
    requires HandlesOk(socks, table, live)
    ensures HandlesOk(socks, table - {p}, WithoutQueue(live, p))
  {
    var table', live' := table - {p}, WithoutQueue(live, p);
    forall h | h in live'
      ensures AtHome(socks, table', h, live'[h])
    {
      assert AtHome(socks, table, h, live[h]);
    }
    forall q | q in table'
      ensures QueueOk(table'[q].queue, q, live')
    {
      assert QueueOk(table[q].queue, q, live);
    }
  }

  lemma ListenKeepsInv(st: State, t: nat, addr: nat, port: Option<nat>)
    requires Inv(st) && Enabled(st, Advance(t, addr, port)) && st.threads[t].stage.ListenBound?
    ensures Inv(Advanced(st, t, addr, port))
  {
    Holder(st, t);
    var s, drop := st.threads[t].s, st.threads[t].drop;
    var sock := st.socks[s];
    assert st.socks[s := sock] == st.socks;
    if sock.port in st.table {
      Moved(st, t, At(s, Finish(Closed, Return), drop), s, sock);
    } else {
      var place := At(s, Finish(Listening, Return), drop);
      SectionMoved(st.threads, st.socks, t, place, s, sock);
      DropsKept(st.threads, st.socks, t, place, s, sock);
      ListenGains(st.threads, st.socks, st.table, t, place, s, sock.port, sock.addr);
      EmptyQueueAdded(st.socks, st.table, st.live, sock.port, sock.addr, s);
    }
  }

  lemma UnlistenKeepsInv(st: State, t: nat, addr: nat, port: Option<nat>)
    requires Inv(st) && Enabled(st, Advance(t, addr, port)) && st.threads[t].stage.ListenerCleared?
    ensures Inv(Advanced(st, t, addr, port))
  {
    Holder(st, t);
    var s, drop, p := st.threads[t].s, st.threads[t].drop, st.threads[t].stage.port;
    var sock := st.socks[s];
    assert st.socks[s := sock] == st.socks;
    var place := At(s, Finish(Closed, Last), drop);
    SectionMoved(st.threads, st.socks, t, place, s, sock);
    DropsKept(st.threads, st.socks, t, place, s, sock);
    UnlistenLoses(st.threads, st.socks, st.table, t, place, s, p);
    QueueDropped(st.socks, st.table, st.live, p);
  }

  // ----- steps that create and remove sockets

  /** A socket whose drop has got through `shutdown` is CLOSED, claims no port, and only its handle remains. */
  lemma RemoveKeepsInv(st: State, t: nat, addr: nat, port: Option<nat>)
    requires Inv(st) && Enabled(st, Advance(t, addr, port)) && st.threads[t].stage.ShutLast? && st.threads[t].drop
    ensures Inv(Advanced(st, t, addr, port))
  {
    Holder(st, t);
    var s := st.threads[t].s;
    forall u: nat | u < |st.threads| && u != t
      ensures !Refers(st.threads[u], s)
    {
      if Refers(st.threads[u], s) {
        Holder(st, u);
      }
    }
    SocketRemovedSections(st.threads, st.socks, t, s);
    SocketRemovedDrops(st.threads, st.socks, t, s);
    SocketRemovedPorts(st.threads, st.socks, st.table, t, s);
    SocketRemovedHandles(st.socks, st.table, st.live, s);
  }

  lemma SocketRemovedSections(threads: Threads, socks: Socks, t: nat, s: nat)
    requires SectionsOk(threads, socks) && t < |threads| && s in socks && Refers(threads[t], s)
    requires forall u: nat | u < |threads| && u != t :: !Refers(threads[u], s)
    ensures SectionsOk(threads[t := Idle], socks - {s})
  {
    forall r | r in socks - {s}
      ensures SockSection(threads[t := Idle], socks[r], r)
    {
      assert SockSection(threads, socks[r], r);
    }
  }

  lemma SocketRemovedDrops(threads: Threads, socks: Socks, t: nat, s: nat)
    requires DropsOk(threads, socks) && t < |threads|
    ensures DropsOk(threads[t := Idle], socks - {s})
  {
    forall u: nat | u < |threads| && u != t && threads[u].At? && threads[u].s in socks - {s}
      ensures PlaceOk(threads[u], u, socks[threads[u].s])
    {
    }
  }

  lemma SocketRemovedPorts(threads: Threads, socks: Socks, table: Table, t: nat, s: nat)
    requires SectionsOk(threads, socks) && PortsOk(threads, socks, table)
    requires t < |threads| && s in socks && Refers(threads[t], s) && Claim(threads, socks[s]) == None
    ensures PortsOk(threads[t := Idle], socks - {s}, table)
  {
    var threads', socks' := threads[t := Idle], socks - {s};
    forall r | r in socks'
      ensures Claim(threads', socks'[r]) == Claim(threads, socks[r])
      ensures ClaimOk(table, r, Claim(threads', socks'[r]))
    {
      assert ClaimOk(table, r, Claim(threads, socks[r]));
      OtherClaim(threads, socks, t, Idle, s, r);
    }
  }

  lemma SocketRemovedHandles(socks: Socks, table: Table, live: Live, s: nat)
    requires HandlesOk(socks, table, live) && s in socks
    ensures var live' := if socks[s].handle.Some? then live - {socks[s].handle.value} else live;
            HandlesOk(socks - {s}, table, live')
  {
    var live' := if socks[s].handle.Some? then live - {socks[s].handle.value} else live;
    forall h | h in live'
      ensures AtHome(socks - {s}, table, h, live'[h])
    {
      assert AtHome(socks, table, h, live[h]);
    }
    forall q | q in table
      ensures QueueOk(table[q].queue, q, live')
    {
      assert QueueOk(table[q].queue, q, live);
    }
  }

  /** A new socket outside all sections, with no claim, on behalf of a thread outside all sections. */
  lemma SocketAdded(threads: Threads, socks: Socks, table: Table, s: nat, sock: Sock)
    requires SectionsOk(threads, socks) && DropsOk(threads, socks) && PortsOk(threads, socks, table) && s !in socks
    requires (sock.state == Closed || sock.state == Connected) && sock.holder == None
    ensures SectionsOk(threads, socks[s := sock]) && DropsOk(threads, socks[s := sock])
    ensures PortsOk(threads, socks[s := sock], table)
  {
    var socks' := socks[s := sock];
    forall r | r in socks'
      ensures SockSection(threads, socks'[r], r)
      ensures ClaimOk(table, r, Claim(threads, socks'[r]))
    {
      assert r != s ==> SockSection(threads, socks[r], r);
      assert r != s ==> ClaimOk(table, r, Claim(threads, socks[r]));
    }
  }

  lemma CreateKeepsInv(st: State, s: nat)
    requires Inv(st) && Enabled(st, Create(s))
    ensures Inv(Next(st, Create(s)))
  {
    var sock := Sock(Closed, 0, 0, None, None, None);
    SocketAdded(st.threads, st.socks, st.table, s, sock);
    forall h | h in st.live
      ensures AtHome(st.socks[s := sock], st.table, h, st.live[h])
    {
      assert AtHome(st.socks, st.table, h, st.live[h]);
    }
    forall q | q in st.table
      ensures QueueOk(st.table[q].queue, q, st.live)
    {
    }
  }

  // ----- steps that change a SYN queue

  /** `swap_remove_front` takes out the element at `i` and no other. */
  lemma SwapRemoved(queue: seq<nat>, i: nat)
    requires i < |queue| && forall j, k | 0 <= j < k < |queue| :: queue[j] != queue[k]
    ensures var r := SwapRemoveFront(queue, i);
            && |r| == |queue| - 1 && queue[i] !in r
            && (forall j, k | 0 <= j < k < |r| :: r[j] != r[k])
            && (forall h | h in queue && h != queue[i] :: h in r)
            && (forall h | h in r :: h in queue)
  {
    var r := SwapRemoveFront(queue, i);
    forall h | h in queue && h != queue[i]
      ensures h in r
    {
      var k :| 0 <= k < |queue| && queue[k] == h;
      assert if k == 0 then r[i - 1] == h else r[k - 1] == h;
    }
  }

  /** An accepted handle moves from its queue to the new socket. */
  lemma HandleTaken(socks: Socks, table: Table, live: Live, p: nat, i: nat, s: nat, sock: Sock)
    requires HandlesOk(socks, table, live) && p in table && i < |table[p].queue| && s !in socks
    requires sock.handle == Some(table[p].queue[i])
    ensures HandlesOk(socks[s := sock], Popped(table, p, i),
                      live[table[p].queue[i] := InSocket(s)])
  {
    var queue := table[p].queue;
    assert QueueOk(queue, p, live);
    SwapRemoved(queue, i);
    var r := SwapRemoveFront(queue, i);
    var socks', table', live' := socks[s := sock], table[p := table[p].(queue := r)], live[queue[i] := InSocket(s)];
    forall h | h in live'
      ensures AtHome(socks', table', h, live'[h])
    {
      assert h != queue[i] ==> AtHome(socks, table, h, live[h]);
    }
    forall q | q in table'
      ensures QueueOk(table'[q].queue, q, live')
    {
      assert QueueOk(table[q].queue, q, live);
      if q == p {
        forall k | 0 <= k < |r|
          ensures r[k] in live' && live'[r[k]] == InQueue(p)
        {
          assert r[k] in r;
        }
      }
    }
  }

  lemma TakeKeepsInv(st: State, t: nat, connected: set<nat>, s: nat, addr: nat, lport: nat)
    requires Inv(st) && Enabled(st, Take(t, connected, s, addr, lport))
    ensures Inv(Taken(st, t, connected, s, addr, lport))
  {
    MovedOutside(st, t, Idle);
    var p := st.threads[t].stage.port;
    if p in st.table {
      var i := FirstConnected(st.table[p].queue, connected);
      if i < |st.table[p].queue| {
        var sock := Sock(Connected, addr, lport, Some(st.table[p].queue[i]), None, None);
        SocketAdded(st.threads[t := Idle], st.socks, st.table, s, sock);
        HandleTaken(st.socks, st.table, st.live, p, i, s, sock);
        SameOwners(st.threads[t := Idle], st.socks[s := sock], st.table, p, SwapRemoveFront(st.table[p].queue, i));
      }
    }
  }

  lemma SameOwners(threads: Threads, socks: Socks, table: Table, p: nat, queue: seq<nat>)
    requires PortsOk(threads, socks, table) && p in table
    ensures PortsOk(threads, socks, table[p := table[p].(queue := queue)])
  {
    forall r | r in socks
      ensures ClaimOk(table[p := table[p].(queue := queue)], r, Claim(threads, socks[r]))
    {
      assert ClaimOk(table, r, Claim(threads, socks[r]));
    }
  }

  lemma HandleQueued(socks: Socks, table: Table, live: Live, p: nat, handle: nat)
    requires HandlesOk(socks, table, live) && p in table && |table[p].queue| < LISTEN_QUEUE_SIZE && handle !in live
    ensures HandlesOk(socks, Pushed(table, p, handle), live[handle := InQueue(p)])
  {
    var queue' := table[p].queue + [handle];
    var table', live' := table[p := table[p].(queue := queue')], live[handle := InQueue(p)];
    forall h | h in live'
      ensures AtHome(socks, table', h, live'[h])
    {
      assert h != handle ==> AtHome(socks, table, h, live[h]);
    }
    forall q | q in table'
      ensures QueueOk(table'[q].queue, q, live')
    {
      assert QueueOk(table[q].queue, q, live);
    }
  }

  lemma IncomingKeepsInv(st: State, port: nat, dst: nat, handle: nat)
    requires Inv(st) && Enabled(st, Incoming(port, dst, handle))
    ensures Inv(Arrived(st, port, dst, handle))
  {
    if Welcome(st.table, port, dst) {
      HandleQueued(st.socks, st.table, st.live, port, handle);
      SameOwners(st.threads, st.socks, st.table, port, st.table[port].queue + [handle]);
    }
  }

  /** A packet becomes a handle exactly when someone listens on its port, on any address or on the one it is for, and
      has fewer than 512 waiting; then it is the last of that queue, and nothing else changes. */
  lemma IncomingExactly(st: State, port: nat, dst: nat, handle: nat)
    ensures var after := Arrived(st, port, dst, handle);
            if && port in st.table && (st.table[port].addr == 0 || st.table[port].addr == dst)
               && |st.table[port].queue| < 512
            then
              && after.threads == st.threads && after.socks == st.socks
              && after.live == st.live[handle := InQueue(port)]
              && after.table.Keys == st.table.Keys && after.table[port].queue == st.table[port].queue + [handle]
              && after.table[port].addr == st.table[port].addr && after.table[port].owner == st.table[port].owner
              && forall p | p in st.table && p != port :: after.table[p] == st.table[p]
            else after == st
  {
  }

  // ----- every run

  lemma AdvanceKeepsInv(st: State, t: nat, addr: nat, port: Option<nat>)
    requires Inv(st) && Enabled(st, Advance(t, addr, port))
    ensures Inv(Advanced(st, t, addr, port))
  {
    var place := st.threads[t];
    if place.stage.ListenBound? {
      ListenKeepsInv(st, t, addr, port);
    } else if place.stage.ListenerCleared? {
      UnlistenKeepsInv(st, t, addr, port);
    } else if place.stage.Finish? {
      FinishKeepsInv(st, t, addr, port);
    } else if place.stage.ListenEntered? {
      ListenBindsKeepsInv(st, t, addr, port);
    } else if place.stage.Binding? {
      BindingKeepsInv(st, t, addr, port);
    } else if InSection(place.stage) {
      InsideKeepsInv(st, t, addr, port);
    } else if place.stage.ShutFirst? {
      ShutFirstKeepsInv(st, t, addr, port);
    } else if place.stage.ShutSecond? {
      ShutSecondKeepsInv(st, t, addr, port);
    } else if place.stage.ShutLast? && place.drop {
      RemoveKeepsInv(st, t, addr, port);
    } else {
      OutsideKeepsInv(st, t, addr, port);
    }
  }

  lemma StepKeepsInv(st: State, step: Step)
    requires Inv(st) && Enabled(st, step)
    ensures Inv(Next(st, step))
  {
    match step
    case Create(s) => CreateKeepsInv(st, s);
    case Start(t, s, op) =>
      if op == Drop {
        DropKeepsInv(st, t, s);
      } else {
        StartKeepsInv(st, t, s, op);
      }
    case Advance(t, addr, port) => AdvanceKeepsInv(st, t, addr, port);
    case Take(t, connected, s, addr, lport) => TakeKeepsInv(st, t, connected, s, addr, lport);
    case GiveUp(t) => MovedOutside(st, t, Idle);
    case Incoming(port, dst, handle) => IncomingKeepsInv(st, port, dst, handle);
  }

  /** Any number of idle threads, no sockets, an empty table. */
  predicate Initial(st: State) {
    && (forall t | 0 <= t < |st.threads| :: st.threads[t].Idle?)
    && st.socks == map[] && st.table == map[] && st.live == map[]
  }

  predicate IsRun(st: State, steps: seq<Step>)
    decreases |steps|
  {
    steps == [] || (Enabled(st, steps[0]) && IsRun(Next(st, steps[0]), steps[1..]))
  }

  function RunFrom(st: State, steps: seq<Step>): State
    requires IsRun(st, steps)
    decreases |steps|
  {
    if steps == [] then st else RunFrom(Next(st, steps[0]), steps[1..])
  }

  lemma {:induction false} RunKeepsInv(st: State, steps: seq<Step>)
    requires Inv(st) && IsRun(st, steps)
    ensures Inv(RunFrom(st, steps))
    decreases |steps|
  {
    if steps != [] {
      StepKeepsInv(st, steps[0]);
      RunKeepsInv(Next(st, steps[0]), steps[1..]);
    }
  }

  // ----- what the invariant means, without the history

  /** Socket `s` answers for port `p`: it listens on it, or a thread is inside the section of its `listen` or
      `shutdown` between inserting and clearing the entry. */
  ghost predicate Claims(st: State, s: nat, p: nat) {
    && s in st.socks
    && ((st.socks[s].state == Listening && st.socks[s].port == p) ||
        exists t: nat :: t < |st.threads| && Refers(st.threads[t], s)
                  && StageClaim(st.threads[t].stage, st.socks[s]) == Some(p))
  }

  lemma ClaimsIsClaim(st: State, s: nat, p: nat)
    requires Inv(st)
    ensures Claims(st, s, p) <==> s in st.socks && Claim(st.threads, st.socks[s]) == Some(p)
  {
    if s in st.socks {
      assert SockSection(st.threads, st.socks[s], s);
      forall t: nat | t < |st.threads| && Refers(st.threads[t], s) && InSection(st.threads[t].stage)
        ensures st.socks[s].state == Busy && st.socks[s].holder == Some(t)
      {
        Holder(st, t);
      }
    }
  }

  /** A port is occupied exactly when a socket answers for it, and never more than one does. */
  lemma OccupiedIffClaimed(st: State, p: nat)
    requires Inv(st)
    ensures p in st.table <==> exists s: nat :: Claims(st, s, p)
    ensures forall s: nat, r: nat | Claims(st, s, p) && Claims(st, r, p) :: s == r
  {
    forall s: nat | Claims(st, s, p)
      ensures p in st.table && st.table[p].owner == s
    {
      ClaimsIsClaim(st, s, p);
      assert ClaimOk(st.table, s, Claim(st.threads, st.socks[s]));
    }
    if p in st.table {
      ClaimsIsClaim(st, st.table[p].owner, p);
    }
  }

  /** A socket is BUSY exactly while some thread is inside its section, and then only one is. */
  lemma BusyIffOneInside(st: State, s: nat)
    requires Inv(st) && s in st.socks
    ensures st.socks[s].state == Busy <==>
            exists t: nat :: t < |st.threads| && Refers(st.threads[t], s) && InSection(st.threads[t].stage)
    ensures forall t: nat, u: nat | t < |st.threads| && u < |st.threads|
                                    && Refers(st.threads[t], s) && Refers(st.threads[u], s)
                                    && InSection(st.threads[t].stage) && InSection(st.threads[u].stage) :: t == u
  {
    assert SockSection(st.threads, st.socks[s], s);
    forall t: nat | t < |st.threads| && Refers(st.threads[t], s) && InSection(st.threads[t].stage)
      ensures st.socks[s].state == Busy && st.socks[s].holder == Some(t)
    {
      Holder(st, t);
    }
  }

  /** The entry that `shutdown` is about to clear exists and no other socket answers for it. */
  lemma ShutdownFreesItsOwn(st: State, t: nat)
    requires Inv(st) && t < |st.threads| && st.threads[t].At? && st.threads[t].stage.ListenerCleared?
    ensures st.threads[t].stage.port in st.table
    ensures forall r: nat | Claims(st, r, st.threads[t].stage.port) :: r == st.threads[t].s
  {
    Holder(st, t);
    var s, p := st.threads[t].s, st.threads[t].stage.port;
    ClaimsIsClaim(st, s, p);
    OccupiedIffClaimed(st, p);
  }

  /** Position `i` of the SYN queue of port `p` holds `h`. */
  ghost predicate Queued(st: State, h: nat, p: nat, i: nat) {
    p in st.table && i < |st.table[p].queue| && st.table[p].queue[i] == h
  }

  ghost predicate Accepted(st: State, h: nat, s: nat) {
    s in st.socks && st.socks[s].handle == Some(h)
  }

  /** Every handle in the socket set is in one position of one SYN queue or in one socket, never both; nothing
      else is in the queues and sockets, and no queue is longer than the limit. */
  lemma OneHome(st: State, h: nat)
    requires Inv(st)
    ensures h in st.live <==> (exists p: nat, i: nat :: Queued(st, h, p, i)) || (exists s: nat :: Accepted(st, h, s))
    ensures forall p: nat, i: nat, q: nat, j: nat | Queued(st, h, p, i) && Queued(st, h, q, j) :: p == q && i == j
    ensures forall s: nat, r: nat | Accepted(st, h, s) && Accepted(st, h, r) :: s == r
    ensures forall p: nat, i: nat, s: nat | Queued(st, h, p, i) :: !Accepted(st, h, s)
    ensures forall p | p in st.table :: |st.table[p].queue| <= LISTEN_QUEUE_SIZE
  {
    forall p | p in st.table
      ensures QueueOk(st.table[p].queue, p, st.live)
    {
    }
    if h in st.live {
      assert AtHome(st.socks, st.table, h, st.live[h]);
      match st.live[h]
      case InQueue(p) =>
        var i: nat :| i < |st.table[p].queue| && st.table[p].queue[i] == h;
        assert Queued(st, h, p, i);
      case InSocket(s) =>
        assert Accepted(st, h, s);
    }
  }

  /** A stream socket has its handle when it is shut down, so reading it cannot fail. */
  lemma StreamHasHandle(st: State, t: nat)
    requires Inv(st) && t < |st.threads| && st.threads[t].At? && st.threads[t].stage.StreamEntered?
    ensures st.threads[t].s in st.socks && st.socks[st.threads[t].s].handle.Some?
  {
    Holder(st, t);
  }

  /** A dropped socket leaves no entry behind. */
  lemma DropLeavesNoEntry(st: State, t: nat, p: nat)
    requires Inv(st) && t < |st.threads| && st.threads[t].At? && st.threads[t].stage.ShutLast? && st.threads[t].drop
    ensures !Claims(st, st.threads[t].s, p) && (p in st.table ==> st.table[p].owner != st.threads[t].s)
  {
    Holder(st, t);
    ClaimsIsClaim(st, st.threads[t].s, p);
  }

  /** All of it, for every run from the start. */
  lemma ListeningOwnership(start: State, steps: seq<Step>)
    requires Initial(start) && IsRun(start, steps)
    ensures var st := RunFrom(start, steps);
            && Inv(st)
            && (forall p: nat :: p in st.table <==> exists s: nat :: Claims(st, s, p))
            && (forall p: nat, s: nat, r: nat | Claims(st, s, p) && Claims(st, r, p) :: s == r)
  {
    assert Inv(start);
    RunKeepsInv(start, steps);
    var st := RunFrom(start, steps);
    forall p: nat
      ensures p in st.table <==> exists s: nat :: Claims(st, s, p)
      ensures forall s: nat, r: nat | Claims(st, s, p) && Claims(st, r, p) :: s == r
    {
      OccupiedIffClaimed(st, p);
    }
  }

  // ----- whole calls by one thread, and an accept that crosses over

  lemma {:induction false} RunConcat(st: State, a: seq<Step>, b: seq<Step>)
    requires IsRun(st, a) && IsRun(RunFrom(st, a), b)
    ensures IsRun(st, a + b) && RunFrom(st, a + b) == RunFrom(RunFrom(st, a), b)
    decreases |a|
  {
    if a == [] {
      assert a + b == b;
    } else {
      RunConcat(Next(st, a[0]), a[1..], b);
      assert (a + b)[0] == a[0] && (a + b)[1..] == a[1..] + b;
    }
  }

  /** Thread `t` goes on alone for `n` actions, with the given endpoint. */
  function Alone(t: nat, addr: nat, port: Option<nat>, n: nat): seq<Step> {
    if n == 0 then [] else [Advance(t, addr, port)] + Alone(t, addr, port, n - 1)
  }

  lemma AloneStep(st: State, t: nat, addr: nat, port: Option<nat>, n: nat)
    requires n > 0 && Enabled(st, Advance(t, addr, port))
    ensures IsRun(st, Alone(t, addr, port, n)) <==> IsRun(Advanced(st, t, addr, port), Alone(t, addr, port, n - 1))
    ensures IsRun(st, Alone(t, addr, port, n)) ==>
              RunFrom(st, Alone(t, addr, port, n)) == RunFrom(Advanced(st, t, addr, port), Alone(t, addr, port, n - 1))
  {
    assert Alone(t, addr, port, n)[1..] == Alone(t, addr, port, n - 1);
    assert Next(st, Advance(t, addr, port)) == Advanced(st, t, addr, port);
  }

  /** An undisturbed `bind` of an unbound socket gives it the endpoint. */
  lemma BindAlone(st: State, t: nat, s: nat, addr: nat, port: nat)
    requires Enabled(st, Start(t, s, Bind)) && port != 0
    requires st.socks[s].state == Closed && st.socks[s].holder == None && st.socks[s].addr == 0 && st.socks[s].port == 0
    ensures var steps := [Start(t, s, Bind)] + Alone(t, addr, Some(port), 2);
            && IsRun(st, steps)
            && RunFrom(st, steps) == st.(socks := st.socks[s := st.socks[s].(addr := addr, port := port)])
  {
    var steps := [Start(t, s, Bind)] + Alone(t, addr, Some(port), 2);
    var st1 := Started(st, t, s, Bind);
    assert steps[1..] == Alone(t, addr, Some(port), 2);
    AloneStep(st1, t, addr, Some(port), 2);
    var st2 := Advanced(st1, t, addr, Some(port));
    AloneStep(st2, t, addr, Some(port), 1);
    var st3 := Advanced(st2, t, addr, Some(port));
    assert st3.threads == st.threads;
    assert st3.socks == st.socks[s := st.socks[s].(addr := addr, port := port)];
  }

  lemma ListenEnters(st: State, t: nat, s: nat)
    requires Enabled(st, Start(t, s, Listen)) && st.socks[s].state == Closed && st.socks[s].port != 0
    ensures var steps := [Start(t, s, Listen)] + Alone(t, 0, None, 1);
            IsRun(st, steps) && RunFrom(st, steps) == Enter(st, t, s, ListenBound, false)
  {
    var steps := [Start(t, s, Listen)] + Alone(t, 0, None, 1);
    var st1 := Started(st, t, s, Listen);
    assert steps[1..] == Alone(t, 0, None, 1);
    AloneStep(st1, t, 0, None, 1);
    assert Advanced(st1, t, 0, None).threads == Enter(st, t, s, ListenBound, false).threads;
  }

  function ListenSteps(t: nat, s: nat): seq<Step> {
    [Start(t, s, Listen)] + Alone(t, 0, None, 1) + Alone(t, 0, None, 2)
  }

  /** An undisturbed `listen` on a bound socket whose port is free. */
  lemma ListenAlone(st: State, t: nat, s: nat)
    requires Enabled(st, Start(t, s, Listen)) && st.socks[s].state == Closed && st.socks[s].holder == None
    requires st.socks[s].port != 0 && st.socks[s].port !in st.table
    ensures IsRun(st, ListenSteps(t, s))
    ensures RunFrom(st, ListenSteps(t, s)) ==
            st.(socks := st.socks[s := st.socks[s].(state := Listening)],
                table := st.table[st.socks[s].port := Entry(st.socks[s].addr, [], s)])
  {
    ListenEnters(st, t, s);
    var inside := Enter(st, t, s, ListenBound, false);
    ListenLeaves(inside, t, s);
    Extend(st, [Start(t, s, Listen)] + Alone(t, 0, None, 1), inside, Alone(t, 0, None, 2));
    assert inside.threads[t := Idle] == st.threads;
    assert inside.socks[s := inside.socks[s].(state := Listening, holder := None)]
        == st.socks[s := st.socks[s].(state := Listening)];
  }

  lemma ListenLeaves(st: State, t: nat, s: nat)
    requires t < |st.threads| && st.threads[t] == At(s, ListenBound, false)
             && s in st.socks && st.socks[s].port !in st.table
    ensures IsRun(st, Alone(t, 0, None, 2))
    ensures RunFrom(st, Alone(t, 0, None, 2)) ==
            State(st.threads[t := Idle], st.socks[s := st.socks[s].(state := Listening, holder := None)],
                  st.table[st.socks[s].port := Entry(st.socks[s].addr, [], s)], st.live)
  {
    AloneStep(st, t, 0, None, 2);
    var st1 := Advanced(st, t, 0, None);
    AloneStep(st1, t, 0, None, 1);
    assert Advanced(st1, t, 0, None).threads == st.threads[t := Idle];
  }

  /** The first two actions of a `shutdown` of a listening socket lead into its section. */
  lemma ShutdownEnters(st: State, t: nat, s: nat)
    requires Enabled(st, Start(t, s, Shutdown)) && st.socks[s].state == Listening
    ensures var steps := [Start(t, s, Shutdown)] + Alone(t, 0, None, 2);
            && IsRun(st, steps) && RunFrom(st, steps) == Enter(st, t, s, ListenerEntered, false)
  {
    var steps := [Start(t, s, Shutdown)] + Alone(t, 0, None, 2);
    var st1 := Started(st, t, s, Shutdown);
    assert steps[1..] == Alone(t, 0, None, 2);
    AloneStep(st1, t, 0, None, 2);
    var st2 := Advanced(st1, t, 0, None);
    AloneStep(st2, t, 0, None, 1);
    assert Advanced(st2, t, 0, None).threads == Enter(st, t, s, ListenerEntered, false).threads;
  }

  lemma ShutdownClears(st: State, t: nat, s: nat)
    requires t < |st.threads| && st.threads[t] == At(s, ListenerEntered, false) && s in st.socks
    ensures IsRun(st, Alone(t, 0, None, 2))
    ensures RunFrom(st, Alone(t, 0, None, 2)) ==
            State(st.threads[t := At(s, Finish(Closed, Last), false)],
                  st.socks[s := st.socks[s].(addr := 0, port := 0)],
                  st.table - {st.socks[s].port}, WithoutQueue(st.live, st.socks[s].port))
  {
    AloneStep(st, t, 0, None, 2);
    var st1 := Advanced(st, t, 0, None);
    AloneStep(st1, t, 0, None, 1);
    assert Advanced(st1, t, 0, None).threads == st.threads[t := At(s, Finish(Closed, Last), false)];
  }

  lemma ShutdownEnds(st: State, t: nat, s: nat)
    requires t < |st.threads| && st.threads[t] == At(s, Finish(Closed, Last), false) && s in st.socks
    ensures IsRun(st, Alone(t, 0, None, 2))
    ensures RunFrom(st, Alone(t, 0, None, 2)) ==
            st.(threads := st.threads[t := Idle], socks := st.socks[s := st.socks[s].(state := Closed, holder := None)])
  {
    AloneStep(st, t, 0, None, 2);
    var st1 := Advanced(st, t, 0, None);
    AloneStep(st1, t, 0, None, 1);
    assert Advanced(st1, t, 0, None).threads == st.threads[t := Idle];
  }

  /** An undisturbed `shutdown` of a listening socket. */
  function ShutdownSteps(t: nat, s: nat): seq<Step> {
    [Start(t, s, Shutdown)] + Alone(t, 0, None, 2) + Alone(t, 0, None, 2) + Alone(t, 0, None, 2)
  }

  lemma ShutdownCleared(st: State, t: nat, s: nat)
    requires Enabled(st, Start(t, s, Shutdown)) && st.socks[s].state == Listening
    ensures var steps := [Start(t, s, Shutdown)] + Alone(t, 0, None, 2) + Alone(t, 0, None, 2);
            && IsRun(st, steps)
            && RunFrom(st, steps) ==
               State(st.threads[t := At(s, Finish(Closed, Last), false)],
                     st.socks[s := st.socks[s].(state := Busy, holder := Some(t), addr := 0, port := 0)],
                     st.table - {st.socks[s].port}, WithoutQueue(st.live, st.socks[s].port))
  {
    ShutdownEnters(st, t, s);
    var inside := Enter(st, t, s, ListenerEntered, false);
    ShutdownClears(inside, t, s);
    Extend(st, [Start(t, s, Shutdown)] + Alone(t, 0, None, 2), inside, Alone(t, 0, None, 2));
    assert inside.threads[t := At(s, Finish(Closed, Last), false)]
        == st.threads[t := At(s, Finish(Closed, Last), false)];
    assert inside.socks[s := inside.socks[s].(addr := 0, port := 0)]
        == st.socks[s := st.socks[s].(state := Busy, holder := Some(t), addr := 0, port := 0)];
  }

  /** It undoes `bind` and `listen`: the socket is as new and its port free. */
  lemma ShutdownAlone(st: State, t: nat, s: nat)
    requires Enabled(st, Start(t, s, Shutdown)) && st.socks[s].state == Listening
    ensures IsRun(st, ShutdownSteps(t, s))
    ensures RunFrom(st, ShutdownSteps(t, s)) ==
            State(st.threads, st.socks[s := st.socks[s].(state := Closed, addr := 0, port := 0, holder := None)],
                  st.table - {st.socks[s].port}, WithoutQueue(st.live, st.socks[s].port))
  {
    ShutdownCleared(st, t, s);
    var steps := [Start(t, s, Shutdown)] + Alone(t, 0, None, 2) + Alone(t, 0, None, 2);
    var cleared := RunFrom(st, steps);
    ShutdownEnds(cleared, t, s);
    Extend(st, steps, cleared, Alone(t, 0, None, 2));
    assert cleared.threads[t := Idle] == st.threads;
    assert cleared.socks[s := cleared.socks[s].(state := Closed, holder := None)]
        == st.socks[s := st.socks[s].(state := Closed, addr := 0, port := 0, holder := None)];
  }

  // ----- calls that are refused, and the other whole calls

  /** A call on a socket in the wrong state is refused at once and changes nothing. */
  lemma StartRefused(st: State, t: nat, s: nat, op: Op)
    requires Enabled(st, Start(t, s, op))
    requires match op
             case Bind => st.socks[s].state != Closed
             case Listen => st.socks[s].state != Closed
             case Accept => st.socks[s].state != Listening
             case _ => false
    ensures Next(st, Start(t, s, op)) == st
  {
  }

  /** `bind` of a socket that is bound, or without a port to be had, leaves everything as it was. */
  lemma BindRefused(st: State, t: nat, s: nat, addr: nat, port: Option<nat>)
    requires Enabled(st, Start(t, s, Bind)) && port != Some(0)
    requires st.socks[s].state == Closed && st.socks[s].holder == None
    requires port.None? || st.socks[s].addr != 0 || st.socks[s].port != 0
    ensures var steps := [Start(t, s, Bind)] + Alone(t, addr, port, 2);
            IsRun(st, steps) && RunFrom(st, steps) == st
  {
    var steps := [Start(t, s, Bind)] + Alone(t, addr, port, 2);
    var st1 := Started(st, t, s, Bind);
    assert steps[1..] == Alone(t, addr, port, 2);
    AloneStep(st1, t, addr, port, 2);
    var st2 := Advanced(st1, t, addr, port);
    AloneStep(st2, t, addr, port, 1);
    var st3 := Advanced(st2, t, addr, port);
    assert st3.threads == st.threads && st3.socks == st.socks;
  }

  /** The first two actions of `listen` on a socket without a port: the chosen port becomes its own. */
  lemma ListenChooses(st: State, t: nat, s: nat, port: nat)
    requires Enabled(st, Start(t, s, Listen)) && st.socks[s].state == Closed && st.socks[s].port == 0 && port != 0
    ensures var steps := [Start(t, s, Listen)] + Alone(t, 0, Some(port), 1);
            && IsRun(st, steps)
            && RunFrom(st, steps) ==
               st.(threads := st.threads[t := At(s, ListenBound, false)],
                   socks := st.socks[s := st.socks[s].(port := port, state := Busy, holder := Some(t))])
  {
    var steps := [Start(t, s, Listen)] + Alone(t, 0, Some(port), 1);
    var st1 := Started(st, t, s, Listen);
    assert steps[1..] == Alone(t, 0, Some(port), 1);
    AloneStep(st1, t, 0, Some(port), 1);
    var st2 := Advanced(st1, t, 0, Some(port));
    assert st2.threads == st.threads[t := At(s, ListenBound, false)];
    assert st2.socks == st.socks[s := st.socks[s].(port := port, state := Busy, holder := Some(t))];
  }

  /** So a `listen` on a socket without a port listens on the chosen one, at the address the socket has. */
  lemma ListenEphemeral(st: State, t: nat, s: nat, port: nat)
    requires Enabled(st, Start(t, s, Listen)) && st.socks[s].state == Closed && st.socks[s].holder == None
    requires st.socks[s].port == 0 && port != 0 && port !in st.table
    ensures var steps := [Start(t, s, Listen)] + Alone(t, 0, Some(port), 1) + Alone(t, 0, None, 2);
            && IsRun(st, steps)
            && RunFrom(st, steps) == st.(socks := st.socks[s := st.socks[s].(port := port, state := Listening)],
                                         table := st.table[port := Entry(st.socks[s].addr, [], s)])
  {
    ListenChooses(st, t, s, port);
    var inside := RunFrom(st, [Start(t, s, Listen)] + Alone(t, 0, Some(port), 1));
    ListenLeaves(inside, t, s);
    Extend(st, [Start(t, s, Listen)] + Alone(t, 0, Some(port), 1), inside, Alone(t, 0, None, 2));
    assert inside.threads[t := Idle] == st.threads;
    assert inside.socks[s := inside.socks[s].(state := Listening, holder := None)]
        == st.socks[s := st.socks[s].(port := port, state := Listening)];
  }

  /** `listen` on a port that is taken leaves everything as it was. */
  lemma ListenRefused(st: State, t: nat, s: nat)
    requires Enabled(st, Start(t, s, Listen)) && st.socks[s].state == Closed && st.socks[s].holder == None
    requires st.socks[s].port != 0 && st.socks[s].port in st.table
    ensures IsRun(st, ListenSteps(t, s)) && RunFrom(st, ListenSteps(t, s)) == st
  {
    ListenEnters(st, t, s);
    var inside := Enter(st, t, s, ListenBound, false);
    AloneStep(inside, t, 0, None, 2);
    var st1 := Advanced(inside, t, 0, None);
    AloneStep(st1, t, 0, None, 1);
    var st2 := Advanced(st1, t, 0, None);
    assert st2.threads == st.threads && st2.socks == st.socks;
    Extend(st, [Start(t, s, Listen)] + Alone(t, 0, None, 1), inside, Alone(t, 0, None, 2));
  }

  /** And so does `listen` without a port when none is to be had. */
  lemma ListenPortless(st: State, t: nat, s: nat)
    requires Enabled(st, Start(t, s, Listen)) && st.socks[s].state == Closed && st.socks[s].holder == None
    requires st.socks[s].port == 0
    ensures var steps := [Start(t, s, Listen)] + Alone(t, 0, None, 2);
            IsRun(st, steps) && RunFrom(st, steps) == st
  {
    var steps := [Start(t, s, Listen)] + Alone(t, 0, None, 2);
    var st1 := Started(st, t, s, Listen);
    assert steps[1..] == Alone(t, 0, None, 2);
    AloneStep(st1, t, 0, None, 2);
    var st2 := Advanced(st1, t, 0, None);
    AloneStep(st2, t, 0, None, 1);
    var st3 := Advanced(st2, t, 0, None);
    assert st3.threads == st.threads && st3.socks == st.socks;
  }

  /** The first three actions of a `shutdown` of a stream. */
  lemma StreamCloses(st: State, t: nat, s: nat)
    requires Enabled(st, Start(t, s, Shutdown)) && st.socks[s].state == Connected
    ensures var steps := [Start(t, s, Shutdown)] + Alone(t, 0, None, 2);
            && IsRun(st, steps)
            && RunFrom(st, steps) ==
               st.(threads := st.threads[t := At(s, Finish(Closed, Second), false)],
                   socks := st.socks[s := st.socks[s].(addr := 0, port := 0, state := Busy, holder := Some(t))])
  {
    var steps := [Start(t, s, Shutdown)] + Alone(t, 0, None, 2);
    var st1 := Started(st, t, s, Shutdown);
    assert steps[1..] == Alone(t, 0, None, 2);
    AloneStep(st1, t, 0, None, 2);
    var st2 := Advanced(st1, t, 0, None);
    AloneStep(st2, t, 0, None, 1);
    var st3 := Advanced(st2, t, 0, None);
    assert st3.threads == st.threads[t := At(s, Finish(Closed, Second), false)];
    assert st3.socks == st.socks[s := st.socks[s].(addr := 0, port := 0, state := Busy, holder := Some(t))];
  }

  lemma StreamEnds(st: State, t: nat, s: nat)
    requires t < |st.threads| && st.threads[t] == At(s, Finish(Closed, Second), false) && s in st.socks
    ensures IsRun(st, Alone(t, 0, None, 3))
    ensures RunFrom(st, Alone(t, 0, None, 3)) ==
            st.(threads := st.threads[t := Idle], socks := st.socks[s := st.socks[s].(state := Closed, holder := None)])
  {
    AloneStep(st, t, 0, None, 3);
    var st1 := Advanced(st, t, 0, None);
    AloneStep(st1, t, 0, None, 2);
    var st2 := Advanced(st1, t, 0, None);
    AloneStep(st2, t, 0, None, 1);
    assert Advanced(st2, t, 0, None).threads == st.threads[t := Idle];
  }

  /** An undisturbed `shutdown` of a stream closes it and forgets its endpoint; it keeps its handle until it is
      dropped, and no port is touched. */
  lemma ShutdownStream(st: State, t: nat, s: nat)
    requires Enabled(st, Start(t, s, Shutdown)) && st.socks[s].state == Connected
    ensures var steps := [Start(t, s, Shutdown)] + Alone(t, 0, None, 2) + Alone(t, 0, None, 3);
            && IsRun(st, steps)
            && RunFrom(st, steps) ==
               st.(socks := st.socks[s := st.socks[s].(state := Closed, addr := 0, port := 0, holder := None)])
  {
    StreamCloses(st, t, s);
    var first := [Start(t, s, Shutdown)] + Alone(t, 0, None, 2);
    var inside := RunFrom(st, first);
    StreamEnds(inside, t, s);
    Extend(st, first, inside, Alone(t, 0, None, 3));
    assert inside.threads[t := Idle] == st.threads;
    assert inside.socks[s := inside.socks[s].(state := Closed, holder := None)]
        == st.socks[s := st.socks[s].(state := Closed, addr := 0, port := 0, holder := None)];
  }

  lemma DropArrives(st: State, t: nat, s: nat)
    requires Enabled(st, Start(t, s, Drop)) && st.socks[s].state == Closed
    ensures var steps := [Start(t, s, Drop)] + Alone(t, 0, None, 2);
            && IsRun(st, steps)
            && RunFrom(st, steps) == st.(threads := st.threads[t := At(s, ShutLast, true)],
                                         socks := st.socks[s := st.socks[s].(dropper := Some(t))])
  {
    var steps := [Start(t, s, Drop)] + Alone(t, 0, None, 2);
    var st1 := Started(st, t, s, Drop);
    assert steps[1..] == Alone(t, 0, None, 2);
    AloneStep(st1, t, 0, None, 2);
    var st2 := Advanced(st1, t, 0, None);
    AloneStep(st2, t, 0, None, 1);
    assert Advanced(st2, t, 0, None).threads == st.threads[t := At(s, ShutLast, true)];
  }

  lemma DropLeaves(st: State, t: nat, s: nat)
    requires t < |st.threads| && st.threads[t] == At(s, ShutLast, true) && s in st.socks
    ensures IsRun(st, Alone(t, 0, None, 1))
    ensures RunFrom(st, Alone(t, 0, None, 1)) ==
            st.(threads := st.threads[t := Idle], socks := st.socks - {s},
                live := map h | h in st.live && st.socks[s].handle != Some(h) :: st.live[h])
  {
    AloneStep(st, t, 0, None, 1);
    assert Advanced(st, t, 0, None).live == map h | h in st.live && st.socks[s].handle != Some(h) :: st.live[h];
  }

  /** The drop of a closed socket takes it and its handle away, and nothing else. */
  lemma DropClosed(st: State, t: nat, s: nat)
    requires Enabled(st, Start(t, s, Drop)) && st.socks[s].state == Closed
    ensures var steps := [Start(t, s, Drop)] + Alone(t, 0, None, 2) + Alone(t, 0, None, 1);
            && IsRun(st, steps)
            && RunFrom(st, steps) ==
               st.(socks := st.socks - {s},
                   live := map h | h in st.live && st.socks[s].handle != Some(h) :: st.live[h])
  {
    DropArrives(st, t, s);
    var first := [Start(t, s, Drop)] + Alone(t, 0, None, 2);
    var inside := RunFrom(st, first);
    DropLeaves(inside, t, s);
    Extend(st, first, inside, Alone(t, 0, None, 1));
    assert inside.threads[t := Idle] == st.threads && inside.socks - {s} == st.socks - {s};
  }

  /** `accept` goes to the port that its socket listens on. */
  lemma AcceptEnters(st: State, t: nat, s: nat)
    requires Enabled(st, Start(t, s, Accept)) && st.socks[s].state == Listening
    ensures var steps := [Start(t, s, Accept)] + Alone(t, 0, None, 1);
            && IsRun(st, steps)
            && RunFrom(st, steps) == st.(threads := st.threads[t := At(s, AcceptFrom(st.socks[s].port), false)])
  {
    var steps := [Start(t, s, Accept)] + Alone(t, 0, None, 1);
    var st1 := Started(st, t, s, Accept);
    assert steps[1..] == Alone(t, 0, None, 1);
    AloneStep(st1, t, 0, None, 1);
    assert Advanced(st1, t, 0, None).threads == st.threads[t := At(s, AcceptFrom(st.socks[s].port), false)];
  }

  /** What it then does there: nothing on a port that nobody listens on; it waits while no queued connection is
      established, until the caller gives up; and else the first established connection becomes the stream socket `r`
      with the endpoint of that connection. */
  lemma AcceptExactly(st: State, t: nat, connected: set<nat>, r: nat, addr: nat, lport: nat)
    requires Enabled(st, Take(t, connected, r, addr, lport))
    ensures var p, next := st.threads[t].stage.port, Next(st, Take(t, connected, r, addr, lport));
            if p !in st.table then next == st.(threads := st.threads[t := Idle])
            else if forall h | h in st.table[p].queue :: h !in connected then next == st
            else
              exists i | 0 <= i < |st.table[p].queue| ::
                var h := st.table[p].queue[i];
                && h in connected && (forall k | 0 <= k < i :: st.table[p].queue[k] !in connected)
                && next.threads == st.threads[t := Idle]
                && next.socks == st.socks[r := Sock(Connected, addr, lport, Some(h), None, None)]
                && next.live == st.live[h := InSocket(r)]
                && p in next.table && next.table[p].addr == st.table[p].addr && next.table - {p} == st.table - {p}
                && multiset(next.table[p].queue) == multiset(st.table[p].queue) - multiset{h}
    ensures Next(st, GiveUp(t)) == st.(threads := st.threads[t := Idle])
  {
    var p := st.threads[t].stage.port;
    if p in st.table {
      var queue := st.table[p].queue;
      var i := FirstConnected(queue, connected);
      if i < |queue| {
        SwapRemovedBag(queue, i);
        assert queue[i] in queue;
      }
    }
  }

  lemma SwapRemovedBag(queue: seq<nat>, i: nat)
    requires i < |queue|
    ensures multiset(SwapRemoveFront(queue, i)) == multiset(queue) - multiset{queue[i]}
  {
    var rest := queue[1..];
    assert queue == [queue[0]] + rest;
    if i > 0 {
      assert SwapRemoveFront(queue, i) == rest[i - 1 := queue[0]];
    }
  }

  /** An accept takes from the queue of its own socket exactly when that socket still answers for the port it read. */
  lemma AcceptsItsOwn(st: State, t: nat)
    requires Inv(st) && t < |st.threads| && st.threads[t].At? && st.threads[t].stage.AcceptFrom?
    requires st.threads[t].stage.port in st.table
    ensures var s, p := st.threads[t].s, st.threads[t].stage.port;
            st.table[p].owner == s <==> Claims(st, s, p)
  {
    ClaimsIsClaim(st, st.threads[t].s, st.threads[t].stage.port);
    if st.threads[t].s in st.socks {
      assert ClaimOk(st.table, st.threads[t].s, Claim(st.threads, st.socks[st.threads[t].s]));
    }
  }

  lemma Extend(start: State, steps: seq<Step>, st: State, more: seq<Step>)
    requires IsRun(start, steps) && RunFrom(start, steps) == st && IsRun(st, more)
    ensures IsRun(start, steps + more) && RunFrom(start, steps + more) == RunFrom(st, more)
  {
    RunConcat(start, steps, more);
  }

  lemma OneStep(st: State, step: Step)
    requires Enabled(st, step)
    ensures IsRun(st, [step]) && RunFrom(st, [step]) == Next(st, step)
  {
    assert [step][1..] == [];
  }

  const UNBOUND := Sock(Closed, 0, 0, None, None, None)

  /** Socket 0 listens on 80 and socket 1 on 81. */
  lemma TwoListeners() returns (steps: seq<Step>)
    ensures IsRun(State([Idle, Idle], map[], map[], map[]), steps)
    ensures RunFrom(State([Idle, Idle], map[], map[], map[]), steps) ==
            State([Idle, Idle],
                  map[0 := UNBOUND.(port := 80, state := Listening), 1 := UNBOUND.(port := 81, state := Listening)],
                  map[80 := Entry(0, [], 0), 81 := Entry(0, [], 1)], map[])
  {
    var start := State([Idle, Idle], map[], map[], map[]);
    var a := start.(socks := map[0 := UNBOUND]);
    OneStep(start, Create(0));
    OneStep(a, Create(1));
    Extend(start, [Create(0)], a, [Create(1)]);
    var b := start.(socks := map[0 := UNBOUND, 1 := UNBOUND]);
    assert Next(a, Create(1)) == b;
    steps := SetUp(start, [Create(0)] + [Create(1)], b, 1, 81);
    var c := start.(socks := map[0 := UNBOUND, 1 := UNBOUND.(port := 81, state := Listening)],
                    table := map[81 := Entry(0, [], 1)]);
    assert RunFrom(start, steps) == c;
    steps := SetUp(start, steps, c, 0, 80);
  }

  /** Thread 0 is in `accept` on socket 0, which has been shut down and bound to 81 since it looked at the state, and is
      about to turn to port 81, which is socket 1's. */
  lemma CrossedOver() returns (steps: seq<Step>, st: State)
    ensures var start := State([Idle, Idle], map[], map[], map[]);
            Initial(start) && IsRun(start, steps) && RunFrom(start, steps) == st
    ensures st.threads == [At(0, AcceptFrom(81), false), Idle] && st.live == map[]
    ensures st.socks == map[0 := UNBOUND.(port := 81), 1 := UNBOUND.(port := 81, state := Listening)]
    ensures st.table == map[81 := Entry(0, [], 1)]
  {
    var start := State([Idle, Idle], map[], map[], map[]);
    steps := TwoListeners();
    var d := RunFrom(start, steps);
    OneStep(d, Start(0, 0, Accept));
    var e := Next(d, Start(0, 0, Accept));
    Extend(start, steps, d, [Start(0, 0, Accept)]);
    steps := steps + [Start(0, 0, Accept)];
    Unbind(start, steps, e);
    steps := Rebind(start, steps + ShutdownSteps(1, 0), e.(socks := e.socks[0 := UNBOUND], table := e.table - {80}));
    var f := RunFrom(start, steps);
    OneStep(f, Advance(0, 0, None));
    Extend(start, steps, f, [Advance(0, 0, None)]);
    steps := steps + [Advance(0, 0, None)];
    st := Next(f, Advance(0, 0, None));
  }

  /** `accept` looks at the state first and reads the port later. If its socket is shut down and bound anew in
      between, it takes a connection from the queue of another socket: here handle 7, which came in on port 81 for
      socket 1, ends in a socket that was accepted through socket 0, which never listened on 81. */
  lemma CrossedAccept() returns (steps: seq<Step>, before: State, after: State)
    ensures var start := State([Idle, Idle], map[], map[], map[]);
            Initial(start) && IsRun(start, steps) && RunFrom(start, steps) == before
    ensures |before.threads| == 2 && before.threads[0] == At(0, AcceptFrom(81), false)
    ensures 81 in before.table && before.table[81] == Entry(0, [7], 1)
    ensures Enabled(before, Take(0, {7}, 2, 0, 81)) && after == Next(before, Take(0, {7}, 2, 0, 81))
    ensures 2 in after.socks && after.socks[2].handle == Some(7) && 81 in after.table && after.table[81].queue == []
  {
    var start := State([Idle, Idle], map[], map[], map[]);
    var st;
    steps, st := CrossedOver();
    OneStep(st, Incoming(81, 0, 7));
    Extend(start, steps, st, [Incoming(81, 0, 7)]);
    steps := steps + [Incoming(81, 0, 7)];
    before := Next(st, Incoming(81, 0, 7));
    assert before.table[81].queue == [7];
    after := Next(before, Take(0, {7}, 2, 0, 81));
    assert FirstConnected([7], {7}) == 0 && SwapRemoveFront([7], 0) == [];
  }

  /** Bind and listen by thread 1. */
  lemma SetUp(start: State, steps: seq<Step>, st: State, s: nat, port: nat) returns (more: seq<Step>)
    requires IsRun(start, steps) && RunFrom(start, steps) == st && Enabled(st, Start(1, s, Bind))
    requires st.socks[s] == Sock(Closed, 0, 0, None, None, None) && port != 0 && port !in st.table
    ensures IsRun(start, more)
    ensures RunFrom(start, more) == st.(socks := st.socks[s := Sock(Listening, 0, port, None, None, None)],
                                        table := st.table[port := Entry(0, [], s)])
  {
    BindAlone(st, 1, s, 0, port);
    var first := [Start(1, s, Bind)] + Alone(1, 0, Some(port), 2);
    var bound := st.(socks := st.socks[s := st.socks[s].(addr := 0, port := port)]);
    Extend(start, steps, st, first);
    ListenAlone(bound, 1, s);
    var second := ListenSteps(1, s);
    Extend(start, steps + first, bound, second);
    more := steps + first + second;
    assert bound.socks[s := bound.socks[s].(state := Listening)]
        == st.socks[s := Sock(Listening, 0, port, None, None, None)];
  }

  /** Thread 1 shuts socket 0 down. */
  lemma Unbind(start: State, steps: seq<Step>, st: State)
    requires IsRun(start, steps) && RunFrom(start, steps) == st && |st.threads| == 2 && st.threads[1] == Idle
    requires 0 in st.socks && st.socks[0] == Sock(Listening, 0, 80, None, None, None) && st.live == map[]
    ensures IsRun(start, steps + ShutdownSteps(1, 0))
    ensures RunFrom(start, steps + ShutdownSteps(1, 0)) ==
            st.(socks := st.socks[0 := UNBOUND], table := st.table - {80})
  {
    ShutdownAlone(st, 1, 0);
    Extend(start, steps, st, ShutdownSteps(1, 0));
  }

  /** Thread 1 binds socket 0 to port 81. */
  lemma Rebind(start: State, steps: seq<Step>, st: State) returns (more: seq<Step>)
    requires IsRun(start, steps) && RunFrom(start, steps) == st && |st.threads| == 2 && st.threads[1] == Idle
    requires 0 in st.socks && st.socks[0] == UNBOUND
    ensures IsRun(start, more)
    ensures RunFrom(start, more) == st.(socks := st.socks[0 := UNBOUND.(port := 81)])
  {
    BindAlone(st, 1, 0, 0, 81);
    more := [Start(1, 0, Bind)] + Alone(1, 0, Some(81), 2);
    Extend(start, steps, st, more);
    more := steps + more;
  }
}
