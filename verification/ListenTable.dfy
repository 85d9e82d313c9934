/** The port table as it is updated in place: one slot per port, each holding an entry with its SYN queue, beside
    the set of connection handles; and the search for a free ephemeral port. */
module ListenTables {
  import opened Errors
  import opened ListenOwnership

  const PORT_NUM: nat := 65536
  const PORT_START: nat := 0xc000
  const PORT_END: nat := 0xffff

  /** The occupied slots. */
  ghost function Occupied(slots: seq<Option<Entry>>): Table {
    map p: nat | p < |slots| && slots[p].Some? :: slots[p].value
  }

  lemma SlotSet(slots: seq<Option<Entry>>, p: nat, entry: Entry)
    requires p < |slots|
    ensures Occupied(slots[p := Some(entry)]) == Occupied(slots)[p := entry]
  {
  }

  lemma SlotCleared(slots: seq<Option<Entry>>, p: nat)
    requires p < |slots|
    ensures Occupied(slots[p := None]) == Occupied(slots) - {p}
  {
  }

  function Handles(queue: seq<nat>): set<nat> {
    set h | h in queue
  }

  /** How many ports after `from` the search looks at `port`. */
  function Distance(from: nat, port: nat): (d: int) {
    if port >= from then port - from else port - from + (PORT_END - PORT_START + 1)
  }

  predicate Dynamic(port: nat) {
    PORT_START <= port <= PORT_END
  }

  class ListenTable {
    const tcp: array<Option<Entry>>
    /** The handles in the global socket set. */
    var sockets: set<nat>
    /** `CURR`, where the next search starts. */
    var curr: nat

    ghost predicate Valid()
      reads this
    {
      tcp.Length == PORT_NUM && Dynamic(curr)
    }

    ghost function Table(): Table
      reads this, tcp
    {
      Occupied(tcp[..])
    }

    constructor ()
      ensures Valid() && fresh(tcp) && Table() == map[] && sockets == {} && curr == PORT_START
    {
      tcp := new Option<Entry>[PORT_NUM](_ => None);
      sockets := {};
      curr := PORT_START;
    }

    method CanListen(port: nat) returns (free: bool)
      requires Valid() && port < PORT_NUM
      ensures free <==> port !in Table()
    {
      free := tcp[port].None?;
    }

    /** Only a free port can be taken; a taken one keeps its entry and its queue. */
    method Listen(addr: nat, port: nat, owner: nat) returns (r: Result<()>)
      requires Valid() && 0 < port < PORT_NUM
      modifies tcp
      ensures r == if port in old(Table()) then Err(NetFail) else Ok(())
      ensures Table() == if port in old(Table()) then old(Table()) else old(Table())[port := Entry(addr, [], owner)]
    {
      if tcp[port].None? {
        SlotSet(tcp[..], port, Entry(addr, [], owner));
        tcp[port] := Some(Entry(addr, [], owner));
        assert tcp[..] == old(tcp[..])[port := Some(Entry(addr, [], owner))];
        return Ok(());
      }
      return Err(NetFail);
    }

    /** The slot is emptied, and every handle still in its queue leaves the socket set. */
    method Unlisten(port: nat)
      requires Valid() && port < PORT_NUM
      modifies tcp, this`sockets
      ensures Table() == old(Table()) - {port}
      ensures sockets == if port in old(Table()) then old(sockets) - Handles(old(Table())[port].queue) else old(sockets)
    {
      SlotCleared(tcp[..], port);
      var dropped := tcp[port];
      tcp[port] := None;
      assert tcp[..] == old(tcp[..])[port := None];
      if dropped.Some? {
        var queue, i := dropped.value.queue, 0;
        while i < |queue|
          invariant 0 <= i <= |queue| && Table() == old(Table()) - {port}
          invariant sockets == old(sockets) - Handles(queue[..i])
        {
          sockets := sockets - {queue[i]};
          assert queue[..i + 1] == queue[..i] + [queue[i]];
          i := i + 1;
        }
        assert queue[..i] == queue;
      }
    }

    /** The first connected handle of the queue is taken out, and the others stay. */
    method Accept(port: nat, connected: set<nat>) returns (r: Result<nat>)
      requires Valid() && port < PORT_NUM
      modifies tcp
      ensures port !in old(Table()) ==> r == Err(NetFail) && Table() == old(Table())
      ensures port in old(Table()) ==>
                var queue := old(Table())[port].queue;
                var i := FirstConnected(queue, connected);
                if i == |queue| then r == Err(WouldBlock) && Table() == old(Table())
                else r == Ok(queue[i]) && Table() == Popped(old(Table()), port, i)
    {
      if tcp[port].None? {
        return Err(NetFail);
      }
      var entry := tcp[port].value;
      var i := Find(entry.queue, connected);
      if i == |entry.queue| {
        return Err(WouldBlock);
      }
      var after := entry.(queue := SwapRemoveFront(entry.queue, i));
      SlotSet(tcp[..], port, after);
      tcp[port] := Some(after);
      assert tcp[..] == old(tcp[..])[port := Some(after)];
      return Ok(entry.queue[i]);
    }

    /** A packet for a listening address becomes a new handle at the end of the queue, unless the queue is full. */
    method Incoming(port: nat, dst: nat, handle: nat)
      requires Valid() && port < PORT_NUM && handle !in sockets
      modifies tcp, this`sockets
      ensures Table() == if Welcome(old(Table()), port, dst) then Pushed(old(Table()), port, handle) else old(Table())
      ensures sockets == if Welcome(old(Table()), port, dst) then old(sockets) + {handle} else old(sockets)
      ensures port !in old(Table()) ==> Table() == old(Table())
      ensures port in old(Table()) ==>
                var entry := old(Table())[port];
                if (entry.addr == 0 || entry.addr == dst) && |entry.queue| < 512
                then Table() == old(Table())[port := Entry(entry.addr, entry.queue + [handle], entry.owner)]
                else Table() == old(Table())
    {
      if tcp[port].Some? {
        var entry := tcp[port].value;
        if (entry.addr != 0 && entry.addr != dst) || |entry.queue| >= LISTEN_QUEUE_SIZE {
          return;
        }
        var after := entry.(queue := entry.queue + [handle]);
        SlotSet(tcp[..], port, after);
        sockets := sockets + {handle};
        tcp[port] := Some(after);
        assert tcp[..] == old(tcp[..])[port := Some(after)];
      }
    }

    /** The search looks at every port of the range once, starting at the cursor and wrapping: it returns the first free
        one, and fails exactly when all are taken. */
    method GetEphemeralPort() returns (r: Result<nat>)
      requires Valid()
      modifies this`curr
      ensures Valid()
      ensures r == Err(NetFail) || r.Ok?
      ensures r.Ok? ==> 49152 <= r.value <= 65535 && r.value !in Table()
                        && curr == (if r.value == 65535 then 49152 else r.value + 1)
      ensures r.Ok? ==> forall q: nat | Dynamic(q) && Distance(old(curr), q) < Distance(old(curr), r.value) ::
                          q in Table()
      ensures r.Err? <==> forall q: nat | 49152 <= q <= 65535 :: q in Table()
      ensures r.Err? ==> curr == old(curr)
    {
      var tries := 0;
      while tries <= PORT_END - PORT_START
        invariant 0 <= tries <= PORT_END - PORT_START + 1 && Dynamic(curr)
        invariant Distance(old(curr), curr) == tries || (tries == PORT_END - PORT_START + 1 && curr == old(curr))
        invariant forall q: nat | Dynamic(q) && Distance(old(curr), q) < tries :: q in Table()
      {
        var port := curr;
        if curr == PORT_END {
          curr := PORT_START;
        } else {
          curr := curr + 1;
        }
        var free := CanListen(port);
        if free {
          return Ok(port);
        }
        tries := tries + 1;
      }
      return Err(NetFail);
    }
  }

  /** The search of `accept` for a connected handle. */
  method Find(queue: seq<nat>, connected: set<nat>) returns (i: nat)
    ensures i == FirstConnected(queue, connected)
  {
    i := 0;
    while i < |queue| && queue[i] !in connected
      invariant i <= |queue|
      invariant FirstConnected(queue, connected) == i + FirstConnected(queue[i..], connected)
    {
      assert queue[i..][1..] == queue[i + 1..];
      i := i + 1;
    }
  }
}
