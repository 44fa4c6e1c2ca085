/**
 The single-threaded driver: submitting, polling its completion port in batches, and draining
 every outstanding operation before the port is closed.

 `live` is this driver's share of the process-wide set of kernel-owned addresses.  Packets for
 operations of other backends arrive elsewhere, so at this port an address outside the share is
 a foreign overlapped call, whatever it is.
 */
module Proactor {
  import opened Wrappers

  const BATCH: nat := 64
  const KEY_OPERATION: nat := 0x7761_7331
  const NULL: Addr := 0

  datatype Packet = Packet(key: nat, addr: Addr, result: nat)

  /** One wait on the port: a batch, empty after a timeout, or an error of the port itself. */
  type Wait = Result<seq<Packet>, nat>

  datatype Started = Pending | Inline | Failed

  datatype Drain = Drained | PortFailed | Waiting

  // ---------------------------------------------------------------- batches

  predicate IsOperation(p: Packet) {
    p.key == KEY_OPERATION && p.addr != NULL
  }

  /** The packets of a batch that carry this crate's key. */
  function Operations(batch: seq<Packet>): seq<Packet> {
    if batch == [] then []
    else
      var front, last := Operations(batch[..|batch| - 1]), batch[|batch| - 1];
      if IsOperation(last) then front + [last] else front
  }

  function Addresses(packets: seq<Packet>): set<Addr> {
    set p | p in packets :: p.addr
  }

  function Named(batch: seq<Packet>): set<Addr> {
    Addresses(Operations(batch))
  }

  /** What dispatching does, packet by packet: an address still live completes its operation and is not live
      any more; any other packet touches nothing. */
  function Dispatched(live: set<Addr>, packets: seq<Packet>): seq<Packet> {
    if packets == [] then []
    else
      var front, last := packets[..|packets| - 1], packets[|packets| - 1];
      Dispatched(live, front) + if last.addr in live - Addresses(front) then [last] else []
  }

  ghost predicate Distinct(packets: seq<Packet>) {
    forall i, j :: 0 <= i < j < |packets| ==> packets[i].addr != packets[j].addr
  }

  lemma OperationsOneMore(batch: seq<Packet>, i: nat)
    requires i < |batch|
    ensures Operations(batch[..i + 1]) == Operations(batch[..i]) + if IsOperation(batch[i]) then [batch[i]] else []
    ensures Named(batch[..i + 1]) == Named(batch[..i]) + if IsOperation(batch[i]) then {batch[i].addr} else {}
  {
    assert batch[..i + 1][..i] == batch[..i];
    AddressesOneMore(Operations(batch[..i]), batch[i]);
  }

  lemma AddressesOneMore(packets: seq<Packet>, p: Packet)
    ensures Addresses(packets + [p]) == Addresses(packets) + {p.addr}
  {
    assert p in packets + [p];
    assert forall q :: q in packets ==> q in packets + [p];
  }

  /** One dispatch per live address named, however often a packet names it, and none for any other. */
  lemma {:induction false} OneDispatchEach(live: set<Addr>, packets: seq<Packet>)
    ensures Distinct(Dispatched(live, packets))
    ensures Addresses(Dispatched(live, packets)) == live * Addresses(packets)
    ensures |Dispatched(live, packets)| == |live * Addresses(packets)|
    ensures forall p :: p in Dispatched(live, packets) ==> p in packets
  {
    hide Distinct, Addresses;
    if packets != [] {
      var front, last := packets[..|packets| - 1], packets[|packets| - 1];
      assert packets == front + [last];
      OneDispatchEach(live, front);
      AddressesOneMore(front, last);
      var done := Dispatched(live, front);
      OneClaim(live, Addresses(front), last.addr);
      if last.addr in live - Addresses(front) {
        AddressesOneMore(done, last);
        StaysDistinct(done, last);
      } else {
        assert done + [] == done;
      }
    } else {
      NothingDispatched(live);
    }
  }

  lemma OneClaim(live: set<Addr>, seen: set<Addr>, a: Addr)
    ensures a in live - seen ==> live * (seen + {a}) == live * seen + {a} && |live * (seen + {a})| == |live * seen| + 1
    ensures a !in live - seen ==> live * (seen + {a}) == live * seen
  {
    if a in live - seen {
      assert live * (seen + {a}) == live * seen + {a};
    }
  }

  lemma StaysDistinct(packets: seq<Packet>, p: Packet)
    requires Distinct(packets) && p.addr !in Addresses(packets)
    ensures Distinct(packets + [p])
  {
    forall i | 0 <= i < |packets|
      ensures packets[i].addr != p.addr
    {
      assert packets[i] in packets;
    }
  }

  /** Every address that some wait has brought. */
  function Reached(waits: seq<Wait>): set<Addr> {
    if waits == [] then {}
    else Reached(waits[..|waits| - 1]) + if waits[|waits| - 1].Ok? then Named(waits[|waits| - 1].value) else {}
  }

  /** The port gives every packet of this driver's operations the key their handles were attached with. */
  ghost predicate Keyed(live: set<Addr>, batch: seq<Packet>) {
    forall p :: p in batch && p.addr in live ==> p.key == 0x7761_7331
  }

  lemma {:induction false} InOperations(batch: seq<Packet>, p: Packet)
    ensures p in Operations(batch) <==> p in batch && p.key == 0x7761_7331 && p.addr != 0
  {
    if batch != [] {
      var front, last := batch[..|batch| - 1], batch[|batch| - 1];
      assert batch == front + [last];
      InOperations(front, p);
    }
  }

  /** Which packets count: those that carry the key, whatever their result, and of these every one that names a
      live address. */
  lemma PacketsCountByKey(live: set<Addr>, batch: seq<Packet>)
    requires 0 !in live && Keyed(live, batch)
    ensures live * Named(batch) == live * Addresses(batch)
    ensures forall p :: p in Dispatched(live, Operations(batch)) ==> p in batch && p.key == 0x7761_7331
  {
    hide Operations, Dispatched;
    OneDispatchEach(live, Operations(batch));
    forall p: Packet ensures p in Operations(batch) <==> p in batch && p.key == KEY_OPERATION && p.addr != NULL {
      InOperations(batch, p);
    }
    forall a | a in live && a in Addresses(batch) ensures a in Named(batch) {
      var p :| p in batch && p.addr == a;
      assert p in Operations(batch);
    }
  }

  /** Every address some wait has brought a packet for, whatever the packet says. */
  function Brought(waits: seq<Wait>): set<Addr> {
    if waits == [] then {}
    else Brought(waits[..|waits| - 1]) + if waits[|waits| - 1].Ok? then Addresses(waits[|waits| - 1].value) else {}
  }

  ghost predicate AllKeyed(live: set<Addr>, waits: seq<Wait>) {
    forall i :: 0 <= i < |waits| && waits[i].Ok? ==> Keyed(live, waits[i].value)
  }

  lemma {:induction false} WhatIsBroughtIsReached(live: set<Addr>, waits: seq<Wait>)
    requires 0 !in live && AllKeyed(live, waits)
    ensures live * Reached(waits) == live * Brought(waits)
  {
    hide Named, Addresses;
    if waits != [] {
      var front, last := waits[..|waits| - 1], waits[|waits| - 1];
      WhatIsBroughtIsReached(live, front);
      if last.Ok? {
        PacketsCountByKey(live, last.value);
        Together(live, Reached(front), Brought(front), Named(last.value), Addresses(last.value));
      } else {
        assert Reached(waits) == Reached(front) && Brought(waits) == Brought(front);
      }
    }
  }

  lemma Together(live: set<Addr>, a: set<Addr>, b: set<Addr>, c: set<Addr>, d: set<Addr>)
    requires live * a == live * b && live * c == live * d
    ensures live * (a + c) == live * (b + d)
  {
    assert live * (a + c) == live * a + live * c && live * (b + d) == live * b + live * d;
  }

  lemma {:induction false} ReachedGrows(waits: seq<Wait>, m: nat, n: nat)
    requires m <= n <= |waits|
    ensures Reached(waits[..m]) <= Reached(waits[..n])
    decreases n
  {
    hide Named;
    if m < n {
      assert waits[..n][..n - 1] == waits[..n - 1];
      ReachedGrows(waits, m, n - 1);
    }
  }

  /** The waits have brought a packet for every live address before any port error. */
  ghost predicate BringsAll(live: set<Addr>, waits: seq<Wait>, m: nat) {
    m <= |waits| && live <= Brought(waits[..m]) && forall i :: 0 <= i < m ==> waits[i].Ok?
  }

  /** A drain that has gone through such waits has left nothing live. */
  lemma BroughtIsDrained(live: set<Addr>, waits: seq<Wait>, m: nat, used: nat)
    requires 0 !in live && AllKeyed(live, waits) && BringsAll(live, waits, m) && m <= used <= |waits|
    ensures live - Reached(waits[..used]) == {}
  {
    hide Reached, Brought, Keyed;
    assert AllKeyed(live, waits[..m]);
    WhatIsBroughtIsReached(live, waits[..m]);
    ReachedGrows(waits, m, used);
    forall a | a in live ensures a in Reached(waits[..used]) {
      assert a in live * Brought(waits[..m]);
    }
  }

  /** What a run of waits dispatches, from an initial live set. */
  function DispatchedBy(live: set<Addr>, waits: seq<Wait>): seq<Packet> {
    if waits == [] then []
    else
      var front, last := waits[..|waits| - 1], waits[|waits| - 1];
      DispatchedBy(live, front) + if last.Ok? then Dispatched(live - Reached(front), Operations(last.value)) else []
  }

  lemma AddressesTogether(a: seq<Packet>, b: seq<Packet>)
    ensures Addresses(a + b) == Addresses(a) + Addresses(b)
    ensures Distinct(a) && Distinct(b) && Addresses(a) * Addresses(b) == {} ==> Distinct(a + b)
  {
    assert forall p :: p in a + b <==> p in a || p in b;
    if Distinct(a) && Distinct(b) && Addresses(a) * Addresses(b) == {} {
      forall i, j | 0 <= i < j < |a + b|
        ensures (a + b)[i].addr != (a + b)[j].addr
      {
        if i < |a| <= j {
          var x := a[i].addr;
          assert x in Addresses(a) && x !in Addresses(a) * Addresses(b);
          assert (a + b)[j] == b[j - |a|] && b[j - |a|] in b;
        } else if j < |a| {
          assert (a + b)[i] == a[i] && (a + b)[j] == a[j];
        } else {
          assert (a + b)[i] == b[i - |a|] && (a + b)[j] == b[j - |a|];
        }
      }
    }
  }

  /** Over any run of waits every live address that some packet names is dispatched once, and no other is. */
  lemma {:induction false} OneDispatchOverAll(live: set<Addr>, waits: seq<Wait>)
    ensures Distinct(DispatchedBy(live, waits))
    ensures Addresses(DispatchedBy(live, waits)) == live * Reached(waits)
  {
    hide Distinct, Addresses, Dispatched, Operations;
    if waits == [] {
      NothingDispatched(live);
    } else {
      var front, last := waits[..|waits| - 1], waits[|waits| - 1];
      OneDispatchOverAll(live, front);
      if last.Ok? {
        var left := live - Reached(front);
        OneDispatchEach(left, Operations(last.value));
        AddressesTogether(DispatchedBy(live, front), Dispatched(left, Operations(last.value)));
      } else {
        assert DispatchedBy(live, waits) == DispatchedBy(live, front);
      }
    }
  }

  /** The port never returns more than was asked for. */
  ghost predicate Bounded(waits: seq<Wait>) {
    forall i :: 0 <= i < |waits| && waits[i].Ok? ==> |waits[i].value| <= 64
  }

  // ---------------------------------------------------------------- the driver

  class Driver {
    /** The keys of the table of operations in flight. */
    var pending: set<Addr>
    var live: set<Addr>

    /** Between calls the table holds exactly the operations the kernel owns. */
    ghost predicate Valid()
      reads this
    {
      pending == live && NULL !in live
    }

    constructor ()
      ensures Valid() && pending == {}
    {
      pending, live := {}, {};
    }

    /** Leak, start, and track or reclaim; the allocator gives an address that is not in use. */
    method Submit(addr: Addr, started: Started)
      requires Valid() && addr !in live && addr != 0
      modifies this
      ensures Valid() && pending == old(pending) + if started.Pending? then {addr} else {}
    {
      live := live + {addr};
      if started.Pending? {
        pending := pending + {addr};
      } else {
        live := live - {addr};
      }
    }

    /** Collect the operations of a batch and untrack them, before anything is woken. */
    method Collect(batch: seq<Packet>, ready: array<Option<Packet>>) returns (count: nat)
      requires |batch| <= 64 && ready.Length == 64
      modifies this`pending, ready
      ensures pending == old(pending) - Named(batch)
      ensures count == |Operations(batch)| <= 64
      ensures forall k :: 0 <= k < count ==> ready[k] == Some(Operations(batch)[k])
    {
      count := 0;
      for i := 0 to |batch|
        invariant count == |Operations(batch[..i])| <= i
        invariant pending == old(pending) - Named(batch[..i])
        invariant forall k :: 0 <= k < count ==> ready[k] == Some(Operations(batch[..i])[k])
      {
        OperationsOneMore(batch, i);
        if batch[i].key == KEY_OPERATION && batch[i].addr != NULL {
          pending := pending - {batch[i].addr};
          ready[count] := Some(batch[i]);
          count := count + 1;
        }
      }
      assert batch[..|batch|] == batch;
    }

    /** Claim an address: true for one dispatcher per leak. */
    method Claim(addr: Addr) returns (claimed: bool)
      modifies this`live
      ensures claimed <==> addr in old(live)
      ensures live == old(live) - {addr}
    {
      claimed := addr in live;
      live := live - {addr};
    }

    /** Dispatch what a wait has brought. */
    method Poll(batch: seq<Packet>) returns (delivered: nat, dispatched: seq<Packet>)
      requires |batch| <= 64
      modifies this
      ensures pending == old(pending) - Named(batch) && live == old(live) - Named(batch)
      ensures dispatched == Dispatched(old(live), Operations(batch))
      ensures delivered == |old(live) * Named(batch)|
      ensures 0 !in old(live) && Keyed(old(live), batch) ==>
                live == old(live) - Addresses(batch) && delivered == |old(live) * Addresses(batch)|
    {
      hide Operations, Addresses, Dispatched, Keyed;
      var ready := new Option<Packet>[BATCH](_ => None);
      var count := Collect(batch, ready);
      ghost var packets := Operations(batch);
      delivered, dispatched := 0, [];
      NothingDispatched(old(live));
      for k := 0 to count
        invariant pending == old(pending) - Named(batch)
        invariant forall i :: 0 <= i < count ==> ready[i] == Some(packets[i])
        invariant live == old(live) - Addresses(packets[..k])
        invariant dispatched == Dispatched(old(live), packets[..k]) && delivered == |dispatched|
      {
        var p := ready[k].value;
        DispatchedOneMore(old(live), packets, k);
        var claimed := Claim(p.addr);
        if claimed {
          delivered := delivered + 1;
          dispatched := dispatched + [p];
        }
      }
      assert packets[..count] == packets;
      OneDispatchEach(old(live), packets);
      if NULL !in old(live) && Keyed(old(live), batch) {
        PacketsCountByKey(old(live), batch);
        Same(old(live), Named(batch), Addresses(batch));
      }
    }

    /** Cancel everything and drain.  Operations leave the live set only by being dispatched, in the order their
        packets arrive, so a drain that ends without a port error has dispatched every one of them, and it
        waits no longer than that takes. */
    method Shutdown(waits: seq<Wait>) returns (r: Drain, drained: nat, used: nat, dispatched: seq<Packet>)
      requires Valid() && Bounded(waits)
      modifies this
      ensures used <= |waits| && dispatched == DispatchedBy(old(live), waits[..used])
      ensures live == old(live) - Reached(waits[..used]) && pending == {}
      ensures Distinct(dispatched) && Addresses(dispatched) == old(live) - live
      ensures drained == |dispatched| && drained + |live| == |old(live)|
      ensures r.Drained? <==> live == {}
      ensures r.PortFailed? ==> used < |waits| && waits[used].Err?
      ensures r.Waiting? ==> used == |waits|
      ensures forall k :: 0 <= k < used ==> waits[k].Ok? && old(live) - Reached(waits[..k]) != {}
      // And it ends once every operation's packet has come, whatever the packets report.
      ensures forall m :: AllKeyed(old(live), waits) && BringsAll(old(live), waits, m) ==> r.Drained?
    {
      hide Named, Reached, Dispatched, DispatchedBy, Operations, Addresses, Distinct, AllKeyed, BringsAll;
      var outstanding := |pending|;
      pending := {};
      drained, used, dispatched := 0, 0, [];
      NothingReached(live, waits);
      while drained < outstanding
        invariant pending == {} && outstanding == |old(live)| && 0 <= used <= |waits|
        invariant live == old(live) - Reached(waits[..used])
        invariant dispatched == DispatchedBy(old(live), waits[..used]) && drained == |dispatched|
        invariant drained + |live| == |old(live)|
        invariant forall k :: 0 <= k < used ==> waits[k].Ok? && old(live) - Reached(waits[..k]) != {}
        decreases |waits| - used
      {
        if used == |waits| {
          OneDispatchOverAll(old(live), waits[..used]);
          NotBrought(old(live), waits, used);
          return Waiting, drained, used, dispatched;
        }
        if waits[used].Err? {
          OneDispatchOverAll(old(live), waits[..used]);
          NotBrought(old(live), waits, used);
          return PortFailed, drained, used, dispatched;
        }
        AfterWait(old(live), waits, used);
        var n, batch := Poll(waits[used].value);
        drained, used, dispatched := drained + n, used + 1, dispatched + batch;
      }
      OneDispatchOverAll(old(live), waits[..used]);
      r := Drained;
    }
  }

  // ---------------------------------------------------------------- bookkeeping for the loops

  lemma Same(live: set<Addr>, a: set<Addr>, b: set<Addr>)
    requires live * a == live * b
    ensures live - a == live - b
  {
    forall x | x in live ensures x in a <==> x in b {
      assert x in live * a <==> x in live * b;
    }
  }

  /** A drain that stops early, for want of a wait or by an error, has not been brought everything. */
  lemma NotBrought(live: set<Addr>, waits: seq<Wait>, used: nat)
    requires 0 !in live && used <= |waits| && live - Reached(waits[..used]) != {}
    requires used == |waits| || waits[used].Err?
    ensures forall m :: AllKeyed(live, waits) ==> !BringsAll(live, waits, m)
  {
    hide Reached, AllKeyed, Brought;
    forall m: nat | AllKeyed(live, waits) && BringsAll(live, waits, m) ensures false {
      BroughtIsDrained(live, waits, m, used);
    }
  }

  lemma NothingDispatched(live: set<Addr>)
    ensures Dispatched(live, []) == [] && Addresses([]) == {} && Distinct([])
  {
  }

  lemma DispatchedOneMore(live: set<Addr>, packets: seq<Packet>, k: nat)
    requires k < |packets|
    ensures var seen := packets[..k];
            Dispatched(live, packets[..k + 1])
            == Dispatched(live, seen) + if packets[k].addr in live - Addresses(seen) then [packets[k]] else []
    ensures Addresses(packets[..k + 1]) == Addresses(packets[..k]) + {packets[k].addr}
  {
    assert packets[..k + 1][..k] == packets[..k];
    assert packets[..k + 1] == packets[..k] + [packets[k]];
    AddressesOneMore(packets[..k], packets[k]);
  }

  lemma NothingReached(live: set<Addr>, waits: seq<Wait>)
    ensures Reached(waits[..0]) == {} && DispatchedBy(live, waits[..0]) == []
  {
  }

  /** A wait takes the operations it names out of the live set, one dispatch each. */
  lemma AfterWait(live: set<Addr>, waits: seq<Wait>, used: nat)
    requires used < |waits| && waits[used].Ok?
    ensures var left, batch := live - Reached(waits[..used]), waits[used].value;
            && |left - Named(batch)| + |left * Named(batch)| == |left|
            && live - Reached(waits[..used + 1]) == left - Named(batch)
            && DispatchedBy(live, waits[..used + 1])
               == DispatchedBy(live, waits[..used]) + Dispatched(left, Operations(batch))
            && |Dispatched(left, Operations(batch))| == |left * Named(batch)|
  {
    hide Operations, Dispatched;
    var left, batch := live - Reached(waits[..used]), waits[used].value;
    assert left == (left - Named(batch)) + (left * Named(batch));
    assert waits[..used + 1][..used] == waits[..used];
    OneDispatchEach(left, Operations(batch));
  }
}
