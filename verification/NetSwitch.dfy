/** The virtual switch: where a packet goes, who owns it afterwards, and the forwarding tables. */
module NetSwitch {
  import opened Words
  import opened DataPkt
  import opened PortEvents

  const MAC_LEN: nat := 6

  type Mac = m: seq<u8> | |m| == MAC_LEN witness [0, 0, 0, 0, 0, 0]

  predicate IsBroadcast(addr: Mac) {
    addr == [0xff, 0xff, 0xff, 0xff, 0xff, 0xff]
  }

  predicate IsMulticast(addr: Mac) {
    addr[0] == 0x01
  }

  ghost predicate Distinct(table: seq<Mac>) {
    forall i, j :: 0 <= i < j < |table| ==> table[i] != table[j]
  }

  lemma DropAt(table: seq<Mac>, i: nat)
    requires i < |table| && Distinct(table)
    ensures var rest := table[..i] + table[i + 1..];
            Distinct(rest) && table[i] !in rest && multiset(rest) == multiset(table) - multiset{table[i]}
  {
    assert table == table[..i] + [table[i]] + table[i + 1..];
  }

  /** The packets that can be freed, or those that cannot. */
  function Selected(q: seq<Packet>, canFree: bool): seq<Packet> {
    if q == [] then []
    else Selected(q[..|q| - 1], canFree) + if DataPkt.CanFree(q[|q| - 1].flags) == canFree then [q[|q| - 1]] else []
  }

  lemma SelectedNext(q: seq<Packet>, i: nat)
    requires i < |q|
    ensures var free := DataPkt.CanFree(q[i].flags);
            && Selected(q[..i + 1], free) == Selected(q[..i], free) + [q[i]]
            && Selected(q[..i + 1], !free) == Selected(q[..i], !free)
    ensures q[..i + 1] == q[..i] + [q[i]]
    ensures forall kept: seq<Packet> :: kept + [q[i]] + q[i + 1..] == kept + q[i..]
  {
    assert q[..i + 1][..i] == q[..i];
    assert q[i..] == [q[i]] + q[i + 1..];
  }

  lemma NothingSelected()
    ensures forall b :: Selected([], b) == []
  {
  }

  /**
   Selection keeps the order and looks at each packet by itself, at bit 0 of its flags: it distributes over
   concatenation, and takes the packets whose flags are odd to be those that can be freed.
   */
  lemma {:induction false} SelectedOfConcat(a: seq<Packet>, b: seq<Packet>, canFree: bool)
    ensures Selected(a + b, canFree) == Selected(a, canFree) + Selected(b, canFree)
  {
    if b == [] {
      assert a + b == a;
    } else {
      var n := |b| - 1;
      assert (a + b)[..|a + b| - 1] == a + b[..n] && (a + b)[|a + b| - 1] == b[n];
      SelectedOfConcat(a, b[..n], canFree);
    }
  }

  lemma SelectedOfOne(p: Packet, k: nat)
    ensures p.flags == 2 * k + 1 ==> Selected([p], true) == [p] && Selected([p], false) == []
    ensures p.flags == 2 * k ==> Selected([p], true) == [] && Selected([p], false) == [p]
  {
    assert [p][..0] == [];
  }

  /** Nothing is lost or doubled by the selection. */
  lemma {:induction false} SelectedSplits(q: seq<Packet>)
    ensures multiset(Selected(q, true)) + multiset(Selected(q, false)) == multiset(q)
  {
    if q != [] {
      hide Selected, DataPkt.CanFree;
      var n := |q| - 1;
      var free := DataPkt.CanFree(q[n].flags);
      SelectedSplits(q[..n]);
      SelectedNext(q, n);
      assert q[..n + 1] == q;
      assert multiset(Selected(q, free)) == multiset(Selected(q[..n], free)) + multiset{q[n]};
    } else {
      NothingSelected();
    }
  }

  class Port {
    const isLocal: bool
    var mac: Mac
    var powerOn: bool        // switch end of the cable
    var deviceOn: bool       // device end of the cable
    var dataOut: seq<Packet>
    var needNotify: bool
    var events: nat
    var fdb: seq<Mac>
    var fdbEnabled: bool
    var inDropped: nat

    constructor (isLocal: bool, mac: Mac)
      ensures this.isLocal == isLocal && this.mac == mac && FdbInv()
      ensures powerOn && dataOut == [] && fdb == [] && !needNotify && events == 0
    {
      this.isLocal, this.mac := isLocal, mac;
      powerOn, deviceOn, dataOut, needNotify, events := true, false, [], false, 0;
      fdb, fdbEnabled, inDropped := [], false, 0;
    }

    predicate LinkOn()
      reads `powerOn, `deviceOn
    {
      powerOn && deviceOn
    }

    /** The forwarding table is enabled exactly when it is not empty, and has no duplicates. */
    ghost predicate FdbInv()
      reads `fdb, `fdbEnabled
    {
      (fdbEnabled <==> fdb != []) && Distinct(fdb)
    }

    /** port_out_pkt: enqueue, then send an event at once from the tenth packet on, else raise the flag. */
    method Enqueue(pkt: Packet)
      modifies this`dataOut, this`needNotify, this`events
      ensures dataOut == old(dataOut) + [pkt]
      ensures (needNotify, events) == AfterEnqueue(|dataOut|, old(needNotify), old(events))
      ensures |dataOut| < 10 ==> needNotify && events == old(events)
      ensures |dataOut| >= 10 ==> needNotify == old(needNotify) && events > 0
                                  && (events == old(events) + 1 || (events == old(events) && events >= 100))
    {
      dataOut := dataOut + [pkt];
      if |dataOut| >= SEND_NOW {
        if events < EVENT_CAPACITY {
          events := events + 1;
        }
      } else {
        needNotify := true;
      }
    }

    /** The body of both loops of notify_ports. */
    method TurnFlagIntoEvent()
      modifies this`needNotify, this`events
      ensures !needNotify && events == AfterNotify(old(needNotify), old(events))
      ensures old(needNotify) ==> events > 0
      ensures old(needNotify) ==> events == old(events) + 1 || (events == old(events) && events >= 100)
      ensures !old(needNotify) ==> events == old(events)
    {
      if needNotify {
        needNotify := false;
        if events < EVENT_CAPACITY {
          events := events + 1;
        }
      }
    }

    /**
     One event of port_process_pkts, undisturbed: every queued packet goes to the output callback in order; those
     that can be freed leave the queue and are freed, the others stay and will go out again.
     */
    method ProcessEvent() returns (out: seq<Packet>, freed: seq<Packet>)
      requires events > 0
      modifies this`events, this`dataOut, dataOut`used
      ensures events == old(events) - 1 && out == old(dataOut)
      ensures dataOut == Selected(old(dataOut), false) && freed == Selected(old(dataOut), true)
    {
      hide Selected;
      events := events - 1;
      out, freed := [], [];
      var queue, kept := dataOut, [];
      NothingSelected();
      for i := 0 to |queue|
        invariant out == queue[..i] && kept == Selected(queue[..i], false) && freed == Selected(queue[..i], true)
        invariant dataOut == kept + queue[i..] && events == old(events) - 1
      {
        var pkt := queue[i];
        SelectedNext(queue, i);
        out := out + [pkt];
        if DataPkt.CanFree(pkt.flags) {
          dataOut := kept + queue[i + 1..];
          var toHeap := DataPkt.Free(pkt);
          freed := freed + [pkt];
        } else {
          kept := kept + [pkt];
        }
      }
      assert queue[..|queue|] == queue;
    }

    /** The loop over the table in both multicast branches. */
    method Matches(addr: Mac) returns (found: bool)
      ensures found == (addr in fdb)
    {
      for i := 0 to |fdb|
        invariant addr !in fdb[..i]
      {
        if fdb[i] == addr {
          return true;
        }
      }
      return false;
    }

    /** Returns -1, leaving the port alone, if the address is already there; powers the port on otherwise. */
    method AddFdbEntry(addr: Mac) returns (r: int)
      requires isLocal && FdbInv()
      modifies this`fdb, this`fdbEnabled, this`powerOn
      ensures FdbInv()
      ensures r == if addr in old(fdb) then -1 else 0
      ensures r == -1 ==> fdb == old(fdb) && powerOn == old(powerOn) && fdbEnabled == old(fdbEnabled)
      ensures r == 0 ==> fdb == old(fdb) + [addr] && powerOn && fdbEnabled
    {
      var found := Matches(addr);
      if found {
        return -1;
      }
      powerOn := false;
      fdb := fdb + [addr];
      if !fdbEnabled {
        fdbEnabled := true;
      }
      powerOn := true;
      r := 0;
    }

    method RemoveFdbEntry(addr: Mac) returns (r: int)
      requires isLocal && FdbInv()
      modifies this`fdb, this`fdbEnabled, this`powerOn
      ensures FdbInv()
      ensures r == if addr in old(fdb) then 0 else -1
      ensures r == -1 ==> fdb == old(fdb) && powerOn == old(powerOn) && fdbEnabled == old(fdbEnabled)
      ensures r == 0 ==> addr !in fdb && powerOn && multiset(fdb) == multiset(old(fdb)) - multiset{addr}
    {
      hide Distinct;
      if !fdbEnabled {
        return -1;
      }
      for i := 0 to |fdb|
        invariant addr !in fdb[..i]
        invariant fdb == old(fdb) && powerOn == old(powerOn) && fdbEnabled == old(fdbEnabled)
      {
        if fdb[i] == addr {
          powerOn := false;
          DropAt(fdb, i);
          fdb := fdb[..i] + fdb[i + 1..];
          if fdb == [] {
            fdbEnabled := false;
          }
          powerOn := true;
          return 0;
        }
      }
      return -1;
    }
  }

  /** A local port that should see a flooded frame: up, not its source, and subscribed if it is a multicast. */
  ghost predicate Wants(port: Port, src: Port, multicast: bool, addr: Mac)
    reads port`powerOn, port`deviceOn, port`fdb
  {
    port != src && port.powerOn && port.deviceOn && (multicast ==> addr in port.fdb)
  }

  ghost function JustOrNone(port: Port?): set<Port> {
    if port == null then {} else {port}
  }

  ghost predicate RemoteUp(remote: Port?)
    reads JustOrNone(remote)`powerOn, JustOrNone(remote)`deviceOn
  {
    remote != null && remote.powerOn && remote.deviceOn
  }

  // ---- Where packets go ----

  function OneOrNone(p: Packet?): seq<Packet> {
    if p == null then [] else [p]
  }

  /** Same frame, same flags. */
  ghost predicate CopyOf(copy: Packet, pkt: Packet)
    requires pkt.Valid()
    reads copy`data, copy`dataLen, copy`tail, copy`end, copy.buf, pkt`data, pkt`dataLen, pkt`tail, pkt`end, pkt.buf
  {
    copy.Valid() && copy.Frame() == pkt.Frame() && copy.flags == pkt.flags
  }

  class Switch {
    var locals: seq<Port>
    var remote: Port?
    ghost var freed: seq<Packet>  // every packet passed to data_pkt_free, in order

    ghost predicate Valid()
      reads `locals, `remote, locals`fdb, locals`fdbEnabled
    {
      && (forall i, j :: 0 <= i < j < |locals| ==> locals[i] != locals[j])
      && (forall i :: 0 <= i < |locals| ==> locals[i].isLocal && locals[i].FdbInv())
      && (remote != null ==> !remote.isLocal)
    }

    /** The port is one of this switch's. */
    ghost predicate Owns(port: Port)
      reads `locals, `remote
    {
      port in locals || port == remote
    }

    method Discard(pkt: Packet)
      modifies this`freed, pkt`used
      ensures freed == old(freed) + [pkt]
    {
      freed := freed + [pkt];
      var toHeap := DataPkt.Free(pkt);
    }

    ghost predicate HasAddress(port: Port, addr: Mac)
      reads port`powerOn, port`mac
    {
      port.powerOn && port.mac == addr
    }

    /** notify_ports: every raised flag becomes an event. */
    method NotifyPorts()
      requires Valid()
      modifies locals`needNotify, locals`events, JustOrNone(remote)`needNotify, JustOrNone(remote)`events
      ensures forall port: Port :: Owns(port) ==>
        !port.needNotify && port.events == AfterNotify(old(port.needNotify), old(port.events))
    {
      hide AfterNotify, Port.FdbInv;
      if remote != null {
        remote.TurnFlagIntoEvent();
      }
      for i := 0 to |locals|
        invariant forall k :: 0 <= k < i ==>
          !locals[k].needNotify && locals[k].events == AfterNotify(old(locals[k].needNotify), old(locals[k].events))
        invariant forall k :: i <= k < |locals| ==>
          locals[k].needNotify == old(locals[k].needNotify) && locals[k].events == old(locals[k].events)
        invariant remote != null ==>
          !remote.needNotify && remote.events == AfterNotify(old(remote.needNotify), old(remote.events))
      {
        locals[i].TurnFlagIntoEvent();
      }
    }

    /** The first powered local port with the address; if there is none, the remote port for frames from local ports. */
    ghost predicate IsDestination(port: Port?, src: Port, addr: Mac)
      reads `locals, `remote, locals`powerOn, locals`mac
    {
      if exists i :: 0 <= i < |locals| && HasAddress(locals[i], addr) then
        exists i :: 0 <= i < |locals| && port == locals[i] && HasAddress(locals[i], addr)
                    && forall j :: 0 <= j < i ==> !HasAddress(locals[j], addr)
      else port == if src.isLocal then remote else null
    }

    method FindDstPort(src: Port, addr: Mac) returns (port: Port?)
      ensures IsDestination(port, src, addr)
      ensures port == null || Owns(port)
    {
      for i := 0 to |locals|
        invariant forall j :: 0 <= j < i ==> !HasAddress(locals[j], addr)
      {
        if locals[i].powerOn && locals[i].mac == addr {
          assert HasAddress(locals[i], addr);
          return locals[i];
        }
      }
      if src.isLocal {
        return remote;
      }
      return null;
    }

    /** The queues of the local ports. */
    ghost function Queues(n: nat): (q: seq<seq<Packet>>)
      requires n <= |locals|
      reads `locals, locals`dataOut
      ensures |q| == n && forall k :: 0 <= k < n ==> q[k] == locals[k].dataOut
    {
      if n == 0 then [] else Queues(n - 1) + [locals[n - 1].dataOut]
    }

    /** Which of the first n local ports want a flooded frame. */
    ghost function Wishes(n: nat, src: Port, multicast: bool, addr: Mac): (w: seq<bool>)
      requires n <= |locals|
      reads `locals, locals`powerOn, locals`deviceOn, locals`fdb
      ensures |w| == n && forall k :: 0 <= k < n ==> w[k] == Wants(locals[k], src, multicast, addr)
    {
      if n == 0 then [] else Wishes(n - 1, src, multicast, addr) + [Wants(locals[n - 1], src, multicast, addr)]
    }

    /** The test in the two branches of broadcast and multicast; only the local branch looks at fdbEnabled. */
    method Selects(port: Port, src: Port, multicast: bool, addr: Mac) returns (yes: bool)
      requires port.FdbInv()
      ensures yes == (port.powerOn && port.deviceOn && (multicast ==> addr in port.fdb))
    {
      yes := port.LinkOn();
      if yes && multicast {
        if src.isLocal && !port.fdbEnabled {
          return false;
        }
        yes := port.Matches(addr);
      }
    }

    /** The body of the flooding loops for one local port. */
    method Offer(port: Port, src: Port, pkt: Packet, multicast: bool, addr: Mac, last: bool, allocOk: bool)
      returns (took: bool, copy: Packet?)
      requires port.isLocal && port.FdbInv() && pkt.Valid()
      modifies port`dataOut, port`needNotify, port`events
      ensures took == (!src.isLocal && last && Wants(port, src, multicast, addr))
      ensures copy != null <==> Wants(port, src, multicast, addr) && allocOk && !(!src.isLocal && last)
      ensures port.dataOut == old(port.dataOut) + (if took then [pkt] else OneOrNone(copy))
      ensures copy != null ==> fresh(copy) && fresh(copy.buf) && CopyOf(copy, pkt)
    {
      took, copy := false, null;
      var yes := Selects(port, src, multicast, addr);
      if yes && !(src.isLocal && port == src) {
        if !src.isLocal && last {
          port.Enqueue(pkt);
          took := true;
        } else {
          copy := DataPkt.Clone(pkt, allocOk);
          if copy != null {
            port.Enqueue(copy);
          }
        }
      }
    }

    /** One iteration of the loop; q0 and w are the queues and the wishes at its start. */
    method OfferNext(i: nat, src: Port, pkt: Packet, multicast: bool, addr: Mac, ok: seq<bool>,
                     ghost q0: seq<seq<Packet>>, ghost w: seq<bool>, ghost copies: seq<Packet?>)
      returns (took: bool, copy: Packet?)
      requires Valid() && pkt.Valid() && i < |locals|
      requires Offered(i, q0, Queues(|locals|), w, !src.isLocal, pkt, ok, copies)
      requires w[i] == Wants(locals[i], src, multicast, addr)
      requires AllApart(copies) && forall k :: 0 <= k < |copies| && copies[k] != null ==> CopyOf(copies[k], pkt)
      modifies locals`dataOut, locals`needNotify, locals`events
      ensures took == (!src.isLocal && i == |locals| - 1 && w[i])
      ensures Offered(i + 1, q0, Queues(|locals|), w, !src.isLocal, pkt, ok, copies + [copy])
      ensures copy != null ==> fresh(copy)
      ensures var c := copies + [copy];
              AllApart(c) && forall k :: 0 <= k < |c| && c[k] != null ==> CopyOf(c[k], pkt)
    {
      hide Wants, CopyOf, Port.FdbInv, AllApart;
      ghost var q := Queues(|locals|);
      took, copy := Offer(locals[i], src, pkt, multicast, addr, i == |locals| - 1, ok[i]);
      assert Queues(|locals|) == q[i := q[i] + if took then [pkt] else OneOrNone(copy)];
      OfferStep(i, q0, q, w, !src.isLocal, pkt, ok, copies, copy, took);
      ApartStep(copies, copy);
    }

    /** The loop over the local ports. */
    method FloodLocals(src: Port, pkt: Packet, multicast: bool, addr: Mac, ok: seq<bool>)
      returns (took: bool, ghost copies: seq<Packet?>)
      requires Valid() && pkt.Valid() && |ok| == |locals|
      modifies locals`dataOut, locals`needNotify, locals`events
      ensures Offered(|locals|, old(Queues(|locals|)), Queues(|locals|), old(Wishes(|locals|, src, multicast, addr)),
                      !src.isLocal, pkt, ok, copies)
      ensures took == (!src.isLocal && locals != [] && old(Wants(locals[|locals| - 1], src, multicast, addr)))
      ensures AllApart(copies) && (forall k :: 0 <= k < |copies| && copies[k] != null ==> fresh(copies[k]))
      ensures forall k :: 0 <= k < |copies| && copies[k] != null ==> CopyOf(copies[k], pkt)
    {
      hide Wants, CopyOf, Offered, AllApart, Switch.Valid, Packet.Valid, OneOrNone, Queues, Wishes;
      copies, took := [], false;
      ghost var q0, w := Queues(|locals|), Wishes(|locals|, src, multicast, addr);
      NothingOffered(q0, w, !src.isLocal, pkt, ok);
      for i := 0 to |locals|
        invariant |copies| == i && Offered(i, q0, Queues(|locals|), w, !src.isLocal, pkt, ok, copies)
        invariant took == (!src.isLocal && i == |locals| && i > 0 && w[i - 1])
        invariant AllApart(copies) && (forall k :: 0 <= k < |copies| && copies[k] != null ==> fresh(copies[k]))
        invariant forall k :: 0 <= k < |copies| && copies[k] != null ==> CopyOf(copies[k], pkt)
      {
        ghost var copy;
        took, copy := OfferNext(i, src, pkt, multicast, addr, ok, q0, w, copies);
        copies := copies + [copy];
      }
    }

    /** The end of both flooding functions: the remote port for frames from local ports, else data_pkt_free. */
    method PassOn(src: Port, pkt: Packet, took: bool)
      requires Valid()
      modifies this`freed, pkt`used
      modifies JustOrNone(remote)`dataOut, JustOrNone(remote)`needNotify, JustOrNone(remote)`events
      ensures remote != null ==>
        remote.dataOut == old(remote.dataOut) + if src.isLocal && old(RemoteUp(remote)) then [pkt] else []
      ensures freed == old(freed) + if took || (src.isLocal && old(RemoteUp(remote))) then [] else [pkt]
      ensures Queues(|locals|) == old(Queues(|locals|))
    {
      hide Port.FdbInv;
      var needFree := !took;
      if src.isLocal && remote != null && remote.LinkOn() {
        remote.Enqueue(pkt);
        needFree := false;
      }
      if needFree {
        Discard(pkt);
      }
    }

    /** The port that gets a flooded packet itself: the remote port, or the last local port if it wants the packet. */
    ghost function Taker(src: Port, multicast: bool, addr: Mac): (at: Port?)
      reads `locals, `remote, locals`powerOn, locals`deviceOn, locals`fdb
      reads JustOrNone(remote)`powerOn, JustOrNone(remote)`deviceOn
      ensures at == null || Owns(at)
      ensures src.isLocal ==> at == if RemoteUp(remote) then remote else null
      ensures !src.isLocal ==>
        at == if locals != [] && Wants(locals[|locals| - 1], src, multicast, addr) then locals[|locals| - 1] else null
    {
      if src.isLocal then (if RemoteUp(remote) then remote else null)
      else if locals != [] && Wants(locals[|locals| - 1], src, multicast, addr) then locals[|locals| - 1]
      else null
    }

    /** The queue of the remote port. */
    ghost function RemoteQueue(): seq<Packet>
      reads `remote, JustOrNone(remote)`dataOut
    {
      if remote == null then [] else remote.dataOut
    }

    /**
     The flooding functions in the fields, q0 and r0 being the queues before: a local port's queue grows by one if the
     port is not the source, is on at both ends of its cable and, for a multicast, has the address in its table, and if
     the copy could be allocated or the port is the one that takes the packet itself; otherwise it is as it was.
     */
    ghost predicate Flooded(q0: seq<seq<Packet>>, r0: seq<Packet>, src: Port, multicast: bool, addr: Mac, ok: seq<bool>)
      reads `locals, `remote, locals`dataOut, locals`powerOn, locals`deviceOn, locals`fdb
      reads JustOrNone(remote)`dataOut, JustOrNone(remote)`powerOn, JustOrNone(remote)`deviceOn
    {
      && |q0| == |ok| == |locals|
      && (forall k :: 0 <= k < |locals| ==>
            var p := locals[k];
            Grown(q0[k], p.dataOut,
                  p != src && p.powerOn && p.deviceOn && (multicast ==> addr in p.fdb)
                  && (ok[k] || (!src.isLocal && k == |locals| - 1))))
      && (remote != null ==> Grown(r0, remote.dataOut, src.isLocal && remote.powerOn && remote.deviceOn))
    }

    lemma FloodInFields(q0: seq<seq<Packet>>, r0: seq<Packet>, src: Port, pkt: Packet, multicast: bool, addr: Mac,
                        ok: seq<bool>, at: Port?, copies: seq<Packet?>)
      requires Valid() && |q0| == |ok| == |locals| && at == Taker(src, multicast, addr)
      requires Placed(q0, Queues(|locals|), locals, at, pkt, copies)
      requires Reached(Wishes(|locals|, src, multicast, addr), ok, locals, at, copies)
      requires remote != null ==> remote.dataOut == r0 + if at == remote then [pkt] else []
      ensures Flooded(q0, r0, src, multicast, addr, ok)
    {
      hide Placed, Reached, Queues, Wishes, Port.FdbInv, Distinct, Grown;
      FloodCounts(q0, Queues(|locals|), Wishes(|locals|, src, multicast, addr), !src.isLocal, ok, locals, at, pkt, copies);
      if remote != null {
        RemoteGrows(r0, remote.dataOut, pkt, at == remote);
      }
    }

    /** broadcast_pkt and multicast_pkt. ok[k] says whether an allocation for the k-th port succeeds. */
    method Flood(src: Port, pkt: Packet, multicast: bool, addr: Mac, ok: seq<bool>)
      returns (ghost at: Port?, ghost copies: seq<Packet?>)
      requires Valid() && pkt.Valid() && |ok| == |locals|
      modifies this`freed, pkt`used
      modifies locals`dataOut, locals`needNotify, locals`events
      modifies JustOrNone(remote)`dataOut, JustOrNone(remote)`needNotify, JustOrNone(remote)`events
      ensures at == old(Taker(src, multicast, addr))
      ensures Placed(old(Queues(|locals|)), Queues(|locals|), locals, at, pkt, copies)
      ensures Reached(old(Wishes(|locals|, src, multicast, addr)), ok, locals, at, copies)
      ensures remote != null ==> remote.dataOut == old(remote.dataOut) + if at == remote then [pkt] else []
      ensures freed == old(freed) + if at == null then [pkt] else []
      ensures Flooded(old(Queues(|locals|)), old(RemoteQueue()), src, multicast, addr, ok)
      ensures AllApart(copies) && (forall k :: 0 <= k < |copies| && copies[k] != null ==> fresh(copies[k]))
      ensures forall k :: 0 <= k < |copies| && copies[k] != null ==> CopyOf(copies[k], pkt)
    {
      hide Wants, CopyOf, Placed, Reached, AllApart, Port.FdbInv, Queues, Wishes, Taker, Flooded, Owns, Switch.Valid;
      ghost var q0, r0 := Queues(|locals|), RemoteQueue();
      at, copies := FloodAndPass(src, pkt, multicast, addr, ok);
      FloodInFields(q0, r0, src, pkt, multicast, addr, ok, at, copies);
    }

    method FloodAndPass(src: Port, pkt: Packet, multicast: bool, addr: Mac, ok: seq<bool>)
      returns (ghost at: Port?, ghost copies: seq<Packet?>)
      requires Valid() && pkt.Valid() && |ok| == |locals|
      modifies this`freed, pkt`used
      modifies locals`dataOut, locals`needNotify, locals`events
      modifies JustOrNone(remote)`dataOut, JustOrNone(remote)`needNotify, JustOrNone(remote)`events
      ensures at == old(Taker(src, multicast, addr))
      ensures Placed(old(Queues(|locals|)), Queues(|locals|), locals, at, pkt, copies)
      ensures Reached(old(Wishes(|locals|, src, multicast, addr)), ok, locals, at, copies)
      ensures remote != null ==> remote.dataOut == old(remote.dataOut) + if at == remote then [pkt] else []
      ensures freed == old(freed) + if at == null then [pkt] else []
      ensures AllApart(copies) && (forall k :: 0 <= k < |copies| && copies[k] != null ==> fresh(copies[k]))
      ensures forall k :: 0 <= k < |copies| && copies[k] != null ==> CopyOf(copies[k], pkt)
    {
      hide Wants, CopyOf, Offered, Placed, Reached, AllApart, Port.FdbInv, Queues, Wishes, Taker;
      ghost var q0, w := Queues(|locals|), Wishes(|locals|, src, multicast, addr);
      at := Taker(src, multicast, addr);
      var took;
      took, copies := FloodLocals(src, pkt, multicast, addr, ok);
      FloodPlaces(q0, Queues(|locals|), w, !src.isLocal, pkt, ok, copies, locals, at);
      PassOn(src, pkt, took);
    }

    /** Whose queue changed is on at both ends of its cable. */
    ghost predicate OnlyLive(q0: seq<seq<Packet>>, r0: seq<Packet>)
      reads `locals, `remote, locals`dataOut, locals`powerOn, locals`deviceOn
      reads JustOrNone(remote)`dataOut, JustOrNone(remote)`powerOn, JustOrNone(remote)`deviceOn
    {
      && |q0| == |locals|
      && (forall k :: 0 <= k < |locals| ==> locals[k].dataOut != q0[k] ==> locals[k].powerOn && locals[k].deviceOn)
      && (remote != null && remote.dataOut != r0 ==> remote.powerOn && remote.deviceOn)
    }

    lemma FloodIsLive(q0: seq<seq<Packet>>, r0: seq<Packet>, src: Port, multicast: bool, addr: Mac, ok: seq<bool>)
      requires Flooded(q0, r0, src, multicast, addr, ok)
      ensures OnlyLive(q0, r0)
    {
    }

    /** There is only one destination. */
    lemma OneDestination(src: Port, addr: Mac, d: Port?, e: Port?)
      requires IsDestination(d, src, addr) && IsDestination(e, src, addr)
      ensures d == e
    {
      if exists i :: 0 <= i < |locals| && HasAddress(locals[i], addr) {
        var i :| 0 <= i < |locals| && d == locals[i] && HasAddress(locals[i], addr)
                 && forall j :: 0 <= j < i ==> !HasAddress(locals[j], addr);
        var k :| 0 <= k < |locals| && e == locals[k] && HasAddress(locals[k], addr)
                 && forall j :: 0 <= j < k ==> !HasAddress(locals[j], addr);
        assert i == k;
      }
    }

    /** switch_pkt when the address is neither broadcast nor multicast. */
    method Unicast(src: Port, pkt: Packet, addr: Mac) returns (ghost at: Port?)
      requires Valid() && Owns(src)
      modifies this`freed, pkt`used, src`inDropped
      modifies locals`dataOut, locals`needNotify, locals`events
      modifies JustOrNone(remote)`dataOut, JustOrNone(remote)`needNotify, JustOrNone(remote)`events
      ensures forall k :: 0 <= k < |locals| ==>
        locals[k].dataOut == old(locals[k].dataOut) + if locals[k] == at then [pkt] else []
      ensures remote != null ==> remote.dataOut == old(remote.dataOut) + if at == remote then [pkt] else []
      ensures freed == old(freed) + if at == null then [pkt] else []
      ensures at == null || Owns(at)
      ensures exists d :: IsDestination(d, src, addr) && at == if d != null && d.powerOn && d.deviceOn then d else null
      ensures src.inDropped == old(src.inDropped) + if at == null then 1 else 0
      ensures OnlyLive(old(Queues(|locals|)), old(RemoteQueue()))
    {
      hide Port.FdbInv, Switch.IsDestination;
      var out := FindDstPort(src, addr);
      if out != null && out.LinkOn() {
        out.Enqueue(pkt);
        at := out;
      } else {
        at := null;
        Discard(pkt);
        src.inDropped := src.inDropped + 1;
      }
      assert IsDestination(out, src, addr);
    }

    /**
     switch_pkt. The packet ends at one port, or is freed: at is that port, or null.
     copies[k] is the packet cloned for the k-th local port.
     */
    method SwitchPkt(port: Port, pkt: Packet, ok: seq<bool>) returns (ghost at: Port?, ghost copies: seq<Packet?>)
      requires Valid() && pkt.Valid() && Owns(port) && |ok| == |locals|
      requires pkt.data + MAC_LEN <= pkt.buf.Length
      modifies this`freed, pkt`used, port`inDropped
      modifies locals`dataOut, locals`needNotify, locals`events
      modifies JustOrNone(remote)`dataOut, JustOrNone(remote)`needNotify, JustOrNone(remote)`events
      ensures Placed(old(Queues(|locals|)), Queues(|locals|), locals, at, pkt, copies)
      ensures remote != null ==> remote.dataOut == old(remote.dataOut) + if at == remote then [pkt] else []
      ensures freed == old(freed) + if at == null then [pkt] else []
      ensures at == null || Owns(at)
      ensures AllApart(copies) && (forall k :: 0 <= k < |copies| && copies[k] != null ==> fresh(copies[k]))
      ensures forall k :: 0 <= k < |copies| && copies[k] != null ==> CopyOf(copies[k], pkt)
      ensures OnlyLive(old(Queues(|locals|)), old(RemoteQueue()))
      ensures var addr := pkt.buf[pkt.data..pkt.data + MAC_LEN];
              var all := addr == [0xff, 0xff, 0xff, 0xff, 0xff, 0xff];
              if all || addr[0] == 0x01 then
                && Reached(old(Wishes(|locals|, port, !all, addr)), ok, locals, at, copies)
                && at == old(Taker(port, !all, addr))
                && Flooded(old(Queues(|locals|)), old(RemoteQueue()), port, !all, addr, ok)
                && port.inDropped == old(port.inDropped)
              else
                && (exists d :: IsDestination(d, port, addr) && at == if d != null && d.powerOn && d.deviceOn then d else null)
                && port.inDropped == old(port.inDropped) + if at == null then 1 else 0
    {
      hide Wants, CopyOf, Placed, Reached, AllApart, Port.FdbInv, Port.LinkOn, Queues, Wishes, Switch.IsDestination, Switch.Taker, Flooded, RemoteQueue, OnlyLive;
      ghost var q0, r0 := Queues(|locals|), RemoteQueue();
      var addr := pkt.buf[pkt.data..pkt.data + MAC_LEN];
      if IsBroadcast(addr) {
        at, copies := Flood(port, pkt, false, addr, ok);
        FloodIsLive(q0, r0, port, false, addr, ok);
      } else if IsMulticast(addr) {
        at, copies := Flood(port, pkt, true, addr, ok);
        FloodIsLive(q0, r0, port, true, addr, ok);
      } else {
        at := Unicast(port, pkt, addr);
        copies := seq(|locals|, _ => null);
        UnicastPlaces(q0, Queues(|locals|), pkt, locals, at);
      }
    }
  }

  /** The packet is in the queue of port at, if that is local, and the k-th copy in the k-th queue. */
  ghost predicate Placed(q0: seq<seq<Packet>>, q: seq<seq<Packet>>, ports: seq<Port>, at: Port?, pkt: Packet,
                         copies: seq<Packet?>)
  {
    && |q0| == |q| == |ports| == |copies|
    && (forall k :: 0 <= k < |q| ==> q[k] == q0[k] + if ports[k] == at then [pkt] else OneOrNone(copies[k]))
    && (forall k :: 0 <= k < |q| ==> ports[k] == at ==> copies[k] == null)
  }

  /** Only ports that want the packet get it, and all of them whose allocation succeeds. */
  ghost predicate Reached(wants: seq<bool>, ok: seq<bool>, ports: seq<Port>, at: Port?, copies: seq<Packet?>)
    requires |wants| == |ok| == |ports|
  {
    && |copies| == |ports|
    && (forall k :: 0 <= k < |ports| ==> ports[k] == at ==> wants[k])
    && (forall k :: 0 <= k < |ports| ==> (copies[k] != null <==> wants[k] && ok[k] && ports[k] != at))
  }

  ghost predicate AllApart(copies: seq<Packet?>) {
    forall i, j :: 0 <= i < j < |copies| && copies[i] != null ==> copies[i] != copies[j]
  }

  lemma ApartStep(copies: seq<Packet?>, copy: Packet?)
    requires AllApart(copies) && (copy != null ==> copy !in copies)
    ensures AllApart(copies + [copy])
  {
  }

  lemma FloodPlaces(q0: seq<seq<Packet>>, q: seq<seq<Packet>>, wants: seq<bool>, handLast: bool, pkt: Packet,
                    ok: seq<bool>, copies: seq<Packet?>, ports: seq<Port>, at: Port?)
    requires |ports| == |q| && Offered(|q|, q0, q, wants, handLast, pkt, ok, copies)
    requires forall i, j :: 0 <= i < j < |ports| ==> ports[i] != ports[j]
    requires if handLast then at == if |q| > 0 && wants[|q| - 1] then ports[|q| - 1] else null else at !in ports
    ensures Placed(q0, q, ports, at, pkt, copies) && Reached(wants, ok, ports, at, copies)
  {
    forall k | 0 <= k < |q|
      ensures ports[k] == at <==> handLast && k == |q| - 1 && wants[k]
    {
    }
  }

  /** The queue has one packet more, or is as it was. */
  ghost predicate Grown(q0: seq<Packet>, q: seq<Packet>, yes: bool) {
    if yes then |q| == |q0| + 1 && q0 <= q else q == q0
  }

  lemma FloodCounts(q0: seq<seq<Packet>>, q: seq<seq<Packet>>, wants: seq<bool>, handLast: bool, ok: seq<bool>,
                    ports: seq<Port>, at: Port?, pkt: Packet, copies: seq<Packet?>)
    requires |wants| == |ok| == |ports| == |q0| == |q|
    requires Placed(q0, q, ports, at, pkt, copies) && Reached(wants, ok, ports, at, copies)
    requires forall i, j :: 0 <= i < j < |ports| ==> ports[i] != ports[j]
    requires if handLast then at == if |q| > 0 && wants[|q| - 1] then ports[|q| - 1] else null else at !in ports
    ensures forall k :: 0 <= k < |ports| ==> Grown(q0[k], q[k], wants[k] && (ok[k] || (handLast && k == |ports| - 1)))
  {
    forall k | 0 <= k < |ports|
      ensures Grown(q0[k], q[k], wants[k] && (ok[k] || (handLast && k == |ports| - 1)))
    {
    }
  }

  lemma RemoteGrows(q0: seq<Packet>, q: seq<Packet>, pkt: Packet, yes: bool)
    requires q == q0 + if yes then [pkt] else []
    ensures Grown(q0, q, yes)
  {
  }

  lemma UnicastPlaces(q0: seq<seq<Packet>>, q: seq<seq<Packet>>, pkt: Packet, ports: seq<Port>, at: Port?)
    requires |q0| == |q| == |ports|
    requires forall k :: 0 <= k < |q| ==> q[k] == q0[k] + if ports[k] == at then [pkt] else []
    ensures Placed(q0, q, ports, at, pkt, seq(|ports|, _ => null)) && AllApart(seq(|ports|, _ => null))
  {
  }

  /**
   What the local queues q are when a frame has been offered to the first n ports, q0 before: the last port may
   take the packet itself, and every other port that wants it gets a copy, as allocation allows.
   */
  ghost predicate Offered(n: nat, q0: seq<seq<Packet>>, q: seq<seq<Packet>>, wants: seq<bool>, handLast: bool,
                          pkt: Packet, ok: seq<bool>, copies: seq<Packet?>)
  {
    && |copies| == n <= |q0| == |q| == |wants| == |ok|
    && (forall k :: 0 <= k < n ==>
          (copies[k] != null <==> wants[k] && ok[k] && !(handLast && k == |q| - 1)))
    && (forall k :: 0 <= k < n ==>
          q[k] == q0[k] + if handLast && k == |q| - 1 && wants[k] then [pkt] else OneOrNone(copies[k]))
    && (forall k :: n <= k < |q| ==> q[k] == q0[k])
  }

  lemma NothingOffered(q0: seq<seq<Packet>>, wants: seq<bool>, handLast: bool, pkt: Packet, ok: seq<bool>)
    requires |q0| == |wants| == |ok|
    ensures Offered(0, q0, q0, wants, handLast, pkt, ok, []) && AllApart([])
  {
  }

  lemma OfferStep(n: nat, q0: seq<seq<Packet>>, q: seq<seq<Packet>>, wants: seq<bool>, handLast: bool, pkt: Packet,
                  ok: seq<bool>, copies: seq<Packet?>, copy: Packet?, took: bool)
    requires Offered(n, q0, q, wants, handLast, pkt, ok, copies) && n < |q|
    requires took == (handLast && n == |q| - 1 && wants[n])
    requires copy != null <==> wants[n] && ok[n] && !(handLast && n == |q| - 1)
    ensures Offered(n + 1, q0, q[n := q[n] + if took then [pkt] else OneOrNone(copy)], wants, handLast, pkt, ok,
                    copies + [copy])
  {
    var q', c := q[n := q[n] + if took then [pkt] else OneOrNone(copy)], copies + [copy];
    forall k | 0 <= k < n + 1
      ensures c[k] != null <==> wants[k] && ok[k] && !(handLast && k == |q| - 1)
      ensures q'[k] == q0[k] + if handLast && k == |q| - 1 && wants[k] then [pkt] else OneOrNone(c[k])
    {
      assert k < n ==> c[k] == copies[k] && q'[k] == q[k];
    }
  }
}
