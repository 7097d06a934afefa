/** The device side of a split virtqueue: popping chains, filling the used ring, asking to notify. */
module Virtqueue {
  import opened Words
  import opened RingWindow
  import opened EventIndex
  import opened Iovec

  /** VRING_DESC_F_NEXT is bit 0, VRING_DESC_F_WRITE bit 1, VRING_DESC_F_INDIRECT bit 2 of flags. */
  datatype Desc = Desc(addr: u64, len: u32, flags: u16, next: u16) {
    predicate HasNext() { flags % 2 == 1 }
    predicate IsWrite() { flags / 2 % 2 == 1 }
    predicate IsIndirect() { flags / 4 % 2 == 1 }
    function ToSegment(): Seg { Seg(addr, len) }
  }

  datatype UsedElem = UsedElem(id: u32, len: u32)

  /** A snapshot of the rings, of the indirect tables in guest memory and of the device's indices. */
  datatype Queue = Queue(
    desc: seq<Desc>, tables: map<u64, seq<Desc>>,
    availFlags: u16, availIdx: u16, availRing: seq<u16>, usedEvent: u16,
    usedIdx: u16, usedRing: seq<UsedElem>, availEvent: u16,
    lastAvailIdx: u16, lastNotifiedIdx: u16, useEventIdx: bool)
  {
    ghost predicate Valid() {
      RingSize(|desc|) && |availRing| == |usedRing| == |desc|
    }

    predicate Empty() { availIdx == lastAvailIdx }

    function Head(): u16
      requires 0 < |availRing|
    {
      availRing[Slot(lastAvailIdx, |availRing|)]
    }

    function Taken(): Queue { this.(lastAvailIdx := Wrap16(lastAvailIdx + 1)) }

    function Armed(): Queue {
      if useEventIdx then this.(availEvent := lastAvailIdx) else this
    }

    /** The used entry off places behind the published ones has been written. */
    function Stored(off: nat, e: UsedElem): Queue
      requires 0 < |usedRing|
    {
      this.(usedRing := usedRing[Slot(Wrap16(usedIdx + off), |usedRing|) := e])
    }

    function Published(n: nat): Queue { this.(usedIdx := Wrap16(usedIdx + n)) }

    predicate Answer() {
      if useEventIdx then NeedEvent(usedEvent, usedIdx, lastNotifiedIdx) else availFlags % 2 == 0
    }

    function Answered(): Queue {
      if useEventIdx && Answer() then this.(lastNotifiedIdx := usedIdx) else this
    }

    /** The head just popped, written back and published alone. */
    function Completed(head: u32, len: u32): Queue
      requires Valid()
    {
      Stored(0, UsedElem(head, len)).Published(1)
    }

    /** path is the chain the next pop will walk, and it fits a vector of cap entries. */
    ghost predicate Poppable(path: seq<nat>, cap: nat)
      requires Valid()
    {
      !Empty() ==>
        && Head() < |desc|
        && IsChain(Table(Head()).0, Table(Head()).1, path)
        && |path| <= cap < TWO16
    }

    /** The popped chain's table. */
    function HeadTable(): seq<Desc>
      requires Valid() && Head() < |desc|
    {
      Table(Head()).0
    }

    /** The table the chain at head h lives in, and where it starts. */
    function Table(h: u16): (seq<Desc>, nat)
      requires h < |desc|
    {
      if desc[h].IsIndirect() then
        (if desc[h].addr in tables then tables[desc[h].addr] else [], 0)
      else
        (desc, h)
    }
  }

  /** Write-back fills the slot behind the published entries, moves the used index one on, and nothing else. */
  lemma CompletedMeans(v: Queue, head: u32, len: u32)
    requires v.Valid()
    ensures var done := v.Completed(head, len);
            && done.usedRing == v.usedRing[v.usedIdx % |v.usedRing| := UsedElem(head, len)]
            && done == v.(usedRing := done.usedRing, usedIdx := (v.usedIdx + 1) % 0x1_0000)
  {
    hide RingSize;
    assert Wrap16(v.usedIdx) == v.usedIdx;
  }

  // ---- Descriptor chains ----

  /** path lists, in chain order, the descriptors reached from start; it is finite, so acyclic. */
  ghost predicate IsChain(table: seq<Desc>, start: nat, path: seq<nat>) {
    && 0 < |path| && path[0] == start
    && (forall i :: 0 <= i < |path| ==> path[i] < |table|)
    && (forall i :: 0 <= i < |path| - 1 ==> table[path[i]].HasNext() && table[path[i]].next == path[i + 1])
    && !table[path[|path| - 1]].HasNext()
  }

  /** The segments along the path. */
  function Segments(table: seq<Desc>, path: seq<nat>): (s: seq<Seg>)
    requires forall i :: 0 <= i < |path| ==> path[i] < |table|
    ensures |s| == |path|
  {
    seq(|path|, i requires 0 <= i < |path| => table[path[i]].ToSegment())
  }

  /** How many of the first n descriptors of the path are device-writable. */
  function Writable(table: seq<Desc>, path: seq<nat>, n: nat): (c: nat)
    requires n <= |path|
    requires forall i :: 0 <= i < |path| ==> path[i] < |table|
    ensures c <= n
  {
    if n == 0 then 0
    else Writable(table, path, n - 1) + (if table[path[n - 1]].IsWrite() then 1 else 0)
  }

  /** VIRTIO 1.1 section 2.6.4.2: device-readable descriptors come before device-writable ones. */
  ghost predicate ReadableFirst(table: seq<Desc>, path: seq<nat>)
    requires forall i :: 0 <= i < |path| ==> path[i] < |table|
  {
    forall i, j :: 0 <= i < j < |path| && table[path[i]].IsWrite() ==> table[path[j]].IsWrite()
  }

  /** The counters split the vector into a readable and a writable part exactly on ordered chains. */
  lemma {:induction false} CountersSplitChain(table: seq<Desc>, path: seq<nat>)
    requires forall i :: 0 <= i < |path| ==> path[i] < |table|
    ensures var out := |path| - Writable(table, path, |path|);
            ReadableFirst(table, path)
            <==> (forall i :: 0 <= i < |path| ==> (table[path[i]].IsWrite() <==> out <= i))
  {
    var n := |path|;
    var out := n - Writable(table, path, n);
    if ReadableFirst(table, path) {
      SplitPoint(table, path, n);
    }
  }

  lemma {:induction false} SplitPoint(table: seq<Desc>, path: seq<nat>, n: nat)
    requires forall i :: 0 <= i < |path| ==> path[i] < |table|
    requires n <= |path| && ReadableFirst(table, path)
    ensures forall i :: 0 <= i < n ==> (table[path[i]].IsWrite() <==> n - Writable(table, path, n) <= i)
  {
    if n > 0 {
      SplitPoint(table, path, n - 1);
      if n > 1 && !table[path[n - 1]].IsWrite() {
        assert !table[path[n - 2]].IsWrite();
      }
    }
  }

  /**
   Where a pop goes, in the bits of VIRTIO 1.1 section 2.6.5: a head whose flags have bit 2 leads to the start of the
   table at its address, any other is its own start; bit 0 says that the chain goes on, bit 1 that the device writes.
   */
  lemma PopFollowsFlags(v: Queue, path: seq<nat>)
    requires v.Valid() && !v.Empty() && v.Head() < |v.desc|
    requires IsChain(v.Table(v.Head()).0, v.Table(v.Head()).1, path)
    ensures var h, table := v.availRing[v.lastAvailIdx % |v.desc|], v.HeadTable();
            && v.Head() == h
            && (if v.desc[h].flags / 4 % 2 == 0 then table == v.desc && path[0] == h
                else v.desc[h].addr in v.tables && table == v.tables[v.desc[h].addr] && path[0] == 0)
            && (forall i :: 0 <= i < |path| ==> path[i] < |table|) && ListsInBits(table, path)
  {
    ChainInBits(v.HeadTable(), v.Table(v.Head()).1, path);
    hide ListsInBits, RingSize;
  }

  /** The chain goes on at the next field as long as bit 0 is set, lists address and length, and counts bit 1. */
  ghost predicate ListsInBits(table: seq<Desc>, path: seq<nat>)
    requires forall i :: 0 <= i < |path| ==> path[i] < |table|
  {
    && (forall i :: 0 <= i < |path| ==> (table[path[i]].flags % 2 == 1 <==> i < |path| - 1))
    && (forall i :: 0 <= i < |path| - 1 ==> path[i + 1] == table[path[i]].next)
    && (forall i :: 0 <= i < |path| ==> Segments(table, path)[i] == Seg(table[path[i]].addr, table[path[i]].len))
    && (forall n :: 0 < n <= |path| ==>
          (Writable(table, path, n) == Writable(table, path, n - 1) + table[path[n - 1]].flags / 2 % 2))
  }

  lemma ChainInBits(table: seq<Desc>, start: nat, path: seq<nat>)
    requires IsChain(table, start, path)
    ensures ListsInBits(table, path)
  {
  }

  /** From a given start there is at most one chain. */
  lemma {:induction false} ChainUnique(table: seq<Desc>, start: nat, p: seq<nat>, q: seq<nat>)
    requires IsChain(table, start, p) && IsChain(table, start, q)
    ensures p == q
    decreases |p|
  {
    if |p| > 1 && |q| > 1 {
      ChainTail(table, start, p);
      ChainTail(table, start, q);
      ChainUnique(table, p[1], p[1..], q[1..]);
      assert p == [start] + p[1..] && q == [start] + q[1..];
    }
  }

  lemma ChainTail(table: seq<Desc>, start: nat, p: seq<nat>)
    requires IsChain(table, start, p) && |p| > 1
    ensures IsChain(table, p[1], p[1..])
  {
    forall i | 0 <= i < |p[1..]| - 1
      ensures table[p[1..][i]].HasNext() && table[p[1..][i]].next == p[1..][i + 1]
    {
      assert p[1..][i] == p[i + 1] && p[1..][i + 1] == p[i + 2];
    }
  }

  lemma {:induction false} ChainSuffix(table: seq<Desc>, start: nat, p: seq<nat>, k: nat)
    requires IsChain(table, start, p) && k < |p|
    ensures IsChain(table, p[k], p[k..])
  {
    if k > 0 {
      ChainSuffix(table, start, p, k - 1);
      ChainTail(table, p[k - 1], p[k - 1..]);
      assert p[k - 1..][1..] == p[k..];
    } else {
      assert p[0..] == p;
    }
  }

  /** A chain visits no descriptor twice, so it has at most as many entries as its table. */
  lemma ChainFitsTable(table: seq<Desc>, start: nat, p: seq<nat>)
    requires IsChain(table, start, p)
    ensures forall i, j :: 0 <= i < j < |p| ==> p[i] != p[j]
    ensures |p| <= |table|
  {
    forall i, j | 0 <= i < j < |p|
      ensures p[i] != p[j]
    {
      ChainSuffix(table, start, p, i);
      ChainSuffix(table, start, p, j);
      if p[i] == p[j] {
        ChainUnique(table, p[i], p[i..], p[j..]);
      }
    }
    DistinctBounded(p, |table|);
  }

  lemma {:induction false} DistinctBounded(p: seq<nat>, n: nat)
    requires forall i, j :: 0 <= i < j < |p| ==> p[i] != p[j]
    requires forall i :: 0 <= i < |p| ==> p[i] < n
    ensures |p| <= n
  {
    if |p| > 0 {
      assert p[0] < n;
      if exists k :: 0 <= k < |p| && p[k] == n - 1 {
        var k :| 0 <= k < |p| && p[k] == n - 1;
        DistinctBounded(p[..k] + p[k + 1..], n - 1);
      } else {
        DistinctBounded(p, n - 1);
      }
    }
  }

  /** The chain of an indirect table copied into free slots of the main table, relinked through them. */
  ghost predicate Inlined(table: seq<Desc>, path: seq<nat>, main: seq<Desc>, slots: seq<nat>)
    requires forall i :: 0 <= i < |path| ==> path[i] < |table|
  {
    && |slots| == |path|
    && (forall i :: 0 <= i < |slots| ==> slots[i] < |main| && slots[i] < TWO16)
    && (forall i :: 0 <= i < |slots| ==>
          && main[slots[i]].ToSegment() == table[path[i]].ToSegment()
          && main[slots[i]].flags == table[path[i]].flags)
    && (forall i :: 0 <= i < |slots| - 1 ==> main[slots[i]].next == slots[i + 1])
  }

  /** Walking an indirect table gives the vector and counters of the same chain inlined. */
  lemma {:induction false} IndirectIsInlined(
    table: seq<Desc>, path: seq<nat>, main: seq<Desc>, slots: seq<nat>)
    requires IsChain(table, 0, path) && Inlined(table, path, main, slots)
    ensures IsChain(main, slots[0], slots)
    ensures Segments(main, slots) == Segments(table, path)
    ensures forall n :: 0 <= n <= |path| ==> Writable(main, slots, n) == Writable(table, path, n)
  {
    forall n | 0 <= n <= |path|
      ensures Writable(main, slots, n) == Writable(table, path, n)
    {
      SameWritable(table, path, main, slots, n);
    }
  }

  lemma {:induction false} SameWritable(
    table: seq<Desc>, path: seq<nat>, main: seq<Desc>, slots: seq<nat>, n: nat)
    requires forall i :: 0 <= i < |path| ==> path[i] < |table|
    requires Inlined(table, path, main, slots) && n <= |path|
    ensures Writable(main, slots, n) == Writable(table, path, n)
  {
    if n > 0 {
      SameWritable(table, path, main, slots, n - 1);
    }
  }

  /** The walk over one table: fills iov in chain order and counts the two kinds of descriptors. */
  method WalkChain(table: seq<Desc>, start: nat, iov: array<Seg>, ghost path: seq<nat>)
    returns (cntOut: u16, cntIn: u16)
    requires IsChain(table, start, path)
    requires |path| <= iov.Length < TWO16
    modifies iov
    ensures iov[..] == Segments(table, path) + old(iov[..])[|path|..]
    ensures cntIn == Writable(table, path, |path|)
    ensures cntOut + cntIn == |path|
  {
    cntOut, cntIn := 0, 0;
    var cur := start;
    ghost var n := 0;
    while true
      invariant n < |path| && cur == path[n] && cntOut + cntIn == n
      invariant cntIn == Writable(table, path, n)
      invariant forall k :: 0 <= k < n ==> iov[k] == table[path[k]].ToSegment()
      invariant forall k :: n <= k < iov.Length ==> iov[k] == old(iov[k])
      decreases |path| - n
    {
      iov[cntOut + cntIn] := table[cur].ToSegment();
      if table[cur].IsWrite() {
        cntIn := cntIn + 1;
      } else {
        cntOut := cntOut + 1;
      }
      n := n + 1;
      if !table[cur].HasNext() {
        break;
      }
      cur := table[cur].next;
    }
  }

  // ---- The queue object ----

  class Virtqueue {
    const desc: array<Desc>
    const availRing: array<u16>
    const usedRing: array<UsedElem>
    var tables: map<u64, seq<Desc>>
    var availFlags: u16
    var availIdx: u16
    var usedEvent: u16
    var usedIdx: u16
    var availEvent: u16
    var lastAvailIdx: u16
    var lastNotifiedIdx: u16
    var useEventIdx: bool

    constructor (desc: array<Desc>, availRing: array<u16>, usedRing: array<UsedElem>,
                 tables: map<u64, seq<Desc>>, useEventIdx: bool)
      requires RingSize(desc.Length) && availRing.Length == usedRing.Length == desc.Length
      ensures Valid()
      ensures this.desc == desc && this.availRing == availRing && this.usedRing == usedRing
      ensures View() == Queue(desc[..], tables, 0, 0, availRing[..], 0, 0, usedRing[..], 0, 0, 0, useEventIdx)
    {
      this.desc, this.availRing, this.usedRing, this.tables := desc, availRing, usedRing, tables;
      availFlags, availIdx, usedEvent, usedIdx, availEvent := 0, 0, 0, 0, 0;
      lastAvailIdx, lastNotifiedIdx, this.useEventIdx := 0, 0, useEventIdx;
    }

    ghost predicate Valid()
      reads this
    {
      RingSize(desc.Length) && availRing.Length == usedRing.Length == desc.Length
    }

    ghost function View(): (q: Queue)
      reads this, desc, availRing, usedRing
      ensures Valid() ==> q.Valid()
    {
      Queue(desc[..], tables, availFlags, availIdx, availRing[..], usedEvent,
            usedIdx, usedRing[..], availEvent, lastAvailIdx, lastNotifiedIdx, useEventIdx)
    }

    method UpdateUsedIdx(n: u16)
      requires Valid()
      modifies this`usedIdx
      ensures View() == old(View()).Published(n)
    {
      var idx := usedIdx;
      idx := Wrap16(idx + n);
      usedIdx := idx;
    }

    method AddUsedElem(id: u32, len: u32, off: u16)
      requires Valid()
      modifies usedRing
      ensures View() == old(View()).Stored(off, UsedElem(id, len))
    {
      var idx := Wrap16(usedIdx + off);
      usedRing[Slot(idx, usedRing.Length)] := UsedElem(id, len);
    }

    method UpdateUsedElem(id: u32, len: u32)
      requires Valid()
      modifies this`usedIdx, usedRing
      ensures View() == old(View()).Stored(0, UsedElem(id, len)).Published(1)
    {
      AddUsedElem(id, len, 0);
      UpdateUsedIdx(1);
    }

    /** Pops the oldest available chain into iov, or returns -1 without touching the queue. */
    method GetIov(iov: array<Seg>, ghost path: seq<nat>) returns (head: int, cntOut: u16, cntIn: u16)
      requires Valid()
      requires View().Poppable(path, iov.Length)
      modifies this`lastAvailIdx, this`availEvent, iov
      ensures old(View()).Empty() ==>
        head == -1 && cntOut == cntIn == 0 && View() == old(View()) && iov[..] == old(iov[..])
      ensures !old(View()).Empty() ==>
        && head == old(View()).Head()
        && View() == old(View()).Taken().Armed()
        && var table := old(View()).HeadTable();
        && iov[..] == Segments(table, path) + old(iov[..])[|path|..]
        && cntIn == Writable(table, path, |path|)
        && cntOut + cntIn == |path|
    {
      cntOut, cntIn := 0, 0;
      if availIdx == lastAvailIdx {
        return -1, 0, 0;
      }
      var handle := availRing[Slot(lastAvailIdx, availRing.Length)];
      lastAvailIdx := Wrap16(lastAvailIdx + 1);
      var table, cur := desc[..], handle;
      if desc[cur].IsIndirect() {
        table, cur := if desc[cur].addr in tables then tables[desc[cur].addr] else [], 0;
      }
      cntOut, cntIn := WalkChain(table, cur, iov, path);
      if useEventIdx {
        availEvent := lastAvailIdx;
      }
      head := handle;
    }

    method MustNotify() returns (yes: bool)
      requires Valid()
      modifies this`lastNotifiedIdx
      ensures yes == old(View()).Answer()
      ensures !useEventIdx ==> yes == (availFlags % 2 == 0) && lastNotifiedIdx == old(lastNotifiedIdx)
      ensures View() == old(View()).Answered()
    {
      if useEventIdx {
        if !NeedEvent(usedEvent, usedIdx, lastNotifiedIdx) {
          return false;
        }
        lastNotifiedIdx := usedIdx;
        return true;
      }
      return availFlags % 2 == 0;
    }
  }
}
