/** The network device's data paths over its two virtqueues. */
module VirtioNet {
  import opened Words
  import opened RingWindow
  import opened Iovec
  import opened Virtqueue
  import SplitRing

  const COAL_CNT: nat := 100

  // ---- Interrupt coalescing ----

  /** Interrupts raised to the front end, directly or through the one-shot timer. */
  datatype Pacing = Pacing(timerActive: bool, raised: nat)

  datatype PacingEvent = Request(cnt: nat) | Expiry

  predicate Immediate(ticks: nat, cnt: nat) {
    ticks == 0 || cnt >= COAL_CNT
  }

  function Paced(ticks: nat, p: Pacing, e: PacingEvent): Pacing {
    match e
    case Request(cnt) => if Immediate(ticks, cnt) then p.(raised := p.raised + 1) else p.(timerActive := true)
    case Expiry => if p.timerActive then Pacing(false, p.raised + 1) else p
  }

  function PacedAll(ticks: nat, p: Pacing, es: seq<PacingEvent>): Pacing {
    if es == [] then p else Paced(ticks, PacedAll(ticks, p, es[..|es| - 1]), es[|es| - 1])
  }

  /** Whatever happens after a request, an interrupt has been raised since or the timer is still to raise one. */
  lemma {:induction false} RequestAnswered(ticks: nat, p: Pacing, cnt: nat, es: seq<PacingEvent>)
    ensures var q := PacedAll(ticks, Paced(ticks, p, Request(cnt)), es);
            q.raised > p.raised || (q.timerActive && q.raised == p.raised)
  {
    if es != [] {
      RequestAnswered(ticks, p, cnt, es[..|es| - 1]);
    }
  }

  /** And the timer's expiry is enough. */
  lemma ExpiryAnswers(ticks: nat, p: Pacing, cnt: nat, es: seq<PacingEvent>)
    ensures PacedAll(ticks, Paced(ticks, p, Request(cnt)), es + [Expiry]).raised > p.raised
  {
    RequestAnswered(ticks, p, cnt, es);
    assert (es + [Expiry])[..|es|] == es;
  }

  /**
   What a queue with cnt packets behind it got when it said whether it must notify: nothing, or an interrupt at once
   if there is no coalescing time or 100 packets are behind it, or else the running timer. Only the interrupt
   restarts the count.
   */
  twostate predicate Signalled(irq: Interrupter, yes: bool, cnt: nat, cnt': nat)
    reads irq
  {
    if !yes then irq.raised == old(irq.raised) && irq.timerActive == old(irq.timerActive) && cnt' == cnt
    else if irq.ticks == 0 || cnt >= 100 then
      irq.raised == old(irq.raised) + 1 && irq.timerActive == old(irq.timerActive) && cnt' == 0
    else irq.raised == old(irq.raised) && irq.timerActive && cnt' == cnt
  }

  class Interrupter {
    const ticks: nat      // the coalescing time in timer ticks
    var timerActive: bool
    var raised: nat

    constructor (ticks: nat)
      ensures this.ticks == ticks && View() == Pacing(false, 0)
    {
      this.ticks, timerActive, raised := ticks, false, 0;
    }

    ghost function View(): Pacing
      reads this
    {
      Pacing(timerActive, raised)
    }

    /** A queue that must notify gets an interrupt now or finds the timer running. */
    method Request(cnt: nat) returns (cnt': nat)
      modifies this
      ensures View() == Paced(ticks, old(View()), PacingEvent.Request(cnt))
      ensures Signalled(this, true, cnt, cnt')
    {
      cnt' := cnt;
      if ticks == 0 || cnt >= COAL_CNT {
        raised := raised + 1;
        cnt' := 0;
      } else if !timerActive {
        timerActive := true;
      }
    }

    /** kick_timer_callback. */
    method TimerExpires()
      requires timerActive
      modifies this
      ensures View() == Paced(ticks, old(View()), Expiry)
      ensures raised == old(raised) + 1 && !timerActive
    {
      timerActive := false;
      raised := raised + 1;
    }
  }

  // ---- Transmit ----

  /** The readable part of the chain about to be popped. */
  function OutSegs(v: Queue, path: seq<nat>): (s: seq<Seg>)
    requires v.Valid() && v.Head() < |v.desc|
    requires forall i :: 0 <= i < |path| ==> path[i] < |v.HeadTable()|
  {
    Segments(v.HeadTable(), path)[..|path| - Writable(v.HeadTable(), path, |path|)]
  }

  /** The queue once the popped chain is published as used with the length of its readable part. */
  function TxDone(v: Queue, path: seq<nat>): Queue
    requires v.Valid() && v.Head() < |v.desc|
    requires forall i :: 0 <= i < |path| ==> path[i] < |v.HeadTable()|
  {
    v.Taken().Armed().Completed(v.Head(), Wrap32(Total(OutSegs(v, path), 0)))
  }

  /** What goes to the switch: everything readable behind the header segment, if the link is on. */
  function Forwarded(linkOn: bool, segs: seq<Seg>): seq<Seg> {
    if linkOn && segs != [] then segs[1..] else []
  }

  /**
   The segments of segs but the first, which holds the virtio header; so in every memory, the bytes of segs without
   those of the first.
   */
  ghost predicate FrameOnly(sent: seq<Seg>, segs: seq<Seg>) {
    && (segs == [] ==> sent == [])
    && (segs != [] ==> |sent| == |segs| - 1 && forall i :: 0 <= i < |sent| ==> sent[i] == segs[i + 1])
    && forall m: seq<u8> :: InMemory(segs, |m|) && segs != [] ==>
         && InMemory(sent, |m|) && segs[0].len <= |Gather(m, segs, 0)|
         && Gather(m, sent, 0) == Gather(m, segs, 0)[segs[0].len..]
  }

  lemma HeaderStays(segs: seq<Seg>)
    ensures FrameOnly(Forwarded(true, segs), segs) && Forwarded(false, segs) == []
  {
    hide Gather;
    forall m: seq<u8> | InMemory(segs, |m|) && segs != []
      ensures InMemory(Forwarded(true, segs), |m|) && segs[0].len <= |Gather(m, segs, 0)|
      ensures Gather(m, Forwarded(true, segs), 0) == Gather(m, segs, 0)[segs[0].len..]
    {
      GatherFrom(m, segs, 0);
      assert segs[1..][0..] == segs[1..];
      GatherSame(m, segs[1..], 0, segs, 1);
    }
  }

  /** A chain posted as VIRTIO 1.1 asks lists its readable descriptors first, and its readable part is just those. */
  lemma ReadablePart(v: Queue, path: seq<nat>)
    requires v.Valid() && v.Head() < |v.desc|
    requires forall i :: 0 <= i < |path| ==> path[i] < |v.HeadTable()|
    requires ReadableFirst(v.HeadTable(), path)
    ensures var segs, table := OutSegs(v, path), v.HeadTable();
            && |segs| <= |path|
            && (forall i :: 0 <= i < |path| ==> (i < |segs| <==> table[path[i]].flags / 2 % 2 == 0))
            && (forall i :: 0 <= i < |segs| ==> segs[i] == Seg(table[path[i]].addr, table[path[i]].len))
  {
    CountersSplitChain(v.HeadTable(), path);
  }

  /**
   What a round means for a chain that holds a header in its first segment and a frame behind it: exactly the bytes
   of the frame go to the switch, and the used entry reports the bytes of both.
   */
  lemma FrameBehindHeader(v: Queue, path: seq<nat>, m: seq<u8>, header: seq<u8>, frame: seq<u8>, sent: seq<Seg>)
    requires v.Valid() && v.Head() < |v.desc|
    requires forall i :: 0 <= i < |path| ==> path[i] < |v.HeadTable()|
    requires var segs := OutSegs(v, path);
             && FrameOnly(sent, segs) && InMemory(segs, |m|) && segs != [] && segs[0].len == |header|
             && Gather(m, segs, 0) == header + frame
    ensures InMemory(sent, |m|) && Gather(m, sent, 0) == frame
    ensures WrittenBack(v, TxDone(v, path), |header| + |frame|)
  {
    hide Gather, OutSegs, Total, InMemory, TxDone, WrittenBack;
    RoundWritesBack(v, path);
    assert (header + frame)[|header|..] == frame;
  }

  /** The oldest head has been taken, and reported in the next used entry with the given length. */
  ghost predicate WrittenBack(v: Queue, done: Queue, len: nat)
    requires v.Valid()
  {
    && done.lastAvailIdx == (v.lastAvailIdx + 1) % 0x1_0000 && done.usedIdx == (v.usedIdx + 1) % 0x1_0000
    && done.usedRing == v.usedRing[v.usedIdx % |v.usedRing| :=
         UsedElem(v.availRing[v.lastAvailIdx % |v.availRing|], len % 0x1_0000_0000)]
  }

  lemma RoundWritesBack(v: Queue, path: seq<nat>)
    requires v.Valid() && v.Head() < |v.desc|
    requires forall i :: 0 <= i < |path| ==> path[i] < |v.HeadTable()|
    ensures WrittenBack(v, TxDone(v, path), Total(OutSegs(v, path), 0))
  {
    hide OutSegs, Total, RingSize, Queue.Completed;
    CompletedMeans(v.Taken().Armed(), v.Head(), Wrap32(Total(OutSegs(v, path), 0)));
  }

  /** One round of the transmit task: the popped chain is completed whether or not the link is on. */
  method TxRound(q: Virtqueue, irq: Interrupter, iov: array<Seg>, linkOn: bool, cnt: nat, ghost path: seq<nat>)
    returns (got: bool, forwarded: seq<Seg>, cnt': nat)
    requires q.Valid() && q.View().Poppable(path, iov.Length)
    modifies q`lastAvailIdx, q`availEvent, q`usedIdx, q`lastNotifiedIdx, q.usedRing, irq, iov
    ensures got == !old(q.View()).Empty()
    ensures !got ==> q.View() == old(q.View()) && forwarded == [] && cnt' == cnt
    ensures got ==> q.View() == TxDone(old(q.View()), path).Answered()
    ensures got && linkOn ==> FrameOnly(forwarded, OutSegs(old(q.View()), path))
    ensures got && !linkOn ==> forwarded == []
    ensures got ==> Signalled(irq, TxDone(old(q.View()), path).Answer(), if linkOn then cnt + 1 else cnt, cnt')
  {
    hide OutSegs, Forwarded, FrameOnly, Total, Queue.Taken, Queue.Armed, Queue.Completed, Queue.Answered, Queue.Answer;
    var head, len;
    head, len, forwarded := TxPop(q, iov, linkOn, path);
    got := head >= 0;
    cnt' := cnt;
    if got {
      HeaderStays(OutSegs(old(q.View()), path));
      cnt' := CompleteHead(q, irq, Wrap16(head), Wrap32(len), if linkOn then cnt + 1 else cnt);
    }
  }

  /** The part of the round up to the write-back: pop, size, and hand over to the switch if the link is on. */
  method TxPop(q: Virtqueue, iov: array<Seg>, linkOn: bool, ghost path: seq<nat>)
    returns (head: int, len: nat, forwarded: seq<Seg>)
    requires q.Valid() && q.View().Poppable(path, iov.Length)
    modifies q`lastAvailIdx, q`availEvent, iov
    ensures old(q.View()).Empty() ==> head == -1 && q.View() == old(q.View()) && forwarded == []
    ensures !old(q.View()).Empty() ==>
      && head == old(q.View()).Head()
      && q.View() == old(q.View()).Taken().Armed()
      && len == Total(OutSegs(old(q.View()), path), 0)
      && forwarded == Forwarded(linkOn, OutSegs(old(q.View()), path))
  {
    var out, in_;
    head, out, in_ := q.GetIov(iov, path);
    len, forwarded := 0, [];
    if head >= 0 {
      assert iov[..out] == OutSegs(old(q.View()), path);
      len := IovSize(iov, out);
      if linkOn {
        forwarded := ForwardSegments(iov, out);
      }
    }
  }

  /** Writes the head back and notifies the driver if it asked for it. */
  method CompleteHead(q: Virtqueue, irq: Interrupter, head: u16, len: u32, cnt: nat) returns (cnt': nat)
    requires q.Valid()
    modifies q`usedIdx, q`lastNotifiedIdx, q.usedRing, irq
    ensures q.View() == old(q.View()).Completed(head, len).Answered()
    ensures Signalled(irq, old(q.View()).Completed(head, len).Answer(), cnt, cnt')
  {
    cnt' := cnt;
    q.UpdateUsedElem(head, len);
    var yes := q.MustNotify();
    if yes {
      cnt' := irq.Request(cnt');
    }
  }

  /** The loop that hands the segments behind the header to the switch port. */
  method ForwardSegments(iov: array<Seg>, out: nat) returns (forwarded: seq<Seg>)
    requires out <= iov.Length
    ensures forwarded == Forwarded(true, iov[..out])
  {
    forwarded := [];
    var i := 1;
    while i < out
      invariant 1 <= i && (out > 0 ==> i <= out)
      invariant forwarded == if out > 0 then iov[1..i] else []
    {
      forwarded := forwarded + [iov[i]];
      i := i + 1;
    }
  }

  /** The round is six steps of the two-party system: what it pops it completes, and it keeps nothing. */
  lemma TxRoundIsSteps(w: SplitRing.World, len: u32)
    requires w.q.Valid() && w.dev.Top? && w.held == [] && w.stored == [] && !w.q.Empty()
    ensures
      var popped := SplitRing.Pop(w);
      && popped.dev.Top? && |popped.held| == 1
      && var done := SplitRing.Complete(popped, 0, len);
      && done.q == w.q.Taken().Armed().Completed(w.q.Head(), len).Answered()
      && done.popped == w.popped + [w.q.Head()] && done.done == w.done + [UsedElem(w.q.Head(), len)]
      && done.dev.Top? && done.held == [] && done.stored == []
  {
    hide SplitRing.Pop, SplitRing.Complete;
    PopIsSteps(w);
    CompleteIsSteps(SplitRing.Pop(w), len);
  }

  lemma PopIsSteps(w: SplitRing.World)
    requires w.q.Valid() && w.dev.Top? && w.held == [] && !w.q.Empty()
    ensures var popped := SplitRing.Pop(w);
            && popped.q == w.q.Taken().Armed() && popped.q.Valid() && popped.dev.Top?
            && popped.popped == w.popped + [w.q.Head()] && popped.held == [w.q.Head()]
            && popped.done == w.done && popped.stored == w.stored
  {
    hide SplitRing.Postable, Slot, Queue.Answer;
  }

  lemma CompleteIsSteps(w: SplitRing.World, len: u32)
    requires w.q.Valid() && w.dev.Top? && |w.held| == 1 && w.stored == []
    ensures var done := SplitRing.Complete(w, 0, len);
            && done.q == w.q.Completed(w.held[0], len).Answered() && done.dev.Top?
            && done.popped == w.popped && done.held == []
            && done.done == w.done + [UsedElem(w.held[0], len)] && done.stored == []
  {
    hide SplitRing.Postable, Slot, Queue.Answer;
  }

  // ---- Receive ----

  /** The used ring after the entries es have been written behind idx. */
  function StoreAll(ring: seq<UsedElem>, idx: u16, es: seq<UsedElem>): (r: seq<UsedElem>)
    requires 0 < |ring|
    ensures |r| == |ring|
  {
    if es == [] then ring
    else
      var n := |es| - 1;
      StoreAll(ring, idx, es[..n])[Slot(Wrap16(idx + n), |ring|) := es[n]]
  }

  /** The used ring and index after publishing the entries one at a time. */
  function PublishEach(ring: seq<UsedElem>, idx: u16, es: seq<UsedElem>): (r: (seq<UsedElem>, u16))
    requires 0 < |ring|
    ensures |r.0| == |ring|
  {
    if es == [] then (ring, idx)
    else
      var (r, i) := PublishEach(ring, idx, es[..|es| - 1]);
      (r[Slot(i, |r|) := es[|es| - 1]], Wrap16(i + 1))
  }

  /** Publishing once at the end leaves the ring that publishing one at a time leaves. */
  lemma {:induction false} BatchIsOneByOne(ring: seq<UsedElem>, idx: u16, es: seq<UsedElem>)
    requires 0 < |ring|
    ensures PublishEach(ring, idx, es) == (StoreAll(ring, idx, es), Wrap16(idx + |es|))
  {
    if es != [] {
      BatchIsOneByOne(ring, idx, es[..|es| - 1]);
      WrapOfWrap(idx + |es| - 1, 1);
    }
  }

  /** What the driver will have published, tick by tick, from tick t on. */
  function Flat(posts: seq<seq<u16>>, t: nat): seq<u16>
    decreases |posts| - t
  {
    if t >= |posts| then [] else posts[t] + Flat(posts, t + 1)
  }

  /** Receive buffers are single non-empty device-writable descriptors, posted once each. */
  ghost predicate RxBuffers(desc: seq<Desc>, heads: seq<u16>, size: nat) {
    && (forall k :: 0 <= k < |heads| ==>
          && heads[k] < |desc|
          && var d := desc[heads[k]];
          && d.IsWrite() && !d.HasNext() && !d.IsIndirect() && 0 < d.len && d.addr + d.len <= size)
    && (forall j, k :: 0 <= j < k < |heads| ==> heads[j] != heads[k])
  }

  function Buffers(desc: seq<Desc>, heads: seq<u16>): (b: seq<Seg>)
    requires forall k :: 0 <= k < |heads| ==> heads[k] < |desc|
    ensures |b| == |heads|
  {
    seq(|heads|, k requires 0 <= k < |heads| => desc[heads[k]].ToSegment())
  }

  /** The used entries for rem bytes over the buffers from the k-th on. */
  function Entries(desc: seq<Desc>, heads: seq<u16>, k: nat, rem: int): (es: seq<UsedElem>)
    requires forall j :: 0 <= j < |heads| ==> heads[j] < |desc|
    decreases |heads| - k
  {
    if k >= |heads| || rem <= 0 then []
    else
      var c := Min(rem, desc[heads[k]].len);
      [UsedElem(heads[k], c)] + Entries(desc, heads, k + 1, rem - c)
  }

  function Lengths(es: seq<UsedElem>): int {
    if es == [] then 0 else es[0].len + Lengths(es[1..])
  }

  /** The part of each buffer that its used entry reports as written. */
  function Reported(desc: seq<Desc>, es: seq<UsedElem>): (r: seq<Seg>)
    requires forall k :: 0 <= k < |es| ==> es[k].id < |desc|
    ensures |r| == |es|
  {
    seq(|es|, k requires 0 <= k < |es| => Seg(desc[es[k].id].addr, es[k].len))
  }

  /** The used lengths add up to the frame, every entry reports something, and the heads are the popped ones. */
  lemma {:induction false} EntriesAddUp(desc: seq<Desc>, heads: seq<u16>, k: nat, rem: nat)
    requires forall j :: 0 <= j < |heads| ==> heads[j] < |desc| && 0 < desc[heads[j]].len
    requires k <= |heads| && rem <= Total(Buffers(desc, heads), k)
    ensures var es := Entries(desc, heads, k, rem);
            && Lengths(es) == rem && k + |es| <= |heads|
            && forall j :: 0 <= j < |es| ==> es[j].id == heads[k + j] && 0 < es[j].len <= desc[es[j].id].len
    decreases |heads| - k
  {
    if k < |heads| && rem > 0 {
      var c := Min(rem, desc[heads[k]].len);
      var tail := Entries(desc, heads, k + 1, rem - c);
      EntriesAddUp(desc, heads, k + 1, rem - c);
      var es := [UsedElem(heads[k], c)] + tail;
      hide Entries, Total, Buffers;
      assert es[1..] == tail;
      forall j | 0 <= j < |es|
        ensures es[j].id == heads[k + j] && 0 < es[j].len <= desc[es[j].id].len
      {
        assert j > 0 ==> es[j] == tail[j - 1];
      }
      assert Lengths(es) == rem;
      EntriesNext(desc, heads, k, rem);
    }
  }

  lemma EntriesNext(desc: seq<Desc>, heads: seq<u16>, k: nat, rem: nat)
    requires forall j :: 0 <= j < |heads| ==> heads[j] < |desc|
    requires k < |heads| && rem > 0
    ensures var c := Min(rem, desc[heads[k]].len);
            Entries(desc, heads, k, rem) == [UsedElem(heads[k], c)] + Entries(desc, heads, k + 1, rem - c)
  {
  }

  /** The driver publishes heads, as VIRTIO 1.1 section 2.6.13 has it. */
  method DriverPosts(q: Virtqueue, heads: seq<u16>, ghost sent: seq<u16>, ghost got: seq<u16>)
    requires q.Valid()
    requires Channel(q.availRing[..], q.availIdx, q.lastAvailIdx, sent, got, [])
    requires |sent| - |got| + |heads| <= q.availRing.Length
    modifies q`availIdx, q.availRing
    ensures Channel(q.availRing[..], q.availIdx, q.lastAvailIdx, sent + heads, got, [])
  {
    for i := 0 to |heads|
      invariant Channel(q.availRing[..], q.availIdx, q.lastAvailIdx, sent, got, heads[..i])
    {
      ChannelStage(q.availRing[..], q.availIdx, q.lastAvailIdx, sent, got, heads[..i], heads[i]);
      q.availRing[Slot(Wrap16(q.availIdx + i), q.availRing.Length)] := heads[i];
      assert heads[..i + 1] == heads[..i] + [heads[i]];
    }
    assert heads[..|heads|] == heads;
    ChannelPublish(q.availRing[..], q.availIdx, q.lastAvailIdx, sent, got, heads);
    q.availIdx := Wrap16(q.availIdx + |heads|);
  }

  /** Pops a head that is there, of a single writable descriptor. */
  method PopSingle(q: Virtqueue, iov: array<Seg>, ghost sent: seq<u16>, ghost got: seq<u16>, ghost size: nat)
    returns (head: u16)
    requires q.Valid() && iov.Length == 1 && q.availIdx != q.lastAvailIdx
    requires Channel(q.availRing[..], q.availIdx, q.lastAvailIdx, sent, got, []) && |got| < |sent|
    requires RxBuffers(q.desc[..], [sent[|got|]], size)
    modifies q`lastAvailIdx, q`availEvent, iov
    ensures head == sent[|got|] && head < q.desc.Length && iov[..] == [q.desc[head].ToSegment()]
    ensures Channel(q.availRing[..], q.availIdx, q.lastAvailIdx, sent, got + [head], [])
  {
    ChannelTake(q.availRing[..], q.availIdx, q.lastAvailIdx, sent, got, []);
    ghost var h := q.View().Head();
    assert h == sent[|got|];
    SingleChain(q.desc[..], h, size);
    var head', out, in_ := q.GetIov(iov, [h]);
    head := head';
  }

  lemma SingleChain(desc: seq<Desc>, h: u16, size: nat)
    requires RxBuffers(desc, [h], size)
    ensures h < |desc| && !desc[h].IsIndirect() && IsChain(desc, h, [h])
    ensures Segments(desc, [h]) == [desc[h].ToSegment()]
  {
    assert [h][0] == h;
  }

  /** The polling loop: pops the next head, letting the driver run for a tick whenever the ring is empty. */
  method PopOrWait(q: Virtqueue, iov: array<Seg>, posts: seq<seq<u16>>, t0: nat,
                   ghost sent0: seq<u16>, ghost got: seq<u16>, ghost size: nat)
    returns (head: u16, t: nat, ghost sent: seq<u16>)
    requires q.Valid() && iov.Length == 1
    requires Channel(q.availRing[..], q.availIdx, q.lastAvailIdx, sent0, got, [])
    requires sent0[|got|..] + Flat(posts, t0) != []
    requires RxBuffers(q.desc[..], sent0[|got|..] + Flat(posts, t0), size)
    modifies q`lastAvailIdx, q`availEvent, q`availIdx, q.availRing, iov
    ensures var stream := sent0[|got|..] + Flat(posts, t0);
            && head == stream[0] && iov[..] == [q.desc[head].ToSegment()]
            && Channel(q.availRing[..], q.availIdx, q.lastAvailIdx, sent, got + [head], [])
            && sent[|got| + 1..] + Flat(posts, t) == stream[1..]
  {
    hide Flat, RxBuffers, Window;
    ghost var stream := sent0[|got|..] + Flat(posts, t0);
    HeadsFit(q.desc[..], stream, size);
    FirstBuffer(q.desc[..], stream, size);
    t, sent := t0, sent0;
    while q.availIdx == q.lastAvailIdx
      invariant Channel(q.availRing[..], q.availIdx, q.lastAvailIdx, sent, got, [])
      invariant sent[|got|..] + Flat(posts, t) == stream
      invariant iov[..] == old(iov[..])
      decreases |posts| - t
    {
      ChannelEmpty(q.availRing[..], q.availIdx, q.lastAvailIdx, sent, got, []);
      Ticked(posts, t, sent, got, stream);
      DriverPosts(q, posts[t], sent, got);
      t, sent := t + 1, sent + posts[t];
    }
    ChannelEmpty(q.availRing[..], q.availIdx, q.lastAvailIdx, sent, got, []);
    assert sent[|got|] == stream[0];
    head := PopSingle(q, iov, sent, got, size);
  }

  /** A tick moves what the driver posts from the future to the ring. */
  lemma Ticked(posts: seq<seq<u16>>, t: nat, sent: seq<u16>, got: seq<u16>, stream: seq<u16>)
    requires |got| <= |sent| && sent[|got|..] + Flat(posts, t) == stream
    requires sent == got && stream != []
    ensures t < |posts| && |posts[t]| <= |stream|
    ensures (sent + posts[t])[|got|..] + Flat(posts, t + 1) == stream
  {
    assert t < |posts|;
    assert (sent + posts[t])[|got|..] + Flat(posts, t + 1) == sent[|got|..] + Flat(posts, t);
  }

  lemma FirstBuffer(desc: seq<Desc>, heads: seq<u16>, size: nat)
    requires RxBuffers(desc, heads, size) && heads != []
    ensures RxBuffers(desc, [heads[0]], size)
  {
  }

  /** Distinct heads are at most as many as there are descriptors. */
  lemma HeadsFit(desc: seq<Desc>, heads: seq<u16>, size: nat)
    requires RxBuffers(desc, heads, size)
    ensures |heads| <= |desc|
  {
    DistinctBounded(heads, |desc|);
  }

  /** The memory written so far: scattering the rest of the buffer from the k-th segment on gives the goal. */
  ghost predicate MemProgress(desc: seq<Desc>, heads: seq<u16>, buffer: seq<u8>, m: seq<u8>, goal: seq<u8>,
                              k: nat, copied: int)
  {
    && RxBuffers(desc, heads, |m|) && InMemory(Buffers(desc, heads), |m|)
    && 0 <= copied <= |buffer| <= copied + Total(Buffers(desc, heads), k)
    && Scatter(m, Buffers(desc, heads), k, buffer, copied) == goal
  }

  lemma MemStart(desc: seq<Desc>, heads: seq<u16>, buffer: seq<u8>, m: seq<u8>)
    requires RxBuffers(desc, heads, |m|) && |buffer| <= Total(Buffers(desc, heads), 0)
    ensures InMemory(Buffers(desc, heads), |m|)
    ensures MemProgress(desc, heads, buffer, m, Scatter(m, Buffers(desc, heads), 0, buffer, 0), 0, 0)
  {
    hide Scatter, Total;
  }

  lemma MemStep(desc: seq<Desc>, heads: seq<u16>, buffer: seq<u8>, m: seq<u8>, goal: seq<u8>, k: nat, copied: int)
    returns (seg: Seg, c: int)
    requires MemProgress(desc, heads, buffer, m, goal, k, copied) && copied < |buffer|
    ensures k < |heads| && seg == desc[heads[k]].ToSegment()
    ensures c == Min(|buffer| - copied, seg.len) && 0 < c && InMemory([seg], |m|)
    ensures MemProgress(desc, heads, buffer, Scatter(m, [seg], 0, buffer[copied..copied + c], 0), goal,
                        k + 1, copied + c)
  {
    seg := desc[heads[k]].ToSegment();
    c := Min(|buffer| - copied, seg.len);
    assert seg == Buffers(desc, heads)[k];
    ScatterOne(m, Buffers(desc, heads), k, buffer, copied, c);
  }

  /** The k-th step of a scatter is a scatter over that segment alone. */
  lemma ScatterOne(m: seq<u8>, all: seq<Seg>, k: nat, buffer: seq<u8>, copied: nat, c: nat)
    requires InMemory(all, |m|) && k < |all| && copied < |buffer|
    requires c == Min(|buffer| - copied, all[k].len) > 0
    ensures InMemory([all[k]], |m|)
    ensures Scatter(Scatter(m, [all[k]], 0, buffer[copied..copied + c], 0), all, k + 1, buffer, copied + c)
         == Scatter(m, all, k, buffer, copied)
  {
    hide Scatter, Put;
    assert InMemory([all[k]], |m|);
    OneSegment(m, all[k], buffer[copied..copied + c]);
    ScatterStep(m, all, k, buffer, copied);
  }

  lemma OneSegment(m: seq<u8>, seg: Seg, chunk: seq<u8>)
    requires seg.addr + seg.len <= |m| && 0 < |chunk| <= seg.len
    ensures InMemory([seg], |m|) && Scatter(m, [seg], 0, chunk, 0) == Put(m, seg.addr, chunk)
  {
    assert chunk[0..|chunk|] == chunk;
  }

  /** The used entries written so far, on the way to the plan. */
  ghost predicate EntryProgress(desc: seq<Desc>, heads: seq<u16>, total: int, ring: seq<UsedElem>,
                                ring0: seq<UsedElem>, idx: u16, es: seq<UsedElem>, plan: seq<UsedElem>, copied: int)
    requires forall k :: 0 <= k < |heads| ==> heads[k] < |desc|
  {
    && 0 < |ring0| && |es| <= |heads|
    && es + Entries(desc, heads, |es|, total - copied) == plan
    && ring == StoreAll(ring0, idx, es)
  }

  lemma EntryStep(desc: seq<Desc>, heads: seq<u16>, total: int, ring: seq<UsedElem>, ring0: seq<UsedElem>,
                  idx: u16, es: seq<UsedElem>, plan: seq<UsedElem>, copied: int)
    requires forall k :: 0 <= k < |heads| ==> heads[k] < |desc|
    requires EntryProgress(desc, heads, total, ring, ring0, idx, es, plan, copied)
    requires copied < total && |es| < |heads|
    ensures var c := Min(total - copied, desc[heads[|es|]].len);
            0 <= c &&
            var e := UsedElem(heads[|es|], c);
            EntryProgress(desc, heads, total, ring[Slot(Wrap16(idx + |es|), |ring|) := e], ring0,
                          idx, es + [e], plan, copied + c)
  {
    var c := Min(total - copied, desc[heads[|es|]].len);
    var e := UsedElem(heads[|es|], c);
    assert (es + [e])[..|es|] == es;
    AppendPart(es, [e], Entries(desc, heads, |es| + 1, total - copied - c));
  }

  /** Fills the popped buffer as far as there are bytes and writes its used entry. */
  method FillBuffer(q: Virtqueue, mem: array<u8>, iov: array<Seg>, buffer: seq<u8>, copied: nat, n: u16, head: u16)
    returns (size: nat)
    requires q.Valid() && iov.Length == 1 && copied < |buffer| && head < q.desc.Length
    requires iov[..] == [q.desc[head].ToSegment()] && RxBuffers(q.desc[..], [head], mem.Length)
    modifies q.usedRing, mem, iov
    ensures size == Min(|buffer| - copied, q.desc[head].len) && InMemory([q.desc[head].ToSegment()], mem.Length)
    ensures mem[..] == Scatter(old(mem[..]), [q.desc[head].ToSegment()], 0, buffer[copied..copied + size], 0)
    ensures q.usedRing[..] == old(q.usedRing[..])[Slot(Wrap16(q.usedIdx + n), q.usedRing.Length) := UsedElem(head, size)]
  {
    ghost var seg := q.desc[head].ToSegment();
    assert [head][0] == head && iov[0] == seg;
    var room := IovSize(iov, 1);
    assert iov[..1] == [seg];
    size := Min(|buffer| - copied, room);
    ToIovec(mem, iov, buffer[copied..copied + size], size);
    q.AddUsedElem(head, size, n);
  }

  /** One round of the receive loop: pop or wait, fill the buffer, write its used entry. */
  method RxOne(q: Virtqueue, mem: array<u8>, iov: array<Seg>, buffer: seq<u8>, copied: nat, n: u16,
               posts: seq<seq<u16>>, t0: nat, ghost sent0: seq<u16>, ghost got: seq<u16>)
    returns (head: u16, size: nat, t: nat, ghost sent: seq<u16>)
    requires q.Valid() && iov.Length == 1 && copied < |buffer|
    requires Channel(q.availRing[..], q.availIdx, q.lastAvailIdx, sent0, got, [])
    requires sent0[|got|..] + Flat(posts, t0) != []
    requires RxBuffers(q.desc[..], sent0[|got|..] + Flat(posts, t0), mem.Length)
    modifies q`lastAvailIdx, q`availEvent, q`availIdx, q.availRing, q.usedRing, mem, iov
    ensures var stream := sent0[|got|..] + Flat(posts, t0);
            && |got| < |sent| && head == stream[0] < q.desc.Length && size == Min(|buffer| - copied, q.desc[head].len)
            && Channel(q.availRing[..], q.availIdx, q.lastAvailIdx, sent, got + [head], [])
            && sent[|got| + 1..] + Flat(posts, t) == stream[1..]
            && InMemory([q.desc[head].ToSegment()], mem.Length)
            && mem[..] == Scatter(old(mem[..]), [q.desc[head].ToSegment()], 0, buffer[copied..copied + size], 0)
            && q.usedRing[..] == old(q.usedRing[..])[Slot(Wrap16(q.usedIdx + n), q.usedRing.Length) := UsedElem(head, size)]
  {
    head, t, sent := PopOrWait(q, iov, posts, t0, sent0, got, mem.Length);
    size := FillBuffer(q, mem, iov, buffer, copied, n, head);
  }

  lemma RxHeads(desc: seq<Desc>, heads: seq<u16>, rest: seq<u16>, buffer: seq<u8>, m: seq<u8>, goal: seq<u8>, n: nat,
                copied: int)
    requires MemProgress(desc, heads, buffer, m, goal, n, copied) && copied < |buffer|
    requires n <= |heads| && rest == heads[n..]
    ensures n < |heads| && RxBuffers(desc, rest, |m|) && rest != []
  {
  }

  /**
   The receive loop. It never writes the used index, so the driver sees none of the entries before the caller
   publishes them.
   */
  method RxScatter(q: Virtqueue, mem: array<u8>, buffer: seq<u8>, posts: seq<seq<u16>>,
                   ghost sent0: seq<u16>, ghost got0: seq<u16>)
    returns (n: u16, t: nat, ghost sent: seq<u16>)
    requires q.Valid() && Channel(q.availRing[..], q.availIdx, q.lastAvailIdx, sent0, got0, [])
    requires RxBuffers(q.desc[..], sent0[|got0|..] + Flat(posts, 0), mem.Length)
    requires 0 < |buffer| <= Total(Buffers(q.desc[..], sent0[|got0|..] + Flat(posts, 0)), 0)
    modifies q`lastAvailIdx, q`availEvent, q`availIdx, q.availRing, q.usedRing, mem
    ensures var heads := sent0[|got0|..] + Flat(posts, 0);
            var es := Entries(q.desc[..], heads, 0, |buffer|);
            && n == |es| <= |heads|
            && q.usedRing[..] == StoreAll(old(q.usedRing[..]), q.usedIdx, es)
            && InMemory(Buffers(q.desc[..], heads), mem.Length)
            && mem[..] == Scatter(old(mem[..]), Buffers(q.desc[..], heads), 0, buffer, 0)
            && Channel(q.availRing[..], q.availIdx, q.lastAvailIdx, sent, got0 + heads[..n], [])
  {
    ghost var desc, heads := q.desc[..], sent0[|got0|..] + Flat(posts, 0);
    HeadsFit(desc, heads, mem.Length);
    MemStart(desc, heads, buffer, mem[..]);
    EntryStart(desc, heads, |buffer|, q.usedRing[..], q.usedIdx);
    hide Scatter, Total, Entries, StoreAll, Flat, MemProgress, EntryProgress;
    ghost var goal := Scatter(mem[..], Buffers(desc, heads), 0, buffer, 0);
    ghost var plan := Entries(desc, heads, 0, |buffer|);
    ghost var es;
    n, t, sent, es := RxLoop(q, mem, buffer, posts, sent0, got0, heads, goal, plan);
    ScatterEnds(desc, heads, buffer, mem[..], goal, n);
    EntriesEnd(desc, heads, |buffer|, q.usedRing[..], old(q.usedRing[..]), q.usedIdx, es, plan);
  }

  /** The loop itself, on the way from memory to goal and from an empty list of entries to plan. */
  method RxLoop(q: Virtqueue, mem: array<u8>, buffer: seq<u8>, posts: seq<seq<u16>>, ghost sent0: seq<u16>,
                ghost got0: seq<u16>, ghost heads: seq<u16>, ghost goal: seq<u8>, ghost plan: seq<UsedElem>)
    returns (n: u16, t: nat, ghost sent: seq<u16>, ghost es: seq<UsedElem>)
    requires q.Valid() && Channel(q.availRing[..], q.availIdx, q.lastAvailIdx, sent0, got0, [])
    requires heads == sent0[|got0|..] + Flat(posts, 0) && |heads| <= q.desc.Length
    requires forall k :: 0 <= k < |heads| ==> heads[k] < q.desc.Length
    requires 0 < |buffer| && MemProgress(q.desc[..], heads, buffer, mem[..], goal, 0, 0)
    requires EntryProgress(q.desc[..], heads, |buffer|, q.usedRing[..], q.usedRing[..], q.usedIdx, [], plan, 0)
    modifies q`lastAvailIdx, q`availEvent, q`availIdx, q.availRing, q.usedRing, mem
    ensures n == |es| <= |heads| && MemProgress(q.desc[..], heads, buffer, mem[..], goal, n, |buffer|)
    ensures EntryProgress(q.desc[..], heads, |buffer|, q.usedRing[..], old(q.usedRing[..]), q.usedIdx, es, plan, |buffer|)
    ensures Channel(q.availRing[..], q.availIdx, q.lastAvailIdx, sent, got0 + heads[..n], [])
  {
    hide Scatter, Total, Entries, StoreAll, Flat, MemProgress, EntryProgress, InMemory, RxBuffers, Popped;
    ghost var desc, ring0, got, rest := q.desc[..], q.usedRing[..], got0, heads;
    NonePopped(got0, heads);
    var iov := new Seg[1];
    var copied := 0;
    n, t, sent, es := 0, 0, sent0, [];
    while true
      invariant n == |es| <= |heads| && copied < |buffer|
      invariant MemProgress(desc, heads, buffer, mem[..], goal, n, copied)
      invariant EntryProgress(desc, heads, |buffer|, q.usedRing[..], ring0, q.usedIdx, es, plan, copied)
      invariant Channel(q.availRing[..], q.availIdx, q.lastAvailIdx, sent, got, [])
      invariant Popped(got0, heads, n, got, rest) && sent[|got|..] + Flat(posts, t) == rest
      decreases |buffer| - copied
    {
      PoppedNext(got0, heads, n, got, rest);
      RxHeads(desc, heads, rest, buffer, mem[..], goal, n, copied);
      ghost var seg, c := MemStep(desc, heads, buffer, mem[..], goal, n, copied);
      EntryStep(desc, heads, |buffer|, q.usedRing[..], ring0, q.usedIdx, es, plan, copied);
      var head, size;
      head, size, t, sent := RxOne(q, mem, iov, buffer, copied, n, posts, t, sent, got);
      got, rest, es := got + [head], rest[1..], es + [UsedElem(head, size)];
      copied, n := copied + size, n + 1;
      if copied >= |buffer| {
        break;
      }
    }
    AllPopped(got0, heads, n, got, rest);
  }

  /** Of the heads, n have been popped. */
  ghost predicate Popped(got0: seq<u16>, heads: seq<u16>, n: nat, got: seq<u16>, rest: seq<u16>) {
    n <= |heads| && got == got0 + heads[..n] && rest == heads[n..]
  }

  lemma NonePopped(got0: seq<u16>, heads: seq<u16>)
    ensures Popped(got0, heads, 0, got0, heads)
  {
  }

  lemma PoppedNext(got0: seq<u16>, heads: seq<u16>, n: nat, got: seq<u16>, rest: seq<u16>)
    requires Popped(got0, heads, n, got, rest)
    ensures rest == heads[n..]
    ensures n < |heads| ==> rest[0] == heads[n] && Popped(got0, heads, n + 1, got + [heads[n]], rest[1..])
  {
  }

  lemma AllPopped(got0: seq<u16>, heads: seq<u16>, n: nat, got: seq<u16>, rest: seq<u16>)
    requires Popped(got0, heads, n, got, rest)
    ensures n <= |heads| && got == got0 + heads[..n]
  {
  }

  lemma EntryStart(desc: seq<Desc>, heads: seq<u16>, total: int, ring: seq<UsedElem>, idx: u16)
    requires forall k :: 0 <= k < |heads| ==> heads[k] < |desc|
    requires 0 < |ring|
    ensures EntryProgress(desc, heads, total, ring, ring, idx, [], Entries(desc, heads, 0, total), 0)
  {
  }

  /** Once everything is copied nothing more is scattered. */
  lemma ScatterEnds(desc: seq<Desc>, heads: seq<u16>, buffer: seq<u8>, m: seq<u8>, goal: seq<u8>, k: nat)
    requires MemProgress(desc, heads, buffer, m, goal, k, |buffer|)
    ensures m == goal && InMemory(Buffers(desc, heads), |m|)
  {
  }

  /** And nothing more is planned. */
  lemma EntriesEnd(desc: seq<Desc>, heads: seq<u16>, total: int, ring: seq<UsedElem>, ring0: seq<UsedElem>, idx: u16,
                   es: seq<UsedElem>, plan: seq<UsedElem>)
    requires forall k :: 0 <= k < |heads| ==> heads[k] < |desc|
    requires EntryProgress(desc, heads, total, ring, ring0, idx, es, plan, total)
    ensures es == plan && |es| <= |heads| && ring == StoreAll(ring0, idx, plan)
  {
  }

  /** Publishes n written entries at once and notifies the driver if it asked for it. */
  method PublishBatch(q: Virtqueue, irq: Interrupter, n: u16, cnt: nat) returns (cnt': nat)
    requires q.Valid()
    modifies q`usedIdx, q`lastNotifiedIdx, irq
    ensures q.View() == old(q.View()).Published(n).Answered()
    ensures Signalled(irq, old(q.View()).Published(n).Answer(), cnt, cnt')
  {
    cnt' := cnt;
    q.UpdateUsedIdx(n);
    var yes := q.MustNotify();
    if yes {
      cnt' := irq.Request(cnt');
    }
  }

  /** The heads the driver has published or will publish, from the next unread one on. */
  ghost function Stream(sent: seq<u16>, got: seq<u16>, posts: seq<seq<u16>>): seq<u16>
    requires |got| <= |sent|
  {
    sent[|got|..] + Flat(posts, 0)
  }

  /** The rings are in step with the logs, and the stream of receive buffers has room for the bytes. */
  ghost predicate RxReady(q: Virtqueue, size: nat, total: nat, posts: seq<seq<u16>>, sent: seq<u16>, got: seq<u16>)
    reads q, q.desc, q.availRing, q.usedRing
  {
    && q.Valid() && Channel(q.availRing[..], q.availIdx, q.lastAvailIdx, sent, got, [])
    && RxBuffers(q.desc[..], Stream(sent, got, posts), size)
    && 0 < total <= Total(Buffers(q.desc[..], Stream(sent, got, posts)), 0)
  }

  /** The buffer lies scattered over the stream's first buffers, its entries are published and it is counted. */
  twostate predicate Delivered(q: Virtqueue, irq: Interrupter, mem: array<u8>, buffer: seq<u8>, rxCnt: nat,
                               rxCnt': nat, posts: seq<seq<u16>>, sent0: seq<u16>, got0: seq<u16>, sent: seq<u16>)
    requires old(RxReady(q, mem.Length, |buffer|, posts, sent0, got0))
    reads q, q.desc, q.availRing, q.usedRing, mem, irq
  {
    var desc, heads := old(q.desc[..]), Stream(sent0, got0, posts);
    var es := Entries(desc, heads, 0, |buffer|);
    var asked := old(q.View()).(usedIdx := q.usedIdx);
    && |es| <= |heads|
    && (q.usedRing[..], q.usedIdx) == PublishEach(old(q.usedRing[..]), old(q.usedIdx), es)
    && InMemory(Buffers(desc, heads), mem.Length)
    && mem[..] == Scatter(old(mem[..]), Buffers(desc, heads), 0, buffer, 0)
    && Channel(q.availRing[..], q.availIdx, q.lastAvailIdx, sent, got0 + heads[..|es|], [])
    && Signalled(irq, asked.Answer(), rxCnt + 1, rxCnt') && q.lastNotifiedIdx == asked.Answered().lastNotifiedIdx
  }

  method RxDeliver(q: Virtqueue, irq: Interrupter, mem: array<u8>, buffer: seq<u8>, rxCnt: nat,
                   posts: seq<seq<u16>>, ghost sent0: seq<u16>, ghost got0: seq<u16>)
    returns (rxCnt': nat, ghost sent: seq<u16>)
    requires RxReady(q, mem.Length, |buffer|, posts, sent0, got0)
    modifies q, q.availRing, q.usedRing, mem, irq
    ensures Delivered(q, irq, mem, buffer, rxCnt, rxCnt', posts, sent0, got0, sent)
  {
    hide Scatter, Total, Entries, StoreAll, PublishEach, Flat, Window;
    var n, t;
    n, t, sent := RxScatter(q, mem, buffer, posts, sent0, got0);
    BatchIsOneByOne(old(q.usedRing[..]), q.usedIdx, Entries(q.desc[..], Stream(sent0, got0, posts), 0, |buffer|));
    rxCnt' := PublishBatch(q, irq, n, rxCnt + 1);
  }

  /**
   Delivers one frame: virtio header and frame lie in one piece, the header in the packet's head room. The used
   index moves once, behind all entries.
   */
  method RxCallback(q: Virtqueue, irq: Interrupter, mem: array<u8>, running: bool, pkt: seq<u8>, data: nat,
                    dataLen: nat, hdrLen: nat, rxCnt: nat, posts: seq<seq<u16>>,
                    ghost sent0: seq<u16>, ghost got0: seq<u16>)
    returns (r: int, rxCnt': nat, ghost sent: seq<u16>)
    requires data + dataLen <= |pkt|
    requires running && hdrLen <= data ==> RxReady(q, mem.Length, hdrLen + dataLen, posts, sent0, got0)
    modifies q, q.availRing, q.usedRing, mem, irq
    ensures r == if running && data < hdrLen then -1 else 0
    ensures !running || data < hdrLen ==>
      q.View() == old(q.View()) && mem[..] == old(mem[..]) && rxCnt' == rxCnt && sent == sent0
      && irq.raised == old(irq.raised) && irq.timerActive == old(irq.timerActive)
    ensures running && hdrLen <= data ==>
      Delivered(q, irq, mem, pkt[data - hdrLen..data + dataLen], rxCnt, rxCnt', posts, sent0, got0, sent)
  {
    r, rxCnt', sent := 0, rxCnt, sent0;
    if !running {
      return;
    }
    if data < hdrLen {
      return -1, rxCnt, sent0;
    }
    rxCnt', sent := RxDeliver(q, irq, mem, pkt[data - hdrLen..data + dataLen], rxCnt, posts, sent0, got0);
  }

  /** The two views of a vector from where they agree give the same bytes. */
  lemma {:induction false} GatherSame(m: seq<u8>, a: seq<Seg>, i: nat, b: seq<Seg>, j: nat)
    requires InMemory(a, |m|) && InMemory(b, |m|)
    requires i <= |a| && j <= |b| && a[i..] == b[j..]
    ensures Gather(m, a, i) == Gather(m, b, j)
    decreases |a| - i
  {
    if i < |a| {
      assert a[i] == a[i..][0] == b[j..][0] == b[j];
      assert a[i + 1..] == a[i..][1..] == b[j..][1..] == b[j + 1..];
      GatherSame(m, a, i + 1, b, j + 1);
    } else {
      assert |a[i..]| == |b[j..]| == 0;
    }
  }

  lemma ReportedCons(desc: seq<Desc>, e: UsedElem, tail: seq<UsedElem>)
    requires e.id < |desc| && forall j :: 0 <= j < |tail| ==> tail[j].id < |desc|
    ensures var es := [e] + tail;
            && (forall j :: 0 <= j < |es| ==> es[j].id < |desc|)
            && Reported(desc, es) == [Seg(desc[e.id].addr, e.len)] + Reported(desc, tail)
  {
    assert forall j :: 1 <= j < |[e] + tail| ==> ([e] + tail)[j] == tail[j - 1];
  }

  lemma GatherCons(m: seq<u8>, seg: Seg, rest: seq<Seg>)
    requires seg.addr + seg.len <= |m| && InMemory(rest, |m|)
    ensures InMemory([seg] + rest, |m|) && Gather(m, [seg] + rest, 0) == Bytes(m, seg) + Gather(m, rest, 0)
  {
    assert ([seg] + rest)[1..] == rest[0..];
    GatherSame(m, [seg] + rest, 1, rest, 0);
  }

  lemma GatherFrom(m: seq<u8>, all: seq<Seg>, k: nat)
    requires InMemory(all, |m|) && k < |all|
    ensures all[k].addr + all[k].len <= |m| && Gather(m, all, k) == Bytes(m, all[k]) + Gather(m, all, k + 1)
  {
  }

  /** The reported parts of the buffers are the first rem bytes of the buffers laid end to end. */
  lemma {:induction false} ReportedIsPrefix(desc: seq<Desc>, heads: seq<u16>, k: nat, rem: nat, m: seq<u8>)
    requires RxBuffers(desc, heads, |m|) && InMemory(Buffers(desc, heads), |m|)
    requires k <= |heads| && rem <= Total(Buffers(desc, heads), k)
    ensures var es := Entries(desc, heads, k, rem);
            && (forall j :: 0 <= j < |es| ==> es[j].id < |desc|)
            && InMemory(Reported(desc, es), |m|)
            && Gather(m, Reported(desc, es), 0) == Gather(m, Buffers(desc, heads), k)[..rem]
    decreases |heads| - k
  {
    if k < |heads| && rem > 0 {
      var c := Min(rem, desc[heads[k]].len);
      var tail := Entries(desc, heads, k + 1, rem - c);
      hide Reported, Gather, InMemory, RxBuffers, Entries;
      EntriesNext(desc, heads, k, rem);
      ReportedIsPrefix(desc, heads, k + 1, rem - c, m);
      ReportedCons(desc, UsedElem(heads[k], c), tail);
      GatherCons(m, Seg(desc[heads[k]].addr, c), Reported(desc, tail));
      GatherFrom(m, Buffers(desc, heads), k);
      DropAcross(Bytes(m, Buffers(desc, heads)[k]), Gather(m, Buffers(desc, heads), k + 1), rem, c);
    }
  }

  /**
   What a delivery means to the driver: over disjoint buffers the reported lengths add up to header plus frame
   and the reported parts, concatenated in used order, are exactly its bytes.
   */
  lemma FrameDelivered(desc: seq<Desc>, heads: seq<u16>, m: seq<u8>, buffer: seq<u8>)
    requires RxBuffers(desc, heads, |m|) && InMemory(Buffers(desc, heads), |m|) && Disjoint(Buffers(desc, heads))
    requires |buffer| <= Total(Buffers(desc, heads), 0)
    ensures var es := Entries(desc, heads, 0, |buffer|);
            var m' := Scatter(m, Buffers(desc, heads), 0, buffer, 0);
            && Lengths(es) == |buffer|
            && (forall j :: 0 <= j < |es| ==> es[j].id < |desc|)
            && InMemory(Reported(desc, es), |m'|)
            && Gather(m', Reported(desc, es), 0) == buffer
  {
    var m' := Scatter(m, Buffers(desc, heads), 0, buffer, 0);
    EntriesAddUp(desc, heads, 0, |buffer|);
    ReportedIsPrefix(desc, heads, 0, |buffer|, m');
    GatherOfScatter(m, Buffers(desc, heads), 0, buffer, 0);
    assert buffer[0..] == buffer;
  }
}
