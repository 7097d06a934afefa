/** A receive delivery as a path of the two-party system: what the receive loop does, cut into its steps. */
module RxSteps {
  import opened Words
  import opened RingWindow
  import opened Virtqueue
  import opened Iovec
  import opened SplitRing
  import opened VirtioNet

  ghost predicate Leads(ws: seq<World>) {
    |ws| > 0 && forall i :: 0 <= i < |ws| - 1 ==> Next(ws[i], ws[i + 1])
  }

  /** In all these states the driver has seen no used entry that it had not seen at w. */
  ghost predicate Unseen(ws: seq<World>, w: World) {
    forall i :: 0 <= i < |ws| ==> ws[i].done == w.done && ws[i].q.usedIdx == w.q.usedIdx
  }

  lemma LeadsOn(ws: seq<World>, v: World)
    requires Leads(ws) && Next(ws[|ws| - 1], v)
    ensures Leads(ws + [v])
  {
    hide Next;
    var vs := ws + [v];
    forall i | 0 <= i < |vs| - 1
      ensures Next(vs[i], vs[i + 1])
    {
      if i < |ws| - 1 {
        assert Next(ws[i], ws[i + 1]);
      }
    }
  }

  lemma NextOf(w: World, s: Step) returns (w': World)
    requires Inv(w) && Enabled(w, s)
    ensures w.q.Valid() && w' == Do(w, s) && Inv(w') && Next(w, w')
  {
    StepInv(w, s);
    hide Inv, Do, Enabled;
    w' := Do(w, s);
  }

  /** The entries report the next heads the driver has published. */
  ghost predicate NextHeads(w: World, es: seq<UsedElem>) {
    && |w.popped| + |es| <= |w.sent|
    && forall j :: 0 <= j < |es| ==> es[j].id == w.sent[|w.popped| + j]
  }

  /** Between two rounds of a delivery that started at w: the entries es are stored and their heads popped. */
  ghost predicate RxStored(v: World, w: World, es: seq<UsedElem>) {
    && Inv(v) && v.dev.Top? && v.held == [] && v.stored == es
    && v.sent == w.sent && |w.popped| + |es| <= |w.sent| && v.popped == w.sent[..|w.popped| + |es|]
    && v.done == w.done && v.q.usedIdx == w.q.usedIdx
    && 0 < |w.q.usedRing| && v.q.usedRing == StoreAll(w.q.usedRing, w.q.usedIdx, es)
  }

  /** The same with the next head popped and not yet reported. */
  ghost predicate RxHeld(v: World, w: World, es: seq<UsedElem>, head: u16) {
    && Inv(v) && v.dev.Top? && v.held == [head] && v.stored == es
    && v.sent == w.sent && |w.popped| + |es| < |w.sent| && v.popped == w.sent[..|w.popped| + |es| + 1]
    && v.done == w.done && v.q.usedIdx == w.q.usedIdx
    && 0 < |w.q.usedRing| && v.q.usedRing == StoreAll(w.q.usedRing, w.q.usedIdx, es)
  }

  /** A step that leaves the driver's view of the used ring alone, appended to a path. */
  lemma Extend(ws: seq<World>, w: World, v: World) returns (vs: seq<World>)
    requires Leads(ws) && ws[0] == w && Unseen(ws, w) && Next(ws[|ws| - 1], v)
    requires v.done == w.done && v.q.usedIdx == w.q.usedIdx
    ensures |vs| > 0 && vs[0] == w && vs[|vs| - 1] == v && Leads(vs) && Unseen(vs, w)
  {
    hide Next;
    LeadsOn(ws, v);
    vs := ws + [v];
  }

  /** The pop of a round: look, take, arm. */
  lemma RxPop(ws: seq<World>, w: World, es: seq<UsedElem>) returns (vs: seq<World>)
    requires |ws| > 0 && Leads(ws) && ws[0] == w && Unseen(ws, w) && RxStored(ws[|ws| - 1], w, es)
    requires |w.popped| + |es| < |w.sent|
    ensures |vs| > 0 && vs[0] == w && Leads(vs) && Unseen(vs, w)
    ensures RxHeld(vs[|vs| - 1], w, es, w.sent[|w.popped| + |es|])
  {
    hide Leads, Unseen, Next, RxStored, RxHeld, Inv;
    var v1, v2, v3 := PopSteps(ws[|ws| - 1], w, es);
    vs := Extend(ws, w, v1);
    vs := Extend(vs, w, v2);
    vs := Extend(vs, w, v3);
  }

  lemma PopSteps(v: World, w: World, es: seq<UsedElem>) returns (v1: World, v2: World, v3: World)
    requires RxStored(v, w, es) && |w.popped| + |es| < |w.sent|
    ensures Next(v, v1) && Next(v1, v2) && Next(v2, v3)
    ensures v1.done == v2.done == v3.done == w.done && v1.q.usedIdx == v2.q.usedIdx == v3.q.usedIdx == w.q.usedIdx
    ensures RxHeld(v3, w, es, w.sent[|w.popped| + |es|])
  {
    hide Postable, IsChain, Segments, Channel, Balance, Completion, KickInv, ChainInv, SleepInv, NotifyInv, StoreAll, Slot;
    EmptyMeansDrained(v);
    v1 := NextOf(v, Look);
    TakeIsNext(v1);
    v2 := NextOf(v1, Take);
    v3 := NextOf(v2, Arm);
  }

  /** The used entry of a round. */
  lemma RxStore(v: World, w: World, es: seq<UsedElem>, e: UsedElem) returns (v': World)
    requires 0 <= e.id < TWO16 && RxHeld(v, w, es, e.id)
    ensures Next(v, v') && RxStored(v', w, es + [e])
  {
    hide Postable, IsChain, Segments, Channel, Balance, Completion, KickInv, ChainInv, SleepInv, NotifyInv, StoreAll, Slot, Next;
    v' := NextOf(v, Store(0, e.len));
    StoreNext(w.q.usedRing, w.q.usedIdx, es, e);
  }

  lemma StoreNext(ring: seq<UsedElem>, idx: u16, es: seq<UsedElem>, e: UsedElem)
    requires 0 < |ring|
    ensures StoreAll(ring, idx, es + [e]) == StoreAll(ring, idx, es)[Slot(Wrap16(idx + |es|), |ring|) := e]
  {
    assert (es + [e])[..|es|] == es;
  }

  lemma StoredView(v: World, w: World, es: seq<UsedElem>)
    requires RxStored(v, w, es)
    ensures v.done == w.done && v.q.usedIdx == w.q.usedIdx && v.popped == w.sent[..|w.popped| + |es|]
    ensures |w.popped| + |es| <= |w.sent| && 0 < |w.q.usedRing|
    ensures v.q.usedRing == StoreAll(w.q.usedRing, w.q.usedIdx, es)
  {
  }

  lemma StartStored(w: World)
    requires Inv(w) && w.dev.Top? && w.held == [] && w.stored == []
    ensures RxStored(w, w, [])
  {
    hide Balance, Completion, KickInv, ChainInv, SleepInv;
    assert w.popped == w.sent[..|w.popped|];
  }

  /** The rounds of the receive loop, four steps each. */
  lemma {:induction false} RxRounds(w: World, es: seq<UsedElem>) returns (ws: seq<World>)
    requires Inv(w) && w.dev.Top? && w.held == [] && w.stored == [] && NextHeads(w, es)
    ensures |ws| > 0 && Leads(ws) && ws[0] == w && Unseen(ws, w) && RxStored(ws[|ws| - 1], w, es)
  {
    hide RxStored, RxHeld, Inv, Next;
    if es == [] {
      ws := [w];
      StartStored(w);
    } else {
      var n := |es| - 1;
      assert es == es[..n] + [es[n]];
      ws := RxRounds(w, es[..n]);
      hide Leads, Unseen;
      ws := RxPop(ws, w, es[..n]);
      var v := RxStore(ws[|ws| - 1], w, es[..n], es[n]);
      StoredView(v, w, es);
      ws := Extend(ws, w, v);
    }
  }

  /** The publication at the end: the index moves once, then the driver is notified if it asked for it. */
  lemma RxPublish(v: World, w: World, es: seq<UsedElem>) returns (v1: World, v2: World)
    requires RxStored(v, w, es) && es != []
    ensures Next(v, v1) && Next(v1, v2) && Inv(v2) && v2.dev.Top? && v2.held == [] && v2.stored == []
    ensures v2.popped == v.popped && v2.done == w.done + es
    ensures v2.q.usedRing == v.q.usedRing && v2.q.usedIdx == Wrap16(w.q.usedIdx + |es|)
  {
    hide Postable, IsChain, Segments, Channel, Balance, Completion, KickInv, ChainInv, SleepInv, NotifyInv, StoreAll, Slot;
    v1 := NextOf(v, PublishUsed);
    v2 := NextOf(v1, Ask);
  }

  /**
   A delivery over heads that are already there is a path of the two-party system: it pops them and stores their
   entries while the driver sees none, and the one publication then shows them all, on the ring that publishing one
   at a time gives. So nothing popped is kept, and what StepInv keeps of the protocol it keeps of the receive queue.
   */
  lemma RxDeliveryIsSteps(w: World, es: seq<UsedElem>) returns (ws: seq<World>)
    requires Inv(w) && w.dev.Top? && w.held == [] && w.stored == [] && es != [] && NextHeads(w, es)
    ensures |ws| > 2 && Leads(ws) && ws[0] == w && Unseen(ws[..|ws| - 2], w) && 0 < |w.q.usedRing|
    ensures var v := ws[|ws| - 1];
            && Inv(v) && v.dev.Top? && v.held == [] && v.stored == []
            && v.popped == w.sent[..|w.popped| + |es|] && v.done == w.done + es
            && (v.q.usedRing, v.q.usedIdx) == PublishEach(w.q.usedRing, w.q.usedIdx, es)
  {
    hide RxStored, Inv, Next, Leads, Unseen, PublishEach, StoreAll, NextHeads;
    var vs := RxRounds(w, es);
    var v1, v2 := RxPublish(vs[|vs| - 1], w, es);
    StoredView(vs[|vs| - 1], w, es);
    BatchIsOneByOne(w.q.usedRing, w.q.usedIdx, es);
    LeadsOn(vs, v1);
    LeadsOn(vs + [v1], v2);
    ws := vs + [v1] + [v2];
    assert ws[..|ws| - 2] == vs;
  }

  /** The delivery of a frame is such a path, when the buffers already there have room for its bytes. */
  lemma FrameIsSteps(w: World, size: nat, total: nat) returns (ws: seq<World>)
    requires Inv(w) && w.dev.Top? && w.held == [] && w.stored == [] && |w.popped| <= |w.sent|
    requires RxBuffers(w.q.desc, w.sent[|w.popped|..], size)
    requires 0 < total <= Total(Buffers(w.q.desc, w.sent[|w.popped|..]), 0)
    ensures |ws| > 2 && Leads(ws) && ws[0] == w && Unseen(ws[..|ws| - 2], w) && 0 < |w.q.usedRing|
    ensures var v, es := ws[|ws| - 1], Entries(w.q.desc, w.sent[|w.popped|..], 0, total);
            && Inv(v) && v.dev.Top? && v.held == [] && v.stored == []
            && |w.popped| + |es| <= |w.sent| && v.popped == w.sent[..|w.popped| + |es|] && v.done == w.done + es
            && (v.q.usedRing, v.q.usedIdx) == PublishEach(w.q.usedRing, w.q.usedIdx, es)
  {
    hide Inv, Leads, Unseen, PublishEach, Entries, Total;
    var es := Entries(w.q.desc, w.sent[|w.popped|..], 0, total);
    EntriesAddUp(w.q.desc, w.sent[|w.popped|..], 0, total);
    ws := RxDeliveryIsSteps(w, es);
  }
}
