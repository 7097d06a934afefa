/**
 A run in which an interrupt is lost, on a ring of any size: a driver that polls through one whole wrap of the used
 index, with its event index out of the way, and then goes to sleep, is not woken by the next used buffer.
 */
module LostInterrupt {
  import opened Words
  import opened RingWindow
  import opened Virtqueue
  import opened SplitRing

  const FAR: u16 := 0xFFFF

  const BUFFER: Desc := Desc(0, 1, 0, 0)

  ghost predicate Reachable(w: World) {
    exists ws: seq<World> :: Run(ws) && ws[|ws| - 1] == w
  }

  lemma ReachNext(w: World, s: Step)
    requires Reachable(w) && w.q.Valid() && Enabled(w, s)
    ensures Reachable(Do(w, s))
  {
    StepIsNext(w, s);
    hide Do, Enabled, Init, Next;
    var ws: seq<World> :| Run(ws) && ws[|ws| - 1] == w;
    var vs := ws + [Do(w, s)];
    forall i | 0 <= i < |vs| - 1
      ensures Next(vs[i], vs[i + 1])
    {
      if i < |ws| - 1 {
        assert Next(ws[i], ws[i + 1]);
      }
    }
    assert Run(vs) && vs[|vs| - 1] == Do(w, s);
  }

  lemma StepIsNext(w: World, s: Step)
    requires w.q.Valid() && Enabled(w, s)
    ensures Next(w, Do(w, s))
  {
  }

  /** Every descriptor is a buffer, and only head 0 has ever been in the rings. */
  ghost predicate Plain(q: Queue) {
    && q.Valid() && q.useEventIdx && q.tables == map[]
    && (forall i :: 0 <= i < |q.desc| ==> q.desc[i] == BUFFER && q.availRing[i] == 0 && q.usedRing[i].id == 0)
  }

  /** A queue between two rounds, after a heads were posted, p popped, d completed and r reaped. */
  ghost predicate Counts(w: World, a: nat, p: nat, d: nat, r: nat) {
    && Plain(w.q) && w.q.usedEvent == FAR && w.q.lastNotifiedIdx == 0 && w.notified == 0 && !w.irq
    && |w.sent| == a && |w.popped| == p && |w.done| == d && |w.reaped| == r
    && w.q.availIdx == Wrap16(a) && w.q.lastAvailIdx == Wrap16(p) && w.q.usedIdx == Wrap16(d) && w.lastUsed == Wrap16(r)
    && w.drv.Ready? && w.dev.Top? && w.staged == [] && w.stored == []
    && w.held == (if p > d then [0] else []) && w.free == Heads(Size(w)) - (if a > r then {0} else {})
    && w.chains.Keys == (if a > r then {0} else {})
  }

  /** Between staging the head and publishing it. */
  ghost predicate Staged(w: World, n: nat) {
    && Counts(w.(staged := [], free := Heads(Size(w)), chains := map[]), n, n, n, n)
    && w.staged == [0] && w.free == Heads(Size(w)) - {0} && w.chains.Keys == {0}
  }

  lemma StageOne(w: World, n: nat) returns (w': World)
    requires Reachable(w) && Counts(w, n, n, n, n)
    ensures Reachable(w') && Staged(w', n) && w'.rpr == w.rpr && Size(w') == Size(w)
  {
    hide Reachable, Window;
    var stage := Stage(0, w.q.desc, map[], [0]);
    assert IsChain(w.q.desc, 0, [0]);
    ReachNext(w, stage);
    w' := Do(w, stage);
  }

  /** The driver posts its head. */
  lemma Post(w: World, n: nat) returns (w': World)
    requires Reachable(w) && Counts(w, n, n, n, n)
    ensures Reachable(w') && Counts(w', n + 1, n, n, n) && w'.rpr == w.rpr && Size(w') == Size(w)
  {
    hide Reachable, Window, Postable, IsChain, Segments, Slot;
    var w1 := StageOne(w, n);
    ReachNext(w1, PublishAvail);
    var w2 := Do(w1, PublishAvail);
    WrapOfWrap(n, 1);
    assert w2.sent == w1.sent + [0];
    ReachNext(w2, TestKick);
    w' := Do(w2, TestKick);
  }

  /** The device pops it. */
  lemma PopOne(w: World, n: nat) returns (w': World)
    requires Reachable(w) && Counts(w, n + 1, n, n, n)
    ensures Reachable(w') && Counts(w', n + 1, n + 1, n, n) && w'.rpr == w.rpr && Size(w') == Size(w)
  {
    hide Reachable, Window, Postable, IsChain, Segments;
    NeighboursDiffer(n);
    ReachNext(w, Look);
    var w1 := Do(w, Look);
    assert w.q.Head() == 0;
    ReachNext(w1, Take);
    var w2 := Do(w1, Take);
    WrapOfWrap(n, 1);
    ReachNext(w2, Arm);
    w' := Do(w2, Arm);
  }

  lemma NeighboursDiffer(n: nat)
    ensures Wrap16(n + 1) != Wrap16(n)
  {
    if Wrap16(n + 1) == Wrap16(n) {
      ModInjective(n, n + 1, TWO16);
    }
  }

  /** And publishes its used entry. */
  lemma PublishOne(w: World, n: nat) returns (w': World)
    requires Reachable(w) && Counts(w, n + 1, n + 1, n, n)
    ensures Reachable(w') && w'.dev.Asking? && w'.rpr == w.rpr && Size(w') == Size(w)
    ensures Counts(w'.(dev := Top), n + 1, n + 1, n + 1, n)
  {
    hide Reachable, Window, Postable, IsChain, Segments;
    ReachNext(w, Store(0, 0));
    var w1 := Do(w, Store(0, 0));
    assert w1.held == [] && Plain(w1.q);
    ReachNext(w1, PublishUsed);
    WrapOfWrap(n, 1);
    w' := Do(w1, PublishUsed);
  }

  /** The answer is false, since the event index is out of the way. */
  lemma RefuseOne(w: World, n: nat) returns (w': World)
    requires Reachable(w) && w.dev.Asking? && Counts(w.(dev := Top), n + 1, n + 1, n + 1, n) && n + 1 < TWO16
    ensures Reachable(w') && Counts(w', n + 1, n + 1, n + 1, n) && w'.rpr == w.rpr && Size(w') == Size(w)
  {
    hide Reachable, IsChain, Segments, Window;
    assert !w.q.Answer();
    ReachNext(w, Ask);
    w' := Do(w, Ask);
  }

  lemma ReapOne(w: World, n: nat) returns (w': World)
    requires Reachable(w) && Counts(w, n + 1, n + 1, n + 1, n) && w.rpr.Reaping?
    ensures Reachable(w') && Counts(w', n + 1, n + 1, n + 1, n + 1) && w'.rpr.Reaping? && Size(w') == Size(w)
  {
    hide Reachable, IsChain, Segments, Window;
    NeighboursDiffer(n);
    WrapOfWrap(n, 1);
    ReachNext(w, Reap);
    w' := Do(w, Reap);
    assert w.q.usedRing[Slot(w.lastUsed, |w.q.usedRing|)].id == 0;
    assert w'.free == Heads(Size(w)) by { HeadIsBack(Size(w)); }
    NoChains(w, w');
  }

  lemma HeadIsBack(num: nat)
    requires 0 < num
    ensures Heads(num) - {0} + {0} == Heads(num)
  {
  }

  /** The only chain is the one reaped. */
  lemma NoChains(w: World, w': World)
    requires w.chains.Keys <= {0} && w'.chains == w.chains - {0}
    ensures w'.chains == map[]
  {
  }

  /** One round of a driver that polls. */
  lemma PollRound(w: World, n: nat) returns (w': World)
    requires Reachable(w) && Counts(w, n, n, n, n) && w.rpr.Reaping? && n + 1 < TWO16
    ensures Reachable(w') && Counts(w', n + 1, n + 1, n + 1, n + 1) && w'.rpr.Reaping? && Size(w') == Size(w)
  {
    hide Reachable, Counts, Size;
    var w1 := Post(w, n);
    var w2 := PopOne(w1, n);
    var w3 := PublishOne(w2, n);
    var w4 := RefuseOne(w3, n);
    w' := ReapOne(w4, n);
  }

  lemma {:induction false} PollRounds(w: World, n: nat, m: nat) returns (w': World)
    requires Reachable(w) && Counts(w, n, n, n, n) && w.rpr.Reaping? && n <= m < TWO16
    ensures Reachable(w') && Counts(w', m, m, m, m) && w'.rpr.Reaping? && Size(w') == Size(w)
    decreases m - n
  {
    hide Reachable, Counts, Size;
    w' := w;
    if n < m {
      var w1 := PollRound(w, n);
      w' := PollRounds(w1, n + 1, m);
    }
  }

  /** A fresh queue of a given size. */
  function Fresh(num: nat): World {
    World(Queue(seq(num, _ => BUFFER), map[], 0, 0, seq(num, _ => 0), FAR, 0, seq(num, _ => UsedElem(0, 0)),
                0, 0, 0, true),
          Ready, Heads(num), [], 0, false, map[], Reaping, false, Top, [], [], [], [], [], [], 0)
  }

  lemma FreshIsReachable(num: nat)
    requires RingSize(num)
    ensures Reachable(Fresh(num)) && Counts(Fresh(num), 0, 0, 0, 0) && Size(Fresh(num)) == num
  {
    var w := Fresh(num);
    assert Init(w) && Run([w]) && [w][|[w]| - 1] == w;
  }

  /** The reader arms, whose event index is then where it was, finds nothing and sleeps. */
  lemma Sleep(w: World) returns (w': World)
    requires Reachable(w) && w.rpr.Reaping? && Counts(w, TWO16 - 1, TWO16 - 1, TWO16 - 1, TWO16 - 1)
    ensures Reachable(w') && w'.rpr.Sleeping? && Counts(w', TWO16 - 1, TWO16 - 1, TWO16 - 1, TWO16 - 1)
    ensures Size(w') == Size(w)
  {
    hide Reachable, Window, Postable, IsChain, Segments;
    ReachNext(w, ArmUsed);
    var w1 := Do(w, ArmUsed);
    ReachNext(w1, Recheck);
    w' := Do(w1, Recheck);
  }

  /**
   On a ring of any size: after 65535 polled rounds the reader arms, finds nothing and sleeps; one more used buffer
   makes 65536 entries since the last true answer, and the device, about to ask, will refuse it.
   */
  lemma InterruptCanBeLost(num: nat) returns (w: World)
    requires RingSize(num)
    ensures Reachable(w) && Size(w) == num && Loses(w) && |w.done| - w.notified == TWO16
  {
    FreshIsReachable(num);
    var w0 := Fresh(num);
    hide Reachable, Do, Enabled;
    var w1 := PollRounds(w0, 0, TWO16 - 1);
    var w3 := Sleep(w1);
    var w4 := Post(w3, TWO16 - 1);
    var w5 := PopOne(w4, TWO16 - 1);
    w := PublishOne(w5, TWO16 - 1);
  }
}
