/**
 One switch port's output queue: producers that enqueue and announce, notifiers that turn the flag into an
 event, and the port task that waits for events and drains the queue with the safe iterator.

 Every step is one access to shared state; any number of threads interleave. All packets carry
 DATA_PKT_FLAG_CAN_FREE and no PORT_STOP is sent. Queue links are IntrusiveList's; here the queue is the
 sequence they spell.
 */
module SwitchNotify {
  import opened PortEvents
  import opened Wrappers

  type Pkt = nat

  /** Inside port_out_pkt: enqueued, about to raise the flag, about to send. Inside notify_ports: flag seen, cleared. */
  datatype Thread = Idle | Added(p: Pkt) | Low(p: Pkt) | High(p: Pkt) | Tested | Cleared

  /** The port task; positions are packets, or None for the list head. */
  datatype Drainer =
    | Blocked
    | Received
    | Positioned(pos: Option<Pkt>)
    | Looping(pos: Option<Pkt>, tmp: Option<Pkt>)
    | Delivered(cur: Pkt, tmp: Option<Pkt>)

  datatype World = World(
    threads: seq<Thread>, queue: seq<Pkt>, needNotify: bool, events: nat, drainer: Drainer,
    // logs: packets enqueued, handed to the output callback, unlinked and freed
    entered: seq<Pkt>, delivered: seq<Pkt>, freed: seq<Pkt>)

  datatype Step =
    | Enqueue(i: nat, pkt: Pkt)
    | ReadCount(i: nat)
    | RaiseFlag(i: nat)
    | SendEvent(i: nat)
    | TestFlag(i: nat)
    | ClearFlag(i: nat)
    | Receive
    | First
    | LookAhead
    | Callback
    | Unlink

  ghost predicate Enabled(w: World, s: Step) {
    match s
    case Enqueue(i, p) => i < |w.threads| && w.threads[i].Idle? && p !in w.entered
    case ReadCount(i) => i < |w.threads| && w.threads[i].Added?
    case RaiseFlag(i) => i < |w.threads| && w.threads[i].Low?
    case SendEvent(i) => i < |w.threads| && (w.threads[i].High? || w.threads[i].Cleared?)
    case TestFlag(i) => i < |w.threads| && w.threads[i].Idle?
    case ClearFlag(i) => i < |w.threads| && w.threads[i].Tested?
    case Receive => w.drainer.Blocked? && w.events > 0
    case First => w.drainer.Received?
    case LookAhead => w.drainer.Positioned?
    case Callback => w.drainer.Looping?
    case Unlink => w.drainer.Delivered?
  }

  function FirstOf(queue: seq<Pkt>): Option<Pkt> {
    if queue == [] then None else Some(queue[0])
  }

  /** The link behind a position: the packet's successor, the first packet for the head, None at the end. */
  function After(queue: seq<Pkt>, pos: Option<Pkt>): Option<Pkt>
    decreases |queue|
  {
    if pos.None? then FirstOf(queue)
    else if queue == [] then None
    else if queue[0] == pos.value then FirstOf(queue[1..])
    else After(queue[1..], pos)
  }

  function Remove(queue: seq<Pkt>, p: Pkt): seq<Pkt> {
    if queue == [] then [] else if queue[0] == p then queue[1..] else [queue[0]] + Remove(queue[1..], p)
  }

  function Move(w: World, i: nat, t: Thread): World
    requires i < |w.threads|
  {
    w.(threads := w.threads[i := t])
  }

  function Do(w: World, s: Step): World
    requires Enabled(w, s)
  {
    match s
    case Enqueue(i, p) => Move(w, i, Added(p)).(queue := w.queue + [p], entered := w.entered + [p])
    case ReadCount(i) =>
      Move(w, i, if |w.queue| >= SEND_NOW then High(w.threads[i].p) else Low(w.threads[i].p))
    case RaiseFlag(i) => Move(w, i, Idle).(needNotify := true)
    case SendEvent(i) => Move(w, i, Idle).(events := Posted(w.events))
    case TestFlag(i) => Move(w, i, if w.needNotify then Tested else Idle)
    case ClearFlag(i) => Move(w, i, Cleared).(needNotify := false)
    case Receive => w.(events := w.events - 1, drainer := Received)
    case First => w.(drainer := Positioned(FirstOf(w.queue)))
    case LookAhead => w.(drainer := Looping(w.drainer.pos, After(w.queue, w.drainer.pos)))
    case Callback =>
      if w.drainer.pos.None? then w.(drainer := Blocked)
      else w.(drainer := Delivered(w.drainer.pos.value, w.drainer.tmp), delivered := w.delivered + [w.drainer.pos.value])
    case Unlink =>
      w.(queue := Remove(w.queue, w.drainer.cur), freed := w.freed + [w.drainer.cur],
         drainer := Positioned(w.drainer.tmp))
  }

  // ---- The invariant ----

  /** The pass under way is ahead of p, or just handed it to the callback; ReachedBeforeBlocking says what that means. */
  ghost predicate WillReach(w: World, p: Pkt) {
    match w.drainer
    case Blocked => false
    case Received => p in w.queue
    case Positioned(pos) => pos.Some? && p in w.queue
    case Looping(pos, tmp) => pos.Some? && (p == pos.value || (tmp.Some? && p in w.queue))
    case Delivered(cur, tmp) => p == cur || (tmp.Some? && p in w.queue)
  }

  /** The thread that enqueued p has not announced it yet. */
  ghost predicate ProducerInside(w: World, p: Pkt) {
    exists i :: 0 <= i < |w.threads| && (w.threads[i] == Added(p) || w.threads[i] == Low(p) || w.threads[i] == High(p))
  }

  ghost predicate NotifierInside(w: World) {
    exists i :: 0 <= i < |w.threads| && (w.threads[i].Tested? || w.threads[i].Cleared?)
  }

  /** Somebody will act on the queue: the flag is up, an event is pending, or a notifier will send one. */
  ghost predicate Announced(w: World) {
    w.needNotify || w.events > 0 || NotifierInside(w)
  }

  ghost predicate Covered(w: World) {
    forall p :: p in w.queue ==> WillReach(w, p) || ProducerInside(w, p) || Announced(w)
  }

  /** The iterator stands on the first packet and its look-ahead, if any, is the second. */
  ghost predicate CursorInv(w: World) {
    match w.drainer
    case Blocked => true
    case Received => true
    case Positioned(pos) => pos.Some? ==> FirstOf(w.queue) == pos
    case Looping(pos, tmp) =>
      pos.Some? ==> FirstOf(w.queue) == pos && (tmp.Some? ==> FirstOf(w.queue[1..]) == tmp)
    case Delivered(cur, tmp) =>
      FirstOf(w.queue) == Some(cur) && (tmp.Some? ==> FirstOf(w.queue[1..]) == tmp)
  }

  ghost predicate LogInv(w: World) {
    && (forall i, j :: 0 <= i < j < |w.entered| ==> w.entered[i] != w.entered[j])
    && w.freed + w.queue == w.entered
    && w.delivered == w.freed + (if w.drainer.Delivered? then [w.drainer.cur] else [])
  }

  ghost predicate Inv(w: World) {
    Covered(w) && CursorInv(w) && LogInv(w)
  }

  ghost predicate Init(w: World) {
    && (forall i :: 0 <= i < |w.threads| ==> w.threads[i].Idle?)
    && w.queue == w.entered == w.delivered == w.freed == [] && !w.needNotify && w.events == 0 && w.drainer.Blocked?
  }

  lemma CursorKept(w: World, s: Step)
    requires Inv(w) && Enabled(w, s)
    ensures CursorInv(Do(w, s)) && LogInv(Do(w, s))
  {
    var w' := Do(w, s);
    match s
    case Enqueue(i, p) =>
      assert w'.queue == w.queue + [p];
      assert w.queue != [] ==> w'.queue[1..] == w.queue[1..] + [p];
      assert w.freed + w'.queue == (w.freed + w.queue) + [p];
    case Unlink =>
      assert w.queue == [w.drainer.cur] + w.queue[1..];
      assert w'.freed + w'.queue == w.freed + w.queue;
    case _ =>
  }

  /** Threads other than the i-th are where they were. */
  lemma OthersStay(w: World, w': World, i: nat)
    requires i < |w.threads| == |w'.threads|
    requires forall j :: 0 <= j < |w.threads| && j != i ==> w'.threads[j] == w.threads[j]
    ensures forall p :: ProducerInside(w, p) && w.threads[i] !in {Added(p), Low(p), High(p)} ==> ProducerInside(w', p)
    ensures NotifierInside(w) && !w.threads[i].Tested? && !w.threads[i].Cleared? ==> NotifierInside(w')
  {
    forall p | ProducerInside(w, p) && w.threads[i] !in {Added(p), Low(p), High(p)}
      ensures ProducerInside(w', p)
    {
      var j :| 0 <= j < |w.threads| && (w.threads[j] == Added(p) || w.threads[j] == Low(p) || w.threads[j] == High(p));
      assert w'.threads[j] == w.threads[j];
    }
    if NotifierInside(w) && !w.threads[i].Tested? && !w.threads[i].Cleared? {
      var j :| 0 <= j < |w.threads| && (w.threads[j].Tested? || w.threads[j].Cleared?);
      assert w'.threads[j] == w.threads[j];
    }
  }

  lemma CoveredByProducers(w: World, s: Step)
    requires Inv(w) && Enabled(w, s) && (s.Enqueue? || s.ReadCount? || s.RaiseFlag?)
    ensures Covered(Do(w, s))
  {
    var w' := Do(w, s);
    OthersStay(w, w', s.i);
    if s.Enqueue? {
      assert w'.threads[s.i] == Added(s.pkt);
      assert ProducerInside(w', s.pkt);
    } else if s.ReadCount? {
      var q := w.threads[s.i].p;
      assert w'.threads[s.i] in {Low(q), High(q)};
      assert ProducerInside(w', q);
    }
  }

  lemma CoveredByNotifiers(w: World, s: Step)
    requires Inv(w) && Enabled(w, s) && (s.SendEvent? || s.TestFlag? || s.ClearFlag?)
    ensures Covered(Do(w, s))
  {
    var w' := Do(w, s);
    OthersStay(w, w', s.i);
    if s.ClearFlag? {
      assert w'.threads[s.i].Cleared?;
      assert NotifierInside(w');
    }
  }

  lemma CoveredByDrainer(w: World, s: Step)
    requires Inv(w) && Enabled(w, s) && CursorInv(Do(w, s))
    requires s.Receive? || s.First? || s.LookAhead? || s.Callback? || s.Unlink?
    ensures Covered(Do(w, s))
  {
    var w' := Do(w, s);
    forall p | p in w'.queue
      ensures WillReach(w', p) || ProducerInside(w', p) || Announced(w')
    {
      if s.Unlink? {
        assert w'.queue == w.queue[1..];
        assert p in w.queue;
        if p == w.drainer.cur {
          CurrentOnce(w);
        }
      }
      if ProducerInside(w, p) {
        var i :| 0 <= i < |w.threads| && (w.threads[i] == Added(p) || w.threads[i] == Low(p) || w.threads[i] == High(p));
        assert w'.threads[i] == w.threads[i];
      }
      if NotifierInside(w) {
        var i :| 0 <= i < |w.threads| && (w.threads[i].Tested? || w.threads[i].Cleared?);
        assert w'.threads[i] == w.threads[i];
      }
    }
  }

  /** The packet being unlinked is not queued a second time. */
  lemma CurrentOnce(w: World)
    requires LogInv(w) && CursorInv(w) && w.drainer.Delivered?
    ensures w.drainer.cur !in w.queue[1..]
  {
    var n := |w.freed|;
    assert w.entered[n] == w.queue[0] == w.drainer.cur;
    forall k | 0 <= k < |w.queue[1..]|
      ensures w.queue[1..][k] != w.drainer.cur
    {
      assert w.queue[1..][k] == w.queue[k + 1] == w.entered[n + k + 1];
    }
  }

  lemma StepInv(w: World, s: Step)
    requires Inv(w) && Enabled(w, s)
    ensures Inv(Do(w, s))
  {
    CursorKept(w, s);
    if s.Enqueue? || s.ReadCount? || s.RaiseFlag? {
      CoveredByProducers(w, s);
    } else if s.SendEvent? || s.TestFlag? || s.ClearFlag? {
      CoveredByNotifiers(w, s);
    } else {
      CoveredByDrainer(w, s);
    }
  }

  // ---- Runs ----

  ghost predicate Next(w: World, w': World) {
    exists s :: Enabled(w, s) && w' == Do(w, s)
  }

  ghost predicate Run(ws: seq<World>) {
    |ws| > 0 && Init(ws[0]) && forall i :: 0 <= i < |ws| - 1 ==> Next(ws[i], ws[i + 1])
  }

  lemma {:induction false} RunInv(ws: seq<World>, k: nat)
    requires Run(ws) && k < |ws|
    ensures Inv(ws[k])
  {
    if k > 0 {
      RunInv(ws, k - 1);
      assert Next(ws[k - 1], ws[k - 1 + 1]);
      var s :| Enabled(ws[k - 1], s) && ws[k] == Do(ws[k - 1], s);
      StepInv(ws[k - 1], s);
    }
  }

  /** No packet is ever stranded, over every interleaving. */
  lemma NoStrandedPacket(ws: seq<World>, k: nat, p: Pkt)
    requires Run(ws) && k < |ws| && p in ws[k].queue
    ensures WillReach(ws[k], p) || ProducerInside(ws[k], p) || Announced(ws[k])
  {
    RunInv(ws, k);
  }

  /** A packet the pass under way is ahead of stays ahead of it until it is delivered, whatever the others do. */
  lemma ReachKept(w: World, s: Step, p: Pkt)
    requires Inv(w) && Enabled(w, s) && WillReach(w, p)
    ensures WillReach(Do(w, s), p) || p in Do(w, s).delivered
  {
    hide Covered, LogInv;
    match s
    case LookAhead =>
      assert w.queue == [w.queue[0]] + w.queue[1..];
    case Unlink =>
      assert w.queue == [w.drainer.cur] + w.queue[1..];
      assert w.drainer.cur in w.delivered by {
        DeliveredCurrent(w);
      }
    case _ =>
  }

  lemma DeliveredCurrent(w: World)
    requires Inv(w) && w.drainer.Delivered?
    ensures w.drainer.cur in w.delivered
  {
    assert w.delivered[|w.freed|] == w.drainer.cur;
  }

  lemma {:induction false} ReachedOrAhead(ws: seq<World>, k: nat, m: nat, p: Pkt)
    requires Run(ws) && k <= m < |ws| && WillReach(ws[k], p)
    ensures WillReach(ws[m], p) || p in ws[m].delivered
  {
    hide WillReach, Inv, Do, Enabled, Run;
    if k < m {
      ReachedOrAhead(ws, k, m - 1, p);
      var s := StepOf(ws, m - 1);
      if WillReach(ws[m - 1], p) {
        ReachKept(ws[m - 1], s, p);
      } else {
        DeliveredGrows(ws[m - 1], s);
      }
    }
  }

  lemma StepOf(ws: seq<World>, k: nat) returns (s: Step)
    requires Run(ws) && k < |ws| - 1
    ensures Inv(ws[k]) && Enabled(ws[k], s) && ws[k + 1] == Do(ws[k], s)
  {
    RunInv(ws, k);
    hide Do, Enabled, Inv;
    assert Next(ws[k], ws[k + 1]);
    s :| Enabled(ws[k], s) && ws[k + 1] == Do(ws[k], s);
  }

  lemma DeliveredGrows(w: World, s: Step)
    requires Enabled(w, s)
    ensures w.delivered <= Do(w, s).delivered
  {
  }

  /** Over every interleaving, a pass has delivered all it was ever ahead of by the time the port waits again. */
  lemma ReachedBeforeBlocking(ws: seq<World>, k: nat, m: nat, p: Pkt)
    requires Run(ws) && k <= m < |ws| && WillReach(ws[k], p) && ws[m].drainer.Blocked?
    ensures p in ws[m].delivered
  {
    ReachedOrAhead(ws, k, m, p);
  }

  /** Packets reach the callback once each and in the order they were enqueued. */
  lemma DeliveredInOrder(ws: seq<World>, k: nat)
    requires Run(ws) && k < |ws|
    ensures ws[k].delivered <= ws[k].entered && ws[k].freed <= ws[k].delivered
    ensures forall i, j :: 0 <= i < j < |ws[k].delivered| ==> ws[k].delivered[i] != ws[k].delivered[j]
  {
    RunInv(ws, k);
  }

  /** With every thread outside, no event and no flag, everything enqueued has been delivered. */
  lemma QuietMeansDrained(ws: seq<World>, k: nat)
    requires Run(ws) && k < |ws|
    requires forall i :: 0 <= i < |ws[k].threads| ==> ws[k].threads[i].Idle?
    requires ws[k].drainer.Blocked? && ws[k].events == 0 && !ws[k].needNotify
    ensures ws[k].queue == [] && ws[k].delivered == ws[k].entered
  {
    if ws[k].queue != [] {
      NoStrandedPacket(ws, k, ws[k].queue[0]);
    } else {
      RunInv(ws, k);
    }
  }

  // ---- A pass on its own ----

  function DrainerStep(w: World): World
    requires !w.drainer.Blocked?
  {
    match w.drainer
    case Received => Do(w, First)
    case Positioned(_) => Do(w, LookAhead)
    case Looping(_, _) => Do(w, Callback)
    case Delivered(_, _) => Do(w, Unlink)
  }

  function Pass(w: World, n: nat): World
    decreases n
  {
    if n == 0 || w.drainer.Blocked? then w else Pass(DrainerStep(w), n - 1)
  }

  lemma PassNext(w: World, n: nat)
    requires n > 0 && !w.drainer.Blocked?
    ensures Pass(w, n) == Pass(DrainerStep(w), n - 1)
  {
  }

  /** The three steps that deliver and unlink the first packet. */
  lemma OneDelivery(w: World)
    requires Inv(w) && w.drainer == Positioned(FirstOf(w.queue)) && w.queue != []
    ensures var w3 := Pass(w, 3);
            && Inv(w3) && w3.queue == w.queue[1..] && w3.drainer == Positioned(FirstOf(w3.queue))
            && w3.delivered == w.delivered + [w.queue[0]] && w3.events == w.events
    ensures forall n: nat :: Pass(w, n + 3) == Pass(Pass(w, 3), n)
  {
    hide Inv;
    StepInv(w, LookAhead);
    var w1 := DrainerStep(w);
    StepInv(w1, Callback);
    var w2 := DrainerStep(w1);
    StepInv(w2, Unlink);
    forall n: nat ensures Pass(w, n + 3) == Pass(DrainerStep(w2), n) {
      PassNext(w, n + 3);
      PassNext(w1, n + 2);
      PassNext(w2, n + 1);
    }
    assert Pass(w, 0 + 3) == Pass(DrainerStep(w2), 0);
  }

  /** Undisturbed, a pass that starts on the first packet delivers the whole queue and goes back to waiting. */
  lemma {:induction false} PassEmptiesQueue(w: World) returns (n: nat)
    requires Inv(w) && w.drainer == Positioned(FirstOf(w.queue))
    ensures var w' := Pass(w, n);
            && w'.drainer.Blocked? && w'.queue == [] && w'.delivered == w.delivered + w.queue
            && w'.events == w.events
    decreases |w.queue|
  {
    hide Inv, Pass;
    if w.queue == [] {
      n := 2;
      EmptyPass(w);
    } else {
      OneDelivery(w);
      assert w.queue == [w.queue[0]] + w.queue[1..];
      var m := PassEmptiesQueue(Pass(w, 3));
      n := m + 3;
    }
  }

  lemma EmptyPass(w: World)
    requires Inv(w) && w.drainer == Positioned(FirstOf(w.queue)) && w.queue == []
    ensures var w' := Pass(w, 2);
            w'.drainer.Blocked? && w'.queue == [] && w'.delivered == w.delivered && w'.events == w.events
  {
    PassNext(w, 2);
    PassNext(DrainerStep(w), 1);
  }

  // ---- The operations as uninterrupted steps ----

  /** port_out_pkt is three steps, and does to queue, flag and events what NetSwitch.Port.Enqueue does. */
  lemma EnqueueIsSteps(w: World, i: nat, p: Pkt)
    requires Enabled(w, Enqueue(i, p))
    ensures Enabled(Do(w, Enqueue(i, p)), ReadCount(i))
    ensures var w2 := Do(Do(w, Enqueue(i, p)), ReadCount(i));
            var last := if w2.threads[i].High? then SendEvent(i) else RaiseFlag(i);
            && Enabled(w2, last)
            && var w3 := Do(w2, last);
            && w3.threads == w.threads && w3.queue == w.queue + [p] && w3.drainer == w.drainer
            && (w3.needNotify, w3.events) == AfterEnqueue(|w3.queue|, w.needNotify, w.events)
  {
  }

  /** The body of notify_ports is one or three steps, and does what NetSwitch.Port.TurnFlagIntoEvent does. */
  lemma NotifyIsSteps(w: World, i: nat)
    requires Enabled(w, TestFlag(i))
    ensures var w1 := Do(w, TestFlag(i));
            if w.needNotify then
              && Enabled(w1, ClearFlag(i)) && Enabled(Do(w1, ClearFlag(i)), SendEvent(i))
              && var w3 := Do(Do(w1, ClearFlag(i)), SendEvent(i));
              && w3 == w.(needNotify := false, events := AfterNotify(true, w.events))
            else w1 == w.(events := AfterNotify(false, w.events))
  {
    var w1 := Do(w, TestFlag(i));
    assert w1.threads[i := Idle] == w.threads;
    assert w1.threads[i := Cleared][i := Idle] == w.threads;
  }

  /** One event received and worked off alone does what NetSwitch.Port.ProcessEvent does when all can be freed. */
  lemma ProcessIsSteps(w: World) returns (n: nat)
    requires Inv(w) && Enabled(w, Receive)
    ensures var w' := Pass(Do(w, Receive), n);
            && w'.drainer.Blocked? && w'.queue == [] && w'.events == w.events - 1
            && w'.delivered == w.delivered + w.queue
  {
    StepInv(w, Receive);
    var w1 := Do(w, Receive);
    StepInv(w1, First);
    var m := PassEmptiesQueue(Do(w1, First));
    n := m + 1;
    PassNext(w1, n);
  }
}
