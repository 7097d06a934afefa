/** The life of the network device across driver resets: status writes, queue set-up and queue tear-down. */
module Session {
  import opened Words
  import opened RingWindow
  import opened Virtqueue
  import SplitRing

  const DRIVER_OK: nat := 4

  predicate IsDriverOk(status: u32) {
    status / DRIVER_OK % 2 == 1
  }

  /** DRIVER_OK is bit 2, whatever the bits around it. */
  lemma DriverOkIsBit2(high: nat, low: nat)
    requires low < 4 && 8 * high + 4 + low < TWO32
    ensures IsDriverOk(8 * high + 4 + low) && !IsDriverOk(8 * high + low)
  {
    DivModUnique(8 * high + 4 + low, 4, 2 * high + 1, low);
    DivModUnique(8 * high + low, 4, 2 * high, low);
  }

  /** The device's control block of one queue; a reset fills it with zero bytes. */
  datatype Vq = Vq(pfn: u32, lastAvailIdx: u16, lastNotifiedIdx: u16, useEventIdx: bool, enabled: bool)

  const ZERO_VQ: Vq := Vq(0, 0, 0, false, false)

  datatype State = State(live: bool, running: bool, linkOn: bool, configLinkUp: bool, vqs: seq<Vq>)

  /**
   What the driver and the tasks can do to the device. A task works on its queue as soon as that is set up, whether
   or not the driver has said that it is ready. (A receive queue moves only while the network device runs; the
   histories allow more than that.)
   */
  datatype Event =
    | WriteStatus(status: u32)
    | WriteQueuePfn(i: nat, pfn: u32, eventIdx: bool)
    | TasksMove(i: nat, lastAvailIdx: u16, lastNotifiedIdx: u16)

  predicate Possible(s: State, e: Event) {
    match e
    case WriteStatus(_) => true
    case WriteQueuePfn(i, _, _) => i < |s.vqs|
    case TasksMove(i, _, _) => i < |s.vqs| && s.vqs[i].enabled
  }

  class NetDev {
    var live: bool          // VIRTIO_STATE_LIVE
    var running: bool       // VNET_RUN
    var linkOn: bool
    var configLinkUp: bool  // VIRTIO_NET_S_LINK_UP in the config space
    const vqs: array<Vq>

    constructor (n: nat, configLinkUp: bool)
      ensures View() == State(false, false, false, configLinkUp, seq(n, _ => ZERO_VQ))
      ensures fresh(vqs)
    {
      live, running, linkOn, this.configLinkUp := false, false, false, configLinkUp;
      vqs := new Vq[n](_ => ZERO_VQ);
    }

    ghost function View(): State
      reads this, vqs
    {
      State(live, running, linkOn, configLinkUp, vqs[..])
    }

    method UpdateStatus()
      modifies this`configLinkUp, this`linkOn
      ensures configLinkUp && linkOn == (running || old(linkOn))
    {
      configLinkUp := true;
      if running {
        linkOn := true;
      }
    }

    method Start()
      modifies this`running, this`linkOn
      ensures running && linkOn == (configLinkUp || old(linkOn))
    {
      running := true;
      if configLinkUp {
        linkOn := true;
      }
    }

    method Stop()
      modifies this`running, this`linkOn
      ensures !running && !linkOn
    {
      running, linkOn := false, false;
    }

    /** The network device's handler, called before the common one. */
    method HandleNetStatus(status: u32)
      modifies this`running, this`linkOn, this`configLinkUp
      ensures View() == NetStatus(old(View()), status)
    {
      if status == 0 {
        UpdateStatus();
      }
      if IsDriverOk(status) && !live {
        Start();
      } else if status == 0 && live {
        Stop();
      }
    }

    method ExitVq(i: nat)
      requires i < vqs.Length
      modifies vqs
      ensures vqs[..] == old(vqs[..])[i := ZERO_VQ]
    {
      vqs[i] := ZERO_VQ;
    }

    method Reset()
      modifies vqs
      ensures vqs[..] == seq(vqs.Length, _ => ZERO_VQ)
    {
      for i := 0 to vqs.Length
        invariant forall k :: 0 <= k < i ==> vqs[k] == ZERO_VQ
      {
        ExitVq(i);
      }
    }

    method HandleDevStatus(status: u32)
      modifies this, vqs
      ensures View() == Step(old(View()), WriteStatus(status))
    {
      HandleNetStatus(status);
      if !live {
        if IsDriverOk(status) {
          live := true;
        }
      } else if status == 0 {
        live := false;
        Reset();
      }
    }

    /** The QUEUE_PFN register: sets the selected queue up, or tears it down when zero is written. */
    method WriteQueuePfn(i: nat, pfn: u32, eventIdx: bool)
      requires i < vqs.Length
      modifies vqs
      ensures View() == Step(old(View()), Event.WriteQueuePfn(i, pfn, eventIdx))
    {
      if pfn != 0 {
        InitVq(i, pfn, eventIdx);
      } else {
        ExitVq(i);
      }
    }

    /** Leaves the two indices as they are. */
    method InitVq(i: nat, pfn: u32, eventIdx: bool)
      requires i < vqs.Length
      modifies vqs
      ensures vqs[..] == old(vqs[..])[i := old(vqs[i]).(pfn := pfn, useEventIdx := eventIdx, enabled := true)]
    {
      vqs[i] := vqs[i].(pfn := pfn, useEventIdx := eventIdx, enabled := true);
    }
  }

  // ---- The specification of one event ----

  function NetStatus(s: State, status: u32): State {
    if status == 0 then
      s.(configLinkUp := true, running := s.running && !s.live, linkOn := !s.live && (s.running || s.linkOn))
    else if IsDriverOk(status) && !s.live then
      s.(running := true, linkOn := s.configLinkUp || s.linkOn)
    else s
  }

  function Step(s: State, e: Event): State
    requires Possible(s, e)
  {
    match e
    case WriteStatus(status) =>
      var t := NetStatus(s, status);
      if !s.live then t.(live := IsDriverOk(status))
      else if status == 0 then t.(live := false, vqs := seq(|s.vqs|, _ => ZERO_VQ))
      else t
    case WriteQueuePfn(i, pfn, eventIdx) =>
      var q := if pfn == 0 then ZERO_VQ else s.vqs[i].(pfn := pfn, useEventIdx := eventIdx, enabled := true);
      s.(vqs := s.vqs[i := q])
    case TasksMove(i, a, n) =>
      s.(vqs := s.vqs[i := s.vqs[i].(lastAvailIdx := a, lastNotifiedIdx := n)])
  }

  /** The states after each prefix of the events, each possible where it happens. */
  ghost predicate History(boot: State, es: seq<Event>, ss: seq<State>) {
    && |ss| == |es| + 1 && ss[0] == boot
    && forall k :: 0 <= k < |es| ==> Possible(ss[k], es[k]) && ss[k + 1] == Step(ss[k], es[k])
  }

  ghost predicate Boot(s: State) {
    !s.live && !s.running && !s.linkOn && s.vqs == seq(|s.vqs|, _ => ZERO_VQ)
  }

  // ---- What the history says about the state ----

  predicate IsZeroWrite(e: Event) {
    e.WriteStatus? && e.status == 0
  }

  predicate IsOkWrite(e: Event) {
    e.WriteStatus? && IsDriverOk(e.status)
  }

  /** A DRIVER_OK write has happened and no zero has been written since. */
  ghost predicate Started(es: seq<Event>) {
    exists i :: 0 <= i < |es| && IsOkWrite(es[i]) && forall j :: i < j < |es| ==> !IsZeroWrite(es[j])
  }

  ghost predicate EverZero(es: seq<Event>) {
    exists j :: 0 <= j < |es| && IsZeroWrite(es[j])
  }

  /**
   The session invariant: the device is live, and the network device running, exactly when the last start is
   after the last reset; the link is on exactly then, if the config space says link up, which any zero write
   makes it say; and a queue that is not set up is all zero.
   */
  ghost predicate SessionInv(boot: State, es: seq<Event>, s: State) {
    && (s.live <==> Started(es))
    && (s.running <==> s.live)
    && (s.linkOn <==> s.live && (boot.configLinkUp || EverZero(es)))
    && (s.configLinkUp <==> boot.configLinkUp || EverZero(es))
    && |s.vqs| == |boot.vqs|
    && forall i :: 0 <= i < |s.vqs| && !s.vqs[i].enabled ==> s.vqs[i] == ZERO_VQ
  }

  lemma StartedStep(es: seq<Event>, e: Event)
    ensures Started(es + [e]) <==> IsOkWrite(e) || (Started(es) && !IsZeroWrite(e))
    ensures EverZero(es + [e]) <==> EverZero(es) || IsZeroWrite(e)
  {
    var es' := es + [e];
    if IsOkWrite(e) {
      assert IsOkWrite(es'[|es|]);
    } else if Started(es) && !IsZeroWrite(e) {
      var i :| 0 <= i < |es| && IsOkWrite(es[i]) && forall j :: i < j < |es| ==> !IsZeroWrite(es[j]);
      assert IsOkWrite(es'[i]);
    }
    if Started(es') && !IsOkWrite(e) {
      var i :| 0 <= i < |es'| && IsOkWrite(es'[i]) && forall j :: i < j < |es'| ==> !IsZeroWrite(es'[j]);
      assert i < |es| && IsOkWrite(es[i]) && !IsZeroWrite(es'[|es|]);
      assert forall j :: i < j < |es| ==> es[j] == es'[j];
    }
    if EverZero(es) {
      var j :| 0 <= j < |es| && IsZeroWrite(es[j]);
      assert IsZeroWrite(es'[j]);
    }
    if IsZeroWrite(e) {
      assert IsZeroWrite(es'[|es|]);
    }
    if EverZero(es') {
      var j :| 0 <= j < |es'| && IsZeroWrite(es'[j]);
      if j < |es| {
        assert IsZeroWrite(es[j]);
      }
    }
  }

  lemma SessionStep(boot: State, es: seq<Event>, s: State, e: Event)
    requires SessionInv(boot, es, s) && Possible(s, e)
    ensures SessionInv(boot, es + [e], Step(s, e))
  {
    hide Started, EverZero;
    StartedStep(es, e);
  }

  lemma {:induction false} SessionInvariant(boot: State, es: seq<Event>, ss: seq<State>)
    requires Boot(boot) && History(boot, es, ss)
    ensures SessionInv(boot, es, ss[|es|])
  {
    if es != [] {
      hide SessionInv, Step, Possible, Boot;
      var n := |es| - 1;
      SessionInvariant(boot, es[..n], ss[..n + 1]);
      assert es == es[..n] + [es[n]];
      SessionStep(boot, es[..n], ss[n], es[n]);
      assert ss[n + 1] == Step(ss[n], es[n]);
    }
  }

  ghost predicate AnySetUp(s: State) {
    exists i :: 0 <= i < |s.vqs| && s.vqs[i].enabled
  }

  /**
   A zero written to the status always ends the session, and it leaves every queue as at boot if and only if the
   device was live or no queue was set up: before DRIVER_OK there is no reset.
   */
  lemma ZeroResetsIff(boot: State, es: seq<Event>, ss: seq<State>)
    requires Boot(boot) && History(boot, es, ss)
    ensures var s := Step(ss[|es|], WriteStatus(0));
            && !s.live && !s.running && !s.linkOn
            && (s.vqs == boot.vqs <==> Started(es) || !AnySetUp(ss[|es|]))
  {
    SessionInvariant(boot, es, ss);
    var s := ss[|es|];
    if !s.live {
      if AnySetUp(s) {
        var i :| 0 <= i < |s.vqs| && s.vqs[i].enabled;
        assert s.vqs[i] != boot.vqs[i];
      } else {
        assert forall i :: 0 <= i < |s.vqs| ==> s.vqs[i] == ZERO_VQ == boot.vqs[i];
      }
    }
  }

  /** The ring's view of a queue set up on a zeroed ring by the device in state s. */
  function FreshQueue(s: State, i: nat, desc: seq<Desc>, tables: map<u64, seq<Desc>>,
                      availRing: seq<u16>, usedRing: seq<UsedElem>): Queue
    requires i < |s.vqs|
  {
    Queue(desc, tables, 0, 0, availRing, 0, 0, usedRing, 0,
          s.vqs[i].lastAvailIdx, s.vqs[i].lastNotifiedIdx, s.vqs[i].useEventIdx)
  }

  function FreshWorld(q: Queue): SplitRing.World {
    SplitRing.World(q, SplitRing.Ready, SplitRing.Heads(|q.desc|), [], 0, false, map[], SplitRing.Reaping, false,
                    SplitRing.Top, [], [], [], [], [], [], 0)
  }

  /** The n-th event zeroes queue i: a zero page number, or a zero status while the device is started. */
  ghost predicate ZeroesAt(es: seq<Event>, n: nat, i: nat)
    requires n < |es|
  {
    (IsZeroWrite(es[n]) && Started(es[..n])) || (es[n].WriteQueuePfn? && es[n].i == i && es[n].pfn == 0)
  }

  /** The events since queue i was last zeroed. */
  ghost function SinceZeroed(es: seq<Event>, i: nat): seq<Event> {
    if es == [] || ZeroesAt(es, |es| - 1, i) then []
    else SinceZeroed(es[..|es| - 1], i) + [es[|es| - 1]]
  }

  predicate MovesQueue(e: Event, i: nat) {
    e.TasksMove? && e.i == i
  }

  predicate SetsUp(e: Event, i: nat) {
    e.WriteQueuePfn? && e.i == i && e.pfn != 0
  }

  /** Where the last movement among the events leaves the indices of queue i, if they start at zero. */
  function MovedTo(es: seq<Event>, i: nat): (u16, u16) {
    if es == [] then (0, 0)
    else
      var e := es[|es| - 1];
      if MovesQueue(e, i) then (e.lastAvailIdx, e.lastNotifiedIdx) else MovedTo(es[..|es| - 1], i)
  }

  /** Some of the events sets queue i up. */
  predicate SetUpIn(es: seq<Event>, i: nat) {
    es != [] && (SetsUp(es[|es| - 1], i) || SetUpIn(es[..|es| - 1], i))
  }

  /** The page number and the event index feature of the last set-up of queue i among the events. */
  function LastSetUp(es: seq<Event>, i: nat): (u32, bool) {
    if es == [] then (0, false)
    else
      var e := es[|es| - 1];
      if SetsUp(e, i) then (e.pfn, e.eventIdx) else LastSetUp(es[..|es| - 1], i)
  }

  lemma OneMore(es: seq<Event>, e: Event, i: nat)
    ensures MovedTo(es + [e], i) == if MovesQueue(e, i) then (e.lastAvailIdx, e.lastNotifiedIdx) else MovedTo(es, i)
    ensures SetUpIn(es + [e], i) <==> SetsUp(e, i) || SetUpIn(es, i)
    ensures LastSetUp(es + [e], i) == if SetsUp(e, i) then (e.pfn, e.eventIdx) else LastSetUp(es, i)
  {
    assert (es + [e])[..|es|] == es;
  }

  lemma NoEvents(i: nat)
    ensures MovedTo([], i) == (0, 0) && !SetUpIn([], i) && LastSetUp([], i) == (0, false)
  {
  }

  /** What one event does to queue i of a device that is live or not. */
  function QueueAfter(q: Vq, live: bool, e: Event, i: nat): Vq {
    match e
    case WriteStatus(status) => if status == 0 && live then ZERO_VQ else q
    case WriteQueuePfn(j, pfn, eventIdx) =>
      if j != i then q else if pfn == 0 then ZERO_VQ else q.(pfn := pfn, useEventIdx := eventIdx, enabled := true)
    case TasksMove(j, a, n) => if j != i then q else q.(lastAvailIdx := a, lastNotifiedIdx := n)
  }

  lemma StepQueue(s: State, e: Event, i: nat)
    requires Possible(s, e) && i < |s.vqs|
    ensures |Step(s, e).vqs| == |s.vqs| && Step(s, e).vqs[i] == QueueAfter(s.vqs[i], s.live, e, i)
  {
  }

  /** The queue is as the events leave it. */
  predicate Reflects(q: Vq, since: seq<Event>, i: nat) {
    && (q.lastAvailIdx, q.lastNotifiedIdx) == MovedTo(since, i)
    && (q.enabled <==> SetUpIn(since, i)) && (q.pfn, q.useEventIdx) == LastSetUp(since, i)
  }

  lemma ReflectsNext(q: Vq, live: bool, since: seq<Event>, e: Event, i: nat)
    requires Reflects(q, since, i)
    ensures if (IsZeroWrite(e) && live) || (e.WriteQueuePfn? && e.i == i && e.pfn == 0)
            then Reflects(QueueAfter(q, live, e, i), [], i)
            else Reflects(QueueAfter(q, live, e, i), since + [e], i)
  {
    NoEvents(i);
    OneMore(since, e, i);
  }

  /** The history alone determines a queue's indices, whether it is enabled, and with what page number and feature. */
  lemma {:induction false} MovedIsState(boot: State, es: seq<Event>, ss: seq<State>, i: nat)
    requires Boot(boot) && History(boot, es, ss) && i < |boot.vqs|
    ensures |ss[|es|].vqs| == |boot.vqs| && Reflects(ss[|es|].vqs[i], SinceZeroed(es, i), i)
  {
    SessionInvariant(boot, es, ss);
    if es == [] {
      NoEvents(i);
    } else {
      var n := |es| - 1;
      MovedIsState(boot, es[..n], ss[..n + 1], i);
      SessionInvariant(boot, es[..n], ss[..n + 1]);
      assert ss[..n + 1][n] == ss[n] && ss[n + 1] == Step(ss[n], es[n]);
      hide Reflects, Started, Step, QueueAfter;
      StepQueue(ss[n], es[n], i);
      ReflectsNext(ss[n].vqs[i], ss[n].live, SinceZeroed(es[..n], i), es[n], i);
    }
  }

  /**
   After any history, setting queue i up on a zeroed ring starts the two-party protocol, so that its invariant and
   all it implies hold, if and only if the movements since the queue was zeroed leave its indices at zero.
   */
  lemma SetUpStartsProtocolIff(boot: State, es: seq<Event>, ss: seq<State>, i: nat, pfn: u32, eventIdx: bool,
                               desc: seq<Desc>, tables: map<u64, seq<Desc>>, availRing: seq<u16>,
                               usedRing: seq<UsedElem>)
    requires Boot(boot) && History(boot, es, ss) && i < |boot.vqs| && pfn != 0
    requires RingSize(|desc|) && |availRing| == |usedRing| == |desc|
    ensures |ss[|es|].vqs| == |boot.vqs|
    ensures var t := Step(ss[|es|], Event.WriteQueuePfn(i, pfn, eventIdx));
            SplitRing.Inv(FreshWorld(FreshQueue(t, i, desc, tables, availRing, usedRing)))
            <==> MovedTo(SinceZeroed(es, i), i) == (0, 0)
  {
    MovedIsState(boot, es, ss, i);
    var t := Step(ss[|es|], Event.WriteQueuePfn(i, pfn, eventIdx));
    var w := FreshWorld(FreshQueue(t, i, desc, tables, availRing, usedRing));
    if MovedTo(SinceZeroed(es, i), i) == (0, 0) {
      SplitRing.InitInv(w);
    } else {
      StaleIndexBreaks(t, i, desc, tables, availRing, usedRing);
    }
  }

  lemma StaleIndexBreaks(t: State, i: nat, desc: seq<Desc>, tables: map<u64, seq<Desc>>, availRing: seq<u16>,
                         usedRing: seq<UsedElem>)
    requires i < |t.vqs| && (t.vqs[i].lastAvailIdx != 0 || t.vqs[i].lastNotifiedIdx != 0)
    ensures !SplitRing.Inv(FreshWorld(FreshQueue(t, i, desc, tables, availRing, usedRing)))
  {
    var w := FreshWorld(FreshQueue(t, i, desc, tables, availRing, usedRing));
    if w.q.lastAvailIdx != 0 {
      assert !SplitRing.AvailInv(w);
    } else {
      assert !SplitRing.NotifyInv(w);
    }
  }

  lemma {:induction false} UnmovedIsZero(es: seq<Event>, i: nat)
    requires forall k :: 0 <= k < |es| ==> !MovesQueue(es[k], i)
    ensures MovedTo(es, i) == (0, 0)
  {
    if es != [] {
      UnmovedIsZero(es[..|es| - 1], i);
    }
  }

  /** In particular it does if the tasks have not moved the queue's indices since it was zeroed. */
  lemma SetUpOfUnmovedQueue(boot: State, es: seq<Event>, ss: seq<State>, i: nat, pfn: u32, eventIdx: bool,
                            desc: seq<Desc>, tables: map<u64, seq<Desc>>, availRing: seq<u16>,
                            usedRing: seq<UsedElem>)
    requires Boot(boot) && History(boot, es, ss) && i < |boot.vqs| && pfn != 0
    requires var since := SinceZeroed(es, i); forall k :: 0 <= k < |since| ==> !MovesQueue(since[k], i)
    requires RingSize(|desc|) && |availRing| == |usedRing| == |desc|
    ensures |ss[|es|].vqs| == |boot.vqs|
    ensures var t := Step(ss[|es|], Event.WriteQueuePfn(i, pfn, eventIdx));
            SplitRing.Inv(FreshWorld(FreshQueue(t, i, desc, tables, availRing, usedRing)))
  {
    UnmovedIsZero(SinceZeroed(es, i), i);
    SetUpStartsProtocolIff(boot, es, ss, i, pfn, eventIdx, desc, tables, availRing, usedRing);
  }

  /**
   The driver's own check: it does if the driver has not set the queue up since it wrote it a zero page number or
   reset a started device, since no task can have moved it.
   */
  lemma SetUpOfTornDownQueue(boot: State, es: seq<Event>, ss: seq<State>, i: nat, pfn: u32, eventIdx: bool,
                             desc: seq<Desc>, tables: map<u64, seq<Desc>>, availRing: seq<u16>,
                             usedRing: seq<UsedElem>)
    requires Boot(boot) && History(boot, es, ss) && i < |boot.vqs| && pfn != 0
    requires !SetUpIn(SinceZeroed(es, i), i)
    requires RingSize(|desc|) && |availRing| == |usedRing| == |desc|
    ensures |ss[|es|].vqs| == |boot.vqs|
    ensures var t := Step(ss[|es|], Event.WriteQueuePfn(i, pfn, eventIdx));
            SplitRing.Inv(FreshWorld(FreshQueue(t, i, desc, tables, availRing, usedRing)))
  {
    MovedIsState(boot, es, ss, i);
    SessionInvariant(boot, es, ss);
    SetUpStartsProtocolIff(boot, es, ss, i, pfn, eventIdx, desc, tables, availRing, usedRing);
  }

  /** So it does after a reset of a started device, whatever came before and as long as the queue was not set up since. */
  lemma SetUpAfterReset(boot: State, es: seq<Event>, after: seq<Event>, ss: seq<State>, i: nat, pfn: u32,
                        eventIdx: bool, desc: seq<Desc>, tables: map<u64, seq<Desc>>, availRing: seq<u16>,
                        usedRing: seq<UsedElem>)
    requires Started(es) && !SetUpIn(after, i)
    requires Boot(boot) && History(boot, es + [WriteStatus(0)] + after, ss) && i < |boot.vqs| && pfn != 0
    requires RingSize(|desc|) && |availRing| == |usedRing| == |desc|
    ensures |ss[|es| + 1 + |after|].vqs| == |boot.vqs|
    ensures var t := Step(ss[|es| + 1 + |after|], Event.WriteQueuePfn(i, pfn, eventIdx));
            SplitRing.Inv(FreshWorld(FreshQueue(t, i, desc, tables, availRing, usedRing)))
  {
    SinceReset(es, after, i);
    SetUpOfTornDownQueue(boot, es + [WriteStatus(0)] + after, ss, i, pfn, eventIdx, desc, tables, availRing, usedRing);
  }

  lemma {:induction false} SinceReset(es: seq<Event>, after: seq<Event>, i: nat)
    requires Started(es) && !SetUpIn(after, i)
    ensures !SetUpIn(SinceZeroed(es + [WriteStatus(0)] + after, i), i)
    decreases |after|
  {
    hide Started;
    if after == [] {
      ZeroedNow(es, i);
      assert es + [WriteStatus(0)] + after == es + [WriteStatus(0)];
    } else {
      var n := |after| - 1;
      var before := es + [WriteStatus(0)] + after[..n];
      assert es + [WriteStatus(0)] + after == before + [after[n]];
      SinceReset(es, after[..n], i);
      StillNotSetUp(before, after[n], i);
    }
  }

  lemma ZeroedNow(es: seq<Event>, i: nat)
    requires Started(es)
    ensures !SetUpIn(SinceZeroed(es + [WriteStatus(0)], i), i)
  {
    assert (es + [WriteStatus(0)])[..|es|] == es;
  }

  lemma StillNotSetUp(es: seq<Event>, e: Event, i: nat)
    requires !SetUpIn(SinceZeroed(es, i), i) && !SetsUp(e, i)
    ensures !SetUpIn(SinceZeroed(es + [e], i), i)
  {
    hide ZeroesAt;
    assert (es + [e])[..|es|] == es;
    OneMore(SinceZeroed(es, i), e, i);
  }

  /** A history after which it does not: the transmit queue, used in a session, is set up again without a reset. */
  lemma SetUpAgainInSession(boot: State, desc: seq<Desc>, tables: map<u64, seq<Desc>>, availRing: seq<u16>,
                            usedRing: seq<UsedElem>)
    returns (es: seq<Event>, ss: seq<State>)
    requires Boot(boot) && 1 < |boot.vqs|
    requires RingSize(|desc|) && |availRing| == |usedRing| == |desc|
    ensures History(boot, es, ss) && Started(es) && |ss[|es|].vqs| == |boot.vqs|
    ensures var t := Step(ss[|es|], Event.WriteQueuePfn(1, 1, true));
            !SplitRing.Inv(FreshWorld(FreshQueue(t, 1, desc, tables, availRing, usedRing)))
  {
    var e0, e1, e2 := Event.WriteQueuePfn(1, 1, true), WriteStatus(4), TasksMove(1, 5, 5);
    var s1 := Step(boot, e0);
    var s2 := Step(s1, e1);
    var s3 := Step(s2, e2);
    es, ss := [e0, e1, e2], [boot, s1, s2, s3];
    assert IsOkWrite(es[1]);
    StaleIndexBreaks(Step(s3, Event.WriteQueuePfn(1, 1, true)), 1, desc, tables, availRing, usedRing);
  }

  /**
   Another: the transmit task worked on its queue before DRIVER_OK, and the driver then wrote a zero status. Nothing is
   started, so nothing is reset, and the queue keeps its page number and its indices.
   */
  lemma SetUpAfterEarlyZero(boot: State, desc: seq<Desc>, tables: map<u64, seq<Desc>>, availRing: seq<u16>,
                            usedRing: seq<UsedElem>)
    returns (es: seq<Event>, ss: seq<State>)
    requires Boot(boot) && 1 < |boot.vqs|
    requires RingSize(|desc|) && |availRing| == |usedRing| == |desc|
    ensures History(boot, es, ss) && es != [] && es[|es| - 1] == WriteStatus(0) && !Started(es)
    ensures |ss[|es|].vqs| == |boot.vqs| && ss[|es|].vqs[1] == Vq(1, 5, 5, true, true)
    ensures var t := Step(ss[|es|], Event.WriteQueuePfn(1, 1, true));
            !SplitRing.Inv(FreshWorld(FreshQueue(t, 1, desc, tables, availRing, usedRing)))
  {
    var e0, e1, e2 := Event.WriteQueuePfn(1, 1, true), TasksMove(1, 5, 5), WriteStatus(0);
    var s1 := Step(boot, e0);
    var s2 := Step(s1, e1);
    var s3 := Step(s2, e2);
    es, ss := [e0, e1, e2], [boot, s1, s2, s3];
    StaleIndexBreaks(Step(s3, Event.WriteQueuePfn(1, 1, true)), 1, desc, tables, availRing, usedRing);
  }
}
