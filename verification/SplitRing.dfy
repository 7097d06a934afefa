/**
 The driver and the device on one split virtqueue, as interleaved steps over shared memory.

 The device steps are the queue functions that the methods of Virtqueue.Virtqueue are proved against, cut at
 each access to shared memory. The driver is the environment of VIRTIO 1.1 sections 2.6.13 and 2.6.14: one side
 of it posts, and another reads used entries, asks for a notification, looks once more, and then sleeps.
 */
module SplitRing {
  import opened Words
  import opened RingWindow
  import opened EventIndex
  import opened Iovec
  import opened Virtqueue

  /** Ready to post, or past a publication of the entries behind `before` and about to test for a kick. */
  datatype DriverPc = Ready | Testing(before: nat)

  /** The driver's reader of used entries: at work, past arming its notification, or asleep until interrupted. */
  datatype ReaperPc = Reaping | Armed | Sleeping

  /** A posted chain: the descriptors it lists and the buffers they described when it was posted. */
  datatype Chain = Chain(path: seq<nat>, segs: seq<Seg>)

  /** At the top of its loop, past the emptiness test, past taking a head, or about to ask for a notification. */
  datatype DevicePc = Top | SawEntry | SawEmpty | Took | Asking

  datatype World = World(
    q: Queue,
    // the driver's private state, and whether a kick is pending for the device task
    drv: DriverPc, free: set<int>, staged: seq<u16>, lastUsed: u16, kick: bool,
    // its chains not yet reaped, its reader, and whether an interrupt has been raised for it or is due by the timer
    chains: map<int, Chain>, rpr: ReaperPc, irq: bool,
    // the device's private state: popped heads not yet written back, entries written but not published
    dev: DevicePc, held: seq<u16>, stored: seq<UsedElem>,
    // what crossed the rings: published and popped heads, published and reaped used entries
    sent: seq<u16>, popped: seq<u16>, done: seq<UsedElem>, reaped: seq<UsedElem>,
    // how many used entries were published at the last true answer
    notified: nat)

  datatype Step =
    // driver
    | Stage(h: u16, desc: seq<Desc>, tables: map<u64, seq<Desc>>, path: seq<nat>)
    | PublishAvail
    | TestKick
    | Reap
    | SetUsedEvent(x: u16)
    | SetAvailFlags(x: u16)
    | ArmUsed
    | Recheck
    | Interrupt
    | StopWaiting
    // device
    | Look
    | Take
    | Arm
    | Store(i: nat, len: u32)
    | PublishUsed
    | Ask
    | Wake
    | Poll

  function Ids(es: seq<UsedElem>): (ids: seq<int>)
    ensures |ids| == |es|
  {
    seq(|es|, i requires 0 <= i < |es| => es[i].id)
  }

  function Size(w: World): nat {
    |w.q.desc|
  }

  /** The memory that a posted chain lies in is the same in both queues: the driver leaves it alone until reaped. */
  ghost predicate Untouched(q: Queue, q': Queue, h: int, path: seq<nat>) {
    && 0 <= h < |q.desc| == |q'.desc| && q'.desc[h] == q.desc[h]
    && if q.desc[h].IsIndirect() then
         var a := q.desc[h].addr;
         (a in q'.tables <==> a in q.tables) && (a in q.tables ==> q'.tables[a] == q.tables[a])
       else forall i :: 0 <= i < |path| && path[i] < |q.desc| ==> q'.desc[path[i]] == q.desc[path[i]]
  }

  /** With its new chain in memory, the driver has left alone the memory of every chain not yet reaped. */
  ghost predicate Postable(w: World, h: u16, desc: seq<Desc>, tables: map<u64, seq<Desc>>, path: seq<nat>)
    requires h < |desc|
  {
    var q := w.q.(desc := desc, tables := tables);
    && IsChain(q.Table(h).0, q.Table(h).1, path)
    && forall g :: g in w.chains ==> Untouched(w.q, q, g, w.chains[g].path)
  }

  ghost predicate Enabled(w: World, s: Step) {
    match s
    case Stage(h, desc, tables, path) =>
      w.drv.Ready? && h in w.free && |desc| == Size(w) && h < Size(w) && Postable(w, h, desc, tables, path)
    case PublishAvail => w.drv.Ready? && w.staged != []
    case TestKick => w.drv.Testing?
    case Reap => w.rpr.Reaping? && w.q.usedIdx != w.lastUsed
    case SetUsedEvent(x) => w.rpr.Reaping?
    case SetAvailFlags(x) => w.rpr.Reaping?
    case ArmUsed => w.rpr.Reaping?
    case Recheck => w.rpr.Armed?
    case Interrupt => w.irq
    case StopWaiting => w.rpr.Sleeping?
    case Look => w.dev.Top?
    case Take => w.dev.SawEntry?
    case Arm => w.dev.Took?
    case Store(i, len) => w.dev.Top? && i < |w.held|
    case PublishUsed => w.dev.Top? && w.stored != []
    case Ask => w.dev.Asking?
    case Wake => w.dev.SawEmpty? && w.kick
    case Poll => w.dev.SawEmpty?
  }

  /** The driver's half of the kick protocol: the test of VIRTIO 1.1 section 2.6.10.1. */
  predicate WillKick(w: World)
    requires w.drv.Testing?
  {
    w.q.useEventIdx ==> NeedEvent(w.q.availEvent, w.q.availIdx, Wrap16(w.drv.before))
  }

  /** Removes the i-th element. */
  function Drop<T>(s: seq<T>, i: nat): seq<T>
    requires i < |s|
  {
    s[..i] + s[i + 1..]
  }

  function Do(w: World, s: Step): World
    requires 0 < |w.q.availRing| && 0 < |w.q.usedRing|
    requires Enabled(w, s)
  {
    match s
    case Stage(h, desc, tables, path) =>
      var slot := Slot(Wrap16(w.q.availIdx + |w.staged|), |w.q.availRing|);
      var q := w.q.(availRing := w.q.availRing[slot := h], desc := desc, tables := tables);
      w.(q := q, free := w.free - {h}, staged := w.staged + [h],
         chains := w.chains[h as int := Chain(path, Segments(q.Table(h).0, path))])
    case PublishAvail =>
      w.(q := w.q.(availIdx := Wrap16(w.q.availIdx + |w.staged|)),
         drv := Testing(|w.sent|), sent := w.sent + w.staged, staged := [])
    case TestKick =>
      w.(kick := w.kick || WillKick(w), drv := Ready)
    case Reap =>
      var e := w.q.usedRing[Slot(w.lastUsed, |w.q.usedRing|)];
      w.(lastUsed := Wrap16(w.lastUsed + 1), free := w.free + {e.id}, reaped := w.reaped + [e],
         chains := w.chains - {e.id})
    case SetUsedEvent(x) => w.(q := w.q.(usedEvent := x))
    case SetAvailFlags(x) => w.(q := w.q.(availFlags := x))
    case ArmUsed =>
      w.(q := w.q.(usedEvent := w.lastUsed, availFlags := w.q.availFlags - w.q.availFlags % 2), rpr := Armed)
    case Recheck => w.(rpr := if w.q.usedIdx == w.lastUsed then Sleeping else Reaping)
    case Interrupt => w.(irq := false, rpr := Reaping)
    case StopWaiting => w.(rpr := Reaping)
    case Look =>
      w.(dev := if w.q.Empty() then SawEmpty else SawEntry)
    case Take =>
      w.(q := w.q.Taken(), dev := Took, held := w.held + [w.q.Head()], popped := w.popped + [w.q.Head()])
    case Arm =>
      w.(q := w.q.Armed(), dev := Top)
    case Store(i, len) =>
      var e := UsedElem(w.held[i], len);
      w.(q := w.q.Stored(|w.stored|, e), held := Drop(w.held, i), stored := w.stored + [e])
    case PublishUsed =>
      w.(q := w.q.Published(|w.stored|), dev := Asking, done := w.done + w.stored, stored := [])
    case Ask =>
      w.(q := w.q.Answered(), dev := Top, irq := w.irq || w.q.Answer(),
         notified := if w.q.useEventIdx && w.q.Answer() then |w.done| else w.notified)
    case Wake => w.(kick := false, dev := Top)
    case Poll => w.(dev := Top)
  }

  /** A successful pop as its three uninterrupted steps. */
  function Pop(w: World): World
    requires w.q.Valid() && w.dev.Top? && !w.q.Empty()
  {
    Do(Do(Do(w, Look), Take), Arm)
  }

  /** Writing one held head back, publishing it and asking, uninterrupted. */
  function Complete(w: World, i: nat, len: u32): World
    requires w.q.Valid() && w.dev.Top? && i < |w.held|
  {
    Do(Do(Do(w, Store(i, len)), PublishUsed), Ask)
  }

  // ---- The invariant ----

  ghost function Bag(s: seq<int>): multiset<int> {
    multiset(s)
  }

  function AllHeads(num: nat): (s: seq<int>)
    ensures |s| == num
  {
    seq(num, i => i)
  }

  /** Published but not popped. */
  function Waiting(w: World): seq<u16>
    requires |w.popped| <= |w.sent|
  {
    w.sent[|w.popped|..]
  }

  /** Published in the used ring but not reaped. */
  function Unreaped(w: World): seq<UsedElem>
    requires |w.reaped| <= |w.done|
  {
    w.done[|w.reaped|..]
  }

  /** The available ring carries what the driver published to the device, in order. */
  ghost predicate AvailInv(w: World) {
    Channel(w.q.availRing, w.q.availIdx, w.q.lastAvailIdx, w.sent, w.popped, w.staged)
  }

  /** The used ring carries what the device published to the driver, in order. */
  ghost predicate UsedInv(w: World) {
    Channel(w.q.usedRing, w.q.usedIdx, w.lastUsed, w.done, w.reaped, w.stored)
  }

  /** Where every head is: with the driver, in the available ring, at the device, in the used ring. */
  ghost function Places(w: World): multiset<int>
    requires |w.popped| <= |w.sent| && |w.reaped| <= |w.done|
  {
    Spread(w.free, w.staged, Waiting(w), w.held, w.stored, Unreaped(w))
  }

  ghost function Spread(free: set<int>, staged: seq<u16>, waiting: seq<u16>, held: seq<u16>, stored: seq<UsedElem>,
                        unreaped: seq<UsedElem>): multiset<int>
  {
    multiset(free) + Bag(staged) + Bag(waiting) + Bag(held) + Bag(Ids(stored)) + Bag(Ids(unreaped))
  }

  ghost predicate Balance(w: World)
    requires |w.popped| <= |w.sent| && |w.reaped| <= |w.done|
  {
    Places(w) == multiset(AllHeads(Size(w)))
  }

  /** Popped heads are at the device or completed, as often as they were popped. */
  ghost predicate Completion(w: World) {
    Accounted(w.popped, w.held, w.stored, w.done)
  }

  ghost predicate Accounted(popped: seq<u16>, held: seq<u16>, stored: seq<UsedElem>, done: seq<UsedElem>) {
    Bag(popped) == Bag(held) + Bag(Ids(stored)) + Bag(Ids(done))
  }

  /** Nothing unread is left behind a device that saw an empty ring, unless a kick is on its way. */
  ghost predicate KickInv(w: World) {
    && (w.q.useEventIdx && w.dev != Took ==> w.q.availEvent == w.q.lastAvailIdx)
    && (w.drv.Testing? ==> w.drv.before < |w.sent| <= w.drv.before + Size(w))
    && (w.dev.SawEntry? ==> |w.popped| < |w.sent|)
    && (w.dev.SawEmpty? && !w.kick ==>
          |w.popped| == |w.sent| || (w.drv.Testing? && w.drv.before == |w.popped|))
  }

  ghost predicate NotifyInv(w: World) {
    w.notified <= |w.done| && w.q.lastNotifiedIdx == Wrap16(w.notified)
  }

  /** The chain is in memory as it was posted under head h. */
  ghost predicate Shows(q: Queue, h: int, c: Chain)
    requires q.Valid()
  {
    && 0 <= h < |q.desc|
    && IsChain(q.Table(h).0, q.Table(h).1, c.path) && Segments(q.Table(h).0, c.path) == c.segs
  }

  ghost predicate ChainInv(w: World)
    requires w.q.Valid()
  {
    && (forall h :: h in w.chains ==> Shows(w.q, h, w.chains[h]))
    && (forall h :: 0 <= h < Size(w) && h !in w.free ==> h in w.chains)
  }

  /** An armed reader has asked for the next entry, and asleep with no interrupt it has missed no true answer. */
  ghost predicate SleepInv(w: World) {
    && (!w.rpr.Reaping? ==> if w.q.useEventIdx then w.q.usedEvent == w.lastUsed else w.q.availFlags % 2 == 0)
    && (w.rpr.Sleeping? && !w.irq ==> w.notified <= |w.reaped|)
  }

  ghost predicate Inv(w: World) {
    && w.q.Valid()
    && AvailInv(w) && UsedInv(w)
    && Balance(w) && Completion(w)
    && KickInv(w) && NotifyInv(w)
    && ChainInv(w) && SleepInv(w)
  }

  /** The heads of a ring of the given size. */
  function Heads(num: nat): (s: set<int>)
    ensures forall h :: h in s <==> 0 <= h < num
  {
    if num == 0 then {} else Heads(num - 1) + {num - 1}
  }

  /** A freshly initialised queue: all indices zero, every head with the driver. */
  ghost predicate Init(w: World) {
    && w.q.Valid()
    && w.q.availIdx == w.q.usedIdx == w.q.lastAvailIdx == w.q.lastNotifiedIdx == w.q.availEvent == 0
    && w.drv == Ready && w.dev == Top && !w.kick && w.lastUsed == 0 && w.notified == 0
    && w.rpr == Reaping && !w.irq && w.chains == map[]
    && (forall h :: h in w.free <==> 0 <= h < Size(w))
    && w.staged == [] && w.held == [] && w.stored == []
    && w.sent == [] && w.popped == [] && w.done == [] && w.reaped == []
  }

  lemma InitInv(w: World)
    requires Init(w)
    ensures Inv(w)
  {
    assert Waiting(w) == [] && Ids(Unreaped(w)) == [] && Ids(w.stored) == [];
    AllHeadsOnce(Size(w));
    assert Places(w) == multiset(w.free);
    assert forall h :: multiset(w.free)[h] == multiset(AllHeads(Size(w)))[h];
  }

  /** Each head below num occurs once among all heads, anything else not at all. */
  lemma {:induction false} AllHeadsOnce(num: nat)
    ensures forall h :: multiset(AllHeads(num))[h] == if 0 <= h < num then 1 else 0
  {
    if num > 0 {
      AllHeadsOnce(num - 1);
      assert AllHeads(num) == AllHeads(num - 1) + [num - 1];
    }
  }

  /** The heads add up, so no ring can be overfull. */
  lemma Room(w: World)
    requires |w.popped| <= |w.sent| && |w.reaped| <= |w.done| && Balance(w)
    ensures |w.free| + |w.staged| + |Waiting(w)| + |w.held| + |w.stored| + |Unreaped(w)| == Size(w)
  {
    assert |multiset(AllHeads(Size(w)))| == Size(w);
    assert |Places(w)| == |w.free| + |w.staged| + |Waiting(w)| + |w.held| + |w.stored| + |Unreaped(w)|;
  }

  // ---- Every step keeps it ----

  lemma ShapeKept(w: World, s: Step)
    requires w.q.Valid() && Enabled(w, s)
    ensures Do(w, s).q.Valid()
  {
    hide Postable, IsChain, Segments, RingSize, Slot, NeedEvent;
  }

  lemma AvailKept(w: World, s: Step)
    requires w.q.Valid() && AvailInv(w) && Enabled(w, s)
    requires s.Stage? ==> |Waiting(w)| + |w.staged| < Size(w)
    requires s.Take? ==> |w.popped| < |w.sent|
    ensures AvailInv(Do(w, s))
  {
    if s.Stage? {
      StageAvail(w, s);
    } else if s.PublishAvail? {
      PublishedAvail(w, s);
    } else if s.Take? {
      TakeAvail(w, s);
    } else {
      AvailUntouched(w, s);
    }
  }

  lemma PublishedAvail(w: World, s: Step)
    requires w.q.Valid() && AvailInv(w) && Enabled(w, s) && s.PublishAvail?
    ensures AvailInv(Do(w, s))
  {
    hide Postable, IsChain, Segments;
    ChannelPublish(w.q.availRing, w.q.availIdx, w.q.lastAvailIdx, w.sent, w.popped, w.staged);
  }

  lemma TakeAvail(w: World, s: Step)
    requires w.q.Valid() && AvailInv(w) && Enabled(w, s) && s.Take? && |w.popped| < |w.sent|
    ensures AvailInv(Do(w, s))
  {
    TakeIsNext(w);
  }

  lemma StageAvail(w: World, s: Step)
    requires w.q.Valid() && AvailInv(w) && Enabled(w, s) && s.Stage?
    requires |Waiting(w)| + |w.staged| < Size(w)
    ensures AvailInv(Do(w, s))
  {
    hide Postable, IsChain, Segments;
    var q, w' := w.q, Do(w, s);
    ChannelStage(q.availRing, q.availIdx, q.lastAvailIdx, w.sent, w.popped, w.staged, s.h);
    assert w'.staged == w.staged + [s.h];
  }

  lemma AvailUntouched(w: World, s: Step)
    requires w.q.Valid() && Enabled(w, s) && !s.Stage? && !s.PublishAvail? && !s.Take?
    ensures var w' := Do(w, s);
            && w'.q.availRing == w.q.availRing && w'.q.availIdx == w.q.availIdx
            && w'.q.lastAvailIdx == w.q.lastAvailIdx
            && w'.sent == w.sent && w'.popped == w.popped && w'.staged == w.staged
    ensures AvailInv(w) ==> AvailInv(Do(w, s))
  {
    hide Postable, IsChain, Segments, Channel, Slot, NeedEvent, Queue.Answer;
  }

  lemma UsedUntouched(w: World, s: Step)
    requires w.q.Valid() && UsedInv(w) && Enabled(w, s) && !s.Store? && !s.PublishUsed? && !s.Reap?
    ensures UsedInv(Do(w, s))
  {
    hide Postable, IsChain, Segments, Channel, Slot, NeedEvent;
  }

  lemma UsedKept(w: World, s: Step)
    requires w.q.Valid() && UsedInv(w) && Enabled(w, s)
    requires s.Store? ==> |Unreaped(w)| + |w.stored| < Size(w)
    ensures UsedInv(Do(w, s))
  {
    hide Postable, IsChain, Segments, Window;
    var q := w.q;
    if s.Store? {
      ChannelStage(q.usedRing, q.usedIdx, w.lastUsed, w.done, w.reaped, w.stored, UsedElem(w.held[s.i], s.len));
    } else if s.PublishUsed? {
      ChannelPublish(q.usedRing, q.usedIdx, w.lastUsed, w.done, w.reaped, w.stored);
    } else if s.Reap? {
      ReapIsNext(w);
    } else {
      UsedUntouched(w, s);
    }
  }

  /** A device that found the ring non-empty takes the oldest head it has not taken. */
  lemma TakeIsNext(w: World)
    requires w.q.Valid() && AvailInv(w) && |w.popped| < |w.sent|
    ensures w.q.Head() == w.sent[|w.popped|]
    ensures Channel(w.q.availRing, w.q.availIdx, Wrap16(w.q.lastAvailIdx + 1),
                    w.sent, w.popped + [w.q.Head()], w.staged)
  {
    ChannelTake(w.q.availRing, w.q.availIdx, w.q.lastAvailIdx, w.sent, w.popped, w.staged);
  }

  /** A driver that found the used index moved reads the oldest entry it has not read. */
  lemma ReapIsNext(w: World)
    requires w.q.Valid() && UsedInv(w) && w.q.usedIdx != w.lastUsed
    ensures |w.reaped| < |w.done|
    ensures var e := w.q.usedRing[Slot(w.lastUsed, |w.q.usedRing|)];
            && e == w.done[|w.reaped|]
            && Channel(w.q.usedRing, w.q.usedIdx, Wrap16(w.lastUsed + 1), w.done, w.reaped + [e], w.stored)
  {
    ChannelEmpty(w.q.usedRing, w.q.usedIdx, w.lastUsed, w.done, w.reaped, w.stored);
    ChannelTake(w.q.usedRing, w.q.usedIdx, w.lastUsed, w.done, w.reaped, w.stored);
  }

  // The multisets behind each step that moves heads.

  lemma BagOfSum(a: seq<int>, b: seq<int>)
    ensures Bag(a + b) == Bag(a) + Bag(b)
  {
  }

  lemma IdsOfSum(a: seq<UsedElem>, b: seq<UsedElem>)
    ensures Bag(Ids(a + b)) == Bag(Ids(a)) + Bag(Ids(b))
  {
    assert Ids(a + b) == Ids(a) + Ids(b);
  }

  lemma IdsOfOne(e: UsedElem)
    ensures Bag(Ids([e])) == multiset{e.id as int}
  {
    assert Ids([e]) == [e.id as int];
  }

  lemma DropOne(s: seq<u16>, i: nat)
    requires i < |s|
    ensures Bag(s) == Bag(Drop(s, i)) + multiset{s[i] as int}
  {
    assert s == s[..i] + [s[i]] + s[i + 1..];
  }

  lemma SpreadStage(free: set<int>, staged: seq<u16>, waiting: seq<u16>, held: seq<u16>, stored: seq<UsedElem>,
                    unreaped: seq<UsedElem>, h: u16)
    requires h in free
    ensures Spread(free - {h}, staged + [h], waiting, held, stored, unreaped)
         == Spread(free, staged, waiting, held, stored, unreaped)
  {
    assert multiset(free) == multiset(free - {h as int}) + multiset{h as int};
    BagOfSum(staged, [h]);
  }

  lemma SpreadPublish(free: set<int>, staged: seq<u16>, waiting: seq<u16>, held: seq<u16>, stored: seq<UsedElem>,
                      unreaped: seq<UsedElem>)
    ensures Spread(free, [], waiting + staged, held, stored, unreaped)
         == Spread(free, staged, waiting, held, stored, unreaped)
  {
    BagOfSum(waiting, staged);
  }

  lemma SpreadTake(free: set<int>, staged: seq<u16>, waiting: seq<u16>, held: seq<u16>, stored: seq<UsedElem>,
                   unreaped: seq<UsedElem>)
    requires waiting != []
    ensures Spread(free, staged, waiting[1..], held + [waiting[0]], stored, unreaped)
         == Spread(free, staged, waiting, held, stored, unreaped)
  {
    assert waiting == [waiting[0]] + waiting[1..];
    BagOfSum([waiting[0]], waiting[1..]);
    BagOfSum(held, [waiting[0]]);
  }

  lemma SpreadStore(free: set<int>, staged: seq<u16>, waiting: seq<u16>, held: seq<u16>, stored: seq<UsedElem>,
                    unreaped: seq<UsedElem>, i: nat, e: UsedElem)
    requires i < |held| && e.id == held[i]
    ensures Spread(free, staged, waiting, Drop(held, i), stored + [e], unreaped)
         == Spread(free, staged, waiting, held, stored, unreaped)
  {
    DropOne(held, i);
    IdsOfSum(stored, [e]);
    IdsOfOne(e);
  }

  lemma SpreadPublishUsed(free: set<int>, staged: seq<u16>, waiting: seq<u16>, held: seq<u16>, stored: seq<UsedElem>,
                          unreaped: seq<UsedElem>)
    ensures Spread(free, staged, waiting, held, [], unreaped + stored)
         == Spread(free, staged, waiting, held, stored, unreaped)
  {
    IdsOfSum(unreaped, stored);
  }

  lemma SpreadReap(free: set<int>, staged: seq<u16>, waiting: seq<u16>, held: seq<u16>, stored: seq<UsedElem>,
                   unreaped: seq<UsedElem>, num: nat)
    requires unreaped != []
    requires Spread(free, staged, waiting, held, stored, unreaped) == multiset(AllHeads(num))
    ensures Spread(free + {unreaped[0].id as int}, staged, waiting, held, stored, unreaped[1..])
         == Spread(free, staged, waiting, held, stored, unreaped)
  {
    var e := unreaped[0];
    assert unreaped == [e] + unreaped[1..];
    IdsOfSum([e], unreaped[1..]);
    IdsOfOne(e);
    AllHeadsOnce(num);
    assert multiset(AllHeads(num))[e.id] <= 1;
    assert e.id !in free;
    assert multiset(free + {e.id as int}) == multiset(free) + multiset{e.id as int};
  }

  lemma BalanceKept(w: World, s: Step)
    requires Inv(w) && Enabled(w, s)
    requires AvailInv(Do(w, s)) && UsedInv(Do(w, s))
    ensures Balance(Do(w, s)) && Completion(Do(w, s))
  {
    hide Postable, IsChain, Segments, Spread, Accounted, Bag, Ids, KickInv, NotifyInv, ChainInv, SleepInv;
    match s
    case Stage(_, _, _, _) => StageBalance(w, s);
    case PublishAvail => PublishBalance(w, s);
    case Take =>
      TakeIsNext(w);
      TakeBalance(w, s);
    case Store(i, len) => StoreBalance(w, s);
    case PublishUsed => PublishUsedBalance(w, s);
    case Reap =>
      ReapIsNext(w);
      ReapBalance(w, s);
    case _ =>
  }

  ghost predicate Counted(w: World) {
    |w.popped| <= |w.sent| && |w.reaped| <= |w.done| && Balance(w) && Completion(w)
    && 0 < |w.q.availRing| && 0 < |w.q.usedRing|
  }

  lemma StageBalance(w: World, s: Step)
    requires Counted(w) && Enabled(w, s) && s.Stage?
    ensures Balance(Do(w, s)) && Completion(Do(w, s))
  {
    hide Postable, IsChain, Segments, Spread, Accounted;
    SpreadStage(w.free, w.staged, Waiting(w), w.held, w.stored, Unreaped(w), s.h);
  }

  lemma PublishBalance(w: World, s: Step)
    requires Counted(w) && Enabled(w, s) && s.PublishAvail?
    ensures Balance(Do(w, s)) && Completion(Do(w, s))
  {
    hide Postable, IsChain, Segments, Spread, Accounted;
    SpreadPublish(w.free, w.staged, Waiting(w), w.held, w.stored, Unreaped(w));
    assert Waiting(Do(w, s)) == Waiting(w) + w.staged;
  }

  lemma TakeBalance(w: World, s: Step)
    requires Counted(w) && Enabled(w, s) && s.Take?
    requires |w.popped| < |w.sent| && w.q.Head() == w.sent[|w.popped|]
    ensures Balance(Do(w, s)) && Completion(Do(w, s))
  {
    hide Postable, IsChain, Segments, Spread, Accounted, Queue.Head;
    var w', h := Do(w, s), w.q.Head();
    assert Waiting(w)[0] == h && Waiting(w') == Waiting(w)[1..];
    SpreadTake(w.free, w.staged, Waiting(w), w.held, w.stored, Unreaped(w));
    assert Completion(w') by {
      AccountedTake(w.popped, w.held, w.stored, w.done, h);
    }
  }

  lemma AccountedTake(popped: seq<u16>, held: seq<u16>, stored: seq<UsedElem>, done: seq<UsedElem>, h: u16)
    requires Accounted(popped, held, stored, done)
    ensures Accounted(popped + [h], held + [h], stored, done)
  {
    BagOfSum(popped, [h]);
    BagOfSum(held, [h]);
  }

  lemma StoreBalance(w: World, s: Step)
    requires Counted(w) && Enabled(w, s) && s.Store?
    ensures Balance(Do(w, s)) && Completion(Do(w, s))
  {
    hide Postable, IsChain, Segments, Spread, Accounted, Drop;
    var e := UsedElem(w.held[s.i], s.len);
    SpreadStore(w.free, w.staged, Waiting(w), w.held, w.stored, Unreaped(w), s.i, e);
    AccountedStore(w.popped, w.held, w.stored, w.done, s.i, e);
  }

  lemma AccountedStore(popped: seq<u16>, held: seq<u16>, stored: seq<UsedElem>, done: seq<UsedElem>, i: nat, e: UsedElem)
    requires Accounted(popped, held, stored, done) && i < |held| && e.id == held[i]
    ensures Accounted(popped, Drop(held, i), stored + [e], done)
  {
    DropOne(held, i);
    IdsOfSum(stored, [e]);
    IdsOfOne(e);
  }

  lemma PublishUsedBalance(w: World, s: Step)
    requires Counted(w) && Enabled(w, s) && s.PublishUsed?
    ensures Balance(Do(w, s)) && Completion(Do(w, s))
  {
    hide Postable, IsChain, Segments, Spread, Accounted;
    assert Unreaped(Do(w, s)) == Unreaped(w) + w.stored;
    SpreadPublishUsed(w.free, w.staged, Waiting(w), w.held, w.stored, Unreaped(w));
    AccountedPublish(w.popped, w.held, w.stored, w.done);
  }

  lemma AccountedPublish(popped: seq<u16>, held: seq<u16>, stored: seq<UsedElem>, done: seq<UsedElem>)
    requires Accounted(popped, held, stored, done)
    ensures Accounted(popped, held, [], done + stored)
  {
    IdsOfSum(done, stored);
  }

  lemma ReapBalance(w: World, s: Step)
    requires Counted(w) && Enabled(w, s) && s.Reap?
    requires |w.reaped| < |w.done| && w.q.usedRing[Slot(w.lastUsed, |w.q.usedRing|)] == w.done[|w.reaped|]
    ensures Balance(Do(w, s)) && Completion(Do(w, s))
  {
    hide Postable, IsChain, Segments, Spread, Accounted, Slot;
    var w', e := Do(w, s), w.done[|w.reaped|];
    assert Unreaped(w)[0] == e && Unreaped(w') == Unreaped(w)[1..];
    SpreadReap(w.free, w.staged, Waiting(w), w.held, w.stored, Unreaped(w), Size(w));
  }

  /** What the kick invariant is proved from. */
  ghost predicate Kicking(w: World) {
    w.q.Valid() && KickInv(w) && AvailInv(w) && |Waiting(w)| + |w.staged| <= Size(w)
  }

  lemma KickByTest(w: World, s: Step)
    requires Kicking(w) && Enabled(w, s) && s.TestKick?
    ensures KickInv(Do(w, s))
  {
    hide Postable, IsChain, Segments, Window, Slot, WillKick;
    if w.dev.SawEmpty? && !w.kick && |w.popped| < |w.sent| {
      OwedKick(w);
    }
  }

  lemma KickByDevice(w: World, s: Step)
    requires Kicking(w) && Enabled(w, s) && (s.Look? || s.Take? || s.Arm? || s.Wake? || s.Poll?)
    ensures KickInv(Do(w, s))
  {
    hide Postable, IsChain, Segments, Window, Slot;
    EmptyMeansDrained(w);
  }

  lemma KickByDriver(w: World, s: Step)
    requires Kicking(w) && Enabled(w, s) && s.PublishAvail?
    ensures KickInv(Do(w, s))
  {
    hide Postable, IsChain, Segments, Window, Slot;
  }

  lemma KickUntouched(w: World, s: Step)
    requires Kicking(w) && Enabled(w, s)
    requires !s.TestKick? && !s.Look? && !s.Take? && !s.Arm? && !s.Wake? && !s.Poll? && !s.PublishAvail?
    ensures KickInv(Do(w, s))
  {
    hide Postable, IsChain, Segments, Window, Slot, Channel;
  }

  lemma KickKept(w: World, s: Step)
    requires Inv(w) && Enabled(w, s)
    ensures KickInv(Do(w, s))
  {
    Room(w);
    hide Enabled, Do, KickInv, Balance, ChainInv;
    if s.TestKick? {
      KickByTest(w, s);
    } else if s.Look? || s.Take? || s.Arm? || s.Wake? || s.Poll? {
      KickByDevice(w, s);
    } else if s.PublishAvail? {
      KickByDriver(w, s);
    } else {
      KickUntouched(w, s);
    }
  }

  lemma NotifyKept(w: World, s: Step)
    requires w.q.Valid() && UsedInv(w) && NotifyInv(w) && Enabled(w, s)
    ensures NotifyInv(Do(w, s))
  {
    hide Postable, IsChain, Segments, Window, Slot, NeedEvent;
  }

  /** The device's emptiness test is exact. */
  lemma EmptyMeansDrained(w: World)
    requires w.q.Valid() && AvailInv(w)
    ensures w.q.Empty() <==> w.popped == w.sent
  {
    ChannelEmpty(w.q.availRing, w.q.availIdx, w.q.lastAvailIdx, w.sent, w.popped, w.staged);
  }

  /** The publication that ended emptiness passes the driver's kick test. */
  lemma OwedKick(w: World)
    requires w.q.Valid() && AvailInv(w) && KickInv(w)
    requires w.drv.Testing? && w.drv.before == |w.popped| && w.dev != Took
    ensures WillKick(w)
  {
    var lo, hi := w.drv.before, |w.sent|;
    if w.q.useEventIdx {
      assert Names(Wrap16(lo), lo, hi);
      NeedEventIsMembership(Wrap16(lo), lo, hi);
    }
  }

  lemma UntouchedShows(q: Queue, q': Queue, h: int, c: Chain)
    requires q.Valid() && q'.Valid() && Shows(q, h, c) && Untouched(q, q', h, c.path)
    ensures Shows(q', h, c)
  {
    var t, t' := q.Table(h).0, q'.Table(h).0;
    assert forall i :: 0 <= i < |c.path| ==> c.path[i] < |t| == |t'| && t'[c.path[i]] == t[c.path[i]];
    assert Segments(t', c.path) == Segments(t, c.path);
  }

  lemma StageChains(w: World, s: Step)
    requires w.q.Valid() && ChainInv(w) && Enabled(w, s) && s.Stage?
    ensures Do(w, s).q.Valid() && ChainInv(Do(w, s))
  {
    hide IsChain, Segments;
    var w' := Do(w, s);
    forall g | g in w.chains && g != s.h as int
      ensures Shows(w'.q, g, w.chains[g])
    {
      UntouchedShows(w.q, w'.q, g, w.chains[g]);
    }
  }

  lemma ReapChains(w: World, s: Step)
    requires w.q.Valid() && ChainInv(w) && Enabled(w, s) && s.Reap?
    ensures Do(w, s).q.Valid() && ChainInv(Do(w, s))
  {
    hide Postable, IsChain, Segments;
    hide Shows;
    SameMemoryShows(w, Do(w, s));
  }

  lemma SameChains(w: World, s: Step)
    requires w.q.Valid() && Enabled(w, s) && !s.Stage? && !s.Reap?
    ensures var w' := Do(w, s);
            && w'.chains == w.chains && w'.free == w.free
            && w'.q.desc == w.q.desc && w'.q.tables == w.q.tables
  {
    hide Postable, Slot, NeedEvent, Queue.Answer;
  }

  lemma OtherChains(w: World, s: Step)
    requires w.q.Valid() && ChainInv(w) && Enabled(w, s) && !s.Stage? && !s.Reap?
    ensures Do(w, s).q.Valid() && ChainInv(Do(w, s))
  {
    hide Enabled, Do, Shows;
    ShapeKept(w, s);
    SameChains(w, s);
    SameMemoryShows(w, Do(w, s));
  }

  lemma ChainsKept(w: World, s: Step)
    requires w.q.Valid() && ChainInv(w) && Enabled(w, s)
    ensures Do(w, s).q.Valid() && ChainInv(Do(w, s))
  {
    hide ChainInv, Enabled, Do;
    if s.Stage? {
      StageChains(w, s);
    } else if s.Reap? {
      ReapChains(w, s);
    } else {
      OtherChains(w, s);
    }
  }

  lemma SameMemoryShows(w: World, w': World)
    requires w.q.Valid() && w'.q.Valid() && w'.q.desc == w.q.desc && w'.q.tables == w.q.tables
    ensures forall h, c :: Shows(w.q, h, c) ==> Shows(w'.q, h, c)
  {
    hide IsChain, Segments;
    forall h, c | Shows(w.q, h, c) ensures Shows(w'.q, h, c) {
      assert w'.q.Table(h) == w.q.Table(h);
    }
  }

  lemma SleepKept(w: World, s: Step)
    requires w.q.Valid() && UsedInv(w) && NotifyInv(w) && SleepInv(w) && Enabled(w, s)
    ensures SleepInv(Do(w, s))
  {
    hide Do, Enabled, UsedInv, SleepInv, NotifyInv;
    if s.Recheck? {
      SleepChecked(w);
    } else {
      SleepAsked(w, s);
    }
  }

  lemma SleepChecked(w: World)
    requires w.q.Valid() && UsedInv(w) && NotifyInv(w) && SleepInv(w) && Enabled(w, Recheck)
    ensures SleepInv(Do(w, Recheck))
  {
    hide Window, Slot;
    ChannelEmpty(w.q.usedRing, w.q.usedIdx, w.lastUsed, w.done, w.reaped, w.stored);
  }

  lemma SleepAsked(w: World, s: Step)
    requires w.q.Valid() && SleepInv(w) && Enabled(w, s) && !s.Recheck?
    ensures SleepInv(Do(w, s))
  {
    hide Postable, Slot, NeedEvent, Queue.Answer, Wrap16;
  }

  lemma StepInv(w: World, s: Step)
    requires Inv(w) && Enabled(w, s)
    ensures Inv(Do(w, s))
  {
    Room(w);
    ShapeKept(w, s);
    AvailKept(w, s);
    UsedKept(w, s);
    BalanceKept(w, s);
    KickKept(w, s);
    NotifyKept(w, s);
    ChainsKept(w, s);
    SleepKept(w, s);
  }

  // ---- Runs ----

  ghost predicate Next(w: World, w': World) {
    w.q.Valid() && exists s :: Enabled(w, s) && w' == Do(w, s)
  }

  /** A run: from a fresh queue, any interleaving of driver and device steps. */
  ghost predicate Run(ws: seq<World>) {
    |ws| > 0 && Init(ws[0]) && forall i :: 0 <= i < |ws| - 1 ==> Next(ws[i], ws[i + 1])
  }

  lemma {:induction false} RunInv(ws: seq<World>, k: nat)
    requires Run(ws) && k < |ws|
    ensures Inv(ws[k])
  {
    if k == 0 {
      InitInv(ws[0]);
    } else {
      RunInv(ws, k - 1);
      hide Inv, Enabled, Do;
      assert Next(ws[k - 1], ws[k - 1 + 1]);
      var s :| Enabled(ws[k - 1], s) && ws[k] == Do(ws[k - 1], s);
      StepInv(ws[k - 1], s);
    }
  }

  /** The step from the k-th state of a run to the next. */
  lemma StepOf(ws: seq<World>, k: nat) returns (s: Step)
    requires Run(ws) && k + 1 < |ws|
    ensures Inv(ws[k]) && ws[k].q.Valid() && Enabled(ws[k], s) && ws[k + 1] == Do(ws[k], s)
  {
    RunInv(ws, k);
    hide Enabled, Do;
    assert Next(ws[k], ws[k + 1]);
    s :| Enabled(ws[k], s) && ws[k + 1] == Do(ws[k], s);
  }

  /** Exactly-once FIFO in both directions, across any number of index wraps; empty means drained. */
  lemma FifoExactlyOnce(ws: seq<World>, k: nat)
    requires Run(ws) && k < |ws|
    ensures var w := ws[k];
            && w.popped <= w.sent && (w.q.Empty() <==> w.popped == w.sent)
            && w.reaped <= w.done && (w.q.usedIdx == w.lastUsed <==> w.reaped == w.done)
  {
    RunInv(ws, k);
    var w := ws[k];
    EmptyMeansDrained(w);
    ChannelEmpty(w.q.usedRing, w.q.usedIdx, w.lastUsed, w.done, w.reaped, w.stored);
  }

  /** Every head is in exactly one place, and neither ring ever holds more than its slots. */
  lemma HeadsConserved(ws: seq<World>, k: nat, h: int)
    requires Run(ws) && k < |ws|
    requires 0 <= h < Size(ws[k])
    ensures var w := ws[k];
            && |w.popped| <= |w.sent| && |w.reaped| <= |w.done|
            && (if h in w.free then 1 else 0) + Bag(w.staged)[h] + Bag(Waiting(w))[h] + Bag(w.held)[h]
                 + Bag(Ids(w.stored))[h] + Bag(Ids(Unreaped(w)))[h] == 1
            && |Waiting(w)| + |w.staged| <= Size(w)
            && |Unreaped(w)| + |w.stored| <= Size(w)
  {
    RunInv(ws, k);
    Room(ws[k]);
    AllHeadsOnce(Size(ws[k]));
    assert Places(ws[k])[h] == 1;
  }

  /** Whenever the device holds nothing, the entries it published complete each popped head once per pop. */
  lemma CompletedOncePerPop(ws: seq<World>, k: nat)
    requires Run(ws) && k < |ws|
    requires ws[k].held == [] && ws[k].stored == []
    ensures Bag(Ids(ws[k].done)) == Bag(ws[k].popped)
  {
    RunInv(ws, k);
    assert Bag(ws[k].held) == Bag(Ids(ws[k].stored)) == multiset{};
  }

  /**
   No lost kick: a device task that saw the ring empty and has no kick pending is either right, or the driver
   is between publishing and testing and its test comes out true.
   */
  lemma NoLostKick(ws: seq<World>, k: nat)
    requires Run(ws) && k < |ws|
    requires ws[k].dev.SawEmpty? && !ws[k].kick
    ensures ws[k].popped == ws[k].sent || (ws[k].drv.Testing? && WillKick(ws[k]))
  {
    RunInv(ws, k);
    if |ws[k].popped| < |ws[k].sent| {
      OwedKick(ws[k]);
    }
  }

  /** A post made while the device task is blocked wakes it. */
  lemma NextPostKicks(ws: seq<World>, k: nat)
    requires Run(ws) && k < |ws|
    requires ws[k].dev.SawEmpty? && Enabled(ws[k], PublishAvail)
    ensures ws[k].q.Valid()
    ensures var posted := Do(ws[k], PublishAvail);
            Enabled(posted, TestKick) && Enabled(Do(posted, TestKick), Wake)
  {
    RunInv(ws, k);
    var posted := Do(ws[k], PublishAvail);
    StepInv(ws[k], PublishAvail);
    if !ws[k].kick {
      OwedKick(posted);
    }
  }

  /** The used-buffer notification is exact below one wrap since the last true answer. */
  lemma NotificationExact(ws: seq<World>, k: nat)
    requires Run(ws) && k < |ws|
    requires ws[k].q.useEventIdx && |ws[k].done| < ws[k].notified + TWO16
    ensures ws[k].q.Answer() <==> Names(ws[k].q.usedEvent, ws[k].notified, |ws[k].done|)
  {
    RunInv(ws, k);
    NeedEventIsMembership(ws[k].q.usedEvent, ws[k].notified, |ws[k].done|);
  }

  /** The device pops what was posted: the next chain it walks is finite and lists the buffers posted under its head. */
  lemma PopsWhatWasPosted(ws: seq<World>, k: nat)
    requires Run(ws) && k < |ws| && !ws[k].q.Empty()
    ensures ws[k].q.Valid()
    ensures var q, h := ws[k].q, ws[k].q.Head();
            && h in ws[k].chains && h < |q.desc|
            && var c := ws[k].chains[h];
            && (forall cap: nat :: |c.path| <= cap < TWO16 ==> q.Poppable(c.path, cap))
            && IsChain(q.HeadTable(), q.Table(h).1, c.path) && Segments(q.HeadTable(), c.path) == c.segs
  {
    RunInv(ws, k);
    var w := ws[k];
    EmptyMeansDrained(w);
    TakeIsNext(w);
    var h := w.q.Head();
    assert Waiting(w)[0] == h;
    assert Bag(Waiting(w))[h] >= 1;
    AllHeadsOnce(Size(w));
    assert Places(w)[h] == multiset(AllHeads(Size(w)))[h] <= 1;
    assert multiset(w.free)[h] == 0;
  }

  // ---- The interrupt ----

  /** A sleeping reader with no interrupt pending has read everything, or the device is still to ask. */
  ghost predicate Awaited(w: World) {
    w.rpr.Sleeping? && !w.irq ==> |w.reaped| == |w.done| || w.dev.Asking?
  }

  /**
   The device is about to refuse a sleeping reader entries it has not read: the entries published since the last
   true answer have wrapped, so that their 16-bit count does not exceed the entries behind the next unread one.
   */
  ghost predicate Loses(w: World) {
    && w.rpr.Sleeping? && !w.irq && w.dev.Asking? && w.q.useEventIdx && |w.reaped| < |w.done|
    && Wrap16(|w.done| - w.notified) <= |w.done| - |w.reaped| - 1
  }

  /** What the device answers a sleeping reader that has entries to read. */
  lemma AnswerToSleeper(w: World)
    requires Inv(w) && w.rpr.Sleeping? && !w.irq && w.dev.Asking? && |w.reaped| < |w.done|
    ensures w.q.Answer() <==> !Loses(w)
    ensures Loses(w) ==> |w.done| - w.notified >= TWO16
  {
    hide Balance, Completion, KickInv, ChainInv, NeedEvent, Wrap16, Window;
    Room(w);
    if w.q.useEventIdx {
      NextUnread(w.notified, |w.reaped|, |w.done|);
    }
  }

  /** The test for an event that names the next unread entry, on the counters behind the indices. */
  lemma NextUnread(notified: nat, reaped: nat, done: nat)
    requires notified <= done && reaped < done < reaped + TWO16
    ensures NeedEvent(Wrap16(reaped), Wrap16(done), Wrap16(notified)) <==> done - reaped - 1 < Wrap16(done - notified)
    ensures Wrap16(done - notified) <= done - reaped - 1 && notified <= reaped ==> done - notified >= TWO16
  {
    hide NeedEvent, Wrap16;
    NeedEventUnwrapped(Wrap16(reaped), notified, done);
    WrapOfWrap(reaped, done - 1);
    WrapSmall(done - 1 - reaped);
    if done - notified < TWO16 {
      WrapSmall(done - notified);
    }
  }

  lemma WrapSmall(x: nat)
    requires x < TWO16
    ensures Wrap16(x) == x
  {
  }

  lemma AwaitedKept(w: World, s: Step)
    requires Inv(w) && Enabled(w, s) && Awaited(w) && !Loses(w)
    ensures Awaited(Do(w, s))
  {
    hide Postable, IsChain, Segments;
    if s.Recheck? {
      ChannelEmpty(w.q.usedRing, w.q.usedIdx, w.lastUsed, w.done, w.reaped, w.stored);
    } else if s.Ask? && w.rpr.Sleeping? && !w.irq && |w.reaped| < |w.done| {
      AnswerToSleeper(w);
    }
  }

  lemma {:induction false} RunAwaited(ws: seq<World>, k: nat)
    requires Run(ws) && k < |ws| && forall j :: 0 <= j < k ==> !Loses(ws[j])
    ensures Awaited(ws[k])
  {
    if k > 0 {
      RunAwaited(ws, k - 1);
      hide Awaited, Loses, Inv, Enabled, Do, Run;
      var s := StepOf(ws, k - 1);
      AwaitedKept(ws[k - 1], s);
    }
  }

  /**
   No lost interrupt: over every run without a losing state, a reader that sleeps with no interrupt pending has
   read everything, or the device is about to ask and its answer is true.
   */
  lemma SleeperIsWoken(ws: seq<World>, k: nat)
    requires Run(ws) && k < |ws| && forall j :: 0 <= j <= k ==> !Loses(ws[j])
    requires ws[k].rpr.Sleeping? && !ws[k].irq
    ensures ws[k].reaped == ws[k].done || (ws[k].dev.Asking? && ws[k].q.Answer())
  {
    RunAwaited(ws, k);
    RunInv(ws, k);
    if |ws[k].reaped| < |ws[k].done| {
      AnswerToSleeper(ws[k]);
    }
  }

  /** Without the event index the question is answered by bit 0 of the flags the driver writes, and by nothing else. */
  lemma FlagDecides(w: World)
    requires Inv(w) && Enabled(w, Ask) && !w.q.useEventIdx
    ensures w.q.availFlags % 2 == 1 ==> Do(w, Ask) == w.(dev := Top)
    ensures w.q.availFlags % 2 == 0 ==> Do(w, Ask) == w.(dev := Top, irq := true)
  {
    hide Inv;
  }

  /** Over every run, a driver that keeps VRING_AVAIL_F_NO_INTERRUPT set gets no interrupt. */
  lemma {:induction false} SuppressedStaysQuiet(ws: seq<World>, k: nat, m: nat)
    requires Run(ws) && k <= m < |ws| && !ws[k].irq
    requires forall j :: k <= j < m ==> !ws[j].q.useEventIdx && ws[j].q.availFlags % 2 == 1
    ensures !ws[m].irq
  {
    hide Inv, Run, Do, Enabled;
    if k < m {
      SuppressedStaysQuiet(ws, k, m - 1);
      var s := StepOf(ws, m - 1);
      if s.Ask? {
        FlagDecides(ws[m - 1]);
      } else {
        OnlyAskInterrupts(ws[m - 1], s);
      }
    }
  }

  lemma OnlyAskInterrupts(w: World, s: Step)
    requires Inv(w) && Enabled(w, s) && !s.Ask?
    ensures Do(w, s).irq ==> w.irq
  {
    hide Balance, Completion, KickInv, ChainInv, SleepInv, NotifyInv, AvailInv, UsedInv, Postable, Slot, NeedEvent;
    hide Queue.Answer;
  }

  /** There is no losing state as long as fewer than 65536 entries have been published since the last true answer. */
  lemma WokenBelowOneWrap(ws: seq<World>, k: nat)
    requires Run(ws) && k < |ws| && forall j :: 0 <= j <= k ==> |ws[j].done| - ws[j].notified < TWO16
    requires ws[k].rpr.Sleeping? && !ws[k].irq
    ensures ws[k].reaped == ws[k].done || (ws[k].dev.Asking? && ws[k].q.Answer())
  {
    forall j | 0 <= j <= k
      ensures !Loses(ws[j])
    {
      RunInv(ws, j);
      if ws[j].rpr.Sleeping? && !ws[j].irq && ws[j].dev.Asking? && |ws[j].reaped| < |ws[j].done| {
        AnswerToSleeper(ws[j]);
      }
    }
    SleeperIsWoken(ws, k);
  }

  /** Asleep with no interrupt pending and entries to read, and no answer to the entries there are is true. */
  ghost predicate Lost(w: World) {
    && w.rpr.Sleeping? && !w.irq && w.q.useEventIdx && |w.reaped| < |w.done|
    && Wrap16(|w.done| - w.notified) <= |w.done| - |w.reaped| - 1
  }

  /** A losing state does lose: the device asks, is refused, and the reader sleeps on with entries to read. */
  lemma LosingLoses(ws: seq<World>, k: nat)
    requires Run(ws) && k < |ws| && Loses(ws[k])
    ensures ws[k].q.Valid() && Enabled(ws[k], Ask)
    ensures var w := Do(ws[k], Ask);
            Lost(w) && w.dev.Top? && |w.done| - w.notified >= TWO16
  {
    RunInv(ws, k);
    AnswerToSleeper(ws[k]);
  }

  /** More entries move both sides of the comparison by as many. */
  lemma LostGrows(notified: nat, reaped: nat, done: nat, more: nat)
    requires notified <= done && reaped < done && done + more < reaped + TWO16
    requires Wrap16(done - notified) <= done - reaped - 1
    ensures Wrap16(done + more - notified) <= done + more - reaped - 1
  {
    var d := done - notified;
    var r := Wrap16(d);
    DivModUnique(d + more, TWO16, d / TWO16, r + more);
  }

  /** No step but waking up on its own ends it. */
  lemma LostKept(w: World, s: Step)
    requires Inv(w) && Enabled(w, s) && Lost(w) && !s.StopWaiting?
    ensures Lost(Do(w, s))
  {
    hide Postable, IsChain, Segments, Slot, Balance, Completion, KickInv, ChainInv, NeedEvent, Wrap16, Queue.Answer;
    if s.PublishUsed? {
      Room(w);
      SizeBelowWrap(w);
      LostGrows(w.notified, |w.reaped|, |w.done|, |w.stored|);
    } else if s.Ask? {
      LostRefused(w);
    }
  }

  lemma SizeBelowWrap(w: World)
    requires w.q.Valid()
    ensures Size(w) < TWO16
  {
  }

  lemma LostRefused(w: World)
    requires Inv(w) && Lost(w) && w.dev.Asking?
    ensures !w.q.Answer()
  {
    hide Postable, IsChain, Segments, Slot, Balance, Completion, KickInv, ChainInv, AvailInv, NeedEvent, Wrap16;
    NextUnread(w.notified, |w.reaped|, |w.done|);
  }

  /**
   A lost interrupt is lost for good: over every run, a reader that sleeps through it stays asleep, with no interrupt
   pending and with entries to read, however many more the device publishes.
   */
  lemma {:induction false} LostForGood(ws: seq<World>, k: nat, m: nat)
    requires Run(ws) && k <= m < |ws| && Lost(ws[k]) && forall j :: k <= j <= m ==> ws[j].rpr.Sleeping?
    ensures Lost(ws[m])
  {
    hide Lost, Inv, Enabled, Do, Run;
    if k < m {
      LostForGood(ws, k, m - 1);
      var s := StepOf(ws, m - 1);
      if s.StopWaiting? {
        StopEndsSleep(ws[m - 1], s);
      }
      LostKept(ws[m - 1], s);
    }
  }

  lemma StopEndsSleep(w: World, s: Step)
    requires w.q.Valid() && Enabled(w, s) && s.StopWaiting?
    ensures !Do(w, s).rpr.Sleeping?
  {
  }
}
