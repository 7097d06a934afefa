# Verified models of the industrial real-time edge code

This project models, in Dafny, the parts of the repository where several operations have to agree with each
other, and proves what they promise together. The device side of the legacy VirtIO split virtqueue and the network
device on top of it come first; then the virtual Ethernet switch, the frame tags of the PTP stack, the motion
planner of the EtherCAT application and the windowed statistics.

Integers of the sources are unbounded here and every wrap, truncation and saturation that matters is written out
(`Words.dfy`). Code that updates objects or buffers in place is a class or a method over arrays, proved against
functions of the old state; the laws are lemmas about those functions. Interleavings are transition systems whose
steps are single accesses to shared state; theorems about them quantify over every run and every position in it.

| file | what it models |
|---|---|
| `EventIndex.dfy`, `RingWindow.dfy` | the 16-bit event test, and a ring addressed by a free-running 16-bit index |
| `Virtqueue.dfy` | the device's queue object: pop with chain walk, write-back, notification decision |
| `SplitRing.dfy`, `LostInterrupt.dfy` | driver and device interleaved on one queue; runs in which an interrupt is lost |
| `RingLayout.dfy` | where `vring_init` puts the three areas |
| `Iovec.dfy` | scatter and gather |
| `VirtioNet.dfy`, `RxSteps.dfy` | the transmit round and the receive callback of the network device; a delivery as steps of the interleaving |
| `Session.dfy` | status writes, resets and queue set-up |
| `IntrusiveList.dfy`, `DataPkt.dfy` | the linked list and the packet the switch works with |
| `PortEvents.dfy`, `SwitchNotify.dfy` | producers, notifiers and the drain thread of one port, interleaved |
| `NetSwitch.dfy` | forwarding, flooding, ownership, forwarding tables |
| `Tags.dfy` | VLAN and DSA tags inserted and removed in place, and decoded |
| `Trajectory.dfy`, `AxisNc.dfy` | the trapezoidal planner; the segment list, its text form and the walk through it |
| `Stats.dfy` | windowed minimum, maximum, mean, mean square and variance |

The functions that specify the methods are themselves pinned down in the terms of the sources: flag bits, tag bytes,
byte offsets, fields of a port, differences of positions, periods of time.

## What holds only under a condition

Some natural statements are false of the code. Each is replaced by the exact condition under which it is true, and
where a reader may doubt that the failing case can happen there is a lemma with one.

- The used-buffer notification test is right for every event value if and only if fewer than 65536 entries were
  published since the last true answer (`EventIndex.NeedEventExactIff`).
- A driver that reads used entries, arms, looks once more and sleeps is woken by the next used buffer, except in a
  losing state: the entries since the last true answer, counted in 16 bits, do not exceed those behind the next
  unread one (`SplitRing.AnswerToSleeper`, `SplitRing.SleeperIsWoken`). That takes at least 65536 entries without
  a true answer, because `last_notified_idx` moves only on a true answer; `LostInterrupt.InterruptCanBeLost` is a run
  with exactly 65536, for every ring size. The interrupt is then lost for good: however many entries follow, none wakes
  the sleeper (`SplitRing.LostForGood`).
- A queue set up on a zeroed ring starts the protocol correctly if and only if the task's last movement of its indices
  since the queue was zeroed, if there was one, left them at zero (`Session.SetUpStartsProtocolIff`). What zeroes a
  queue is a zero page number, or a zero status on a device that has been started; `init_vq` does not. A driver can
  check it: it has not set the queue up since it was zeroed (`Session.SetUpOfTornDownQueue`). It fails when a queue is
  set up twice in a session (`Session.SetUpAgainInSession`), and when a zero status is written before DRIVER_OK although
  the task, which starts with the page number, has worked already (`Session.SetUpAfterEarlyZero`).
- A zero written to the status leaves every queue as at boot if and only if the device was started or no queue was set
  up (`Session.ZeroResetsIff`).
- An inserted VLAN tag names the port it was made for if and only if the port is below 16 (`Tags.VlanTagDecodes`);
  the tag for port 16 is the tag for port 0 (`Tags.VlanPortTooLarge`).
- The planner returns 0 if and only if some trapezoid within the speed limit covers the distance in the given points
  (`Trajectory.Plan`), which the discriminant and its root decide (`Trajectory.FeasibleIff`).
- The parser ignores that answer. A segment it has set up holds the trapezoid of its entry if and only if the entry is
  feasible in this sense, and otherwise the switch points its array slot held before (`AxisNc.PlannedByEntry`);
  `AxisNc.InfeasibleAccepted` is a list that is accepted although its one entry is not feasible.
- A successful parse sets the number of segments to that of the parsed ones if and only if as many entries were read
  as parentheses were counted, and the walk is then ready at its first point provided that `current_tp` is zero, which
  the parser does not set (`AxisNc.Axis.ParseSegments`). Two pairs without a comma between them count as two and
  are read as one (`AxisNc.MissingComma`), and the walk then runs into whatever the next array slot held.
- A cyclic list is accepted if and only if its entries can be read and no blank stands before its first parenthesis,
  because the second scan of the first entry does not skip blanks as the first one does (`AxisNc.FirstEntry`,
  `AxisNc.BlankRejectsCycle`).
- The variance is right if and only if the squares of the window add up to less than 2^64
  (`Stats.VarianceExactIff`); `Stats.VarianceCanWrap` gives a window of six samples where they do not.
- The maximum is right if and only if some sample is above -2^31, since it starts at -2^31 + 1
  (`Stats.MaxIsExactIff`, `Stats.MaxCanBeMissed`). The minimum always is.

A successful change of a forwarding table also leaves the port powered on, whatever it was before
(`NetSwitch.Port.AddFdbEntry`, `NetSwitch.Port.RemoveFdbEntry`).

## Model

| member | source | states |
|---|---|---|
| EventIndex.NeedEventIsMembership | include/virtio/uapi/virtio_ring.h:218-226 | for fewer than 65536 entries the uint16 subtraction test is membership of the event in the unbounded interval of published entries |
| EventIndex.NeedEventExactIff | include/virtio/uapi/virtio_ring.h:218-226 | the test is right for every event value exactly when the window is shorter than one wrap |
| RingWindow.ChannelTake | virtio/devices/core.c:70-76 | through any number of wraps, the slot at the consumer index holds the oldest entry not yet taken, and advancing the index leaves exactly the rest |
| RingWindow.ChannelEmpty | virtio/devices/core.c:73-74 | equal indices mean that everything published has been taken, never a full ring |
| RingWindow.SlotOfWrap | virtio/devices/core.c:76 | the wrapped index selects the slot of the unbounded one when the ring size divides 65536 |
| Virtqueue.Virtqueue.GetIov | virtio/devices/core.c:57-103 | -1 and nothing changed exactly when the ring is empty; otherwise the oldest head, its chain's segments in order, the two counts, and the event index moved up to the new position |
| Virtqueue.PopFollowsFlags | virtio/devices/core.c:76-97 | where a pop goes and what it lists and counts, in the bits of the descriptor flags: bit 2 leads to the start of the table at the address, bit 0 to the next descriptor, bit 1 counts as writable |
| Virtqueue.WalkChain | virtio/devices/core.c:78-97 | for every acyclic chain the walk ends and fills the vector in chain order |
| Virtqueue.CountersSplitChain | virtio/devices/core.c:83-91 | for readable-first chains the counters cut the vector into the readable and the writable part, and only for those |
| Virtqueue.IndirectIsInlined | virtio/devices/core.c:78-81 | an indirect table yields the vector of the same chain inlined in the main table |
| Virtqueue.ChainUnique | virtio/devices/core.c:82-97 | a table and a start determine the chain |
| Virtqueue.ChainFitsTable | virtio/devices/core.c:82-97 | a terminating chain never visits a descriptor twice, so it has at most as many segments as the table |
| Virtqueue.Virtqueue.AddUsedElem | virtio/devices/core.c:40-49 | writes one slot behind the used index and publishes nothing |
| Virtqueue.Virtqueue.UpdateUsedIdx | virtio/devices/core.c:30-38 | publishes the given number of entries at once |
| Virtqueue.Virtqueue.UpdateUsedElem | virtio/devices/core.c:51-55 | is storing one entry and publishing it |
| Virtqueue.Virtqueue.MustNotify | virtio/devices/core.c:114-135 | the decision, by bit 0 of the available flags when there is no event index, and that only a true answer with event index moves the last notified index |
| SplitRing.StepInv | virtio/devices/core.c:30-135 | every driver or device step keeps the protocol invariant: both rings in step with their logs, heads balanced, posted chains intact, kicks owed, notified index in step, an armed reader's event in place |
| SplitRing.FifoExactlyOnce | virtio/devices/core.c:57-76 | over every run the popped heads are a prefix of the published ones, all of them exactly when the ring reads empty, and likewise for used entries |
| SplitRing.HeadsConserved | virtio/devices/core.c:30-76 | in every reachable state each head is in exactly one of six places, and no unreaped used slot is overwritten because there is always room |
| SplitRing.CompletedOncePerPop | virtio/devices/network.c:115-141 | whenever the device holds nothing, it has completed each head exactly as often as it popped it |
| SplitRing.NoLostKick | virtio/devices/core.c:66-100 | a device task that saw the ring empty with no kick pending is right, or the driver is about to test and will kick |
| SplitRing.NextPostKicks | virtio/devices/network.c:116-122 | a post made while the task is blocked leads to a wake-up |
| SplitRing.NotificationExact | virtio/devices/core.c:114-132 | over every run, below one wrap since the last true answer, the answer is true exactly when used_event names a new entry |
| SplitRing.FlagDecides | virtio/devices/core.c:134-134 | without the event index the question raises an interrupt if bit 0 of the driver's flags is clear and changes nothing if it is set |
| SplitRing.SuppressedStaysQuiet | virtio/devices/core.c:134-134 | over every run, a driver that keeps that bit set gets no interrupt |
| SplitRing.PopsWhatWasPosted | virtio/devices/core.c:76-97 | over every run the next chain the device walks is finite and lists the buffers that were posted under its head, so the walk's precondition always holds |
| SplitRing.AnswerToSleeper | virtio/devices/core.c:114-132 | the answer to a sleeping reader with entries to read is false exactly in a losing state, which needs 65536 entries since the last true answer |
| SplitRing.SleeperIsWoken | virtio/devices/core.c:114-132 | over every run without a losing state, a reader asleep with no interrupt pending has read everything, or the device is about to ask and will answer true |
| SplitRing.WokenBelowOneWrap | virtio/devices/core.c:114-132 | so it is as long as no 65536 entries pass without a true answer |
| SplitRing.LosingLoses | virtio/devices/core.c:120-132 | from a losing state the device asks, is refused, and the interrupt is lost |
| SplitRing.LostForGood | virtio/devices/core.c:114-132 | over every run a lost interrupt stays lost while the reader sleeps: no interrupt is pending and entries are unread, however many more are published |
| LostInterrupt.InterruptCanBeLost | virtio/devices/core.c:120-132 | for a ring of any size a losing state is reachable, after 65535 polled rounds and one more used buffer |
| RingLayout.AlignUpIsLeast | include/virtio/uapi/virtio_ring.h:195-203 | the mask expression is the least multiple of the alignment not below its argument |
| RingLayout.MaskIsRounding | include/virtio/uapi/virtio_ring.h:195-203 | and-ing with the complement of 2^k - 1 rounds down to a multiple of 2^k |
| RingLayout.LayoutDisjointAndTight | include/virtio/uapi/virtio_ring.h:191-210 | table, available ring with used_event and used ring with avail_event are disjoint and in order, the used ring is aligned, and all end exactly at vring_size |
| RingLayout.LayoutInBytes | include/virtio/uapi/virtio_ring.h:191-210 | the address of every entry and event field in bytes, and the used ring at the least aligned address behind the available ring |
| Iovec.GatherOfScatter | include/common/iovec.h:29-44 | over disjoint segments, zero-length ones allowed, exactly the first bytes of the concatenation become the data |
| Iovec.ToIovec | include/common/iovec.h:29-44 | the loop ends, memory becomes the scattered data and the vector what is left of it |
| Iovec.FromIovec | include/common/iovec.h:46-61 | the loop ends with the first bytes of the concatenation and the vector what is left of it |
| Iovec.AdvanceIsSuffix | include/common/iovec.h:29-61 | the advanced vector describes exactly the bytes behind the consumed ones |
| Iovec.ToThenFrom | include/common/iovec.h:19-61 | copying in and then out of the original vector returns the data, and the advanced vector still shows the old bytes |
| Iovec.IovSize | include/common/iovec.h:19-27 | the sum of the first lengths |
| VirtioNet.TxRound | virtio/devices/network.c:115-150 | one round pops, and with the link on hands over exactly the bytes behind the first readable segment, with the link off none; it completes the head in either case with the size of its readable part; the packet count goes up only with the link on; the interrupt is raised at once from 100 packets on or without a coalescing time, else the timer runs |
| VirtioNet.FrameBehindHeader | virtio/devices/network.c:124-139 | so for a header in the first segment and a frame behind it the switch gets the frame, byte for byte, and the used entry reports both |
| VirtioNet.ReadablePart | virtio/devices/network.c:124-135 | the readable part of a chain posted readable-first is its descriptors without the write flag |
| VirtioNet.TxRoundIsSteps | virtio/devices/network.c:115-141 | the round is a run of two-party steps that leaves nothing popped uncompleted |
| VirtioNet.CompleteHead | virtio/devices/network.c:139-149 | write-back, decision, interrupt or timer, and the coalescing count after it |
| VirtioNet.Interrupter.Request | virtio/devices/network.c:142-149 | a requested interrupt is raised now if there is no coalescing time or 100 packets are behind it, and only that restarts the count; else the coalescing timer is running |
| VirtioNet.RequestAnswered | virtio/devices/network.c:142-149 | whatever follows a request, an interrupt has been raised since or the timer is still to raise one |
| VirtioNet.ExpiryAnswers | virtio/devices/network.c:142-149 | and the timer's expiry raises one |
| VirtioNet.Interrupter.TimerExpires | virtio/devices/network.c:394-399 | the timer's callback raises an interrupt and leaves the timer stopped |
| VirtioNet.PopOrWait | virtio/devices/network.c:466-470 | the polling loop ends with the next head the driver posts, whenever it posts one |
| VirtioNet.RxScatter | virtio/devices/network.c:459-487 | the loop ends with the frame scattered over the popped buffers and the planned entries written, with the used index untouched |
| VirtioNet.RxCallback | virtio/devices/network.c:442-506 | with any queue, nothing happens when not running or without head room; otherwise, on a ready ring, the whole delivery with its packet count, as Delivered states it |
| RxSteps.RxDeliveryIsSteps | virtio/devices/network.c:459-494 | a delivery is a path of the two-party system: the driver sees none of its entries before the last two states and all of them then, nothing popped is kept, and the ring is that of publishing one at a time |
| RxSteps.FrameIsSteps | virtio/devices/network.c:459-494 | and so for the entries of every frame that the buffers on the ring have room for |
| VirtioNet.BatchIsOneByOne | virtio/devices/core.c:30-55 | publishing all entries at once leaves the ring that publishing one at a time leaves |
| VirtioNet.EntriesAddUp | virtio/devices/network.c:479-486 | the used lengths sum to header plus frame, none is zero, and the ids are the popped heads in order |
| VirtioNet.FrameDelivered | virtio/devices/network.c:459-494 | the reported parts of the buffers, in used order, are exactly header and frame |
| Session.NetDev.HandleDevStatus | virtio/devices/core.c:142-156 | the state after a status write |
| Session.NetDev.HandleNetStatus | virtio/devices/network.c:223-262 | the network device's part of it, in the order it is called |
| Session.NetDev.Reset | virtio/devices/mmio.c:188-196 | every queue is zeroed |
| Session.NetDev.WriteQueuePfn | virtio/devices/mmio.c:112-123 | a page number sets the selected queue up and zero tears it down |
| Session.DriverOkIsBit2 | virtio/devices/core.c:147-149 | DRIVER_OK is bit 2 of the status, whatever the others are |
| Session.SessionInvariant | virtio/devices/core.c:142-156 | over every history, live and running hold exactly between a DRIVER_OK write and the next zero write, link_on exactly then if the configuration says so, and a queue that is not set up is all zero |
| Session.ZeroResetsIff | virtio/devices/core.c:142-156 | after any history a zero status ends the session, and leaves every queue as at boot exactly if the device was started or no queue was set up |
| Session.MovedIsState | virtio/devices/network.c:264-289 | the events since the queue was last zeroed determine its indices, whether it is enabled, its page number and whether it uses the event index |
| Session.SetUpStartsProtocolIff | virtio/devices/network.c:264-289 | after any history, before or after DRIVER_OK, set-up on a zeroed ring establishes the protocol invariant if and only if the movements since the queue was zeroed leave its indices at zero |
| Session.SetUpOfUnmovedQueue | virtio/devices/network.c:264-289 | so it does if the task has not moved the indices since the queue was zeroed |
| Session.SetUpOfTornDownQueue | virtio/devices/network.c:264-289 | and if the driver has not set the queue up since then |
| Session.SetUpAgainInSession | virtio/devices/network.c:264-289 | a history after which it does not: set up twice in a session |
| Session.SetUpAfterEarlyZero | virtio/devices/core.c:142-156 | another: the task works before DRIVER_OK, a zero status then resets nothing |
| Session.SetUpAfterReset | virtio/devices/mmio.c:188-196 | after the reset of a started device it does, whatever came before, until the queue is set up again |
| IntrusiveList.ListAddHead | include/common/list.h:36-47 | the ring becomes the one with the node in front, count included |
| IntrusiveList.ListAddTail | include/common/list.h:54-65 | the ring becomes the one with the node at the end, count included |
| IntrusiveList.ListDel | include/common/list.h:73-81 | the ring loses exactly that element and the node is a list of its own |
| IntrusiveList.LastAndEmpty | include/common/list.h:67-88 | the two tests are right for every ring and element |
| IntrusiveList.ContentsUnique | include/common/list.h:14-30 | a ring spells only one sequence |
| IntrusiveList.ForEachSafe | include/common/list.h:117-121 | visits every original element once, in order, whichever of the visited ones are deleted, and leaves exactly the others |
| IntrusiveList.KeptAreTheOthers | include/common/list.h:117-121 | what it leaves are exactly the elements not deleted |
| IntrusiveList.KeptOfConcat | include/common/list.h:117-121 | in the order they had |
| DataPkt.Packet.constructor | net/data_pkt.c:15-32 | the packet layout invariant after build |
| DataPkt.Clone | net/data_pkt.c:49-61 | a fresh buffer with full head room, the same frame, room and flags |
| DataPkt.Free | net/data_pkt.c:63-69 | a packet with bit 1 of the flags set only becomes reusable, a clone of one included; any other goes to the heap |
| SwitchNotify.StepInv | net/net_switch.c:66-98 | every step of every thread keeps the invariant that queued packets are covered |
| SwitchNotify.NoStrandedPacket | net/net_switch.c:66-98 | over every run each queued packet is ahead of the drain cursor, or its producer is still inside, or an announcement is on its way |
| SwitchNotify.ReachKept | net/net_switch.c:213-235 | a packet ahead of the cursor stays ahead of it until delivered, whatever step any thread takes |
| SwitchNotify.ReachedBeforeBlocking | net/net_switch.c:213-235 | over every run, what the cursor was ever ahead of has been delivered by the time the port waits again |
| SwitchNotify.DeliveredInOrder | net/net_switch.c:213-235 | packets reach the callback once each, in queue order, and are freed only after it |
| SwitchNotify.QuietMeansDrained | net/net_switch.c:213-235 | with every thread outside, no flag and no event, everything enqueued has been delivered |
| SwitchNotify.PassEmptiesQueue | net/net_switch.c:213-235 | an undisturbed pass delivers the whole queue |
| SwitchNotify.EnqueueIsSteps | net/net_switch.c:86-98 | the port's enqueue, as NetSwitch states it, is three of the interleaved steps |
| SwitchNotify.NotifyIsSteps | net/net_switch.c:66-84 | and so is turning its flag into an event |
| SwitchNotify.ProcessIsSteps | net/net_switch.c:213-235 | and working off one event is a run of the drain thread alone |
| NetSwitch.Switch.SwitchPkt | net/net_switch.c:193-211 | the packet ends in exactly one queue or is freed once, never both; copies are fresh, distinct and faithful; frames to ff:ff:ff:ff:ff:ff or to an address that starts with 01 grow exactly the queues of the ports on at both ends of the cable, other than the source and subscribed if need be, as allocation allows; others go to their destination if it is on at both ends, else they are freed and counted; no queue of a port that is off at either end changes |
| NetSwitch.Switch.Flood | net/net_switch.c:100-191 | the same for the two flooding functions, with the port that takes the packet itself: the remote port, or the last local port, which needs no allocation |
| NetSwitch.Switch.Unicast | net/net_switch.c:202-209 | to the destination if it is on at both ends of its cable, else freed and counted |
| NetSwitch.Switch.Selects | net/net_switch.c:149-152 | the local test, which looks at fdb_enabled, and the remote one, which does not, select the same ports |
| NetSwitch.Switch.FindDstPort | net/net_switch.c:50-64 | the first powered local port with the address, else the remote port for local sources |
| NetSwitch.Switch.OneDestination | net/net_switch.c:50-64 | which is one port only |
| NetSwitch.Switch.NotifyPorts | net/net_switch.c:66-84 | every raised flag is lowered and becomes an event, or the event queue was full |
| NetSwitch.Port.Enqueue | net/net_switch.c:86-98 | appended, with the flag raised below ten packets and from there on an event, unless 100 are waiting |
| NetSwitch.Port.ProcessEvent | net/net_switch.c:213-235 | every queued packet goes out in order; those that can be freed leave and are freed, the others stay |
| NetSwitch.SelectedSplits | net/net_switch.c:226-231 | the two kinds together are the queue, nothing lost or doubled |
| NetSwitch.SelectedOfConcat | net/net_switch.c:222-231 | what stays and what leaves keeps its order, each packet judged by itself |
| NetSwitch.SelectedOfOne | net/net_switch.c:226-231 | and by bit 0 of its flags |
| NetSwitch.Port.AddFdbEntry | net/net_switch.c:350-382 | -1 and nothing changed for a known address; enabled stays equivalent to not empty |
| NetSwitch.Port.RemoveFdbEntry | net/net_switch.c:384-422 | -1 and nothing changed for an unknown address; exactly that entry leaves; enabled stays equivalent to not empty |
| Tags.InsertVlanTag | net/ptp_stack/ptp_multisoc_stack.c:28-48 | the whole buffer after the overlapping moves: addresses, the four tag bytes, the rest |
| Tags.InsertDsaTagTs | net/ptp_stack/ptp_multisoc_stack.c:50-84 | the same with the DSA tag and both timestamps big-endian |
| Tags.RemoveTag | net/ptp_stack/ptp_multisoc_stack.c:86-105 | -1 and nothing changed unless something is left behind addresses and tag; else the whole buffer after the overlapping moves |
| Tags.InsertedFrame | net/ptp_stack/ptp_multisoc_stack.c:28-84 | seen from the frame, insertion is addresses, tag, rest |
| Tags.RemovedFrame | net/ptp_stack/ptp_multisoc_stack.c:86-105 | seen from the frame, removal is addresses, rest |
| Tags.RemoveUndoesInsert | net/ptp_stack/ptp_multisoc_stack.c:28-105 | removing as many bytes as were inserted restores every byte from the frame on |
| Tags.VlanInAndOut | net/ptp_stack/ptp_multisoc_stack.c:28-105 | a VLAN tag inserted and removed gives back frame, position and length exactly if the frame is longer than its addresses; else removal refuses and the tag stays |
| Tags.DsaInAndOut | net/ptp_stack/ptp_multisoc_stack.c:50-105 | the same for the DSA tag with its timestamps |
| Tags.InsertUndoesRemove | net/ptp_stack/ptp_multisoc_stack.c:28-105 | inserting the removed bytes restores the frame |
| Tags.HtonllSwaps | include/net/net_types.h:51-52 | the swapped word lies in memory in wire order |
| Tags.UnwireInverts | net/ptp_stack/ptp_multisoc_stack.c:68-80 | the timestamps can be read back from the wire |
| Tags.HostToSwitch | net/ptp_stack/ptp_multisoc_stack.c:125-222 | the tag the header announces is removed, the frame otherwise kept, and the route is the first port with the decoded id, or a format error |
| Tags.DsaFrame | net/ptp_stack/ptp_multisoc_stack.c:159-195 | a frame sent with the bytes DA DC and a custom field without bit 14, and four more if bit 11 asks for a timestamp, comes out as it was, for the port in the low four bits, with a timestamp exactly if asked |
| Tags.DsaMeta | net/ptp_stack/ptp_multisoc_stack.c:159-168 | with bit 14 it is a meta frame and left alone |
| Tags.DecodeBytes | net/ptp_stack/ptp_multisoc_stack.c:125-182 | the decision on the four bytes behind the addresses, for every header |
| Tags.FindSwitchPortIdx | net/ptp_stack/ptp_multisoc_stack.c:107-117 | the first port with the id, or -1 if none has it |
| Tags.VlanTagDecodes | net/ptp_stack/ptp_multisoc_stack.c:146-154 | an inserted VLAN tag is recognised, removing it restores the frame, and the decoded port is right exactly below 16 |
| Tags.VlanPortTooLarge | net/ptp_stack/ptp_multisoc_stack.c:28-48 | the tag for port 16 is the tag for port 0 and decodes to it |
| Trajectory.Plan | apps/soem_servo/freertos/axis_nc.c:88-123 | 0 exactly if a trapezoid within the speed limit exists, -1 exactly if none exists at all, and on 0 the segment holds that trapezoid |
| Trajectory.FeasibleIff | apps/soem_servo/freertos/axis_nc.c:107-115 | a feasible trapezoid exists exactly if the discriminant is not negative and the speed at its smaller root within the limit |
| Trajectory.RootIsTrapezoid | apps/soem_servo/freertos/axis_nc.c:102-113 | the smaller root of the quadratic lies in range and covers the distance |
| Trajectory.TrapezoidIsUnique | apps/soem_servo/freertos/axis_nc.c:102-113 | no other trapezoid does, and none does if the discriminant is negative |
| Trajectory.SwitchPointsInRange | apps/soem_servo/freertos/axis_nc.c:118-121 | the rounded switch points are in order and within the points |
| Trajectory.ExactEnd | apps/soem_servo/freertos/axis_nc.c:56-61 | with exact switch points the profile ends at the target |
| Trajectory.RoundedEnd | apps/soem_servo/freertos/axis_nc.c:56-61 | with rounded ones every planned profile ends within v/2 + decel/8 of the target |
| Trajectory.RoundedEndWithoutDecel | apps/soem_servo/freertos/axis_nc.c:56-61 | and within the sharper 3v/4 when no deceleration is left |
| Trajectory.RoundedStart | apps/soem_servo/freertos/axis_nc.c:56-61 | every planned profile starts within accel/8 of its origin |
| Trajectory.DecelJunction | apps/soem_servo/freertos/axis_nc.c:56-61 | rounding leaves a step of at most v from the plateau to the last branch |
| Trajectory.AccelJunction | apps/soem_servo/freertos/axis_nc.c:56-61 | and of at most v/2 + accel/8 from the first branch to the plateau |
| AxisNc.Axis.GetNextPos | apps/soem_servo/freertos/axis_nc.c:49-86 | an int32_t congruent to the truncated (profile * direction + origin) * scale of the current point, and one step of the walk with nothing else changed |
| AxisNc.Accelerating | apps/soem_servo/freertos/axis_nc.c:56-64 | in the first branch a segment's positions start at origin * scale and from point k on differ by accel * (k + 1/2), turned and scaled |
| AxisNc.Cruising | apps/soem_servo/freertos/axis_nc.c:56-64 | on the plateau they start at accelPos and differ by the uniform speed |
| AxisNc.Decelerating | apps/soem_servo/freertos/axis_nc.c:56-64 | in the last branch they start half a deceleration behind decelPos and differ by decel * (k + 1/2) |
| AxisNc.Resting | apps/soem_servo/freertos/axis_nc.c:56-64 | a planned segment without a distance is at origin * scale for all its points |
| AxisNc.RunStops | apps/soem_servo/freertos/axis_nc.c:67-84 | a run that does not go around passes every point in order and stops after exactly the sum of max(1, points) calls |
| AxisNc.EveryPointOnce | apps/soem_servo/freertos/axis_nc.c:67-84 | it visits every point of every segment in one call only |
| AxisNc.OnlyPoints | apps/soem_servo/freertos/axis_nc.c:67-84 | and nothing else, cyclic or not |
| AxisNc.CyclicRun | apps/soem_servo/freertos/axis_nc.c:67-84 | a cyclic run does segment 0 once and then segments 1 to the last for ever |
| AxisNc.PreStopEndsLap | apps/soem_servo/freertos/axis_nc.c:78-83 | pre_stop ends it at the end of the lap it is in, not earlier |
| AxisNc.AtIsInjective | apps/soem_servo/freertos/axis_nc.c:67-84 | a call count belongs to one point of one segment |
| AxisNc.Axis.ParseSegments | apps/soem_servo/freertos/axis_nc.c:215-274 | for every text the exact error code, writes only below the counted number, on success the segments of the entries, each with as many points as whole periods fit into its time and planned or stale as its feasibility says, their number exactly if as many were read as counted, and then, if current_tp was zero, the walk ready at their first point |
| AxisNc.PointsLast | apps/soem_servo/freertos/axis_nc.c:249-249 | points * period <= time in nanoseconds < (points + 1) * period, and what is left of that when the quotient exceeds 32 bits |
| AxisNc.RunLasts | apps/soem_servo/freertos/axis_nc.c:249-249 | so a run takes the entries' time, less than a period short for each |
| AxisNc.Axis.SetSegment | apps/soem_servo/freertos/axis_nc.c:249-253 | the segment's move, its direction, and the plan: the trapezoid if there is a feasible one, else that of the slot |
| AxisNc.PlannedByEntry | apps/soem_servo/freertos/axis_nc.c:246-254 | a parsed segment holds a trapezoid for its move exactly if its entry is feasible, and otherwise the plan its slot held before |
| AxisNc.InfeasibleAccepted | apps/soem_servo/freertos/axis_nc.c:246-254 | a list whose one entry is infeasible is read like any other |
| AxisNc.ParsedMoveEnds | apps/soem_servo/freertos/axis_nc.c:49-65 | the positions of a parsed list: the move of a feasible entry ends within (v/2 + decel/8) * scale of the entry's position, and the next feasible one starts at most accel/8 * scale further off |
| AxisNc.Axis.RunOut | apps/soem_servo/freertos/main.c:298-308 | one axis that does not go around, or has been told to stop, sends exactly one position for every point left, segment by segment in order, and then has stopped |
| AxisNc.Axis.StopLap | apps/soem_servo/freertos/axis_nc.c:303-308 | told to stop anywhere in its run, an axis sends exactly the rest of its lap |
| AxisNc.WrittenListRuns | apps/soem_servo/freertos/axis_nc.c:49-84 | from text to walk: a written list is read entry by entry, its moves join, its walk takes exactly the points of the entries, once or around and around, and its length in periods is that of the entries' times |
| AxisNc.ReadsEntry | apps/soem_servo/freertos/axis_nc.c:243-260 | an entry with blanks before it, white space and plus signs before its numbers and anything behind it up to the comma is read, and then the text behind the comma |
| AxisNc.NoEntry | apps/soem_servo/freertos/axis_nc.c:244-247 | a text that does not go on with a parenthesis is refused |
| AxisNc.ParensAreCounted | apps/soem_servo/freertos/axis_nc.c:216-225 | the first loop counts the opening parentheses |
| AxisNc.MissingComma | apps/soem_servo/freertos/axis_nc.c:216-259 | two pairs without a comma count as two and are read as one |
| AxisNc.BlankRejectsCycle | apps/soem_servo/freertos/axis_nc.c:260-263 | a list behind a blank is accepted unless it is cyclic |
| AxisNc.Axis.BuildSegments | apps/soem_servo/freertos/axis_nc.c:240-259 | the building loop ends and stays within the array for every text |
| AxisNc.EntriesFit | apps/soem_servo/freertos/axis_nc.c:216-259 | the building loop never finds more entries than the counting loop counted |
| AxisNc.MovesJoin | apps/soem_servo/freertos/axis_nc.c:241-271 | each origin is the previous target and a cyclic list ends where its lap begins |
| AxisNc.ReadBack | apps/soem_servo/freertos/axis_nc.c:215-259 | a list written out in the expected form is read back entry by entry, and the count agrees |
| AxisNc.FirstEntry | apps/soem_servo/freertos/axis_nc.c:260-263 | the first entry can be read again exactly when no blank stands before it |
| Stats.Stats.Update | libs/stats/stats.c:41-75 | a full window is described, with mean * n <= sum < (mean + 1) * n, and forgotten, else only the running values change |
| Stats.Stats.Compute | libs/stats/stats.c:85-102 | the same of a partial window, with the mean rounded towards zero on either side of it |
| Stats.SumsAdd | libs/stats/stats.c:45-46 | the two running sums are additive over windows |
| Stats.SumsOfOne | libs/stats/stats.c:45-46 | and of one sample they are it and its square |
| Stats.Stats.Reset | libs/stats/stats.c:10-17 | the window is forgotten and the absolute extremes are not |
| Stats.CauchySchwarz | libs/stats/stats.c:61-64 | the squared sum is at most the count times the sum of squares |
| Stats.MeanSquareCoversSquaredMean | libs/stats/stats.c:61-64 | so the two rounded quotients never cross |
| Stats.VarianceExactIff | libs/stats/stats.c:61-64 | the computed variance is the unwrapped one exactly when the squares add up to less than 2^64 |
| Stats.VarianceWithinOne | libs/stats/stats.c:61-64 | which differs from the true variance by less than one |
| Stats.VarianceCanWrap | libs/stats/stats.c:61-64 | a window that meets every other condition and gets a wrong variance |
| Stats.MinIsExact | libs/stats/stats.c:48-52 | the running minimum is the minimum of the samples |
| Stats.MaxIsExactIff | libs/stats/stats.c:54-58 | the running maximum is the maximum exactly when some sample is above -2^31 |
| Stats.MaxCanBeMissed | libs/stats/stats.c:54-58 | a window of one sample where it is not |
| Stats.MeanFits | libs/stats/stats.c:64-93 | both roundings of the mean fit an int32_t |

## Left out

- The driver is not in the repository. It is taken from sections 2.6.13 and 2.6.14 of VIRTIO 1.1 as an environment that posts only free heads and finite chains, leaves posted memory alone until it has read the used entry, publishes the index before it reads the event field, and looks at the used index again between arming and sleeping.
- Memory ordering below the barriers: every shared access is one atomic step.
- Interleavings inside the class methods: the queue, switch and device methods run undisturbed; `SplitRing` and `SwitchNotify` interleave the same operations step by step.
- Virtqueue.Virtqueue.GetIov: the caller names the acyclic chain as a ghost parameter and has room for it; `SplitRing.PopsWhatWasPosted` shows that a driver that posts finite chains provides it. A cyclic chain would make the original loop for ever.
- VirtioNet.PopOrWait: the driver posts by a given schedule that contains enough buffers; with a driver that stops posting the original waits for ever.
- RxSteps.RxDeliveryIsSteps: the driver's own steps in between, and the polling while the ring is empty; all buffers are there at the start.
- VirtioNet.RxCallback: receive buffers are single non-empty writable descriptors, as the one-entry vector of the source requires.
- The control queue's task: its pop and write-back are the transmit round's, its commands set one address.
- RingLayout.LayoutDisjointAndTight: addresses fit the machine word; the truncation of `vring_size` to unsigned is not modelled.
- Session.NetDev.HandleDevStatus: device tasks are idle during a reset and leave a queue alone that is not set up; feature negotiation and the remaining registers only copy values.
- IntrusiveList.ListDel: the `container_of` arithmetic is not modelled; a node is the object that carries the links.
- DataPkt.Free: returning memory to the heap is only reported, and the clearing of the whole packet structure on allocation is not modelled.
- NetSwitch.Switch.Flood: one method with a flag stands for the two functions, which differ in the subscription test only; queues are sequences, which is what `IntrusiveList` proves of the links, and statistics other than in_dropped are not kept.
- Port creation and removal, address updates and PORT_STOP.
- Tags.HostToSwitch: the timestamp id of a DSA frame, the socket calls behind the route and the packet counters are not modelled.
- Trajectory.Plan: doubles are reals, sqrt is a given root, and acceleration and deceleration are positive; the original's doubles become infinite or undefined otherwise. Velocity continuity is not claimed: the last branch adds 0.5 * decel * k^2, so it reaches the target but speeds up on the way.
- AxisNc.Axis.ParseSegments: the keyword loop in front of it, and numbers that overflow `%d`.
- AxisNc.Axis.GetNextPos: the position before conversion fits an int64_t, without which the conversion is undefined.
- Stats.Stats.Update: the squared sum of a full window fits an int64_t, without which the multiplication is undefined; the callback, histograms and printing are not modelled.
- Board support, thread wrappers, mailbox, RPMsg, lwIP glue and the other applications: configuration, or calls into libraries that are not part of this model.
