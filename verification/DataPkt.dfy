/** Packets: a buffer whose first bytes are head room, with the frame somewhere behind it. */
module DataPkt {
  import opened Words

  const HEAD_ROOM: nat := 128
  const TAIL_ROOM: nat := 0
  /** DATA_PKT_FLAG_CAN_FREE is bit 0 of the flags, DATA_PKT_FLAG_STATIC_BUFF bit 1. */
  predicate CanFree(flags: u32) { flags % 2 == 1 }
  predicate StaticBuff(flags: u32) { flags / 2 % 2 == 1 }

  /** Positions are offsets from the packet's own address. */
  class Packet {
    const buf: array<u8>
    const flags: u32
    var data: nat
    var dataLen: nat
    var tail: nat
    var end: nat
    var used: bool

    /** data_pkt_build; the buffer must hold more than the head room. */
    constructor (buf: array<u8>, flags: u32)
      requires buf.Length > HEAD_ROOM + TAIL_ROOM
      ensures Valid() && this.buf == buf && this.flags == flags
      ensures data == 128 && dataLen == 0 && tail == buf.Length - TAIL_ROOM && end == buf.Length
    {
      this.buf, this.flags := buf, flags;
      data, dataLen, tail, end := HEAD_ROOM, 0, buf.Length - TAIL_ROOM, buf.Length;
      used := false;
    }

    /** The packet layout: the frame lies between data and tail, tail and end inside the buffer. */
    ghost predicate Valid()
      reads `data, `dataLen, `tail, `end
    {
      data + dataLen <= tail <= end == buf.Length && data < tail
    }

    function Frame(): seq<u8>
      requires Valid()
      reads `data, `dataLen, `tail, `end, buf
    {
      buf[data..data + dataLen]
    }
  }

  /** A packet with the given room for data, or null when the allocation fails. */
  method Alloc(room: nat, flags: u32, allocOk: bool) returns (pkt: Packet?)
    requires 0 < room
    ensures (pkt == null) == !allocOk
    ensures pkt != null ==>
      && fresh(pkt) && fresh(pkt.buf) && pkt.Valid() && pkt.flags == flags
      && pkt.data == HEAD_ROOM && pkt.dataLen == 0 && pkt.tail == HEAD_ROOM + room == pkt.buf.Length
      && forall i :: 0 <= i < pkt.buf.Length ==> pkt.buf[i] == 0
  {
    if !allocOk {
      return null;
    }
    var buf := new u8[room + HEAD_ROOM + TAIL_ROOM](_ => 0);
    pkt := new Packet(buf, flags);
  }

  /** A copy with its own buffer, full head room and the same frame, room behind it, and flags. */
  method Clone(pkt: Packet, allocOk: bool) returns (copy: Packet?)
    requires pkt.Valid()
    ensures (copy == null) == !allocOk
    ensures copy != null ==>
      && fresh(copy) && fresh(copy.buf) && copy.Valid() && copy.flags == pkt.flags
      && copy.Frame() == pkt.Frame() && copy.dataLen == pkt.dataLen
      && copy.buf[copy.data..copy.data + copy.dataLen] == pkt.buf[pkt.data..pkt.data + pkt.dataLen]
      && copy.data == HEAD_ROOM && copy.tail - copy.data == pkt.tail - pkt.data
  {
    copy := Alloc(pkt.tail - pkt.data, pkt.flags, allocOk);
    if copy == null {
      return;
    }
    forall i | 0 <= i < pkt.dataLen {
      copy.buf[copy.data + i] := pkt.buf[pkt.data + i];
    }
    copy.dataLen := pkt.dataLen;
  }

  /**
   What freeing does to the memory: a packet on a static buffer only becomes reusable. A clone carries the
   flags of its source, so a clone of a static packet, though on heap memory, is treated the same way.
   */
  method Free(pkt: Packet) returns (toHeap: bool)
    modifies pkt`used
    ensures toHeap == (pkt.flags / 2 % 2 == 0)
    ensures pkt.used == (old(pkt.used) && toHeap)
  {
    toHeap := !StaticBuff(pkt.flags);
    if !toHeap {
      pkt.used := false;
    }
  }
}
