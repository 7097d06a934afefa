/** VLAN and DSA tags, inserted into and removed from a frame in place. */
module Tags {
  import opened Words
  import opened DataPkt

  const MACS: nat := 12
  const ETHERTYPE_VLAN: u16 := 0x8100
  const TPID_DSA: u16 := 0xDADC

  // ---- Byte order ----

  /** The n bytes of a word in memory, little-endian. */
  function Memory(x: nat, n: nat): (b: seq<u8>)
    ensures |b| == n
  {
    if n == 0 then [] else [(x % TWO8) as u8] + Memory(x / TWO8, n - 1)
  }

  /** The n bytes of a word on the wire, big-endian. */
  function Wire(x: nat, n: nat): (b: seq<u8>)
    ensures |b| == n
  {
    if n == 0 then [] else Wire(x / TWO8, n - 1) + [(x % TWO8) as u8]
  }

  /** The word that n big-endian bytes stand for. */
  function Unwire(b: seq<u8>): nat {
    if b == [] then 0 else Unwire(b[..|b| - 1]) * TWO8 + b[|b| - 1] as int
  }

  function Htons(x: u16): u16 {
    x / TWO8 + x % TWO8 * TWO8
  }

  function Htonl(x: u32): u32 {
    x / 0x100_0000 + x % TWO8 * 0x100_0000 + x / TWO16 % TWO8 * TWO8 + x / TWO8 % TWO8 * TWO16
  }

  function Htonll(x: u64): u64 {
    Htonl(x % TWO32) * TWO32 + Htonl(x / TWO32)
  }

  lemma TwoBytes(x: u16)
    ensures Wire(x, 2) == [(x / TWO8) as u8, (x % TWO8) as u8]
    ensures Memory(x, 2) == [(x % TWO8) as u8, (x / TWO8) as u8]
  {
    assert Wire(x / TWO8, 1) == Wire(x / TWO8 / TWO8, 0) + [(x / TWO8) as u8];
    assert Memory(x / TWO8, 1) == [(x / TWO8) as u8] + Memory(x / TWO8 / TWO8, 0);
  }

  lemma HtonsSwaps(x: u16)
    ensures Memory(Htons(x), 2) == Wire(x, 2)
  {
    hide Memory, Wire;
    TwoBytes(x);
    TwoBytes(Htons(x));
    DivModUnique(Htons(x), TWO8, x % TWO8, x / TWO8);
  }

  function Power(n: nat): (p: nat)
    ensures p > 0
  {
    if n == 0 then 1 else TWO8 * Power(n - 1)
  }

  /** A word made of two halves: the low one comes first in memory, the high one first on the wire. */
  lemma {:induction false} Halves(x: nat, high: nat, low: nat, n: nat, m: nat)
    requires low < Power(n) && x == high * Power(n) + low
    ensures Memory(x, n + m) == Memory(low, n) + Memory(high, m)
    ensures Wire(x, m + n) == Wire(high, m) + Wire(low, n)
    decreases n
  {
    if n == 0 {
      assert x == high && Memory(low, 0) == [] == Wire(low, 0);
    } else {
      DropByte(x, high, low, Power(n - 1));
      Halves(x / TWO8, high, low / TWO8, n - 1, m);
    }
  }

  lemma DropByte(x: nat, high: nat, low: nat, q: nat)
    requires low < TWO8 * q && x == high * (TWO8 * q) + low
    ensures x / TWO8 == high * q + low / TWO8 && x % TWO8 == low % TWO8 && low / TWO8 < q
  {
    assert high * (TWO8 * q) == TWO8 * (high * q);
  }

  lemma HtonlByHalves(high: u16, low: u16)
    ensures Htonl(high * TWO16 + low) == Htons(low) * TWO16 + Htons(high)
  {
    var h1, h0, l1, l0 := high / TWO8, high % TWO8, low / TWO8, low % TWO8;
    HtonlOfBytes(high * TWO16 + low, h1, h0, l1, l0);
  }

  lemma HtonlOfBytes(x: u32, a: int, b: int, c: int, d: int)
    requires 0 <= a < TWO8 && 0 <= b < TWO8 && 0 <= c < TWO8 && 0 <= d < TWO8
    requires x == a * 0x100_0000 + b * TWO16 + c * TWO8 + d
    ensures Htonl(x) == a + d * 0x100_0000 + b * TWO8 + c * TWO16
  {
    DivModUnique(x, 0x100_0000, a, b * TWO16 + c * TWO8 + d);
    DivModUnique(x, TWO16, a * TWO8 + b, c * TWO8 + d);
    DivModUnique(a * TWO8 + b, TWO8, a, b);
    DivModUnique(x, TWO8, a * TWO16 + b * TWO8 + c, d);
    DivModUnique(a * TWO16 + b * TWO8 + c, TWO8, a * TWO8 + b, c);
  }

  lemma HtonlSwaps(x: u32)
    ensures Memory(Htonl(x), 4) == Wire(x, 4)
  {
    hide Memory, Wire, Htonl, Htons;
    var high, low := x / TWO16, x % TWO16;
    HtonlByHalves(high, low);
    TagOnWire(low, high);
    assert Power(2) == TWO16 by {
      assert Power(1) == TWO8;
    }
    Halves(x, high, low, 2, 2);
  }

  lemma HtonllSwaps(x: u64)
    ensures Memory(Htonll(x), 8) == Wire(x, 8)
  {
    var low, high := x % TWO32, x / TWO32;
    assert Power(1) == TWO8 && Power(2) == TWO16 && Power(3) == 0x100_0000 && Power(4) == TWO32;
    HtonlSwaps(low);
    HtonlSwaps(high);
    Halves(Htonll(x), Htonl(low), Htonl(high), 4, 4);
    Halves(x, high, low, 4, 4);
  }

  // ---- Tags ----

  /** VLAN_TAG: the identifier 0x0C00 or'ed with the low four bits of the port. */
  function VlanTag(port: u8): u32 {
    Htons(0x0C00 + port as int % 16) * TWO16 + Htons(ETHERTYPE_VLAN)
  }

  /** DSA_TO_HOST_RX_TS_TAG. */
  function DsaTag(port: u8): u32 {
    Htons(0x1000 + port as int % 16) * TWO16 + Htons(TPID_DSA)
  }

  /** A 32-bit word made of two swapped halves shows them in order on the wire. */
  lemma TagOnWire(custom: u16, tpid: u16)
    ensures Htons(custom) * TWO16 + Htons(tpid) < TWO32
    ensures Memory(Htons(custom) * TWO16 + Htons(tpid), 4) == Wire(tpid, 2) + Wire(custom, 2)
  {
    assert Power(1) == TWO8 && Power(2) == TWO16;
    HtonsSwaps(custom);
    HtonsSwaps(tpid);
    Halves(Htons(custom) * TWO16 + Htons(tpid), Htons(custom), Htons(tpid), 2, 2);
  }

  // ---- The buffer ----

  /** The buffer when the tag has been inserted behind the addresses of the frame at d. */
  function Inserted(b: seq<u8>, d: nat, tag: seq<u8>): seq<u8>
    requires |tag| <= d && d + MACS <= |b|
  {
    b[..d - |tag|] + b[d..d + MACS] + tag + b[d + MACS..]
  }

  /** The buffer when n bytes behind the addresses of the frame at d have been overwritten by the addresses. */
  function Removed(b: seq<u8>, d: nat, n: nat): seq<u8>
    requires d + MACS + n <= |b|
  {
    b[..d + n] + b[d..d + MACS] + b[d + MACS + n..]
  }

  lemma PutPointwise(b: seq<u8>, at: nat, bytes: seq<u8>, r: seq<u8>)
    requires at + |bytes| <= |b| == |r|
    requires forall k :: at <= k < at + |bytes| ==> r[k] == bytes[k - at]
    requires forall k :: 0 <= k < |b| && !(at <= k < at + |bytes|) ==> r[k] == b[k]
    ensures r == Put(b, at, bytes)
  {
  }

  lemma PutNext(b: seq<u8>, at: nat, x: seq<u8>, y: seq<u8>)
    requires at + |x| + |y| <= |b|
    ensures |Put(b, at, x)| == |b| && Put(Put(b, at, x), at + |x|, y) == Put(b, at, x + y)
  {
    var p := Put(b, at, x);
    assert p[..at + |x|] == b[..at] + x;
    assert p[at + |x| + |y|..] == b[at + |x| + |y|..];
    assert b[..at] + (x + y) == b[..at] + x + y;
    assert |x + y| == |x| + |y|;
  }

  lemma PutIsRemove(b: seq<u8>, d: nat, n: nat)
    requires d + MACS + n <= |b|
    ensures Put(b, d + n, b[d..d + MACS]) == Removed(b, d, n)
  {
  }

  /** Copying the addresses down and writing the tag behind them is insertion. */
  lemma PutIsInsert(b: seq<u8>, d: nat, tag: seq<u8>)
    requires |tag| <= d && d + MACS <= |b|
    ensures Put(b, d - |tag|, b[d..d + MACS] + tag) == Inserted(b, d, tag)
  {
  }

  function WithTag(f: seq<u8>, tag: seq<u8>): seq<u8>
    requires MACS <= |f|
  {
    f[..MACS] + tag + f[MACS..]
  }

  function WithoutTag(f: seq<u8>, n: nat): seq<u8>
    requires MACS + n <= |f|
  {
    f[..MACS] + f[MACS + n..]
  }

  /** Seen from the frame, insertion puts the tag behind the addresses, whatever overlaps. */
  lemma InsertedFrame(b: seq<u8>, d: nat, len: nat, tag: seq<u8>)
    requires |tag| <= d && MACS <= len && d + len <= |b|
    ensures |Inserted(b, d, tag)| == |b|
    ensures Inserted(b, d, tag)[d - |tag|..d + len] == WithTag(b[d..d + len], tag)
  {
    assert WithTag(b[d..d + len], tag) == b[d..d + MACS] + tag + b[d + MACS..d + len];
  }

  lemma RemovedFrame(b: seq<u8>, d: nat, len: nat, n: nat)
    requires MACS + n <= len && d + len <= |b|
    ensures |Removed(b, d, n)| == |b|
    ensures Removed(b, d, n)[d + n..d + len] == WithoutTag(b[d..d + len], n)
  {
    var r := Removed(b, d, n);
    assert r[d + n..d + len] == b[d..d + MACS] + b[d + MACS + n..d + len];
    assert b[d..d + len][..MACS] == b[d..d + MACS] && b[d..d + len][MACS + n..] == b[d + MACS + n..d + len];
  }

  /** Removal after insertion restores every byte from the frame on; only the head room it used stays written. */
  lemma RemoveUndoesInsert(b: seq<u8>, d: nat, tag: seq<u8>)
    requires |tag| <= d && d + MACS <= |b|
    ensures var r := Removed(Inserted(b, d, tag), d - |tag|, |tag|);
            |r| == |b| && r[d..] == b[d..] && r[..d - |tag|] == b[..d - |tag|]
  {
    var i := Inserted(b, d, tag);
    assert i[d - |tag|..d - |tag| + MACS] == b[d..d + MACS];
    assert i[d + MACS..] == b[d + MACS..];
  }

  /** Insertion of the bytes that were removed restores the frame. */
  lemma InsertUndoesRemove(f: seq<u8>, n: nat)
    requires MACS + n <= |f|
    ensures WithTag(WithoutTag(f, n), f[MACS..MACS + n]) == f
    ensures forall tag: seq<u8> :: |tag| == n ==> WithoutTag(WithTag(WithoutTag(f, n), tag), n) == WithoutTag(f, n)
  {
  }

  /** The first loop of both insertions: moves the addresses of the frame size bytes towards the head room. */
  method MoveAddressesForward(buf: array<u8>, at: nat, size: nat)
    requires size <= at && at + MACS <= buf.Length
    modifies buf
    ensures buf[..] == Put(old(buf[..]), at - size, old(buf[..])[at..at + MACS])
  {
    hide Put;
    ghost var b := buf[..];
    for i := 0 to MACS
      invariant forall k :: at - size <= k < at - size + i ==> buf[k] == b[k + size]
      invariant forall k :: 0 <= k < buf.Length && !(at - size <= k < at - size + i) ==> buf[k] == b[k]
    {
      buf[at + i - size] := buf[at + i];
    }
    PutPointwise(b, at - size, b[at..at + MACS], buf[..]);
  }

  /** The other loops of both insertions. */
  method PutBytes(buf: array<u8>, at: nat, bytes: seq<u8>)
    requires at + |bytes| <= buf.Length
    modifies buf
    ensures buf[..] == Put(old(buf[..]), at, bytes)
  {
    hide Put;
    for i := 0 to |bytes|
      invariant forall k :: at <= k < at + i ==> buf[k] == bytes[k - at]
      invariant forall k :: 0 <= k < buf.Length && !(at <= k < at + i) ==> buf[k] == old(buf[k])
    {
      buf[at + i] := bytes[i];
    }
    PutPointwise(old(buf[..]), at, bytes, buf[..]);
  }

  /** The loop of removal, from the last byte of the addresses down. */
  method MoveAddressesBackward(buf: array<u8>, at: nat, size: nat)
    requires at + MACS + size <= buf.Length
    modifies buf
    ensures buf[..] == Removed(old(buf[..]), at, size)
  {
    hide Removed, Put;
    ghost var b := buf[..];
    for i := MACS downto 0
      invariant forall k :: at + size + i <= k < at + size + MACS ==> buf[k] == b[k - size]
      invariant forall k :: 0 <= k < buf.Length && !(at + size + i <= k < at + size + MACS) ==> buf[k] == b[k]
    {
      buf[at + size + i] := buf[at + i];
    }
    PutPointwise(b, at + size, b[at..at + MACS], buf[..]);
    PutIsRemove(b, at, size);
  }

  method InsertVlanTag(pkt: Packet, port: u8)
    requires 4 <= pkt.data && pkt.data + MACS <= pkt.buf.Length
    modifies pkt`data, pkt`dataLen, pkt.buf
    ensures pkt.buf[..] == Inserted(old(pkt.buf[..]), old(pkt.data), [0x81, 0x00, 0x0C, port % 16])
    ensures pkt.data == old(pkt.data) - 4 && pkt.dataLen == old(pkt.dataLen) + 4
  {
    hide Inserted, Put, Memory, VlanTag;
    ghost var b, d := pkt.buf[..], pkt.data;
    VlanWire(port);
    MoveAddressesForward(pkt.buf, pkt.data, 4);
    PutBytes(pkt.buf, pkt.data + MACS - 4, Memory(VlanTag(port), 4));
    PutNext(b, d - 4, b[d..d + MACS], Memory(VlanTag(port), 4));
    PutIsInsert(b, d, Memory(VlanTag(port), 4));
    pkt.dataLen := pkt.dataLen + 4;
    pkt.data := pkt.data - 4;
  }

  lemma VlanWire(port: u8)
    ensures Memory(VlanTag(port), 4) == [0x81, 0x00, 0x0C, port % 16]
  {
    TagOnWire(0x0C00 + port as int % 16, ETHERTYPE_VLAN);
    TwoBytes(0x0C00 + port as int % 16);
    TwoBytes(ETHERTYPE_VLAN);
  }

  lemma DsaWire(port: u8)
    ensures Memory(DsaTag(port), 4) == [0xDA, 0xDC, 0x10, port % 16]
  {
    TagOnWire(0x1000 + port as int % 16, TPID_DSA);
    TwoBytes(0x1000 + port as int % 16);
    TwoBytes(TPID_DSA);
  }

  method InsertDsaTagTs(pkt: Packet, port: u8, ns: u64, cycles: u64)
    requires 20 <= pkt.data && pkt.data + MACS <= pkt.buf.Length
    modifies pkt`data, pkt`dataLen, pkt.buf
    ensures pkt.buf[..] == Inserted(old(pkt.buf[..]), old(pkt.data),
                                    [0xDA, 0xDC, 0x10, port % 16] + Wire(ns, 8) + Wire(cycles, 8))
    ensures pkt.data == old(pkt.data) - 20 && pkt.dataLen == old(pkt.dataLen) + 20
  {
    hide Inserted, Put, Memory, Wire, DsaTag;
    ghost var b, d := pkt.buf[..], pkt.data;
    DsaWire(port);
    HtonllSwaps(ns);
    HtonllSwaps(cycles);
    var at := pkt.data + MACS - 20;
    MoveAddressesForward(pkt.buf, pkt.data, 20);
    PutBytes(pkt.buf, at, Memory(DsaTag(port), 4));
    PutBytes(pkt.buf, at + 4, Memory(Htonll(ns), 8));
    PutBytes(pkt.buf, at + 12, Memory(Htonll(cycles), 8));
    ghost var tag := [0xDA, 0xDC, 0x10, port % 16];
    PutNext(b, d - 20, b[d..d + MACS], tag);
    PutNext(b, d - 20, b[d..d + MACS] + tag, Wire(ns, 8));
    PutNext(b, d - 20, b[d..d + MACS] + tag + Wire(ns, 8), Wire(cycles, 8));
    PutIsInsert(b, d, tag + Wire(ns, 8) + Wire(cycles, 8));
    assert b[d..d + MACS] + tag + Wire(ns, 8) + Wire(cycles, 8) == b[d..d + MACS] + (tag + Wire(ns, 8) + Wire(cycles, 8));
    pkt.dataLen := pkt.dataLen + 20;
    pkt.data := pkt.data - 20;
  }

  /** Returns -1, changing nothing, when nothing would be left behind the addresses and the tag. */
  method RemoveTag(pkt: Packet, tagLen: u8) returns (r: int)
    requires pkt.Valid()
    modifies pkt`data, pkt`dataLen, pkt.buf
    ensures r == if old(pkt.dataLen) <= MACS + tagLen as int then -1 else 0
    ensures r == -1 ==>
      pkt.buf[..] == old(pkt.buf[..]) && pkt.data == old(pkt.data) && pkt.dataLen == old(pkt.dataLen)
    ensures r == 0 ==>
      pkt.buf[..] == Removed(old(pkt.buf[..]), old(pkt.data), tagLen as int)
      && pkt.data == old(pkt.data) + tagLen as int && pkt.dataLen == old(pkt.dataLen) - tagLen as int
  {
    var n := tagLen as int;
    if pkt.dataLen <= MACS + n {
      return -1;
    }
    MoveAddressesBackward(pkt.buf, pkt.data, n);
    pkt.dataLen := pkt.dataLen - n;
    pkt.data := pkt.data + n;
    r := 0;
  }

  /**
   A VLAN tag put in and taken out again: the frame is as it was. If it has nothing behind the addresses, removal
   refuses and the tag stays.
   */
  method VlanInAndOut(pkt: Packet, port: u8) returns (r: int)
    requires pkt.Valid() && 4 <= pkt.data && pkt.data + MACS <= pkt.buf.Length
    modifies pkt`data, pkt`dataLen, pkt.buf
    ensures pkt.Valid() && r == if old(pkt.dataLen) > MACS then 0 else -1
    ensures r == 0 ==> pkt.data == old(pkt.data) && pkt.dataLen == old(pkt.dataLen) && pkt.Frame() == old(pkt.Frame())
    ensures r == 0 ==> pkt.buf[pkt.data..] == old(pkt.buf[pkt.data..])
    ensures r == -1 ==> pkt.data == old(pkt.data) - 4 && pkt.dataLen == old(pkt.dataLen) + 4
  {
    hide Inserted, Removed;
    ghost var b, d := pkt.buf[..], pkt.data;
    InsertVlanTag(pkt, port);
    r := RemoveTag(pkt, 4);
    RestoredFrame(b, d, d + old(pkt.dataLen), [0x81, 0x00, 0x0C, port % 16]);
  }

  /** The same for the DSA tag with its timestamps. */
  method DsaInAndOut(pkt: Packet, port: u8, ns: u64, cycles: u64) returns (r: int)
    requires pkt.Valid() && 20 <= pkt.data && pkt.data + MACS <= pkt.buf.Length
    modifies pkt`data, pkt`dataLen, pkt.buf
    ensures pkt.Valid() && r == if old(pkt.dataLen) > MACS then 0 else -1
    ensures r == 0 ==> pkt.data == old(pkt.data) && pkt.dataLen == old(pkt.dataLen) && pkt.Frame() == old(pkt.Frame())
    ensures r == 0 ==> pkt.buf[pkt.data..] == old(pkt.buf[pkt.data..])
    ensures r == -1 ==> pkt.data == old(pkt.data) - 20 && pkt.dataLen == old(pkt.dataLen) + 20
  {
    hide Inserted, Removed, Wire;
    ghost var b, d := pkt.buf[..], pkt.data;
    InsertDsaTagTs(pkt, port, ns, cycles);
    r := RemoveTag(pkt, 20);
    RestoredFrame(b, d, d + old(pkt.dataLen), [0xDA, 0xDC, 0x10, port % 16] + Wire(ns, 8) + Wire(cycles, 8));
  }

  lemma RestoredFrame(b: seq<u8>, d: nat, end: nat, tag: seq<u8>)
    requires |tag| <= d && d + MACS <= |b| && d <= end <= |b|
    ensures |Inserted(b, d, tag)| == |b|
    ensures var r := Removed(Inserted(b, d, tag), d - |tag|, |tag|);
            |r| == |b| && r[d..] == b[d..] && r[d..end] == b[d..end]
  {
    RemoveUndoesInsert(b, d, tag);
    hide Removed, Inserted;
    var r := Removed(Inserted(b, d, tag), d - |tag|, |tag|);
    assert r[d..][..end - d] == r[d..end] && b[d..][..end - d] == b[d..end];
  }

  // ---- Decoding in genavb_host_to_sw_stack ----

  /** ntohs of the two bytes at position at. */
  function Field(h: seq<u8>, at: nat): u16
    requires at + 2 <= |h|
  {
    Htons(h[at] as int + h[at + 1] as int * TWO8)
  }

  lemma FieldIsBigEndian(h: seq<u8>, at: nat)
    requires at + 2 <= |h|
    ensures Field(h, at) == h[at] as int * TWO8 + h[at + 1] as int
  {
    DivModUnique(h[at] as int + h[at + 1] as int * TWO8, TWO8, h[at + 1] as int, h[at] as int);
  }

  predicate Bit(x: u16, mask: nat)
    requires mask > 0
  {
    x / mask % 2 == 1
  }

  /** What a header asks for; the switch may be set up to look for neither kind of tag. */
  datatype Verdict = Untagged | MetaFrame | Tagged(port: nat, tagLen: u8, takeTs: bool)

  function Decode(h: seq<u8>, removeVlan: bool, removeDsa: bool): Verdict
    requires MACS + 4 <= |h|
  {
    var etherType, custom := Field(h, MACS), Field(h, MACS + 2);
    if etherType == ETHERTYPE_VLAN && removeVlan then Tagged(custom % 16, 4, false)
    else if etherType == TPID_DSA && removeDsa then
      if Bit(custom, 0x4000) then MetaFrame
      else if Bit(custom, 0x800) then Tagged(custom % 16, 8, true)
      else Tagged(custom % 16, 4, false)
    else Untagged
  }

  datatype Route = BadFormat | Meta | ToPort(index: nat, takeTs: bool) | ToEndpoint | Nowhere

  /** The first port with the hardware id, or -1. */
  method FindSwitchPortIdx(ids: seq<u16>, id: nat) returns (r: int)
    ensures r == -1 ==> id !in ids
    ensures r != -1 ==> 0 <= r < |ids| && ids[r] == id && id !in ids[..r]
  {
    for i := 0 to |ids|
      invariant id !in ids[..i]
    {
      if ids[i] == id {
        return i;
      }
    }
    return -1;
  }

  /** Removes the tag the header announces and finds where the frame goes. */
  method HostToSwitch(pkt: Packet, removeVlan: bool, removeDsa: bool, ids: seq<u16>, endpoints: nat)
    returns (route: Route)
    requires pkt.Valid() && pkt.data + MACS + 4 <= pkt.buf.Length
    modifies pkt`data, pkt`dataLen, pkt.buf
    ensures pkt.Valid()
    ensures match Decode(old(pkt.buf[pkt.data..]), removeVlan, removeDsa)
      case Untagged => pkt.Frame() == old(pkt.Frame()) && route == if endpoints > 0 then ToEndpoint else Nowhere
      case MetaFrame => pkt.Frame() == old(pkt.Frame()) && route == Meta
      case Tagged(port, n, takeTs) =>
        if old(pkt.dataLen) <= MACS + n as int then pkt.Frame() == old(pkt.Frame()) && route == BadFormat
        else (pkt.Frame() == WithoutTag(old(pkt.Frame()), n as int)
              && if port !in ids then route == BadFormat
                 else (route.ToPort? && route.takeTs == takeTs && route.index < |ids|
                       && ids[route.index] == port && port !in ids[..route.index]))
  {
    hide Removed, WithoutTag, Htons;
    ghost var b, d, len := pkt.buf[..], pkt.data, pkt.dataLen;
    var etherType, custom := Field(pkt.buf[pkt.data..], MACS), Field(pkt.buf[pkt.data..], MACS + 2);
    var dstPort, toSwPort, takeTs, tagLen: u8 := 0xFF, false, false, 0;
    if etherType == ETHERTYPE_VLAN && removeVlan {
      dstPort, tagLen := custom % 16, 4;
      toSwPort := true;
    }
    if etherType == TPID_DSA && removeDsa {
      if Bit(custom, 0x4000) {
        return Meta;
      }
      dstPort, takeTs := custom % 16, Bit(custom, 0x800);
      tagLen := if takeTs then 8 else 4;
      toSwPort := true;
    }
    if !toSwPort {
      return if endpoints > 0 then ToEndpoint else Nowhere;
    }
    var rc := RemoveTag(pkt, tagLen);
    if rc != 0 {
      assert pkt.Frame() == old(pkt.Frame());
      return BadFormat;
    }
    RemovedFrame(b, d, len, tagLen as int);
    var index := FindSwitchPortIdx(ids, dstPort);
    route := if index < 0 then BadFormat else ToPort(index, takeTs);
  }

  /**
   A frame f that the host sends with a DSA tag, whose custom field is c, and with the four bytes of a timestamp id if
   bit 11 of c asks for one: it comes out byte for byte as f, for the port in the low four bits.
   */
  method DsaFrame(pkt: Packet, removeVlan: bool, ids: seq<u16>, endpoints: nat,
                  ghost f: seq<u8>, ghost c: u16, ghost id: seq<u8>)
    returns (route: Route)
    requires pkt.Valid() && MACS < |f|
    requires c / 0x4000 % 2 == 0 && |id| == if c / 0x800 % 2 == 1 then 4 else 0
    requires pkt.buf[pkt.data..pkt.data + pkt.dataLen] == f[..12] + ([0xDA, 0xDC] + Wire(c, 2) + id) + f[12..]
    modifies pkt`data, pkt`dataLen, pkt.buf
    ensures pkt.Valid() && pkt.buf[pkt.data..pkt.data + pkt.dataLen] == f
    ensures c % 16 !in ids ==> route == BadFormat
    ensures c % 16 in ids ==>
      && route.ToPort? && route.takeTs == (c / 0x800 % 2 == 1)
      && route.index < |ids| && ids[route.index] == c % 16 && c % 16 !in ids[..route.index]
  {
    hide Decode, Wire, WithoutTag, WithTag;
    ghost var tag := [0xDA, 0xDC] + Wire(c, 2) + id;
    ghost var h := pkt.buf[pkt.data..];
    DsaTagDecodes(f, c, id, h, pkt.dataLen, removeVlan);
    route := HostToSwitch(pkt, removeVlan, true, ids, endpoints);
  }

  /** A meta frame is left alone. */
  method DsaMeta(pkt: Packet, removeVlan: bool, ids: seq<u16>, endpoints: nat, ghost f: seq<u8>, ghost c: u16)
    returns (route: Route)
    requires pkt.Valid() && MACS <= |f| && c / 0x4000 % 2 == 1
    requires pkt.buf[pkt.data..pkt.data + pkt.dataLen] == f[..12] + ([0xDA, 0xDC] + Wire(c, 2)) + f[12..]
    modifies pkt`data, pkt`dataLen, pkt.buf
    ensures route == Meta && pkt.Valid()
    ensures pkt.buf[pkt.data..pkt.data + pkt.dataLen] == old(pkt.buf[pkt.data..pkt.data + pkt.dataLen])
  {
    hide Decode, Wire;
    assert [0xDA, 0xDC] + Wire(c, 2) + [] == [0xDA, 0xDC] + Wire(c, 2);
    DsaHeader(f, c, [], pkt.buf[pkt.data..], pkt.dataLen);
    DecodeBytes(pkt.buf[pkt.data..], removeVlan, true);
    route := HostToSwitch(pkt, removeVlan, true, ids, endpoints);
  }

  /** The verdict on the four bytes behind the addresses. */
  lemma DecodeBytes(h: seq<u8>, removeVlan: bool, removeDsa: bool)
    requires 16 <= |h|
    ensures var c := h[14] as int * 256 + h[15] as int;
            var v := Decode(h, removeVlan, removeDsa);
            if h[12..14] == [0x81, 0x00] && removeVlan then v == Tagged(c % 16, 4, false)
            else if h[12..14] == [0xDA, 0xDC] && removeDsa then
              if c / 0x4000 % 2 == 1 then v == MetaFrame
              else v == if c / 0x800 % 2 == 1 then Tagged(c % 16, 8, true) else Tagged(c % 16, 4, false)
            else v == Untagged
  {
    FieldIsBigEndian(h, MACS);
    FieldIsBigEndian(h, MACS + 2);
    hide Field;
    assert h[12..14] == [h[12], h[13]];
    DivModUnique(Field(h, MACS), TWO8, h[12] as int, h[13] as int);
  }

  /** The header of a frame with a DSA tag. */
  lemma DsaHeader(f: seq<u8>, c: u16, id: seq<u8>, h: seq<u8>, len: nat)
    requires MACS <= |f| && len <= |h| && h[..len] == f[..12] + ([0xDA, 0xDC] + Wire(c, 2) + id) + f[12..]
    ensures 16 <= len && h[12..14] == [0xDA, 0xDC] && h[14] as int * 256 + h[15] as int == c
  {
    TwoBytes(c);
    hide Wire;
    assert h[12] == h[..len][12] && h[13] == h[..len][13] && h[14] == h[..len][14] && h[15] == h[..len][15];
  }

  lemma DsaTagDecodes(f: seq<u8>, c: u16, id: seq<u8>, h: seq<u8>, len: nat, removeVlan: bool)
    requires MACS < |f| && len <= |h| && c / 0x4000 % 2 == 0 && |id| == (if c / 0x800 % 2 == 1 then 4 else 0)
    requires h[..len] == f[..12] + ([0xDA, 0xDC] + Wire(c, 2) + id) + f[12..]
    ensures 16 <= len
    ensures var v := Decode(h, removeVlan, true);
            && v.Tagged? && v.port == c % 16 && v.takeTs == (c / 0x800 % 2 == 1)
            && v.tagLen as int == 4 + |id| && MACS + v.tagLen as int < len
            && WithoutTag(h[..len], v.tagLen as int) == f
  {
    DsaHeader(f, c, id, h, len);
    DecodeBytes(h, removeVlan, true);
    hide Decode, Wire;
    assert f == f[..12] + f[12..];
  }

  /** What the host reads back from a big-endian field, such as the two timestamps of the DSA tag. */
  lemma {:induction false} UnwireInverts(x: nat, n: nat)
    requires x < Power(n)
    ensures Unwire(Wire(x, n)) == x
  {
    if n > 0 {
      UnwireInverts(x / TWO8, n - 1);
    }
  }

  /** The inserted VLAN tag is recognised, and names the port it was inserted for exactly when that is below 16. */
  lemma VlanTagDecodes(f: seq<u8>, port: u8, removeDsa: bool)
    requires MACS < |f|
    ensures var verdict := Decode(WithTag(f, [0x81, 0x00, 0x0C, port % 16]), true, removeDsa);
            verdict.Tagged? && verdict.tagLen == 4
            && WithoutTag(WithTag(f, [0x81, 0x00, 0x0C, port % 16]), 4) == f
            && (verdict.port == port as int <==> port < 16)
  {
    var h := WithTag(f, [0x81, 0x00, 0x0C, port % 16]);
    FieldIsBigEndian(h, MACS);
    FieldIsBigEndian(h, MACS + 2);
  }

  /** The first port for which it goes wrong: the tag made for port 16 is the tag of port 0. */
  lemma VlanPortTooLarge(f: seq<u8>)
    requires MACS < |f|
    ensures Memory(VlanTag(16), 4) == Memory(VlanTag(0), 4)
    ensures Decode(WithTag(f, Memory(VlanTag(16), 4)), true, true) == Tagged(0, 4, false)
  {
    VlanWire(16);
    VlanWire(0);
    VlanTagDecodes(f, 0, true);
    var h := WithTag(f, Memory(VlanTag(16), 4));
    FieldIsBigEndian(h, MACS);
  }
}
