/** A circular buffer of num slots addressed by a free-running 16-bit index. */
module RingWindow {
  import opened Words

  /** The ring sizes for which a 16-bit index keeps addressing the same slots across its wrap. */
  ghost predicate RingSize(num: int) {
    0 < num < TWO16 && TWO16 % num == 0
  }

  /** ring[idx % num]. */
  function Slot(idx: u16, num: int): (s: int)
    requires 0 < num
    ensures 0 <= s < num
  {
    idx % num
  }

  /** The n entries that start at index from. */
  function Window<T>(ring: seq<T>, from: u16, n: nat): (w: seq<T>)
    requires 0 < |ring|
    ensures |w| == n
  {
    seq(n, i requires 0 <= i < n => Entry(ring, from + i))
  }

  function Entry<T>(ring: seq<T>, idx: int): T
    requires 0 < |ring|
  {
    ring[Slot(Wrap16(idx), |ring|)]
  }

  /** Wrapping the index at 65536 does not change the slot it addresses. */
  lemma SlotOfWrap(k: int, num: int)
    requires RingSize(num)
    ensures Slot(Wrap16(k), num) == k % num
  {
    var m := TWO16 / num;
    assert TWO16 == m * num;
    var q := k / TWO16;
    assert k == Wrap16(k) + q * TWO16;
    assert q * TWO16 == (q * m) * num;
    ModShift(Wrap16(k), q * m, num);
  }

  /** Two indices less than num apart address different slots. */
  lemma SlotsApart(i: int, j: int, num: int)
    requires RingSize(num)
    requires i < j < i + num
    ensures Slot(Wrap16(i), num) != Slot(Wrap16(j), num)
  {
    SlotOfWrap(i, num);
    SlotOfWrap(j, num);
    if i % num == j % num {
      ModInjective(i, j, num);
    }
  }

  /** Consuming the first entry of a window leaves the rest. */
  lemma WindowTail<T>(ring: seq<T>, from: u16, n: nat)
    requires 0 < |ring| && 0 < n
    ensures Window(ring, from, n) == [ring[Slot(from, |ring|)]] + Window(ring, Wrap16(from + 1), n - 1)
  {
    hide Slot;
    var w, v := Window(ring, from, n), Window(ring, Wrap16(from + 1), n - 1);
    assert w[0] == ring[Slot(from, |ring|)] by {
      assert Wrap16(from) == from;
      assert w[0] == Entry(ring, from + 0);
    }
    forall i | 0 <= i < n - 1
      ensures w[i + 1] == v[i]
    {
      hide Window;
      EntryAfterWrap(ring, from + 1, i);
      EntryOf(ring, from, n, i + 1);
      EntryOf(ring, Wrap16(from + 1), n - 1, i);
    }
    assert w == [w[0]] + v;
  }

  lemma EntryAfterWrap<T>(ring: seq<T>, idx: int, i: int)
    requires 0 < |ring|
    ensures Entry(ring, Wrap16(idx) + i) == Entry(ring, idx + i)
  {
    hide Wrap16;
    WrapOfWrap(idx, i);
  }

  lemma EntryOf<T>(ring: seq<T>, from: u16, n: nat, i: nat)
    requires 0 < |ring| && i < n
    ensures Window(ring, from, n)[i] == Entry(ring, from + i)
  {
  }

  /** Writing just behind a window that is not full appends to it and overwrites none of it. */
  lemma WindowAppend<T>(ring: seq<T>, from: u16, n: nat, x: T)
    requires RingSize(|ring|) && n < |ring|
    ensures var ring' := ring[Slot(Wrap16(from + n), |ring|) := x];
            Window(ring', from, n + 1) == Window(ring, from, n) + [x]
  {
    var slot := Slot(Wrap16(from + n), |ring|);
    var ring' := ring[slot := x];
    var w, w' := Window(ring, from, n), Window(ring', from, n + 1);
    forall i | 0 <= i < n
      ensures w'[i] == w[i]
    {
      SlotsApart(from + i, from + n, |ring|);
      assert w'[i] == Entry(ring', from + i) == Entry(ring, from + i);
    }
    assert w'[n] == Entry(ring', from + n) == x;
    assert w' == w'[..n] + [w'[n]];
  }

  // ---- One producer and one consumer over a ring ----

  /**
   The producer has published the log `sent` and written `staged` behind it; the consumer has read the log
   `got`. The ring then holds exactly what is between them, and the two 16-bit indices are the log lengths.
   */
  ghost predicate Channel<T>(ring: seq<T>, prod: u16, cons: u16, sent: seq<T>, got: seq<T>, staged: seq<T>) {
    && RingSize(|ring|)
    && got <= sent
    && prod == Wrap16(|sent|) && cons == Wrap16(|got|)
    && |sent| - |got| + |staged| <= |ring|
    && Window(ring, cons, |sent| - |got| + |staged|) == sent[|got|..] + staged
  }

  lemma ChannelStage<T>(ring: seq<T>, prod: u16, cons: u16, sent: seq<T>, got: seq<T>, staged: seq<T>, x: T)
    requires Channel(ring, prod, cons, sent, got, staged)
    requires |sent| - |got| + |staged| < |ring|
    ensures var slot := Slot(Wrap16(prod + |staged|), |ring|);
            Channel(ring[slot := x], prod, cons, sent, got, staged + [x])
  {
    var n := |sent| - |got| + |staged|;
    WrapOfWrap(|sent|, |staged|);
    WrapOfWrap(|got|, n);
    assert Wrap16(prod + |staged|) == Wrap16(cons + n);
    WindowAppend(ring, cons, n, x);
    assert sent[|got|..] + (staged + [x]) == (sent[|got|..] + staged) + [x];
  }

  lemma ChannelPublish<T>(ring: seq<T>, prod: u16, cons: u16, sent: seq<T>, got: seq<T>, staged: seq<T>)
    requires Channel(ring, prod, cons, sent, got, staged)
    ensures Channel(ring, Wrap16(prod + |staged|), cons, sent + staged, got, [])
  {
    WrapOfWrap(|sent|, |staged|);
    assert (sent + staged)[|got|..] + [] == sent[|got|..] + staged;
  }

  lemma ChannelTake<T>(ring: seq<T>, prod: u16, cons: u16, sent: seq<T>, got: seq<T>, staged: seq<T>)
    requires Channel(ring, prod, cons, sent, got, staged)
    requires |got| < |sent|
    ensures var x := ring[Slot(cons, |ring|)];
            x == sent[|got|] && Channel(ring, prod, Wrap16(cons + 1), sent, got + [x], staged)
  {
    var n := |sent| - |got| + |staged|;
    var x := ring[Slot(cons, |ring|)];
    var all := sent[|got|..] + staged;
    WindowTail(ring, cons, n);
    assert x == all[0];
    WrapOfWrap(|got|, 1);
    assert all[1..] == sent[|got + [x]|..] + staged;
    assert Window(ring, Wrap16(cons + 1), n - 1) == Window(ring, cons, n)[1..];
  }

  /** Comparing the two 16-bit indices decides exactly whether anything is outstanding. */
  lemma ChannelEmpty<T>(ring: seq<T>, prod: u16, cons: u16, sent: seq<T>, got: seq<T>, staged: seq<T>)
    requires Channel(ring, prod, cons, sent, got, staged)
    ensures prod == cons <==> got == sent
  {
    if prod == cons {
      ModInjective(|got|, |sent|, TWO16);
    }
  }
}
