/** Placement of the legacy split ring in one block of memory: vring_init and vring_size. */
module RingLayout {
  import opened Words

  const DESC_SIZE: int := 16
  const U16_SIZE: int := 2
  const USED_ELEM_SIZE: int := 8

  // ---- The alignment mask ----

  /** Bitwise and of non-negative numbers. */
  function And(x: nat, y: nat): nat
    decreases x
  {
    if x == 0 then 0 else 2 * And(x / 2, y / 2) + (x % 2) * (y % 2)
  }

  /** Bitwise complement of a word of the given number of bits. */
  function Not(bits: nat, x: nat): nat
    requires x < Pow2(bits)
  {
    Pow2(bits) - 1 - x
  }

  /** and-ing with all ones of at least as many bits changes nothing. */
  lemma {:induction false} AndOnes(bits: nat, x: nat)
    requires x < Pow2(bits)
    ensures And(x, Pow2(bits) - 1) == x
  {
    if bits > 0 && x > 0 {
      hide And, Pow2;
      var p := Pow2(bits - 1);
      assert Pow2(bits) == 2 * p by { PowNext(bits); }
      var h := x / 2;
      assert h < p && x == 2 * h + x % 2;
      AndOnes(bits - 1, h);
      AndOdd(x, p - 1);
      assert Pow2(bits) - 1 == 2 * (p - 1) + 1;
    } else {
      AndZero(x, Pow2(bits) - 1);
    }
  }

  lemma PowNext(k: nat)
    requires k > 0
    ensures Pow2(k) == 2 * Pow2(k - 1)
  {
  }

  lemma AndOdd(x: nat, z: nat)
    ensures And(x, 2 * z + 1) == 2 * And(x / 2, z) + x % 2
  {
    if x > 0 {
      assert (2 * z + 1) / 2 == z && (2 * z + 1) % 2 == 1;
    }
  }

  lemma AndZero(x: nat, y: nat)
    ensures x == 0 ==> And(x, y) == 0
  {
  }

  /** Clearing the low k bits is rounding down to a multiple of 2^k. */
  lemma {:induction false} MaskIsRounding(bits: nat, k: nat, x: nat)
    requires k <= bits && x < Pow2(bits)
    ensures Pow2(k) <= Pow2(bits)
    ensures And(x, Not(bits, Pow2(k) - 1)) == x - x % Pow2(k)
    decreases k
  {
    hide And, Not, Pow2;
    Pow2Grows(k, bits);
    if k == 0 {
      NothingMasked(bits, x);
    } else {
      PowNext(bits);
      var a := Pow2(k - 1);
      MaskIsRounding(bits - 1, k - 1, x / 2);
      MaskStep(x, Not(bits - 1, a - 1), a);
      NotDoubles(bits, k);
    }
  }

  lemma NothingMasked(bits: nat, x: nat)
    requires x < Pow2(bits)
    ensures Pow2(0) == 1 && And(x, Not(bits, Pow2(0) - 1)) == x && x % 1 == 0
  {
    hide And;
    AndOnes(bits, x);
  }

  lemma NotDoubles(bits: nat, k: nat)
    requires 0 < k <= bits && Pow2(k - 1) <= Pow2(bits - 1)
    ensures Pow2(k) == 2 * Pow2(k - 1) && Pow2(bits) == 2 * Pow2(bits - 1)
    ensures Not(bits, Pow2(k) - 1) == 2 * Not(bits - 1, Pow2(k - 1) - 1)
  {
  }

  lemma MaskStep(x: nat, z: nat, a: nat)
    requires 0 < a && And(x / 2, z) == x / 2 - x / 2 % a
    ensures And(x, 2 * z) == x - x % (2 * a)
  {
    AndEven(x, z);
    HalveRemainder(x, a);
  }

  lemma AndEven(x: nat, z: nat)
    ensures And(x, 2 * z) == 2 * And(x / 2, z)
  {
    assert 2 * z % 2 == 0 && 2 * z / 2 == z;
  }

  lemma HalveRemainder(x: int, a: int)
    requires 0 < a
    ensures x % (2 * a) == 2 * (x / 2 % a) + x % 2
  {
    DivModUnique(x, 2 * a, x / 2 / a, 2 * (x / 2 % a) + x % 2);
  }

  /** (x + align - 1) & ~(align - 1) on words of the given width. */
  function AlignUp(bits: nat, x: nat, k: nat): nat
    requires Pow2(k) <= Pow2(bits)
  {
    And(x + Pow2(k) - 1, Not(bits, Pow2(k) - 1))
  }

  /** The mask expression is the least multiple of the alignment not below its argument. */
  lemma AlignUpIsLeast(bits: nat, x: nat, k: nat)
    requires k <= bits && x + Pow2(k) - 1 < Pow2(bits)
    ensures Pow2(k) <= Pow2(bits)
    ensures AlignUp(bits, x, k) % Pow2(k) == 0 && x <= AlignUp(bits, x, k)
    ensures forall y :: y % Pow2(k) == 0 && x <= y ==> AlignUp(bits, x, k) <= y
  {
    hide And, Not, Pow2;
    Pow2Grows(k, bits);
    var a, s := Pow2(k), x + Pow2(k) - 1;
    MaskIsRounding(bits, k, s);
    RoundDown(s, a);
    var r := AlignUp(bits, x, k);
    forall y | y % a == 0 && x <= y
      ensures r <= y
    {
      if y < r {
        MultiplesApart(y, r, a);
      }
    }
  }

  // ---- The ring ----

  /** Addresses of the parts; avail and used point at their flags, idx and ring[] following. */
  datatype Vring = Vring(num: nat, desc: nat, avail: nat, used: nat) {
    function AvailRing(i: nat): nat { avail + 2 * U16_SIZE + i * U16_SIZE }
    function UsedRing(i: nat): nat { used + 2 * U16_SIZE + i * USED_ELEM_SIZE }
    /** vring_used_event: the avail ring entry behind the last one. */
    function UsedEvent(): nat { AvailRing(num) }
    /** vring_avail_event: the used ring entry behind the last one, of which two bytes are used. */
    function AvailEvent(): nat { UsedRing(num) }
  }

  predicate FitsWord(bits: nat, num: nat, p: nat, k: nat) {
    k <= bits && p + DESC_SIZE * num + U16_SIZE * (3 + num) + Pow2(k) - 1 < Pow2(bits)
  }

  function Init(bits: nat, num: nat, p: nat, k: nat): Vring
    requires FitsWord(bits, num, p, k)
  {
    Pow2Grows(k, bits);
    var avail := p + num * DESC_SIZE;
    Vring(num, p, avail, AlignUp(bits, avail + 2 * U16_SIZE + num * U16_SIZE + U16_SIZE, k))
  }

  function Size(bits: nat, num: nat, k: nat): nat
    requires FitsWord(bits, num, 0, k)
  {
    Pow2Grows(k, bits);
    AlignUp(bits, DESC_SIZE * num + U16_SIZE * (3 + num), k) + U16_SIZE * 3 + USED_ELEM_SIZE * num
  }

  /** Adding a multiple of the alignment moves the result by as much. */
  lemma AlignUpShift(bits: nat, x: nat, p: nat, k: nat)
    requires k <= bits && p + x + Pow2(k) - 1 < Pow2(bits) && p % Pow2(k) == 0
    ensures Pow2(k) <= Pow2(bits)
    ensures AlignUp(bits, p + x, k) == p + AlignUp(bits, x, k)
  {
    var a := Pow2(k);
    AlignUpIsLeast(bits, x, k);
    AlignUpIsLeast(bits, p + x, k);
    var lo, hi := AlignUp(bits, x, k), AlignUp(bits, p + x, k);
    MultiplesAdd(lo, p, a);
    MultiplesAdd(hi, p, a);
    assert hi <= lo + p && lo <= hi - p;
  }

  lemma MultiplesAdd(x: int, p: int, a: int)
    requires 0 < a && x % a == 0 && p % a == 0
    ensures (x + p) % a == 0 && (x - p) % a == 0
  {
    var m := p / a;
    assert p == m * a;
    ModShift(x, m, a);
    ModShift(x - p, m, a);
  }

  /**
   VIRTIO 1.1 section 2.6.2: from an aligned base the descriptor table, the available ring with used_event
   and the used ring with avail_event follow each other without overlap, the used ring is aligned, and the
   last byte is the last of exactly Size(bits, num, k) bytes.
   */
  lemma LayoutDisjointAndTight(bits: nat, num: nat, p: nat, k: nat)
    requires FitsWord(bits, num, p, k) && p % Pow2(k) == 0
    ensures var v := Init(bits, num, p, k);
            && v.desc == p && v.desc + DESC_SIZE * num <= v.avail
            && (forall i :: 0 <= i < num ==> v.avail + 2 * U16_SIZE <= v.AvailRing(i) <= v.UsedEvent() - U16_SIZE)
            && v.UsedEvent() + U16_SIZE <= v.used
            && v.used % Pow2(k) == 0 && v.used < v.UsedEvent() + U16_SIZE + Pow2(k)
            && (forall i :: 0 <= i < num ==>
                  v.used + 2 * U16_SIZE <= v.UsedRing(i) <= v.AvailEvent() - USED_ELEM_SIZE)
            && v.AvailEvent() + U16_SIZE == p + Size(bits, num, k)
  {
    hide AlignUp, Pow2;
    var x := DESC_SIZE * num + U16_SIZE * (3 + num);
    AlignUpShift(bits, x, p, k);
    AlignUpIsLeast(bits, p + x, k);
    AlignUpClose(bits, p + x, k);
    var v := Init(bits, num, p, k);
    assert v.UsedEvent() + U16_SIZE == p + x;
  }

  /** The same in bytes: entries of 16, 2 and 8 of them, and flags and index of 2 each before the two rings. */
  lemma LayoutInBytes(bits: nat, num: nat, p: nat, k: nat, i: nat)
    requires FitsWord(bits, num, p, k) && i <= num
    ensures var v := Init(bits, num, p, k);
            && v.desc == p && v.avail == p + 16 * num
            && v.AvailRing(i) == p + 16 * num + 4 + 2 * i && v.UsedEvent() == p + 16 * num + 4 + 2 * num
            && v.used % Pow2(k) == 0 && p + 18 * num + 6 <= v.used
            && (forall u :: u % Pow2(k) == 0 && p + 18 * num + 6 <= u ==> v.used <= u)
            && v.UsedRing(i) == v.used + 4 + 8 * i && v.AvailEvent() == v.used + 4 + 8 * num
  {
    hide AlignUp, Pow2;
    AlignUpIsLeast(bits, p + 18 * num + 6, k);
  }

  lemma AlignUpClose(bits: nat, x: nat, k: nat)
    requires k <= bits && x + Pow2(k) - 1 < Pow2(bits)
    ensures Pow2(k) <= Pow2(bits) && AlignUp(bits, x, k) < x + Pow2(k)
  {
    hide AlignUp;
    AlignUpIsLeast(bits, x, k);
    var r := AlignUp(bits, x, k);
    if r >= x + Pow2(k) {
      MultiplesAdd(r, Pow2(k), Pow2(k));
    }
  }
}
