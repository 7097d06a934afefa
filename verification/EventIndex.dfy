/** Notification suppression with event indices: vring_need_event on free-running 16-bit indices. */
module EventIndex {
  import opened Words

  /** The test both sides run after moving an index from oldIdx to newIdx. */
  function NeedEvent(event: u16, newIdx: u16, oldIdx: u16): bool {
    Wrap16(newIdx - event - 1) < Wrap16(newIdx - oldIdx)
  }

  /** Some entry of the unbounded interval [lo, hi) carries this 16-bit index. */
  ghost predicate Names(event: u16, lo: nat, hi: nat) {
    exists k: nat :: lo <= k < hi && Wrap16(k) == event
  }

  /** The two sides of the test, on the unbounded counters behind the indices. */
  lemma NeedEventUnwrapped(event: u16, lo: nat, hi: nat)
    requires lo <= hi
    ensures NeedEvent(event, Wrap16(hi), Wrap16(lo)) <==> Wrap16(hi - 1 - event) < Wrap16(hi - lo)
  {
    WrapOfWrap(hi, event + 1);
    WrapOfWrap(lo, Wrap16(hi));
    WrapOfWrap(hi, lo);
  }

  /** The last index at or below hi - 1 that wraps to event lies Wrap16(hi - 1 - event) behind it. */
  lemma LastWithIndex(event: u16, hi: nat, k: int)
    requires k < hi
    ensures Wrap16(k) == event && hi - k <= TWO16 <==> k == hi - 1 - Wrap16(hi - 1 - event)
  {
    var d := Wrap16(hi - 1 - event);
    WrapOfWrap(hi - 1 - event, hi - 1);
    assert Wrap16(hi - 1 - d) == event;
    if Wrap16(k) == event && hi - k <= TWO16 {
      var a, b := Min(k, hi - 1 - d), Max(k, hi - 1 - d);
      ModInjective(a, b, TWO16);
    }
  }

  /** Below one full wrap the 16-bit test is exactly membership in the unbounded interval. */
  lemma NeedEventIsMembership(event: u16, lo: nat, hi: nat)
    requires lo <= hi < lo + TWO16
    ensures NeedEvent(event, Wrap16(hi), Wrap16(lo)) <==> Names(event, lo, hi)
  {
    NeedEventUnwrapped(event, lo, hi);
    var k := hi - 1 - Wrap16(hi - 1 - event);
    if lo <= k {
      LastWithIndex(event, hi, k);
      assert Names(event, lo, hi);
    }
    if Names(event, lo, hi) {
      var j: nat :| lo <= j < hi && Wrap16(j) == event;
      LastWithIndex(event, hi, j);
    }
  }

  /** After w = hi - lo entries the test is right for every event value if and only if w < 65536. */
  lemma NeedEventExactIff(lo: nat, hi: nat)
    requires lo <= hi
    ensures (forall event: u16 :: NeedEvent(event, Wrap16(hi), Wrap16(lo)) <==> Names(event, lo, hi))
       <==> hi - lo < TWO16
  {
    if hi - lo < TWO16 {
      forall event: u16
        ensures NeedEvent(event, Wrap16(hi), Wrap16(lo)) <==> Names(event, lo, hi)
      {
        NeedEventIsMembership(event, lo, hi);
      }
    } else {
      var r := Wrap16(hi - lo);
      var k := hi - 1 - r;
      var event := Wrap16(k);
      assert Names(event, lo, hi);
      LastWithIndex(event, hi, k);
      NeedEventUnwrapped(event, lo, hi);
    }
  }
}
