/** Scatter/gather copies between a linear buffer and a vector of memory segments. */
module Iovec {
  import opened Words

  /** A segment of memory; len fits 32 bits because descriptors hold it so. */
  datatype Seg = Seg(addr: nat, len: u32)

  // The functions below look at the vector from its i-th segment on, and at the data from its k-th byte on.

  function Total(iov: seq<Seg>, i: nat): nat
    decreases |iov| - i
  {
    if i >= |iov| then 0 else iov[i].len + Total(iov, i + 1)
  }

  ghost predicate InMemory(iov: seq<Seg>, size: nat) {
    forall i :: 0 <= i < |iov| ==> iov[i].addr + iov[i].len <= size
  }

  ghost predicate Inside(s: Seg, p: int) {
    s.addr <= p < s.addr + s.len
  }

  ghost predicate Disjoint(iov: seq<Seg>) {
    forall i, j, p :: 0 <= i < j < |iov| && Inside(iov[i], p) ==> !Inside(iov[j], p)
  }

  function Bytes(m: seq<u8>, s: Seg): (b: seq<u8>)
    requires s.addr + s.len <= |m|
    ensures |b| == s.len
  {
    m[s.addr..s.addr + s.len]
  }

  /** Memory after the bytes of d have been laid over the segments, in vector order. */
  function Scatter(m: seq<u8>, iov: seq<Seg>, i: nat, d: seq<u8>, k: nat): (m': seq<u8>)
    requires InMemory(iov, |m|)
    ensures |m'| == |m|
    decreases |iov| - i
  {
    if i >= |iov| || k >= |d| then m
    else
      var c := Min(iov[i].len, |d| - k);
      Scatter(Put(m, iov[i].addr, d[k..k + c]), iov, i + 1, d, k + c)
  }

  /** The concatenation of the segments' bytes. */
  function Gather(m: seq<u8>, iov: seq<Seg>, i: nat): (d: seq<u8>)
    requires InMemory(iov, |m|)
    ensures |d| == Total(iov, i)
    decreases |iov| - i
  {
    if i >= |iov| then [] else Bytes(m, iov[i]) + Gather(m, iov, i + 1)
  }

  /** The segment with its first c bytes consumed. */
  function Cut(s: Seg, c: int): Seg
    requires 0 <= c <= s.len
  {
    Seg(s.addr + c, s.len - c)
  }

  /** The vector with its first n bytes consumed. */
  function Advance(iov: seq<Seg>, i: nat, n: int): (r: seq<Seg>)
    ensures |r| == if i < |iov| then |iov| - i else 0
    decreases |iov| - i
  {
    if i >= |iov| then []
    else
      var c := Min(iov[i].len, Max(n, 0));
      [Cut(iov[i], c)] + Advance(iov, i + 1, n - c)
  }

  // ---- What scattering means ----

  /** Scattering leaves every byte outside the segments alone. */
  lemma {:induction false} ScatterFrame(m: seq<u8>, iov: seq<Seg>, i: nat, d: seq<u8>, k: nat, p: nat)
    requires InMemory(iov, |m|) && p < |m|
    requires forall j :: i <= j < |iov| ==> !Inside(iov[j], p)
    ensures Scatter(m, iov, i, d, k)[p] == m[p]
    decreases |iov| - i
  {
    if i < |iov| && k < |d| {
      var c := Min(iov[i].len, |d| - k);
      assert !Inside(iov[i], p);
      ScatterFrame(Put(m, iov[i].addr, d[k..k + c]), iov, i + 1, d, k + c, p);
    }
  }

  /** Gathering depends only on the bytes of the segments. */
  lemma {:induction false} GatherFrame(m: seq<u8>, m': seq<u8>, iov: seq<Seg>, i: nat)
    requires |m| == |m'| && InMemory(iov, |m|)
    requires forall j, p :: i <= j < |iov| && Inside(iov[j], p) ==> m[p] == m'[p]
    ensures Gather(m, iov, i) == Gather(m', iov, i)
    decreases |iov| - i
  {
    if i < |iov| {
      assert forall p :: iov[i].addr <= p < iov[i].addr + iov[i].len ==> Inside(iov[i], p);
      assert Bytes(m, iov[i]) == Bytes(m', iov[i]);
      GatherFrame(m, m', iov, i + 1);
    }
  }

  /** Replacing the first elements of head + rest, piece by piece. */
  lemma Splice<T>(head: seq<T>, rest: seq<T>, d: seq<T>, k: nat, c: nat)
    requires k <= |d| && c == Min(|head|, |d| - k) && |d| - k <= |head| + |rest|
    ensures (d[k..k + c] + head[c..]) + (d[k + c..] + rest[|d| - k - c..]) == d[k..] + (head + rest)[|d| - k..]
  {
    if c < |d| - k {
      assert head[c..] == [];
      assert d[k..] == d[k..k + c] + d[k + c..];
    } else {
      assert d[k + c..] == [];
    }
  }

  /**
   Scatter/gather are inverse: over disjoint segments with room for the data (zero-length ones allowed) exactly
   the first bytes of the concatenation become the data, the rest keeps its bytes.
   */
  lemma {:induction false} GatherOfScatter(m: seq<u8>, iov: seq<Seg>, i: nat, d: seq<u8>, k: nat)
    requires InMemory(iov, |m|) && Disjoint(iov) && k <= |d| <= k + Total(iov, i)
    ensures Gather(Scatter(m, iov, i, d, k), iov, i) == d[k..] + Gather(m, iov, i)[|d| - k..]
    decreases |iov| - i
  {
    hide Put, InMemory, Scatter, Gather, Disjoint;
    if i < |iov| && k < |d| {
      var c := Min(iov[i].len, |d| - k);
      UnfoldScatter(m, iov, i, d, k);
      var m1 := Put(m, iov[i].addr, d[k..k + c]);
      UnfoldGather(m, iov, i);
      UnfoldGather(Scatter(m, iov, i, d, k), iov, i);
      GatherOfScatter(m1, iov, i + 1, d, k + c);
      PutApart(m, iov, i, d[k..k + c]);
      FirstSegment(m, iov, i, d, k);
      Splice(Bytes(m, iov[i]), Gather(m, iov, i + 1), d, k, c);
    } else {
      NothingToScatter(m, iov, i, d, k);
    }
  }

  lemma UnfoldScatter(m: seq<u8>, iov: seq<Seg>, i: nat, d: seq<u8>, k: nat)
    requires InMemory(iov, |m|) && i < |iov| && k < |d|
    ensures var c := Min(iov[i].len, |d| - k);
            && iov[i].addr + c <= |m| && |Put(m, iov[i].addr, d[k..k + c])| == |m|
            && Scatter(m, iov, i, d, k) == Scatter(Put(m, iov[i].addr, d[k..k + c]), iov, i + 1, d, k + c)
  {
  }

  lemma UnfoldGather(m: seq<u8>, iov: seq<Seg>, i: nat)
    requires InMemory(iov, |m|) && i < |iov|
    ensures iov[i].addr + iov[i].len <= |m| && Gather(m, iov, i) == Bytes(m, iov[i]) + Gather(m, iov, i + 1)
  {
  }

  lemma NothingToScatter(m: seq<u8>, iov: seq<Seg>, i: nat, d: seq<u8>, k: nat)
    requires InMemory(iov, |m|) && k <= |d| <= k + Total(iov, i) && (i >= |iov| || k == |d|)
    ensures k == |d| && Scatter(m, iov, i, d, k) == m
  {
  }

  /** Writing into a segment leaves what the later ones gather. */
  lemma PutApart(m: seq<u8>, iov: seq<Seg>, i: nat, d: seq<u8>)
    requires InMemory(iov, |m|) && Disjoint(iov) && i < |iov| && |d| <= iov[i].len
    ensures iov[i].addr + |d| <= |m| && Gather(Put(m, iov[i].addr, d), iov, i + 1) == Gather(m, iov, i + 1)
  {
    hide Gather, Put;
    var m1 := Put(m, iov[i].addr, d);
    forall j, p | i + 1 <= j < |iov| && Inside(iov[j], p)
      ensures m[p] == m1[p]
    {
      assert !Inside(iov[i], p);
      PutElsewhere(m, iov[i].addr, d, p);
    }
    GatherFrame(m, m1, iov, i + 1);
  }

  lemma PutElsewhere(m: seq<u8>, at: nat, d: seq<u8>, p: nat)
    requires at + |d| <= |m| && p < |m| && !(at <= p < at + |d|)
    ensures Put(m, at, d)[p] == m[p]
  {
  }

  /** The bytes of the i-th segment after the whole scatter. */
  lemma FirstSegment(m: seq<u8>, iov: seq<Seg>, i: nat, d: seq<u8>, k: nat)
    requires InMemory(iov, |m|) && Disjoint(iov) && i < |iov| && k < |d|
    ensures var c := Min(iov[i].len, |d| - k);
            Bytes(Scatter(m, iov, i, d, k), iov[i]) == d[k..k + c] + Bytes(m, iov[i])[c..]
  {
    var c := Min(iov[i].len, |d| - k);
    var m1 := Put(m, iov[i].addr, d[k..k + c]);
    forall p | Inside(iov[i], p)
      ensures Scatter(m, iov, i, d, k)[p] == m1[p]
    {
      ScatterFrame(m1, iov, i + 1, d, k + c, p);
    }
    assert forall p :: iov[i].addr <= p < iov[i].addr + iov[i].len ==> Inside(iov[i], p);
    assert Bytes(Scatter(m, iov, i, d, k), iov[i]) == Bytes(m1, iov[i]);
    BytesOfPut(m, iov[i], d[k..k + c]);
  }

  lemma BytesOfPut(m: seq<u8>, s: Seg, d: seq<u8>)
    requires s.addr + s.len <= |m| && |d| <= s.len
    ensures Bytes(Put(m, s.addr, d), s) == d + Bytes(m, s)[|d|..]
  {
  }

  lemma DropAcross<T>(head: seq<T>, rest: seq<T>, n: nat, c: nat)
    requires c == Min(|head|, n) && n <= |head| + |rest|
    ensures (head + rest)[n..] == head[c..] + rest[n - c..]
    ensures (head + rest)[..n] == head[..c] + rest[..n - c]
  {
    if c < n {
      assert head[c..] == [] && head[..c] == head;
    } else {
      assert rest[..n - c] == [] && rest[n - c..] == rest;
    }
  }

  /** Advancing by n leaves a vector that describes exactly the bytes behind the first n. */
  lemma {:induction false} AdvanceIsSuffix(m: seq<u8>, iov: seq<Seg>, n: nat)
    requires InMemory(iov, |m|) && n <= Total(iov, 0)
    ensures InMemory(Advance(iov, 0, n), |m|)
    ensures Gather(m, Advance(iov, 0, n), 0) == Gather(m, iov, 0)[n..]
  {
    AdvanceInMemory(iov, 0, n, |m|);
    AdvanceSuffixFrom(m, iov, Advance(iov, 0, n), 0, n);
  }

  lemma {:induction false} AdvanceInMemory(iov: seq<Seg>, i: nat, n: int, size: nat)
    requires InMemory(iov, size)
    ensures InMemory(Advance(iov, i, n), size)
    decreases |iov| - i
  {
    if i < |iov| {
      AdvanceInMemory(iov, i + 1, n - Min(iov[i].len, Max(n, 0)), size);
    }
  }

  lemma {:induction false} AdvanceSuffixFrom(m: seq<u8>, iov: seq<Seg>, adv: seq<Seg>, i: nat, n: nat)
    requires InMemory(iov, |m|) && InMemory(adv, |m|) && |adv| == |iov|
    requires i <= |iov| && adv[i..] == Advance(iov, i, n) && n <= Total(iov, i)
    ensures Gather(m, adv, i) == Gather(m, iov, i)[n..]
    decreases |iov| - i
  {
    if i < |iov| {
      var c := Min(iov[i].len, n);
      AdvanceStep(iov, i, n, adv);
      AdvanceSuffixFrom(m, iov, adv, i + 1, n - c);
      assert Bytes(m, adv[i]) == Bytes(m, iov[i])[c..];
      DropAcross(Bytes(m, iov[i]), Gather(m, iov, i + 1), n, c);
    }
  }

  // ---- The loops ----

  lemma MoveOver<T>(vec: seq<T>, old0: seq<T>, i: nat)
    requires i < |vec| == |old0|
    ensures (vec[..i] + old0[i..])[i := vec[i]] == vec[..i + 1] + old0[i + 1..]
  {
  }

  lemma ScatterStep(m: seq<u8>, iov: seq<Seg>, i: nat, d: seq<u8>, k: nat)
    requires InMemory(iov, |m|) && i < |iov| && k < |d|
    ensures var c := Min(iov[i].len, |d| - k);
            Scatter(m, iov, i, d, k) == Scatter(Put(m, iov[i].addr, d[k..k + c]), iov, i + 1, d, k + c)
  {
  }

  lemma AppendPart<T>(a: seq<T>, b: seq<T>, c: seq<T>)
    ensures a + (b + c) == (a + b) + c
  {
  }

  method IovSize(iov: array<Seg>, len: nat) returns (size: nat)
    requires len <= iov.Length
    ensures size == Total(iov[..len], 0)
  {
    size := 0;
    for i := 0 to len
      invariant size + Total(iov[..len], i) == Total(iov[..len], 0)
    {
      size := size + iov[i].len;
    }
  }

  lemma AdvanceStep(iov: seq<Seg>, i: nat, n: nat, vec: seq<Seg>)
    requires i < |iov| == |vec| && Advance(iov, i, n) == vec[i..]
    ensures var c := Min(iov[i].len, n);
            vec[i] == Cut(iov[i], c) && Advance(iov, i + 1, n - c) == vec[i + 1..]
  {
    assert vec[i..][0] == vec[i] && vec[i..][1..] == vec[i + 1..];
  }

  /** Where both loops stand in the vector: the first i segments are as they will end, the others untouched. */
  ghost predicate AtSegment(v: seq<Seg>, iov0: seq<Seg>, i: nat, left: int, vec: seq<Seg>) {
    && |v| == |iov0| == |vec| && i <= |v| && left <= Total(iov0, i)
    && v == vec[..i] + iov0[i..]
    && Advance(iov0, i, left) == vec[i..]
  }

  lemma AtSegmentStart(iov0: seq<Seg>, n: int)
    requires n <= Total(iov0, 0)
    ensures AtSegment(iov0, iov0, 0, n, Advance(iov0, 0, n))
  {
  }

  lemma AtSegmentStep(v: seq<Seg>, iov0: seq<Seg>, i: nat, left: int, vec: seq<Seg>)
    requires AtSegment(v, iov0, i, left, vec) && 0 < left
    ensures i < |v| && v[i] == iov0[i]
    ensures var c := Min(v[i].len, left);
            AtSegment(v[i := Cut(v[i], c)], iov0, i + 1, left - c, vec)
  {
    AdvanceStep(iov0, i, left, vec);
    MoveOver(vec, iov0, i);
  }

  lemma AtSegmentEnd(v: seq<Seg>, iov0: seq<Seg>, i: nat, left: int, vec: seq<Seg>)
    requires AtSegment(v, iov0, i, left, vec) && left <= 0
    ensures v == vec
  {
    AdvanceNothing(iov0, i, left);
  }

  /** The invariant of the copying-in loop: what is still to be scattered gives the goal. */
  ghost predicate Filling(m: seq<u8>, v: seq<Seg>, iov0: seq<Seg>, i: nat, left: int, d: seq<u8>, done: nat,
                          goal: seq<u8>, vec: seq<Seg>)
  {
    && AtSegment(v, iov0, i, left, vec)
    && InMemory(iov0, |m|) && done + Max(left, 0) == |d|
    && Scatter(m, iov0, i, d, done) == goal
  }

  lemma FillingStep(m: seq<u8>, v: seq<Seg>, iov0: seq<Seg>, i: nat, left: int, d: seq<u8>, done: nat,
                    goal: seq<u8>, vec: seq<Seg>)
    requires Filling(m, v, iov0, i, left, d, done, goal, vec) && 0 < left
    ensures i < |v| && v[i].addr + v[i].len <= |m| && done + left <= |d|
    ensures var c := Min(v[i].len, left);
            Filling(Put(m, v[i].addr, d[done..done + c]), v[i := Cut(v[i], c)], iov0, i + 1, left - c,
                    d, done + c, goal, vec)
  {
    AtSegmentStep(v, iov0, i, left, vec);
    ScatterStep(m, iov0, i, d, done);
  }

  lemma FillingStart(m: seq<u8>, iov0: seq<Seg>, len: int, d: seq<u8>)
    requires InMemory(iov0, |m|) && len <= Total(iov0, 0) && |d| == Max(len, 0)
    ensures Filling(m, iov0, iov0, 0, len, d, 0, Scatter(m, iov0, 0, d, 0), Advance(iov0, 0, len))
  {
    AtSegmentStart(iov0, len);
  }

  lemma FillingEnd(m: seq<u8>, v: seq<Seg>, iov0: seq<Seg>, i: nat, left: int, d: seq<u8>, done: nat,
                   goal: seq<u8>, vec: seq<Seg>)
    requires Filling(m, v, iov0, i, left, d, done, goal, vec) && left <= 0
    ensures m == goal && v == vec
  {
    AtSegmentEnd(v, iov0, i, left, vec);
  }

  /** The next data bytes go to the start of segment i, as many as both have. */
  method FillSegment(mem: array<u8>, iov: array<Seg>, i: nat, data: seq<u8>, done: nat, left: int)
    returns (copy: int)
    requires i < iov.Length && 0 < left && done + left <= |data|
    requires iov[..][i].addr + iov[..][i].len <= mem.Length
    modifies mem, iov
    ensures copy == Min(old(iov[..])[i].len, left)
    ensures iov[..] == old(iov[..])[i := Cut(old(iov[..])[i], copy)]
    ensures mem[..] == Put(old(mem[..]), old(iov[..])[i].addr, data[done..done + copy])
  {
    copy := 0;
    if iov[i].len != 0 {
      copy := Min(iov[i].len, left);
      CopyIn(mem, iov[i].addr, data[done..done + copy]);
      iov[i] := Cut(iov[i], copy);
    } else {
      assert Put(mem[..], iov[i].addr, data[done..done]) == mem[..];
    }
  }

  method FillRound(mem: array<u8>, iov: array<Seg>, i: nat, d: seq<u8>, done: nat, left: int,
                   ghost iov0: seq<Seg>, ghost goal: seq<u8>, ghost vec: seq<Seg>) returns (copy: int)
    requires 0 < left && Filling(mem[..], iov[..], iov0, i, left, d, done, goal, vec)
    modifies mem, iov
    ensures i < iov.Length && 0 <= copy
    ensures Filling(mem[..], iov[..], iov0, i + 1, left - copy, d, done + copy, goal, vec)
  {
    hide Filling, Put;
    FillingStep(mem[..], iov[..], iov0, i, left, d, done, goal, vec);
    copy := FillSegment(mem, iov, i, d, done, left);
  }

  method ToIovec(mem: array<u8>, iov: array<Seg>, data: seq<u8>, len: int)
    requires InMemory(iov[..], mem.Length)
    requires len <= Total(iov[..], 0) && len <= |data|
    modifies mem, iov
    ensures mem[..] == Scatter(old(mem[..]), old(iov[..]), 0, data[..Max(len, 0)], 0)
    ensures iov[..] == Advance(old(iov[..]), 0, len)
  {
    hide Filling, Scatter, Advance, Total, InMemory;
    var left, done, i := len, 0, 0;
    var d := data[..Max(len, 0)];
    ghost var iov0 := iov[..];
    ghost var goal, vec := Scatter(mem[..], iov0, 0, d, 0), Advance(iov0, 0, len);
    FillingStart(mem[..], iov0, len, d);
    while left > 0
      invariant 0 <= i && 0 <= done && Filling(mem[..], iov[..], iov0, i, left, d, done, goal, vec)
      decreases iov.Length - i
    {
      var copy := FillRound(mem, iov, i, d, done, left, iov0, goal, vec);
      left, done, i := left - copy, done + copy, i + 1;
    }
    FillingEnd(mem[..], iov[..], iov0, i, left, d, done, goal, vec);
  }

  /** Once nothing is left to consume the remaining segments stay as they are. */
  lemma {:induction false} AdvanceNothing(iov: seq<Seg>, i: nat, n: int)
    requires n <= 0 && i <= |iov|
    ensures Advance(iov, i, n) == iov[i..]
    decreases |iov| - i
  {
    if i < |iov| {
      AdvanceNothing(iov, i + 1, n);
    }
  }

  method CopyIn(mem: array<u8>, at: nat, d: seq<u8>)
    requires at + |d| <= mem.Length
    modifies mem
    ensures mem[..] == Put(old(mem[..]), at, d)
  {
    forall k | 0 <= k < |d| {
      mem[at + k] := d[k];
    }
  }

  method FromIovec(mem: array<u8>, iov: array<Seg>, len: int) returns (data: seq<u8>)
    requires InMemory(iov[..], mem.Length)
    requires len <= Total(iov[..], 0)
    modifies iov
    ensures data == Gather(mem[..], old(iov[..]), 0)[..Max(len, 0)]
    ensures iov[..] == Advance(old(iov[..]), 0, len)
  {
    hide Draining, Gather, Advance, Total, InMemory;
    var left, i := len, 0;
    data := [];
    ghost var iov0 := iov[..];
    ghost var goal, vec := Gather(mem[..], iov0, 0)[..Max(len, 0)], Advance(iov0, 0, len);
    DrainingStart(mem[..], iov0, len);
    while left > 0
      invariant 0 <= i && Draining(mem[..], iov[..], iov0, i, left, data, goal, vec)
      decreases iov.Length - i
    {
      DrainingStep(mem[..], iov[..], iov0, i, left, data, goal, vec);
      var bytes := DrainSegment(mem, iov, i, left);
      data, left, i := data + bytes, left - |bytes|, i + 1;
    }
    DrainingEnd(mem[..], iov[..], iov0, i, left, data, goal, vec);
  }

  lemma DrainingStart(m: seq<u8>, iov0: seq<Seg>, len: int)
    requires InMemory(iov0, |m|) && len <= Total(iov0, 0)
    ensures Draining(m, iov0, iov0, 0, len, [], Gather(m, iov0, 0)[..Max(len, 0)], Advance(iov0, 0, len))
  {
    AtSegmentStart(iov0, len);
  }

  lemma DrainingEnd(m: seq<u8>, v: seq<Seg>, iov0: seq<Seg>, i: nat, left: int, data: seq<u8>,
                    goal: seq<u8>, vec: seq<Seg>)
    requires Draining(m, v, iov0, i, left, data, goal, vec) && left <= 0
    ensures data == goal && v == vec
  {
    AtSegmentEnd(v, iov0, i, left, vec);
  }

  ghost predicate Draining(m: seq<u8>, v: seq<Seg>, iov0: seq<Seg>, i: nat, left: int, data: seq<u8>,
                           goal: seq<u8>, vec: seq<Seg>)
  {
    && AtSegment(v, iov0, i, left, vec)
    && InMemory(iov0, |m|)
    && data + Gather(m, iov0, i)[..Max(left, 0)] == goal
  }

  lemma DrainingStep(m: seq<u8>, v: seq<Seg>, iov0: seq<Seg>, i: nat, left: int, data: seq<u8>,
                     goal: seq<u8>, vec: seq<Seg>)
    requires Draining(m, v, iov0, i, left, data, goal, vec) && 0 < left
    ensures i < |v| && v[i].addr + v[i].len <= |m|
    ensures var c := Min(v[i].len, left);
            Draining(m, v[i := Cut(v[i], c)], iov0, i + 1, left - c, data + Bytes(m, v[i])[..c], goal, vec)
  {
    AtSegmentStep(v, iov0, i, left, vec);
    var c := Min(v[i].len, left);
    DropAcross(Bytes(m, iov0[i]), Gather(m, iov0, i + 1), left, c);
    AppendPart(data, Bytes(m, iov0[i])[..c], Gather(m, iov0, i + 1)[..left - c]);
  }

  method DrainSegment(mem: array<u8>, iov: array<Seg>, i: nat, left: int) returns (bytes: seq<u8>)
    requires i < iov.Length && 0 < left
    requires iov[..][i].addr + iov[..][i].len <= mem.Length
    modifies iov
    ensures bytes == Bytes(mem[..], old(iov[..])[i])[..Min(old(iov[..])[i].len, left)]
    ensures iov[..] == old(iov[..])[i := Cut(old(iov[..])[i], |bytes|)]
  {
    bytes := [];
    if iov[i].len != 0 {
      var copy := Min(iov[i].len, left);
      bytes := mem[iov[i].addr..iov[i].addr + copy];
      iov[i] := Cut(iov[i], copy);
    }
  }

  /** What the two loops give together: copying in and copying out of the same vector returns the data. */
  lemma ToThenFrom(m: seq<u8>, iov: seq<Seg>, d: seq<u8>)
    requires InMemory(iov, |m|) && Disjoint(iov) && |d| <= Total(iov, 0)
    ensures Gather(Scatter(m, iov, 0, d, 0), iov, 0)[..|d|] == d
    ensures InMemory(Advance(iov, 0, |d|), |m|)
    ensures Gather(Scatter(m, iov, 0, d, 0), Advance(iov, 0, |d|), 0) == Gather(m, iov, 0)[|d|..]
  {
    GatherOfScatter(m, iov, 0, d, 0);
    AdvanceIsSuffix(Scatter(m, iov, 0, d, 0), iov, |d|);
  }
}
