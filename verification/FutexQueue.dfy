/**
 Futex wait queues (core/src/futex.rs) and the WAKE and REQUEUE branches of `sys_futex`
 (api/src/syscall/sync/futex.rs).
 */
module FutexQueue {

  /** A futex word: a shared region (or a private address space) and an offset in it. */
  datatype Word = Word(region: nat, offset: nat)

  /** A queued task with its bitset. The kernel stores no more than these two; the word and the
      value it went to sleep on are carried along so that properties can speak of them. */
  datatype Waiter = Waiter(task: nat, bits: bv32, word: Word, expected: nat)

  const ANY: bv32 := 0xFFFF_FFFF

  function Min(a: nat, b: nat): nat { if a <= b then a else b }

  predicate Matches(w: Waiter, mask: bv32) { w.bits & mask != 0 }

  /** The matching waiters in queue order: what a wake-up without a limit would wake. */
  function Matching(q: seq<Waiter>, mask: bv32): seq<Waiter>
  {
    if q == [] then [] else (if Matches(q[0], mask) then [q[0]] else []) + Matching(q[1..], mask)
  }

  /** What `retain` leaves behind after waking at most `count` waiters that match. */
  function Kept(q: seq<Waiter>, count: nat, mask: bv32): seq<Waiter>
  {
    if q == [] then []
    else if count == 0 || !Matches(q[0], mask) then [q[0]] + Kept(q[1..], count, mask)
    else Kept(q[1..], count - 1, mask)
  }

  /** The waiters woken, in order. */
  function Woken(q: seq<Waiter>, count: nat, mask: bv32): seq<Waiter>
  {
    if q == [] then []
    else if count == 0 || !Matches(q[0], mask) then Woken(q[1..], count, mask)
    else [q[0]] + Woken(q[1..], count - 1, mask)
  }

  /** FIFO: the woken are the first `count` of all that match. */
  lemma {:induction false} WokenFirstMatching(q: seq<Waiter>, count: nat, mask: bv32)
    ensures Woken(q, count, mask) == Matching(q, mask)[..Min(count, |Matching(q, mask)|)]
  {
    if q != [] {
      WokenFirstMatching(q[1..], if count == 0 || !Matches(q[0], mask) then count else count - 1, mask);
    }
  }

  lemma {:induction false} KeptAll(q: seq<Waiter>, mask: bv32)
    ensures Kept(q, 0, mask) == q
  {
    if q != [] { KeptAll(q[1..], mask); }
  }

  /** Nobody is lost and nobody is woken twice. */
  lemma {:induction false} WakeConserves(q: seq<Waiter>, count: nat, mask: bv32)
    ensures multiset(Woken(q, count, mask)) + multiset(Kept(q, count, mask)) == multiset(q)
  {
    if q != [] {
      assert q == [q[0]] + q[1..];
      WakeConserves(q[1..], if count == 0 || !Matches(q[0], mask) then count else count - 1, mask);
    }
  }

  /** A wake-up that may take everybody leaves nobody who matches. */
  lemma {:induction false} WakeAllLeavesNone(q: seq<Waiter>, count: nat, mask: bv32)
    requires count >= |q|
    ensures forall w :: w in Kept(q, count, mask) ==> w in q && !Matches(w, mask)
  {
    if q != [] {
      WakeAllLeavesNone(q[1..], if Matches(q[0], mask) then count - 1 else count, mask);
    }
  }

  lemma {:induction false} KeptFrom(q: seq<Waiter>, count: nat, mask: bv32)
    ensures forall w :: w in Kept(q, count, mask) ==> w in q
  {
    if q != [] {
      KeptFrom(q[1..], if Matches(q[0], mask) && count > 0 then count - 1 else count, mask);
    }
  }

  ghost predicate NoZeroBitset(q: seq<Waiter>) { forall w :: w in q ==> w.bits != 0 }

  /** With no zero bitset around, waking under the full mask takes a prefix of the queue. */
  lemma {:induction false} WakeTakesPrefix(q: seq<Waiter>, count: nat)
    requires NoZeroBitset(q)
    ensures Woken(q, count, ANY) == q[..Min(count, |q|)] && Kept(q, count, ANY) == q[Min(count, |q|)..]
  {
    if q == [] {
    } else if count == 0 {
      KeptAll(q, ANY);
      WokenFirstMatching(q, 0, ANY);
    } else {
      AnyMatches(q[0]);
      WakeTakesPrefix(q[1..], count - 1);
      var n := Min(count - 1, |q[1..]|);
      assert q[..Min(count, |q|)] == [q[0]] + q[1..][..n];
      assert q[Min(count, |q|)..] == q[1..][n..];
    }
  }

  lemma AnyMatches(w: Waiter)
    ensures Matches(w, ANY) <==> w.bits != 0
  {
    assert w.bits & ANY == w.bits;
  }

  // ------------------------------------------------------------------------ bitsets and places

  /** A single bit. */
  predicate IsBit(b: bv32) { b != 0 && b & (b - 1) == 0 }

  predicate HasBit(x: bv32, b: bv32) { x & b == b }

  lemma LowestBit(z: bv32)
    requires z != 0
    ensures IsBit(z & (0 - z)) && HasBit(z, z & (0 - z))
  {
  }

  predicate BitInBoth(x: bv32, y: bv32, b: bv32) { IsBit(b) && HasBit(x, b) && HasBit(y, b) }

  lemma CommonBit(x: bv32, y: bv32) returns (b: bv32)
    requires x & y != 0
    ensures BitInBoth(x, y, b)
  {
    b := (x & y) & (0 - (x & y));
    LowestBit(x & y);
    BitOfBoth(x, y, b);
  }

  lemma BitOfBoth(x: bv32, y: bv32, b: bv32)
    requires HasBit(x & y, b)
    ensures HasBit(x, b) && HasBit(y, b)
  {
  }

  lemma NotDisjoint(x: bv32, y: bv32, b: bv32)
    requires BitInBoth(x, y, b)
    ensures x & y != 0
  {
  }

  /** A waiter is matched exactly when its bitset and the mask have a bit in common. */
  lemma MatchesIff(w: Waiter, mask: bv32)
    ensures Matches(w, mask) <==> exists b :: BitInBoth(w.bits, mask, b)
  {
    if Matches(w, mask) {
      var b := CommonBit(w.bits, mask);
    } else {
      forall b | BitInBoth(w.bits, mask, b) ensures false { NotDisjoint(w.bits, mask, b); }
    }
  }

  /** Whether a wake-up reaches the waiter at place `i`: it matches, and fewer than `count` of those before
      it do. */
  ghost predicate WokenAt(q: seq<Waiter>, i: nat, count: nat, mask: bv32)
    requires i < |q|
  {
    Matches(q[i], mask) && |Matching(q[..i], mask)| < count
  }

  lemma {:induction false} MatchingConcat(a: seq<Waiter>, b: seq<Waiter>, mask: bv32)
    ensures |Matching(a + b, mask)| == |Matching(a, mask)| + |Matching(b, mask)|
  {
    if a == [] {
      assert a + b == b;
    } else {
      assert (a + b)[1..] == a[1..] + b;
      MatchingConcat(a[1..], b, mask);
    }
  }

  /** Nobody overtakes: if a waiter is woken, so is every matching one that stands before it. */
  lemma NoOvertaking(q: seq<Waiter>, i: nat, j: nat, count: nat, mask: bv32)
    requires i < j < |q| && WokenAt(q, j, count, mask) && Matches(q[i], mask)
    ensures WokenAt(q, i, count, mask)
  {
    assert q[..j] == q[..i] + q[i..j];
    MatchingConcat(q[..i], q[i..j], mask);
  }

  /** The marks of those that are kept, if `marks` are the marks of those in the queue. */
  ghost function KeptMarks(q: seq<Waiter>, marks: seq<nat>, count: nat, mask: bv32): (r: seq<nat>)
    requires |marks| == |q|
    ensures |r| == |Kept(q, count, mask)|
  {
    if q == [] then []
    else if count == 0 || !Matches(q[0], mask) then [marks[0]] + KeptMarks(q[1..], marks[1..], count, mask)
    else KeptMarks(q[1..], marks[1..], count - 1, mask)
  }

  ghost predicate Rising(marks: seq<nat>) { forall i, j :: 0 <= i < j < |marks| ==> marks[i] < marks[j] }

  lemma {:induction false} KeptMarksFrom(q: seq<Waiter>, marks: seq<nat>, count: nat, mask: bv32, n: nat)
    requires |marks| == |q| && n < |KeptMarks(q, marks, count, mask)|
    ensures exists i: nat :: i < |q| && KeptMarks(q, marks, count, mask)[n] == marks[i] && Kept(q, count, mask)[n] == q[i]
  {
    var stays := count == 0 || !Matches(q[0], mask);
    if !stays || n > 0 {
      var m := if stays then n - 1 else n;
      KeptMarksFrom(q[1..], marks[1..], if stays then count else count - 1, mask, m);
      var i: nat :| i < |q[1..]| && KeptMarks(q[1..], marks[1..], if stays then count else count - 1, mask)[m] == marks[1..][i]
                    && Kept(q[1..], if stays then count else count - 1, mask)[m] == q[1..][i];
      assert KeptMarks(q, marks, count, mask)[n] == marks[i + 1] && Kept(q, count, mask)[n] == q[i + 1];
    }
  }

  lemma {:induction false} KeptMarksRise(q: seq<Waiter>, marks: seq<nat>, count: nat, mask: bv32)
    requires |marks| == |q| && Rising(marks)
    ensures Rising(KeptMarks(q, marks, count, mask))
  {
    if q != [] {
      var stays := count == 0 || !Matches(q[0], mask);
      var c := if stays then count else count - 1;
      KeptMarksRise(q[1..], marks[1..], c, mask);
      var rest := KeptMarks(q[1..], marks[1..], c, mask);
      forall n | 0 <= n < |rest| ensures marks[0] < rest[n] { KeptMarksFrom(q[1..], marks[1..], c, mask, n); }
    }
  }

  /** A place is kept exactly when the wake-up does not reach it. */
  lemma {:induction false} KeptIff(q: seq<Waiter>, marks: seq<nat>, count: nat, mask: bv32, i: nat)
    requires |marks| == |q| && Rising(marks) && i < |q|
    ensures marks[i] in KeptMarks(q, marks, count, mask) <==> !WokenAt(q, i, count, mask)
  {
    var stays := count == 0 || !Matches(q[0], mask);
    var c := if stays then count else count - 1;
    var rest := KeptMarks(q[1..], marks[1..], c, mask);
    forall n | 0 <= n < |rest| ensures marks[0] < rest[n] { KeptMarksFrom(q[1..], marks[1..], c, mask, n); }
    if i > 0 {
      KeptIff(q[1..], marks[1..], c, mask, i - 1);
      assert q[..i] == [q[0]] + q[1..][..i - 1];
    }
  }

  // ----------------------------------------------------------------------------------- REQUEUE

  datatype Requeued = Requeued(woken: seq<Waiter>, source: seq<Waiter>, target: seq<Waiter>, count: nat)

  /** The futex part of FUTEX_REQUEUE on two different queues. */
  function WakeThenRequeue(q: seq<Waiter>, target: seq<Waiter>, value: nat, value2: nat): Requeued
  {
    var woken, kept := Woken(q, value, ANY), Kept(q, value, ANY);
    if |woken| == value then
      var n := Min(value2, |kept|);
      Requeued(woken, kept[n..], target + kept[..n], value + n)
    else
      Requeued(woken, kept, target, |woken|)
  }

  /** Exactness: the first `value` waiters wake in order, the next `value2` move to the end of the
      target in order, the rest stay, and the result counts both. */
  lemma RequeueExact(q: seq<Waiter>, target: seq<Waiter>, value: nat, value2: nat)
    requires NoZeroBitset(q)
    ensures var n := Min(value, |q|);
            var m := Min(value2, |q| - n);
            WakeThenRequeue(q, target, value, value2) == Requeued(q[..n], q[n + m..], target + q[n..n + m], n + m)
  {
    var n := Min(value, |q|);
    var m := Min(value2, |q| - n);
    WakeTakesPrefix(q, value);
    assert q[n..][..m] == q[n..n + m];
    assert q[n..][m..] == q[n + m..];
    if n < value {
      assert q[n..] == [] && q[n..n + m] == [] && target + [] == target;
    }
  }

  lemma RequeueConserves(q: seq<Waiter>, target: seq<Waiter>, value: nat, value2: nat)
    ensures var r := WakeThenRequeue(q, target, value, value2);
            multiset(r.woken) + multiset(r.source) + multiset(r.target) == multiset(q) + multiset(target)
  {
    var kept := Kept(q, value, ANY);
    WakeConserves(q, value, ANY);
    var n := Min(value2, |kept|);
    assert kept[..n] + kept[n..] == kept;
  }

  /** Requeueing is skipped when fewer than `value` waiters woke. The skip never matters exactly when
      the queue holds no waiter with a zero bitset, which no mask can reach. */
  lemma SkipHarmlessIff(q: seq<Waiter>)
    ensures NoZeroBitset(q) <==>
            forall value: nat, value2: nat :: |Woken(q, value, ANY)| == value || Min(value2, |Kept(q, value, ANY)|) == 0
  {
    if NoZeroBitset(q) {
      forall value: nat, value2: nat ensures |Woken(q, value, ANY)| == value || Min(value2, |Kept(q, value, ANY)|) == 0 {
        WakeTakesPrefix(q, value);
      }
    } else {
      var z :| z in q && z.bits == 0;
      AnyMatches(z);
      var value := |q| + 1;
      WokenShort(q, value, ANY);
      KeepsUnmatched(q, value, ANY, z);
      assert Min(1, |Kept(q, value, ANY)|) == 1;
    }
  }

  lemma {:induction false} WokenShort(q: seq<Waiter>, count: nat, mask: bv32)
    ensures |Woken(q, count, mask)| <= |q|
  {
    if q != [] {
      WokenShort(q[1..], if count == 0 || !Matches(q[0], mask) then count else count - 1, mask);
    }
  }

  lemma {:induction false} KeepsUnmatched(q: seq<Waiter>, count: nat, mask: bv32, w: Waiter)
    requires w in q && !Matches(w, mask)
    ensures w in Kept(q, count, mask)
  {
    if w != q[0] {
      KeepsUnmatched(q[1..], if Matches(q[0], mask) && count > 0 then count - 1 else count, mask, w);
    }
  }

  /** One round of `retain`, seen from the queue's tail. */
  lemma WakeStep(q: seq<Waiter>, i: nat, count: nat, mask: bv32)
    requires i < |q|
    ensures var keep := count == 0 || !Matches(q[i], mask);
            && Kept(q[i..], count, mask) ==
               (if keep then [q[i]] + Kept(q[i + 1..], count, mask) else Kept(q[i + 1..], count - 1, mask))
            && Woken(q[i..], count, mask) ==
               (if keep then Woken(q[i + 1..], count, mask) else [q[i]] + Woken(q[i + 1..], count - 1, mask))
  {
    assert q[i..][0] == q[i] && q[i..][1..] == q[i + 1..];
  }

  lemma Regroup<T>(a: seq<T>, x: T, b: seq<T>)
    ensures a + ([x] + b) == (a + [x]) + b
  {}

  // ------------------------------------------------------------------------- the imperative queue

  datatype Errno = InvalidInput | WouldBlock

  datatype Result = Ok(value: nat) | Err(error: Errno)

  class WaitQueue {
    var queue: seq<Waiter>

    constructor ()
      ensures queue == []
    {
      queue := [];
    }

    /** `wake`: one pass of `retain` with a counter. */
    method Wake(count: nat, mask: bv32) returns (woke: nat, woken: seq<Waiter>)
      modifies this
      ensures woken == Woken(old(queue), count, mask) && woke == |woken|
      ensures queue == Kept(old(queue), count, mask)
    {
      var kept: seq<Waiter>;
      var q := queue;
      woke, woken, kept := 0, [], [];
      assert q[0..] == q && q[|q|..] == [];
      for i := 0 to |q|
        invariant woke == |woken| <= count
        invariant Kept(q, count, mask) == kept + Kept(q[i..], count - woke, mask)
        invariant Woken(q, count, mask) == woken + Woken(q[i..], count - woke, mask)
      {
        WakeStep(q, i, count - woke, mask);
        if woke >= count || !Matches(q[i], mask) {
          Regroup(kept, q[i], Kept(q[i + 1..], count - woke, mask));
          kept := kept + [q[i]];
        } else {
          Regroup(woken, q[i], Woken(q[i + 1..], count - woke - 1, mask));
          woken := woken + [q[i]];
          woke := woke + 1;
        }
      }
      queue := kept;
    }

    /** `requeue`: drains a prefix and appends it to the target, which may be this very queue. */
    method Requeue(count: nat, target: WaitQueue) returns (n: nat)
      modifies this, target
      ensures n == Min(count, |old(queue)|)
      ensures this != target ==> queue == old(queue)[n..] && target.queue == old(target.queue) + old(queue)[..n]
      ensures this == target ==> queue == old(queue)[n..] + old(queue)[..n]
    {
      n := Min(count, |queue|);
      var tasks := queue[..n];
      queue := queue[n..];
      if tasks != [] {
        target.queue := target.queue + tasks;
      }
    }
  }

  /** `assert_unsigned`: rejects values that are negative as a signed 32-bit integer. */
  predicate Unsigned(value: nat) { value < 0x8000_0000 }

  /** FUTEX_WAKE and FUTEX_WAKE_BITSET; `futex` is null when the table has no entry for the key. */
  method SysWake(futex: WaitQueue?, value: nat, bitset: bv32) returns (count: nat)
    modifies futex
    ensures futex == null ==> count == 0
    ensures futex != null ==> count == |Woken(old(futex.queue), value, bitset)| && futex.queue == Kept(old(futex.queue), value, bitset)
  {
    count := 0;
    if futex != null {
      var woken;
      count, woken := futex.Wake(value, bitset);
    }
  }

  /** FUTEX_REQUEUE and, with `cmp` carrying the current word and the expected one,
      FUTEX_CMP_REQUEUE. */
  method SysRequeue(futex: WaitQueue?, futex2: WaitQueue, value: nat, value2: nat, cmp: bool, current: nat, value3: nat)
    returns (r: Result)
    modifies futex, futex2
    ensures r == Err(InvalidInput) <==> !Unsigned(value) || ((cmp ==> current == value3) && !Unsigned(value2))
    ensures r == Err(WouldBlock) <==> Unsigned(value) && cmp && current != value3
    ensures r.Err? ==> (futex != null ==> futex.queue == old(futex.queue)) && futex2.queue == old(futex2.queue)
    ensures r.Ok? && futex == null ==> r.value == 0 && futex2.queue == old(futex2.queue)
    ensures r.Ok? && futex != null && futex != futex2 ==>
              var spec := WakeThenRequeue(old(futex.queue), old(futex2.queue), value, value2);
              futex.queue == spec.source && futex2.queue == spec.target && r.value == spec.count
    ensures r.Ok? && futex == futex2 ==>
              var woken, kept := Woken(old(futex2.queue), value, ANY), Kept(old(futex2.queue), value, ANY);
              var n := if |woken| == value then Min(value2, |kept|) else 0;
              && futex2.queue == kept[n..] + kept[..n] && r.value == |woken| + n
              && multiset(futex2.queue) + multiset(woken) == multiset(old(futex2.queue))
  {
    if !Unsigned(value) {
      return Err(InvalidInput);
    }
    if cmp && current != value3 {
      return Err(WouldBlock);
    }
    if !Unsigned(value2) {
      return Err(InvalidInput);
    }
    var count := 0;
    if futex != null {
      var woken;
      count, woken := futex.Wake(value, ANY);
      WakeConserves(old(futex.queue), value, ANY);
      ghost var kept := futex.queue;
      if count == value {
        var n := futex.Requeue(value2, futex2);
        count := count + n;
        assert kept == kept[..n] + kept[n..];
      } else {
        assert kept == kept[0..] + kept[..0];
      }
    }
    r := Ok(count);
  }
}
