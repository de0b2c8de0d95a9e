/**
 Scatter/gather cursors (api/src/io.rs): `IoVectorBuf::new` checks a vector of user buffers, and
 `IoVectorBufIo` reads or writes through them, however the transfer is cut into pieces.

 The reference is the list of all addresses, segment after segment.
 */
module IoVec {

  const IOV_MAX := 1024
  const WORD := 0x1_0000_0000_0000_0000

  type Byte = bv8

  /** User memory; an address outside the map faults. */
  type Memory = map<nat, Byte>

  /** A signed machine word. */
  type Isize = x: int | -0x8000_0000_0000_0000 <= x < 0x8000_0000_0000_0000

  datatype Segment = Segment(base: nat, len: Isize)
  datatype Result<T> = Ok(value: T) | InvalidInput | Fault

  ghost predicate Lengths(iovs: seq<Segment>)
  {
    forall i :: 0 <= i < |iovs| ==> iovs[i].len >= 0
  }

  function Range(base: nat, n: nat): seq<nat> { seq(n, i requires 0 <= i < n => base + i) }

  ghost function Addresses(iovs: seq<Segment>): seq<nat>
    requires Lengths(iovs)
  {
    if iovs == [] then [] else Range(iovs[0].base, iovs[0].len) + Addresses(iovs[1..])
  }

  ghost function TotalLength(iovs: seq<Segment>): nat
    requires Lengths(iovs)
  {
    if iovs == [] then 0 else iovs[0].len + TotalLength(iovs[1..])
  }

  /** Where the bytes are: byte `j` of segment `k` comes after those of the earlier segments, and is at `j`
      from the base of the segment. */
  lemma {:induction false} AddressAt(iovs: seq<Segment>, k: nat, j: nat)
    requires Lengths(iovs) && k < |iovs| && j < iovs[k].len
    ensures TotalLength(iovs[..k]) + j < |Addresses(iovs)| == TotalLength(iovs)
    ensures Addresses(iovs)[TotalLength(iovs[..k]) + j] == iovs[k].base + j
    decreases k
  {
    AddressCount(iovs);
    AddressCount(iovs[1..]);
    if k > 0 {
      assert iovs[..k][1..] == iovs[1..][..k - 1];
      AddressAt(iovs[1..], k - 1, j);
    }
  }

  lemma {:induction false} AddressCount(iovs: seq<Segment>)
    requires Lengths(iovs)
    ensures |Addresses(iovs)| == TotalLength(iovs)
  {
    if iovs != [] { AddressCount(iovs[1..]); }
  }

  /** What is left for a cursor in segment `start`, `offset` bytes into it. */
  ghost function Rest(iovs: seq<Segment>, start: nat, offset: nat): seq<nat>
    requires Lengths(iovs) && start <= |iovs| && (if start < |iovs| then offset <= iovs[start].len else offset == 0)
  {
    Addresses(iovs[start..])[offset..]
  }

  lemma AddressesFrom(iovs: seq<Segment>, start: nat)
    requires Lengths(iovs) && start < |iovs|
    ensures Addresses(iovs[start..]) == Range(iovs[start].base, iovs[start].len) + Addresses(iovs[start + 1..])
  {
    assert iovs[start..][1..] == iovs[start + 1..];
  }

  /** Moving on from a segment that is used up leaves the same addresses. */
  lemma SkipKeeps(iovs: seq<Segment>, start: nat)
    requires Lengths(iovs) && start < |iovs|
    ensures iovs[start].len <= |Addresses(iovs[start..])|
    ensures Rest(iovs, start, iovs[start].len) == Rest(iovs, start + 1, 0)
  {
    AddressesFrom(iovs, start);
  }

  /** A piece of the current segment is a prefix of what is left. */
  lemma PieceIsPrefix(iovs: seq<Segment>, start: nat, offset: nat, n: nat)
    requires Lengths(iovs) && start < |iovs| && offset + n <= iovs[start].len
    ensures iovs[start].len <= |Addresses(iovs[start..])|
    ensures n <= |Rest(iovs, start, offset)| && Rest(iovs, start, offset)[..n] == Range(iovs[start].base + offset, n)
    ensures Rest(iovs, start, offset + n) == Rest(iovs, start, offset)[n..]
  {
    AddressesFrom(iovs, start);
  }

  // -------------------------------------------------------------------- memory along an address list

  predicate Mapped(m: Memory, addresses: seq<nat>)
  {
    forall i :: 0 <= i < |addresses| ==> addresses[i] in m
  }

  function Gather(m: Memory, addresses: seq<nat>): seq<Byte>
    requires Mapped(m, addresses)
  {
    seq(|addresses|, i requires 0 <= i < |addresses| => m[addresses[i]])
  }

  /** Stored in order: at a repeated address the last byte stays. */
  function Put(m: Memory, addresses: seq<nat>, data: seq<Byte>): Memory
    requires |addresses| == |data|
    decreases |data|
  {
    if data == [] then m else Put(m[addresses[0] := data[0]], addresses[1..], data[1..])
  }

  lemma {:induction false} PutSplit(m: Memory, addresses: seq<nat>, data: seq<Byte>, n: nat)
    requires |addresses| == |data| && n <= |data|
    ensures Put(m, addresses, data) == Put(Put(m, addresses[..n], data[..n]), addresses[n..], data[n..])
    decreases n
  {
    if n == 0 {
      assert addresses[0..] == addresses && data[0..] == data;
    } else {
      PutSplit(m[addresses[0] := data[0]], addresses[1..], data[1..], n - 1);
      assert addresses[..n][1..] == addresses[1..][..n - 1] && data[..n][1..] == data[1..][..n - 1];
      assert addresses[n..] == addresses[1..][n - 1..] && data[n..] == data[1..][n - 1..];
    }
  }

  lemma {:induction false} PutFrame(m: Memory, addresses: seq<nat>, data: seq<Byte>, a: nat)
    requires |addresses| == |data| && a !in addresses
    ensures a in Put(m, addresses, data) <==> a in m
    ensures a in m ==> Put(m, addresses, data)[a] == m[a]
    decreases |data|
  {
    if data != [] { PutFrame(m[addresses[0] := data[0]], addresses[1..], data[1..], a); }
  }

  lemma MappedAppend(m: Memory, a: seq<nat>, b: seq<nat>)
    ensures Mapped(m, a + b) <==> Mapped(m, a) && Mapped(m, b)
    ensures Mapped(m, a + b) ==> Gather(m, a + b) == Gather(m, a) + Gather(m, b)
  {
    var c := a + b;
    if Mapped(m, c) {
      forall i | 0 <= i < |a| ensures a[i] in m { assert c[i] in m; }
      forall i | 0 <= i < |b| ensures b[i] in m { assert c[|a| + i] in m; }
    }
  }

  /** A transfer of `done` addresses followed by one of `k` more is one of both together. */
  lemma GatherMore(m: Memory, all: seq<nat>, done: nat, k: nat)
    requires done + k <= |all|
    ensures Mapped(m, all[..done + k]) <==> Mapped(m, all[..done]) && Mapped(m, all[done..][..k])
    ensures Mapped(m, all[..done + k]) ==> Gather(m, all[..done + k]) == Gather(m, all[..done]) + Gather(m, all[done..][..k])
    ensures all[done..][k..] == all[done + k..]
  {
    assert all[..done + k] == all[..done] + all[done..][..k];
    MappedAppend(m, all[..done], all[done..][..k]);
  }

  /** `data` is what memory holds at the first addresses of `all`. */
  ghost predicate ReadSoFar(m: Memory, all: seq<nat>, data: seq<Byte>)
  {
    |data| <= |all| && Mapped(m, all[..|data|]) && data == Gather(m, all[..|data|])
  }

  lemma ReadMore(m: Memory, all: seq<nat>, data: seq<Byte>, piece: seq<Byte>)
    requires ReadSoFar(m, all, data) && ReadSoFar(m, all[|data|..], piece)
    ensures ReadSoFar(m, all, data + piece) && all[|data|..][|piece|..] == all[|data + piece|..]
  {
    GatherMore(m, all, |data|, |piece|);
  }

  lemma SliceFaults(m: Memory, all: seq<nat>, slice: seq<nat>, room: nat)
    requires |slice| <= |all| && slice == all[..|slice|] && |slice| <= room && !Mapped(m, slice)
    ensures !Mapped(m, all[..Min(room, |all|)])
  {
    GatherMore(m, all, |slice|, Min(room, |all|) - |slice|);
  }

  lemma ReadFaults(m: Memory, all: seq<nat>, done: nat, n: nat)
    requires done <= n && done <= |all| && !Mapped(m, all[done..][..Min(n - done, |all| - done)])
    ensures !Mapped(m, all[..Min(n, |all|)])
  {
    GatherMore(m, all, done, Min(n - done, |all| - done));
  }

  lemma {:induction false} PutKeys(m: Memory, addresses: seq<nat>, data: seq<Byte>)
    requires |addresses| == |data| && Mapped(m, addresses)
    ensures Put(m, addresses, data).Keys == m.Keys
    decreases |data|
  {
    if data != [] {
      assert addresses[0] in m;
      forall i | 0 <= i < |addresses[1..]| ensures addresses[1..][i] in m { assert addresses[i + 1] in m; }
      PutKeys(m[addresses[0] := data[0]], addresses[1..], data[1..]);
    }
  }

  /** `now` is `m` with the first `done` bytes of `data` stored at the first addresses of `all`. */
  ghost predicate WroteSoFar(m: Memory, now: Memory, all: seq<nat>, data: seq<Byte>, done: nat)
  {
    && done <= |data| && done <= |all| && Mapped(m, all[..done])
    && now == Put(m, all[..done], data[..done]) && now.Keys == m.Keys
  }

  lemma WroteSlice(m: Memory, all: seq<nat>, data: seq<Byte>, n: nat)
    requires n <= |data| && n <= |all| && Mapped(m, all[..n])
    ensures WroteSoFar(m, Put(m, all[..n], data[..n]), all, data, n)
    ensures n == 0 ==> Put(m, all[..n], data[..n]) == m
  {
    PutKeys(m, all[..n], data[..n]);
  }

  lemma WriteMore(m: Memory, now: Memory, later: Memory, all: seq<nat>, data: seq<Byte>, done: nat, n: nat)
    requires WroteSoFar(m, now, all, data, done) && WroteSoFar(now, later, all[done..], data[done..], n)
    ensures WroteSoFar(m, later, all, data, done + n) && all[done..][n..] == all[done + n..]
  {
    GatherMore(m, all, done, n);
    PutSplit(m, all[..done + n], data[..done + n], done);
    assert all[..done + n][..done] == all[..done] && data[..done + n][..done] == data[..done];
    assert all[..done + n][done..] == all[done..][..n] && data[..done + n][done..] == data[done..][..n];
  }

  lemma WriteFaults(m: Memory, now: Memory, all: seq<nat>, data: seq<Byte>, done: nat)
    requires WroteSoFar(m, now, all, data, done)
    requires !Mapped(now, all[done..][..Min(|data| - done, |all| - done)])
    ensures !Mapped(m, all[..Min(|data|, |all|)])
  {
    var rest := all[done..][..Min(|data| - done, |all| - done)];
    var i :| 0 <= i < |rest| && rest[i] !in now;
    assert rest[i] !in now.Keys;
    ReadFaults(m, all, done, |data|);
  }

  lemma SameFaults(m: Memory, now: Memory, slice: seq<nat>)
    requires m.Keys == now.Keys
    ensures Mapped(m, slice) <==> Mapped(now, slice)
  {
    forall i | 0 <= i < |slice| ensures slice[i] in m <==> slice[i] in now {
      assert slice[i] in m.Keys <==> slice[i] in now.Keys;
    }
  }

  ghost predicate Distinct(addresses: seq<nat>)
  {
    forall i, j :: 0 <= i < j < |addresses| ==> addresses[i] != addresses[j]
  }

  lemma {:induction false} PutAt(m: Memory, addresses: seq<nat>, data: seq<Byte>, i: nat)
    requires |addresses| == |data| && Distinct(addresses) && i < |data|
    ensures addresses[i] in Put(m, addresses, data) && Put(m, addresses, data)[addresses[i]] == data[i]
    decreases i
  {
    if i == 0 {
      PutFrame(m[addresses[0] := data[0]], addresses[1..], data[1..], addresses[0]);
    } else {
      PutAt(m[addresses[0] := data[0]], addresses[1..], data[1..], i - 1);
    }
  }

  ghost predicate ReadsBack(m: Memory, addresses: seq<nat>, data: seq<Byte>)
    requires |addresses| == |data|
  {
    Mapped(Put(m, addresses, data), addresses) && Gather(Put(m, addresses, data), addresses) == data
  }

  /** Scattering and gathering again is the identity on all data exactly when no address occurs twice. */
  lemma RoundTripIff(addresses: seq<nat>)
    ensures (forall m, data | |data| == |addresses| :: ReadsBack(m, addresses, data)) <==> Distinct(addresses)
  {
    if Distinct(addresses) {
      forall m: Memory, data: seq<Byte> | |data| == |addresses| ensures ReadsBack(m, addresses, data) {
        forall i | 0 <= i < |data|
          ensures addresses[i] in Put(m, addresses, data) && Put(m, addresses, data)[addresses[i]] == data[i]
        {
          PutAt(m, addresses, data, i);
        }
      }
    } else {
      var i, j :| 0 <= i < j < |addresses| && addresses[i] == addresses[j];
      var data := seq(|addresses|, k => if k == i then 1 else 0);
      var m: Memory := map[];
      assert data[i] != data[j];
      assert !ReadsBack(m, addresses, data);
    }
  }

  // --------------------------------------------------------------------------------- the vector

  datatype Option<T> = None | Some(value: T)

  lemma ModAdd(a: int, b: int)
    ensures (a % WORD + b) % WORD == (a + b) % WORD
  {
    assert a == a / WORD * WORD + a % WORD;
    ModShift(a % WORD + b, a / WORD);
  }

  lemma {:induction false} ModShift(x: int, k: int)
    ensures (x + k * WORD) % WORD == x % WORD
    decreases if k < 0 then -k else k
  {
    if k > 0 {
      ModShift(x, k - 1);
      ModStep(x + (k - 1) * WORD);
    } else if k < 0 {
      ModShift(x, k + 1);
      ModStep(x + k * WORD);
    }
  }

  lemma ModStep(x: int)
    ensures (x + WORD) % WORD == x % WORD
  {
  }

  lemma {:induction false} AddressesSnoc(iovs: seq<Segment>, last: Segment)
    requires Lengths(iovs) && last.len >= 0
    ensures Lengths(iovs + [last])
    ensures |Addresses(iovs + [last])| == |Addresses(iovs)| + last.len
  {
    if iovs == [] {
      assert iovs + [last] == [last];
      assert Addresses([last]) == Range(last.base, last.len) + Addresses([last][1..]);
    } else {
      assert (iovs + [last])[1..] == iovs[1..] + [last];
      AddressesSnoc(iovs[1..], last);
    }
  }

  datatype Vector = Vector(iovs: seq<Segment>, len: nat)

  /** `cells` is the array in user memory; a cell that cannot be read faults. The total is exact up to
      64-bit wrap-around. */
  method NewVector(cells: seq<Option<Segment>>) returns (r: Result<Vector>)
    ensures r.Ok? <==> |cells| <= IOV_MAX && forall i :: 0 <= i < |cells| ==> cells[i].Some? && cells[i].value.len >= 0
    ensures |cells| > IOV_MAX ==> r == InvalidInput
    ensures r.Ok? ==>
      && |r.value.iovs| == |cells| && (forall i :: 0 <= i < |cells| ==> r.value.iovs[i] == cells[i].value)
      && Lengths(r.value.iovs) && r.value.len == |Addresses(r.value.iovs)| % WORD
  {
    if |cells| > IOV_MAX { return InvalidInput; }
    var iovs: seq<Segment>, len := [], 0;
    for i := 0 to |cells|
      invariant |iovs| == i && forall j :: 0 <= j < i ==> cells[j].Some? && cells[j].value.len >= 0 && iovs[j] == cells[j].value
      invariant Lengths(iovs) && len == |Addresses(iovs)| % WORD
    {
      if cells[i].None? { return Fault; }
      if cells[i].value.len < 0 { return InvalidInput; }
      AddressesSnoc(iovs, cells[i].value);
      ModAdd(|Addresses(iovs)|, cells[i].value.len);
      len := (len + cells[i].value.len) % WORD;
      iovs := iovs + [cells[i].value];
    }
    r := Ok(Vector(iovs, len));
  }

  /** Three segments that are accepted, hold 2^64 bytes, and are taken to hold none. */
  method WrappedVector() returns (r: Result<Vector>)
    ensures r.Ok? && Lengths(r.value.iovs) && |Addresses(r.value.iovs)| == WORD && r.value.len == 0
  {
    var a, b, c := Segment(0, 0x7FFF_FFFF_FFFF_FFFF), Segment(0, 0x7FFF_FFFF_FFFF_FFFF), Segment(0, 2);
    var cells := [Some(a), Some(b), Some(c)];
    r := NewVector(cells);
    assert r.value.iovs == ([] + [a]) + [b] + [c];
    AddressesSnoc([], a);
    AddressesSnoc([] + [a], b);
    AddressesSnoc([] + [a] + [b], c);
  }

  // --------------------------------------------------------------------------------- the cursor

  function Min(a: nat, b: nat): nat { if a < b then a else b }

  class Cursor {
    const iovs: seq<Segment>
    var len: nat
    var start: nat
    var offset: nat

    ghost predicate InRange()
      reads this
    {
      Lengths(iovs) && start <= |iovs| && if start < |iovs| then offset <= iovs[start].len else offset == 0
    }

    /** The addresses still to be visited. */
    ghost function Ahead(): seq<nat>
      requires InRange()
      reads this
    {
      Rest(iovs, start, offset)
    }

    ghost predicate Valid()
      reads this
    {
      InRange() && len == |Ahead()| % WORD
    }

    constructor (v: Vector)
      requires Lengths(v.iovs) && v.len == |Addresses(v.iovs)| % WORD
      ensures Valid() && iovs == v.iovs && Ahead() == Addresses(iovs)
    {
      iovs, len, start, offset := v.iovs, v.len, 0, 0;
      new;
      assert iovs[0..] == iovs && Addresses(iovs)[0..] == Addresses(iovs);
    }

    /** `remaining`: exact exactly when what is left fits into 64 bits, and zero for a cursor with bytes
        left exactly when their number is a multiple of 2^64. */
    method Remaining() returns (r: nat)
      requires Valid()
      ensures r == |Ahead()| <==> |Ahead()| < WORD
      ensures r == 0 <==> |Ahead()| % WORD == 0
    {
      r := len;
    }

    method SkipEmpty()
      requires InRange()
      modifies this`start, this`offset
      ensures InRange() && Ahead() == old(Ahead())
      ensures start < |iovs| ==> offset < iovs[start].len
      ensures start == |iovs| ==> Ahead() == []
    {
      while start < |iovs|
        invariant InRange() && Ahead() == old(Ahead())
        decreases |iovs| - start
      {
        if iovs[start].len > offset { break; }
        SkipKeeps(iovs, start);
        offset := 0;
        start := start + 1;
      }
    }

    /** The next `n` bytes of the current segment are done. */
    method Advance(n: nat)
      requires Valid() && start < |iovs| && offset + n <= iovs[start].len
      modifies this`offset, this`len
      ensures Valid() && n <= |old(Ahead())| && Ahead() == old(Ahead())[n..]
    {
      PieceIsPrefix(iovs, start, offset, n);
      ModAdd(|Ahead()|, WORD - n);
      ModStep(|Ahead()| - n);
      offset := offset + n;
      len := (len + WORD - n) % WORD;
    }

    /** The part of the current segment that a transfer of `room` bytes touches next. */
    method NextSlice(room: nat) returns (slice: seq<nat>)
      requires Valid()
      modifies this`start, this`offset
      ensures Valid() && Ahead() == old(Ahead()) && |slice| <= room
      ensures |slice| <= |Ahead()| && slice == Ahead()[..|slice|]
      ensures slice == [] ==> room == 0 || Ahead() == []
      ensures slice != [] ==> start < |iovs| && offset + |slice| <= iovs[start].len
      ensures slice != [] ==> slice == Range(iovs[start].base + offset, Min(iovs[start].len - offset, room))
    {
      SkipEmpty();
      if start >= |iovs| { return []; }
      var k := Min(iovs[start].len - offset, room);
      PieceIsPrefix(iovs, start, offset, k);
      slice := Range(iovs[start].base + offset, k);
    }

    /** The cursor stands in a segment with an address that cannot be reached among the next `room`. */
    ghost predicate BadSegment(memory: Memory, room: nat)
      requires InRange()
      reads this
    {
      && start < |iovs| && offset < iovs[start].len
      && !Mapped(memory, Range(iovs[start].base + offset, Min(iovs[start].len - offset, room)))
    }

    /** A transfer of `n` bytes along `all` stopped after `done` of them, all of them reachable, at the
        segment that is not. */
    ghost predicate StoppedAt(memory: Memory, all: seq<nat>, done: nat, n: nat)
      reads this
    {
      && done <= n && done <= |all| && InRange() && Ahead() == all[done..]
      && Mapped(memory, all[..done]) && BadSegment(memory, n - done)
    }

    /** One turn of the loop in `read`: at most one segment; slices are read all or nothing. */
    method ReadPiece(memory: Memory, room: nat) returns (r: Result<seq<Byte>>)
      requires Valid()
      modifies this
      ensures Valid()
      ensures r.Ok? ==> ReadSoFar(memory, old(Ahead()), r.value) && Ahead() == old(Ahead())[|r.value|..]
      ensures r.Ok? ==> |r.value| <= room && (r.value == [] ==> room == 0 || old(Ahead()) == [])
      ensures !r.Ok? ==> r == Fault && !Mapped(memory, old(Ahead())[..Min(room, |old(Ahead())|)])
      ensures !r.Ok? ==> Ahead() == old(Ahead()) && BadSegment(memory, room)
    {
      var slice := NextSlice(room);
      if slice == [] { return Ok([]); }
      if !Mapped(memory, slice) {
        SliceFaults(memory, Ahead(), slice, room);
        return Fault;
      }
      Advance(|slice|);
      r := Ok(Gather(memory, slice));
    }

    /** Whatever the segments look like, a read delivers the bytes at the next addresses, as many as the
        buffer holds or as there are; it fails only if one of them cannot be read. */
    method Read(memory: Memory, n: nat) returns (r: Result<seq<Byte>>)
      requires Valid()
      modifies this
      ensures Valid()
      ensures r.Ok? <==> Mapped(memory, old(Ahead())[..Min(n, |old(Ahead())|)])
      ensures r.Ok? ==>
        var c := Min(n, |old(Ahead())|);
        r.value == Gather(memory, old(Ahead())[..c]) && Ahead() == old(Ahead())[c..]
      ensures !r.Ok? ==> exists done: nat :: StoppedAt(memory, old(Ahead()), done, n)
    {
      ghost var all := Ahead();
      var data: seq<Byte> := [];
      while true
        invariant Valid() && |data| <= n && ReadSoFar(memory, all, data) && Ahead() == all[|data|..]
        decreases n - |data|
      {
        var piece := ReadTurn(memory, all, n, data);
        if !piece.Ok? { return Fault; }
        if piece.value == [] { break; }
        data := data + piece.value;
      }
      r := Ok(data);
    }

    lemma ReadStopped(memory: Memory, all: seq<nat>, data: seq<Byte>, n: nat)
      requires InRange() && |data| <= n && ReadSoFar(memory, all, data) && Ahead() == all[|data|..]
      requires BadSegment(memory, n - |data|) && !Mapped(memory, all[|data|..][..Min(n - |data|, |all| - |data|)])
      ensures StoppedAt(memory, all, |data|, n) && !Mapped(memory, all[..Min(n, |all|)])
    {
      ReadFaults(memory, all, |data|, n);
    }

    /** One turn of that loop, with `data` delivered already. */
    method ReadTurn(memory: Memory, ghost all: seq<nat>, n: nat, data: seq<Byte>) returns (r: Result<seq<Byte>>)
      requires Valid() && |data| <= n && ReadSoFar(memory, all, data) && Ahead() == all[|data|..]
      modifies this
      ensures Valid()
      ensures r.Ok? ==> |data + r.value| <= n && ReadSoFar(memory, all, data + r.value) && Ahead() == all[|data + r.value|..]
      ensures r == Ok([]) ==> |data| == Min(n, |all|)
      ensures !r.Ok? ==> !Mapped(memory, all[..Min(n, |all|)]) && StoppedAt(memory, all, |data|, n)
    {
      r := ReadPiece(memory, n - |data|);
      if r.Ok? {
        ReadMore(memory, all, data, r.value);
      } else {
        ReadStopped(memory, all, data, n);
      }
    }

    method WritePiece(memory: Memory, data: seq<Byte>) returns (r: Result<nat>, now: Memory)
      requires Valid()
      modifies this
      ensures Valid()
      ensures r.Ok? ==> WroteSoFar(memory, now, old(Ahead()), data, r.value) && Ahead() == old(Ahead())[r.value..]
      ensures r.Ok? ==> r.value == 0 ==> data == [] || old(Ahead()) == []
      ensures !r.Ok? ==> r == Fault && now == memory && !Mapped(memory, old(Ahead())[..Min(|data|, |old(Ahead())|)])
      ensures !r.Ok? ==> Ahead() == old(Ahead()) && BadSegment(memory, |data|)
    {
      var slice := NextSlice(|data|);
      if slice == [] {
        WroteSlice(memory, Ahead(), data, 0);
        return Ok(0), memory;
      }
      if !Mapped(memory, slice) {
        SliceFaults(memory, Ahead(), slice, |data|);
        return Fault, memory;
      }
      WroteSlice(memory, Ahead(), data, |slice|);
      now := Put(memory, slice, data[..|slice|]);
      Advance(|slice|);
      r := Ok(|slice|);
    }

    /** A write stores at the next addresses as many bytes as it is given or as there is room for. */
    method Write(memory: Memory, data: seq<Byte>) returns (r: Result<nat>, now: Memory)
      requires Valid()
      modifies this
      ensures Valid()
      ensures r.Ok? <==> Mapped(memory, old(Ahead())[..Min(|data|, |old(Ahead())|)])
      ensures r.Ok? ==>
        && r.value == Min(|data|, |old(Ahead())|) && Ahead() == old(Ahead())[r.value..]
        && now == Put(memory, old(Ahead())[..r.value], data[..r.value])
      ensures now.Keys == memory.Keys
      ensures !r.Ok? ==> exists done: nat ::
        StoppedAt(memory, old(Ahead()), done, |data|) && now == Put(memory, old(Ahead())[..done], data[..done])
    {
      ghost var all := Ahead();
      var done := 0;
      now := memory;
      assert all[0..] == all;
      while true
        invariant 0 <= done <= |data| && Valid() && WroteSoFar(memory, now, all, data, done) && Ahead() == all[done..]
        decreases |data| - done
      {
        var piece;
        piece, now := WriteTurn(memory, all, now, data, done);
        if !piece.Ok? {
          assert StoppedAt(memory, all, done, |data|);
          return Fault, now;
        }
        if piece.value == 0 { break; }
        done := done + piece.value;
      }
      r := Ok(done);
    }

    lemma WriteStopped(memory: Memory, before: Memory, all: seq<nat>, data: seq<Byte>, done: nat)
      requires InRange() && WroteSoFar(memory, before, all, data, done) && Ahead() == all[done..]
      requires BadSegment(before, |data| - done) && !Mapped(before, all[done..][..Min(|data| - done, |all| - done)])
      ensures StoppedAt(memory, all, done, |data|) && !Mapped(memory, all[..Min(|data|, |all|)])
    {
      WriteFaults(memory, before, all, data, done);
      SameFaults(memory, before, Range(iovs[start].base + offset, Min(iovs[start].len - offset, |data| - done)));
    }

    /** One turn of the loop in `write`, after `done` bytes. */
    method WriteTurn(ghost memory: Memory, ghost all: seq<nat>, before: Memory, data: seq<Byte>, done: nat)
      returns (r: Result<nat>, now: Memory)
      requires Valid() && WroteSoFar(memory, before, all, data, done) && Ahead() == all[done..]
      modifies this
      ensures Valid() && now.Keys == memory.Keys
      ensures r.Ok? ==> WroteSoFar(memory, now, all, data, done + r.value) && Ahead() == all[done + r.value..]
      ensures r.Ok? && r.value == 0 ==> done == Min(|data|, |all|)
      ensures !r.Ok? ==> !Mapped(memory, all[..Min(|data|, |all|)])
      ensures !r.Ok? ==> now == before && StoppedAt(memory, all, done, |data|)
    {
      r, now := WritePiece(before, data[done..]);
      if r.Ok? {
        WriteMore(memory, before, now, all, data, done, r.value);
      } else {
        WriteStopped(memory, before, all, data, done);
      }
    }
  }

  // ------------------------------------------------------------------- transfers in any number of pieces

  ghost function Concat(chunks: seq<seq<Byte>>): seq<Byte>
  {
    if chunks == [] then [] else chunks[0] + Concat(chunks[1..])
  }

  ghost function Sum(sizes: seq<nat>): nat
  {
    if sizes == [] then 0 else sizes[0] + Sum(sizes[1..])
  }

  /** What a sequence of writes (as `Cursor.Write` does each of them) leaves in memory. */
  ghost function WriteAll(m: Memory, ahead: seq<nat>, chunks: seq<seq<Byte>>): Memory
    decreases |chunks|
  {
    if chunks == [] then m
    else
      var c := Min(|chunks[0]|, |ahead|);
      WriteAll(Put(m, ahead[..c], chunks[0][..c]), ahead[c..], chunks[1..])
  }

  /** What a sequence of reads returns, one after the other. */
  ghost function ReadAll(m: Memory, ahead: seq<nat>, sizes: seq<nat>): seq<Byte>
    requires Mapped(m, ahead)
    decreases |sizes|
  {
    if sizes == [] then []
    else
      var c := Min(sizes[0], |ahead|);
      Gather(m, ahead[..c]) + ReadAll(m, ahead[c..], sizes[1..])
  }

  lemma {:induction false} WriteAllIs(m: Memory, ahead: seq<nat>, chunks: seq<seq<Byte>>)
    ensures var c := Min(|Concat(chunks)|, |ahead|);
            WriteAll(m, ahead, chunks) == Put(m, ahead[..c], Concat(chunks)[..c])
    decreases |chunks|
  {
    if chunks != [] {
      var data, rest := Concat(chunks), Concat(chunks[1..]);
      var c, e := Min(|chunks[0]|, |ahead|), Min(|data|, |ahead|);
      WriteAllIs(Put(m, ahead[..c], chunks[0][..c]), ahead[c..], chunks[1..]);
      PutSplit(m, ahead[..e], data[..e], c);
      assert ahead[..e][..c] == ahead[..c] && data[..e][..c] == chunks[0][..c];
      var d := Min(|rest|, |ahead[c..]|);
      if c < |chunks[0]| {
        assert ahead[c..] == [] && d == 0 && e == c;
      }
      assert ahead[..e][c..] == ahead[c..][..d] && data[..e][c..] == rest[..d];
    }
  }

  lemma {:induction false} ReadAllIs(m: Memory, ahead: seq<nat>, sizes: seq<nat>)
    requires Mapped(m, ahead)
    ensures ReadAll(m, ahead, sizes) == Gather(m, ahead)[..Min(Sum(sizes), |ahead|)]
    decreases |sizes|
  {
    if sizes != [] {
      var c := Min(sizes[0], |ahead|);
      ReadAllIs(m, ahead[c..], sizes[1..]);
      assert Gather(m, ahead) == Gather(m, ahead[..c]) + Gather(m, ahead[c..]);
    }
  }

  /** Over disjoint segments, whatever is written in any pieces, be it less or more than they hold, is
      read back in any pieces. */
  lemma PiecesRoundTrip(m: Memory, addresses: seq<nat>, chunks: seq<seq<Byte>>, sizes: seq<nat>)
    requires Distinct(addresses)
    ensures var c := Min(|Concat(chunks)|, |addresses|);
            && Mapped(WriteAll(m, addresses, chunks), addresses[..c])
            && ReadAll(WriteAll(m, addresses, chunks), addresses[..c], sizes) ==
               Concat(chunks)[..c][..Min(Sum(sizes), c)]
  {
    var c := Min(|Concat(chunks)|, |addresses|);
    WriteAllIs(m, addresses, chunks);
    RoundTripIff(addresses[..c]);
    assert ReadsBack(m, addresses[..c], Concat(chunks)[..c]);
    ReadAllIs(WriteAll(m, addresses, chunks), addresses[..c], sizes);
  }
}
