/**
 Pipes (api/src/file/pipe.rs): reads, writes and resizing over a ring buffer whose contents are seen
 as two slices, because they may wrap around the end of the array.
 */
module Pipe {

  import IoVec

  const RING_BUFFER_INIT_SIZE := 65536
  const PAGE_SIZE := 4096
  const WORD := 0x1_0000_0000_0000_0000

  type Byte = bv8

  datatype Option<T> = None | Some(value: T)
  datatype Result<T> = Ok(value: T) | BadFileDescriptor | ResourceBusy | WouldBlock | BrokenPipe | Fault | Panic

  // ------------------------------------------------------------------------- rings as sequences

  function Wrap(b: seq<Byte>, i: nat): nat
    requires i < 2 * |b|
  {
    if i < |b| then i else i - |b|
  }

  /** The first occupied slice: up to the end of the array. */
  ghost function Left(b: seq<Byte>, r: nat, n: nat): seq<Byte>
    requires r < |b| && n <= |b|
  {
    if r + n <= |b| then b[r..r + n] else b[r..]
  }

  /** The second: what wrapped around to its beginning. */
  ghost function Right(b: seq<Byte>, r: nat, n: nat): seq<Byte>
    requires r < |b| && n <= |b|
  {
    if r + n <= |b| then [] else b[..r + n - |b|]
  }

  /** The bytes in the ring, oldest first. */
  ghost function Occupied(b: seq<Byte>, r: nat, n: nat): seq<Byte>
    requires r < |b| && n <= |b|
  {
    seq(n, i requires 0 <= i < n => b[Wrap(b, r + i)])
  }

  lemma OccupiedAt(b: seq<Byte>, r: nat, n: nat, i: nat)
    requires r < |b| && n <= |b| && i < n
    ensures Occupied(b, r, n)[i] == b[Wrap(b, r + i)]
  {
  }

  lemma OccupiedSlices(b: seq<Byte>, r: nat, n: nat)
    requires r < |b| && n <= |b|
    ensures Occupied(b, r, n) == Left(b, r, n) + Right(b, r, n)
  {
    var q, slices := Occupied(b, r, n), Left(b, r, n) + Right(b, r, n);
    assert |q| == |slices|;
    forall i | 0 <= i < |q| ensures q[i] == slices[i] { OccupiedAt(b, r, n, i); }
  }

  ghost function Overwritten(b: seq<Byte>, at: nat, data: seq<Byte>): seq<Byte>
    requires at + |data| <= |b|
  {
    b[..at] + data + b[at + |data|..]
  }

  /** Bytes stored from the write index on, as far as the array and the vacancy go, join the end. */
  lemma PushKeeps(b: seq<Byte>, r: nat, n: nat, data: seq<Byte>)
    requires r < |b| && n + |data| <= |b| && Wrap(b, r + n) + |data| <= |b|
    ensures Occupied(Overwritten(b, Wrap(b, r + n), data), r, n + |data|) == Occupied(b, r, n) + data
  {
    var c := Overwritten(b, Wrap(b, r + n), data);
    forall i | 0 <= i < n + |data| ensures c[Wrap(c, r + i)] == (Occupied(b, r, n) + data)[i] {
      if i < n { assert Occupied(b, r, n)[i] == b[Wrap(b, r + i)]; }
    }
  }

  lemma PopKeeps(b: seq<Byte>, r: nat, n: nat, k: nat)
    requires r < |b| && k <= n <= |b|
    ensures Wrap(b, r + k) < |b|
    ensures Occupied(b, Wrap(b, r + k), n - k) == Occupied(b, r, n)[k..]
  {
    var q, rest := Occupied(b, Wrap(b, r + k), n - k), Occupied(b, r, n)[k..];
    assert |q| == |rest|;
    forall i | 0 <= i < |q| ensures q[i] == rest[i] {
      OccupiedAt(b, r, n, k + i);
      OccupiedAt(b, Wrap(b, r + k), n - k, i);
    }
  }

  /** Storing into the vacancy leaves the contents alone until the write index moves. */
  lemma VacancyIsFree(b: seq<Byte>, r: nat, n: nat, data: seq<Byte>)
    requires r < |b| && n + |data| <= |b| && Wrap(b, r + n) + |data| <= |b|
    ensures Occupied(Overwritten(b, Wrap(b, r + n), data), r, n) == Occupied(b, r, n)
  {
    var c := Overwritten(b, Wrap(b, r + n), data);
    forall i | 0 <= i < n ensures c[Wrap(c, r + i)] == Occupied(b, r, n)[i] {
      OccupiedAt(b, r, n, i);
    }
  }

  lemma PrefixKeeps(b: seq<Byte>, r: nat, n: nat, m: nat)
    requires r < |b| && n <= m <= |b|
    ensures Occupied(b, r, n) == Occupied(b, r, m)[..n]
  {
  }

  lemma Joined(q: seq<Byte>, data: seq<Byte>, n: nat, m: nat)
    requires n + m <= |data|
    ensures q + data[..n] + data[n..n + m] == q + data[..n + m]
  {
  }

  /** The two vacant slices: from the write index to the end of the array, then the rest. */
  function VacantLeft(size: nat, r: nat, n: nat): nat
    requires r < size && n <= size
  {
    if r + n < size then size - (r + n) else size - n
  }

  function VacantRight(size: nat, r: nat, n: nat): nat
    requires r < size && n <= size
  {
    size - n - VacantLeft(size, r, n)
  }

  function Min(a: nat, b: nat): nat { if a < b then a else b }

  lemma Regroup(done: seq<Byte>, q: seq<Byte>, n: nat)
    requires n <= |q|
    ensures done + q[..n] + q[n..] == done + q
    ensures n == 0 ==> done + q[..n] == done
  {
  }

  /** Sizes are rounded up to whole pages, and to at least one; a size within a page of 2^64 wraps to
      zero. */
  function RoundUp(size: nat): nat
  {
    var pages := (size + PAGE_SIZE - 1) / PAGE_SIZE;
    (if pages == 0 then 1 else pages) * PAGE_SIZE % WORD
  }

  /** The only sizes that do not get the room they ask for are those that wrap. */
  lemma RoundUpIs(size: nat)
    requires size < WORD
    ensures RoundUp(size) == 0 <==> size > WORD - PAGE_SIZE
    ensures size <= WORD - PAGE_SIZE ==>
      size <= RoundUp(size) && 0 < RoundUp(size) && RoundUp(size) % PAGE_SIZE == 0 && (RoundUp(size) < size + PAGE_SIZE || size == 0)
  {
  }

  /** The other side of a copy takes or gives as much as there is. */
  predicate Ample(k: Option<nat>, n: nat) { k.Some? && k.value >= n }

  /** How many of `len` bytes an attempt to write takes into a ring of `size` with `n` bytes from `r` on: the
      vacancy up to the end of the array is filled first, and the rest only if that is full. */
  function Handed(size: nat, r: nat, n: nat, len: nat, first: Option<nat>, second: Option<nat>): (k: Option<nat>)
    requires r < size && n <= size
    ensures k.Some? ==> k.value <= len && k.value <= size - n
    ensures Ample(first, len) && Ample(second, len) ==> k == Some(Min(len, size - n))
  {
    var vacant := if r + n < size then size - r - n else size - n;
    if first.None? then None
    else if first.value < vacant || len < vacant then Some(Min(first.value, len))
    else if second.None? then None
    else Some(vacant + Min(Min(second.value, size - n - vacant), len - vacant))
  }

  /** One attempt of a blocked write, and what readers take before the next one. */
  datatype Round = Round(closed: bool, first: Option<nat>, second: Option<nat>, taken: nat)

  // ---------------------------------------------------------------------------------- the pipe

  class Pipe {
    var buffer: array<Byte>
    var start: nat
    var count: nat
    ghost var accepted: seq<Byte>
    ghost var delivered: seq<Byte>

    ghost predicate Ring()
      reads this, buffer
    {
      start < buffer.Length && count <= buffer.Length
    }

    ghost function Contents(): seq<Byte>
      requires Ring()
      reads this, buffer
    {
      Occupied(buffer[..], start, count)
    }

    /** A byte stream: what was delivered, followed by what is buffered, is what was accepted. */
    ghost predicate Valid()
      reads this, buffer
    {
      Ring() && delivered + Contents() == accepted
    }

    constructor ()
      ensures Valid() && accepted == [] && buffer.Length == RING_BUFFER_INIT_SIZE && fresh(buffer)
    {
      buffer := new Byte[RING_BUFFER_INIT_SIZE](_ => 0);
      start, count := 0, 0;
      accepted, delivered := [], [];
    }

    /** The two occupied slices, in the order in which they are copied out. */
    method AsSlices() returns (left: seq<Byte>, right: seq<Byte>)
      requires Ring()
      ensures left + right == Contents() && |left| == Min(count, buffer.Length - start)
    {
      OccupiedSlices(buffer[..], start, count);
      if start + count <= buffer.Length {
        left, right := buffer[start..start + count], [];
      } else {
        left, right := buffer[start..], buffer[..start + count - buffer.Length];
      }
    }

    /** One attempt to read. `first` and `second` are how much of each slice the destination takes, or
        nothing when copying fails; the second slice is offered only if the first was used up. */
    method ReadOnce(isRead: bool, full: bool, closed: bool, first: Option<nat>, second: Option<nat>)
      returns (r: Result<seq<Byte>>)
      requires Valid()
      modifies this`start, this`count, this`delivered
      ensures Valid() && accepted == old(accepted)
      ensures r.Ok? ==> r.value <= old(Contents()) && Contents() == old(Contents())[|r.value|..]
      ensures r.Ok? ==> delivered == old(delivered) + r.value
      ensures !r.Ok? ==> unchanged(this)
      ensures r == Ok([]) ==> full || closed
      ensures isRead && !full && Ample(first, old(count)) && Ample(second, old(count)) ==>
        count == 0 && r == if old(count) > 0 || closed then Ok(old(Contents())) else WouldBlock
      ensures !isRead ==> r == BadFileDescriptor
      ensures isRead && full ==> r == Ok([])
      ensures isRead && !full ==>
        var left := Min(old(count), buffer.Length - old(start));
        if first.None? || (first.value >= left && second.None?) then r == Fault
        else
          var n := if first.value < left then first.value else left + Min(second.value, old(count) - left);
          r == if n > 0 then Ok(old(Contents())[..n]) else if closed then Ok([]) else WouldBlock
    {
      if !isRead { return BadFileDescriptor; }
      if full { return Ok([]); }
      var left, right := AsSlices();
      if first.None? { return Fault; }
      var n := Min(first.value, |left|);
      if n >= |left| {
        if second.None? { return Fault; }
        n := n + Min(second.value, |right|);
      }
      AdvanceRead(n);
      assert n == |left + right| ==> (left + right)[..n] == left + right;
      if n > 0 {
        r := Ok((left + right)[..n]);
      } else {
        r := if closed then Ok([]) else WouldBlock;
      }
    }

    method Store(at: nat, data: seq<Byte>)
      requires at + |data| <= buffer.Length
      modifies buffer
      ensures buffer[..] == Overwritten(old(buffer[..]), at, data)
    {
      for i := 0 to |data|
        invariant forall k :: 0 <= k < buffer.Length ==>
          buffer[k] == if at <= k < at + i then data[k - at] else old(buffer[k])
      {
        buffer[at + i] := data[i];
      }
    }

    /** The bytes are in place; moving the write index past them accepts them. */
    method AdvanceWrite(ghost before: seq<Byte>, ghost data: seq<Byte>, n: nat)
      requires Ring() && |data| == n && count + n <= buffer.Length && delivered + before == accepted
      requires Occupied(buffer[..], start, count + n) == before + data
      modifies this`count, this`accepted
      ensures Valid() && Contents() == before + data && accepted == old(accepted) + data && count == old(count) + n
    {
      count := count + n;
      assert delivered + (before + data) == accepted + data;
      accepted := accepted + data;
    }

    /** One attempt to write `data`. `first` and `second` are how much the source hands over for each
        vacant slice, or nothing when reading it fails. */
    method WriteOnce(data: seq<Byte>, closed: bool, first: Option<nat>, second: Option<nat>) returns (r: Result<nat>)
      requires Valid()
      modifies this`count, this`accepted, buffer
      ensures Valid() && delivered == old(delivered)
      ensures r.Ok? ==> r.value <= |data| && Contents() == old(Contents()) + data[..r.value]
      ensures r.Ok? ==> accepted == old(accepted) + data[..r.value]
      ensures !r.Ok? ==> (r == BrokenPipe || r == Fault) && Contents() == old(Contents()) && accepted == old(accepted)
      ensures !closed && Ample(first, |data|) && Ample(second, |data|) ==> r == Ok(Min(|data|, buffer.Length - old(count)))
      ensures r == BrokenPipe <==> closed
      ensures !closed ==> (if r.Ok? then Some(r.value) else None) == Handed(buffer.Length, old(start), old(count), |data|, first, second)
    {
      if closed { return BrokenPipe; }
      ghost var q := Contents();
      var n := FillVacancy(data, first, second);
      if n.None? { return Fault; }
      AdvanceWrite(q, data[..n.value], n.value);
      r := Ok(n.value);
    }

    /** A part of a vacant slice, `used` bytes behind the write index. */
    method FillSlice(used: nat, data: seq<Byte>)
      requires Ring() && count + used + |data| <= buffer.Length
      requires Wrap(buffer[..], start + count + used) + |data| <= buffer.Length
      modifies buffer
      ensures Occupied(buffer[..], start, count + used + |data|) == old(Occupied(buffer[..], start, count + used)) + data
      ensures Contents() == old(Contents())
    {
      ghost var b := buffer[..];
      PushKeeps(b, start, count + used, data);
      VacancyIsFree(b, start, count + used, data);
      var at := start + count + used;
      Store(if at < buffer.Length then at else at - buffer.Length, data);
      PrefixKeeps(b, start, count, count + used);
      PrefixKeeps(buffer[..], start, count, count + used);
    }

    method FillVacancy(data: seq<Byte>, first: Option<nat>, second: Option<nat>) returns (r: Option<nat>)
      requires Ring()
      modifies buffer
      ensures Contents() == old(Contents())
      ensures r.Some? ==> r.value <= |data| && count + r.value <= buffer.Length
      ensures r.Some? ==> Occupied(buffer[..], start, count + r.value) == old(Contents()) + data[..r.value]
      ensures Ample(first, |data|) && Ample(second, |data|) ==> r == Some(Min(|data|, buffer.Length - count))
      ensures r == Handed(buffer.Length, start, count, |data|, first, second)
    {
      var vacant := VacantLeft(buffer.Length, start, count);
      if first.None? { return None; }
      var n := Min(Min(first.value, vacant), |data|);
      ghost var q := Contents();
      FillSlice(0, data[..n]);
      if n >= vacant {
        if second.None? { return None; }
        var m := Min(Min(second.value, VacantRight(buffer.Length, start, count)), |data| - n);
        FillSlice(n, data[n..n + m]);
        Joined(q, data, n, m);
        n := n + m;
      }
      r := Some(n);
    }

    method AdvanceRead(n: nat)
      requires Valid() && n <= count
      modifies this`start, this`count, this`delivered
      ensures Valid()
      ensures n <= |old(Contents())| && Contents() == old(Contents())[n..]
      ensures delivered == old(delivered) + old(Contents())[..n]
      ensures n == 0 ==> unchanged(this)
    {
      PopKeeps(buffer[..], start, count, n);
      ghost var q := Contents();
      Regroup(delivered, q, n);
      start, count := if start + n < buffer.Length then start + n else start + n - buffer.Length, count - n;
      delivered := delivered + q[..n];
    }

    /** `push_slice` of the ring: as much as fits. */
    method PushSlice(data: seq<Byte>)
      requires Ring() && count + |data| <= buffer.Length
      modifies this`count, buffer
      ensures Ring() && count == old(count) + |data| && Contents() == old(Contents()) + data
    {
      var n := FillVacancy(data, Some(|data|), Some(|data|));
      assert data[..|data|] == data;
      count := count + n.value;
    }

    /** Resizing keeps the contents, and is refused exactly when they would not fit. A size that rounds
        to nothing is refused like any other that is too small; with an empty pipe it asks for a ring
        without room, which there is not. */
    method Resize(size: nat) returns (r: Result<()>)
      requires Valid() && size < WORD
      modifies this`buffer, this`start, this`count
      ensures Valid() && Contents() == old(Contents()) && accepted == old(accepted) && delivered == old(delivered)
      ensures r == if RoundUp(size) < old(count) then ResourceBusy else if RoundUp(size) == 0 then Panic else Ok(())
      ensures buffer.Length == if r.Ok? then RoundUp(size) else old(buffer.Length)
      ensures buffer != old(buffer) ==> fresh(buffer)
    {
      var rounded := RoundUp(size);
      if rounded == buffer.Length { return Ok(()); }
      if rounded < count { return ResourceBusy; }
      if rounded == 0 { return Panic; }
      var left, right := AsSlices();
      buffer := new Byte[rounded](_ => 0);
      start, count := 0, 0;
      PushSlice(left);
      PushSlice(right);
      r := Ok(());
    }

    /** The head of `write` when the source is a user vector: nothing is written, and success reported,
        exactly when the number of bytes to write is a multiple of 2^64. */
    method BeginWrite(isWrite: bool, src: IoVec.Cursor) returns (r: Option<Result<nat>>)
      requires src.Valid()
      ensures r == if !isWrite then Some(BadFileDescriptor)
                   else if |src.Ahead()| % IoVec.WORD == 0 then Some(Ok(0)) else None
    {
      if !isWrite { return Some(BadFileDescriptor); }
      var size := src.Remaining();
      r := if size == 0 then Some(Ok(0)) else None;
    }

    /** An attempt of a write of `data` of which `total` bytes have been accepted, after `before`. */
    method Attempt(ghost before: seq<Byte>, data: seq<Byte>, total: nat, round: Round) returns (r: Result<nat>)
      requires Valid() && total <= |data| && accepted == before + data[..total]
      modifies this`count, this`accepted, buffer
      ensures Valid() && delivered == old(delivered)
      ensures r.Ok? ==> total + r.value <= |data| && accepted == before + data[..total + r.value]
      ensures !r.Ok? ==> (r == BrokenPipe || r == Fault) && accepted == old(accepted)
      ensures r == BrokenPipe <==> round.closed
      ensures !round.closed && Ample(round.first, |data|) && Ample(round.second, |data|) ==>
        r == Ok(Min(|data| - total, buffer.Length - old(count)))
    {
      r := WriteOnce(data[total..], round.closed, round.first, round.second);
      if r.Ok? { Joined(before, data, total, r.value); }
    }

    /** A whole write: attempts until everything is accepted, with readers in between; a non-blocking
        write stops after one attempt. `total` is what has been accepted, in order, whatever the outcome. */
    method Write(isWrite: bool, data: seq<Byte>, nonblocking: bool, rounds: seq<Round>)
      returns (r: Result<nat>, total: nat)
      requires Valid()
      modifies this, buffer
      ensures Valid() && buffer == old(buffer) && total <= |data|
      ensures accepted == old(accepted) + data[..total] && old(delivered) <= delivered
      ensures r.Ok? ==> r.value == total && (total == |data| || nonblocking)
      ensures r == BadFileDescriptor <==> !isWrite
      ensures isWrite && data != [] && |rounds| > 0 && rounds[0].closed ==> r == BrokenPipe && total == 0
      ensures isWrite && data != [] && nonblocking && |rounds| > 0 && !rounds[0].closed
              && Ample(rounds[0].first, |data|) && Ample(rounds[0].second, |data|) ==>
        total == Min(|data|, buffer.Length - old(count)) && r == if total > 0 then Ok(total) else WouldBlock
    {
      total := 0;
      if !isWrite { return BadFileDescriptor, 0; }
      if data == [] { return Ok(0), 0; }
      for i := 0 to |rounds|
        invariant Valid() && buffer == old(buffer) && total < |data|
        invariant accepted == old(accepted) + data[..total] && old(delivered) <= delivered
        invariant i > 0 ==> !rounds[0].closed && !nonblocking
        invariant i == 0 ==> total == 0 && count == old(count)
      {
        var attempt := Attempt(old(accepted), data, total, rounds[i]);
        if !attempt.Ok? { return attempt, total; }
        total := total + attempt.value;
        if attempt.value > 0 && (total == |data| || nonblocking) { return Ok(total), total; }
        if nonblocking { return WouldBlock, total; }
        AdvanceRead(Min(rounds[i].taken, count));
      }
      r := WouldBlock;
    }
  }

  /** Such a vector exists: all its 2^64 bytes are dropped, and the write reports success. */
  method WholeWriteSkipped(pipe: Pipe) returns (src: IoVec.Cursor, r: Option<Result<nat>>)
    ensures src.Valid() && |src.Ahead()| == IoVec.WORD && r == Some(Ok(0))
  {
    var v := IoVec.WrappedVector();
    src := new IoVec.Cursor(v.value);
    r := pipe.BeginWrite(true, src);
  }
}
