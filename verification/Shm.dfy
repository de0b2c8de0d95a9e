/**
 System V shared memory: the bidirectional map and the manager (core/src/shm.rs), driven by shmget,
 shmat, shmdt, IPC_RMID and process exit (api/src/syscall/ipc/shm.rs).

 The same attachments are recorded twice: per process in the manager (segment id <-> address) and
 per segment in its own table (process -> address range).
 */
module Shm {

  datatype Option<T> = None | Some(value: T)

  // ------------------------------------------------------------------------------- BiBTreeMap

  datatype BiMap<!K, !V> = BiMap(forward: map<K, V>, reverse: map<V, K>) {

    /** The two maps are inverse to each other. */
    ghost predicate Valid()
    {
      && (forall k :: k in forward ==> forward[k] in reverse && reverse[forward[k]] == k)
      && (forall v :: v in reverse ==> reverse[v] in forward && forward[reverse[v]] == v)
    }

    /** `insert`: both maps are overwritten, and whoever was displaced is removed from the other. */
    function Insert(key: K, value: V): BiMap<K, V>
    {
      var forward1 := if value in reverse then forward - {reverse[value]} else forward;
      var reverse1 := reverse[value := key];
      var reverse2 := if key in forward1 then reverse1 - {forward1[key]} else reverse1;
      BiMap(forward1[key := value], reverse2)
    }

    function RemoveByKey(key: K): BiMap<K, V>
    {
      if key in forward then BiMap(forward - {key}, reverse - {forward[key]}) else this
    }

    function RemoveByValue(value: V): BiMap<K, V>
    {
      if value in reverse then BiMap(forward - {reverse[value]}, reverse - {value}) else this
    }
  }

  /** The partial injective map that the pair stands for, with one association forced in. */
  ghost function Override<K, V>(m: map<K, V>, key: K, value: V): map<K, V>
  {
    (map k | k in m && k != key && m[k] != value :: m[k])[key := value]
  }

  /** Whatever collides (the key, the value, both, or the same pair again), insertion keeps the maps
      inverse and implements `Override`. */
  lemma InsertRefines<K, V>(b: BiMap<K, V>, key: K, value: V)
    requires b.Valid()
    ensures b.Insert(key, value).Valid()
    ensures b.Insert(key, value).forward == Override(b.forward, key, value)
  {
    var c := b.Insert(key, value);
    assert c.forward == Override(b.forward, key, value);
    forall v | v in c.reverse ensures c.reverse[v] in c.forward && c.forward[c.reverse[v]] == v {}
  }

  lemma RemoveRefines<K, V>(b: BiMap<K, V>, key: K, value: V)
    requires b.Valid()
    ensures b.RemoveByKey(key).Valid() && b.RemoveByKey(key).forward == b.forward - {key}
    ensures b.RemoveByValue(value).Valid()
    ensures b.RemoveByValue(value).forward == map k | k in b.forward && b.forward[k] != value :: b.forward[k]
  {
    assert b.RemoveByValue(value).forward == map k | k in b.forward && b.forward[k] != value :: b.forward[k];
    assert b.RemoveByKey(key).forward == b.forward - {key};
  }

  /** After an insertion the pair can be looked up both ways, and removing it by either end gives back
      the map without its key and value. */
  lemma InsertThenRemove<K, V>(b: BiMap<K, V>, key: K, value: V)
    requires b.Valid() && key !in b.forward && value !in b.reverse
    ensures b.Insert(key, value).RemoveByKey(key) == b
    ensures b.Insert(key, value).RemoveByValue(value) == b
  {
    var c := b.Insert(key, value);
    assert c.forward - {key} == b.forward && c.reverse - {value} == b.reverse;
  }

  /** The map as the object it is: inverse at all times, with the injective map as its meaning. */
  class BiBTreeMap<K(==), V(==)> {
    var forward: map<K, V>
    var reverse: map<V, K>

    ghost predicate Valid()
      reads this
    {
      BiMap(forward, reverse).Valid()
    }

    constructor ()
      ensures Valid() && forward == map[]
    {
      forward, reverse := map[], map[];
    }

    method Insert(key: K, value: V)
      requires Valid()
      modifies this
      ensures Valid() && forward == Override(old(forward), key, value)
    {
      InsertRefines(BiMap(forward, reverse), key, value);
      if value in reverse {
        forward := forward - {reverse[value]};
      }
      reverse := reverse[value := key];
      if key in forward {
        reverse := reverse - {forward[key]};
      }
      forward := forward[key := value];
    }

    method RemoveByKey(key: K) returns (r: Option<V>)
      requires Valid()
      modifies this
      ensures Valid() && forward == old(forward) - {key}
      ensures r == if key in old(forward) then Some(old(forward)[key]) else None
    {
      if key !in forward {
        assert forward - {key} == forward;
        return None;
      }
      r := Some(forward[key]);
      reverse := reverse - {forward[key]};
      forward := forward - {key};
    }

    method RemoveByValue(value: V) returns (r: Option<K>)
      requires Valid()
      modifies this
      ensures Valid() && forward == map k | k in old(forward) && old(forward)[k] != value :: old(forward)[k]
      ensures r.Some? <==> exists k :: k in old(forward) && old(forward)[k] == value
      ensures r.Some? ==> r.value in old(forward) && old(forward)[r.value] == value
    {
      ghost var was := forward;
      if value !in reverse {
        assert forward == map k | k in was && was[k] != value :: was[k];
        return None;
      }
      r := Some(reverse[value]);
      forward := forward - {reverse[value]};
      reverse := reverse - {value};
      assert forward == map k | k in was && was[k] != value :: was[k];
    }
  }

  // -------------------------------------------------------------------------------- the state

  const PAGE_SIZE := 4096
  const WORD := 0x1_0000_0000_0000_0000
  const IPC_PRIVATE := 0
  const NATTCH_MODULUS := 65536

  type Pid = nat
  type ShmId = nat
  type Addr = nat

  datatype Range = Range(start: Addr, end: Addr)

  /** `ranges` is the segment's own table of attached processes; `nattch` is a 16-bit counter. */
  datatype Segment = Segment(size: nat, flags: nat, pageNum: nat, ranges: map<Pid, Range>,
                             rmid: bool, nattch: nat)

  datatype Shm = Shm(keys: BiMap<int, ShmId>, segments: map<ShmId, Segment>,
                     pids: map<Pid, BiMap<ShmId, Addr>>, nextId: nat)

  /** Rounding up is done in 64 bits, so that a size within a page of the top wraps to no page. */
  function PageCount(size: nat): nat { (size + PAGE_SIZE - 1) % WORD / PAGE_SIZE }

  function NoMap(): BiMap<ShmId, Addr> { BiMap(map[], map[]) }

  function MapOf(s: Shm, pid: Pid): BiMap<ShmId, Addr>
  {
    if pid in s.pids then s.pids[pid] else NoMap()
  }

  /** What the manager says: process `pid` has segment `x` at address `a`. */
  ghost predicate Mapped(s: Shm, pid: Pid, x: ShmId, a: Addr)
  {
    x in MapOf(s, pid).forward && MapOf(s, pid).forward[x] == a
  }

  /** What the segment itself says. */
  ghost predicate Recorded(s: Shm, pid: Pid, x: ShmId, a: Addr)
  {
    x in s.segments && pid in s.segments[x].ranges && s.segments[x].ranges[pid].start == a
  }

  ghost predicate Consistent(s: Shm)
  {
    forall pid: Pid, x: ShmId, a: Addr :: Mapped(s, pid, x, a) <==> Recorded(s, pid, x, a)
  }

  ghost predicate SegmentOk(g: Segment)
  {
    && g.pageNum == PageCount(g.size)
    && g.nattch == |g.ranges| % NATTCH_MODULUS
    && (forall p :: p in g.ranges ==> g.ranges[p].end == g.ranges[p].start + g.pageNum * PAGE_SIZE)
  }

  ghost predicate PidMapsOk(s: Shm)
  {
    forall p :: p in s.pids ==> s.pids[p].Valid() && s.pids[p].forward.Keys != {}
  }

  ghost predicate KeysOk(s: Shm)
  {
    s.keys.Valid() && (forall x :: x in s.keys.reverse ==> x in s.segments)
  }

  ghost predicate SegmentsOk(s: Shm)
  {
    forall x :: x in s.segments ==> x < s.nextId && SegmentOk(s.segments[x])
  }

  ghost predicate Inv(s: Shm)
  {
    Consistent(s) && PidMapsOk(s) && KeysOk(s) && SegmentsOk(s)
  }

  // ----------------------------------------------------------------------------- the operations

  datatype Action =
    | Get(key: int, size: nat, flags: nat)
    | At(pid: Pid, id: ShmId, start: Addr, mapped: bool)
    | Dt(pid: Pid, address: Addr)
    | Remove(id: ShmId)
    | Exit(pid: Pid)

  /** shmget creates a segment exactly when the key is private or unknown. */
  predicate Creates(s: Shm, key: int, size: nat)
  {
    PageCount(size) > 0 && (key == IPC_PRIVATE || key !in s.keys.forward)
  }

  function Created(s: Shm, key: int, size: nat, flags: nat): Shm
  {
    Shm(s.keys.Insert(key, s.nextId),
        s.segments[s.nextId := Segment(size, flags, PageCount(size), map[], false, 0)],
        s.pids, s.nextId + 1)
  }

  function Placed(s: Shm, pid: Pid, x: ShmId, a: Addr): Shm
  {
    s.(pids := s.pids[pid := MapOf(s, pid).Insert(x, a)])
  }

  function Joined(g: Segment, pid: Pid, a: Addr): Segment
  {
    g.(ranges := g.ranges[pid := Range(a, a + g.pageNum * PAGE_SIZE)],
       nattch := (g.nattch + 1) % NATTCH_MODULUS)
  }

  function Left(g: Segment, pid: Pid): Segment
  {
    g.(ranges := g.ranges - {pid}, nattch := (g.nattch + NATTCH_MODULUS - 1) % NATTCH_MODULUS)
  }

  /** shmat: the manager's map is written before the area is mapped, the segment's table after. */
  function Attached(s: Shm, pid: Pid, x: ShmId, a: Addr, mapped: bool): Shm
    requires x in s.segments
  {
    var s1 := Placed(s, pid, x, a);
    if mapped then s1.(segments := s.segments[x := Joined(s.segments[x], pid, a)]) else s1
  }

  /** Segment `x` is marked for removal and `pid` is its only user. */
  ghost predicate LastUser(s: Shm, pid: Pid, x: ShmId)
  {
    x in s.segments && s.segments[x].rmid && s.segments[x].ranges.Keys == {pid}
  }

  ghost function Dying(s: Shm, pid: Pid, xs: set<ShmId>): set<ShmId>
  {
    set x | x in xs && LastUser(s, pid, x)
  }

  ghost function KeysWithout(keys: BiMap<int, ShmId>, dead: set<ShmId>): BiMap<int, ShmId>
  {
    BiMap(map k | k in keys.forward && keys.forward[k] !in dead :: keys.forward[k], keys.reverse - dead)
  }

  ghost function SegmentsWithout(segments: map<ShmId, Segment>, pid: Pid, xs: set<ShmId>): map<ShmId, Segment>
  {
    map x | x in segments :: if x in xs then Left(segments[x], pid) else segments[x]
  }

  /** Every segment in `xs` loses `pid`; the marked ones that nobody else uses disappear. */
  ghost function Detached(s: Shm, pid: Pid, xs: set<ShmId>): Shm
  {
    var dead := Dying(s, pid, xs);
    Shm(KeysWithout(s.keys, dead), SegmentsWithout(s.segments, pid, xs) - dead, s.pids, s.nextId)
  }

  /** `remove_shmaddr`. */
  function Unplaced(pids: map<Pid, BiMap<ShmId, Addr>>, pid: Pid, a: Addr): map<Pid, BiMap<ShmId, Addr>>
  {
    if pid !in pids then pids
    else
      var m := pids[pid].RemoveByValue(a);
      if m.forward == map[] then pids - {pid} else pids[pid := m]
  }

  predicate CanAttach(s: Shm, pid: Pid, x: ShmId)
  {
    x in s.segments && pid !in s.segments[x].ranges
  }

  ghost function Next(s: Shm, a: Action): Shm
  {
    match a
    case Get(key, size, flags) => if Creates(s, key, size) then Created(s, key, size, flags) else s
    case At(pid, x, start, mapped) => if CanAttach(s, pid, x) then Attached(s, pid, x, start, mapped) else s
    case Dt(pid, address) =>
      if address in MapOf(s, pid).reverse
      then Detached(s, pid, {MapOf(s, pid).reverse[address]}).(pids := Unplaced(s.pids, pid, address)) else s
    case Remove(x) => if x in s.segments then s.(segments := s.segments[x := s.segments[x].(rmid := true)]) else s
    case Exit(pid) => Detached(s, pid, MapOf(s, pid).forward.Keys).(pids := s.pids - {pid})
  }

  // ---------------------------------------------------------------- every operation keeps the maps

  /** The address is not one the process already has a segment at. */
  predicate FreshAddress(s: Shm, pid: Pid, a: Addr)
  {
    a !in MapOf(s, pid).reverse
  }

  lemma JoinedOk(g: Segment, pid: Pid, a: Addr)
    requires SegmentOk(g) && pid !in g.ranges
    ensures SegmentOk(Joined(g, pid, a))
  {
    assert |g.ranges[pid := Range(a, a + g.pageNum * PAGE_SIZE)]| == |g.ranges| + 1;
  }

  lemma LeftOk(g: Segment, pid: Pid)
    requires SegmentOk(g) && pid in g.ranges
    ensures SegmentOk(Left(g, pid))
  {
    assert |g.ranges - {pid}| == |g.ranges| - 1 by {
      assert g.ranges == (g.ranges - {pid})[pid := g.ranges[pid]];
    }
  }

  lemma ConsistentAt(s: Shm, pid: Pid, x: ShmId, a: Addr)
    requires Consistent(s)
    ensures Mapped(s, pid, x, a) <==> Recorded(s, pid, x, a)
  {
  }

  lemma CreatedInv(s: Shm, key: int, size: nat, flags: nat)
    requires Inv(s)
    ensures Inv(Created(s, key, size, flags))
  {
    CreatedConsistent(s, key, size, flags);
    CreatedKeys(s, key, size, flags);
  }

  lemma CreatedKeys(s: Shm, key: int, size: nat, flags: nat)
    requires KeysOk(s)
    ensures KeysOk(Created(s, key, size, flags))
  {
    InsertRefines(s.keys, key, s.nextId);
  }

  lemma CreatedConsistent(s: Shm, key: int, size: nat, flags: nat)
    requires Consistent(s) && s.nextId !in s.segments
    ensures Consistent(Created(s, key, size, flags))
  {
    var t := Created(s, key, size, flags);
    forall pid: Pid, x: ShmId, a: Addr ensures Mapped(t, pid, x, a) <==> Recorded(t, pid, x, a) {
      ConsistentAt(s, pid, x, a);
    }
  }

  // ------------------------------------------------------------------------------------- shmat

  lemma MapOfValid(s: Shm, pid: Pid)
    requires PidMapsOk(s)
    ensures MapOf(s, pid).Valid()
  {
  }

  lemma PlacedMap(s: Shm, pid: Pid, x: ShmId, a: Addr)
    requires PidMapsOk(s)
    ensures PidMapsOk(Placed(s, pid, x, a))
    ensures MapOf(Placed(s, pid, x, a), pid).forward == Override(MapOf(s, pid).forward, x, a)
  {
    MapOfValid(s, pid);
    InsertRefines(MapOf(s, pid), x, a);
    assert x in MapOf(Placed(s, pid, x, a), pid).forward.Keys;
  }

  lemma AttachedRest(s: Shm, pid: Pid, x: ShmId, a: Addr, mapped: bool)
    requires PidMapsOk(s) && KeysOk(s) && SegmentsOk(s) && CanAttach(s, pid, x)
    ensures PidMapsOk(Attached(s, pid, x, a, mapped))
    ensures KeysOk(Attached(s, pid, x, a, mapped)) && SegmentsOk(Attached(s, pid, x, a, mapped))
  {
    PlacedMap(s, pid, x, a);
    JoinedOk(s.segments[x], pid, a);
  }

  lemma AttachedMaps(s: Shm, pid: Pid, x: ShmId, a: Addr, q: Pid, y: ShmId, b: Addr)
    requires PidMapsOk(s) && x in s.segments && FreshAddress(s, pid, a) && x !in MapOf(s, pid).forward
    ensures Mapped(Attached(s, pid, x, a, true), q, y, b) <==>
            Mapped(s, q, y, b) || (q == pid && y == x && b == a)
  {
    PlacedMap(s, pid, x, a);
    MapOfValid(s, pid);
  }

  lemma AttachedRecords(s: Shm, pid: Pid, x: ShmId, a: Addr, q: Pid, y: ShmId, b: Addr)
    requires CanAttach(s, pid, x)
    ensures Recorded(Attached(s, pid, x, a, true), q, y, b) <==>
            Recorded(s, q, y, b) || (q == pid && y == x && b == a)
  {
  }

  lemma NotMappedYet(s: Shm, pid: Pid, x: ShmId)
    requires Consistent(s) && CanAttach(s, pid, x)
    ensures x !in MapOf(s, pid).forward
  {
    if x in MapOf(s, pid).forward { ConsistentAt(s, pid, x, MapOf(s, pid).forward[x]); }
  }

  lemma AttachedConsistent(s: Shm, pid: Pid, x: ShmId, a: Addr)
    requires Consistent(s) && PidMapsOk(s) && CanAttach(s, pid, x) && FreshAddress(s, pid, a)
    ensures Consistent(Attached(s, pid, x, a, true))
  {
    var t := Attached(s, pid, x, a, true);
    NotMappedYet(s, pid, x);
    forall q: Pid, y: ShmId, b: Addr ensures Mapped(t, q, y, b) <==> Recorded(t, q, y, b) {
      ConsistentAt(s, q, y, b);
      AttachedMaps(s, pid, x, a, q, y, b);
      AttachedRecords(s, pid, x, a, q, y, b);
    }
  }

  /** Attaching keeps the two records equal exactly when the area was mapped and the process did not
      already have another segment at that address. */
  lemma AttachIff(s: Shm, pid: Pid, x: ShmId, a: Addr, mapped: bool)
    requires Inv(s) && CanAttach(s, pid, x)
    ensures Inv(Attached(s, pid, x, a, mapped)) <==> mapped && FreshAddress(s, pid, a)
  {
    var t := Attached(s, pid, x, a, mapped);
    AttachedRest(s, pid, x, a, mapped);
    if !mapped {
      PlacedMap(s, pid, x, a);
      assert Mapped(t, pid, x, a) && !Recorded(t, pid, x, a);
    } else if FreshAddress(s, pid, a) {
      AttachedConsistent(s, pid, x, a);
    } else {
      Displaced(s, pid, x, a);
    }
  }

  /** At a reused address the older segment keeps its record of a process that no longer maps it. */
  lemma Displaced(s: Shm, pid: Pid, x: ShmId, a: Addr)
    requires Consistent(s) && PidMapsOk(s) && CanAttach(s, pid, x) && !FreshAddress(s, pid, a)
    ensures !Consistent(Attached(s, pid, x, a, true))
  {
    var t := Attached(s, pid, x, a, true);
    var y := MapOf(s, pid).reverse[a];
    MapOfValid(s, pid);
    PlacedMap(s, pid, x, a);
    ConsistentAt(s, pid, y, a);
    assert Recorded(t, pid, y, a) && !Mapped(t, pid, y, a);
  }

  // ---------------------------------------------------------------------------- detaching

  lemma DetachedKeys(s: Shm, pid: Pid, xs: set<ShmId>)
    requires KeysOk(s)
    ensures KeysOk(Detached(s, pid, xs))
  {
  }

  lemma DetachedSegments(s: Shm, pid: Pid, xs: set<ShmId>)
    requires SegmentsOk(s) && (forall x :: x in xs && x in s.segments ==> pid in s.segments[x].ranges)
    ensures SegmentsOk(Detached(s, pid, xs))
  {
    var t := Detached(s, pid, xs);
    forall x | x in t.segments ensures x < t.nextId && SegmentOk(t.segments[x]) {
      if x in xs { LeftOk(s.segments[x], pid); }
    }
  }

  /** Afterwards the segments in `xs` record everybody they did but `pid`, and the others are untouched. */
  lemma DetachedRecords(s: Shm, pid: Pid, xs: set<ShmId>, q: Pid, x: ShmId, a: Addr)
    ensures Recorded(Detached(s, pid, xs), q, x, a) <==> Recorded(s, q, x, a) && !(q == pid && x in xs)
  {
    if x in xs && LastUser(s, pid, x) && Recorded(s, q, x, a) {
      assert q in s.segments[x].ranges.Keys;
    }
  }

  lemma UnplacedMap(s: Shm, pid: Pid, a: Addr)
    requires PidMapsOk(s)
    ensures PidMapsOk(s.(pids := Unplaced(s.pids, pid, a)))
    ensures forall q: Pid, x: ShmId, b: Addr :: Mapped(s.(pids := Unplaced(s.pids, pid, a)), q, x, b) <==>
                                        Mapped(s, q, x, b) && !(q == pid && b == a)
  {
    if pid in s.pids { RemoveRefines(s.pids[pid], 0, a); }
  }

  lemma DtInv(s: Shm, pid: Pid, a: Addr)
    requires Inv(s) && a in MapOf(s, pid).reverse
    ensures Inv(Next(s, Dt(pid, a)))
  {
    var x := MapOf(s, pid).reverse[a];
    var t := Next(s, Dt(pid, a));
    MapOfValid(s, pid);
    ConsistentAt(s, pid, x, a);
    DetachedKeys(s, pid, {x});
    DetachedSegments(s, pid, {x});
    UnplacedMap(s, pid, a);
    DtConsistent(s, pid, a);
  }

  lemma DtConsistent(s: Shm, pid: Pid, a: Addr)
    requires Consistent(s) && PidMapsOk(s) && a in MapOf(s, pid).reverse
    ensures Consistent(Next(s, Dt(pid, a)))
  {
    var x := MapOf(s, pid).reverse[a];
    var t := Next(s, Dt(pid, a));
    MapOfValid(s, pid);
    UnplacedMap(s, pid, a);
    forall q: Pid, y: ShmId, b: Addr ensures Mapped(t, q, y, b) <==> Recorded(t, q, y, b) {
      ConsistentAt(s, q, y, b);
      DetachedRecords(s, pid, {x}, q, y, b);
      assert Mapped(t, q, y, b) <==> Mapped(s.(pids := Unplaced(s.pids, pid, a)), q, y, b);
      assert Recorded(t, q, y, b) <==> Recorded(Detached(s, pid, {x}), q, y, b);
    }
  }

  lemma ExitInv(s: Shm, pid: Pid)
    requires Inv(s)
    ensures Inv(Next(s, Exit(pid)))
  {
    var xs := MapOf(s, pid).forward.Keys;
    forall x | x in xs && x in s.segments ensures pid in s.segments[x].ranges {
      ConsistentAt(s, pid, x, MapOf(s, pid).forward[x]);
    }
    DetachedKeys(s, pid, xs);
    DetachedSegments(s, pid, xs);
    ExitConsistent(s, pid);
  }

  lemma ExitConsistent(s: Shm, pid: Pid)
    requires Consistent(s)
    ensures Consistent(Next(s, Exit(pid)))
  {
    var xs := MapOf(s, pid).forward.Keys;
    var t := Next(s, Exit(pid));
    forall q: Pid, y: ShmId, b: Addr ensures Mapped(t, q, y, b) <==> Recorded(t, q, y, b) {
      ConsistentAt(s, q, y, b);
      DetachedRecords(s, pid, xs, q, y, b);
      assert Recorded(t, q, y, b) <==> Recorded(Detached(s, pid, xs), q, y, b);
    }
  }

  lemma RemoveInv(s: Shm, x: ShmId)
    requires Inv(s)
    ensures Inv(Next(s, Remove(x)))
  {
    var t := Next(s, Remove(x));
    forall q: Pid, y: ShmId, b: Addr ensures Mapped(t, q, y, b) <==> Recorded(t, q, y, b) {
      ConsistentAt(s, q, y, b);
    }
  }

  // -------------------------------------------------------------------------------- whole runs

  /** The only operation that asks anything of its surroundings is shmat: the area must be free in the
      address space, and the mapping must succeed (`AttachIff` says this is exactly what it takes). */
  predicate Enabled(s: Shm, a: Action)
  {
    a.At? ==> a.mapped && FreshAddress(s, a.pid, a.start)
  }

  lemma StepInv(s: Shm, a: Action)
    requires Inv(s) && Enabled(s, a)
    ensures Inv(Next(s, a))
  {
    match a
    case Get(key, size, flags) => CreatedInv(s, key, size, flags);
    case At(pid, x, start, mapped) => if CanAttach(s, pid, x) { AttachIff(s, pid, x, start, mapped); }
    case Dt(pid, address) => if address in MapOf(s, pid).reverse { DtInv(s, pid, address); }
    case Remove(x) => RemoveInv(s, x);
    case Exit(pid) => ExitInv(s, pid);
  }

  ghost predicate IsRun(states: seq<Shm>, actions: seq<Action>)
  {
    && |states| == |actions| + 1
    && (forall i :: 0 <= i < |actions| ==> Enabled(states[i], actions[i]) && states[i + 1] == Next(states[i], actions[i]))
  }

  lemma {:induction false} RunInv(states: seq<Shm>, actions: seq<Action>, i: nat)
    requires IsRun(states, actions) && Inv(states[0]) && i < |states|
    ensures Inv(states[i])
  {
    if i > 0 {
      RunInv(states, actions, i - 1);
      StepInv(states[i - 1], actions[i - 1]);
    }
  }

  const INIT := Shm(BiMap(map[], map[]), map[], map[], 0)

  lemma InitInv()
    ensures Inv(INIT)
  {
  }

  /** It happens: if the program has unmapped the area behind the kernel's back, the same address is found
      again for the second segment; and if mapping fails, even the first attachment is recorded on one
      side only. */
  lemma AttachFails()
    ensures var s1 := Next(INIT, Get(1, 4096, 0));
            var s2 := Next(s1, Get(2, 4096, 0));
            var s3 := Next(s2, At(7, 0, 4096, true));
            && IsRun([INIT, s1, s2, s3], [Get(1, 4096, 0), Get(2, 4096, 0), At(7, 0, 4096, true)])
            && !Inv(Next(s3, At(7, 1, 4096, true))) && !Inv(Next(s2, At(7, 0, 4096, false)))
  {
    var s1 := Next(INIT, Get(1, 4096, 0));
    var s2 := Next(s1, Get(2, 4096, 0));
    var s3 := Next(s2, At(7, 0, 4096, true));
    var actions := [Get(1, 4096, 0), Get(2, 4096, 0), At(7, 0, 4096, true)];
    InitInv();
    ExampleStates(s1, s2, s3);
    assert IsRun([INIT, s1, s2, s3], actions);
    RunInv([INIT, s1, s2, s3], actions, 2);
    RunInv([INIT, s1, s2, s3], actions, 3);
    AttachIff(s3, 7, 1, 4096, true);
    AttachIff(s2, 7, 0, 4096, false);
  }

  lemma ExampleStates(s1: Shm, s2: Shm, s3: Shm)
    requires s1 == Next(INIT, Get(1, 4096, 0)) && s2 == Next(s1, Get(2, 4096, 0)) && s3 == Next(s2, At(7, 0, 4096, true))
    ensures CanAttach(s2, 7, 0) && CanAttach(s3, 7, 1)
    ensures FreshAddress(s2, 7, 4096) && !FreshAddress(s3, 7, 4096)
  {
    assert PageCount(4096) == 1;
  }

  /** The step takes `pid` away from segment `x`. */
  ghost predicate Detaches(s: Shm, a: Action, pid: Pid, x: ShmId)
  {
    || (a == Exit(pid) && x in MapOf(s, pid).forward)
    || (a.Dt? && a.pid == pid && a.address in MapOf(s, pid).reverse && MapOf(s, pid).reverse[a.address] == x)
  }

  /** A segment disappears exactly when the last process using it detaches from it (or exits) after
      it has been marked with IPC_RMID; in particular never while some process has it mapped. */
  lemma GoneIff(s: Shm, a: Action, x: ShmId)
    requires Inv(s) && Enabled(s, a) && x in s.segments
    ensures x !in Next(s, a).segments <==> exists pid: Pid :: LastUser(s, pid, x) && Detaches(s, a, pid, x)
  {
    if a.Exit? {
      assert x !in Next(s, a).segments <==> LastUser(s, a.pid, x) && Detaches(s, a, a.pid, x);
    } else if a.Dt? {
      assert x !in Next(s, a).segments <==> LastUser(s, a.pid, x) && Detaches(s, a, a.pid, x);
    }
  }

  /** One step takes a segment from a process only if the step is that process's own. */
  lemma StepKeepsAttachment(s: Shm, a: Action, pid: Pid, x: ShmId, at: Addr)
    requires Inv(s) && Enabled(s, a) && Mapped(s, pid, x, at) && !Detaches(s, a, pid, x)
    ensures Mapped(Next(s, a), pid, x, at) && Recorded(Next(s, a), pid, x, at)
  {
    StepInv(s, a);
    ConsistentAt(s, pid, x, at);
    ConsistentAt(Next(s, a), pid, x, at);
    StepKeepsRecord(s, a, pid, x, at);
  }

  lemma StepKeepsRecord(s: Shm, a: Action, pid: Pid, x: ShmId, at: Addr)
    requires Enabled(s, a) && Recorded(s, pid, x, at) && Mapped(s, pid, x, at) && !Detaches(s, a, pid, x)
    requires SegmentsOk(s)
    ensures Recorded(Next(s, a), pid, x, at)
  {
    match a
    case Get(_, _, _) =>
    case At(q, y, start, _) =>
      if CanAttach(s, q, y) { AttachedRecords(s, q, y, start, pid, x, at); }
    case Dt(q, address) =>
      if address in MapOf(s, q).reverse {
        DetachedRecords(s, q, {MapOf(s, q).reverse[address]}, pid, x, at);
      }
    case Remove(_) =>
    case Exit(q) =>
      DetachedRecords(s, q, MapOf(s, q).forward.Keys, pid, x, at);
  }

  /** Once attached, a process keeps its segment, at the same address, whatever anybody else does (and
      even if the segment is marked for removal) until it detaches from it or exits. */
  lemma {:induction false} AttachmentLasts(states: seq<Shm>, actions: seq<Action>, i: nat, j: nat,
                                           pid: Pid, x: ShmId, at: Addr)
    requires IsRun(states, actions) && Inv(states[0]) && i <= j < |states|
    requires Mapped(states[i], pid, x, at)
    requires forall k :: i <= k < j ==> !Detaches(states[k], actions[k], pid, x)
    ensures Mapped(states[j], pid, x, at) && Recorded(states[j], pid, x, at)
  {
    if j == i {
      RunInv(states, actions, i);
      ConsistentAt(states[i], pid, x, at);
    } else {
      AttachmentLasts(states, actions, i, j - 1, pid, x, at);
      RunInv(states, actions, j - 1);
      StepKeepsAttachment(states[j - 1], actions[j - 1], pid, x, at);
    }
  }

  // ------------------------------------------------------------ attachments and marks, step by step

  /** Who has which segment where after a step: whoever had it and did not detach, and whoever attaches. */
  lemma MappedIff(s: Shm, a: Action, pid: Pid, x: ShmId, at: Addr)
    requires Inv(s) && Enabled(s, a)
    ensures Mapped(Next(s, a), pid, x, at) <==>
            || (Mapped(s, pid, x, at) && !Detaches(s, a, pid, x))
            || (a == At(pid, x, at, true) && CanAttach(s, pid, x))
  {
    match a
    case Get(_, _, _) =>
    case At(q, y, start, _) =>
      if CanAttach(s, q, y) {
        NotMappedYet(s, q, y);
        AttachedMaps(s, q, y, start, pid, x, at);
      }
    case Dt(q, address) =>
      if address in MapOf(s, q).reverse {
        MapOfValid(s, q);
        UnplacedMap(s, q, address);
        assert MapOf(Next(s, a), pid) == MapOf(s.(pids := Unplaced(s.pids, q, address)), pid);
      }
    case Remove(_) =>
    case Exit(_) =>
  }

  /** IPC_RMID marks its segment and nothing else does; a mark is never taken back, and a new segment has
      none. */
  lemma MarkIff(s: Shm, a: Action, x: ShmId)
    requires Inv(s) && x in Next(s, a).segments
    ensures Next(s, a).segments[x].rmid <==> x in s.segments && (s.segments[x].rmid || a == Remove(x))
  {
  }

  lemma NewIds(s: Shm, a: Action, x: ShmId)
    requires x in Next(s, a).segments
    ensures s.nextId <= Next(s, a).nextId && (x in s.segments || x == s.nextId)
  {
  }

  lemma {:induction false} IdsGrow(states: seq<Shm>, actions: seq<Action>, i: nat, j: nat)
    requires IsRun(states, actions) && i <= j < |states|
    ensures states[i].nextId <= states[j].nextId
  {
    if i < j { IdsGrow(states, actions, i, j - 1); }
  }

  /** IPC_RMID has been called for segment `x` in the first `i` steps, while it existed. */
  ghost predicate RemovedBefore(states: seq<Shm>, actions: seq<Action>, i: nat, x: ShmId)
    requires |states| == |actions| + 1 && i <= |actions|
  {
    exists k :: 0 <= k < i && actions[k] == Remove(x) && x in states[k].segments
  }

  /** In every run, a segment is marked exactly when IPC_RMID was called for it. */
  lemma {:induction false} MarkedIff(states: seq<Shm>, actions: seq<Action>, i: nat, x: ShmId)
    requires IsRun(states, actions) && states[0] == INIT && i < |states| && x in states[i].segments
    ensures states[i].segments[x].rmid <==> RemovedBefore(states, actions, i, x)
  {
    if i > 0 {
      var s, a := states[i - 1], actions[i - 1];
      InitInv();
      RunInv(states, actions, i - 1);
      MarkIff(s, a, x);
      NewIds(s, a, x);
      if x in s.segments {
        MarkedIff(states, actions, i - 1, x);
      } else {
        forall k | 0 <= k < i ensures x !in states[k].segments {
          RunInv(states, actions, k);
          IdsGrow(states, actions, k, i - 1);
        }
      }
    }
  }

  /** So in every run a segment goes exactly when IPC_RMID was called for it and its only user lets it go. */
  lemma RemovedIff(states: seq<Shm>, actions: seq<Action>, i: nat, x: ShmId)
    requires IsRun(states, actions) && states[0] == INIT && i < |actions| && x in states[i].segments
    ensures x !in states[i + 1].segments <==>
            && RemovedBefore(states, actions, i, x)
            && exists pid: Pid :: states[i].segments[x].ranges.Keys == {pid} && Detaches(states[i], actions[i], pid, x)
  {
    InitInv();
    RunInv(states, actions, i);
    GoneIff(states[i], actions[i], x);
    MarkedIff(states, actions, i, x);
  }

  /** The pages hold the size and no page is idle, unless rounding up goes past 64 bits: then there are
      none, and shmget refuses the size. */
  lemma PagesFit(size: nat)
    requires size < WORD
    ensures if size <= WORD - PAGE_SIZE then size <= PageCount(size) * PAGE_SIZE < size + PAGE_SIZE
            else PageCount(size) == 0
  {
    var up := size + PAGE_SIZE - 1;
    if up < WORD {
      assert up % WORD == up;
    } else {
      assert up % WORD == up - WORD;
    }
  }

  // ------------------------------------------------------------------------------- the manager

  lemma DetachedMore(s: Shm, pid: Pid, done: set<ShmId>, x: ShmId)
    requires x !in done
    ensures Detached(Detached(s, pid, done), pid, {x}) == Detached(s, pid, done + {x})
  {
    var t := Detached(s, pid, done);
    assert LastUser(t, pid, x) == LastUser(s, pid, x);
    assert Dying(s, pid, done + {x}) == Dying(s, pid, done) + Dying(t, pid, {x});
    assert KeysWithout(t.keys, Dying(t, pid, {x})).forward == KeysWithout(s.keys, Dying(s, pid, done + {x})).forward;
    assert KeysWithout(t.keys, Dying(t, pid, {x})).reverse == KeysWithout(s.keys, Dying(s, pid, done + {x})).reverse;
    assert Detached(t, pid, {x}).segments == Detached(s, pid, done + {x}).segments;
  }

  /** What detaching from a single segment comes to. */
  lemma DetachedOne(s: Shm, pid: Pid, x: ShmId)
    requires x in s.segments && pid in s.segments[x].ranges && s.keys.Valid()
    ensures Detached(s, pid, {x}) ==
            var g := Left(s.segments[x], pid);
            if g.rmid && |g.ranges| == 0
            then s.(keys := s.keys.RemoveByValue(x), segments := s.segments[x := g] - {x})
            else s.(segments := s.segments[x := g])
  {
    LastUserIff(s, pid, x);
    KeysWithoutOne(s.keys, x);
    assert SegmentsWithout(s.segments, pid, {x}) == s.segments[x := Left(s.segments[x], pid)];
    if LastUser(s, pid, x) {
      assert Dying(s, pid, {x}) == {x};
    } else {
      assert Dying(s, pid, {x}) == {};
      assert s.segments[x := Left(s.segments[x], pid)] - {} == s.segments[x := Left(s.segments[x], pid)];
    }
  }

  lemma KeysWithoutOne(keys: BiMap<int, ShmId>, x: ShmId)
    requires keys.Valid()
    ensures KeysWithout(keys, {}) == keys && KeysWithout(keys, {x}) == keys.RemoveByValue(x)
  {
    RemoveRefines(keys, 0, x);
    assert keys.reverse - {} == keys.reverse && keys.reverse - {x} == keys.RemoveByValue(x).reverse;
    assert KeysWithout(keys, {}).forward == keys.forward;
    assert KeysWithout(keys, {x}).forward == keys.RemoveByValue(x).forward;
  }

  lemma LastUserIff(s: Shm, pid: Pid, x: ShmId)
    requires x in s.segments && pid in s.segments[x].ranges
    ensures LastUser(s, pid, x) <==> s.segments[x].rmid && |s.segments[x].ranges - {pid}| == 0
  {
    var rest := s.segments[x].ranges - {pid};
    assert s.segments[x].ranges.Keys == rest.Keys + {pid};
    assert |rest| == |rest.Keys|;
    if s.segments[x].ranges.Keys == {pid} { assert rest.Keys == {}; }
  }

  lemma DetachedFrame(s: Shm, pid: Pid, xs: set<ShmId>, pids: map<Pid, BiMap<ShmId, Addr>>)
    ensures Detached(s.(pids := pids), pid, xs) == Detached(s, pid, xs).(pids := pids)
  {
    assert Dying(s.(pids := pids), pid, xs) == Dying(s, pid, xs);
  }

  lemma StillThere(s: Shm, pid: Pid, done: set<ShmId>, x: ShmId)
    requires Consistent(s) && x in MapOf(s, pid).forward && x !in done
    ensures x in Detached(s, pid, done).segments && pid in Detached(s, pid, done).segments[x].ranges
  {
    ConsistentAt(s, pid, x, MapOf(s, pid).forward[x]);
  }

  datatype Outcome = Ok(value: nat) | InvalidInput | NoMemory | Panic

  class ShmManager {
    var keys: BiMap<int, ShmId>
    var segments: map<ShmId, Segment>
    var pids: map<Pid, BiMap<ShmId, Addr>>
    var nextId: nat

    ghost function View(): Shm
      reads this
    {
      Shm(keys, segments, pids, nextId)
    }

    constructor ()
      ensures View() == INIT && Inv(View())
    {
      keys := BiMap(map[], map[]);
      segments, pids, nextId := map[], map[], 0;
    }

    method Get(key: int, size: nat, flags: nat) returns (r: Outcome)
      modifies this
      ensures View() == Next(old(View()), Action.Get(key, size, flags))
      ensures Inv(old(View())) ==> Inv(View())
      ensures PageCount(size) == 0 ==> r == InvalidInput
      ensures Creates(old(View()), key, size) ==> r == Ok(old(nextId))
      ensures Inv(old(View())) && PageCount(size) > 0 && key != IPC_PRIVATE && key in old(keys).forward ==>
        var g := old(segments)[old(keys).forward[key]];
        r == if size == g.size && flags == g.flags then Ok(old(keys).forward[key]) else InvalidInput
      ensures r.Ok? && Inv(old(View())) ==>
        && r.value in segments && segments[r.value].size == size && segments[r.value].flags == flags
        && (key != IPC_PRIVATE ==> key in keys.forward && keys.forward[key] == r.value)
    {
      ghost var was := View();
      if PageCount(size) == 0 { return InvalidInput; }
      if key != IPC_PRIVATE && key in keys.forward {
        var x := keys.forward[key];
        if x !in segments { return InvalidInput; }
        if size != segments[x].size || flags != segments[x].flags { return InvalidInput; }
        return Ok(x);
      }
      r := Ok(nextId);
      keys := keys.Insert(key, nextId);
      segments := segments[nextId := Segment(size, flags, PageCount(size), map[], false, 0)];
      nextId := nextId + 1;
      if Inv(was) { CreatedInv(was, key, size, flags); }
    }

    /** `found` is what the search for a free area returns, `mapped` whether mapping it succeeds. */
    method At(pid: Pid, x: ShmId, found: Option<Addr>, mapped: bool) returns (r: Outcome)
      modifies this
      ensures r == Panic <==> !CanAttach(old(View()), pid, x)
      ensures r.Ok? <==> CanAttach(old(View()), pid, x) && found.Some? && mapped
      ensures View() == if found.None? then old(View())
                        else Next(old(View()), Action.At(pid, x, found.value, mapped))
      ensures r.Ok? ==> r.value == found.value && Mapped(View(), pid, x, r.value) && Recorded(View(), pid, x, r.value)
      ensures Inv(old(View())) && CanAttach(old(View()), pid, x) && found.Some? ==>
        (Inv(View()) <==> mapped && FreshAddress(old(View()), pid, found.value))
    {
      ghost var was := View();
      if x !in segments { return Panic; }
      if pid in segments[x].ranges { return Panic; }
      if found.None? { return NoMemory; }
      if Inv(was) { AttachIff(was, pid, x, found.value, mapped); }
      var before := if pid in pids then pids[pid] else NoMap();
      pids := pids[pid := before.Insert(x, found.value)];
      if !mapped { return NoMemory; }
      segments := segments[x := Joined(segments[x], pid, found.value)];
      r := Ok(found.value);
    }

    method DetachProcess(pid: Pid, x: ShmId)
      requires x in segments && pid in segments[x].ranges && keys.Valid()
      modifies this`segments, this`keys
      ensures View() == Detached(old(View()), pid, {x})
    {
      DetachedOne(View(), pid, x);
      segments := segments[x := Left(segments[x], pid)];
      if segments[x].rmid && |segments[x].ranges| == 0 {
        keys := keys.RemoveByValue(x);
        segments := segments - {x};
      }
    }

    method Dt(pid: Pid, address: Addr, unmapped: bool) returns (r: Outcome)
      requires Inv(View())
      modifies this
      ensures r.Ok? <==> address in MapOf(old(View()), pid).reverse && unmapped
      ensures View() == if r.Ok? then Next(old(View()), Action.Dt(pid, address)) else old(View())
      ensures Inv(View())
    {
      if pid !in pids || address !in pids[pid].reverse { return InvalidInput; }
      var x := pids[pid].reverse[address];
      if !unmapped { return InvalidInput; }
      ConsistentAt(View(), pid, x, address);
      DtInv(View(), pid, address);
      DetachedFrame(View(), pid, {x}, Unplaced(pids, pid, address));
      pids := Unplaced(pids, pid, address);
      DetachProcess(pid, x);
      r := Ok(0);
    }

    method MarkRemoved(x: ShmId) returns (r: Outcome)
      requires Inv(View())
      modifies this`segments
      ensures r.Ok? <==> x in old(segments)
      ensures View() == Next(old(View()), Remove(x)) && Inv(View())
    {
      if x !in segments { return InvalidInput; }
      RemoveInv(View(), x);
      segments := segments[x := segments[x].(rmid := true)];
      r := Ok(0);
    }

    method DetachAll(pid: Pid, xs: set<ShmId>)
      requires Consistent(View()) && KeysOk(View()) && xs <= MapOf(View(), pid).forward.Keys
      modifies this`segments, this`keys
      ensures View() == Detached(old(View()), pid, xs)
    {
      ghost var was := View();
      ghost var done: set<ShmId> := {};
      var todo := xs;
      DetachedNone(was, pid);
      while todo != {}
        invariant done !! todo && done + todo == xs
        invariant View() == Detached(was, pid, done)
        decreases |todo|
      {
        var x :| x in todo;
        todo := todo - {x};
        StillThere(was, pid, done, x);
        DetachedKeys(was, pid, done);
        DetachedMore(was, pid, done, x);
        DetachProcess(pid, x);
        done := done + {x};
      }
    }

    method ClearProcess(pid: Pid)
      requires Inv(View())
      modifies this
      ensures View() == Next(old(View()), Exit(pid)) && Inv(View())
    {
      ghost var target := Next(View(), Exit(pid));
      ExitInv(View(), pid);
      var xs := if pid in pids then pids[pid].forward.Keys else {};
      assert xs == MapOf(View(), pid).forward.Keys;
      DetachAll(pid, xs);
      pids := pids - {pid};
      assert View() == target;
    }
  }

  lemma DetachedNone(s: Shm, pid: Pid)
    ensures Detached(s, pid, {}) == s
  {
    assert Dying(s, pid, {}) == {};
    assert SegmentsWithout(s.segments, pid, {}) - {} == s.segments;
    assert KeysWithout(s.keys, {}).forward == s.keys.forward && s.keys.reverse - {} == s.keys.reverse;
  }
}
