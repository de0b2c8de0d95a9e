/**
 The inode lifecycle of the in-memory filesystem (api/src/vfs/tmp.rs).

 Inodes live in a slab. A directory entry is an `InodeRef`: it names its inode by slab slot and
 accounts for one link. A `MemoryNode` holds the inode itself. An inode leaves the slab when its
 link count is zero and `Arc::strong_count` shows nobody but the slab and the caller.

 `RefFs` is an independent, count-free filesystem in which `Collect` keeps exactly the inodes that
 some entry names or some node holds. Every operation of `MemoryFs` is proved to do to the counted
 filesystem what its naive counterpart does to this one.
 */
module Tmpfs {

  /** Slab index; the inode number is `slot + 1`. */
  type Slot = nat

  /** One live `MemoryNode`. */
  type NodeId = nat

  /** `id` is the identity of the `Arc` allocation: a slot that is freed and reused holds another. */
  datatype Inode = Inode(id: nat, nlink: nat, isDir: bool)

  /** The `Arc<Inode>` of a node: the allocation, and the slot its inode number names. */
  datatype Handle = Handle(slot: Slot, id: nat)

  /** A place in a directory's entry map. */
  datatype Place = Place(dir: Slot, name: string)

  /** The slab, the `InodeRef`s in all entry maps (each map keyed by its directory), the nodes. */
  datatype Fs = Fs(slab: map<Slot, Inode>, refs: map<Place, Slot>, nodes: map<NodeId, Handle>)

  // ------------------------------------------------------------------ the count-free filesystem

  datatype RefFs = RefFs(inodes: map<Slot, bool>, refs: map<Place, Slot>, nodes: map<NodeId, Slot>) {

    ghost predicate Named(k: Slot) { exists p :: p in refs && refs[p] == k }

    ghost predicate Held(k: Slot) { exists m :: m in nodes && nodes[m] == k }

    /** Garbage collection: keep exactly what an entry names or a node holds. */
    ghost function Collect(): RefFs
    {
      this.(inodes := map k | k in inodes && (Named(k) || Held(k)) :: inodes[k])
    }

    /** The entries of directory `d`. */
    ghost function EntriesOf(d: Slot): map<Place, Slot> { map p | p in refs && p.dir == d :: refs[p] }

    ghost function AddNode(m: NodeId, k: Slot): RefFs { this.(nodes := nodes[m := k]) }

    /** A new inode with its `.` and `..`, its name at `p`, and the node the caller gets back. */
    ghost function Create(p: Place, isDir: bool, k: Slot, m: NodeId): RefFs
    {
      var dots := if isDir then refs[Place(k, ".") := k][Place(k, "..") := p.dir] else refs;
      RefFs(inodes[k := isDir], dots[p := k], nodes[m := k])
    }

    ghost function Link(p: Place, k: Slot, m: NodeId): RefFs
    {
      this.(refs := refs[p := k]).AddNode(m, k)
    }

    /** Dropping a node empties its directory, forgets the node, and collects. */
    ghost function DropNode(m: NodeId): RefFs
      requires m in nodes
    {
      RefFs(inodes, refs - EntriesOf(nodes[m]).Keys, nodes - {m}).Collect()
    }

    /** What a node that is created and dropped again leaves behind: an emptied directory. */
    ghost function Wipe(k: Slot): RefFs { this.(refs := refs - EntriesOf(k).Keys).Collect() }

    ghost function Remove(p: Place): RefFs { this.(refs := refs - {p}).Collect() }

    /** Moves the entry at `p` to `q`; an entry displaced from `q` is forgotten. */
    ghost function Move(p: Place, q: Place): RefFs
      requires p in refs
    {
      this.(refs := (refs - {p})[q := refs[p]]).Collect()
    }
  }

  /** Forgets counts and identities. */
  ghost function Abs(s: Fs): RefFs
  {
    RefFs(map k | k in s.slab :: s.slab[k].isDir, s.refs, map m | m in s.nodes :: s.nodes[m].slot)
  }

  // ------------------------------------------------------------------------- the counted filesystem

  /** The places among `refs` that name slot `k`. */
  ghost function RefsTo(refs: map<Place, Slot>, k: Slot): set<Place>
  {
    set p | p in refs && refs[p] == k
  }

  function Holders(nodes: map<NodeId, Handle>, k: Slot): set<NodeId>
  {
    set m | m in nodes && nodes[m].slot == k
  }

  ghost predicate IsHeld(nodes: map<NodeId, Handle>, k: Slot)
  {
    exists m :: m in nodes && nodes[m].slot == k
  }

  lemma HeldIffHolders(nodes: map<NodeId, Handle>, k: Slot)
    ensures IsHeld(nodes, k) <==> |Holders(nodes, k)| > 0
  {
    if |Holders(nodes, k)| > 0 {
      var m :| m in Holders(nodes, k);
      assert m in nodes && nodes[m].slot == k;
    }
    if m :| m in nodes && nodes[m].slot == k {
      assert m in Holders(nodes, k);
    }
  }

  /** Every `InodeRef` names an occupied slot, and every node the very inode its slot holds.
      `loose` are the references already taken out of a map but not dropped yet. */
  ghost predicate NoDangling(s: Fs, loose: map<Place, Slot>)
  {
    && (forall p :: p in s.refs ==> s.refs[p] in s.slab)
    && (forall p :: p in loose ==> loose[p] in s.slab)
    && (forall m :: m in s.nodes ==> s.nodes[m].slot in s.slab && s.slab[s.nodes[m].slot].id == s.nodes[m].id)
  }

  ghost predicate CountsOk(s: Fs, loose: map<Place, Slot>)
  {
    forall k {:trigger RefsTo(s.refs, k)} :: k in s.slab ==> s.slab[k].nlink == |RefsTo(s.refs, k)| + |RefsTo(loose, k)|
  }

  /** Only a directory that some node holds has entries: entries are only added through a node, and
      dropping any node empties the directory. This is what keeps reclamation from cascading. */
  ghost predicate EntriesHeld(s: Fs)
  {
    forall p :: p in s.refs ==> p.dir in s.slab && s.slab[p.dir].isDir && IsHeld(s.nodes, p.dir)
  }

  /** Exact reclamation: what is in the slab is linked or held. */
  ghost predicate Exact(s: Fs)
  {
    forall k :: k in s.slab ==> s.slab[k].nlink > 0 || IsHeld(s.nodes, k)
  }

  /** The invariant while the references `loose` are on their way out. */
  ghost predicate InvWith(s: Fs, loose: map<Place, Slot>)
  {
    NoDangling(s, loose) && CountsOk(s, loose) && EntriesHeld(s) && Exact(s)
  }

  ghost predicate Inv(s: Fs) { InvWith(s, map[]) }

  // --------------------------------------------------------------------------- counting lemmas

  lemma RefsToWithout(refs: map<Place, Slot>, p: Place, k: Slot)
    requires p in refs
    ensures |RefsTo(refs - {p}, k)| == |RefsTo(refs, k)| - if refs[p] == k then 1 else 0
  {
    assert RefsTo(refs - {p}, k) == RefsTo(refs, k) - {p};
  }

  lemma RefsToWith(refs: map<Place, Slot>, p: Place, k: Slot, j: Slot)
    requires p !in refs
    ensures |RefsTo(refs[p := k], j)| == |RefsTo(refs, j)| + if k == j then 1 else 0
  {
    assert RefsTo(refs[p := k], j) == RefsTo(refs, j) + if k == j then {p} else {};
  }

  lemma RefsToSplit(refs: map<Place, Slot>, out: map<Place, Slot>, k: Slot)
    requires forall p :: p in out ==> p in refs && out[p] == refs[p]
    ensures |RefsTo(refs, k)| == |RefsTo(refs - out.Keys, k)| + |RefsTo(out, k)|
  {
    assert RefsTo(refs, k) == RefsTo(refs - out.Keys, k) + RefsTo(out, k);
    assert RefsTo(refs - out.Keys, k) !! RefsTo(out, k);
  }

  // ------------------------------------------------------------------------------- reclamation

  /** `release_inode`: takes `n` links away and, when none is left and only the slab and the caller
      hold the `Arc`, frees the slot. `temps` counts the caller's own clone when it is not a node. */
  function Released(s: Fs, k: Slot, n: nat, temps: nat): (t: Fs)
    requires k in s.slab && n <= s.slab[k].nlink
  {
    var left := s.slab[k].nlink - n;
    if left == 0 && 1 + |Holders(s.nodes, k)| + temps == 2 then
      s.(slab := s.slab - {k})
    else
      s.(slab := s.slab[k := s.slab[k].(nlink := left)])
  }

  /** `t` is `s` after some inodes that nothing named and nothing held were freed. */
  ghost predicate Shrunk(s: Fs, t: Fs)
  {
    && t.nodes == s.nodes
    && t.refs == s.refs
    && t.slab.Keys <= s.slab.Keys
    && (forall k :: k in t.slab ==> t.slab[k] == s.slab[k].(nlink := t.slab[k].nlink))
    && (forall k :: k in s.slab && k !in t.slab ==> |RefsTo(s.refs, k)| == 0 && !IsHeld(s.nodes, k))
  }

  /** Dropping one loose `InodeRef` (through its temporary `Arc`): the slot it names is occupied, the
      count does not underflow, a freed directory has no entries left to drop, and the books still
      balance. */
  lemma DropRef(s: Fs, loose: map<Place, Slot>, p: Place)
    requires InvWith(s, loose) && p in loose
    ensures var k := loose[p];
            && k in s.slab && s.slab[k].nlink >= 1
            && var t := Released(s, k, 1, 1);
            && InvWith(t, loose - {p}) && Shrunk(s, t)
            && (k !in t.slab ==> forall q :: q in s.refs ==> q.dir != k)
  {
    var k := loose[p];
    ReleasedCounts(s, k, loose, p);
    ReleasedSafe(s, k, loose - {p});
    HeldIffHolders(s.nodes, k);
  }

  lemma ReleasedCounts(s: Fs, k: Slot, loose: map<Place, Slot>, p: Place)
    requires CountsOk(s, loose) && p in loose && loose[p] == k && k in s.slab
    ensures s.slab[k].nlink >= 1 && CountsOk(Released(s, k, 1, 1), loose - {p})
    ensures k !in Released(s, k, 1, 1).slab ==> |RefsTo(s.refs, k)| == |RefsTo(loose - {p}, k)| == 0
  {
    assert p in RefsTo(loose, k);
    assert s.slab[k].nlink == |RefsTo(s.refs, k)| + |RefsTo(loose, k)|;
    forall j | j in s.slab ensures |RefsTo(loose - {p}, j)| == |RefsTo(loose, j)| - if j == k then 1 else 0 {
      RefsToWithout(loose, p, j);
    }
  }

  lemma ReleasedSafe(s: Fs, k: Slot, loose: map<Place, Slot>)
    requires NoDangling(s, loose) && EntriesHeld(s) && k in s.slab && s.slab[k].nlink >= 1
    requires k !in Released(s, k, 1, 1).slab ==> |RefsTo(s.refs, k)| == |RefsTo(loose, k)| == 0
    ensures NoDangling(Released(s, k, 1, 1), loose) && EntriesHeld(Released(s, k, 1, 1))
    ensures k !in Released(s, k, 1, 1).slab ==> !IsHeld(s.nodes, k)
  {
    HeldIffHolders(s.nodes, k);
    NamedIffReferenced(s.refs, k);
    NamedIffReferenced(loose, k);
  }

  /** Freeing what the counts condemn is exactly what the count-free collector does. */
  lemma ShrunkCollects(s: Fs, t: Fs)
    requires Inv(t) && Shrunk(s, t)
    ensures Abs(t) == Abs(s).Collect()
  {
    forall k | k in s.slab ensures k in t.slab <==> Abs(s).Named(k) || Abs(s).Held(k) {
      SurvivorIffReferenced(s, t, k);
    }
    CollectIs(s, t);
  }

  lemma SurvivorIffReferenced(s: Fs, t: Fs, k: Slot)
    requires CountsOk(t, map[]) && Exact(t) && Shrunk(s, t) && k in s.slab
    ensures k in t.slab <==> Abs(s).Named(k) || Abs(s).Held(k)
  {
    NamedIffReferenced(s.refs, k);
    assert RefsTo(map[], k) == {};
    AbsHeld(s, k);
  }

  lemma CollectIs(s: Fs, t: Fs)
    requires t.nodes == s.nodes && t.refs == s.refs && t.slab.Keys <= s.slab.Keys
    requires forall k :: k in t.slab ==> t.slab[k] == s.slab[k].(nlink := t.slab[k].nlink)
    requires forall k :: k in s.slab ==> (k in t.slab <==> Abs(s).Named(k) || Abs(s).Held(k))
    ensures Abs(t) == Abs(s).Collect()
  {
    assert Abs(t).inodes == Abs(s).Collect().inodes;
  }

  lemma NamedIffReferenced(refs: map<Place, Slot>, k: Slot)
    ensures (exists p :: p in refs && refs[p] == k) <==> |RefsTo(refs, k)| > 0
  {
    if |RefsTo(refs, k)| > 0 {
      var p :| p in RefsTo(refs, k);
    }
    if p :| p in refs && refs[p] == k {
      assert p in RefsTo(refs, k);
    }
  }

  lemma AbsHeld(s: Fs, k: Slot)
    ensures Abs(s).Held(k) <==> IsHeld(s.nodes, k)
  {
    if m :| m in s.nodes && s.nodes[m].slot == k {
      assert m in Abs(s).nodes;
    }
  }

  /** Between operations a slot is occupied exactly while some entry names it or some node holds it,
      the link count is the number of entries, and a directory that no node holds has no entries. */
  lemma ExactReclamation(s: Fs, k: Slot)
    requires Inv(s)
    ensures k in s.slab <==> Abs(s).Named(k) || Abs(s).Held(k)
    ensures k in s.slab ==> s.slab[k].nlink == |RefsTo(s.refs, k)|
    ensures !Abs(s).Held(k) ==> forall p :: p in s.refs ==> p.dir != k
  {
    NamedIffReferenced(s.refs, k);
    assert RefsTo(map[], k) == {};
    AbsHeld(s, k);
  }

  // -------------------------------------------------------------- effects on the entry maps

  /** `InodeRef::new` followed by the insertion of the reference at a free place. */
  function WithRef(s: Fs, p: Place, k: Slot): (t: Fs)
    requires k in s.slab
  {
    s.(slab := s.slab[k := s.slab[k].(nlink := s.slab[k].nlink + 1)], refs := s.refs[p := k])
  }

  function WithNode(s: Fs, m: NodeId, k: Slot): Fs
    requires k in s.slab
  {
    s.(nodes := s.nodes[m := Handle(k, s.slab[k].id)])
  }

  lemma WithRefCounts(s: Fs, p: Place, k: Slot)
    requires CountsOk(s, map[]) && k in s.slab && p !in s.refs
    ensures CountsOk(WithRef(s, p, k), map[])
  {
    forall j | j in s.slab ensures |RefsTo(s.refs[p := k], j)| == |RefsTo(s.refs, j)| + if k == j then 1 else 0 {
      RefsToWith(s.refs, p, k, j);
    }
  }

  lemma WithRefInv(s: Fs, p: Place, k: Slot)
    requires Inv(s) && k in s.slab && p !in s.refs
    requires p.dir in s.slab && s.slab[p.dir].isDir && IsHeld(s.nodes, p.dir)
    ensures Inv(WithRef(s, p, k))
  {
    WithRefCounts(s, p, k);
  }

  /** Taking entries out makes their references loose; nothing is counted twice or forgotten. */
  lemma LoosenedInv(s: Fs, out: map<Place, Slot>)
    requires Inv(s) && forall p :: p in out ==> p in s.refs && out[p] == s.refs[p]
    ensures InvWith(s.(refs := s.refs - out.Keys), out)
  {
    forall j | j in s.slab ensures s.slab[j].nlink == |RefsTo(s.refs - out.Keys, j)| + |RefsTo(out, j)| {
      RefsToSplit(s.refs, out, j);
      assert RefsTo(map[], j) == {};
    }
  }

  lemma MovedCounts(s: Fs, loose: map<Place, Slot>, p: Place, q: Place)
    requires CountsOk(s, loose) && p in s.refs && q !in s.refs
    ensures CountsOk(s.(refs := (s.refs - {p})[q := s.refs[p]]), loose)
  {
    var moved := (s.refs - {p})[q := s.refs[p]];
    forall j | j in s.slab ensures s.slab[j].nlink == |RefsTo(moved, j)| + |RefsTo(loose, j)| {
      RefsToWithout(s.refs, p, j);
      RefsToWith(s.refs - {p}, q, s.refs[p], j);
    }
  }

  /** Moving an entry to a free place keeps every count. */
  lemma MovedInv(s: Fs, loose: map<Place, Slot>, p: Place, q: Place)
    requires InvWith(s, loose) && p in s.refs && q !in s.refs
    requires q.dir in s.slab && s.slab[q.dir].isDir && IsHeld(s.nodes, q.dir)
    ensures InvWith(s.(refs := (s.refs - {p})[q := s.refs[p]]), loose)
  {
    MovedCounts(s, loose, p, q);
  }

  /** Moving an entry onto a taken place makes the displaced reference loose. */
  lemma DisplacedInv(s: Fs, p: Place, q: Place)
    requires Inv(s) && p in s.refs && p != q
    requires q.dir in s.slab && s.slab[q.dir].isDir && IsHeld(s.nodes, q.dir)
    ensures var out := map x | x in s.refs && x == q :: s.refs[x];
            InvWith(s.(refs := (s.refs - {p})[q := s.refs[p]]), out)
  {
    var out := map x | x in s.refs && x == q :: s.refs[x];
    LoosenedInv(s, out);
    MovedInv(s.(refs := s.refs - out.Keys), out, p, q);
    assert ((s.refs - out.Keys) - {p})[q := s.refs[p]] == (s.refs - {p})[q := s.refs[p]];
  }

  lemma MovedNowhere(s: Fs, p: Place)
    requires Inv(s) && p in s.refs
    ensures Abs(s).Move(p, p) == Abs(s)
  {
    assert (s.refs - {p})[p := s.refs[p]] == s.refs;
    ShrunkCollects(s, s);
  }

  lemma WithNodeHeld(nodes: map<NodeId, Handle>, m: NodeId, h: Handle)
    requires m !in nodes
    ensures forall j :: IsHeld(nodes[m := h], j) <==> IsHeld(nodes, j) || j == h.slot
  {
    forall j: Slot ensures IsHeld(nodes[m := h], j) <==> IsHeld(nodes, j) || j == h.slot {
      if x :| x in nodes && nodes[x].slot == j { assert nodes[m := h][x].slot == j; }
      assert nodes[m := h][m] == h;
    }
  }

  lemma WithNodeInv(s: Fs, m: NodeId, k: Slot)
    requires Inv(s) && k in s.slab && m !in s.nodes
    ensures Inv(WithNode(s, m, k)) && IsHeld(WithNode(s, m, k).nodes, k)
  {
    WithNodeHeld(s.nodes, m, Handle(k, s.slab[k].id));
    assert m in WithNode(s, m, k).nodes;
  }

  /** A fresh inode with no links, already held by the node that will be returned. */
  lemma NewInodeInv(s: Fs, k: Slot, id: nat, isDir: bool, m: NodeId)
    requires Inv(s) && k !in s.slab && m !in s.nodes
    ensures var t := WithNode(s.(slab := s.slab[k := Inode(id, 0, isDir)]), m, k);
            Inv(t) && IsHeld(t.nodes, k)
  {
    WithNodeHeld(s.nodes, m, Handle(k, id));
    assert m in WithNode(s.(slab := s.slab[k := Inode(id, 0, isDir)]), m, k).nodes;
    NamedIffReferenced(s.refs, k);
    assert RefsTo(map[], k) == {};
  }

  lemma DropHolder(nodes: map<NodeId, Handle>, m: NodeId)
    requires m in nodes
    ensures forall j :: j != nodes[m].slot ==> (IsHeld(nodes - {m}, j) <==> IsHeld(nodes, j))
    ensures |Holders(nodes, nodes[m].slot)| == 1 <==> !IsHeld(nodes - {m}, nodes[m].slot)
  {
    var k := nodes[m].slot;
    forall j: Slot | j != k && IsHeld(nodes, j) ensures IsHeld(nodes - {m}, j) {
      var x :| x in nodes && nodes[x].slot == j;
      assert x in nodes - {m};
    }
    forall j: Slot | IsHeld(nodes - {m}, j) ensures IsHeld(nodes, j) {
      var x :| x in nodes - {m} && (nodes - {m})[x].slot == j;
      assert x in nodes;
    }
    assert Holders(nodes, k) == Holders(nodes - {m}, k) + {m};
    HeldIffHolders(nodes - {m}, k);
  }

  /** The end of `MemoryNode::drop`, after its directory has been emptied. */
  ghost function WithoutNode(s: Fs, m: NodeId): Fs
    requires m in s.nodes && s.nodes[m].slot in s.slab
  {
    Released(s, s.nodes[m].slot, 0, 0).(nodes := s.nodes - {m})
  }

  lemma WithoutNodeInv(s: Fs, m: NodeId)
    requires Inv(s) && m in s.nodes && forall p :: p in s.refs ==> p.dir != s.nodes[m].slot
    ensures Inv(WithoutNode(s, m))
  {
    DropHolder(s.nodes, m);
    var k := s.nodes[m].slot;
    NamedIffReferenced(s.refs, k);
    assert RefsTo(map[], k) == {};
    if k !in WithoutNode(s, m).slab {
      forall x | x in s.nodes - {m} ensures s.nodes[x].slot != k { assert (s.nodes - {m})[x].slot == s.nodes[x].slot; }
    }
  }

  /** From the emptied directory (`s`) through the dropped references (`t`) to the end. */
  lemma WithoutNodeShrunk(s: Fs, t: Fs, m: NodeId)
    requires Inv(t) && Shrunk(s, t) && m in t.nodes
    ensures Shrunk(s.(nodes := s.nodes - {m}), WithoutNode(t, m))
  {
    DropHolder(s.nodes, m);
    var k := t.nodes[m].slot;
    assert RefsTo(map[], k) == {};
    assert t.slab[k].nlink == |RefsTo(t.refs, k)| + |RefsTo(map[], k)|;
  }

  // ------------------------------------------------------------------------------ the operations

  datatype Error = NotADirectory | AlreadyExists | NotFound | DirectoryNotEmpty | SelfDeadlock | Panic

  datatype Option<T> = None | Some(value: T)

  /** What a link is to: a node of this filesystem, or one of another whose inode has `slot`'s number. */
  datatype LinkTarget = Own(node: NodeId) | Foreign(slot: Slot)

  datatype Result<T> = Ok(value: T) | Err(error: Error)

  lemma FreshNat(taken: set<nat>)
    ensures exists k: nat :: k !in taken
  {
    var bound := FreshBound(taken);
    assert bound !in taken;
  }

  ghost function FreshBound(taken: set<nat>): (b: nat)
    ensures forall x :: x in taken ==> x < b
  {
    if taken == {} then 0 else
      var x :| x in taken;
      var b := FreshBound(taken - {x});
      assert forall y :: y in taken ==> y == x || y in taken - {x};
      if b > x then b else x + 1
  }

  function Initial(): Fs
  {
    Fs(map[0 := Inode(0, 2, true)], map[Place(0, ".") := 0, Place(0, "..") := 0], map[0 := Handle(0, 0)])
  }

  lemma InitialInv()
    ensures Inv(Initial())
    ensures Abs(Initial()) == RefFs(map[0 := true], map[Place(0, ".") := 0, Place(0, "..") := 0], map[0 := 0])
  {
    var s := Initial();
    assert RefsTo(s.refs, 0) == {Place(0, "."), Place(0, "..")} && RefsTo(map[], 0) == {};
    assert 0 in s.nodes && IsHeld(s.nodes, 0);
  }

  class MemoryFs {
    var slab: map<Slot, Inode>
    var refs: map<Place, Slot>
    var nodes: map<NodeId, Handle>
    var nextId: nat

    ghost function View(): Fs reads this { Fs(slab, refs, nodes) }

    /** Every allocation has its own identity, and the invariant holds. */
    ghost predicate Valid() reads this
    {
      Inv(View()) && forall k :: k in slab ==> slab[k].id < nextId
    }

    /** `MemoryFs::new`: a root directory that is its own parent, held by the root entry (node 0). */
    constructor ()
      ensures Valid()
      ensures Abs(View()) == RefFs(map[0 := true], map[Place(0, ".") := 0, Place(0, "..") := 0], map[0 := 0])
    {
      slab := map[0 := Inode(0, 2, true)];
      refs := map[Place(0, ".") := 0, Place(0, "..") := 0];
      nodes := map[0 := Handle(0, 0)];
      nextId := 1;
      new;
      InitialInv();
    }

    /** `release_inode`. */
    method Release(k: Slot, n: nat, temps: nat)
      requires k in slab && n <= slab[k].nlink
      modifies this`slab
      ensures View() == Released(old(View()), k, n, temps)
    {
      slab := slab[k := slab[k].(nlink := slab[k].nlink - n)];
      if slab[k].nlink == 0 && 1 + |Holders(nodes, k)| + temps == 2 {
        assert slab - {k} == old(slab) - {k};
        slab := slab - {k};
      }
    }

    /** Drops a collection of `InodeRef`s, in whatever order the hash map yields them. */
    method DropRefs(loose: map<Place, Slot>)
      requires InvWith(View(), loose)
      modifies this`slab
      ensures Inv(View()) && Shrunk(old(View()), View())
    {
      var rest := loose;
      while rest != map[]
        invariant InvWith(View(), rest) && Shrunk(old(View()), View())
        decreases |rest|
      {
        var p :| p in rest;
        DropRef(View(), rest, p);
        Release(rest[p], 1, 1);
        assert |rest - {p}| < |rest| by { assert (rest - {p}).Keys == rest.Keys - {p}; }
        rest := rest - {p};
      }
    }

    /** Clears a directory's entry map; on a file there is nothing to clear. */
    method ClearEntries(k: Slot)
      requires Inv(View()) && k in slab
      modifies this`slab, this`refs
      ensures Inv(View()) && Shrunk(Cleared(old(View()), k), View())
    {
      var out := map p | p in refs && p.dir == k :: refs[p];
      LoosenedInv(View(), out);
      if slab[k].isDir {
        refs := refs - out.Keys;
        DropRefs(out);
      } else {
        assert refs - out.Keys == refs;
      }
    }

    /** `MemoryNode::drop`. */
    method DropNode(m: NodeId)
      requires Valid() && m in nodes
      modifies this`slab, this`refs, this`nodes
      ensures Valid()
      ensures Abs(View()) == old(Abs(View())).DropNode(m)
    {
      var k := nodes[m].slot;
      ClearEntries(k);
      ghost var t := View();
      DropNodeCollects(old(View()), t, m);
      Release(k, 0, 0);
      nodes := nodes - {m};
      assert View() == WithoutNode(t, m);
    }

    /** `new_entry`: hands out a node for the inode in slot `k`. */
    method NewNode(k: Slot) returns (m: NodeId)
      requires Valid() && k in slab
      modifies this`nodes
      ensures Valid() && m !in old(nodes) && View() == WithNode(old(View()), m, k)
      ensures Abs(View()) == old(Abs(View())).AddNode(m, k)
    {
      FreshNat(nodes.Keys);
      m :| m !in nodes;
      WithNodeInv(View(), m, k);
      nodes := nodes[m := Handle(k, slab[k].id)];
      assert Abs(View()).nodes == old(Abs(View()).nodes)[m := k];
    }

    /** `DirNodeOps::lookup`. */
    method Lookup(node: NodeId, name: string) returns (r: Result<NodeId>)
      requires Valid() && node in nodes
      modifies this`nodes
      ensures Valid()
      ensures var p := Place(old(nodes)[node].slot, name);
              && (r == Err(NotADirectory) <==> !slab[p.dir].isDir)
              && (r.Ok? <==> p in refs)
              && (r.Ok? ==> r.value !in old(nodes) && Abs(View()) == old(Abs(View())).AddNode(r.value, refs[p]))
              && (r.Ok? ==> r.value in nodes && nodes[r.value].slot == refs[p] && nodes - {r.value} == old(nodes))
      ensures r.Err? ==> unchanged(this)
    {
      var d := nodes[node].slot;
      if !slab[d].isDir {
        return Err(NotADirectory);
      }
      if Place(d, name) !in refs {
        return Err(NotFound);
      }
      var m := NewNode(refs[Place(d, name)]);
      r := Ok(m);
    }

    /** `InodeRef::new` and the insertion of the reference. */
    method InsertRef(p: Place, k: Slot)
      requires k in slab
      modifies this`slab, this`refs
      ensures View() == WithRef(old(View()), p, k)
    {
      slab := slab[k := slab[k].(nlink := slab[k].nlink + 1)];
      refs := refs[p := k];
    }

    /** `Inode::new` in a vacant slot, the parent's entry for it, and the node on it. */
    method NewInode(p: Place, isDir: bool, k: Slot, m: NodeId)
      requires p.dir in slab && k !in slab
      modifies this
      ensures View() == Created(old(View()), p, k, old(nextId), isDir, m) && nextId == old(nextId) + 1
    {
      slab := slab[k := Inode(nextId, 0, isDir)];
      nextId := nextId + 1;
      if isDir {
        InsertRef(Place(k, "."), k);
        InsertRef(Place(k, ".."), p.dir);
      }
      InsertRef(p, k);
      nodes := nodes[m := Handle(k, slab[k].id)];
    }

    /** `DirNodeOps::create`, with `Inode::new` inside; the slab picks any vacant slot. */
    method Create(node: NodeId, name: string, isDir: bool) returns (r: Result<NodeId>)
      requires Valid() && node in nodes
      modifies this
      ensures Valid()
      ensures var p := Place(old(nodes)[node].slot, name);
              && (r == Err(NotADirectory) <==> !old(slab)[p.dir].isDir)
              && (r == Err(AlreadyExists) <==> old(slab)[p.dir].isDir && p in old(refs))
              && (r.Ok? ==> exists k :: k !in old(slab) && r.value !in old(nodes) &&
                                        Abs(View()) == old(Abs(View())).Create(p, isDir, k, r.value))
      ensures r.Err? ==> unchanged(this)
    {
      var p := Place(nodes[node].slot, name);
      if !slab[p.dir].isDir {
        return Err(NotADirectory);
      }
      if p in refs {
        return Err(AlreadyExists);
      }
      FreshNat(slab.Keys);
      var k: Slot :| k !in slab;
      FreshNat(nodes.Keys);
      var m: NodeId :| m !in nodes;
      CreatedInv(View(), p, k, nextId, isDir, m);
      NewInode(p, isDir, k, m);
      r := Ok(m);
    }

    /** `DirNodeOps::link`. Only the number of the target's inode is used to make the entry: a target
        that belongs to another filesystem makes a name for the inode that has this number here, or
        panics when there is none. */
    method Link(node: NodeId, name: string, target: LinkTarget) returns (r: Result<Option<NodeId>>)
      requires Valid() && node in nodes && (target.Own? ==> target.node in nodes)
      modifies this`slab, this`refs, this`nodes
      ensures Valid()
      ensures var p := Place(old(nodes)[node].slot, name);
              var k := if target.Own? then old(nodes)[target.node].slot else target.slot;
              && (r == Err(NotADirectory) <==> !old(slab)[p.dir].isDir)
              && (r == Err(AlreadyExists) <==> old(slab)[p.dir].isDir && p in old(refs))
              && (r == Err(Panic) <==> old(slab)[p.dir].isDir && p !in old(refs) && k !in old(slab))
              && (r.Ok? ==> (r.value.Some? <==> target.Own?))
              && (r.Ok? ==> Abs(View()) == if target.Own? then old(Abs(View())).Link(p, k, r.value.value)
                                           else old(Abs(View())).(refs := old(refs)[p := k]))
              && (r.Ok? && target.Own? ==> r.value.value !in old(nodes))
      ensures r.Err? ==> unchanged(this)
    {
      var p := Place(nodes[node].slot, name);
      if !slab[p.dir].isDir {
        return Err(NotADirectory);
      }
      if p in refs {
        return Err(AlreadyExists);
      }
      var k := if target.Own? then nodes[target.node].slot else target.slot;
      if k !in slab {
        return Err(Panic);
      }
      WithRefInv(View(), p, k);
      InsertRef(p, k);
      AbsWithRef(old(View()), p, k);
      r := Ok(None);
      if target.Own? {
        var m := NewNode(k);
        r := Ok(Some(m));
      }
    }

    /** `DirNodeOps::unlink`. Asking for the directory's own `.` locks its entry map twice. */
    method Unlink(node: NodeId, name: string) returns (r: Result<()>)
      requires Valid() && node in nodes
      modifies this`slab, this`refs
      ensures Valid()
      ensures var p := Place(nodes[node].slot, name);
              && (r == Err(NotADirectory) <==> !old(slab)[p.dir].isDir)
              && (r == Err(NotFound) <==> old(slab)[p.dir].isDir && p !in old(refs))
              && (r == Err(SelfDeadlock) <==> p in old(refs) && old(refs)[p] == p.dir)
              && (r == Err(DirectoryNotEmpty) <==>
                    p in old(refs) && old(refs)[p] != p.dir && |old(Abs(View())).EntriesOf(old(refs)[p])| > 2)
              && (r.Ok? ==> Abs(View()) == old(Abs(View())).Remove(p))
      ensures r.Err? ==> unchanged(this)
    {
      var p := Place(nodes[node].slot, name);
      if !slab[p.dir].isDir {
        return Err(NotADirectory);
      }
      if p !in refs {
        return Err(NotFound);
      }
      var k := refs[p];
      if k == p.dir {
        return Err(SelfDeadlock);
      }
      var inside := map q | q in refs && q.dir == k :: refs[q];
      assert inside == Abs(View()).EntriesOf(k);
      if slab[k].isDir && |inside| > 2 {
        return Err(DirectoryNotEmpty);
      }
      assert !slab[k].isDir ==> inside == map[];
      RemoveEntry(p);
      r := Ok(());
    }

    method TransientLookup(k: Slot)
      requires Valid() && k in slab
      modifies this`slab, this`refs, this`nodes
      ensures Valid() && Abs(View()) == old(Abs(View())).Wipe(k)
    {
      var m := NewNode(k);
      TransientWipes(old(Abs(View())), m, k);
      DropNode(m);
    }

    method RenameLookups(p: Place, q: Place, how: DstLookup) returns (t: NodeId)
      requires Valid() && p in refs && Answered(Abs(View()), q, how)
      modifies this`slab, this`refs, this`nodes
      ensures Valid() && t !in old(nodes)
      ensures Abs(View()) == AfterLookups(old(Abs(View())), p, q, how, t)
    {
      FreshNat(nodes.Keys);
      t :| t !in nodes;
      if how.Fresh? {
        t := NewNode(refs[q]);
      }
      TransientLookup(refs[p]);
      if how == Fresh(false) {
        assert t in Abs(View()).nodes;
        DropNode(t);
      }
    }

    /** `rename` when the source is missing: the destination has been looked up all the same. */
    method RenameMissing(q: Place, how: DstLookup) returns (t: NodeId)
      requires Valid()
      modifies this`slab, this`refs, this`nodes
      ensures Valid() && t !in old(nodes)
      ensures Abs(View()) == (if q !in old(refs) || how.Cached? then old(Abs(View()))
                              else if how.retained then old(Abs(View())).AddNode(t, old(refs)[q])
                              else old(Abs(View())).Wipe(old(refs)[q]))
    {
      FreshNat(nodes.Keys);
      t :| t !in nodes;
      if q in refs && how == Fresh(true) {
        t := NewNode(refs[q]);
      } else if q in refs && how == Fresh(false) {
        TransientLookup(refs[q]);
      }
    }

    /** `DirNodeOps::rename`; the destination is a directory of this filesystem. */
    method Rename(node: NodeId, src: string, dstNode: NodeId, dst: string, how: DstLookup)
      returns (r: Result<()>, t: NodeId)
      requires Valid() && node in nodes && dstNode in nodes && slab[nodes[dstNode].slot].isDir
      modifies this`slab, this`refs, this`nodes
      ensures Valid() && t !in old(nodes)
      ensures (Abs(View()), r) ==
              RefRename(old(Abs(View())), Place(old(nodes)[node].slot, src), Place(old(nodes)[dstNode].slot, dst), how, t)
    {
      var p, q := Place(nodes[node].slot, src), Place(nodes[dstNode].slot, dst);
      if p !in refs {
        r := Err(if slab[p.dir].isDir then NotFound else NotADirectory);
        t := RenameMissing(q, how);
        return;
      }
      FreshNat(nodes.Keys);
      t :| t !in nodes;
      if how.Cached? || q in refs {
        var same := refs[p] == if how.Cached? then how.found else refs[q];
        t := RenameLookups(p, q, how);
        AfterLookupsKeeps(old(Abs(View())), p, q, how, t, dstNode);
        if same {
          return Ok(()), t;
        }
        if p !in refs {
          return Err(NotFound), t;
        }
      }
      MoveEntry(p, q);
      r := Ok(());
    }

    method RemoveEntry(p: Place)
      requires Valid() && p in refs
      modifies this`slab, this`refs
      ensures Valid() && Abs(View()) == old(Abs(View())).Remove(p)
    {
      var out := map[p := refs[p]];
      LoosenedInv(View(), out);
      assert refs - out.Keys == refs - {p};
      refs := refs - {p};
      ghost var loosened := View();
      DropRefs(out);
      ShrunkCollects(loosened, View());
    }

    /** The two map updates at the end of `rename`; a displaced reference is dropped. */
    method MoveEntry(p: Place, q: Place)
      requires Valid() && p in refs
      requires q.dir in slab && slab[q.dir].isDir && IsHeld(nodes, q.dir)
      modifies this`slab, this`refs
      ensures Valid() && Abs(View()) == old(Abs(View())).Move(p, q)
    {
      if p == q {
        MovedNowhere(View(), p);
        return;
      }
      var out := map x | x in refs && x == q :: refs[x];
      DisplacedInv(View(), p, q);
      refs := (refs - {p})[q := refs[p]];
      ghost var moved := View();
      DropRefs(out);
      ShrunkCollects(moved, View());
    }
  }

  /** How the directory layer above answers a lookup of the destination name: from its cache, which may
      still know an inode under a name that the entry map no longer has or has given to another; or by
      asking for a node, which it then keeps or drops. */
  datatype DstLookup = Cached(found: Slot) | Fresh(retained: bool)

  /** The lookup of the destination succeeds. */
  predicate Answered(r: RefFs, q: Place, how: DstLookup) { how.Cached? || q in r.refs }

  /** `rename` looks both names up first, and drops the source's node (and perhaps the
      destination's, `t`) before it moves anything. */
  ghost function AfterLookups(r: RefFs, p: Place, q: Place, how: DstLookup, t: NodeId): RefFs
    requires p in r.refs && Answered(r, q, how)
  {
    match how
    case Cached(_) => r.Wipe(r.refs[p])
    case Fresh(true) => r.AddNode(t, r.refs[q]).Wipe(r.refs[p])
    case Fresh(false) => r.AddNode(t, r.refs[q]).Wipe(r.refs[p]).DropNode(t)
  }

  ghost function RefRename(r: RefFs, p: Place, q: Place, how: DstLookup, t: NodeId): (RefFs, Result<()>)
    requires p.dir in r.inodes
  {
    var missing := Err(if r.inodes[p.dir] then NotFound else NotADirectory);
    if p !in r.refs then
      (if q !in r.refs || how.Cached? then r
       else if how.retained then r.AddNode(t, r.refs[q])
       else r.Wipe(r.refs[q]), missing)
    else if !Answered(r, q, how) then
      (r.Move(p, q), Ok(()))
    else
      var c := AfterLookups(r, p, q, how, t);
      if r.refs[p] == (if how.Cached? then how.found else r.refs[q]) then (c, Ok(()))
      else if p !in c.refs then (c, Err(NotFound))
      else (c.Move(p, q), Ok(()))
  }

  /** A node that is handed out and dropped again empties the directory it was for. */
  lemma TransientWipes(r: RefFs, t: NodeId, k: Slot)
    requires t !in r.nodes
    ensures r.AddNode(t, k).DropNode(t) == r.Wipe(k)
  {
    assert r.nodes[t := k] - {t} == r.nodes;
    assert r.AddNode(t, k).EntriesOf(k) == r.EntriesOf(k);
  }

  lemma AfterLookupsKeeps(r: RefFs, p: Place, q: Place, how: DstLookup, t: NodeId, m: NodeId)
    requires p in r.refs && Answered(r, q, how) && t !in r.nodes && m in r.nodes && r.nodes[m] in r.inodes
    ensures var c := AfterLookups(r, p, q, how, t);
            m in c.nodes && c.nodes[m] == r.nodes[m] && c.nodes[m] in c.inodes && c.inodes[c.nodes[m]] == r.inodes[r.nodes[m]]
  {}

  /** The entries of directory `y`, apart from the two names a rename is about. */
  ghost function Others(r: RefFs, y: Slot, p: Place, q: Place): map<Place, Slot> { r.EntriesOf(y) - {p, q} }

  /** A directory that is renamed keeps its entries exactly when the lookup of the new name failed (or
      there was nothing to lose): otherwise `rename` itself looks the source up, and dropping that
      node empties it. This includes a new name that is another name of the same directory, in which
      case nothing is moved, the outcome is a success, and the directory is emptied all the same. */
  lemma RenameKeepsContents(r: RefFs, p: Place, q: Place, how: DstLookup, t: NodeId)
    requires p.dir in r.inodes && p in r.refs && t !in r.nodes
    ensures var y := r.refs[p];
            var (after, outcome) := RefRename(r, p, q, how, t);
            outcome.Ok? ==> (Others(after, y, p, q) == Others(r, y, p, q) <==>
                             !Answered(r, q, how) || Others(r, y, p, q) == map[])
  {
    var y := r.refs[p];
    var (after, outcome) := RefRename(r, p, q, how, t);
    if outcome.Ok? && !Answered(r, q, how) {
      assert Others(after, y, p, q) == Others(r, y, p, q);
    } else if outcome.Ok? {
      assert forall x :: x in after.refs && x.dir == y ==> x in r.refs - r.EntriesOf(y).Keys || x == q;
      assert Others(after, y, p, q) == map[];
    }
  }

  // ------------------------------------------------- what the count-free operations do to the names

  /** After a creation the new name is for the new inode, a new directory has exactly `.` for itself and
      `..` for its parent in it, the caller holds it, and nothing else is different. */
  lemma CreateIs(r: RefFs, p: Place, isDir: bool, k: Slot, m: NodeId, x: Place)
    requires p.dir in r.inodes && p !in r.refs && k !in r.inodes && m !in r.nodes
    requires forall q :: q in r.refs ==> q.dir in r.inodes
    ensures var c := r.Create(p, isDir, k, m);
            && p in c.refs && c.refs[p] == k && k in c.inodes && c.inodes[k] == isDir
            && m in c.nodes && c.nodes[m] == k && c.nodes - {m} == r.nodes
            && (x.dir == k ==> (x in c.refs <==> isDir && (x.name == "." || x.name == "..")))
            && (isDir ==> c.refs[Place(k, ".")] == k && c.refs[Place(k, "..")] == p.dir)
            && (x.dir != k && x != p ==> (x in c.refs <==> x in r.refs) && (x in r.refs ==> c.refs[x] == r.refs[x]))
            && (forall j :: j != k ==> (j in c.inodes <==> j in r.inodes) && (j in r.inodes ==> c.inodes[j] == r.inodes[j]))
  {
    assert (r.nodes[m := k]) - {m} == r.nodes;
  }

  lemma LinkIs(r: RefFs, p: Place, k: Slot, m: NodeId, x: Place)
    requires p !in r.refs && m !in r.nodes
    ensures var c := r.Link(p, k, m);
            && c.inodes == r.inodes && p in c.refs && c.refs[p] == k
            && m in c.nodes && c.nodes[m] == k && c.nodes - {m} == r.nodes
            && (x != p ==> (x in c.refs <==> x in r.refs) && (x in r.refs ==> c.refs[x] == r.refs[x]))
  {
    assert (r.nodes[m := k]) - {m} == r.nodes;
  }

  /** An unlinked name is gone, and its inode with it exactly when it has no other name and no holder. */
  lemma RemoveIs(r: RefFs, p: Place, x: Place, k: Slot)
    requires p in r.refs
    ensures var c := r.Remove(p);
            && p !in c.refs && c.nodes == r.nodes
            && (x != p ==> (x in c.refs <==> x in r.refs) && (x in r.refs ==> c.refs[x] == r.refs[x]))
            && (k in c.inodes <==> k in r.inodes && (r.Held(k) || exists q :: q != p && q in r.refs && r.refs[q] == k))
  {
    var without := r.(refs := r.refs - {p});
    if q :| q != p && q in r.refs && r.refs[q] == k { assert q in without.refs && without.refs[q] == k; }
    assert without.Held(k) == r.Held(k);
  }

  /** A dropped node takes the entries of its directory with it, and no other name. */
  lemma DropNodeIs(r: RefFs, m: NodeId, x: Place)
    requires m in r.nodes
    ensures var c := r.DropNode(m);
            && m !in c.nodes && c.nodes == r.nodes - {m}
            && (x in c.refs <==> x in r.refs && x.dir != r.nodes[m]) && (x in c.refs ==> c.refs[x] == r.refs[x])
  {
  }

  /** The inode that the lookup of the new name gives. */
  function Target(r: RefFs, q: Place, how: DstLookup): Slot
    requires Answered(r, q, how)
  {
    if how.Cached? then how.found else r.refs[q]
  }

  /** When a rename fails: the source is not there, or the lookups of `rename` itself have emptied the
      directory it was in (the source is that directory, or the new name is and its node is dropped). */
  lemma RenameErrors(r: RefFs, p: Place, q: Place, how: DstLookup, t: NodeId)
    requires p.dir in r.inodes && t !in r.nodes
    ensures var (after, outcome) := RefRename(r, p, q, how, t);
            && (p !in r.refs ==> outcome == Err(if r.inodes[p.dir] then NotFound else NotADirectory))
            && (p in r.refs && outcome.Err? ==> outcome == Err(NotFound))
            && (p in r.refs ==>
                  (outcome.Err? <==> Answered(r, q, how) && Target(r, q, how) != r.refs[p] &&
                                     (p.dir == r.refs[p] || (how == Fresh(false) && r.refs[q] == p.dir))))
  {
  }

  /** Renaming to a name that is not there moves the name and does nothing else to names or nodes. */
  lemma RenameToFree(r: RefFs, p: Place, q: Place, retained: bool, t: NodeId, x: Place)
    requires p.dir in r.inodes && p in r.refs && q !in r.refs && t !in r.nodes
    ensures var (after, outcome) := RefRename(r, p, q, Fresh(retained), t);
            && outcome.Ok? && p !in after.refs && q in after.refs && after.refs[q] == r.refs[p] && after.nodes == r.nodes
            && (x != p && x != q ==> (x in after.refs <==> x in r.refs) && (x in r.refs ==> after.refs[x] == r.refs[x]))
  {
  }

  /** The root with a directory `d` that has a file `x` in it and a second name `e`, and a file `f`,
      just as creating and linking them leaves it. */
  ghost function Example(): RefFs
  {
    Abs(Initial()).Create(Place(0, "d"), true, 1, 1).Create(Place(1, "x"), false, 2, 2)
      .Create(Place(0, "f"), false, 3, 3).Link(Place(0, "e"), 1, 4)
  }

  lemma ExampleRefs()
    ensures var r := Example();
            && 0 in r.inodes && 5 !in r.nodes
            && Place(0, "d") in r.refs && r.refs[Place(0, "d")] == 1
            && Place(0, "e") in r.refs && r.refs[Place(0, "e")] == 1
            && Place(0, "f") in r.refs && r.refs[Place(0, "f")] == 3
            && Place(1, "x") in r.refs && r.refs[Place(1, "x")] == 2
  {
  }

  /** Onto a name that the lookup finds, for another inode or for the same one, the rename of a directory
      `y` that lies elsewhere succeeds, and `y` has no entries afterwards. Onto another inode the name
      moves; onto the same one it stays. Apart from what was in `y`, and what was in a directory that had
      the new name if its node was not retained, no other name is touched. */
  lemma RenameOntoTaken(r: RefFs, p: Place, q: Place, how: DstLookup, t: NodeId, x: Place)
    requires p.dir in r.inodes && p in r.refs && t !in r.nodes && Answered(r, q, how)
    requires p.dir != r.refs[p] && q.dir != r.refs[p] && (how == Fresh(false) ==> p.dir != r.refs[q])
    ensures var y := r.refs[p];
            var (after, outcome) := RefRename(r, p, q, how, t);
            && outcome.Ok? && (forall z :: z in after.refs ==> z.dir != y)
            && (if Target(r, q, how) == y then p in after.refs && after.refs[p] == y
                else (p != q ==> p !in after.refs) && q in after.refs && after.refs[q] == y)
            && (x != p && x != q && x.dir != y && (how == Fresh(false) ==> x.dir != r.refs[q]) ==>
                  (x in after.refs <==> x in r.refs) && (x in r.refs ==> after.refs[x] == r.refs[x]))
  {
  }

  /** Renaming `d` onto the file `f`, or onto its own other name `e`, succeeds and loses `x`. */
  lemma RenameLosesContents(how: DstLookup, onto: string)
    requires how.Fresh? && (onto == "f" || onto == "e")
    ensures Place(1, "x") in Example().refs && 0 in Example().inodes
    ensures var (after, outcome) := RefRename(Example(), Place(0, "d"), Place(0, onto), how, 5);
            outcome.Ok? && Place(1, "x") !in after.refs
  {
    ExampleRefs();
    RenameOntoTaken(Example(), Place(0, "d"), Place(0, onto), how, 5, Place(1, "x"));
  }

  ghost predicate Closed(r: RefFs)
  {
    && (forall p :: p in r.refs ==> p.dir in r.inodes && r.refs[p] in r.inodes)
    && (forall m :: m in r.nodes ==> r.nodes[m] in r.inodes)
    && (forall k :: k in r.inodes ==> r.Named(k) || r.Held(k))
  }

  /** Creating an entry, dropping its node and unlinking it leaves no trace. */
  lemma CreateUndone(r: RefFs, p: Place, isDir: bool, k: Slot, m: NodeId)
    requires Closed(r) && p.dir in r.inodes && p !in r.refs && k !in r.inodes && m !in r.nodes
    ensures r.Create(p, isDir, k, m).DropNode(m).Remove(p) == r
  {
    CreatedAndDropped(r, p, isDir, k, m);
    RemovedAgain(r, p, k, r.Create(p, isDir, k, m).DropNode(m));
  }

  lemma RemovedAgain(r: RefFs, p: Place, k: Slot, d: RefFs)
    requires Closed(r) && p !in r.refs && d.refs == r.refs[p := k] && d.nodes == r.nodes
    requires forall j :: j in r.inodes ==> j in d.inodes && d.inodes[j] == r.inodes[j]
    ensures d.Remove(p) == r
  {
    var e := RefFs(d.inodes, r.refs, r.nodes);
    assert d.(refs := d.refs - {p}) == e by { assert d.refs - {p} == r.refs; }
    CollectTo(e, r);
  }

  lemma CollectTo(e: RefFs, r: RefFs)
    requires Closed(r) && e.refs == r.refs && e.nodes == r.nodes
    requires forall j :: j in r.inodes ==> j in e.inodes && e.inodes[j] == r.inodes[j]
    ensures e.Collect() == r
  {
    forall j: Slot ensures e.Named(j) || e.Held(j) <==> j in r.inodes { ClosedAt(r, e, j); }
    CollectKeeps(e, r.inodes);
  }

  lemma CollectKeeps(e: RefFs, kept: map<Slot, bool>)
    requires forall j: Slot :: e.Named(j) || e.Held(j) <==> j in kept
    requires forall j :: j in kept ==> j in e.inodes && e.inodes[j] == kept[j]
    ensures e.Collect() == e.(inodes := kept)
  {
    assert e.Collect().inodes == kept;
  }

  lemma ClosedAt(r: RefFs, e: RefFs, j: Slot)
    requires Closed(r) && e.refs == r.refs && e.nodes == r.nodes
    ensures e.Named(j) || e.Held(j) <==> j in r.inodes
  {
    assert e.Named(j) == r.Named(j) && e.Held(j) == r.Held(j);
  }

  lemma CreatedAndDropped(r: RefFs, p: Place, isDir: bool, k: Slot, m: NodeId)
    requires Closed(r) && p.dir in r.inodes && p !in r.refs && k !in r.inodes && m !in r.nodes
    ensures var d := r.Create(p, isDir, k, m).DropNode(m);
            && d.refs == r.refs[p := k] && d.nodes == r.nodes
            && d.inodes.Keys <= r.inodes.Keys + {k}
            && forall j :: j in r.inodes ==> j in d.inodes && d.inodes[j] == r.inodes[j]
  {
    var c := r.Create(p, isDir, k, m);
    CreatedEmptied(r, p, isDir, k, m);
    var d := RefFs(c.inodes, r.refs[p := k], r.nodes);
    forall j | j in r.inodes ensures d.Named(j) || d.Held(j) { SameReferences(r, p, k, d, j); }
  }

  lemma CreatedEmptied(r: RefFs, p: Place, isDir: bool, k: Slot, m: NodeId)
    requires p !in r.refs && p.dir != k && m !in r.nodes && forall x :: x in r.refs ==> x.dir != k
    ensures var c := r.Create(p, isDir, k, m);
            c.refs - c.EntriesOf(k).Keys == r.refs[p := k] && c.nodes - {m} == r.nodes
  {
    var c := r.Create(p, isDir, k, m);
    assert c.nodes - {m} == r.nodes;
  }

  lemma SameReferences(r: RefFs, p: Place, k: Slot, d: RefFs, j: Slot)
    requires r.Named(j) || r.Held(j)
    requires p !in r.refs && d.refs == r.refs[p := k] && d.nodes == r.nodes
    ensures d.Named(j) || d.Held(j)
  {
    if r.Named(j) {
      var x :| x in r.refs && r.refs[x] == j;
      assert x in d.refs && d.refs[x] == j;
    }
  }

  lemma AbsWithRef(s: Fs, p: Place, k: Slot)
    requires k in s.slab
    ensures Abs(WithRef(s, p, k)) == Abs(s).(refs := s.refs[p := k])
  {
    assert Abs(WithRef(s, p, k)).inodes == Abs(s).inodes;
  }

  ghost function Created(s: Fs, p: Place, k: Slot, id: nat, isDir: bool, m: NodeId): Fs
    requires p.dir in s.slab && k !in s.slab
  {
    var s1 := WithNode(s.(slab := s.slab[k := Inode(id, 0, isDir)]), m, k);
    var s2 := if isDir then WithRef(WithRef(s1, Place(k, "."), k), Place(k, ".."), p.dir) else s1;
    WithRef(s2, p, k)
  }

  lemma CreatedInv(s: Fs, p: Place, k: Slot, id: nat, isDir: bool, m: NodeId)
    requires Inv(s) && k !in s.slab && m !in s.nodes && p.dir in s.slab && p !in s.refs
    requires s.slab[p.dir].isDir && IsHeld(s.nodes, p.dir)
    ensures Inv(Created(s, p, k, id, isDir, m))
    ensures Abs(Created(s, p, k, id, isDir, m)) == Abs(s).Create(p, isDir, k, m)
  {
    var s1 := WithNode(s.(slab := s.slab[k := Inode(id, 0, isDir)]), m, k);
    NewInodeInv(s, k, id, isDir, m);
    WithNodeHeld(s.nodes, m, Handle(k, id));
    assert p.dir != k;
    if isDir {
      var s2 := WithRef(s1, Place(k, "."), k);
      assert Place(k, ".") !in s1.refs && Place(k, "..") !in s2.refs;
      WithRefInv(s1, Place(k, "."), k);
      WithRefInv(s2, Place(k, ".."), p.dir);
      WithRefInv(WithRef(s2, Place(k, ".."), p.dir), p, k);
    } else {
      WithRefInv(s1, p, k);
    }
    AbsCreated(s, p, k, id, isDir, m);
  }

  lemma AbsCreated(s: Fs, p: Place, k: Slot, id: nat, isDir: bool, m: NodeId)
    requires k !in s.slab && m !in s.nodes && p.dir in s.slab
    ensures Abs(Created(s, p, k, id, isDir, m)) == Abs(s).Create(p, isDir, k, m)
  {
    var s0 := s.(slab := s.slab[k := Inode(id, 0, isDir)]);
    var s1 := WithNode(s0, m, k);
    assert Abs(s1).inodes == Abs(s).inodes[k := isDir];
    assert Abs(s1).nodes == Abs(s).nodes[m := k];
    if isDir {
      var s2 := WithRef(s1, Place(k, "."), k);
      AbsWithRef(s1, Place(k, "."), k);
      AbsWithRef(s2, Place(k, ".."), p.dir);
      AbsWithRef(WithRef(s2, Place(k, ".."), p.dir), p, k);
    } else {
      AbsWithRef(s1, p, k);
    }
  }

  ghost function Cleared(s: Fs, k: Slot): Fs
  {
    s.(refs := s.refs - (map p | p in s.refs && p.dir == k :: s.refs[p]).Keys)
  }

  /** Emptying the directory and releasing the node is the count-free `DropNode`. */
  lemma DropNodeCollects(s: Fs, t: Fs, m: NodeId)
    requires Inv(t) && m in s.nodes && Shrunk(Cleared(s, s.nodes[m].slot), t)
    ensures Inv(WithoutNode(t, m)) && Abs(WithoutNode(t, m)) == Abs(s).DropNode(m)
    ensures WithoutNode(t, m).slab.Keys <= s.slab.Keys
    ensures forall k :: k in WithoutNode(t, m).slab ==> WithoutNode(t, m).slab[k].id == s.slab[k].id
  {
    var c := Cleared(s, s.nodes[m].slot);
    WithoutNodeShrunk(c, t, m);
    WithoutNodeInv(t, m);
    ShrunkCollects(c.(nodes := c.nodes - {m}), WithoutNode(t, m));
    AbsDropped(s, m);
  }

  lemma AbsDropped(s: Fs, m: NodeId)
    requires m in s.nodes
    ensures Abs(Cleared(s, s.nodes[m].slot).(nodes := s.nodes - {m})).Collect() == Abs(s).DropNode(m)
  {
    var k := s.nodes[m].slot;
    assert (map p | p in s.refs && p.dir == k :: s.refs[p]) == Abs(s).EntriesOf(k);
    assert Abs(Cleared(s, k).(nodes := s.nodes - {m})).nodes == Abs(s).nodes - {m};
  }
}
