/**
 The futex protocol as atomic steps (core/src/futex.rs, core/src/task.rs, and the WAIT, WAKE and
 REQUEUE branches of api/src/syscall/sync/futex.rs).

 The clients are as general as possible: at any time anybody may take an `Arc` of a region's table,
 take a guard through it, wait or wake or requeue through guards, and drop what it holds. Every
 interleaving of `sys_futex` calls is among the runs. Dropping a guard (its test and its removal) is
 one step; `DelayedRemovalIff` says exactly what that assumption is worth.
 */
module FutexProtocol {
  import opened FutexQueue

  /** One allocation of a `FutexTable`, made for `region`. */
  datatype Table = Table(region: nat, serial: nat)

  /** A key of a table's map. */
  datatype Slot = Slot(table: Table, offset: nat)

  /** One allocation of a `FutexEntry`, made for `slot`. */
  datatype Entry = Entry(slot: Slot, serial: nat)

  /** A live `FutexGuard`: the `Arc<FutexTable>` it borrows from, its key, its entry. */
  datatype Guard = Guard(holder: nat, slot: Slot, entry: Entry)

  datatype State = State(
    words: map<Word, nat>,
    tables: map<nat, Table>,
    slots: map<Slot, Entry>,
    queues: map<Entry, seq<Waiter>>,
    holders: map<nat, Table>,
    guards: map<nat, Guard>,
    operations: nat,
    serial: nat)

  datatype Action =
    | Store(word: Word, value: nat)
    | TakeTable(holder: nat, region: nat)
    | DropTable(holder: nat)
    | Get(guard: nat, holder: nat, offset: nat)
    | GetOrInsert(guard: nat, holder: nat, offset: nat)
    | Wait(guard: nat, task: nat, bits: bv32, expected: nat)
    | Wake(guard: nat, count: nat, mask: bv32)
    | Requeue(guard: nat, target: nat, count: nat)
    | DropGuard(guard: nat)

  ghost const INIT := State(map[], map[], map[], map[], map[], map[], 0, 0)

  ghost function Queue(s: State, e: Entry): seq<Waiter> { if e in s.queues then s.queues[e] else [] }

  ghost function Read(s: State, w: Word): nat { if w in s.words then s.words[w] else 0 }

  ghost function WordOf(slot: Slot): Word { Word(slot.table.region, slot.offset) }

  predicate TableHeld(holders: map<nat, Table>, t: Table) { exists h :: h in holders && holders[h] == t }

  predicate TableUsed(slots: map<Slot, Entry>, t: Table) { exists k :: k in slots && k.table == t }

  /** The tables that somebody holds or that have entries. */
  function Needed(tables: map<nat, Table>, holders: map<nat, Table>, slots: map<Slot, Entry>): map<nat, Table>
  {
    map r | r in tables && (TableHeld(holders, tables[r]) || TableUsed(slots, tables[r])) :: tables[r]
  }

  /** The sweep of `FutexTables::get_or_insert`: every hundredth call drops the tables that nobody
      else holds and that have no entries. */
  ghost function Swept(s: State): State
  {
    var due := s.operations + 1 == 100;
    s.(operations := if due then 0 else s.operations + 1,
       tables := if due then Needed(s.tables, s.holders, s.slots) else s.tables)
  }

  ghost function WithTable(s: State, region: nat): State
  {
    if region in s.tables then s
    else s.(tables := s.tables[region := Table(region, s.serial)], serial := s.serial + 1)
  }

  ghost function GuardsOn(s: State, e: Entry): set<nat> { set g | g in s.guards && s.guards[g].entry == e }

  /** `Arc::strong_count` of an entry: the guards, and the table while it holds that very entry. */
  ghost function StrongCount(s: State, e: Entry): nat
  {
    |GuardsOn(s, e)| + if e.slot in s.slots && s.slots[e.slot] == e then 1 else 0
  }

  ghost function WithEntry(s: State, k: Slot): State
  {
    if k in s.slots then s
    else s.(slots := s.slots[k := Entry(k, s.serial)], serial := s.serial + 1)
  }

  ghost predicate Enabled(s: State, a: Action)
  {
    match a
    case Store(_, _) => true
    case TakeTable(h, _) => h !in s.holders
    case DropTable(h) => h in s.holders && forall g :: g in s.guards ==> s.guards[g].holder != h
    case Get(g, h, _) => g !in s.guards && h in s.holders
    case GetOrInsert(g, h, _) => g !in s.guards && h in s.holders
    case Wait(g, _, _, _) => g in s.guards
    case Wake(g, _, _) => g in s.guards
    case Requeue(g, t, _) => g in s.guards && t in s.guards
    case DropGuard(g) => g in s.guards
  }

  ghost function TookTable(s: State, h: nat, r: nat): (t: State)
    ensures t.queues == s.queues && t.guards == s.guards && t.slots == s.slots && t.words == s.words
  {
    var t := WithTable(Swept(s), r);
    t.(holders := t.holders[h := t.tables[r]])
  }

  ghost function Got(s: State, g: nat, h: nat, k: Slot): (t: State)
    ensures t.queues == s.queues && t.slots == s.slots && t.words == s.words && t.holders == s.holders
  {
    if k in s.slots then s.(guards := s.guards[g := Guard(h, k, s.slots[k])]) else s
  }

  ghost function Waited(s: State, gd: Guard, task: nat, bits: bv32, expected: nat): State
  {
    var w := WordOf(gd.slot);
    if Read(s, w) != expected then s
    else s.(queues := s.queues[gd.entry := Queue(s, gd.entry) + [Waiter(task, bits, w, expected)]])
  }

  ghost function Drained(s: State, e: Entry, f: Entry, count: nat): State
  {
    var n := Min(count, |Queue(s, e)|);
    var t := s.(queues := s.queues[e := Queue(s, e)[n..]]);
    t.(queues := t.queues[f := Queue(t, f) + Queue(s, e)[..n]])
  }

  ghost function Dropped(s: State, g: nat): State
    requires g in s.guards
  {
    var gd := s.guards[g];
    s.(guards := s.guards - {g},
       slots := if StrongCount(s, gd.entry) <= 2 && Queue(s, gd.entry) == [] then s.slots - {gd.slot} else s.slots)
  }

  ghost function Next(s: State, a: Action): State
    requires Enabled(s, a)
  {
    match a
    case Store(w, v) => s.(words := s.words[w := v])
    case TakeTable(h, r) => TookTable(s, h, r)
    case DropTable(h) => s.(holders := s.holders - {h})
    case Get(g, h, o) => Got(s, g, h, Slot(s.holders[h], o))
    case GetOrInsert(g, h, o) => var k := Slot(s.holders[h], o); Got(WithEntry(s, k), g, h, k)
    case Wait(g, task, bits, expected) => Waited(s, s.guards[g], task, bits, expected)
    case Wake(g, count, mask) =>
      var e := s.guards[g].entry;
      s.(queues := s.queues[e := Kept(Queue(s, e), count, mask)])
    case Requeue(g, t, count) => Drained(s, s.guards[g].entry, s.guards[t].entry, count)
    case DropGuard(g) => Dropped(s, g)
  }

  // ---------------------------------------------------------------------------------- invariant

  /** All holders of a region's table hold the one the registry knows. */
  ghost predicate HoldersOk(s: State)
  {
    && (forall h :: h in s.holders ==> s.holders[h].region in s.tables && s.tables[s.holders[h].region] == s.holders[h])
    && (forall r :: r in s.tables ==> s.tables[r].region == r)
  }

  /** Every guard's entry is the one its table holds at its key. */
  ghost predicate GuardsOk(s: State)
  {
    forall g :: g in s.guards ==>
      var gd := s.guards[g];
      && gd.holder in s.holders && s.holders[gd.holder] == gd.slot.table
      && gd.slot in s.slots && s.slots[gd.slot] == gd.entry
  }

  ghost predicate SlotsOk(s: State)
  {
    forall k :: k in s.slots ==>
      && s.slots[k].slot == k
      && k.table.region in s.tables && s.tables[k.table.region] == k.table
  }

  /** An entry with waiters is reachable: its table holds it, and the registry its table. */
  ghost predicate QueuesOk(s: State)
  {
    forall e :: e in s.queues && s.queues[e] != [] ==> e.slot in s.slots && s.slots[e.slot] == e
  }

  ghost predicate Inv(s: State) { HoldersOk(s) && GuardsOk(s) && SlotsOk(s) && QueuesOk(s) }

  lemma TakeTableInv(s: State, h: nat, r: nat)
    requires Inv(s) && Enabled(s, TakeTable(h, r))
    ensures Inv(Next(s, TakeTable(h, r)))
  {
    SweptInv(s);
    WithTableInv(Swept(s), r);
    AddHolderInv(WithTable(Swept(s), r), h, r);
  }

  lemma AddHolderInv(s: State, h: nat, r: nat)
    requires Inv(s) && h !in s.holders && r in s.tables
    ensures Inv(s.(holders := s.holders[h := s.tables[r]]))
  {}

  lemma SweptKeeps(s: State, r: nat)
    requires r in s.tables
    ensures r in Swept(s).tables || (!TableHeld(s.holders, s.tables[r]) && !TableUsed(s.slots, s.tables[r]))
  {}

  lemma SweptHolders(s: State)
    requires HoldersOk(s)
    ensures HoldersOk(Swept(s))
  {
    forall h | h in s.holders ensures s.holders[h].region in Swept(s).tables {
      assert TableHeld(s.holders, s.holders[h]);
      SweptKeeps(s, s.holders[h].region);
    }
  }

  lemma SweptSlots(s: State)
    requires SlotsOk(s)
    ensures SlotsOk(Swept(s))
  {
    forall k | k in s.slots ensures k.table.region in Swept(s).tables {
      assert TableUsed(s.slots, k.table);
      SweptKeeps(s, k.table.region);
    }
  }

  /** The sweep discards no table that somebody holds and no table with entries. */
  lemma SweptInv(s: State)
    requires Inv(s)
    ensures Inv(Swept(s))
  {
    SweptHolders(s);
    SweptSlots(s);
  }

  lemma WithTableInv(s: State, r: nat)
    requires Inv(s)
    ensures Inv(WithTable(s, r))
  {}

  lemma WithEntryInv(s: State, k: Slot)
    requires Inv(s) && k.table.region in s.tables && s.tables[k.table.region] == k.table
    ensures Inv(WithEntry(s, k))
  {}

  lemma AddGuardInv(s: State, g: nat, h: nat, k: Slot)
    requires Inv(s) && g !in s.guards && h in s.holders && s.holders[h] == k.table && k in s.slots
    ensures Inv(s.(guards := s.guards[g := Guard(h, k, s.slots[k])]))
  {}

  lemma GetInv(s: State, a: Action)
    requires Inv(s) && Enabled(s, a) && (a.Get? || a.GetOrInsert?)
    ensures Inv(Next(s, a))
  {
    var k := Slot(s.holders[a.holder], a.offset);
    if a.GetOrInsert? {
      WithEntryInv(s, k);
      AddGuardInv(WithEntry(s, k), a.guard, a.holder, k);
    } else if k in s.slots {
      AddGuardInv(s, a.guard, a.holder, k);
    }
  }

  lemma DropTableInv(s: State, h: nat)
    requires Inv(s) && Enabled(s, DropTable(h))
    ensures Inv(Next(s, DropTable(h)))
  {}

  lemma DropGuardInv(s: State, g: nat)
    requires Inv(s) && Enabled(s, DropGuard(g))
    ensures Inv(Next(s, DropGuard(g)))
  {
    LastGuardIff(s, g);
  }

  /** The count test tells exactly whether this is the only guard on the entry. */
  lemma LastGuardIff(s: State, g: nat)
    requires GuardsOk(s) && SlotsOk(s) && g in s.guards
    ensures StrongCount(s, s.guards[g].entry) <= 2 <==>
            forall x :: x in s.guards && s.guards[x].slot == s.guards[g].slot ==> x == g
  {
    var e := s.guards[g].entry;
    assert g in GuardsOn(s, e);
    if |GuardsOn(s, e)| <= 1 {
      forall x | x in s.guards && s.guards[x].slot == s.guards[g].slot ensures x == g {
        assert x in GuardsOn(s, e);
        if x != g { assert {x, g} <= GuardsOn(s, e); CardAtMost({x, g}, GuardsOn(s, e)); }
      }
    }
    if forall x :: x in s.guards && s.guards[x].slot == s.guards[g].slot ==> x == g {
      assert GuardsOn(s, e) == {g};
    }
  }

  lemma CardAtMost(a: set<nat>, b: set<nat>)
    requires a <= b
    ensures |a| <= |b|
  {
    if a != {} {
      var x :| x in a;
      CardAtMost(a - {x}, b - {x});
    }
  }

  lemma QueueStepInv(s: State, a: Action)
    requires Inv(s) && Enabled(s, a) && (a.Wait? || a.Wake? || a.Requeue?)
    ensures Inv(Next(s, a))
  {
    if a.Wake? {
      var q := Queue(s, s.guards[a.guard].entry);
      KeptFrom(q, a.count, a.mask);
      if q == [] { assert Kept(q, a.count, a.mask) == []; }
    }
  }

  lemma StepInv(s: State, a: Action)
    requires Inv(s) && Enabled(s, a)
    ensures Inv(Next(s, a))
  {
    match a
    case Store(_, _) =>
    case TakeTable(h, r) => TakeTableInv(s, h, r);
    case DropTable(h) => DropTableInv(s, h);
    case Get(_, _, _) => GetInv(s, a);
    case GetOrInsert(_, _, _) => GetInv(s, a);
    case Wait(_, _, _, _) => QueueStepInv(s, a);
    case Wake(_, _, _) => QueueStepInv(s, a);
    case Requeue(_, _, _) => QueueStepInv(s, a);
    case DropGuard(g) => DropGuardInv(s, g);
  }

  // --------------------------------------------------------------------------------------- runs

  /** A run: its states, the first one empty, and the actions between them. */
  ghost predicate IsRun(states: seq<State>, acts: seq<Action>)
  {
    && |states| == |acts| + 1
    && states[0] == INIT
    && forall i :: 0 <= i < |acts| ==> Enabled(states[i], acts[i]) && states[i + 1] == Next(states[i], acts[i])
  }

  /** Table invariant: in every state of every run, each guard's entry is the one its table holds at
      its key, all holders of a region's table hold the same one, and an entry with waiters is
      reachable from the registry. */
  lemma {:induction false} RunInv(states: seq<State>, acts: seq<Action>, k: nat)
    requires IsRun(states, acts) && k < |states|
    ensures Inv(states[k])
  {
    if k > 0 {
      RunInv(states, acts, k - 1);
      StepInv(states[k - 1], acts[k - 1]);
    }
  }

  /** Removal by key never takes away an entry with waiters, nor one that another guard still uses:
      whatever disappears from a table in a run was empty and unshared. */
  lemma RemovedWasIdle(states: seq<State>, acts: seq<Action>, i: nat, k: Slot)
    requires IsRun(states, acts) && i < |acts| && k in states[i].slots && k !in states[i + 1].slots
    ensures acts[i].DropGuard? && states[i].guards[acts[i].guard].slot == k
    ensures Queue(states[i], states[i].slots[k]) == []
    ensures forall x :: x in states[i].guards && states[i].guards[x].slot == k ==> x == acts[i].guard
  {
    RunInv(states, acts, i);
    OnlyDropRemoves(states[i], acts[i], k);
  }

  lemma OnlyDropRemoves(s: State, a: Action, k: Slot)
    requires Inv(s) && Enabled(s, a) && k in s.slots && k !in Next(s, a).slots
    ensures a.DropGuard? && s.guards[a.guard].slot == k && Queue(s, s.slots[k]) == []
    ensures forall x :: x in s.guards && s.guards[x].slot == k ==> x == a.guard
  {
    SlotsStay(s, a, k);
    LastGuardIff(s, a.guard);
  }

  lemma SlotsStay(s: State, a: Action, k: Slot)
    requires Enabled(s, a) && k in s.slots && k !in Next(s, a).slots
    ensures a.DropGuard? && s.guards[a.guard].slot == k
    ensures StrongCount(s, s.guards[a.guard].entry) <= 2 && Queue(s, s.guards[a.guard].entry) == []
  {
  }

  /** All current holders of a region's table hold the same one. */
  lemma HoldersAgree(states: seq<State>, acts: seq<Action>, k: nat, h: nat, h': nat)
    requires IsRun(states, acts) && k < |states| && h in states[k].holders && h' in states[k].holders
    requires states[k].holders[h].region == states[k].holders[h'].region
    ensures states[k].holders[h] == states[k].holders[h']
  {
    RunInv(states, acts, k);
  }

  /** A table that disappears from the registry had no holder and no entries. */
  lemma SweepDiscardsIdle(states: seq<State>, acts: seq<Action>, i: nat, r: nat)
    requires IsRun(states, acts) && i < |acts| && r in states[i].tables && r !in states[i + 1].tables
    ensures acts[i].TakeTable? && states[i].operations == 99
    ensures !TableHeld(states[i].holders, states[i].tables[r]) && !TableUsed(states[i].slots, states[i].tables[r])
  {
    TablesStay(states[i], acts[i], r);
  }

  lemma TablesStay(s: State, a: Action, r: nat)
    requires Enabled(s, a) && r in s.tables && r !in Next(s, a).tables
    ensures a.TakeTable? && s.operations == 99
    ensures !TableHeld(s.holders, s.tables[r]) && !TableUsed(s.slots, s.tables[r])
  {
    match a
    case TakeTable(h, q) =>
      assert r !in Swept(s).tables;
      SweptKeeps(s, r);
    case _ =>
  }

  ghost predicate NoRequeue(acts: seq<Action>) { forall a :: a in acts ==> !a.Requeue? }

  /** Without requeues everybody queues on the word they are sleeping on. */
  ghost predicate AtHome(s: State)
  {
    forall e, w :: e in s.queues && w in s.queues[e] ==> w.word == WordOf(e.slot)
  }

  /** Apart from requeues a step leaves every queue as it is, shortens the one it wakes from, or lets
      one waiter join the queue of the word it has just read. */
  lemma WaitersAfter(s: State, a: Action, e: Entry, w: Waiter)
    requires Enabled(s, a) && !a.Requeue? && e in Next(s, a).queues && w in Next(s, a).queues[e]
    ensures (e in s.queues && w in s.queues[e]) ||
            (a.Wait? && e == s.guards[a.guard].entry && w == Waiter(a.task, a.bits, WordOf(s.guards[a.guard].slot), a.expected)
             && Read(s, w.word) == w.expected)
  {
    if a.Wake? { KeptFrom(Queue(s, s.guards[a.guard].entry), a.count, a.mask); }
  }

  lemma StepAtHome(s: State, a: Action)
    requires Inv(s) && AtHome(s) && Enabled(s, a) && !a.Requeue?
    ensures AtHome(Next(s, a))
  {
    var t := Next(s, a);
    forall e, w | e in t.queues && w in t.queues[e] ensures w.word == WordOf(e.slot) { WaitersAfter(s, a, e, w); }
  }

  lemma {:induction false} RunAtHome(states: seq<State>, acts: seq<Action>, k: nat)
    requires IsRun(states, acts) && NoRequeue(acts) && k < |states|
    ensures AtHome(states[k])
  {
    if k > 0 {
      RunAtHome(states, acts, k - 1);
      RunInv(states, acts, k - 1);
      assert acts[k - 1] in acts;
      StepAtHome(states[k - 1], acts[k - 1]);
    }
  }

  /** Somebody sleeps on `word` expecting `v`, reachable by `mask`. */
  ghost predicate Sleeping(s: State, word: Word, v: nat, mask: bv32)
  {
    exists e, w :: e in s.queues && w in s.queues[e] && w.word == word && w.expected == v && Matches(w, mask)
  }

  /** A FUTEX_WAKE on `word` that may wake everybody there: either the table has no entry, or the
      wake-up through the guard has a sufficient count. */
  ghost predicate WakesAll(s: State, a: Action, word: Word, mask: bv32)
  {
    || (a.Get? && a.holder in s.holders && s.holders[a.holder].region == word.region && a.offset == word.offset
        && Slot(s.holders[a.holder], a.offset) !in s.slots)
    || (a.Wake? && a.guard in s.guards && WordOf(s.guards[a.guard].slot) == word && a.mask == mask
        && a.count >= |Queue(s, s.guards[a.guard].entry)|)
  }

  lemma WakeMissFindsNobody(s: State, a: Action, word: Word, v: nat, mask: bv32)
    requires Inv(s) && AtHome(s) && a.Get? && WakesAll(s, a, word, mask)
    ensures !Sleeping(s, word, v, mask)
  {}

  lemma WakeLeavesNobody(s: State, a: Action, word: Word, v: nat, mask: bv32)
    requires Inv(s) && AtHome(s) && Enabled(s, a) && a.Wake? && WakesAll(s, a, word, mask)
    ensures !Sleeping(Next(s, a), word, v, mask)
  {
    var e := s.guards[a.guard].entry;
    WakeAllLeavesNone(Queue(s, e), a.count, mask);
    forall f, w | f in s.queues && w in s.queues[f] && w.word == word ensures f == e {
      assert s.queues[f] != [];
    }
  }

  lemma NobodyComes(s: State, a: Action, word: Word, v: nat, mask: bv32)
    requires Enabled(s, a) && !a.Requeue? && !Sleeping(s, word, v, mask) && Read(s, word) != v
    ensures !Sleeping(Next(s, a), word, v, mask)
  {
    var t := Next(s, a);
    if e, w :| e in t.queues && w in t.queues[e] && w.word == word && w.expected == v && Matches(w, mask) {
      WaitersAfter(s, a, e, w);
    }
  }

  /** No lost wake-up. Take any run without requeues. If the word differs from `v` from step `j` on,
      and step `j` is a wake-up of everybody on the word, then nobody who went to sleep expecting `v`
      is still asleep at any later time `k` up to which `v` has not been stored again. */
  lemma {:induction false} NoLostWakeup(states: seq<State>, acts: seq<Action>, j: nat, k: nat, word: Word, v: nat, mask: bv32)
    requires IsRun(states, acts) && NoRequeue(acts) && j < k < |states|
    requires WakesAll(states[j], acts[j], word, mask)
    requires forall i :: j <= i < k ==> Read(states[i], word) != v
    ensures !Sleeping(states[k], word, v, mask)
    decreases k
  {
    RunInv(states, acts, k - 1);
    if k == j + 1 {
      RunAtHome(states, acts, j);
      if acts[j].Wake? {
        WakeLeavesNobody(states[j], acts[j], word, v, mask);
      } else {
        WakeMissFindsNobody(states[j], acts[j], word, v, mask);
      }
    } else {
      NoLostWakeup(states, acts, j, k - 1, word, v, mask);
      assert acts[k - 1] in acts;
      NobodyComes(states[k - 1], acts[k - 1], word, v, mask);
    }
  }

  // ------------------------------------------------------------------------- first come, first served

  /** The step is a wait on entry `e` that finds the value it expects. */
  ghost predicate JoinsAt(s: State, a: Action, e: Entry)
  {
    && a.Wait? && a.guard in s.guards && s.guards[a.guard].entry == e
    && Read(s, WordOf(s.guards[a.guard].slot)) == a.expected
  }

  ghost predicate WakesAt(s: State, a: Action, e: Entry)
  {
    a.Wake? && a.guard in s.guards && s.guards[a.guard].entry == e
  }

  ghost function Newcomer(s: State, a: Action): Waiter
    requires a.Wait? && a.guard in s.guards
  {
    Waiter(a.task, a.bits, WordOf(s.guards[a.guard].slot), a.expected)
  }

  lemma QueueAfter(s: State, a: Action, e: Entry)
    requires Enabled(s, a) && !a.Requeue?
    ensures JoinsAt(s, a, e) ==> Queue(Next(s, a), e) == Queue(s, e) + [Newcomer(s, a)]
    ensures WakesAt(s, a, e) ==> Queue(Next(s, a), e) == Kept(Queue(s, e), a.count, a.mask)
    ensures !JoinsAt(s, a, e) && !WakesAt(s, a, e) ==> Queue(Next(s, a), e) == Queue(s, e)
  {
    if !UsesQueue(a) { SameQueues(s, a); }
  }

  /** The steps at which those in the queue of `e` in state `k` have joined it. */
  ghost function Joins(states: seq<State>, acts: seq<Action>, k: nat, e: Entry): seq<nat>
    requires |states| == |acts| + 1 && k <= |acts|
  {
    if k == 0 then []
    else
      var s, a, before := states[k - 1], acts[k - 1], Joins(states, acts, k - 1, e);
      if JoinsAt(s, a, e) then before + [k - 1]
      else if WakesAt(s, a, e) && |before| == |Queue(s, e)| then KeptMarks(Queue(s, e), before, a.count, a.mask)
      else before
  }

  /** `w` is who joined `e` at step `i`. */
  ghost predicate JoinedAs(states: seq<State>, acts: seq<Action>, i: nat, e: Entry, w: Waiter)
    requires |states| == |acts| + 1
  {
    i < |acts| && JoinsAt(states[i], acts[i], e) && Newcomer(states[i], acts[i]) == w
  }

  ghost predicate InJoinOrder(states: seq<State>, acts: seq<Action>, k: nat, e: Entry)
    requires |states| == |acts| + 1 && k <= |acts|
  {
    var q, at := Queue(states[k], e), Joins(states, acts, k, e);
    && |at| == |q| && Rising(at)
    && (forall n :: 0 <= n < |at| ==> at[n] < k && JoinedAs(states, acts, at[n], e, q[n]))
  }

  /** In every state of every run without requeues, the queue of an entry is made up of those who joined
      it, in the order of the steps in which they did. */
  lemma {:induction false} QueueInJoinOrder(states: seq<State>, acts: seq<Action>, k: nat, e: Entry)
    requires IsRun(states, acts) && NoRequeue(acts) && k <= |acts|
    ensures InJoinOrder(states, acts, k, e)
  {
    if k > 0 {
      QueueInJoinOrder(states, acts, k - 1, e);
      assert acts[k - 1] in acts;
      OrderStep(states, acts, k - 1, e);
    }
  }

  lemma OrderStep(states: seq<State>, acts: seq<Action>, k: nat, e: Entry)
    requires |states| == |acts| + 1 && k < |acts| && InJoinOrder(states, acts, k, e)
    requires Enabled(states[k], acts[k]) && !acts[k].Requeue? && states[k + 1] == Next(states[k], acts[k])
    ensures InJoinOrder(states, acts, k + 1, e)
  {
    QueueAfter(states[k], acts[k], e);
    if WakesAt(states[k], acts[k], e) {
      WakeKeepsOrder(states, acts, k, e);
    } else if JoinsAt(states[k], acts[k], e) {
      JoinKeepsOrder(states, acts, k, e);
    } else {
      OthersKeepOrder(states, acts, k, e);
    }
  }

  lemma JoinKeepsOrder(states: seq<State>, acts: seq<Action>, k: nat, e: Entry)
    requires |states| == |acts| + 1 && k < |acts| && InJoinOrder(states, acts, k, e) && JoinsAt(states[k], acts[k], e)
    requires Queue(states[k + 1], e) == Queue(states[k], e) + [Newcomer(states[k], acts[k])]
    ensures InJoinOrder(states, acts, k + 1, e)
  {
  }

  lemma OthersKeepOrder(states: seq<State>, acts: seq<Action>, k: nat, e: Entry)
    requires |states| == |acts| + 1 && k < |acts| && InJoinOrder(states, acts, k, e)
    requires !JoinsAt(states[k], acts[k], e) && !WakesAt(states[k], acts[k], e)
    requires Queue(states[k + 1], e) == Queue(states[k], e)
    ensures InJoinOrder(states, acts, k + 1, e)
  {
  }

  lemma WakeKeepsOrder(states: seq<State>, acts: seq<Action>, k: nat, e: Entry)
    requires |states| == |acts| + 1 && k < |acts| && InJoinOrder(states, acts, k, e) && WakesAt(states[k], acts[k], e)
    requires Queue(states[k + 1], e) == Kept(Queue(states[k], e), acts[k].count, acts[k].mask)
    ensures InJoinOrder(states, acts, k + 1, e)
  {
    var q, at, count, mask := Queue(states[k], e), Joins(states, acts, k, e), acts[k].count, acts[k].mask;
    KeptMarksRise(q, at, count, mask);
    var left := KeptMarks(q, at, count, mask);
    forall n | 0 <= n < |left| ensures left[n] < k && JoinedAs(states, acts, left[n], e, Kept(q, count, mask)[n]) {
      KeptMarksFrom(q, at, count, mask, n);
    }
  }

  /** First come, first served: if two threads wait on an entry and a wake-up reaches the one that joined
      at the later step, it reaches the other one too, provided that it matches. */
  lemma FirstServed(states: seq<State>, acts: seq<Action>, k: nat, e: Entry, i: nat, j: nat)
    requires IsRun(states, acts) && NoRequeue(acts) && k < |acts| && WakesAt(states[k], acts[k], e)
    requires i < |Queue(states[k], e)| && j < |Queue(states[k], e)|
    ensures InJoinOrder(states, acts, k, e)
    ensures Joins(states, acts, k, e)[i] < Joins(states, acts, k, e)[j] <==> i < j
    ensures i < j && WokenAt(Queue(states[k], e), j, acts[k].count, acts[k].mask) && Matches(Queue(states[k], e)[i], acts[k].mask) ==>
      WokenAt(Queue(states[k], e), i, acts[k].count, acts[k].mask)
  {
    QueueInJoinOrder(states, acts, k, e);
    var q := Queue(states[k], e);
    if i < j && WokenAt(q, j, acts[k].count, acts[k].mask) && Matches(q[i], acts[k].mask) {
      NoOvertaking(q, i, j, acts[k].count, acts[k].mask);
    }
  }

  /** The wake-up at step `k` reaches the one who joined `e` at step `i`. */
  ghost predicate Reached(states: seq<State>, acts: seq<Action>, k: nat, e: Entry, i: nat)
    requires |states| == |acts| + 1
  {
    && k < |acts| && WakesAt(states[k], acts[k], e) && |Joins(states, acts, k, e)| == |Queue(states[k], e)|
    && exists n: nat :: n < |Queue(states[k], e)| && Joins(states, acts, k, e)[n] == i
                        && WokenAt(Queue(states[k], e), n, acts[k].count, acts[k].mask)
  }

  lemma LeavesOnlyWhenReached(states: seq<State>, acts: seq<Action>, k: nat, e: Entry, i: nat)
    requires IsRun(states, acts) && NoRequeue(acts) && k < |acts| && i in Joins(states, acts, k, e)
    ensures i in Joins(states, acts, k + 1, e) <==> !Reached(states, acts, k, e, i)
  {
    QueueInJoinOrder(states, acts, k, e);
    if WakesAt(states[k], acts[k], e) {
      var q, at := Queue(states[k], e), Joins(states, acts, k, e);
      var n: nat :| n < |at| && at[n] == i;
      KeptIff(q, at, acts[k].count, acts[k].mask, n);
    }
  }

  /** A wait that finds the value it expects is in the queue at once, and stays there until a wake-up
      reaches it. */
  lemma {:induction false} WaitsUntilReached(states: seq<State>, acts: seq<Action>, i: nat, k: nat, e: Entry)
    requires IsRun(states, acts) && NoRequeue(acts) && i < k <= |acts| && JoinsAt(states[i], acts[i], e)
    ensures i in Joins(states, acts, k, e) || exists j :: i < j < k && Reached(states, acts, j, e, i)
    decreases k
  {
    if k > i + 1 {
      WaitsUntilReached(states, acts, i, k - 1, e);
      if i in Joins(states, acts, k - 1, e) { LeavesOnlyWhenReached(states, acts, k - 1, e, i); }
    }
  }

  // ----------------------------------------------------------------------- nothing is kept for ever

  /** What dropping a guard does to the table: the entry goes exactly when nobody else has a guard on it
      and nobody waits. */
  lemma DropRemovesIff(s: State, g: nat)
    requires Inv(s) && g in s.guards
    ensures var k := s.guards[g].slot;
            k !in Next(s, DropGuard(g)).slots <==>
            Queue(s, s.guards[g].entry) == [] && forall x :: x in s.guards && s.guards[x].slot == k ==> x == g
  {
    LastGuardIff(s, g);
  }

  /** A sweep (every hundredth time a table is asked for) keeps exactly the tables that are held or have
      entries, beside the one that is asked for; otherwise every table stays. */
  lemma SweepIs(s: State, h: nat, region: nat, r: nat)
    requires h !in s.holders
    ensures var t := Next(s, TakeTable(h, region));
            && region in t.tables && h in t.holders && t.holders[h] == t.tables[region]
            && (r != region && s.operations == 99 ==>
                  (r in t.tables <==> r in s.tables && (TableHeld(s.holders, s.tables[r]) || TableUsed(s.slots, s.tables[r]))))
            && (s.operations != 99 && r in s.tables ==> r in t.tables && t.tables[r] == s.tables[r])
            && t.operations == (if s.operations == 99 then 0 else s.operations + 1)
  {
  }

  /** Every entry in a table has a guard on it or somebody in its queue. */
  ghost predicate NoneIdle(s: State)
  {
    forall k :: k in s.slots ==> Queue(s, s.slots[k]) != [] || exists g :: g in s.guards && s.guards[g].slot == k
  }

  /** How a step can have emptied a slot of users: not at all. */
  lemma IdleStep(s: State, a: Action, k: Slot)
    requires Inv(s) && NoneIdle(s) && Enabled(s, a) && Inv(Next(s, a)) && k in Next(s, a).slots
    ensures Queue(Next(s, a), Next(s, a).slots[k]) != [] || exists g :: g in Next(s, a).guards && Next(s, a).guards[g].slot == k
  {
    if TakesGuard(a) {
      TakenSlots(s, a, k);
    } else if a.DropGuard? {
      DroppedSlots(s, a.guard, k);
    } else if UsesQueue(a) {
      UsedSlots(s, a, k);
    } else {
      SameQueues(s, a);
      SameGuards(s, a);
      SameSlots(s, a);
    }
  }

  lemma SameSlots(s: State, a: Action)
    requires Enabled(s, a) && !a.GetOrInsert? && !a.DropGuard?
    ensures Next(s, a).slots == s.slots
  {
    match a
    case TakeTable(h, r) => assert Next(s, a) == TookTable(s, h, r);
    case Get(g, h, o) => assert Next(s, a) == Got(s, g, h, Slot(s.holders[h], o));
    case _ =>
  }

  lemma TakenSlots(s: State, a: Action, k: Slot)
    requires NoneIdle(s) && Enabled(s, a) && TakesGuard(a) && k in Next(s, a).slots
    ensures Queue(Next(s, a), Next(s, a).slots[k]) != [] || exists g :: g in Next(s, a).guards && Next(s, a).guards[g].slot == k
  {
    var t, mine := Next(s, a), Slot(s.holders[a.holder], a.offset);
    OneMoreGuard(s, a);
    SameQueues(s, a);
    if k == mine {
      TakenIsGuarded(s, a);
    } else if Queue(s, s.slots[k]) == [] {
      var g :| g in s.guards && s.guards[g].slot == k;
      assert g in t.guards && t.guards[g].slot == k;
    }
  }

  lemma TakenIsGuarded(s: State, a: Action)
    requires Enabled(s, a) && TakesGuard(a) && Slot(s.holders[a.holder], a.offset) in Next(s, a).slots
    ensures a.guard in Next(s, a).guards && Next(s, a).guards[a.guard].slot == Slot(s.holders[a.holder], a.offset)
  {
  }

  lemma DroppedSlots(s: State, g: nat, k: Slot)
    requires Inv(s) && NoneIdle(s) && g in s.guards && k in Next(s, DropGuard(g)).slots
    ensures var t := Next(s, DropGuard(g));
            Queue(t, t.slots[k]) != [] || exists x :: x in t.guards && t.guards[x].slot == k
  {
    var t := Next(s, DropGuard(g));
    DropRemovesIff(s, g);
    if k == s.guards[g].slot {
      if Queue(s, s.slots[k]) == [] {
        var x :| x in s.guards && s.guards[x].slot == k && x != g;
        assert x in t.guards && t.guards[x].slot == k;
      }
    } else if Queue(s, s.slots[k]) == [] {
      var x :| x in s.guards && s.guards[x].slot == k;
      assert x in t.guards && t.guards[x].slot == k;
    }
  }

  lemma UsedSlots(s: State, a: Action, k: Slot)
    requires Inv(s) && NoneIdle(s) && Enabled(s, a) && UsesQueue(a) && k in Next(s, a).slots
    ensures Queue(Next(s, a), Next(s, a).slots[k]) != [] || exists g :: g in Next(s, a).guards && Next(s, a).guards[g].slot == k
  {
    SameGuards(s, a);
    SameSlots(s, a);
    var e := s.slots[k];
    if s.guards[a.guard].entry == e {
      assert s.guards[a.guard].slot == k;
    } else if a.Requeue? && s.guards[a.target].entry == e {
      assert s.guards[a.target].slot == k;
    } else {
      OtherQueues(s, a, e);
    }
  }

  /** In every state of every run, an entry without waiters has a guard on it: the drop of the last one
      has removed all others. */
  lemma {:induction false} RunNoneIdle(states: seq<State>, acts: seq<Action>, k: nat)
    requires IsRun(states, acts) && k < |states|
    ensures NoneIdle(states[k])
  {
    if k > 0 {
      RunNoneIdle(states, acts, k - 1);
      RunInv(states, acts, k - 1);
      RunInv(states, acts, k);
      var s, a := states[k - 1], acts[k - 1];
      forall x | x in Next(s, a).slots
        ensures Queue(Next(s, a), Next(s, a).slots[x]) != [] || exists g :: g in Next(s, a).guards && Next(s, a).guards[g].slot == x
      {
        IdleStep(s, a, x);
      }
    }
  }

  /** What requeueing does to the two queues, which may be one. */
  lemma RequeueIs(s: State, g: nat, t: nat, count: nat)
    requires g in s.guards && t in s.guards
    ensures var e, f, u := s.guards[g].entry, s.guards[t].entry, Next(s, Requeue(g, t, count));
            var q, n := Queue(s, e), Min(count, |Queue(s, e)|);
            && (e != f ==> Queue(u, e) == q[n..] && Queue(u, f) == Queue(s, f) + q[..n])
            && (e == f ==> Queue(u, e) == q[n..] + q[..n])
            && (forall x :: x != e && x != f ==> Queue(u, x) == Queue(s, x))
  {
  }

  // ------------------------------------------------------------------- the assumption on dropping

  /** The removal half of `FutexGuard::drop` on its own, as it happens when other steps get in after
      the test. */
  ghost function DelayedRemoval(s: State, g: nat): State
    requires g in s.guards
  {
    s.(guards := s.guards - {g}, slots := s.slots - {s.guards[g].slot})
  }

  /** The delayed removal keeps the invariant exactly when the test would still succeed then. */
  lemma DelayedRemovalIff(s: State, g: nat)
    requires Inv(s) && g in s.guards
    ensures Inv(DelayedRemoval(s, g)) <==>
            StrongCount(s, s.guards[g].entry) <= 2 && Queue(s, s.guards[g].entry) == []
  {
    LastGuardIff(s, g);
    var t := DelayedRemoval(s, g);
    if x :| x in s.guards && s.guards[x].slot == s.guards[g].slot && x != g {
      assert x in t.guards;
    }
  }

  // --------------------------------------------------------- dropping a guard in two steps

  /** The protocol with `FutexGuard::drop` taken apart: `tested` are the guards whose owners have made
      the test and not yet gone on, with its outcome. Nobody else can use such a guard. */
  datatype Split = Split(s: State, tested: map<nat, bool>)

  datatype SplitAction = Whole(act: Action) | Test(guard: nat) | Finish(guard: nat)

  ghost predicate Alone(s: State, g: nat)
  {
    g in s.guards && StrongCount(s, s.guards[g].entry) <= 2 && Queue(s, s.guards[g].entry) == []
  }

  ghost predicate Usable(x: Split, a: Action)
  {
    && (a.Wait? || a.Wake? || a.Requeue? ==> a.guard !in x.tested)
    && (a.Requeue? ==> a.target !in x.tested)
  }

  ghost predicate SplitEnabled(x: Split, a: SplitAction)
  {
    match a
    case Whole(act) => Enabled(x.s, act) && !act.DropGuard? && Usable(x, act)
    case Test(g) => g in x.s.guards && g !in x.tested
    case Finish(g) => g in x.s.guards && g in x.tested
  }

  ghost function SplitNext(x: Split, a: SplitAction): Split
    requires SplitEnabled(x, a)
  {
    match a
    case Whole(act) => x.(s := Next(x.s, act))
    case Test(g) => x.(tested := x.tested[g := Alone(x.s, g)])
    case Finish(g) =>
      Split(if x.tested[g] then DelayedRemoval(x.s, g) else x.s.(guards := x.s.guards - {g}), x.tested - {g})
  }

  ghost predicate IsSplitRun(states: seq<Split>, acts: seq<SplitAction>)
  {
    && |states| == |acts| + 1 && states[0] == Split(INIT, map[])
    && forall i :: 0 <= i < |acts| ==> SplitEnabled(states[i], acts[i]) && states[i + 1] == SplitNext(states[i], acts[i])
  }

  /** The step takes a guard on slot `k`. */
  ghost predicate Takes(s: State, a: SplitAction, k: Slot)
  {
    && a.Whole? && (a.act.Get? || a.act.GetOrInsert?)
    && a.act.holder in s.holders && Slot(s.holders[a.act.holder], a.act.offset) == k
  }

  /** Only the last step of a drop can do harm, and it does exactly when the guard passed the test but
      would not pass it any more. */
  lemma FinishInvIff(x: Split, a: SplitAction)
    requires Inv(x.s) && SplitEnabled(x, a)
    ensures Inv(SplitNext(x, a).s) <==> (a.Finish? && x.tested[a.guard] ==> Alone(x.s, a.guard))
  {
    match a
    case Whole(act) => StepInv(x.s, act);
    case Test(g) =>
    case Finish(g) => if x.tested[g] { DelayedRemovalIff(x.s, g); }
  }

  ghost predicate TakesGuard(a: Action) { a.Get? || a.GetOrInsert? }

  lemma SameGuards(s: State, a: Action)
    requires Enabled(s, a) && !TakesGuard(a) && !a.DropGuard?
    ensures Next(s, a).guards == s.guards
  {
  }

  lemma OneMoreGuard(s: State, a: Action)
    requires Enabled(s, a) && TakesGuard(a)
    ensures var gs := Next(s, a).guards;
            gs == s.guards || (a.guard in gs && gs == s.guards[a.guard := gs[a.guard]]
                               && gs[a.guard].slot == Slot(s.holders[a.holder], a.offset))
  {
  }

  /** A step leaves every guard that it does not finish, and adds one on slot `k` only if it takes one
      there. */
  lemma GuardsAfter(x: Split, a: SplitAction, h: nat, k: Slot)
    requires SplitEnabled(x, a)
    ensures h in x.s.guards && a != Finish(h) ==> h in SplitNext(x, a).s.guards && SplitNext(x, a).s.guards[h] == x.s.guards[h]
    ensures h in SplitNext(x, a).s.guards && SplitNext(x, a).s.guards[h].slot == k && !Takes(x.s, a, k) ==>
      h in x.s.guards && x.s.guards[h].slot == k
  {
    if a.Whole? && TakesGuard(a.act) {
      OneMoreGuard(x.s, a.act);
    } else if a.Whole? {
      SameGuards(x.s, a.act);
    }
  }

  lemma AloneTransfers(s: State, t: State, g: nat)
    requires GuardsOk(s) && SlotsOk(s) && GuardsOk(t) && SlotsOk(t) && Alone(s, g)
    requires g in t.guards && t.guards[g] == s.guards[g] && Queue(t, s.guards[g].entry) == Queue(s, s.guards[g].entry)
    requires forall h :: h in t.guards && t.guards[h].slot == s.guards[g].slot ==>
               h in s.guards && s.guards[h].slot == s.guards[g].slot
    ensures Alone(t, g)
  {
    LastGuardIff(s, g);
    LastGuardIff(t, g);
  }

  ghost predicate UsesQueue(a: Action) { a.Wait? || a.Wake? || a.Requeue? }

  lemma SameQueues(s: State, a: Action)
    requires Enabled(s, a) && !UsesQueue(a)
    ensures Next(s, a).queues == s.queues
  {
    match a
    case TakeTable(h, r) => assert Next(s, a) == TookTable(s, h, r);
    case Get(g, h, o) => assert Next(s, a) == Got(s, g, h, Slot(s.holders[h], o));
    case GetOrInsert(g, h, o) =>
      var k := Slot(s.holders[h], o);
      assert Next(s, a) == Got(WithEntry(s, k), g, h, k);
    case _ =>
  }

  lemma OtherQueues(s: State, a: Action, e: Entry)
    requires Enabled(s, a) && UsesQueue(a) && s.guards[a.guard].entry != e && (a.Requeue? ==> s.guards[a.target].entry != e)
    ensures Queue(Next(s, a), e) == Queue(s, e)
  {
  }

  lemma QueueUntouched(x: Split, a: SplitAction, g: nat)
    requires GuardsOk(x.s) && SlotsOk(x.s) && SplitEnabled(x, a) && g in x.s.guards && g in x.tested
    requires forall h :: h in x.s.guards && x.s.guards[h].slot == x.s.guards[g].slot ==> h == g
    ensures Queue(SplitNext(x, a).s, x.s.guards[g].entry) == Queue(x.s, x.s.guards[g].entry)
  {
    if a.Whole? && UsesQueue(a.act) {
      OtherQueues(x.s, a.act, x.s.guards[g].entry);
    } else if a.Whole? {
      SameQueues(x.s, a.act);
    }
  }

  /** A guard that is alone stays so until somebody takes another guard on its slot. */
  lemma StaysAlone(x: Split, a: SplitAction, g: nat)
    requires Inv(x.s) && SplitEnabled(x, a) && Inv(SplitNext(x, a).s)
    requires Alone(x.s, g) && g in x.tested && a != Finish(g) && !Takes(x.s, a, x.s.guards[g].slot)
    ensures Alone(SplitNext(x, a).s, g) && SameGuard(x, SplitNext(x, a), g)
  {
    var y, k := SplitNext(x, a), x.s.guards[g].slot;
    LastGuardIff(x.s, g);
    QueueUntouched(x, a, g);
    GuardsAfter(x, a, g, k);
    TestedStays(x, a, g);
    forall h | h in y.s.guards && y.s.guards[h].slot == k ensures h in x.s.guards && x.s.guards[h].slot == k {
      GuardsAfter(x, a, h, k);
    }
    AloneTransfers(x.s, y.s, g);
  }

  ghost predicate SameGuard(x: Split, y: Split, g: nat)
  {
    && g in x.s.guards && g in y.s.guards && y.s.guards[g] == x.s.guards[g]
    && g in x.tested && g in y.tested && y.tested[g] == x.tested[g]
  }

  /** Somebody takes a guard on slot `k` in one of the steps from `from` up to `to`. */
  ghost predicate TakenBetween(states: seq<Split>, acts: seq<SplitAction>, from: nat, to: nat, k: Slot)
    requires |states| == |acts| + 1
  {
    exists i :: from <= i < to && i < |acts| && Takes(states[i].s, acts[i], k)
  }

  lemma {:induction false} AloneUntilTaken(states: seq<Split>, acts: seq<SplitAction>, i: nat, k: nat, g: nat)
    requires IsSplitRun(states, acts) && i < k < |states| && g in states[i + 1].tested && Alone(states[i + 1].s, g)
    requires (forall n :: 0 <= n <= k ==> Inv(states[n].s)) && (forall n :: i < n < k ==> acts[n] != Finish(g))
    requires !TakenBetween(states, acts, i + 1, k, states[i + 1].s.guards[g].slot)
    ensures Alone(states[k].s, g) && SameGuard(states[i + 1], states[k], g)
    decreases k
  {
    if k > i + 1 {
      var n := k - 1;
      assert !TakenBetween(states, acts, i + 1, n, states[i + 1].s.guards[g].slot);
      AloneUntilTaken(states, acts, i, n, g);
      assert !Takes(states[n].s, acts[n], states[i + 1].s.guards[g].slot);
      AloneStep(states, acts, n, g);
    }
  }

  lemma AloneStep(states: seq<Split>, acts: seq<SplitAction>, n: nat, g: nat)
    requires IsSplitRun(states, acts) && n < |acts| && Inv(states[n].s) && Inv(states[n + 1].s)
    requires Alone(states[n].s, g) && g in states[n].tested && acts[n] != Finish(g)
    requires !Takes(states[n].s, acts[n], states[n].s.guards[g].slot)
    ensures Alone(states[n + 1].s, g) && SameGuard(states[n], states[n + 1], g)
  {
    StaysAlone(states[n], acts[n], g);
  }

  /** So the two steps are as good as one unless another thread takes a guard on the same key between
      the test and the removal. */
  lemma DropSafeUnlessTaken(states: seq<Split>, acts: seq<SplitAction>, i: nat, j: nat, g: nat)
    requires IsSplitRun(states, acts) && i < j < |acts| && acts[i] == Test(g) && acts[j] == Finish(g)
    requires (forall n :: 0 <= n <= j ==> Inv(states[n].s)) && (forall n :: i < n < j ==> acts[n] != Finish(g))
    ensures Inv(states[j + 1].s) || TakenBetween(states, acts, i + 1, j, states[i].s.guards[g].slot)
  {
    TestStep(states, acts, i, g);
    if !TakenBetween(states, acts, i + 1, j, states[i].s.guards[g].slot) {
      if Alone(states[i].s, g) {
        AloneUntilTaken(states, acts, i, j, g);
      } else {
        FailedStays(states, acts, i, j, g);
      }
      FinishStep(states, acts, j);
    }
  }

  lemma TestStep(states: seq<Split>, acts: seq<SplitAction>, i: nat, g: nat)
    requires IsSplitRun(states, acts) && i < |acts| && acts[i] == Test(g)
    ensures g in states[i].s.guards && states[i + 1].s == states[i].s
    ensures g in states[i + 1].tested && states[i + 1].tested[g] == Alone(states[i].s, g)
  {
  }

  lemma FinishStep(states: seq<Split>, acts: seq<SplitAction>, j: nat)
    requires IsSplitRun(states, acts) && j < |acts| && acts[j].Finish? && Inv(states[j].s)
    ensures acts[j].guard in states[j].tested
    ensures Inv(states[j + 1].s) <==> (states[j].tested[acts[j].guard] ==> Alone(states[j].s, acts[j].guard))
  {
    FinishInvIff(states[j], acts[j]);
  }

  lemma {:induction false} FailedStays(states: seq<Split>, acts: seq<SplitAction>, i: nat, k: nat, g: nat)
    requires IsSplitRun(states, acts) && i < k < |states| && g in states[i + 1].tested && !states[i + 1].tested[g]
    requires forall n :: i < n < k ==> acts[n] != Finish(g)
    ensures g in states[k].tested && !states[k].tested[g]
    decreases k
  {
    if k > i + 1 {
      FailedStays(states, acts, i, k - 1, g);
      TestedStays(states[k - 1], acts[k - 1], g);
    }
  }

  lemma TestedStays(x: Split, a: SplitAction, g: nat)
    requires SplitEnabled(x, a) && g in x.tested && a != Finish(g)
    ensures g in SplitNext(x, a).tested && SplitNext(x, a).tested[g] == x.tested[g]
  {
  }

  // ----------------------------------------------------------------------- a wake-up that is lost

  ghost const THE_TABLE := Table(0, 0)
  ghost const THE_SLOT := Slot(THE_TABLE, 0)
  ghost const THE_ENTRY := Entry(THE_SLOT, 1)
  ghost const SLEEPER := Waiter(7, ANY, Word(0, 0), 0)

  ghost function Lone(slots: map<Slot, Entry>, queues: map<Entry, seq<Waiter>>, guards: map<nat, Guard>, words: map<Word, nat>): State
  {
    State(words, map[0 := THE_TABLE], slots, queues, map[0 := THE_TABLE], guards, 1, 2)
  }

  ghost function OnSlot(): Guard { Guard(0, THE_SLOT, THE_ENTRY) }

  /** Thread 0 looks the futex up and, when dropping its guard, finds itself alone; thread 1 looks the
      same futex up and goes to sleep; thread 0 removes the entry; thread 2 stores and looks the futex up
      to wake thread 1. */
  ghost function LostActs(): seq<SplitAction>
  {
    [Whole(TakeTable(0, 0)), Whole(GetOrInsert(0, 0, 0)), Test(0), Whole(GetOrInsert(1, 0, 0)),
     Whole(Wait(1, 7, ANY, 0)), Finish(0), Whole(Store(Word(0, 0), 1)), Whole(Get(2, 0, 0))]
  }

  ghost function LostStates(): seq<Split>
  {
    var slots, queues := map[THE_SLOT := THE_ENTRY], map[THE_ENTRY := [SLEEPER]];
    var one, two, rest := map[0 := OnSlot()], map[0 := OnSlot(), 1 := OnSlot()], map[1 := OnSlot()];
    [Split(INIT, map[]),
     Split(State(map[], map[0 := THE_TABLE], map[], map[], map[0 := THE_TABLE], map[], 1, 1), map[]),
     Split(Lone(slots, map[], one, map[]), map[]),
     Split(Lone(slots, map[], one, map[]), map[0 := true]),
     Split(Lone(slots, map[], two, map[]), map[0 := true]),
     Split(Lone(slots, queues, two, map[]), map[0 := true]),
     Split(Lone(map[], queues, rest, map[]), map[]),
     Split(Lone(map[], queues, rest, map[Word(0, 0) := 1]), map[]),
     Split(Lone(map[], queues, rest, map[Word(0, 0) := 1]), map[])]
  }

  ghost predicate LostAt(i: nat)
    requires i < 8
  {
    SplitEnabled(LostStates()[i], LostActs()[i]) && LostStates()[i + 1] == SplitNext(LostStates()[i], LostActs()[i])
  }

  lemma LostBegin()
    ensures LostAt(0)
  {
  }

  lemma LostLookups()
    ensures LostAt(1) && LostAt(3)
  {
  }

  lemma LostTest()
    ensures LostAt(2)
  {
    assert GuardsOn(LostStates()[2].s, THE_ENTRY) == {0};
    assert Alone(LostStates()[2].s, 0);
  }

  lemma LostSleep()
    ensures LostAt(4)
  {
    assert [] + [SLEEPER] == [SLEEPER];
    assert Read(LostStates()[4].s, Word(0, 0)) == 0;
  }

  lemma LostRemoval()
    ensures LostAt(5)
  {
    assert map[0 := OnSlot(), 1 := OnSlot()] - {0} == map[1 := OnSlot()];
    assert map[THE_SLOT := THE_ENTRY] - {THE_SLOT} == map[];
    assert map[0 := true] - {0} == map[];
  }

  lemma LostAfter()
    ensures LostAt(6) && LostAt(7)
  {
  }

  lemma LostIsRun()
    ensures IsSplitRun(LostStates(), LostActs())
  {
    LostBegin();
    LostLookups();
    LostTest();
    LostSleep();
    LostRemoval();
    LostAfter();
    assert forall i: nat :: i < 8 ==> LostAt(i);
  }

  /** It happens: the last step is a wake-up of everybody, the word has changed, and thread 1 sleeps on. */
  lemma LostWakeup()
    ensures IsSplitRun(LostStates(), LostActs())
    ensures var x, y := LostStates()[7], LostStates()[8];
            && WakesAll(x.s, LostActs()[7].act, Word(0, 0), ANY) && Read(x.s, Word(0, 0)) != SLEEPER.expected
            && Sleeping(y.s, Word(0, 0), SLEEPER.expected, ANY)
  {
    LostIsRun();
    StillAsleep(LostStates()[8].s);
  }

  lemma StillAsleep(s: State)
    requires THE_ENTRY in s.queues && s.queues[THE_ENTRY] == [SLEEPER]
    ensures Sleeping(s, Word(0, 0), SLEEPER.expected, ANY)
  {
    AnyMatches(SLEEPER);
    assert SLEEPER in s.queues[THE_ENTRY];
  }

  // ----------------------------------------------------------------------- the imperative tables

  /** The registry of tables, the tables' maps and the queues, updated in place. */
  class FutexTables {
    var words: map<Word, nat>
    var tables: map<nat, Table>
    var slots: map<Slot, Entry>
    var queues: map<Entry, seq<Waiter>>
    var holders: map<nat, Table>
    var guards: map<nat, Guard>
    var operations: nat
    var serial: nat

    ghost function View(): State
      reads this
    {
      State(words, tables, slots, queues, holders, guards, operations, serial)
    }

    constructor ()
      ensures View() == INIT
    {
      words, tables, slots, queues, holders, guards := map[], map[], map[], map[], map[], map[];
      operations, serial := 0, 0;
    }

    /** `FutexTables::get_or_insert`, reached through `futex_table_for`. */
    method TakeTable(h: nat, region: nat)
      requires Enabled(View(), Action.TakeTable(h, region))
      modifies this
      ensures View() == Next(old(View()), Action.TakeTable(h, region))
    {
      operations := operations + 1;
      if operations == 100 {
        operations := 0;
        tables := Needed(tables, holders, slots);
      }
      assert View() == Swept(old(View()));
      if region !in tables {
        tables := tables[region := Table(region, serial)];
        serial := serial + 1;
      }
      holders := holders[h := tables[region]];
    }

    /** `FutexTable::get`. */
    method Get(g: nat, h: nat, offset: nat) returns (found: bool)
      requires Enabled(View(), Action.Get(g, h, offset))
      modifies this
      ensures View() == Next(old(View()), Action.Get(g, h, offset))
      ensures found <==> Slot(holders[h], offset) in old(slots)
    {
      var k := Slot(holders[h], offset);
      found := k in slots;
      if found {
        guards := guards[g := Guard(h, k, slots[k])];
      }
    }

    /** `FutexTable::get_or_insert`. */
    method GetOrInsert(g: nat, h: nat, offset: nat)
      requires Enabled(View(), Action.GetOrInsert(g, h, offset))
      modifies this
      ensures View() == Next(old(View()), Action.GetOrInsert(g, h, offset))
    {
      var k := Slot(holders[h], offset);
      if k !in slots {
        slots := slots[k := Entry(k, serial)];
        serial := serial + 1;
      }
      guards := guards[g := Guard(h, k, slots[k])];
    }

    /** The check and enqueueing of `WaitQueue::wait_if`, under the queue's lock. */
    method WaitIf(g: nat, task: nat, bits: bv32, expected: nat) returns (waits: bool)
      requires Enabled(View(), Action.Wait(g, task, bits, expected))
      modifies this
      ensures View() == Next(old(View()), Action.Wait(g, task, bits, expected))
      ensures waits <==> Read(old(View()), WordOf(old(guards)[g].slot)) == expected
    {
      var e := guards[g].entry;
      var w := Word(guards[g].slot.table.region, guards[g].slot.offset);
      var value := if w in words then words[w] else 0;
      waits := value == expected;
      if waits {
        var q := if e in queues then queues[e] else [];
        queues := queues[e := q + [Waiter(task, bits, w, expected)]];
      }
    }

    /** The `retain` of `WaitQueue::wake`, on the queue behind the guard. */
    method Wake(g: nat, count: nat, mask: bv32) returns (woke: nat)
      requires Enabled(View(), Action.Wake(g, count, mask))
      modifies this
      ensures View() == Next(old(View()), Action.Wake(g, count, mask))
      ensures woke == |Woken(Queue(old(View()), old(guards)[g].entry), count, mask)|
    {
      var e := guards[g].entry;
      var q := if e in queues then queues[e] else [];
      woke := |Woken(q, count, mask)|;
      queues := queues[e := Kept(q, count, mask)];
    }

    /** `WaitQueue::requeue`, on the queues behind two guards, which may be the same. */
    method Requeue(g: nat, target: nat, count: nat) returns (n: nat)
      requires Enabled(View(), Action.Requeue(g, target, count))
      modifies this
      ensures View() == Next(old(View()), Action.Requeue(g, target, count))
      ensures n == Min(count, |Queue(old(View()), old(guards)[g].entry)|)
    {
      var e, f := guards[g].entry, guards[target].entry;
      var q := if e in queues then queues[e] else [];
      n := Min(count, |q|);
      queues := queues[e := q[n..]];
      queues := queues[f := (if f in queues then queues[f] else []) + q[..n]];
    }

    /** A thread lets go of its `Arc<FutexTable>`. */
    method DropTable(h: nat)
      requires Enabled(View(), Action.DropTable(h))
      modifies this
      ensures View() == Next(old(View()), Action.DropTable(h))
    {
      holders := holders - {h};
    }

    /** User code writes a futex word. */
    method Store(w: Word, value: nat)
      modifies this
      ensures View() == Next(old(View()), Action.Store(w, value))
    {
      words := words[w := value];
    }

    /** `FutexGuard::drop`. */
    method DropGuard(g: nat)
      requires Enabled(View(), Action.DropGuard(g))
      modifies this
      ensures View() == Next(old(View()), Action.DropGuard(g))
    {
      var e, k := guards[g].entry, guards[g].slot;
      var sharing := set x | x in guards && guards[x].entry == e;
      var strong := |sharing| + if e.slot in slots && slots[e.slot] == e then 1 else 0;
      assert sharing == GuardsOn(View(), e);
      if strong <= 2 && (e !in queues || queues[e] == []) {
        slots := slots - {k};
      }
      guards := guards - {g};
    }
  }
}
