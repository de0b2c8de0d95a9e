/**
 The epoll ready queue (api/src/file/epoll.rs): an interest map, a queue of weak references, an
 `in_ready_queue` flag per interest, and level, edge and one-shot triggering. Each public operation
 is one step; a file fires its registered wakers when it becomes ready for them.
 */
module Epoll {

  /** `IoEvents`, as the set of its bits. */
  type Events = set<nat>

  /** `EntryKey`: descriptor number and file identity. */
  datatype Key = Key(fd: int, file: nat)

  datatype Mode = Level | Edge | OneShot(fired: bool) {

    /** Whether a waker is worth registering. */
    predicate Enabled() { OneShot? ==> !fired }

    /** `should_notify`: whether to report, and the mode afterwards. */
    function ShouldNotify(): (r: (bool, Mode))
      ensures r.0 <==> Enabled()
      ensures r.1.Enabled() <==> Enabled() && !OneShot?
    {
      match this
      case Level => (true, this)
      case Edge => (true, Edge)
      case OneShot(fired) => if fired then (false, this) else (true, OneShot(true))
    }
  }

  function FromFlags(oneShot: bool, edge: bool): Mode
  {
    if oneShot then OneShot(false) else if edge then Edge else Level
  }

  datatype Interest = Interest(key: Key, events: Events, data: nat, mode: Mode, inQueue: bool)

  datatype Event = Event(events: Events, data: nat)

  /** `objs` are the `EpollInterest` allocations, by identity; the map `interests` holds the only
      strong references. `armed` are the interests whose waker is registered with their file. `log`
      records, for the properties, who was reported. */
  datatype State = State(
    interests: map<Key, nat>,
    objs: map<nat, Interest>,
    queue: seq<nat>,
    files: map<nat, Events>,
    armed: set<nat>,
    serial: nat,
    log: seq<nat>)

  datatype Error = AlreadyExists | NotFound

  /** A weak reference can be upgraded. */
  predicate Alive(s: State, i: nat)
  {
    i in s.objs && s.objs[i].key in s.interests && s.interests[s.objs[i].key] == i
  }

  predicate Open(s: State, i: nat)
    requires i in s.objs
  {
    s.objs[i].key.file in s.files
  }

  function Matched(s: State, i: nat): Events
    requires i in s.objs && Open(s, i)
  {
    s.files[s.objs[i].key.file] * s.objs[i].events
  }

  function SetFlag(s: State, i: nat, inQueue: bool): State
    requires i in s.objs
  {
    s.(objs := s.objs[i := s.objs[i].(inQueue := inQueue)])
  }

  /** `InterestWaker::wake_by_ref`. */
  function Wake(s: State, i: nat): State
  {
    if Alive(s, i) && !s.objs[i].inQueue then
      var t := SetFlag(s, i, true);
      t.(queue := t.queue + [i])
    else s
  }

  /** `register_waker_only`. */
  function RegisterOnly(s: State, i: nat): State
    requires i in s.objs
  {
    if Open(s, i) && s.objs[i].mode.Enabled() then s.(armed := s.armed + {i}) else s
  }

  /** `check_and_register_waker`. */
  function CheckAndRegister(s: State, i: nat): State
    requires i in s.objs
  {
    if !Open(s, i) || !s.objs[i].mode.Enabled() then s
    else if Matched(s, i) != {} then Wake(s, i)
    else s.(armed := s.armed + {i})
  }

  function Installed(s: State, key: Key, events: Events, data: nat, mode: Mode, inQueue: bool): State
  {
    var i := s.serial;
    s.(interests := s.interests[key := i], objs := s.objs[i := Interest(key, events, data, mode, inQueue)],
       serial := s.serial + 1)
  }

  /** What the interest registered for `key` asks for, reports with and how it is triggered. */
  ghost predicate Registered(s: State, key: Key, events: Events, data: nat, mode: Mode)
  {
    && key in s.interests && s.interests[key] in s.objs
    && s.objs[s.interests[key]].key == key && s.objs[s.interests[key]].events == events
    && s.objs[s.interests[key]].data == data && s.objs[s.interests[key]].mode == mode
  }

  lemma InstallRegisters(s: State, key: Key, events: Events, data: nat, mode: Mode, inQueue: bool)
    ensures Registered(CheckAndRegister(Installed(s, key, events, data, mode, inQueue), s.serial), key, events, data, mode)
  {
  }

  /** `add` of a key that is not there. */
  function Added(s: State, key: Key, events: Events, data: nat, mode: Mode): State
  {
    CheckAndRegister(Installed(s, key, events, data, mode, false), s.serial)
  }

  /** `modify` of a key that is there: a new interest that copies the old one's flag. */
  function Modified(s: State, key: Key, events: Events, data: nat, mode: Mode): State
    requires key in s.interests && s.interests[key] in s.objs
  {
    CheckAndRegister(Installed(s, key, events, data, mode, s.objs[s.interests[key]].inQueue), s.serial)
  }

  /** Reporting an interest: its mode advances and the log grows. */
  function Told(s: State, i: nat): State
    requires i in s.objs
  {
    s.(objs := s.objs[i := s.objs[i].(mode := s.objs[i].mode.ShouldNotify().1)], log := s.log + [i])
  }

  /** One round of the loop in `poll_events`, with room in the output. */
  function PollStep(s: State, out: seq<Event>): (r: (State, seq<Event>))
    requires s.queue != []
    ensures r.1 == out ==> |r.0.queue| < |s.queue|
    ensures r.1 == out || |r.1| == |out| + 1
  {
    var i := s.queue[0];
    var popped := s.(queue := s.queue[1..]);
    if !Alive(s, i) then (popped, out)
    else if !Open(s, i) then
      (SetFlag(popped.(interests := s.interests - {s.objs[i].key}), i, false), out)
    else
      var matched := Matched(s, i);
      var (notify, mode) := s.objs[i].mode.ShouldNotify();
      if matched == {} then (RegisterOnly(SetFlag(popped, i, false), i), out)
      else if !notify then (RegisterOnly(SetFlag(popped, i, false), i), out)
      else
        var told := Told(popped, i);
        var event := Event(matched, s.objs[i].data);
        if mode.Level? then (told.(queue := told.queue + [i]), out + [event])
        else (RegisterOnly(SetFlag(told, i, false), i), out + [event])
  }

  /** `poll_events`: the termination measure is (free output slots, queue length). */
  function PollLoop(s: State, m: nat, out: seq<Event>): (State, seq<Event>)
    decreases m - |out|, |s.queue|
  {
    if s.queue == [] || |out| >= m then (s, out)
    else
      var (t, more) := PollStep(s, out);
      PollLoop(t, m, more)
  }

  // ---------------------------------------------------------------------------------- invariant

  ghost predicate WellFormed(s: State)
  {
    && (forall k :: k in s.interests ==> s.interests[k] in s.objs && s.objs[s.interests[k]].key == k)
    && (forall i :: i in s.objs ==> i < s.serial)
    && (forall i :: i in s.queue ==> i < s.serial)
    && (forall i :: i in s.armed ==> i < s.serial)
  }

  ghost predicate Unrepeated(q: seq<nat>) { forall a, b :: 0 <= a < b < |q| ==> q[a] != q[b] }

  /** Flag and queue agree, and nobody is queued twice. */
  ghost predicate FlagsOk(s: State)
  {
    && Unrepeated(s.queue)
    && (forall i :: Alive(s, i) ==> (s.objs[i].inQueue <==> i in s.queue))
  }

  /** Nothing can be missed: an enabled interest on an open file is queued or armed, and a
      level-triggered one whose file matches right now is queued. */
  ghost predicate CompleteAt(s: State, i: nat)
  {
    Alive(s, i) && Open(s, i) && i !in s.queue ==>
      && (s.objs[i].mode.Enabled() ==> i in s.armed)
      && (s.objs[i].mode.Level? ==> Matched(s, i) == {})
  }

  /** Complete, except perhaps at the interests `xs` that an operation is still busy with. */
  ghost predicate CompleteBut(s: State, xs: set<nat>) { forall i :: i in s.objs && i !in xs ==> CompleteAt(s, i) }

  /** A one-shot interest has been reported once if it has fired, and never before. */
  ghost predicate OneShotsOk(s: State)
  {
    forall i :: i in s.objs && s.objs[i].mode.OneShot? ==> multiset(s.log)[i] == if s.objs[i].mode.fired then 1 else 0
  }

  ghost predicate LogOk(s: State) { forall i :: i in s.log ==> i < s.serial }

  ghost predicate InvBut(s: State, xs: set<nat>)
  {
    WellFormed(s) && FlagsOk(s) && CompleteBut(s, xs) && OneShotsOk(s) && LogOk(s)
  }

  ghost predicate Inv(s: State) { InvBut(s, {}) }

  lemma WakeInv(s: State, i: nat, xs: set<nat>)
    requires InvBut(s, xs)
    ensures InvBut(Wake(s, i), xs - {i})
  {
    if Alive(s, i) && !s.objs[i].inQueue {
      var t := Wake(s, i);
      WakeFlags(s, i);
      assert i in t.queue;
      forall j | j in t.objs && j !in xs - {i} ensures CompleteAt(t, j) { assert j != i ==> CompleteAt(s, j); }
    } else if Alive(s, i) {
      assert i in s.queue;
    }
  }

  lemma WakeFlags(s: State, i: nat)
    requires FlagsOk(s) && Alive(s, i) && !s.objs[i].inQueue
    ensures FlagsOk(Wake(s, i))
  {
    var t := Wake(s, i);
    assert i in t.queue;
    forall j | Alive(t, j) ensures t.objs[j].inQueue <==> j in t.queue { assert Alive(s, j); }
  }

  lemma InstalledInv(s: State, key: Key, events: Events, data: nat, mode: Mode)
    requires Inv(s) && (mode.OneShot? ==> !mode.fired)
    ensures InvBut(Installed(s, key, events, data, mode, false), {s.serial})
    ensures Alive(Installed(s, key, events, data, mode, false), s.serial)
  {
    var t := Installed(s, key, events, data, mode, false);
    forall j | Alive(t, j) && j != s.serial ensures Alive(s, j) {}
    forall j | j in t.objs && j != s.serial ensures CompleteAt(t, j) { assert CompleteAt(s, j); }
    assert s.serial !in s.log;
  }

  lemma CheckAndRegisterInv(s: State, i: nat)
    requires InvBut(s, {i}) && Alive(s, i)
    ensures Inv(CheckAndRegister(s, i))
  {
    var t := CheckAndRegister(s, i);
    if Open(s, i) && s.objs[i].mode.Enabled() && Matched(s, i) != {} {
      WakeInv(s, i, {i});
      assert {i} - {i} == {};
    } else {
      forall j | j in t.objs ensures CompleteAt(t, j) { assert j != i ==> CompleteAt(s, j); }
    }
  }

  // --------------------------------------------------------------------------------- poll_events

  lemma TailDistinct(q: seq<nat>)
    requires q != [] && forall a, b :: 0 <= a < b < |q| ==> q[a] != q[b]
    ensures forall x :: x in q[1..] <==> x in q && x != q[0]
    ensures forall a, b :: 0 <= a < b < |q[1..]| ==> q[1..][a] != q[1..][b]
  {
    assert q == [q[0]] + q[1..];
  }

  /** Popping the front and clearing its flag, when the front is somebody alive. */
  lemma PoppedInv(s: State, i: nat)
    requires Inv(s) && s.queue != [] && i == s.queue[0] && i in s.objs
    ensures InvBut(SetFlag(s.(queue := s.queue[1..]), i, false), {i})
  {
    var t := SetFlag(s.(queue := s.queue[1..]), i, false);
    TailDistinct(s.queue);
    forall j | Alive(t, j) ensures t.objs[j].inQueue <==> j in t.queue { assert Alive(s, j); }
    forall j | j in t.objs && j != i ensures CompleteAt(t, j) { assert CompleteAt(s, j); }
  }

  lemma RegisterOnlyInv(s: State, i: nat)
    requires InvBut(s, {i}) && i in s.objs
    requires Alive(s, i) && Open(s, i) && s.objs[i].mode.Level? ==> Matched(s, i) == {}
    ensures Inv(RegisterOnly(s, i))
  {
    var t := RegisterOnly(s, i);
    forall j | j in t.objs ensures CompleteAt(t, j) { assert j != i ==> CompleteAt(s, j); }
  }

  lemma DeadFrontInv(s: State)
    requires Inv(s) && s.queue != [] && !Alive(s, s.queue[0])
    ensures Inv(s.(queue := s.queue[1..]))
  {
    var t := s.(queue := s.queue[1..]);
    TailDistinct(s.queue);
    forall j | Alive(t, j) ensures t.objs[j].inQueue <==> j in t.queue { assert Alive(s, j); }
    forall j | j in t.objs ensures CompleteAt(t, j) { assert CompleteAt(s, j); }
  }

  lemma ClosedFrontInv(s: State, i: nat)
    requires InvBut(s, {i}) && i in s.objs && !Open(s, i)
    ensures Inv(s.(interests := s.interests - {s.objs[i].key}))
  {
    var t := s.(interests := s.interests - {s.objs[i].key});
    forall j | Alive(t, j) ensures t.objs[j].inQueue <==> j in t.queue { assert Alive(s, j); }
    forall j | j in t.objs ensures CompleteAt(t, j) { assert j != i ==> CompleteAt(s, j); }
  }

  lemma ToldInv(s: State, i: nat)
    requires InvBut(s, {i}) && i in s.objs && s.objs[i].mode.Enabled()
    ensures InvBut(Told(s, i), {i})
  {
    var t := Told(s, i);
    forall j | Alive(t, j) ensures t.objs[j].inQueue <==> j in t.queue { assert Alive(s, j); }
    forall j | j in t.objs && j != i ensures CompleteAt(t, j) { assert CompleteAt(s, j); }
  }

  lemma ToldThenCleared(s: State, i: nat)
    requires i in s.objs
    ensures SetFlag(Told(s, i), i, false) == Told(SetFlag(s, i, false), i)
  {
    assert SetFlag(Told(s, i), i, false).objs == Told(SetFlag(s, i, false), i).objs;
  }

  /** Level-triggered: the front goes to the back. */
  lemma KeptInv(s: State, i: nat)
    requires Inv(s) && s.queue != [] && i == s.queue[0] && Alive(s, i) && s.objs[i].mode.Level?
    ensures Inv(s.(queue := s.queue[1..] + [i], log := s.log + [i]))
  {
    var t := s.(queue := s.queue[1..] + [i], log := s.log + [i]);
    TailDistinct(s.queue);
    assert forall x :: x in t.queue <==> x in s.queue;
    forall j | Alive(t, j) ensures t.objs[j].inQueue <==> j in t.queue { assert Alive(s, j); }
    forall j | j in t.objs ensures CompleteAt(t, j) { assert CompleteAt(s, j); }
  }

  lemma PollStepInv(s: State, out: seq<Event>)
    requires Inv(s) && s.queue != []
    ensures Inv(PollStep(s, out).0)
  {
    var i := s.queue[0];
    if !Alive(s, i) {
      DeadFrontInv(s);
    } else {
      PoppedInv(s, i);
      var popped := SetFlag(s.(queue := s.queue[1..]), i, false);
      if !Open(s, i) {
        ClosedFrontInv(popped, i);
        assert PollStep(s, out).0 == popped.(interests := popped.interests - {popped.objs[i].key});
      } else if Matched(s, i) == {} || !s.objs[i].mode.Enabled() {
        RegisterOnlyInv(popped, i);
      } else if s.objs[i].mode.Level? {
        KeptInv(s, i);
        assert s.objs[i := s.objs[i]] == s.objs;
      } else {
        ToldInv(popped, i);
        RegisterOnlyInv(Told(popped, i), i);
        ToldThenCleared(s.(queue := s.queue[1..]), i);
      }
    }
  }

  lemma {:induction false} PollLoopInv(s: State, m: nat, out: seq<Event>)
    requires Inv(s)
    ensures Inv(PollLoop(s, m, out).0)
    decreases m - |out|, |s.queue|
  {
    if s.queue != [] && |out| < m {
      PollStepInv(s, out);
      var (t, more) := PollStep(s, out);
      PollLoopInv(t, m, more);
    }
  }

  // --------------------------------------------------------------------------------------- runs

  datatype Action =
    | Add(key: Key, events: Events, data: nat, oneShot: bool, edge: bool)
    | Modify(key: Key, events: Events, data: nat, oneShot: bool, edge: bool)
    | Delete(key: Key)
    | Poll(room: nat)
    | OpenFile(file: nat, ready: Events)
    | CloseFile(file: nat)
    /** The file's readiness changes and it fires some of its registered wakers, in this order. */
    | Change(file: nat, ready: Events, fired: seq<nat>)

  /** The file fires only registered wakers, and all those it becomes ready for. */
  ghost predicate FiresWhenReady(s: State, file: nat, ready: Events, fired: seq<nat>)
  {
    && file in s.files
    && (forall i :: i in fired ==> i in s.armed)
    && (forall i | i in s.armed && i in s.objs && s.objs[i].key.file == file :: BecomesReady(s, i, file, ready) ==> i in fired)
  }

  ghost predicate BecomesReady(s: State, i: nat, file: nat, ready: Events)
    requires i in s.objs && file in s.files
  {
    s.files[file] * s.objs[i].events == {} && ready * s.objs[i].events != {}
  }

  ghost predicate Enabled(s: State, a: Action)
  {
    match a
    case Add(key, _, _, _, _) => key.file in s.files
    case Modify(key, _, _, _, _) => key.file in s.files && !Queued(s, key)
    case Delete(_) => true
    case Poll(_) => true
    case OpenFile(f, _) => f !in s.files && forall i :: i in s.objs ==> s.objs[i].key.file != f
    case CloseFile(_) => true
    case Change(f, ready, fired) => FiresWhenReady(s, f, ready, fired)
  }

  ghost predicate Queued(s: State, key: Key)
  {
    key in s.interests && s.interests[key] in s.objs && s.objs[s.interests[key]].inQueue
  }

  function WakeAll(s: State, fired: seq<nat>): State
    decreases |fired|
  {
    if fired == [] then s else WakeAll(Wake(s, fired[0]), fired[1..])
  }

  ghost function Changed(s: State, file: nat, ready: Events, fired: seq<nat>): State
  {
    s.(files := s.files[file := ready], armed := s.armed - set i | i in fired)
  }

  ghost function Next(s: State, a: Action): State
  {
    match a
    case Add(key, ev, d, o, e) => if key in s.interests then s else Added(s, key, ev, d, FromFlags(o, e))
    case Modify(key, ev, d, o, e) =>
      if key !in s.interests || s.interests[key] !in s.objs then s else Modified(s, key, ev, d, FromFlags(o, e))
    case Delete(key) => s.(interests := s.interests - {key})
    case Poll(room) => PollLoop(s, room, []).0
    case OpenFile(f, ready) => s.(files := s.files[f := ready])
    case CloseFile(f) => s.(files := s.files - {f})
    case Change(f, ready, fired) => WakeAll(Changed(s, f, ready, fired), fired)
  }

  lemma {:induction false} WakeAllInv(s: State, fired: seq<nat>, xs: set<nat>)
    requires InvBut(s, xs) && forall i :: i in xs ==> i in fired
    ensures Inv(WakeAll(s, fired))
    decreases |fired|
  {
    if fired == [] {
      assert xs == {};
    } else {
      WakeInv(s, fired[0], xs);
      assert fired == [fired[0]] + fired[1..];
      WakeAllInv(Wake(s, fired[0]), fired[1..], xs - {fired[0]});
    }
  }

  lemma ChangeInv(s: State, f: nat, ready: Events, fired: seq<nat>)
    requires Inv(s) && FiresWhenReady(s, f, ready, fired)
    ensures Inv(WakeAll(Changed(s, f, ready, fired), fired))
  {
    var xs := set i | i in fired;
    var t := Changed(s, f, ready, fired);
    forall j | Alive(t, j) ensures t.objs[j].inQueue <==> j in t.queue { assert Alive(s, j); }
    forall j | j in t.objs && j !in xs ensures CompleteAt(t, j) { assert CompleteAt(s, j); }
    WakeAllInv(t, fired, xs);
  }

  lemma EnvironmentInv(s: State, a: Action)
    requires Inv(s) && Enabled(s, a) && (a.Delete? || a.OpenFile? || a.CloseFile?)
    ensures Inv(Next(s, a))
  {
    var t := Next(s, a);
    forall j | Alive(t, j) ensures t.objs[j].inQueue <==> j in t.queue { assert Alive(s, j); }
    forall j | j in t.objs ensures CompleteAt(t, j) { assert CompleteAt(s, j); }
  }

  lemma StepInv(s: State, a: Action)
    requires Inv(s) && Enabled(s, a)
    ensures Inv(Next(s, a))
  {
    match a
    case Add(key, ev, d, o, e) => AddInv(s, key, ev, d, FromFlags(o, e));
    case Modify(key, ev, d, o, e) => AddInv(s, key, ev, d, FromFlags(o, e));
    case Poll(room) => PollLoopInv(s, room, []);
    case Change(f, ready, fired) => ChangeInv(s, f, ready, fired);
    case _ => EnvironmentInv(s, a);
  }

  lemma AddInv(s: State, key: Key, events: Events, data: nat, mode: Mode)
    requires Inv(s) && (mode.OneShot? ==> !mode.fired)
    ensures Inv(CheckAndRegister(Installed(s, key, events, data, mode, false), s.serial))
  {
    InstalledInv(s, key, events, data, mode);
    CheckAndRegisterInv(Installed(s, key, events, data, mode, false), s.serial);
  }

  ghost const INIT := State(map[], map[], [], map[], {}, 0, [])

  ghost predicate IsRun(states: seq<State>, acts: seq<Action>)
  {
    && |states| == |acts| + 1
    && states[0] == INIT
    && forall i :: 0 <= i < |acts| ==>
         Enabled(states[i], acts[i]) && states[i + 1] == Next(states[i], acts[i])
  }

  lemma {:induction false} RunInv(states: seq<State>, acts: seq<Action>, k: nat)
    requires IsRun(states, acts) && k < |states|
    ensures Inv(states[k])
  {
    if k > 0 {
      RunInv(states, acts, k - 1);
      StepInv(states[k - 1], acts[k - 1]);
    }
  }

  /** Level-triggered completeness: in every reachable state, a registered level-triggered interest
      whose file matches right now is in the ready queue. */
  lemma ReadyIsQueued(states: seq<State>, acts: seq<Action>, k: nat, i: nat)
    requires IsRun(states, acts) && k < |states|
    requires Alive(states[k], i) && states[k].objs[i].mode.Level? && Open(states[k], i) && Matched(states[k], i) != {}
    ensures i in states[k].queue
  {
    RunInv(states, acts, k);
    assert CompleteAt(states[k], i);
  }

  /** A one-shot interest is reported at most once; re-arming it makes a new one. */
  lemma OneShotAtMostOnce(states: seq<State>, acts: seq<Action>, k: nat, i: nat)
    requires IsRun(states, acts) && k < |states| && i in states[k].objs && states[k].objs[i].mode.OneShot?
    ensures multiset(states[k].log)[i] <= 1
  {
    RunInv(states, acts, k);
  }

  /** `modify` keeps the invariant exactly when the interest it replaces is not queued. Otherwise the
      new interest claims to be queued while the queue holds a reference to the old one, and no
      wake-up will ever queue it. */
  lemma ModifyIff(s: State, key: Key, events: Events, data: nat, oneShot: bool, edge: bool)
    requires Inv(s) && key in s.interests && key.file in s.files
    ensures var t := Modified(s, key, events, data, FromFlags(oneShot, edge));
            && (Inv(t) <==> !Queued(s, key))
            && (Queued(s, key) ==> Alive(t, s.serial) && s.serial !in t.queue && Wake(t, s.serial) == t)
  {
    var mode := FromFlags(oneShot, edge);
    if Queued(s, key) {
      var t := Installed(s, key, events, data, mode, true);
      assert Alive(t, s.serial) && s.serial !in t.queue;
      assert Wake(t, s.serial) == t;
    } else {
      AddInv(s, key, events, data, mode);
    }
  }

  // ---------------------------------------------------------------- what a poll reports, in any mode

  /** `i` has something to report: registered, enabled, and its open file is ready for it. */
  ghost predicate Due(s: State, i: nat)
  {
    Alive(s, i) && Open(s, i) && s.objs[i].mode.Enabled() && Matched(s, i) != {}
  }

  /** The bits that are both ready and asked for, with the data the interest was registered with. */
  ghost function EventOf(s: State, i: nat): Event
    requires i in s.objs && Open(s, i)
  {
    Event(s.files[s.objs[i].key.file] * s.objs[i].events, s.objs[i].data)
  }

  /** The round reports the interest at the front, with its event, exactly when it is due. */
  lemma FrontReported(s: State, out: seq<Event>)
    requires s.queue != []
    ensures var i, (t, more) := s.queue[0], PollStep(s, out);
            if Due(s, i) then more == out + [EventOf(s, i)] && t.log == s.log + [i] else more == out && t.log == s.log
  {
  }

  /** It goes to the back if it is level-triggered and due, and nowhere otherwise. */
  lemma FrontLeaves(s: State, out: seq<Event>)
    requires s.queue != []
    ensures var i, t := s.queue[0], PollStep(s, out).0;
            t.queue == if Due(s, i) && s.objs[i].mode.Level? then s.queue[1..] + [i] else s.queue[1..]
  {
  }

  lemma OthersWait(s: State, out: seq<Event>, j: nat)
    requires s.queue != [] && j != s.queue[0]
    ensures var t := PollStep(s, out).0;
            && (Alive(s, j) <==> Alive(t, j)) && (Due(s, j) <==> Due(t, j))
            && (Due(s, j) ==> EventOf(t, j) == EventOf(s, j))
  {
  }

  lemma FrontStaysDue(s: State, out: seq<Event>)
    requires s.queue != [] && Due(s, s.queue[0]) && s.objs[s.queue[0]].mode.Level?
    ensures Due(PollStep(s, out).0, s.queue[0]) && EventOf(PollStep(s, out).0, s.queue[0]) == EventOf(s, s.queue[0])
  {
  }

  lemma StaysUnrepeated(s: State, out: seq<Event>)
    requires s.queue != [] && Unrepeated(s.queue)
    ensures Unrepeated(PollStep(s, out).0.queue)
  {
    var q, i := s.queue[1..], s.queue[0];
    FrontLeaves(s, out);
    assert Unrepeated(q);
    assert forall a :: 0 <= a < |q| ==> q[a] == s.queue[a + 1];
  }

  /** Whoever is in the queue and due after a round was so before it, with the same event. */
  lemma DueBefore(s: State, out: seq<Event>, i: nat)
    requires s.queue != [] && Unrepeated(s.queue) && i in PollStep(s, out).0.queue && Due(PollStep(s, out).0, i)
    ensures i in s.queue && Due(s, i) && EventOf(PollStep(s, out).0, i) == EventOf(s, i)
  {
    FrontLeaves(s, out);
    if i == s.queue[0] {
      assert i !in s.queue[1..];
      FrontStaysDue(s, out);
    } else {
      OthersWait(s, out, i);
    }
  }

  lemma {:induction false} PollExtends(s: State, m: nat, out: seq<Event>)
    ensures var (t, more) := PollLoop(s, m, out);
            out <= more && s.log <= t.log && |more| - |out| == |t.log| - |s.log|
    decreases m - |out|, |s.queue|
  {
    if s.queue != [] && |out| < m {
      var (s1, out1) := PollStep(s, out);
      FrontReported(s, out);
      PollExtends(s1, m, out1);
    }
  }

  /** Report `n` of a call is of interest `i`, with the event it has in state `s`. */
  ghost predicate ReportIs(r: (State, seq<Event>), out: seq<Event>, log: seq<nat>, n: nat, i: nat, event: Event)
  {
    && |out| <= n < |r.1| && |log| + (n - |out|) < |r.0.log|
    && r.1[n] == event && r.0.log[|log| + (n - |out|)] == i
  }

  /** A report of the later rounds, seen from before the round that took `out` to `more` and `log` to `later`. */
  lemma ReportCarries(r: (State, seq<Event>), out: seq<Event>, more: seq<Event>, log: seq<nat>, later: seq<nat>, n: nat,
                      i: nat, event: Event)
    requires |out| <= |more| && |more| - |out| == |later| - |log| && ReportIs(r, more, later, n, i, event)
    ensures ReportIs(r, out, log, n, i, event)
  {
  }

  lemma InStep(s: State, out: seq<Event>)
    requires s.queue != []
    ensures var (t, more) := PollStep(s, out); |out| <= |more| && |more| - |out| == |t.log| - |s.log|
  {
    FrontReported(s, out);
  }

  lemma FrontFirst(s: State, m: nat, out: seq<Event>)
    requires s.queue != [] && |out| < m && Due(s, s.queue[0])
    ensures ReportIs(PollLoop(s, m, out), out, s.log, |out|, s.queue[0], EventOf(s, s.queue[0]))
  {
    var (s1, out1) := PollStep(s, out);
    FrontReported(s, out);
    PollExtends(s1, m, out1);
  }

  /** Behind the front, a due interest moves up by one and stays due. */
  lemma MovesUp(s: State, out: seq<Event>, a: nat)
    requires Unrepeated(s.queue) && 0 < a < |s.queue| && Due(s, s.queue[a])
    ensures var (t, more) := PollStep(s, out);
            && a - 1 < |t.queue| && t.queue[a - 1] == s.queue[a] && |more| <= |out| + 1
            && Due(t, s.queue[a]) && EventOf(t, s.queue[a]) == EventOf(s, s.queue[a])
  {
    FrontLeaves(s, out);
    OthersWait(s, out, s.queue[a]);
  }

  /** A call with enough room reports every interest in the queue that is due, whatever its mode. */
  lemma {:induction false} DueIsReported(s: State, m: nat, out: seq<Event>, a: nat)
    requires Unrepeated(s.queue) && a < |s.queue| && Due(s, s.queue[a]) && |out| + a < m
    ensures exists n: nat :: ReportIs(PollLoop(s, m, out), out, s.log, n, s.queue[a], EventOf(s, s.queue[a]))
    decreases a
  {
    if a == 0 {
      FrontFirst(s, m, out);
    } else {
      var (s1, out1) := PollStep(s, out);
      var i := s.queue[a];
      MovesUp(s, out, a);
      StaysUnrepeated(s, out);
      DueIsReported(s1, m, out1, a - 1);
      var n: nat :| ReportIs(PollLoop(s1, m, out1), out1, s1.log, n, i, EventOf(s1, i));
      InStep(s, out);
      assert PollLoop(s, m, out) == PollLoop(s1, m, out1);
      ReportCarries(PollLoop(s1, m, out1), out, out1, s.log, s1.log, n, i, EventOf(s1, i));
    }
  }

  /** And every report is of an interest that was in the queue and due, with its own event. */
  lemma {:induction false} OnlyDueReported(s: State, m: nat, out: seq<Event>, n: nat)
    requires Unrepeated(s.queue) && |out| <= n < |PollLoop(s, m, out).1|
    ensures exists i :: i in s.queue && Due(s, i) && ReportIs(PollLoop(s, m, out), out, s.log, n, i, EventOf(s, i))
    decreases m - |out|, |s.queue|
  {
    if s.queue != [] && |out| < m {
      var (s1, out1) := PollStep(s, out);
      if n < |out1| {
        FrontReported(s, out);
        FrontFirst(s, m, out);
      } else {
        StaysUnrepeated(s, out);
        OnlyDueReported(s1, m, out1, n);
        var i :| i in s1.queue && Due(s1, i) && ReportIs(PollLoop(s1, m, out1), out1, s1.log, n, i, EventOf(s1, i));
        DueBefore(s, out, i);
        InStep(s, out);
        ReportCarries(PollLoop(s1, m, out1), out, out1, s.log, s1.log, n, i, EventOf(s1, i));
      }
    }
  }

  /** Interest `i` is among the reports `out` that took `log` to the log of `t`, with this event. */
  ghost predicate ReportedAs(t: State, out: seq<Event>, log: seq<nat>, i: nat, event: Event)
  {
    exists n: nat :: ReportIs((t, out), [], log, n, i, event)
  }

  lemma EachDueReported(s: State, m: nat)
    requires Unrepeated(s.queue)
    ensures forall i :: i in s.queue && Due(s, i) && m >= |s.queue| ==>
              ReportedAs(PollLoop(s, m, []).0, PollLoop(s, m, []).1, s.log, i, EventOf(s, i))
  {
    var (t, out) := PollLoop(s, m, []);
    forall i | i in s.queue && Due(s, i) && m >= |s.queue| ensures ReportedAs(t, out, s.log, i, EventOf(s, i)) {
      var a: nat :| a < |s.queue| && s.queue[a] == i;
      DueIsReported(s, m, [], a);
    }
  }

  /** Over runs: a call with room for the whole queue reports every interest in it that is due. */
  lemma PollReportsDue(states: seq<State>, acts: seq<Action>, k: nat, m: nat, i: nat)
    requires IsRun(states, acts) && k < |states| && m >= |states[k].queue|
    requires i in states[k].queue && Due(states[k], i)
    ensures exists n: nat :: ReportIs(PollLoop(states[k], m, []), [], states[k].log, n, i, EventOf(states[k], i))
  {
    var s := states[k];
    RunInv(states, acts, k);
    var a: nat :| a < |s.queue| && s.queue[a] == i;
    DueIsReported(s, m, [], a);
  }

  /** Over runs: whatever a call reports was in the queue and due, and is reported with its own event. */
  lemma PollReportsOnlyDue(states: seq<State>, acts: seq<Action>, k: nat, m: nat, n: nat, i: nat, event: Event)
    requires IsRun(states, acts) && k < |states|
    requires ReportIs(PollLoop(states[k], m, []), [], states[k].log, n, i, event)
    ensures i in states[k].queue && Due(states[k], i) && event == EventOf(states[k], i)
  {
    RunInv(states, acts, k);
    OnlyDueReported(states[k], m, [], n);
  }

  // ------------------------------------------------------------------ what a poll does with closed files

  /** Registered, but its file is gone. */
  ghost predicate Stale(s: State, i: nat) { Alive(s, i) && !Open(s, i) }

  lemma RoundDrops(s: State, out: seq<Event>, j: nat)
    requires s.queue != []
    ensures var t := PollStep(s, out).0;
            && (Alive(t, j) <==> Alive(s, j) && !(j == s.queue[0] && Stale(s, j)))
            && (Stale(t, j) <==> Stale(s, j) && j != s.queue[0])
  {
  }

  /** A poll unregisters nobody whose file is open. */
  lemma {:induction false} PollKeepsOpen(s: State, m: nat, out: seq<Event>, j: nat)
    requires Alive(s, j) && Open(s, j)
    ensures Alive(PollLoop(s, m, out).0, j)
    decreases m - |out|, |s.queue|
  {
    if s.queue != [] && |out| < m {
      var (s1, out1) := PollStep(s, out);
      RoundDrops(s, out, j);
      PollKeepsOpen(s1, m, out1, j);
    }
  }

  lemma {:induction false} StaysDropped(s: State, m: nat, out: seq<Event>, j: nat)
    requires !Alive(s, j)
    ensures !Alive(PollLoop(s, m, out).0, j)
    decreases m - |out|, |s.queue|
  {
    if s.queue != [] && |out| < m {
      var (s1, out1) := PollStep(s, out);
      RoundDrops(s, out, j);
      StaysDropped(s1, m, out1, j);
    }
  }

  /** With enough room it unregisters every interest in the queue whose file was closed. */
  lemma {:induction false} PollDropsStale(s: State, m: nat, out: seq<Event>, a: nat)
    requires a < |s.queue| && Stale(s, s.queue[a]) && |out| + a < m
    ensures !Alive(PollLoop(s, m, out).0, s.queue[a])
    decreases a
  {
    var (s1, out1) := PollStep(s, out);
    var i := s.queue[a];
    RoundDrops(s, out, i);
    if i == s.queue[0] {
      StaysDropped(s1, m, out1, i);
    } else {
      FrontLeaves(s, out);
      assert s1.queue[a - 1] == i;
      PollDropsStale(s1, m, out1, a - 1);
    }
  }

  // ------------------------------------------------------------------------ order and trigger modes

  lemma {:induction false} WakeAllAppends(s: State, fired: seq<nat>)
    ensures s.queue <= WakeAll(s, fired).queue
    decreases |fired|
  {
    if fired != [] {
      WakeAllAppends(Wake(s, fired[0]), fired[1..]);
    }
  }

  /** Newcomers line up behind: whatever is not a poll leaves the queue as it is, or adds to its end. */
  lemma OthersAppend(s: State, a: Action)
    requires !a.Poll?
    ensures s.queue <= Next(s, a).queue
  {
    if a.Change? {
      WakeAllAppends(Changed(s, a.file, a.ready, a.fired), a.fired);
    }
  }

  /** What the flags mean: a ready file is reported once it is added; without a new event it is reported
      again exactly when neither flag is given; after a new event, exactly when it is not one-shot. */
  lemma TriggerModes(s: State, key: Key, events: Events, data: nat, oneShot: bool, edge: bool)
    requires Inv(s) && key !in s.interests && key.file in s.files && s.files[key.file] * events != {} && s.queue == []
    ensures var event := Event(s.files[key.file] * events, data);
            var (t, first) := PollLoop(Added(s, key, events, data, FromFlags(oneShot, edge)), 1, []);
            var (u, again) := PollLoop(t, 1, []);
            var (v, later) := PollLoop(Wake(u, s.serial), 1, []);
            && first == [event]
            && again == (if oneShot || edge then [] else [event])
            && later == (if oneShot then [] else [event])
  {
    var a := Added(s, key, events, data, FromFlags(oneShot, edge));
    assert a.queue == [s.serial];
    OnePoll(a, s.serial);
    var t := PollLoop(a, 1, []).0;
    if oneShot || edge {
      assert t.queue == [];
      var u := t;
      if oneShot {
        OnePoll(Wake(u, s.serial), s.serial);
      } else {
        OnePoll(Wake(u, s.serial), s.serial);
      }
    } else {
      OnePoll(t, s.serial);
      OnePoll(PollLoop(t, 1, []).0, s.serial);
    }
  }

  lemma OnePoll(s: State, i: nat)
    requires s.queue == [i]
    ensures PollLoop(s, 1, []) == if Due(s, i) then PollStep(s, []) else (PollStep(s, []).0, [])
  {
    FrontReported(s, []);
    FrontLeaves(s, []);
  }

  // ------------------------------------------------------------------------------ a deaf interest

  /** `i` is registered for `key` and claims to be queued, but is not. */
  ghost predicate Deaf(s: State, key: Key, i: nat)
  {
    && i < s.serial && key in s.interests && s.interests[key] == i
    && i in s.objs && s.objs[i].key == key && s.objs[i].inQueue
    && i !in s.queue && i !in s.log
  }

  lemma ModifyMakesDeaf(s: State, key: Key, events: Events, data: nat, oneShot: bool, edge: bool)
    requires Inv(s) && Queued(s, key)
    ensures Deaf(Modified(s, key, events, data, FromFlags(oneShot, edge)), key, s.serial)
  {
  }

  lemma DeafWake(s: State, key: Key, i: nat, j: nat)
    requires Deaf(s, key, i)
    ensures Deaf(Wake(s, j), key, i)
  {
  }

  lemma {:induction false} DeafWakeAll(s: State, key: Key, i: nat, fired: seq<nat>)
    requires Deaf(s, key, i)
    ensures Deaf(WakeAll(s, fired), key, i)
    decreases |fired|
  {
    if fired != [] {
      DeafWake(s, key, i, fired[0]);
      DeafWakeAll(Wake(s, fired[0]), key, i, fired[1..]);
    }
  }

  lemma DeafPollStep(s: State, key: Key, i: nat, out: seq<Event>)
    requires Deaf(s, key, i) && s.queue != []
    ensures Deaf(PollStep(s, out).0, key, i)
  {
    assert s.queue[0] in s.queue;
  }

  lemma {:induction false} DeafPollLoop(s: State, key: Key, i: nat, m: nat, out: seq<Event>)
    requires Deaf(s, key, i)
    ensures Deaf(PollLoop(s, m, out).0, key, i)
    decreases m - |out|, |s.queue|
  {
    if s.queue != [] && |out| < m {
      DeafPollStep(s, key, i, out);
      var (t, more) := PollStep(s, out);
      DeafPollLoop(t, key, i, m, more);
    }
  }

  lemma DeafInstalled(s: State, key: Key, i: nat, other: Key, events: Events, data: nat, mode: Mode, inQueue: bool)
    requires Deaf(s, key, i) && other != key
    ensures Deaf(CheckAndRegister(Installed(s, other, events, data, mode, inQueue), s.serial), key, i)
  {
  }

  /** The operations that concern `key` itself: anything else leaves a deaf interest deaf. */
  predicate Touches(a: Action, key: Key) { (a.Modify? || a.Delete?) && a.key == key }

  lemma DeafStep(s: State, key: Key, i: nat, a: Action)
    requires Deaf(s, key, i) && !Touches(a, key)
    ensures Deaf(Next(s, a), key, i)
  {
    match a
    case Add(other, ev, d, o, e) =>
      if other !in s.interests { DeafInstalled(s, key, i, other, ev, d, FromFlags(o, e), false); }
    case Modify(other, ev, d, o, e) =>
      if other in s.interests && s.interests[other] in s.objs {
        DeafInstalled(s, key, i, other, ev, d, FromFlags(o, e), s.objs[s.interests[other]].inQueue);
      }
    case Poll(room) => DeafPollLoop(s, key, i, room, []);
    case Change(f, ready, fired) => DeafWakeAll(Changed(s, f, ready, fired), key, i, fired);
    case _ =>
  }

  /** Once deaf, always deaf: however files become ready and are polled, opened or closed, and whatever
      happens to other keys, the interest stays registered and is never queued or reported, until its
      key is modified or deleted. Closing its file does not remove it either. */
  lemma {:induction false} DeafForever(states: seq<State>, acts: seq<Action>, k: nat, key: Key, i: nat)
    requires |states| == |acts| + 1 && k < |states|
    requires forall j :: 0 <= j < |acts| ==> states[j + 1] == Next(states[j], acts[j]) && !Touches(acts[j], key)
    requires Deaf(states[0], key, i)
    ensures Deaf(states[k], key, i)
  {
    if k > 0 {
      DeafForever(states, acts, k - 1, key, i);
      DeafStep(states[k - 1], key, i, acts[k - 1]);
    }
  }

  lemma ReadyWhenAdded(key: Key)
    requires key == Key(3, 0)
    ensures var acts := [OpenFile(0, {1}), Add(key, {1}, 7, false, false)];
            var s1 := Next(INIT, acts[0]);
            var s2 := Next(s1, acts[1]);
            IsRun([INIT, s1, s2], acts) && Queued(s2, key)
  {
    var acts := [OpenFile(0, {1}), Add(key, {1}, 7, false, false)];
    var s1 := Next(INIT, acts[0]);
    assert 1 in {1} * {1};
    assert IsRun([INIT, s1, Next(s1, acts[1])], acts);
  }

  /** It happens: a file that is ready is added and then modified before it is polled. */
  lemma ModifyFails()
    ensures var key := Key(3, 0);
            var acts := [OpenFile(0, {1}), Add(key, {1}, 7, false, false)];
            var s1 := Next(INIT, acts[0]);
            var s2 := Next(s1, acts[1]);
            var t := Next(s2, Modify(key, {1}, 8, false, false));
            IsRun([INIT, s1, s2], acts) && Queued(s2, key) && !Inv(t) && Deaf(t, key, 1)
  {
    var key := Key(3, 0);
    var acts := [OpenFile(0, {1}), Add(key, {1}, 7, false, false)];
    var s1 := Next(INIT, acts[0]);
    var s2 := Next(s1, acts[1]);
    ReadyWhenAdded(key);
    RunInv([INIT, s1, s2], acts, 2);
    ModifyIff(s2, key, {1}, 8, false, false);
    ModifyMakesDeaf(s2, key, {1}, 8, false, false);
  }

  // --------------------------------------------------------------------------- round-robin delivery

  function Rotated(q: seq<nat>, j: nat): seq<nat>
    requires j <= |q|
  {
    q[j..] + q[..j]
  }

  /** `i` is level-triggered and ready, and `event` is what it has to report. */
  ghost predicate Reports(s: State, i: nat, event: Event)
  {
    Alive(s, i) && Open(s, i) && s.objs[i].mode.Level? && Matched(s, i) != {} && event == Event(Matched(s, i), s.objs[i].data)
  }

  ghost predicate ReportsAt(s: State, q: seq<nat>, events: seq<Event>, a: nat)
    requires |q| == |events|
  {
    a < |q| ==> Reports(s, q[a], events[a])
  }

  /** The queue `q` consists of ready level-triggered interests that have `events` to report. */
  ghost predicate AllReady(s: State, q: seq<nat>, events: seq<Event>)
  {
    |q| == |events| && forall a: nat :: ReportsAt(s, q, events, a)
  }

  function Succ(j: nat, len: nat): (k: nat)
    requires j < len
    ensures k < len
  {
    if j + 1 == len then 0 else j + 1
  }

  /** The place `n` steps round the ring from place `j`. */
  function Advance(j: nat, n: nat, len: nat): (k: nat)
    requires j < len
    ensures k < len
    decreases n
  {
    if n == 0 then j else Advance(Succ(j, len), n - 1, len)
  }

  /** `n` elements of the ring `e`, from place `j` on. */
  function Around<T>(e: seq<T>, j: nat, n: nat): (r: seq<T>)
    requires j < |e|
    ensures |r| == n
    decreases n
  {
    if n == 0 then [] else [e[j]] + Around(e, Succ(j, |e|), n - 1)
  }

  /** The ring in plain arithmetic: element `t` from place `j` on is element `(j + t) mod len`. */
  lemma {:induction false} AroundAt<T>(e: seq<T>, j: nat, n: nat, t: nat)
    requires j < |e| && t < n
    ensures Around(e, j, n)[t] == e[Advance(j, t, |e|)]
    decreases n
  {
    if t > 0 { AroundAt(e, Succ(j, |e|), n - 1, t - 1); }
  }

  lemma {:induction false} AdvanceIsModulo(j: nat, n: nat, len: nat)
    requires j < len
    ensures Advance(j, n, len) == (j + n) % len
    decreases n
  {
    if n == 0 {
    } else if j + 1 == len {
      AdvanceIsModulo(0, n - 1, len);
      AddModulus(n - 1, len);
      assert j + n == len + (n - 1);
    } else {
      AdvanceIsModulo(j + 1, n - 1, len);
      assert j + 1 + (n - 1) == j + n;
    }
  }

  lemma AddModulus(t: nat, n: nat)
    requires 0 < n
    ensures (n + t) % n == t % n
  {
    assert t == t / n * n + t % n;
    assert n + t == (t / n + 1) * n + t % n;
    DivUnique(n + t, n, t / n + 1, t % n);
  }

  lemma DivUnique(x: nat, n: nat, q: nat, r: nat)
    requires 0 < n && r < n && x == q * n + r
    ensures x % n == r
  {
    var q', r' := x / n, x % n;
    assert (q - q') * n == r' - r;
    SmallMultiple(q - q', n);
  }

  lemma SmallMultiple(k: int, n: nat)
    requires 0 < n && 0 - n < k * n < n
    ensures k == 0
  {
  }

  lemma {:induction false} AroundJoin<T>(e: seq<T>, j: nat, a: nat, b: nat)
    requires j < |e|
    ensures Around(e, j, a) + Around(e, Advance(j, a, |e|), b) == Around(e, j, a + b)
    decreases a
  {
    if a > 0 {
      AroundJoin(e, Succ(j, |e|), a - 1, b);
      assert [e[j]] + (Around(e, Succ(j, |e|), a - 1) + Around(e, Advance(j, a, |e|), b)) == Around(e, j, a) + Around(e, Advance(j, a, |e|), b);
    }
  }

  lemma RotatedStep(q: seq<nat>, j: nat)
    requires j < |q|
    ensures Rotated(q, j)[0] == q[j] && Rotated(q, j)[1..] + [q[j]] == Rotated(q, Succ(j, |q|))
  {}

  /** One round on a ready level-triggered front: report it and move it to the back. */
  lemma PollStepLevel(s: State, out: seq<Event>, i: nat, event: Event)
    requires s.queue != [] && s.queue[0] == i && Reports(s, i, event)
    ensures PollStep(s, out) == (s.(queue := s.queue[1..] + [i], log := s.log + [i]), out + [event])
  {
    assert s.objs[i := s.objs[i].(mode := s.objs[i].mode)] == s.objs;
  }

  lemma ReportsFrame(s: State, t: State, q: seq<nat>, events: seq<Event>)
    requires AllReady(s, q, events) && t == s.(queue := t.queue, log := t.log)
    ensures AllReady(t, q, events)
  {
    forall a: nat ensures ReportsAt(t, q, events, a) { assert ReportsAt(s, q, events, a); }
  }

  /** The outcome `r` is `out` with the events of the next `n` places of the ring appended, `log` with the
      interests themselves, and the ring rotated on. */
  ghost predicate Went(r: (State, seq<Event>), out: seq<Event>, log: seq<nat>, q: seq<nat>, events: seq<Event>, j: nat, n: nat)
    requires j < |q|
  {
    && |events| == |q| && r.1 == out + Around(events, j, n) && r.0.log == log + Around(q, j, n)
    && r.0.queue == Rotated(q, Advance(j, n, |q|)) && AllReady(r.0, q, events)
  }

  lemma WentFromNothing(r: (State, seq<Event>), log: seq<nat>, q: seq<nat>, events: seq<Event>, j: nat, n: nat)
    requires j < |q| && Went(r, [], log, q, events, j, n)
    ensures r.1 == Around(events, j, n) && r.0.log == log + Around(q, j, n)
    ensures r.0.queue == Rotated(q, Advance(j, n, |q|)) && AllReady(r.0, q, events)
  {
    assert [] + Around(events, j, n) == Around(events, j, n);
  }

  /** With room for `m` reports, `poll_events` reports the next places of the ring until the output is
      full, and leaves the ring rotated by as many. */
  lemma {:induction false} RoundRobin(s: State, m: nat, out: seq<Event>, q: seq<nat>, events: seq<Event>, j: nat)
    requires j < |q| && s.queue == Rotated(q, j) && AllReady(s, q, events) && |out| <= m
    ensures Went(PollLoop(s, m, out), out, s.log, q, events, j, m - |out|)
    decreases m - |out|
  {
    var n := m - |out|;
    if n > 0 {
      RoundRobinStep(s, m, out, q, events, j);
      var (s1, out1) := PollStep(s, out);
      RoundRobin(s1, m, out1, q, events, Succ(j, |q|));
      Reassociate(out, events[j], Around(events, Succ(j, |q|), n - 1));
      Reassociate(s.log, q[j], Around(q, Succ(j, |q|), n - 1));
    }
  }

  lemma Reassociate<T>(out: seq<T>, e: T, rest: seq<T>)
    ensures out + [e] + rest == out + ([e] + rest)
  {
  }

  lemma RoundRobinStep(s: State, m: nat, out: seq<Event>, q: seq<nat>, events: seq<Event>, j: nat)
    requires j < |q| && s.queue == Rotated(q, j) && AllReady(s, q, events) && |out| < m
    ensures var (s1, out1) := PollStep(s, out);
            && s1.queue == Rotated(q, Succ(j, |q|)) && AllReady(s1, q, events)
            && out1 == out + [events[j]] && s1.log == s.log + [q[j]]
            && PollLoop(s, m, out) == PollLoop(s1, m, out1)
  {
    RotatedStep(q, j);
    assert ReportsAt(s, q, events, j);
    PollStepLevel(s, out, q[j], events[j]);
    var (s1, out1) := PollStep(s, out);
    ReportsFrame(s, s1, q, events);
  }

  lemma OneCall(s: State, m: nat, q: seq<nat>, events: seq<Event>, j: nat)
    requires j < |q| && s.queue == Rotated(q, j) && AllReady(s, q, events)
    ensures var (t, out) := PollLoop(s, m, []);
            && out == Around(events, j, m) && t.log == s.log + Around(q, j, m)
            && t.queue == Rotated(q, Advance(j, m, |q|)) && AllReady(t, q, events)
  {
    RoundRobin(s, m, [], q, events, j);
    WentFromNothing(PollLoop(s, m, []), s.log, q, events, j, m);
  }

  /** Round robin in plain arithmetic: on a queue of `q > 0` ready level-triggered interests and `m`
      output slots, report `t` comes from queue place `t mod q`, and the queue ends up rotated by
      `m mod q`. */
  lemma PollGoesRound(s: State, m: nat, events: seq<Event>)
    requires s.queue != [] && AllReady(s, s.queue, events)
    ensures var (t, out) := PollLoop(s, m, []);
            && |out| == m && (forall k :: 0 <= k < m ==> out[k] == events[k % |s.queue|])
            && |t.log| == |s.log| + m && s.log <= t.log
            && (forall k :: 0 <= k < m ==> t.log[|s.log|..][k] == s.queue[k % |s.queue|])
            && t.queue == Rotated(s.queue, m % |s.queue|)
  {
    var q := s.queue;
    assert q == Rotated(q, 0);
    OneCall(s, m, q, events, 0);
    AdvanceIsModulo(0, m, |q|);
    assert PollLoop(s, m, []).0.log[|s.log|..] == Around(q, 0, m);
    forall k | 0 <= k < m ensures Around(events, 0, m)[k] == events[k % |q|] && Around(q, 0, m)[k] == q[k % |q|] {
      AroundAt(events, 0, m, k);
      AroundAt(q, 0, m, k);
      AdvanceIsModulo(0, k, |q|);
    }
  }

  /** The reports of `calls` consecutive `poll_events` calls with room for `m` each. */
  function PollCalls(s: State, m: nat, calls: nat): (State, seq<Event>)
    decreases calls
  {
    if calls == 0 then (s, [])
    else
      var (t, first) := PollLoop(s, m, []);
      var (u, later) := PollCalls(t, m, calls - 1);
      (u, first + later)
  }

  lemma {:induction false} CallsGoRound(s: State, m: nat, calls: nat, q: seq<nat>, events: seq<Event>, j: nat)
    requires j < |q| && s.queue == Rotated(q, j) && AllReady(s, q, events)
    ensures PollCalls(s, m, calls).1 == Around(events, j, Room(calls, m))
    ensures PollCalls(s, m, calls).0.log == s.log + Around(q, j, Room(calls, m))
    decreases calls
  {
    if calls > 0 {
      var (t, first) := PollLoop(s, m, []);
      OneCall(s, m, q, events, j);
      CallsGoRound(t, m, calls - 1, q, events, Advance(j, m, |q|));
      var (u, later) := PollCalls(t, m, calls - 1);
      Combined(q, events, j, m, Room(calls - 1, m), s.log, t.log, u.log, first, later);
    }
  }

  /** The room in `calls` outputs of `m` places. */
  ghost function Room(calls: nat, m: nat): nat { if calls == 0 then 0 else m + Room(calls - 1, m) }

  lemma {:induction false} RoomIsProduct(calls: nat, m: nat)
    ensures Room(calls, m) == calls * m
  {
    if calls > 0 {
      RoomIsProduct(calls - 1, m);
      assert m + (calls - 1) * m == calls * m;
    }
  }

  lemma Combined(q: seq<nat>, events: seq<Event>, j: nat, m: nat, k: nat,
                 log: seq<nat>, log1: seq<nat>, log2: seq<nat>, first: seq<Event>, later: seq<Event>)
    requires j < |q| == |events|
    requires first == Around(events, j, m) && log1 == log + Around(q, j, m)
    requires later == Around(events, Advance(j, m, |q|), k) && log2 == log1 + Around(q, Advance(j, m, |q|), k)
    ensures first + later == Around(events, j, m + k) && log2 == log + Around(q, j, m + k)
  {
    AroundJoin(events, j, m, k);
    AroundJoin(q, j, m, k);
    assert log + Around(q, j, m) + Around(q, Advance(j, m, |q|), k) ==
           log + (Around(q, j, m) + Around(q, Advance(j, m, |q|), k));
  }

  /** Nobody starves: as soon as the calls together have room for the whole queue, each of its
      interests has been reported, itself and not only an event equal to its own. */
  lemma EverybodyReported(s: State, m: nat, calls: nat, events: seq<Event>, a: nat)
    requires AllReady(s, s.queue, events) && calls * m >= |s.queue| && a < |s.queue|
    ensures var (t, out) := PollCalls(s, m, calls);
            s.log <= t.log && s.queue[a] in t.log[|s.log|..] && events[a] in out
  {
    var q, t := s.queue, PollCalls(s, m, calls).0;
    assert q == Rotated(q, 0);
    CallsGoRound(s, m, calls, q, events, 0);
    RoomIsProduct(calls, m);
    assert t.log[|s.log|..] == Around(q, 0, calls * m);
    AroundAt(events, 0, calls * m, a);
    AroundAt(q, 0, calls * m, a);
    AdvanceShort(0, a, |q|);
  }

  lemma {:induction false} AdvanceShort(j: nat, n: nat, len: nat)
    requires j + n < len
    ensures Advance(j, n, len) == j + n
    decreases n
  {
    if n > 0 { AdvanceShort(j + 1, n - 1, len); }
  }

  // ---------------------------------------------------------------------------- the epoll instance

  datatype Result<T> = Ok(value: T) | Err(error: Error)

  class EpollInner {
    var interests: map<Key, nat>
    var objs: map<nat, Interest>
    var queue: seq<nat>
    var files: map<nat, Events>
    var armed: set<nat>
    var serial: nat
    ghost var log: seq<nat>

    ghost function View(): State
      reads this
    {
      State(interests, objs, queue, files, armed, serial, log)
    }

    ghost predicate Valid() reads this { Inv(View()) }

    constructor ()
      ensures Valid() && View() == INIT
    {
      interests, objs, queue, files, armed, serial, log := map[], map[], [], map[], {}, 0, [];
    }

    method WakeInterest(i: nat)
      modifies this`objs, this`queue
      ensures View() == Wake(old(View()), i)
    {
      if i in objs && objs[i].key in interests && interests[objs[i].key] == i && !objs[i].inQueue {
        objs := objs[i := objs[i].(inQueue := true)];
        queue := queue + [i];
      }
    }

    method CheckAndRegisterWaker(i: nat)
      requires i in objs
      modifies this`objs, this`queue, this`armed
      ensures View() == CheckAndRegister(old(View()), i)
    {
      var key := objs[i].key;
      if key.file !in files || !objs[i].mode.Enabled() {
        return;
      }
      if files[key.file] * objs[i].events != {} {
        WakeInterest(i);
      } else {
        armed := armed + {i};
      }
    }

    method Install(key: Key, events: Events, data: nat, mode: Mode, inQueue: bool)
      modifies this
      ensures View() == CheckAndRegister(Installed(old(View()), key, events, data, mode, inQueue), old(serial))
      ensures Registered(View(), key, events, data, mode)
    {
      InstallRegisters(View(), key, events, data, mode, inQueue);
      var i := serial;
      objs := objs[i := Interest(key, events, data, mode, inQueue)];
      interests := interests[key := i];
      serial := serial + 1;
      CheckAndRegisterWaker(i);
    }

    /** `Epoll::add`. */
    method Add(key: Key, events: Events, data: nat, oneShot: bool, edge: bool) returns (r: Result<()>)
      requires Valid()
      modifies this
      ensures Valid()
      ensures r == if key in old(interests) then Err(AlreadyExists) else Ok(())
      ensures View() == if r.Ok? then Added(old(View()), key, events, data, FromFlags(oneShot, edge)) else old(View())
      ensures r.Ok? ==> Registered(View(), key, events, data, FromFlags(oneShot, edge))
    {
      if key in interests {
        return Err(AlreadyExists);
      }
      AddInv(View(), key, events, data, FromFlags(oneShot, edge));
      Install(key, events, data, FromFlags(oneShot, edge), false);
      r := Ok(());
    }

    /** `Epoll::modify`; what it leaves is valid exactly when the old interest was not queued. */
    method Modify(key: Key, events: Events, data: nat, oneShot: bool, edge: bool) returns (r: Result<()>)
      requires Valid() && key.file in files
      modifies this
      ensures r == if key in old(interests) then Ok(()) else Err(NotFound)
      ensures View() == if r.Ok? then Modified(old(View()), key, events, data, FromFlags(oneShot, edge)) else old(View())
      ensures r.Ok? ==> Registered(View(), key, events, data, FromFlags(oneShot, edge))
      ensures Valid() <==> !Queued(old(View()), key)
    {
      if key !in interests {
        return Err(NotFound);
      }
      ModifyIff(View(), key, events, data, oneShot, edge);
      Install(key, events, data, FromFlags(oneShot, edge), objs[interests[key]].inQueue);
      r := Ok(());
    }

    /** `Epoll::delete`. */
    method Delete(key: Key) returns (r: Result<()>)
      requires Valid()
      modifies this
      ensures Valid()
      ensures r == if key in old(interests) then Ok(()) else Err(NotFound)
      ensures View() == old(View()).(interests := old(interests) - {key})
    {
      EnvironmentInv(View(), Action.Delete(key));
      r := if key in interests then Ok(()) else Err(NotFound);
      interests := interests - {key};
    }

    /** One round of the loop in `poll_events`: pop, upgrade, consume, re-register. */
    method PollRound(out: seq<Event>) returns (more: seq<Event>)
      requires queue != []
      modifies this
      ensures (View(), more) == PollStep(old(View()), out)
    {
      var i := queue[0];
      queue := queue[1..];
      more := out;
      if !(i in objs && objs[i].key in interests && interests[objs[i].key] == i) {
        return;
      }
      var key := objs[i].key;
      if key.file !in files {
        interests := interests - {key};
        objs := objs[i := objs[i].(inQueue := false)];
        return;
      }
      var matched := files[key.file] * objs[i].events;
      var (notify, mode) := objs[i].mode.ShouldNotify();
      if matched != {} && notify {
        objs := objs[i := objs[i].(mode := mode)];
        log := log + [i];
        more := out + [Event(matched, objs[i].data)];
        if mode.Level? {
          queue := queue + [i];
          return;
        }
      }
      objs := objs[i := objs[i].(inQueue := false)];
      if objs[i].mode.Enabled() {
        armed := armed + {i};
      }
    }

    ghost predicate DueIn(i: nat) reads this { i in queue && Due(View(), i) }

    ghost function Report(i: nat): Event
      requires DueIn(i)
      reads this
    {
      EventOf(View(), i)
    }

    /** `Epoll::poll_events` into an output with room for `m` events; an empty result stands for
        `WouldBlock`. */
    method PollEvents(m: nat) returns (out: seq<Event>)
      requires Valid()
      modifies this
      ensures Valid() && |out| <= m
      ensures (View(), out) == PollLoop(old(View()), m, [])
      ensures forall i :: old(DueIn(i)) && m >= |old(queue)| ==> ReportedAs(View(), out, old(log), i, old(Report(i)))
    {
      out := [];
      EachDueReported(View(), m);
      while queue != [] && |out| < m
        invariant Valid() && |out| <= m
        invariant PollLoop(View(), m, out) == PollLoop(old(View()), m, [])
        decreases m - |out|, |queue|
      {
        PollStepInv(View(), out);
        out := PollRound(out);
      }
    }
  }
}
