/**
 Interval timers and the alarm task (core/src/time.rs, core/src/task.rs).

 A thread's timers are charged with user time, user and kernel time, or elapsed time, at every poll.
 The alarm task sleeps until the earliest entry of a shared heap is due and then polls its owner.
 */
module Timers {

  datatype Signo = SIGALRM | SIGVTALRM | SIGPROF
  datatype TimerState = Idle | User | Kernel
  datatype Kind = Real | Virtual | Prof

  function SignalOf(k: Kind): Signo
  {
    match k
    case Real => SIGALRM
    case Virtual => SIGVTALRM
    case Prof => SIGPROF
  }

  datatype ITimer = ITimer(interval: nat, remained: nat)

  /** What happened to a timer since it was set: the value it was set to, the time already charged
      then, how often it has fired, and when its latest alarm is due. */
  datatype Ledger = Ledger(value: nat, base: nat, fired: nat, due: nat)

  /** `n` intervals in a row. */
  ghost function Intervals(n: nat, interval: nat): nat
  {
    if n == 0 then 0 else Intervals(n - 1, interval) + interval
  }

  lemma {:induction false} IntervalsIsProduct(n: nat, interval: nat)
    ensures Intervals(n, interval) == n * interval
  {
    if n > 0 {
      IntervalsIsProduct(n - 1, interval);
      assert n * interval == (n - 1) * interval + interval;
    }
  }

  /** The law of a timer: after `fired` emissions the charge covers the value and the intervals
      between, the first emission comes exactly when the value is covered, and a timer without an
      interval fires once. */
  ghost predicate NeverEarly(t: ITimer, l: Ledger, charged: nat)
  {
    && l.base <= charged
    && (l.fired > 0 ==> l.value + Intervals(l.fired - 1, t.interval) <= charged - l.base)
    && (l.fired > 0 <==> 0 < l.value <= charged - l.base)
    && (t.interval == 0 ==> l.fired <= 1)
  }

  /** What is still to come: `NeverEarly` is kept because of it. */
  ghost predicate Pending(t: ITimer, l: Ledger, charged: nat)
  {
    && l.base <= charged
    && (t.remained > 0 ==> l.value + Intervals(l.fired, t.interval) <= charged - l.base + t.remained)
    && (l.fired == 0 ==> charged - l.base + t.remained == l.value || (l.value == 0 && t.remained == 0))
    && (l.fired > 0 ==> l.value > 0 && (t.remained > 0 <==> t.interval > 0))
  }

  ghost predicate TimerOk(t: ITimer, l: Ledger, charged: nat)
  {
    NeverEarly(t, l, charged) && Pending(t, l, charged)
  }

  function Expires(t: ITimer, delta: nat): bool { 0 < t.remained <= delta }

  function Updated(t: ITimer, delta: nat): ITimer
  {
    if t.remained == 0 then t
    else if t.remained > delta then t.(remained := t.remained - delta)
    else t.(remained := t.interval)
  }

  /** The alarm pushed when an update renews the timer. */
  function Renewed(t: ITimer, delta: nat, wall: nat): multiset<nat>
  {
    if Expires(t, delta) && t.interval > 0 then multiset{wall + t.interval} else multiset{}
  }

  ghost function Noted(t: ITimer, l: Ledger, delta: nat, wall: nat): Ledger
  {
    if !Expires(t, delta) then l
    else l.(fired := l.fired + 1, due := if t.interval > 0 then wall + t.interval else l.due)
  }

  lemma UpdateOk(t: ITimer, l: Ledger, charged: nat, delta: nat, wall: nat)
    requires TimerOk(t, l, charged)
    ensures TimerOk(Updated(t, delta), Noted(t, l, delta, wall), charged + delta)
  {
    assert Intervals(l.fired + 1, t.interval) == Intervals(l.fired, t.interval) + t.interval;
  }

  ghost function Sum(charges: seq<nat>): nat
  {
    if charges == [] then 0 else Sum(charges[..|charges| - 1]) + charges[|charges| - 1]
  }

  /** A timer set to (value, interval) and charged step by step: what is left, and how often it fired. */
  ghost function After(value: nat, interval: nat, charges: seq<nat>): (ITimer, nat)
  {
    if charges == [] then (ITimer(interval, value), 0)
    else
      var (t, n) := After(value, interval, charges[..|charges| - 1]);
      var delta := charges[|charges| - 1];
      (Updated(t, delta), if Expires(t, delta) then n + 1 else n)
  }

  lemma {:induction false} AfterOk(value: nat, interval: nat, charges: seq<nat>)
    ensures var (t, n) := After(value, interval, charges);
            t.interval == interval && TimerOk(t, Ledger(value, 0, n, 0), Sum(charges))
  {
    if charges != [] {
      var init, delta := charges[..|charges| - 1], charges[|charges| - 1];
      AfterOk(value, interval, init);
      var (t, n) := After(value, interval, init);
      UpdateOk(t, Ledger(value, 0, n, 0), Sum(init), delta, 0);
    }
  }

  /** However the time is cut into charges: n emissions take the value and n - 1 intervals, a timer
      without an interval fires at most once, and it has fired exactly when its value is used up. */
  lemma NoEarlyEmission(value: nat, interval: nat, charges: seq<nat>)
    ensures var n := After(value, interval, charges).1;
            && (n > 0 ==> value + (n - 1) * interval <= Sum(charges))
            && (interval == 0 ==> n <= 1)
            && (n > 0 <==> 0 < value <= Sum(charges))
  {
    AfterOk(value, interval, charges);
    var n := After(value, interval, charges).1;
    if n > 0 { IntervalsIsProduct(n - 1, interval); }
  }

  /** Charging on is as good as charging a timer set to what is left. */
  lemma {:induction false} AfterConcat(value: nat, interval: nat, charges: seq<nat>, more: seq<nat>)
    ensures var (t, n) := After(value, interval, charges);
            var (u, m) := After(t.remained, interval, more);
            After(value, interval, charges + more) == (u, n + m)
  {
    AfterOk(value, interval, charges);
    if more == [] {
      assert charges + more == charges;
    } else {
      var init := more[..|more| - 1];
      AfterConcat(value, interval, charges, init);
      assert (charges + more)[..|charges + more| - 1] == charges + init;
    }
  }

  /** After the last charge `delta` of `charges + [delta]` has made it fire, a timer with an interval fires
      again exactly when the charges that follow cover the interval: neither early nor late. */
  lemma NextEmission(value: nat, interval: nat, charges: seq<nat>, delta: nat, more: seq<nat>)
    requires After(value, interval, charges + [delta]).1 > After(value, interval, charges).1
    ensures After(value, interval, charges + [delta] + more).1 > After(value, interval, charges + [delta]).1 <==>
            0 < interval <= Sum(more)
  {
    AfterOk(value, interval, charges);
    assert (charges + [delta])[..|charges|] == charges;
    AfterConcat(value, interval, charges + [delta], more);
    NoEarlyEmission(interval, interval, more);
  }

  // ------------------------------------------------------------------ from which moment a timer runs

  ghost predicate Monotone(from: nat, polls: seq<nat>)
  {
    && (forall i :: 0 <= i < |polls| ==> from <= polls[i])
    && (forall i, j :: 0 <= i < j < |polls| ==> polls[i] <= polls[j])
  }

  /** What each of the polls charges the real timer with, if the one before the first was at `last`. */
  ghost function Charges(last: nat, polls: seq<nat>): seq<nat>
    requires Monotone(last, polls)
  {
    seq(|polls|, i requires 0 <= i < |polls| => polls[i] - if i == 0 then last else polls[i - 1])
  }

  lemma {:induction false} ChargesSum(last: nat, polls: seq<nat>)
    requires Monotone(last, polls)
    ensures Sum(Charges(last, polls)) == if polls == [] then 0 else polls[|polls| - 1] - last
  {
    if polls != [] {
      var init := polls[..|polls| - 1];
      ChargesSum(last, init);
      assert Charges(last, polls)[..|polls| - 1] == Charges(last, init);
    }
  }

  /** A real timer that is set to `value` at time `armed`, while the last poll was at `last`, has fired by
      the last of the given polls although less than `value` has gone by since it was set. */
  ghost predicate FiresEarly(value: nat, interval: nat, last: nat, armed: nat, polls: seq<nat>)
  {
    && last <= armed && Monotone(armed, polls) && Monotone(last, polls) && polls != []
    && After(value, interval, Charges(last, polls)).1 > 0 && polls[|polls| - 1] < armed + value
  }

  /** Setting a timer does not poll, so its account starts at the last poll before. It never fires early,
      whenever it is polled from then on, exactly when it is set at the very moment of a poll. */
  lemma EarlyIff(value: nat, interval: nat, last: nat, armed: nat)
    requires 0 < value && last <= armed
    ensures (exists polls :: FiresEarly(value, interval, last, armed, polls)) <==> last != armed
  {
    if last != armed {
      var polls := [if armed < last + value then last + value else armed];
      NoEarlyEmission(value, interval, Charges(last, polls));
      ChargesSum(last, polls);
      assert FiresEarly(value, interval, last, armed, polls);
    } else {
      forall polls | FiresEarly(value, interval, last, armed, polls) ensures false {
        NoEarlyEmission(value, interval, Charges(last, polls));
        ChargesSum(last, polls);
      }
    }
  }

  function Index(k: Kind): nat { match k case Real => 0 case Virtual => 1 case Prof => 2 }

  /** The times charged so far, with the three timers (real, virtual, profiling) and their ledgers. */
  datatype Times = Times(utime: nat, stime: nat, lastWall: nat, timers: seq<ITimer>, ledgers: seq<Ledger>)

  /** The time a timer is charged with: time seen by polls, user time, or user and system time. */
  ghost function ChargeOf(c: Times, k: Kind): nat
  {
    match k
    case Real => c.lastWall
    case Virtual => c.utime
    case Prof => c.utime + c.stime
  }

  function UserPart(state: TimerState, delta: nat): nat { if state.User? then delta else 0 }

  function SystemPart(state: TimerState, delta: nat): nat { if state.Kernel? then delta else 0 }

  /** The time up to `now` went to the account of the state the thread was in, and to no other. */
  ghost predicate Spent(c: Times, d: Times, state: TimerState, now: nat)
  {
    && d.lastWall == now
    && match state
       case User => d.utime == c.utime + now - c.lastWall && d.stime == c.stime
       case Kernel => d.utime == c.utime && d.stime == c.stime + now - c.lastWall
       case Idle => d.utime == c.utime && d.stime == c.stime
  }

  ghost predicate Accounted(c: Times)
  {
    && |c.timers| == |c.ledgers| == 3
    && TimerOk(c.timers[0], c.ledgers[0], c.lastWall)
    && TimerOk(c.timers[1], c.ledgers[1], c.utime)
    && TimerOk(c.timers[2], c.ledgers[2], c.utime + c.stime)
  }

  ghost predicate Counted(c: Times, d: Times, i: nat, delta: nat, wall: nat)
    requires i < |c.timers| && i < |c.ledgers| && i < |d.timers| && i < |d.ledgers|
  {
    d.timers[i] == Updated(c.timers[i], delta) && d.ledgers[i] == Noted(c.timers[i], c.ledgers[i], delta, wall)
  }

  ghost predicate Charged(c: Times, d: Times, user: nat, system: nat, elapsed: nat, wall: nat)
  {
    && |c.timers| == |c.ledgers| == |d.timers| == |d.ledgers| == 3
    && d.utime == c.utime + user && d.stime == c.stime + system && d.lastWall == c.lastWall + elapsed
    && Counted(c, d, 0, elapsed, wall) && Counted(c, d, 1, user, wall) && Counted(c, d, 2, user + system, wall)
  }

  /** The processor-time timers after `user` and `system` more time, with what they send and push; the
      real timer is left alone. */
  ghost predicate CpuCharged(c: Times, d: Times, user: nat, system: nat, wall: nat, signals: set<Signo>,
                             first: multiset<nat>, second: multiset<nat>)
  {
    && |c.timers| == |c.ledgers| == |d.timers| == |d.ledgers| == 3
    && d.utime == c.utime + user && d.stime == c.stime + system && d.lastWall == c.lastWall
    && d.timers[0] == c.timers[0] && d.ledgers[0] == c.ledgers[0]
    && Counted(c, d, 1, user, wall) && Counted(c, d, 2, user + system, wall)
    && SIGALRM !in signals
    && (SIGVTALRM in signals <==> Expires(c.timers[1], user))
    && (SIGPROF in signals <==> Expires(c.timers[2], user + system))
    && first == Renewed(c.timers[1], user, wall) && second == Renewed(c.timers[2], user + system, wall)
  }

  /** Timer `k` alone is charged with `delta`, with what it sends and pushes. */
  ghost predicate OneUpdated(c: Times, d: Times, k: Kind, delta: nat, wall: nat, signals: set<Signo>, alarms: multiset<nat>)
  {
    var i := Index(k);
    && |c.timers| == |c.ledgers| == 3
    && d == c.(timers := c.timers[i := Updated(c.timers[i], delta)],
               ledgers := c.ledgers[i := Noted(c.timers[i], c.ledgers[i], delta, wall)])
    && signals == (if Expires(c.timers[i], delta) then {SignalOf(k)} else {})
    && alarms == Renewed(c.timers[i], delta, wall)
  }

  lemma UserCharged(c: Times, d: Times, e: Times, delta: nat, wall: nat,
                    s1: set<Signo>, a1: multiset<nat>, s2: set<Signo>, a2: multiset<nat>)
    requires OneUpdated(c.(utime := c.utime + delta), d, Virtual, delta, wall, s1, a1)
    requires OneUpdated(d, e, Prof, delta, wall, s2, a2)
    ensures CpuCharged(c, e, delta, 0, wall, s1 + s2, a1, a2)
  {
  }

  lemma KernelCharged(c: Times, d: Times, delta: nat, wall: nat, s: set<Signo>, a: multiset<nat>)
    requires OneUpdated(c.(stime := c.stime + delta), d, Prof, delta, wall, s, a)
    ensures CpuCharged(c, d, 0, delta, wall, s, multiset{}, a)
  {
  }

  lemma NothingCharged(c: Times, wall: nat)
    requires |c.timers| == |c.ledgers| == 3
    ensures CpuCharged(c, c, 0, 0, wall, {}, multiset{}, multiset{})
  {
  }

  /** A whole poll: all three timers charged, a signal for exactly those that expire, and an alarm for
      exactly those that run on. */
  ghost predicate Polled(c: Times, d: Times, user: nat, system: nat, elapsed: nat, wall: nat,
                         signals: set<Signo>, alarms: multiset<nat>)
  {
    && Charged(c, d, user, system, elapsed, wall)
    && (SIGALRM in signals <==> Expires(c.timers[0], elapsed))
    && (SIGVTALRM in signals <==> Expires(c.timers[1], user))
    && (SIGPROF in signals <==> Expires(c.timers[2], user + system))
    && alarms == Renewed(c.timers[1], user, wall) + Renewed(c.timers[2], user + system, wall)
                 + Renewed(c.timers[0], elapsed, wall)
  }

  /** Timer `k` has fired, and as it has an interval it is due again `x` on the clock. */
  ghost predicate RunsOn(c: Times, k: Kind, signals: set<Signo>, wall: nat, x: nat)
    requires |c.timers| == 3
  {
    SignalOf(k) in signals && c.timers[Index(k)].interval > 0 && x == wall + c.timers[Index(k)].interval
  }

  /** A timer that fires starts over with its interval, and stands still without one. If it runs on, an
      alarm is pushed for it, one interval after the clock was read. */
  lemma FiredStartsOver(c: Times, d: Times, user: nat, system: nat, elapsed: nat, wall: nat, signals: set<Signo>,
                        alarms: multiset<nat>, k: Kind, x: nat)
    requires Polled(c, d, user, system, elapsed, wall, signals, alarms)
    ensures SignalOf(k) in signals ==> d.timers[Index(k)].remained == c.timers[Index(k)].interval
    ensures RunsOn(c, k, signals, wall, x) ==> x in alarms
  {
    match k
    case Real => RenewedHas(c.timers[0], elapsed, wall);
    case Virtual => RenewedHas(c.timers[1], user, wall);
    case Prof => RenewedHas(c.timers[2], user + system, wall);
  }

  lemma RenewedHas(t: ITimer, delta: nat, wall: nat)
    ensures Expires(t, delta) && t.interval > 0 ==> wall + t.interval in Renewed(t, delta, wall)
  {
  }

  lemma RenewedAt(t: ITimer, delta: nat, wall: nat, x: nat)
    requires x in Renewed(t, delta, wall)
    ensures Expires(t, delta) && t.interval > 0 && x == wall + t.interval
  {
  }

  /** No other alarm is pushed. */
  lemma AlarmsOnlyFor(c: Times, d: Times, user: nat, system: nat, elapsed: nat, wall: nat, signals: set<Signo>,
                      alarms: multiset<nat>, x: nat)
    requires Polled(c, d, user, system, elapsed, wall, signals, alarms) && x in alarms
    ensures exists k :: RunsOn(c, k, signals, wall, x)
  {
    if x in Renewed(c.timers[1], user, wall) {
      RenewedAt(c.timers[1], user, wall, x);
      assert RunsOn(c, Virtual, signals, wall, x);
    } else if x in Renewed(c.timers[2], user + system, wall) {
      RenewedAt(c.timers[2], user + system, wall, x);
      assert RunsOn(c, Prof, signals, wall, x);
    } else {
      RenewedAt(c.timers[0], elapsed, wall, x);
      assert RunsOn(c, Real, signals, wall, x);
    }
  }

  lemma RealCharged(c: Times, d: Times, e: Times, user: nat, system: nat, elapsed: nat, wall: nat,
                    s1: set<Signo>, a1: multiset<nat>, a2: multiset<nat>, s3: set<Signo>, a3: multiset<nat>)
    requires CpuCharged(c, d, user, system, wall, s1, a1, a2) && OneUpdated(d, e, Real, elapsed, wall, s3, a3)
    ensures Polled(c, e.(lastWall := c.lastWall + elapsed), user, system, elapsed, wall, s1 + s3, a1 + a2 + a3)
  {
  }

  lemma ChargedOk(c: Times, d: Times, user: nat, system: nat, elapsed: nat, wall: nat)
    requires Accounted(c) && Charged(c, d, user, system, elapsed, wall)
    ensures Accounted(d)
  {
    UpdateOk(c.timers[0], c.ledgers[0], c.lastWall, elapsed, wall);
    UpdateOk(c.timers[1], c.ledgers[1], c.utime, user, wall);
    UpdateOk(c.timers[2], c.ledgers[2], c.utime + c.stime, user + system, wall);
  }

  class TimeManager {
    var utime: nat
    var stime: nat
    var lastWall: nat
    var state: TimerState
    var itimers: seq<ITimer>
    ghost var ledgers: seq<Ledger>

    ghost function View(): Times
      reads this
    {
      Times(utime, stime, lastWall, itimers, ledgers)
    }

    /** Every timer obeys its law, and the alarm of a running real timer is due no later than the
        moment at which a poll makes it expire. */
    ghost predicate Valid()
      reads this
    {
      Accounted(View()) && (itimers[0].remained > 0 ==> lastWall + itimers[0].remained <= ledgers[0].due)
    }

    constructor ()
      ensures Valid() && lastWall == utime == stime == 0 && state == Idle
      ensures itimers == [ITimer(0, 0), ITimer(0, 0), ITimer(0, 0)]
    {
      utime, stime, lastWall, state := 0, 0, 0, Idle;
      itimers := [ITimer(0, 0), ITimer(0, 0), ITimer(0, 0)];
      ledgers := [Ledger(0, 0, 0, 0), Ledger(0, 0, 0, 0), Ledger(0, 0, 0, 0)];
    }

    /** `wall` is the clock as read when the timer is renewed; `alarms` are the deadlines pushed. */
    method UpdateITimer(k: Kind, delta: nat, wall: nat) returns (signals: set<Signo>, alarms: multiset<nat>)
      requires |itimers| == |ledgers| == 3
      modifies this`itimers, this`ledgers
      ensures OneUpdated(old(View()), View(), k, delta, wall, signals, alarms)
    {
      signals, alarms := {}, multiset{};
      var t := itimers[Index(k)];
      ghost var l := ledgers[Index(k)];
      if t.remained == 0 {
        return;
      }
      if t.remained > delta {
        itimers := itimers[Index(k) := t.(remained := t.remained - delta)];
      } else {
        itimers := itimers[Index(k) := t.(remained := t.interval)];
        alarms := Renew(k, wall);
        signals := {SignalOf(k)};
        ledgers := ledgers[Index(k) := Noted(t, l, delta, wall)];
      }
    }

    method Renew(k: Kind, wall: nat) returns (alarms: multiset<nat>)
      requires |itimers| == 3
      ensures alarms == if itimers[Index(k)].remained > 0 then multiset{wall + itimers[Index(k)].remained} else multiset{}
    {
      alarms := if itimers[Index(k)].remained > 0 then multiset{wall + itimers[Index(k)].remained} else multiset{};
    }

    method ChargeUser(delta: nat, wall: nat) returns (signals: set<Signo>, first: multiset<nat>, second: multiset<nat>)
      requires |itimers| == |ledgers| == 3
      modifies this`utime, this`itimers, this`ledgers
      ensures CpuCharged(old(View()), View(), delta, 0, wall, signals, first, second)
    {
      ghost var c := View();
      utime := utime + delta;
      signals, first := UpdateITimer(Virtual, delta, wall);
      ghost var d, early := View(), signals;
      var more;
      more, second := UpdateITimer(Prof, delta, wall);
      UserCharged(c, d, View(), delta, wall, early, first, more, second);
      signals := signals + more;
    }

    method ChargeKernel(delta: nat, wall: nat) returns (signals: set<Signo>, first: multiset<nat>, second: multiset<nat>)
      requires |itimers| == |ledgers| == 3
      modifies this`stime, this`itimers, this`ledgers
      ensures CpuCharged(old(View()), View(), 0, delta, wall, signals, first, second)
    {
      ghost var c := View();
      stime := stime + delta;
      first := multiset{};
      signals, second := UpdateITimer(Prof, delta, wall);
      KernelCharged(c, View(), delta, wall, signals, second);
    }

    /** The two timers that count processor time; their alarms are `first` and `second`. */
    method ChargeState(delta: nat, wall: nat)
      returns (signals: set<Signo>, first: multiset<nat>, second: multiset<nat>)
      requires |itimers| == |ledgers| == 3
      modifies this`utime, this`stime, this`itimers, this`ledgers
      ensures CpuCharged(old(View()), View(), UserPart(state, delta), SystemPart(state, delta), wall, signals, first, second)
    {
      signals, first, second := {}, multiset{}, multiset{};
      match state {
        case User => signals, first, second := ChargeUser(delta, wall);
        case Kernel => signals, first, second := ChargeKernel(delta, wall);
        case Idle => NothingCharged(View(), wall);
      }
    }

    method PollTimers(now: nat, wall: nat) returns (signals: set<Signo>, alarms: multiset<nat>)
      requires |itimers| == |ledgers| == 3 && lastWall <= now <= wall
      modifies this
      ensures state == old(state)
      ensures var delta := now - old(lastWall);
        Polled(old(View()), View(), UserPart(state, delta), SystemPart(state, delta), delta, wall, signals, alarms)
    {
      ghost var c := View();
      var delta := now - lastWall;
      var early, first, second := ChargeState(delta, wall);
      ghost var d := View();
      var more, third := UpdateITimer(Real, delta, wall);
      ghost var e := View();
      signals, alarms := early + more, first + second + third;
      lastWall := now;
      assert View() == e.(lastWall := c.lastWall + delta);
      RealCharged(c, d, e, UserPart(state, delta), SystemPart(state, delta), delta, wall,
                  early, first, second, more, third);
    }

    /** One poll with a monotone clock. Each timer is charged with the time since the last poll as far
        as the thread's state says it should be, and a signal is sent exactly for the charged timers
        whose remaining time is used up; a real timer polled when its alarm is due has always expired. */
    method Poll(now: nat, wall: nat) returns (signals: set<Signo>, alarms: multiset<nat>)
      requires Valid() && lastWall <= now <= wall
      modifies this
      ensures Valid() && state == old(state)
      ensures var delta := now - old(lastWall);
        Polled(old(View()), View(), UserPart(state, delta), SystemPart(state, delta), delta, wall, signals, alarms)
      ensures old(itimers)[0].remained > 0 && old(ledgers)[0].due <= now ==> SIGALRM in signals
      ensures Spent(old(View()), View(), old(state), now)
    {
      ghost var was := View();
      signals, alarms := PollTimers(now, wall);
      ghost var delta := now - was.lastWall;
      ChargedOk(was, View(), UserPart(state, delta), SystemPart(state, delta), delta, wall);
    }

    /** The thread's state changes only after the time spent in the old one has been charged. */
    method SetState(now: nat, wall: nat, next: TimerState) returns (signals: set<Signo>, alarms: multiset<nat>)
      requires Valid() && lastWall <= now <= wall
      modifies this
      ensures Valid() && state == next
      ensures var delta := now - old(lastWall);
        Charged(old(View()), View(), UserPart(old(state), delta), SystemPart(old(state), delta), delta, wall)
      ensures Spent(old(View()), View(), old(state), now)
    {
      signals, alarms := Poll(now, wall);
      state := next;
    }

    /** Setting a timer starts a new account; the answer is what the old one still had. */
    method SetITimer(k: Kind, interval: nat, remained: nat, wall: nat) returns (was: ITimer, alarms: multiset<nat>)
      requires Valid() && lastWall <= wall
      modifies this`itimers, this`ledgers
      ensures Valid() && was == old(itimers)[Index(k)]
      ensures itimers == old(itimers)[Index(k) := ITimer(interval, remained)]
      ensures ledgers == old(ledgers)[Index(k) := Ledger(remained, ChargeOf(View(), k), 0, wall + remained)]
      ensures alarms == if remained > 0 then multiset{wall + remained} else multiset{}
    {
      was := itimers[Index(k)];
      itimers := itimers[Index(k) := ITimer(interval, remained)];
      ledgers := ledgers[Index(k) := Ledger(remained, ChargeOf(View(), k), 0, wall + remained)];
      alarms := Renew(k, wall);
    }
  }

  /** It happens: a real timer set to 10 at time 9, by a thread last polled at 0, fires at time 10. */
  method EarlyAlarm() returns (signals: set<Signo>)
    ensures SIGALRM in signals
  {
    var time := new TimeManager();
    var was, pushed := time.SetITimer(Real, 0, 10, 9);
    var alarms;
    signals, alarms := time.Poll(10, 10);
  }

  // ------------------------------------------------------------------------------ the alarm task

  /**
   Where the alarm task is between its lock-protected steps. In `Saw` it has dropped the lock and is
   about to create its listener; in `Listening` it has the listener and will look again; in `Asleep`
   it waits for a notification or for the deadline (for a notification only, if the heap was empty).
   */
  datatype Phase =
    | Ready
    | Saw(earliest: Deadline)
    | Listening(earliest: Deadline, notified: bool)
    | Asleep(earliest: Deadline, notified: bool)
    | Serving(peeked: nat)

  datatype Deadline = Nothing | At(time: nat)

  /** `owed` counts the threads that have pushed the earliest entry and are about to notify the alarm
      task; `late` collects what was pushed since the entry being served was peeked at. */
  datatype Alarms = Alarms(heap: multiset<nat>, now: nat, phase: Phase, owed: nat, late: multiset<nat>)

  ghost predicate IsEarliest(heap: multiset<nat>, d: Deadline)
  {
    match d
    case Nothing => heap == multiset{}
    case At(t) => t in heap && forall x :: x in heap ==> t <= x
  }

  datatype Step =
    | Tick(to: nat)
    | Push(deadline: nat)
    | Notify
    | Peek(found: Deadline)
    | Listen
    | LookAgain(found: Deadline)
    | Wake
    | Pop(popped: nat)

  ghost predicate Enabled(s: Alarms, a: Step)
  {
    match a
    case Tick(to) => s.now <= to
    case Push(_) => true
    case Notify => s.owed > 0
    case Peek(found) => s.phase.Ready? && IsEarliest(s.heap, found)
    case Listen => s.phase.Saw?
    case LookAgain(found) => s.phase.Listening? && IsEarliest(s.heap, found)
    case Wake => s.phase.Asleep? && (s.phase.notified || (s.phase.earliest.At? && s.phase.earliest.time <= s.now))
    case Pop(popped) => s.phase.Serving? && IsEarliest(s.heap, At(popped))
  }

  /** A push decides under the lock whether it has become the earliest entry. */
  ghost predicate ShouldWake(s: Alarms, deadline: nat) { forall x :: x in s.heap ==> deadline < x }

  /** The notification comes after the lock is released, and reaches the listener there is then. */
  ghost function Notified(phase: Phase): Phase
  {
    match phase
    case Listening(d, _) => Listening(d, true)
    case Asleep(d, _) => Asleep(d, true)
    case _ => phase
  }

  ghost function Next(s: Alarms, a: Step): Alarms
    requires Enabled(s, a)
  {
    match a
    case Tick(to) => s.(now := to)
    case Push(deadline) =>
      s.(heap := s.heap + multiset{deadline}, late := s.late + multiset{deadline},
         owed := if ShouldWake(s, deadline) then s.owed + 1 else s.owed)
    case Notify => s.(phase := Notified(s.phase), owed := s.owed - 1)
    case Peek(found) =>
      if found.At? && found.time <= s.now then s.(phase := Serving(found.time), late := multiset{})
      else s.(phase := Saw(found))
    case Listen => s.(phase := Listening(s.phase.earliest, false))
    case LookAgain(found) =>
      if found == s.phase.earliest then s.(phase := Asleep(found, s.phase.notified)) else s.(phase := Ready)
    case Wake => s.(phase := Ready)
    case Pop(popped) => s.(heap := s.heap - multiset{popped}, phase := Ready)
  }

  /** Only the alarm task pops: while it serves an entry that entry stays, everything else in the heap
      is either no earlier or was pushed since; and it never sleeps past the earliest deadline, unless
      somebody is about to notify it. */
  ghost predicate AlarmInv(s: Alarms)
  {
    match s.phase
    case Serving(d) =>
      && d <= s.now && d in s.heap && s.late <= s.heap
      && (forall x :: x in s.heap && x < d ==> x in s.late)
    case Asleep(d, notified) => notified || s.owed > 0 || IsEarliest(s.heap, d)
    case _ => true
  }

  lemma AlarmStepInv(s: Alarms, a: Step)
    requires AlarmInv(s) && Enabled(s, a)
    ensures AlarmInv(Next(s, a))
  {
  }

  ghost predicate IsRun(states: seq<Alarms>, steps: seq<Step>)
  {
    && |states| == |steps| + 1 && states[0] == Alarms(multiset{}, 0, Ready, 0, multiset{})
    && (forall i :: 0 <= i < |steps| ==> Enabled(states[i], steps[i]) && states[i + 1] == Next(states[i], steps[i]))
  }

  lemma {:induction false} AlarmRunInv(states: seq<Alarms>, steps: seq<Step>, i: nat)
    requires IsRun(states, steps) && i < |states|
    ensures AlarmInv(states[i])
  {
    if i > 0 {
      AlarmRunInv(states, steps, i - 1);
      AlarmStepInv(states[i - 1], steps[i - 1]);
    }
  }

  /** In every run the popped deadline is the peeked one exactly when nothing earlier was pushed while
      the lock was dropped. */
  lemma PopMatchesIff(states: seq<Alarms>, steps: seq<Step>, i: nat)
    requires IsRun(states, steps) && i < |steps| && steps[i].Pop?
    ensures steps[i].popped == states[i].phase.peeked <==>
            forall x :: x in states[i].late ==> states[i].phase.peeked <= x
  {
    AlarmRunInv(states, steps, i);
  }

  /** The clock is read and the entry pushed as one step: a new deadline lies in the future. */
  ghost predicate PushesAhead(states: seq<Alarms>, steps: seq<Step>)
    requires |states| == |steps| + 1
  {
    forall i :: 0 <= i < |steps| && steps[i].Push? ==> steps[i].deadline > states[i].now
  }

  ghost predicate LateAhead(s: Alarms)
  {
    s.phase.Serving? ==> forall x :: x in s.late ==> s.phase.peeked < x
  }

  lemma {:induction false} RunLateAhead(states: seq<Alarms>, steps: seq<Step>, i: nat)
    requires IsRun(states, steps) && PushesAhead(states, steps) && i < |states|
    ensures LateAhead(states[i])
  {
    if i > 0 {
      RunLateAhead(states, steps, i - 1);
      AlarmRunInv(states, steps, i - 1);
    }
  }

  /** Hence the assertion in the alarm task holds in every run of that kind. */
  lemma PopMatches(states: seq<Alarms>, steps: seq<Step>, i: nat)
    requires IsRun(states, steps) && PushesAhead(states, steps) && i < |steps| && steps[i].Pop?
    ensures steps[i].popped == states[i].phase.peeked
  {
    RunLateAhead(states, steps, i);
    PopMatchesIff(states, steps, i);
  }

  /** If an alarm is due, the alarm task is not stuck: it is awake, its wake-up is enabled, or a thread
      that has pushed is about to notify it, after which its wake-up is enabled. */
  lemma NeverOversleeps(states: seq<Alarms>, steps: seq<Step>, i: nat, t: nat)
    requires IsRun(states, steps) && i < |states| && t in states[i].heap && t <= states[i].now
    ensures states[i].phase.Asleep? ==>
      Enabled(states[i], Wake) || (Enabled(states[i], Notify) && Enabled(Next(states[i], Notify), Wake))
  {
    AlarmRunInv(states, steps, i);
  }

  ghost function LateSteps(): seq<Step> { [Push(5), Tick(10), Peek(At(5)), Push(3), Pop(3)] }

  ghost function LateStates(): seq<Alarms>
  {
    var five: multiset<nat> := multiset{5};
    [Alarms(multiset{}, 0, Ready, 0, multiset{}), Alarms(five, 0, Ready, 1, five), Alarms(five, 10, Ready, 1, five),
     Alarms(five, 10, Serving(5), 1, multiset{}), Alarms(five + multiset{3}, 10, Serving(5), 2, multiset{3}),
     Alarms(five, 10, Ready, 2, multiset{3})]
  }

  ghost predicate LateAt(i: nat)
    requires i < 5
  {
    Enabled(LateStates()[i], LateSteps()[i]) && LateStates()[i + 1] == Next(LateStates()[i], LateSteps()[i])
  }

  lemma LateBefore()
    ensures LateAt(0) && LateAt(1) && LateAt(2)
  {
    var s := LateStates()[0];
    assert ShouldWake(s, 5) && s.heap + multiset{5} == multiset{5} && s.late + multiset{5} == multiset{5};
  }

  lemma LatePush()
    ensures LateAt(3)
  {
    var s := LateStates()[3];
    assert ShouldWake(s, 3) && s.late + multiset{3} == multiset{3};
  }

  lemma LatePop()
    ensures LateAt(4)
  {
    var s := LateStates()[4];
    assert s.heap - multiset{3} == multiset{5};
  }

  /** It happens: entry 5 is due and served, entry 3 is pushed meanwhile (with a deadline computed before
      the clock reached 10), and the alarm task pops the wrong one. */
  lemma PopFails()
    ensures IsRun(LateStates(), LateSteps())
    ensures LateSteps()[4].popped != LateStates()[4].phase.peeked
  {
    LateBefore();
    LatePush();
    LatePop();
    assert forall i: nat :: i < 5 ==> LateAt(i);
  }
}
