/**
 What runs of the scheduler keep and guarantee: every process is in one place, a ready
 process runs after at most as many switches as there are processes ahead of it, and a
 sleeper wakes within bounds.
 */
module ScheduleRuns {
  import opened Words
  import opened Schedule

  /** What the source demands of a step: only others than the idle process sleep, and a new process is new. */
  ghost predicate Legal(s: Sys, v: Step, idle: id) {
    match v
    case Sleep(_) => s.running != idle
    case Create(p) => p != idle && Places(s, p) == 0
    case _ => true
  }

  function Run(s: Sys, vs: seq<Step>, idle: id): Sys
    decreases |vs|
  {
    if vs == [] then s else Run(Do(s, vs[0], idle), vs[1..], idle)
  }

  ghost predicate LegalRun(s: Sys, vs: seq<Step>, idle: id)
    decreases |vs|
  {
    vs == [] || (Legal(s, vs[0], idle) && LegalRun(Do(s, vs[0], idle), vs[1..], idle))
  }

  // ----- everyone stays in one place

  lemma NamesConcat(a: seq<Sleeper>, b: seq<Sleeper>)
    ensures Names(a + b) == Names(a) + Names(b)
  {
  }

  lemma NextCounts(q: seq<id>, idle: id, p: id)
    ensures var (r, q') := Next(q, idle);
      && (p != idle ==> multiset(q)[p] == multiset(q')[p] + (if r == p then 1 else 0))
      && (p == idle ==> multiset(q')[p] <= multiset(q)[p] && (multiset(q)[p] <= 1 && r == p ==> multiset(q')[p] == 0))
  {
    if q != [] {
      assert q == [q[0]] + q[1..];
      if |q| > 1 {
        assert q[1..] == [q[1]] + q[2..];
      }
    }
  }

  lemma InsertedCounts(z: seq<Sleeper>, p: id, left: nat, x: id)
    ensures multiset(Names(Inserted(z, p, left)))[x] == multiset(Names(z))[x] + (if x == p then 1 else 0)
  {
    hide Place;
    var i := Place(z, left);
    assert z == z[..i] + z[i..];
    NamesConcat(z[..i], z[i..]);
    NamesConcat(z[..i] + [Sleeper(p, left)], z[i..]);
    NamesConcat(z[..i], [Sleeper(p, left)]);
    assert Names([Sleeper(p, left)]) == [p];
  }

  lemma TickedCounts(s: Sys, x: id)
    ensures Places(Ticked(s), x) == Places(s, x)
  {
    var n := Woken(s.sleepers);
    var z := s.sleepers;
    assert z == z[..n] + z[n..];
    NamesConcat(z[..n], z[n..]);
    assert Names(Less(z[n..], Elapsed(z))) == Names(z[n..]);
  }

  /** A switch moves the first ready process to the processor; the one that ran must be elsewhere. */
  lemma SwitchedCounts(s: Sys, idle: id, x: id)
    ensures x != idle ==> Places(Switched(s, idle), x) == multiset(s.ready)[x] + Asleep(s, x)
    ensures x == idle && multiset(s.ready)[x] <= 1 ==> Places(Switched(s, idle), x) <= 1 + Asleep(s, x)
  {
    NextCounts(s.ready, idle, x);
  }

  /** Each process other than the idle one stays in as many places as it was. */
  lemma PlacesKept(s: Sys, v: Step, idle: id, x: id)
    requires Legal(s, v, idle) && x != idle
    ensures Places(Do(s, v, idle), x) == Places(s, x) + (if v == Create(x) then 1 else 0)
  {
    match v
    case Yield => YieldedCounts(s, idle, x);
    case Timer =>
      YieldedCounts(s, idle, x);
      TickedCounts(Yielded(s, idle), x);
    case Sleep(ms) =>
      InsertedCounts(s.sleepers, s.running, Ticks(ms), x);
      SwitchedCounts(s.(sleepers := Inserted(s.sleepers, s.running, Ticks(ms))), idle, x);
    case Create(p) =>
  }

  lemma YieldedCounts(s: Sys, idle: id, x: id)
    requires x != idle
    ensures Places(Yielded(s, idle), x) == Places(s, x)
  {
    SwitchedCounts(s.(ready := Readied(s.ready, s.running, idle)), idle, x);
  }

  /** The idle process is never in two places, and never asleep. */
  lemma IdleKept(s: Sys, v: Step, idle: id)
    requires Legal(s, v, idle) && Places(s, idle) <= 1 && Asleep(s, idle) == 0
    ensures Places(Do(s, v, idle), idle) <= 1 && Asleep(Do(s, v, idle), idle) == 0
  {
    SwitchedCounts(s.(ready := Readied(s.ready, s.running, idle)), idle, idle);
    match v
    case Yield =>
    case Timer => TickedCounts(Yielded(s, idle), idle); TickedAsleep(Yielded(s, idle), idle);
    case Sleep(ms) =>
      InsertedCounts(s.sleepers, s.running, Ticks(ms), idle);
      SwitchedCounts(s.(sleepers := Inserted(s.sleepers, s.running, Ticks(ms))), idle, idle);
    case Create(p) =>
  }

  lemma TickedAsleep(s: Sys, x: id)
    ensures Asleep(Ticked(s), x) <= Asleep(s, x)
  {
    var n := Woken(s.sleepers);
    var z := s.sleepers;
    assert z == z[..n] + z[n..];
    NamesConcat(z[..n], z[n..]);
    assert Names(Less(z[n..], Elapsed(z))) == Names(z[n..]);
  }

  // ----- sleepers stay in order

  lemma InsertedOrdered(z: seq<Sleeper>, p: id, left: nat)
    requires Ordered(z)
    ensures Ordered(Inserted(z, p, left))
  {
  }

  lemma LessOrdered(z: seq<Sleeper>, n: nat)
    requires Ordered(z)
    ensures Ordered(Less(z, n))
  {
  }

  lemma StepOrdered(s: Sys, v: Step, idle: id)
    requires Ordered(s.sleepers)
    ensures Ordered(Do(s, v, idle).sleepers)
  {
    match v
    case Timer => LessOrdered(s.sleepers[Woken(s.sleepers)..], Elapsed(s.sleepers));
    case Sleep(ms) => InsertedOrdered(s.sleepers, s.running, Ticks(ms));
    case _ =>
  }

  lemma StepSane(s: Sys, v: Step, idle: id)
    requires Sane(s, idle) && Legal(s, v, idle)
    ensures Sane(Do(s, v, idle), idle)
  {
    hide Places, Asleep, Do, Ordered;
    StepOrdered(s, v, idle);
    IdleKept(s, v, idle);
    forall p: id
      ensures Places(Do(s, v, idle), p) <= 1
    {
      if p != idle {
        PlacesKept(s, v, idle, p);
      }
    }
  }

  /** How often a process was created in a run. */
  function Created(vs: seq<Step>, p: id): nat {
    if vs == [] then 0 else (if vs[0] == Create(p) then 1 else 0) + Created(vs[1..], p)
  }

  /** In every run each process is in exactly one place, if it exists: nothing is lost or duplicated. */
  lemma {:induction false} RunKeepsPlaces(s: Sys, vs: seq<Step>, idle: id, p: id)
    requires Sane(s, idle) && LegalRun(s, vs, idle)
    ensures Sane(Run(s, vs, idle), idle)
    ensures p != idle ==> Places(Run(s, vs, idle), p) == Places(s, p) + Created(vs, p)
    decreases |vs|
  {
    hide Sane, Places, Do, Legal;
    if vs != [] {
      StepSane(s, vs[0], idle);
      if p != idle {
        PlacesKept(s, vs[0], idle, p);
      }
      RunKeepsPlaces(Do(s, vs[0], idle), vs[1..], idle, p);
    }
  }

  /** After boot the root process, in slot 1, runs; the idle process, in slot 2, is ready. */
  function Boot(): Sys {
    Sys([2], [], 1)
  }

  lemma BootSane(p: id)
    ensures Sane(Boot(), 2) && Places(Boot(), p) == if p == 1 || p == 2 then 1 else 0
  {
    assert Names([]) == [];
    assert forall q: id :: multiset([2])[q] == if q == 2 then 1 else 0;
  }

  /** In every run since boot, a process that was created is in exactly one place, and no other is in any. */
  lemma RunFromBoot(vs: seq<Step>, p: id)
    requires LegalRun(Boot(), vs, 2) && p != 2
    ensures Sane(Run(Boot(), vs, 2), 2)
    ensures Places(Run(Boot(), vs, 2), p) == (if p == 1 then 1 else 0) + Created(vs, p) <= 1
  {
    hide Sane, Places;
    BootSane(p);
    RunKeepsPlaces(Boot(), vs, 2, p);
    AtMostOne(Run(Boot(), vs, 2), 2, p);
  }

  lemma AtMostOne(s: Sys, idle: id, p: id)
    requires Sane(s, idle)
    ensures Places(s, p) <= 1
  {
  }

  // ----- waiting for the processor

  /** Calls of next() in a run. */
  function Switches(vs: seq<Step>): nat {
    if vs == [] then 0 else (if vs[0].Create? then 0 else 1) + Switches(vs[1..])
  }

  /** A switch takes a ready process forward, or runs it. */
  lemma Forward(s: Sys, v: Step, idle: id, p: id, k: nat) returns (k': nat)
    requires k < |s.ready| && s.ready[k] == p != idle
    ensures var s' := Do(s, v, idle);
      if v.Create? then k' == k < |s'.ready| && s'.ready[k'] == p
      else s'.running == p || (k' < k && k' < |s'.ready| && s'.ready[k'] == p)
  {
    hide Woken, Tied, Less, Inserted, Place;
    if v.Create? {
      k' := k;
    } else {
      k' := if s.ready[0] == idle && |s.ready| > 1 then Minus(k, 2) else Minus(k, 1);
    }
  }

  /** A process with k others ahead of it runs within k + 1 calls of next(). */
  lemma {:induction false} RunsWithin(s: Sys, vs: seq<Step>, idle: id, p: id, k: nat) returns (i: nat)
    requires k < |s.ready| && s.ready[k] == p != idle && Switches(vs) >= k + 1
    ensures i <= |vs| && Run(s, vs[..i], idle).running == p && Switches(vs[..i]) <= k + 1
    decreases |vs|
  {
    hide Do;
    var k' := Forward(s, vs[0], idle, p, k);
    var s' := Do(s, vs[0], idle);
    if !vs[0].Create? && s'.running == p {
      i := 1;
      assert vs[..1][1..] == [];
    } else {
      var j := RunsWithin(s', vs[1..], idle, p, k');
      i := j + 1;
      assert vs[..i][1..] == vs[1..][..j] && vs[..i][0] == vs[0];
    }
  }

  // ----- waking up

  /** p has `left` ticks left. */
  ghost predicate Sleeps(s: Sys, p: id, left: nat) {
    Sleeper(p, left) in s.sleepers
  }

  lemma SleepsPlace(s: Sys, p: id, left: nat)
    requires Sleeps(s, p, left)
    ensures Asleep(s, p) >= 1
  {
    var i :| 0 <= i < |s.sleepers| && s.sleepers[i] == Sleeper(p, left);
    assert Names(s.sleepers)[i] == p;
  }

  /** Going to sleep starts with all the ticks left. */
  lemma SleepStarts(s: Sys, milliseconds: nat, idle: id)
    ensures Sleeps(Do(s, Sleep(milliseconds), idle), s.running, Ticks(milliseconds))
  {
    var i := Place(s.sleepers, Ticks(milliseconds));
    assert Inserted(s.sleepers, s.running, Ticks(milliseconds))[i] == Sleeper(s.running, Ticks(milliseconds));
  }

  /** Steps other than the timer's leave every sleeper's time alone. */
  lemma OthersSleepOn(s: Sys, v: Step, idle: id, p: id, left: nat)
    requires Sleeps(s, p, left) && !v.Timer?
    ensures Sleeps(Do(s, v, idle), p, left)
  {
    if v.Sleep? {
      var i := Place(s.sleepers, Ticks(v.milliseconds));
      assert s.sleepers == s.sleepers[..i] + s.sleepers[i..];
    }
  }

  /** A tick wakes a sleeper, or takes one or two ticks off; two only when it wakes another. */
  lemma TimerStep(s: Sys, idle: id, p: id, left: nat) returns (woken: bool)
    requires Ordered(s.sleepers) && Sleeps(s, p, left)
    ensures woken <==> left == s.sleepers[0].left <= 1
    ensures woken ==> p in Do(s, Timer, idle).ready
    ensures !woken ==> left >= Elapsed(s.sleepers) && Sleeps(Do(s, Timer, idle), p, left - Elapsed(s.sleepers))
  {
    hide Yielded;
    YieldedSleepers(s, idle);
    var z, n := s.sleepers, Woken(s.sleepers);
    var i :| 0 <= i < |z| && z[i] == Sleeper(p, left);
    woken := i < n;
    if woken {
      assert Names(z[..n])[i] == p;
    } else {
      assert Less(z[n..], Elapsed(z))[i - n] == Sleeper(p, Minus(left, Elapsed(z)));
      assert z[0].left <= left;
      if n > 0 {
        assert z[n].left != z[0].left;
      }
    }
  }

  /**
   One tick, in numbers: with a the least time left, those with that time wake when it is at
   most 1, and everyone else has one tick less, or two less when a was 1.
   */
  lemma TickExact(s: Sys, idle: id, p: id, left: nat)
    requires Sane(s, idle) && Sleeps(s, p, left) && p != idle
    ensures var s', a := Do(s, Timer, idle), s.sleepers[0].left;
      && a <= left
      && (Asleep(s', p) == 0 <==> left == a <= 1)
      && (left == a <= 1 ==> p in s'.ready)
      && (a == 1 && left > 1 ==> Sleeps(s', p, left - 2))
      && (a != 1 && !(left == a <= 1) ==> Sleeps(s', p, left - 1))
  {
    hide Do, Places, Asleep;
    FirstLeast(s, p, left);
    var woken := TimerStep(s, idle, p, left);
    if woken {
      WokenUp(s, idle, p, left);
    } else {
      SleepsPlace(Do(s, Timer, idle), p, left - Elapsed(s.sleepers));
    }
  }

  /** A process that goes to sleep wakes before those that sleep as long already, and after the shorter ones. */
  lemma NewcomerFirst(s: Sys, milliseconds: nat, idle: id) returns (i: nat)
    requires Ordered(s.sleepers)
    ensures var z, t := Do(s, Sleep(milliseconds), idle).sleepers, Ticks(milliseconds);
      && i < |z| && z[i] == Sleeper(s.running, t) && z[..i] + z[i + 1..] == s.sleepers
      && (forall j :: 0 <= j < i ==> z[j].left < t) && forall j :: i < j < |z| ==> t <= z[j].left
  {
    i := Place(s.sleepers, Ticks(milliseconds));
  }

  /** The idle process is given the processor only when no other process is ready. */
  lemma IdleAlone(s: Sys, v: Step, idle: id)
    requires Sane(s, idle) && !v.Create? && Do(s, v, idle).running == idle
    ensures forall p :: p in s.ready ==> p == idle
    ensures !v.Sleep? ==> s.running == idle
  {
    hide Asleep, Ordered, Woken, Tied, Less, Inserted;
    assert Places(s, idle) <= 1;
    var q := if v.Sleep? then s.ready else Readied(s.ready, s.running, idle);
    assert multiset(q)[idle] <= 1;
    if |q| > 1 && q[0] == idle == q[1] {
      TwiceIn(q, idle);
    }
  }

  lemma TwiceIn(q: seq<id>, p: id)
    requires |q| > 1 && q[0] == p == q[1]
    ensures multiset(q)[p] >= 2
  {
    assert q == [p, p] + q[2..];
  }

  lemma YieldedSleepers(s: Sys, idle: id)
    ensures Yielded(s, idle).sleepers == s.sleepers
  {
  }

  /** p sleeps in every state of the run. */
  ghost predicate StaysAsleep(s: Sys, vs: seq<Step>, idle: id, p: id)
    decreases |vs|
  {
    Asleep(s, p) >= 1 && (vs == [] || StaysAsleep(Do(s, vs[0], idle), vs[1..], idle, p))
  }

  function Timers(vs: seq<Step>): nat {
    if vs == [] then 0 else (if vs[0].Timer? then 1 else 0) + Timers(vs[1..])
  }

  /** Ticks of a run that woke someone. */
  function WakingTimers(s: Sys, vs: seq<Step>, idle: id): nat
    decreases |vs|
  {
    if vs == [] then 0
    else (if vs[0].Timer? && Woken(s.sleepers) > 0 then 1 else 0) + WakingTimers(Do(s, vs[0], idle), vs[1..], idle)
  }

  /** A woken process does not also sleep. */
  lemma WokenUp(s: Sys, idle: id, p: id, left: nat)
    requires Sane(s, idle) && Sleeps(s, p, left) && left == s.sleepers[0].left <= 1 && p != idle
    ensures Asleep(Do(s, Timer, idle), p) == 0
  {
    hide Do, Ordered;
    var woken := TimerStep(s, idle, p, left);
    SleepsPlace(s, p, left);
    PlacesKept(s, Timer, idle, p);
  }

  /** While p sleeps, each tick takes one off its time, and at most one more when it wakes another. */
  lemma {:induction false} LeftAfter(s: Sys, vs: seq<Step>, idle: id, p: id, ticks: nat) returns (left: nat)
    requires Sane(s, idle) && LegalRun(s, vs, idle) && Sleeps(s, p, ticks) && p != idle && StaysAsleep(s, vs, idle, p)
    ensures Sleeps(Run(s, vs, idle), p, left)
    ensures ticks - Timers(vs) - WakingTimers(s, vs, idle) <= left <= ticks - Timers(vs)
    decreases |vs|
  {
    hide Sane, Legal, Do, Sleeps, Asleep;
    if vs == [] {
      left := ticks;
    } else {
      StepSane(s, vs[0], idle);
      var ticks' := ticks;
      if vs[0].Timer? {
        ticks' := TimerLeft(s, idle, p, ticks);
      } else {
        OthersSleepOn(s, vs[0], idle, p, ticks);
      }
      left := LeftAfter(Do(s, vs[0], idle), vs[1..], idle, p, ticks');
    }
  }

  lemma TimerLeft(s: Sys, idle: id, p: id, ticks: nat) returns (left: nat)
    requires Sane(s, idle) && Sleeps(s, p, ticks) && p != idle && Asleep(Do(s, Timer, idle), p) >= 1
    ensures left == ticks - Elapsed(s.sleepers) && Sleeps(Do(s, Timer, idle), p, left)
  {
    hide Do, Places, Asleep;
    var woken := TimerStep(s, idle, p, ticks);
    if woken {
      WokenUp(s, idle, p, ticks);
      assert false;
    }
    left := ticks - Elapsed(s.sleepers);
  }

  /**
   A sleeper put to sleep for some ticks is readied by the k-th later tick, where k is at
   most one more than the ticks, and less by at most one for each earlier tick that woke another.
   */
  lemma WakeTime(s: Sys, vs: seq<Step>, idle: id, p: id, ticks: nat)
    requires Sane(s, idle) && LegalRun(s, vs, idle) && Sleeps(s, p, ticks) && p != idle && StaysAsleep(s, vs, idle, p)
    ensures Timers(vs) <= ticks
    ensures var after, k := Do(Run(s, vs, idle), Timer, idle), Timers(vs) + 1;
      Asleep(after, p) == 0 ==> ticks - WakingTimers(s, vs, idle) <= k <= ticks + 1 && p in after.ready
    ensures Timers(vs) == ticks ==> Asleep(Do(Run(s, vs, idle), Timer, idle), p) == 0
  {
    hide Do, Sane, Asleep, StaysAsleep, Legal, LegalRun, Sleeps;
    var left := LeftAfter(s, vs, idle, p, ticks);
    RunSane(s, vs, idle);
    var t := Run(s, vs, idle);
    LastTick(t, idle, p, left);
  }

  lemma RunSane(s: Sys, vs: seq<Step>, idle: id)
    requires Sane(s, idle) && LegalRun(s, vs, idle)
    ensures Sane(Run(s, vs, idle), idle)
  {
    hide Sane;
    RunKeepsPlaces(s, vs, idle, idle);
  }

  lemma LastTick(t: Sys, idle: id, p: id, left: nat)
    requires Sane(t, idle) && Sleeps(t, p, left) && p != idle
    ensures Asleep(Do(t, Timer, idle), p) == 0 ==> left <= 1 && p in Do(t, Timer, idle).ready
    ensures left == 0 ==> Asleep(Do(t, Timer, idle), p) == 0
  {
    hide Do, Asleep, Places;
    var woken := TimerStep(t, idle, p, left);
    if woken {
      WokenUp(t, idle, p, left);
    } else {
      SleepsPlace(Do(t, Timer, idle), p, left - Elapsed(t.sleepers));
    }
  }

  /** Who has less time left does not wake later, and who has as much wakes at the same tick. */
  lemma WakeOrder(s: Sys, idle: id, p: id, a: nat, q: id, b: nat)
    requires Sane(s, idle) && Sleeps(s, p, a) && Sleeps(s, q, b) && a <= b && p != idle && q != idle
    ensures var s' := Do(s, Timer, idle);
      && (Asleep(s', q) == 0 ==> a == b && Asleep(s', p) == 0)
      && (a == b && Asleep(s', p) == 0 ==> Asleep(s', q) == 0)
      && (Asleep(s', p) != 0 ==>
            var e := Elapsed(s.sleepers);
            e <= a && Sleeps(s', p, a - e) && Sleeps(s', q, b - e))
  {
    hide Do, Asleep, Places, Elapsed;
    var w := TimerStep(s, idle, p, a);
    var w' := TimerStep(s, idle, q, b);
    LastTick(s, idle, p, a);
    LastTick(s, idle, q, b);
    if w {
      WokenUp(s, idle, p, a);
    } else {
      SleepsPlace(Do(s, Timer, idle), p, a - Elapsed(s.sleepers));
    }
    if w' {
      WokenUp(s, idle, q, b);
      FirstLeast(s, p, a);
    } else {
      SleepsPlace(Do(s, Timer, idle), q, b - Elapsed(s.sleepers));
    }
  }

  lemma FirstLeast(s: Sys, p: id, a: nat)
    requires Ordered(s.sleepers) && Sleeps(s, p, a)
    ensures s.sleepers[0].left <= a
  {
    var i :| 0 <= i < |s.sleepers| && s.sleepers[i] == Sleeper(p, a);
  }

  // ----- milliseconds

  /** Ten milliseconds are a tick, exactly when the product does not overflow. */
  lemma TicksExact(milliseconds: nat)
    requires milliseconds < WORD
    ensures Ticks(milliseconds) == milliseconds / 10 <==> 100 * milliseconds < WORD
  {
    if 100 * milliseconds >= WORD {
      assert Ticks(milliseconds) <= 4294967;
      if milliseconds < 42949680 {
        assert 100 * milliseconds % WORD == 100 * milliseconds - WORD;
      }
    }
  }

  /** Almost twelve hours make no tick at all. */
  lemma TicksLost()
    ensures Ticks(42949673) == 0 && 42949673 / 10 == 4294967
  {
  }

  // ----- no sum of sleeping times overflows

  const LONGEST: nat := 4294967

  /** Nobody has more ticks left than a sleep can ask for. */
  ghost predicate Short(z: seq<Sleeper>) {
    forall i :: 0 <= i < |z| ==> z[i].left <= LONGEST
  }

  lemma {:induction false} RunShort(s: Sys, vs: seq<Step>, idle: id)
    requires Short(s.sleepers)
    ensures Short(Run(s, vs, idle).sleepers)
    decreases |vs|
  {
    if vs != [] {
      StepShort(s, vs[0], idle);
      RunShort(Do(s, vs[0], idle), vs[1..], idle);
    }
  }

  lemma StepShort(s: Sys, v: Step, idle: id)
    requires Short(s.sleepers)
    ensures Short(Do(s, v, idle).sleepers)
  {
    match v
    case Timer => YieldedSleepers(s, idle);
    case Sleep(ms) => assert Ticks(ms) <= LONGEST;
    case _ =>
  }
}
