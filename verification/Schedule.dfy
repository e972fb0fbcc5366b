/**
 Scheduling as functions: the ready queue, the sleepers with the number of ticks each
 has left, and the running process. `idle` runs when nothing else can.
 */
module Schedule {
  import opened Words

  /** A process, by its slot in the process table. */
  type id = nat

  /** A sleeper, and how many ticks it has left in all. */
  datatype Sleeper = Sleeper(p: id, left: nat)

  datatype Sys = Sys(ready: seq<id>, sleepers: seq<Sleeper>, running: id)

  /** TIMEDIVISOR * milliseconds / 1000, in 32-bit arithmetic. */
  function Ticks(milliseconds: nat): nat {
    100 * milliseconds % WORD / 1000
  }

  // ----- steps

  /** p at the end of the ready queue, unless it is the idle process. */
  function Readied(q: seq<id>, p: id, idle: id): seq<id> {
    if p == idle then q else q + [p]
  }

  /** The next process to run, and the queue without it. */
  function Next(q: seq<id>, idle: id): (r: (id, seq<id>)) {
    if q == [] then (idle, q)
    else if q[0] == idle && |q| > 1 then (q[1], q[2..])
    else (q[0], q[1..])
  }

  function Switched(s: Sys, idle: id): Sys {
    var (p, q) := Next(s.ready, idle);
    s.(ready := q, running := p)
  }

  /** How many sleepers go before one with `left` ticks. */
  function Place(z: seq<Sleeper>, left: nat): (i: nat)
    ensures i <= |z| && (forall j :: 0 <= j < i ==> z[j].left < left) && (i < |z| ==> left <= z[i].left)
  {
    if z == [] || left <= z[0].left then 0 else 1 + Place(z[1..], left)
  }

  function Inserted(z: seq<Sleeper>, p: id, left: nat): seq<Sleeper> {
    z[..Place(z, left)] + [Sleeper(p, left)] + z[Place(z, left)..]
  }

  /** How many sleepers at the front have exactly `left` ticks left. */
  function Tied(z: seq<Sleeper>, left: nat): (n: nat)
    ensures n <= |z| && (forall i :: 0 <= i < n ==> z[i].left == left) && (n < |z| ==> z[n].left != left)
  {
    if z == [] || z[0].left != left then 0 else 1 + Tied(z[1..], left)
  }

  /** The number of sleepers that a tick wakes. */
  function Woken(z: seq<Sleeper>): (n: nat)
    ensures n <= |z| && (forall i :: 0 <= i < n ==> z[i].left == z[0].left <= 1)
  {
    if z == [] || z[0].left > 1 then 0 else Tied(z, z[0].left)
  }

  /** The ticks that a tick takes off: one more when the first sleeper had one left. */
  function Elapsed(z: seq<Sleeper>): (n: nat)
    ensures 1 <= n <= 2 && (Woken(z) == 0 ==> n == 1)
  {
    if z != [] && z[0].left == 1 then 2 else 1
  }

  function Names(z: seq<Sleeper>): (r: seq<id>)
    ensures |r| == |z|
  {
    seq(|z|, i requires 0 <= i < |z| => z[i].p)
  }

  function Minus(a: nat, b: nat): nat {
    if a < b then 0 else a - b
  }

  /** Every sleeper with n ticks less. */
  function Less(z: seq<Sleeper>, n: nat): (r: seq<Sleeper>)
    ensures |r| == |z|
  {
    seq(|z|, i requires 0 <= i < |z| => Sleeper(z[i].p, Minus(z[i].left, n)))
  }

  /** tick: those whose time is up become ready, in order. */
  function Ticked(s: Sys): Sys {
    var n := Woken(s.sleepers);
    s.(ready := s.ready + Names(s.sleepers[..n]), sleepers := Less(s.sleepers[n..], Elapsed(s.sleepers)))
  }

  // ----- the dispatcher

  datatype Step = Yield | Timer | Sleep(milliseconds: nat) | Create(p: id)

  function Yielded(s: Sys, idle: id): Sys {
    Switched(s.(ready := Readied(s.ready, s.running, idle)), idle)
  }

  function Slept(s: Sys, milliseconds: nat, idle: id): Sys {
    Switched(s.(sleepers := Inserted(s.sleepers, s.running, Ticks(milliseconds))), idle)
  }

  function Do(s: Sys, v: Step, idle: id): Sys {
    match v
    case Yield => Yielded(s, idle)
    case Timer => Ticked(Yielded(s, idle))
    case Sleep(ms) => Slept(s, ms, idle)
    case Create(p) => s.(ready := Readied(s.ready, p, idle))
  }

  /** Sleepers in the order of their times. */
  ghost predicate Ordered(z: seq<Sleeper>) {
    forall i, j :: 0 <= i <= j < |z| ==> z[i].left <= z[j].left
  }

  /** The sleepers are in order, everyone is in at most one place, and the idle process does not sleep. */
  ghost predicate Sane(s: Sys, idle: id) {
    Ordered(s.sleepers) && Asleep(s, idle) == 0 && forall p: id :: Places(s, p) <= 1
  }

  ghost function Asleep(s: Sys, p: id): nat {
    multiset(Names(s.sleepers))[p]
  }

  /** In how many places a process is. */
  ghost function Places(s: Sys, p: id): nat {
    multiset(s.ready)[p] + Asleep(s, p) + (if s.running == p then 1 else 0)
  }
}
