/**
 The kernel's process queues, as lists through the process table: what the links, states
 and relative sleeping times say, and how the steps of c/disp.c and c/sleep.c keep that.
 */
module Queues {
  import opened Words
  import opened Schedule

  const MAX_PROC: nat := 64

  datatype State = Stopped | Ready | Running | Dead | Sleeping

  class Pcb {
    /** Place in the process table. */
    const slot: nat
    var next: Pcb?
    var state: State
    var pid: nat
    var sleepticks: nat

    constructor (slot: nat)
      ensures this.slot == slot && next == null && state == Stopped && pid == 0
    {
      this.slot := slot;
      next, state, pid, sleepticks := null, Stopped, 0, 0;
    }
  }

  /** The fields of a pcb at one time. */
  datatype Cell = Cell(next: Pcb?, state: State, pid: nat, ticks: nat)

  type cells = map<Pcb, Cell>

  /** The kernel's variables at one time, and the queues they stand for. */
  datatype View = View(tab: seq<Pcb>, idle: Pcb, h: cells, head: Pcb?, tail: Pcb?, running: Pcb, headsleeper: Pcb?,
                       readyQ: seq<Pcb>, sleepQ: seq<Pcb>, lefts: seq<nat>)

  // ----- what holds

  /** q is a list that starts at `first` and ends with a null link. */
  ghost predicate Chain(h: cells, q: seq<Pcb>, first: Pcb?) {
    && (forall i :: 0 <= i < |q| ==> q[i] in h)
    && (forall i :: 0 <= i < |q| - 1 ==> h[q[i]].next == q[i + 1])
    && (q != [] ==> h[q[|q| - 1]].next == null)
    && (forall i, j :: 0 <= i < j < |q| ==> q[i] != q[j])
    && (q == [] ==> first == null) && (q != [] ==> first == q[0])
  }

  /** All members of a queue are in the state that goes with it. */
  ghost predicate InState(h: cells, q: seq<Pcb>, state: State) {
    forall p :: p in q ==> p in h && h[p].state == state
  }

  /** Only the first sleeper's ticks are absolute; the others count from the one before. */
  ghost predicate Relative(h: cells, q: seq<Pcb>, lefts: seq<nat>) {
    && |q| == |lefts|
    && (forall i :: 0 <= i < |q| ==> q[i] in h)
    && (q != [] ==> h[q[0]].ticks == lefts[0])
    && (forall i :: 1 <= i < |q| ==> lefts[i - 1] + h[q[i]].ticks == lefts[i])
  }

  ghost predicate Table(v: View) {
    && |v.tab| == MAX_PROC && (forall i :: 0 <= i < MAX_PROC ==> v.tab[i].slot == i)
    && (forall p :: p in v.h ==> p in v.tab) && (forall p :: p in v.tab ==> p in v.h)
    && v.idle in v.h && v.running in v.h && v.h[v.idle].state != Stopped
    && (forall p :: p in v.h && v.h[p].state != Stopped ==> p.slot > 0 && v.h[p].pid % MAX_PROC == p.slot)
  }

  ghost predicate ReadyList(v: View) {
    && Chain(v.h, v.readyQ, v.head) && InState(v.h, v.readyQ, Ready)
    && v.tail == if v.readyQ == [] then null else v.readyQ[|v.readyQ| - 1]
  }

  ghost predicate SleepList(v: View) {
    && Chain(v.h, v.sleepQ, v.headsleeper) && InState(v.h, v.sleepQ, Sleeping)
    && Relative(v.h, v.sleepQ, v.lefts) && v.idle !in v.sleepQ
  }

  /** Where a process is, its state says. */
  ghost predicate Settled(v: View, p: Pcb)
    requires p in v.h
  {
    && (v.h[p].state == Ready && p != v.idle ==> p in v.readyQ)
    && (v.h[p].state == Sleeping ==> p in v.sleepQ)
    && (v.h[p].state == Running ==> p == v.running)
    && (p !in v.readyQ && p !in v.sleepQ ==> v.h[p].next == null)
    && v.h[p].state != Dead
  }

  /** x is in no queue, whatever its state says. */
  ghost predicate Loose(v: View, x: Pcb) {
    x in v.h && v.h[x].state != Stopped && v.h[x].next == null && x !in v.readyQ && x !in v.sleepQ
  }

  ghost predicate SettledBut(v: View, x: Pcb?) {
    (forall p :: p in v.h && p != x ==> Settled(v, p)) && (x != null ==> Loose(v, x))
  }

  /** All is well, but for x. */
  ghost predicate Fine(v: View, x: Pcb?) {
    Table(v) && ReadyList(v) && SleepList(v) && SettledBut(v, x)
  }

  /** Between two steps of the dispatcher. */
  ghost predicate Good(v: View) {
    Fine(v, null) && v.running in v.h && v.h[v.running].state == Running
  }

  // ----- the processes in the queues, as the abstract scheduler has them

  ghost function Slots(q: seq<Pcb>): (r: seq<id>)
    ensures |r| == |q|
  {
    seq(|q|, i requires 0 <= i < |q| => q[i].slot)
  }

  ghost function Sleepers(q: seq<Pcb>, lefts: seq<nat>): (r: seq<Sleeper>)
    requires |q| == |lefts|
    ensures |r| == |q|
  {
    seq(|q|, i requires 0 <= i < |q| => Sleeper(q[i].slot, lefts[i]))
  }

  ghost function Abs(v: View): Sys
    requires |v.sleepQ| == |v.lefts|
  {
    Sys(Slots(v.readyQ), Sleepers(v.sleepQ, v.lefts), v.running.slot)
  }

  lemma SameSlot(v: View, p: Pcb, q: Pcb)
    requires Table(v) && p in v.h && q in v.h
    ensures p == q <==> p.slot == q.slot
  {
    var i :| 0 <= i < MAX_PROC && v.tab[i] == p;
    var j :| 0 <= j < MAX_PROC && v.tab[j] == q;
  }

  // ----- ready

  ghost function PutReady(v: View, p: Pcb): View
    requires p in v.h
  {
    var h := v.h[p := v.h[p].(next := null, state := Ready)];
    if p == v.idle then v.(h := h)
    else if v.tail != null && v.tail in v.h then
      v.(h := h[v.tail := h[v.tail].(next := p)], tail := p, readyQ := v.readyQ + [p])
    else v.(h := h, head := p, tail := p, readyQ := v.readyQ + [p])
  }

  lemma TailKnown(v: View)
    requires ReadyList(v)
    ensures v.tail != null ==> v.tail in v.h && v.tail in v.readyQ
  {
  }

  /** A list depends on its own cells only. */
  lemma ChainFrame(h: cells, h': cells, q: seq<Pcb>, first: Pcb?)
    requires Chain(h, q, first) && forall p :: p in q ==> p in h' && (p in h ==> h'[p].next == h[p].next)
    ensures Chain(h', q, first)
  {
    assert forall i :: 0 <= i < |q| ==> q[i] in q;
  }

  lemma RelativeFrame(h: cells, h': cells, q: seq<Pcb>, lefts: seq<nat>)
    requires Relative(h, q, lefts) && forall p :: p in q ==> p in h' && (p in h ==> h'[p].ticks == h[p].ticks)
    ensures Relative(h', q, lefts)
  {
    assert forall i :: 0 <= i < |q| ==> q[i] in q;
  }

  /** One more at the end of a list. */
  lemma ChainSnoc(h: cells, h': cells, q: seq<Pcb>, first: Pcb?, p: Pcb)
    requires Chain(h, q, first) && p !in q && p in h' && h'[p].next == null
    requires forall i :: 0 <= i < |q| - 1 ==> q[i] in h' && h'[q[i]].next == h[q[i]].next
    requires q != [] ==> q[|q| - 1] in h' && h'[q[|q| - 1]].next == p
    ensures Chain(h', q + [p], if q == [] then p else first)
  {
    assert forall i :: 0 <= i < |q| ==> q[i] in q;
  }

  lemma PutReadyList(v: View, p: Pcb)
    requires Fine(v, p)
    ensures ReadyList(PutReady(v, p))
  {
    hide Table, SleepList, Settled, Chain;
    TailKnown(v);
    var v' := PutReady(v, p);
    assert forall i :: 0 <= i < |v.readyQ| ==> v.readyQ[i] in v.readyQ;
    if p == v.idle {
      ChainFrame(v.h, v'.h, v.readyQ, v.head);
    } else {
      ChainBefore(v.h, v.readyQ, v.head);
      ChainSnoc(v.h, v'.h, v.readyQ, v.head, p);
    }
  }

  lemma ChainBefore(h: cells, q: seq<Pcb>, first: Pcb?)
    requires Chain(h, q, first)
    ensures forall i :: 0 <= i < |q| - 1 ==> q[i] in h && q[i] != q[|q| - 1]
    ensures q == [] <==> first == null
  {
  }

  lemma PutReadySleep(v: View, p: Pcb)
    requires Fine(v, p)
    ensures SleepList(PutReady(v, p))
  {
    hide Table, Settled, Chain, Relative;
    TailKnown(v);
    ApartLists(v);
    var v' := PutReady(v, p);
    ChainFrame(v.h, v'.h, v.sleepQ, v.headsleeper);
    RelativeFrame(v.h, v'.h, v.sleepQ, v.lefts);
  }

  /** No process is both ready and asleep. */
  lemma ApartLists(v: View)
    requires ReadyList(v) && SleepList(v)
    ensures forall p :: p in v.readyQ ==> p !in v.sleepQ
  {
    hide Chain, Relative;
  }

  lemma PutReadySettled(v: View, p: Pcb)
    requires Fine(v, p)
    ensures SettledBut(PutReady(v, p), null)
  {
    hide Table, Chain, Relative, InState, SleepList;
    TailKnown(v);
    var v' := PutReady(v, p);
    forall q | q in v'.h
      ensures Settled(v', q)
    {
      if q != p {
        assert Settled(v, q);
      }
    }
  }

  lemma PutReadyFine(v: View, p: Pcb)
    requires Fine(v, p)
    ensures Fine(PutReady(v, p), null)
  {
    hide ReadyList, SleepList, Settled, SettledBut;
    PutReadyList(v, p);
    PutReadySleep(v, p);
    PutReadySettled(v, p);
    PutReadyTable(v, p);
  }

  lemma PutReadyTable(v: View, p: Pcb)
    requires Fine(v, p)
    ensures Table(PutReady(v, p))
  {
    hide SleepList, Settled, Chain, InState;
    TailKnown(v);
    TableFrame(v, PutReady(v, p));
  }

  /** The process table depends on the processes' numbers, and on which are stopped. */
  lemma TableFrame(v: View, v': View)
    requires Table(v) && v'.tab == v.tab && v'.idle == v.idle && v'.h.Keys == v.h.Keys && v'.running in v.h
    requires forall p :: p in v.h ==>
      v'.h[p].pid == v.h[p].pid && (v'.h[p].state == Stopped <==> v.h[p].state == Stopped)
    ensures Table(v')
  {
  }

  lemma PutReadyAbs(v: View, p: Pcb)
    requires Fine(v, p)
    ensures |v.sleepQ| == |v.lefts|
    ensures Abs(PutReady(v, p)) == Abs(v).(ready := Readied(Slots(v.readyQ), p.slot, v.idle.slot))
  {
    hide Chain, InState, Settled;
    TailKnown(v);
    SameSlot(v, p, v.idle);
  }

  // ----- next

  ghost function PopReady(v: View): View
    requires v.head != null && v.head in v.h && v.readyQ != []
  {
    v.(h := v.h[v.head := v.h[v.head].(next := null)], head := v.h[v.head].next,
       tail := if v.h[v.head].next == null then null else v.tail, readyQ := v.readyQ[1..])
  }

  lemma HeadKnown(v: View)
    requires ReadyList(v)
    ensures v.readyQ == [] <==> v.head == null
    ensures v.readyQ != [] ==> v.head == v.readyQ[0] && v.head in v.h && v.h[v.head].state == Ready
    ensures v.readyQ != [] ==> v.h[v.head].next == if |v.readyQ| > 1 then v.readyQ[1] else null
  {
  }

  /** The first of a list is taken off. */
  lemma ChainTail(h: cells, h': cells, q: seq<Pcb>, first: Pcb?)
    requires Chain(h, q, first) && q != [] && h' == h[q[0] := h[q[0]].(next := null)]
    ensures Chain(h', q[1..], h[q[0]].next) && q[0] !in q[1..]
  {
    var t := q[1..];
    assert forall i :: 0 <= i < |t| ==> t[i] == q[i + 1];
  }

  lemma PopReadyLists(v: View)
    requires Fine(v, null) && v.readyQ != []
    ensures v.head != null && v.head in v.h && ReadyList(PopReady(v)) && SleepList(PopReady(v))
  {
    hide Table, Settled, Chain, Relative;
    HeadKnown(v);
    ApartLists(v);
    var v' := PopReady(v);
    ChainTail(v.h, v'.h, v.readyQ, v.head);
    ChainFrame(v.h, v'.h, v.sleepQ, v.headsleeper);
    RelativeFrame(v.h, v'.h, v.sleepQ, v.lefts);
  }

  lemma PopReadyFine(v: View)
    requires Fine(v, null) && v.readyQ != []
    ensures v.head == v.readyQ[0] && v.head in v.h && Fine(PopReady(v), v.head) && PopReady(v).h[v.head].state == Ready
    ensures v.head == v.idle ==> Fine(PopReady(v), null)
  {
    hide Chain, Relative, InState;
    HeadKnown(v);
    ApartLists(v);
    PopReadyLists(v);
    var v' := PopReady(v);
    TableFrame(v, v');
    ChainTail(v.h, v'.h, v.readyQ, v.head);
    PopReadySettled(v, v');
  }

  lemma PopReadySettled(v: View, v': View)
    requires SettledBut(v, null) && ReadyList(v) && v.readyQ != [] && v.head == v.readyQ[0] && v.head in v.h
    requires v' == PopReady(v)
    ensures forall p :: p in v'.h && p != v.head ==> Settled(v', p)
  {
    hide ReadyList;
    forall p | p in v'.h && p != v.head
      ensures Settled(v', p)
    {
      assert Settled(v, p);
      assert p in v.readyQ ==> p in v.readyQ[1..];
    }
  }

  ghost function NextProc(v: View): Pcb {
    if v.readyQ == [] then v.idle
    else if v.readyQ[0] == v.idle && |v.readyQ| > 1 then v.readyQ[1]
    else v.readyQ[0]
  }

  ghost function Taken(v: View): View
    requires Fine(v, null)
  {
    if v.readyQ == [] then v
    else
      PopReadyFine(v);
      if v.readyQ[0] == v.idle && |v.readyQ| > 1 then PopReadyFine(PopReady(v)); PopReady(PopReady(v)) else PopReady(v)
  }

  lemma TakenFine(v: View)
    requires Fine(v, null)
    ensures NextProc(v) in v.h && Fine(Taken(v), NextProc(v))
  {
    hide Fine, PopReady;
    IdleKnown(v);
    if v.readyQ == [] {
      IdleLoose(v);
    } else {
      PopReadyFine(v);
      PopReadyKnown(v);
      if v.readyQ[0] == v.idle && |v.readyQ| > 1 {
        PopReadyFine(PopReady(v));
        PopReadyKnown(PopReady(v));
      }
    }
  }

  lemma IdleKnown(v: View)
    requires Fine(v, null)
    ensures v.idle in v.h && v.running in v.h && |v.sleepQ| == |v.lefts|
  {
  }

  lemma PopReadyKnown(v: View)
    requires v.head != null && v.head in v.h && v.readyQ != []
    ensures PopReady(v).readyQ == v.readyQ[1..] && PopReady(v).h.Keys == v.h.Keys && PopReady(v).idle == v.idle
    ensures PopReady(v).running == v.running && PopReady(v).sleepQ == v.sleepQ && PopReady(v).lefts == v.lefts
    ensures forall p :: p in v.h ==> PopReady(v).h[p].state == v.h[p].state
  {
  }

  lemma IdleLoose(v: View)
    requires Fine(v, null) && v.idle !in v.readyQ
    ensures Fine(v, v.idle)
  {
    hide Chain, Relative, InState;
    assert Settled(v, v.idle);
  }

  /** p gets the processor. */
  ghost function Dispatched(v: View, p: Pcb): View
    requires p in v.h
  {
    v.(h := v.h[p := v.h[p].(state := Running)], running := p)
  }

  lemma RunningGood(v: View, p: Pcb)
    requires Fine(v, p) && v.running in v.h && v.h[v.running].state != Running
    ensures Good(Dispatched(v, p))
  {
    hide Table, Chain, Relative;
    var v' := Dispatched(v, p);
    TableFrame(v, v');
    ChainFrame(v.h, v'.h, v.sleepQ, v.headsleeper);
    ChainFrame(v.h, v'.h, v.readyQ, v.head);
    RelativeFrame(v.h, v'.h, v.sleepQ, v.lefts);
    RunningSettled(v, p);
  }

  lemma RunningSettled(v: View, p: Pcb)
    requires SettledBut(v, p) && p in v.h && v.running in v.h && v.h[v.running].state != Running
    ensures SettledBut(Dispatched(v, p), null)
  {
    var v' := Dispatched(v, p);
    forall q | q in v'.h
      ensures Settled(v', q)
    {
      if q != p {
        assert Settled(v, q);
      }
    }
  }

  lemma SwitchAbs(v: View)
    requires Fine(v, null)
    ensures NextProc(v) in v.h && |v.sleepQ| == |v.lefts|
    ensures Abs(Dispatched(Taken(v), NextProc(v))) == Switched(Abs(v), v.idle.slot)
  {
    hide Fine, PopReady;
    TakenFine(v);
    IdleKnown(v);
    if v.readyQ != [] {
      PopReadyFine(v);
      PopReadyKnown(v);
      IdleFirst(v);
      if v.readyQ[0] == v.idle && |v.readyQ| > 1 {
        PopReadyFine(PopReady(v));
        PopReadyKnown(PopReady(v));
      }
    }
  }

  lemma IdleFirst(v: View)
    requires Fine(v, null) && v.readyQ != []
    ensures v.readyQ[0] == v.idle <==> v.readyQ[0].slot == v.idle.slot
  {
    hide SleepList, SettledBut;
    SameSlot(v, v.readyQ[0], v.idle);
  }

  // ----- one place for each process

  lemma {:induction false} SlotCount(v: View, q: seq<Pcb>, p: Pcb)
    requires Table(v) && p in v.h && (forall i :: 0 <= i < |q| ==> q[i] in v.h)
    requires forall i, j :: 0 <= i < j < |q| ==> q[i] != q[j]
    ensures multiset(Slots(q))[p.slot] == if p in q then 1 else 0
  {
    hide Table;
    if q != [] {
      var t, x := q[..|q| - 1], q[|q| - 1];
      SlotCount(v, t, p);
      SameSlot(v, x, p);
      assert Slots(q) == Slots(t) + [x.slot];
      assert q == t + [x];
    }
  }

  /** A process's state says in which one place it is; the idle process may be ready and in no queue. */
  lemma OnePlace(v: View, p: Pcb)
    requires Good(v) && p in v.h && p != v.idle
    ensures |v.sleepQ| == |v.lefts|
    ensures multiset(Slots(v.readyQ))[p.slot] == if v.h[p].state == Ready then 1 else 0
    ensures Asleep(Abs(v), p.slot) == if v.h[p].state == Sleeping then 1 else 0
    ensures p.slot == v.running.slot <==> v.h[p].state == Running
    ensures Places(Abs(v), p.slot) == if v.h[p].state == Stopped then 0 else 1
  {
    hide Table, Relative;
    IdleKnown(v);
    SlotCount(v, v.readyQ, p);
    SlotCount(v, v.sleepQ, p);
    assert Names(Sleepers(v.sleepQ, v.lefts)) == Slots(v.sleepQ);
    SameSlotRunning(v, p);
    assert Settled(v, p);
  }

  lemma SameSlotRunning(v: View, p: Pcb)
    requires Good(v) && p in v.h
    ensures p == v.running <==> p.slot == v.running.slot
  {
    hide ReadyList, SleepList, Settled;
    SameSlot(v, p, v.running);
  }
}
