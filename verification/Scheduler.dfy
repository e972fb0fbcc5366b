/**
 The dispatcher's ready queue and the sleep queue on the heap (c/disp.c:273-286, 397-416,
 650-722, c/sleep.c:42-102, c/create.c:34-130), proved to do what Schedule says.
 */
module Scheduler {
  import opened Words
  import opened Schedule
  import opened Queues
  import opened SleepQueue
  import ScheduleRuns

  const INT_MAX: nat := 0x7fff_ffff

  /** All pcbs as they are now. */
  ghost function Cells(tab: seq<Pcb>): cells
    reads tab
  {
    map p | p in tab :: Cell(p.next, p.state, p.pid, p.sleepticks)
  }

  lemma CellOf(tab: seq<Pcb>, p: Pcb)
    requires p in Cells(tab) || p in tab
    ensures p in tab && p in Cells(tab) && Cells(tab)[p] == Cell(p.next, p.state, p.pid, p.sleepticks)
  {
  }

  /** `p->next = n`, among the pcbs of tab. */
  method Link(p: Pcb, n: Pcb?, ghost tab: seq<Pcb>)
    requires p in tab
    modifies p`next
    ensures Cells(tab) == old(Cells(tab))[p := old(Cells(tab))[p].(next := n)]
  {
    p.next := n;
  }

  /** `p->state = s`. */
  method Mark(p: Pcb, s: State, ghost tab: seq<Pcb>)
    requires p in tab
    modifies p`state
    ensures Cells(tab) == old(Cells(tab))[p := old(Cells(tab))[p].(state := s)]
  {
    p.state := s;
  }

  /** `p->next = NULL` and `p->state = STATE_READY`. */
  method Unlink(p: Pcb, ghost tab: seq<Pcb>)
    requires p in tab
    modifies p`next, p`state
    ensures Cells(tab) == old(Cells(tab))[p := old(Cells(tab))[p].(next := null, state := Ready)]
  {
    p.next := null;
    p.state := Ready;
  }

  /** `p->sleepticks = n`. */
  method SetTicks(p: Pcb, n: nat, ghost tab: seq<Pcb>)
    requires p in tab
    modifies p`sleepticks
    ensures Cells(tab) == old(Cells(tab))[p := old(Cells(tab))[p].(ticks := n)]
  {
    p.sleepticks := n;
  }

  /** `p->pid = n`. */
  method SetPid(p: Pcb, n: nat, ghost tab: seq<Pcb>)
    requires p in tab
    modifies p`pid
    ensures Cells(tab) == old(Cells(tab))[p := old(Cells(tab))[p].(pid := n)]
  {
    p.pid := n;
  }

  class Kernel {
    const proctab: seq<Pcb>
    const idle: Pcb
    const idlePid: nat

    var head: Pcb?
    var tail: Pcb?
    var running: Pcb
    var headsleeper: Pcb?

    ghost var readyQ: seq<Pcb>
    ghost var sleepQ: seq<Pcb>
    ghost var lefts: seq<nat>

    ghost function Now(): View
      reads this, proctab
    {
      View(proctab, idle, Cells(proctab), head, tail, running, headsleeper, readyQ, sleepQ, lefts)
    }

    /** The idle process is known by its number. */
    ghost predicate Known()
      reads this, proctab
    {
      idle in proctab && idle.pid == idlePid
    }

    ghost predicate Valid()
      reads this, proctab
    {
      Good(Now()) && Known() && |sleepQ| == |lefts|
    }

    ghost function Sched(): Sys
      reads this, proctab
      requires |sleepQ| == |lefts|
    {
      Abs(Now())
    }

    /** After boot: the root process runs, and the idle process is still in the ready queue. */
    constructor ()
      ensures Valid() && Sched() == ScheduleRuns.Boot() && idle.slot == 2
      ensures |proctab| == 64 && proctab[1].pid == 1 && proctab[2] == idle && idle.pid == 2
      ensures forall i :: 3 <= i < 64 ==> proctab[i].state == Stopped && proctab[i].pid == 0
    {
      hide Good, Abs;
      var tab: seq<Pcb> := [];
      while |tab| < MAX_PROC
        invariant |tab| <= MAX_PROC
        invariant forall i :: 0 <= i < |tab| ==>
          fresh(tab[i]) && tab[i].slot == i && tab[i].next == null && tab[i].state == Stopped && tab[i].pid == 0
      {
        var p := new Pcb(|tab|);
        tab := tab + [p];
      }
      var root, idle := tab[1], tab[2];
      root.pid, root.state := 1, Running;
      idle.pid, idle.state := 2, State.Ready;
      proctab, this.idle, idlePid := tab, idle, 2;
      head, tail, running, headsleeper := idle, idle, root, null;
      readyQ, sleepQ, lefts := [idle], [], [];
      new;
      assert Cells(proctab).Keys == set p | p in proctab;
      BootGood(Now());
    }

    /** ready: to the end of the ready queue; the idle process only changes state. */
    method Ready(p: Pcb)
      requires Fine(Now(), p) && Known()
      modifies this`head, this`tail, this`readyQ, proctab
      ensures Now() == PutReady(old(Now()), p) && Known()
    {
      hide Fine, Cells;
      ghost var v := Now();
      ReadyListOf(v, p);
      KnownByPid(v, p);
      CellOf(proctab, p);
      CellOf(proctab, idle);
      if tail != null {
        CellOf(proctab, tail);
      }
      Unlink(p, proctab);
      CellOf(proctab, idle);
      if p.pid == idlePid {
        return;
      }
      Enqueue(p);
    }

    /** The end of ready: links p in behind the tail. */
    method Enqueue(p: Pcb)
      requires p in proctab && (tail != null ==> tail in proctab) && Known()
      modifies this`head, this`tail, this`readyQ, proctab
      ensures var v, v' := old(Now()), Now();
        if v.tail != null then
          v.tail in v.h && v' == v.(h := v.h[v.tail := v.h[v.tail].(next := p)], tail := p, readyQ := v.readyQ + [p])
        else v' == v.(head := p, tail := p, readyQ := v.readyQ + [p])
      ensures Known()
    {
      hide Cells;
      CellOf(proctab, idle);
      if tail != null {
        CellOf(proctab, tail);
        Link(tail, p, proctab);
      } else {
        head := p;
      }
      tail := p;
      readyQ := readyQ + [p];
      CellOf(proctab, idle);
    }

    /** Takes the first process off the ready queue. */
    method Pop() returns (p: Pcb)
      requires ReadyList(Now()) && head != null && Known()
      modifies this`head, this`tail, this`readyQ, proctab
      ensures p == old(head) && old(Now()).readyQ != [] && p in old(Now()).h && Now() == PopReady(old(Now())) && Known()
    {
      hide ReadyList, Cells;
      ghost var v := Now();
      HeadKnown(v);
      CellOf(proctab, head);
      CellOf(proctab, idle);
      p := head;
      head := p.next;
      Link(p, null, proctab);
      if head == null {
        tail := null;
      }
      readyQ := readyQ[1..];
      CellOf(proctab, idle);
    }

    /** next: the first ready process other than the idle one, if there is one. */
    method Next() returns (p: Pcb)
      requires Fine(Now(), null) && Known() && Now().h[running].state != Running
      modifies this`head, this`tail, this`readyQ, proctab
      ensures Now() == Taken(old(Now())) && p == NextProc(old(Now())) && Known()
    {
      hide Fine, Good, ReadyList, PopReady;
      ghost var v := Now();
      ReadyListOf(v, null);
      IdleKnown(v);
      if head == null {
        return idle;
      }
      PopReadyFine(v);
      p := Pop();
      PopReadyKnown(v);
      ReadyListOf(Now(), p);
      if p == idle && head != null {
        PopReadyFine(Now());
        p := Pop();
      } else if running == idle && p != idle {
        IdleReady(v);
        Mark(running, State.Ready, proctab);
      }
    }

    /** What the dispatcher does with the process that next() gives it. */
    method Switch()
      requires Fine(Now(), null) && Known() && Now().h[running].state != Running && |sleepQ| == |lefts|
      modifies this`head, this`tail, this`readyQ, this`running, proctab
      ensures Valid() && Sched() == Switched(old(Sched()), idle.slot)
    {
      hide Fine, Good, PopReady, Cells, Taken, NextProc;
      ghost var v := Now();
      TakenFine(v);
      SwitchAbs(v);
      TakenState(v);
      CellOf(proctab, NextProc(v));
      var p := Next();
      RunningGood(Taken(v), p);
      Mark(p, Running, proctab);
      running := p;
    }

    /** SYS_YIELD. */
    method Yield()
      requires Valid()
      modifies this`head, this`tail, this`readyQ, this`running, proctab
      ensures Valid() && Sched() == Yielded(old(Sched()), idle.slot)
    {
      hide Fine, Good, PutReady, Cells;
      ghost var v := Now();
      RunningLoose(v);
      PutReadyFine(v, running);
      PutReadyAbs(v, running);
      PutReadyKnown(v, running);
      Ready(running);
      Switch();
    }

    /** Walks to where a sleeper with so many ticks belongs; acc is the time of the one before. */
    method FindPlace(left: nat) returns (prev: Pcb, nxt: Pcb?, acc: nat, ghost i: nat)
      requires SleepList(Now()) && headsleeper != null && headsleeper in proctab && headsleeper.sleepticks < left
      ensures |sleepQ| == |lefts| && i == Place(Sleepers(sleepQ, lefts), left) && 1 <= i <= |sleepQ|
      ensures prev == sleepQ[i - 1] && nxt == (if i < |sleepQ| then sleepQ[i] else null) && acc == lefts[i - 1]
    {
      hide Chain, Relative, Cells, SleepList, Place;
      ghost var v := Now();
      SleeperKnown(v);
      CellOf(proctab, headsleeper);
      i := 0;
      prev, nxt := headsleeper, headsleeper;
      acc := nxt.sleepticks;
      while nxt != null && acc < left
        invariant 0 <= i <= |sleepQ| == |lefts| && nxt == (if i < |sleepQ| then sleepQ[i] else null)
        invariant acc == (if i < |sleepQ| then lefts[i] else lefts[|lefts| - 1])
        invariant prev == sleepQ[if i == 0 then 0 else i - 1] && (i == 0 ==> lefts[0] < left)
        invariant forall j :: 0 <= j < i ==> lefts[j] < left
        decreases |sleepQ| - i
      {
        SleeperAt(v, i);
        CellOf(proctab, nxt);
        prev := nxt;
        nxt := nxt.next;
        if nxt != null {
          SleeperAt(v, i + 1);
          CellOf(proctab, nxt);
          acc := acc + nxt.sleepticks;
        }
        i := i + 1;
      }
      PlaceIs(Sleepers(sleepQ, lefts), left, i);
      if nxt != null {
        SleeperAt(v, i);
        CellOf(proctab, nxt);
        acc := acc - nxt.sleepticks;
      }
    }

    /** p stops being ready or running. */
    method StartSleep(p: Pcb, left: nat)
      requires Fine(Now(), p)
      modifies p
      ensures Linking(p, left, old(Now())) && p in proctab && p.sleepticks == left
      ensures headsleeper != null ==> headsleeper in proctab
    {
      hide Fine, Cells, Chain, Relative, SleepList;
      ghost var v := Now();
      SleepListOf(v, p);
      CellOf(proctab, p);
      Link(p, null, proctab);
      Mark(p, Sleeping, proctab);
      SetTicks(p, left, proctab);
      SleepListOther(v, Now(), p);
      CellOf(proctab, p);
      SleeperKnown(Now());
      if headsleeper != null {
        CellOf(proctab, headsleeper);
      }
    }

    /** sleep: links p in before the first sleeper that does not wake earlier. */
    method Sleep(milliseconds: nat, p: Pcb)
      requires Fine(Now(), p) && Known() && p != idle
      modifies this`headsleeper, this`sleepQ, this`lefts, proctab
      ensures Now() == PutSleep(old(Now()), p, Ticks(milliseconds)) && Known()
    {
      hide Fine, Cells, SleepList, Place, Ticks, PutSleep, Linking;
      ghost var v := Now();
      CellOf(proctab, idle);
      PutSleepKnown(v, p, Ticks(milliseconds));
      CellOf(proctab, p);
      StartSleep(p, Ticks(milliseconds));
      if headsleeper != null && headsleeper.sleepticks < p.sleepticks {
        LinkAfter(p, p.sleepticks, v);
      } else {
        LinkFirst(p, p.sleepticks, v);
      }
      CellOf(proctab, idle);
    }

    /** The list of sleepers, and p with `left` ticks beside it. */
    ghost predicate Linking(p: Pcb, left: nat, v: View)
      reads this, proctab
    {
      && Fine(v, p) && Now() == v.(h := v.h[p := Cell(null, Sleeping, v.h[p].pid, left)]) && SleepList(Now())
    }

    /** The assignments that link p in between prev and nxt. */
    method Splice(p: Pcb, prev: Pcb, nxt: Pcb?, left: nat, acc: nat, ghost h: cells)
      requires p in proctab && prev in proctab && (nxt != null ==> nxt in proctab) && p != prev && p != nxt
      requires prev != nxt
      requires p in h && Cells(proctab) == h[p := Cell(null, Sleeping, h[p].pid, left)] && acc <= left
      requires prev in h && (nxt != null ==> nxt in h && h[nxt].ticks >= left - acc)
      modifies proctab
      ensures Cells(proctab) == Spliced(h, p, prev, nxt, left, acc)
    {
      hide Cells;
      CellOf(proctab, p);
      Link(p, nxt, proctab);
      CellOf(proctab, p);
      Link(prev, p, proctab);
      CellOf(proctab, p);
      SetTicks(p, left - acc, proctab);
      CellOf(proctab, p);
      if nxt != null {
        CellOf(proctab, nxt);
        SetTicks(nxt, nxt.sleepticks - p.sleepticks, proctab);
      }
    }

    /** p is linked in behind other sleepers. */
    method LinkAfter(p: Pcb, left: nat, ghost v: View)
      requires Linking(p, left, v) && p in proctab && headsleeper != null && headsleeper in proctab
      requires headsleeper.sleepticks < left
      modifies this`sleepQ, this`lefts, proctab
      ensures Now() == PutSleep(v, p, left)
    {
      hide Fine, Cells, Chain, Relative, SleepList, Place, Linked, Spliced;
      var prev, nxt, acc;
      ghost var i;
      prev, nxt, acc, i := FindPlace(left);
      SplicedIs(v, p, left, i);
      InTable(v, p);
      Splice(p, prev, nxt, left, acc, v.h);
      sleepQ := sleepQ[..i] + [p] + sleepQ[i..];
      lefts := lefts[..i] + [left] + lefts[i..];
    }

    /** p becomes the first sleeper. */
    method LinkFirst(p: Pcb, left: nat, ghost v: View)
      requires Linking(p, left, v) && p in proctab
      requires headsleeper != null ==> headsleeper in proctab && headsleeper.sleepticks >= left
      modifies this`headsleeper, this`sleepQ, this`lefts, proctab
      ensures Now() == PutSleep(v, p, left)
    {
      hide Fine, Cells, Chain, Relative, SleepList, Place, Linked;
      SleepListOf(v, p);
      CellOf(proctab, p);
      if headsleeper != null {
        assert headsleeper in v.sleepQ;
        CellOf(proctab, headsleeper);
      }
      FirstIs(v, p, left);
      Link(p, headsleeper, proctab);
      CellOf(proctab, p);
      if headsleeper != null {
        CellOf(proctab, headsleeper);
        SetTicks(headsleeper, headsleeper.sleepticks - p.sleepticks, proctab);
      }
      headsleeper := p;
      sleepQ := [p] + sleepQ;
      lefts := [left] + lefts;
    }

    /** SYS_SLEEP. */
    method SysSleep(milliseconds: nat)
      requires Valid() && running != idle
      modifies this`head, this`tail, this`readyQ, this`running, this`headsleeper, this`sleepQ, this`lefts, proctab
      ensures Valid() && Sched() == Slept(old(Sched()), milliseconds, idle.slot)
    {
      hide Fine, Good, PutSleep, Cells, Inserted, Ticks;
      ghost var v := Now();
      RunningLoose(v);
      PutSleepFine(v, running, Ticks(milliseconds));
      PutSleepAbs(v, running, Ticks(milliseconds));
      PutSleepKnown(v, running, Ticks(milliseconds));
      Sleep(milliseconds, running);
      Switch();
    }

    /** The first sleeper, as the abstract scheduler has it. */
    lemma FirstSleeper()
      requires Valid()
      ensures headsleeper == null <==> Sched().sleepers == []
      ensures headsleeper == null <==> sleepQ == []
      ensures headsleeper != null ==> headsleeper in proctab
      ensures headsleeper != null ==> headsleeper.sleepticks == Sched().sleepers[0].left == lefts[0]
      ensures forall i :: 0 <= i < |lefts| ==> lefts[0] <= lefts[i]
    {
      hide Chain, Relative, Settled, ReadyList;
      SleeperKnown(Now());
      if headsleeper != null {
        CellOf(proctab, headsleeper);
      }
    }

    /** Takes the first sleeper off and readies it. */
    method WakeOne()
      requires Valid() && headsleeper != null && headsleeper in proctab && headsleeper.sleepticks == 0
      modifies this`head, this`tail, this`readyQ, this`headsleeper, this`sleepQ, this`lefts, proctab
      ensures Valid() && running == old(running) && old(Sched()).sleepers != [] && Sched() == Awake(old(Sched()), 1)
    {
      hide Fine, Good, PutReady, Cells, Awake, Abs;
      ghost var v := Now();
      FirstSleeper();
      WakeGood(v);
      PopSleeperPid(v);
      CellOf(proctab, headsleeper);
      CellOf(proctab, idle);
      var p := headsleeper;
      headsleeper := headsleeper.next;
      Link(p, null, proctab);
      sleepQ, lefts := sleepQ[1..], lefts[1..];
      CellOf(proctab, idle);
      Ready(p);
    }

    /** Wakes the sleepers at the front whose time is up. */
    method WakeAll()
      requires Valid()
      modifies this`head, this`tail, this`readyQ, this`headsleeper, this`sleepQ, this`lefts, proctab
      ensures Valid() && running == old(running) && Sched() == Awake(old(Sched()), Tied(old(Sched()).sleepers, 0))
      ensures Sched().sleepers == [] || Sched().sleepers[0].left > 0
    {
      hide Good, Cells, Awake, Abs;
      ghost var s := Sched();
      ghost var j := 0;
      AwakeStep(s, 0);
      FirstSleeper();
      while headsleeper != null && headsleeper.sleepticks == 0
        invariant Valid() && running == old(running) && j <= Tied(s.sleepers, 0) && Sched() == Awake(s, j)
        invariant headsleeper != null ==> headsleeper in proctab
        decreases |s.sleepers| - j
      {
        FirstSleeper();
        AwakeStep(s, j);
        WakeOne();
        j := j + 1;
        FirstSleeper();
      }
      FirstSleeper();
      AwakeStep(s, j);
    }

    /** All sleepers come n ticks nearer, by way of the first. */
    method Advance(n: nat)
      requires Valid() && headsleeper != null && headsleeper in proctab && n <= headsleeper.sleepticks
      modifies this`lefts, proctab
      ensures Valid() && running == old(running) && Sched() == old(Sched()).(sleepers := Less(old(Sched()).sleepers, n))
    {
      hide Good, Cells, Abs;
      ghost var v := Now();
      FirstSleeper();
      AdvanceGood(v, n);
      CellOf(proctab, idle);
      CellOf(proctab, headsleeper);
      SetTicks(headsleeper, headsleeper.sleepticks - n, proctab);
      lefts := seq(|v.lefts|, i requires 0 <= i < |v.lefts| => Minus(v.lefts[i], n));
      CellOf(proctab, idle);
    }

    /** tick: wakes the sleepers whose time is up, and counts down for the others. */
    method Tick()
      requires Valid()
      modifies this`head, this`tail, this`readyQ, this`headsleeper, this`sleepQ, this`lefts, proctab
      ensures Valid() && running == old(running) && Sched() == Ticked(old(Sched()))
    {
      hide Good, Cells, Awake, Abs, Ticked;
      ghost var s := Sched();
      FirstSleeper();
      SleepersSorted(Now());
      TickedIs(s);
      if headsleeper == null {
        return;
      }
      if headsleeper.sleepticks <= 1 {
        Advance(headsleeper.sleepticks);
        WakeAll();
      }
      FirstSleeper();
      assert Less([], 1) == [];
      if headsleeper != null && headsleeper.sleepticks > 0 {
        Advance(1);
      }
    }

    /** A free slot of the process table; the source needs one to exist. */
    method FreeSlot() returns (i: nat)
      requires Valid() && exists p :: p in proctab && p.slot > 0 && p.state == Stopped
      ensures 1 <= i < MAX_PROC == |proctab| && proctab[i].slot == i && proctab[i].state == Stopped
      ensures forall j :: 1 <= j < i ==> proctab[j].state != Stopped
    {
      hide Chain, Relative, Settled, ReadyList, SleepList;
      assert Table(Now());
      i := 1;
      while i < MAX_PROC && proctab[i].state != Stopped && proctab[i].state != Dead
        invariant 1 <= i <= MAX_PROC && forall j :: 1 <= j < i ==> proctab[j].state != Stopped
      {
        i := i + 1;
      }
      if i < MAX_PROC {
        CellOf(proctab, proctab[i]);
        NoneDead(Now(), proctab[i]);
      }
    }

    /** A process that has not stopped is found by its number, and no other has that number. */
    lemma NumberFinds(p: Pcb)
      requires Valid() && p in proctab && p.state != Stopped
      ensures |proctab| == 64 && proctab[p.pid % 64] == p
      ensures forall q :: q in proctab && q.state != Stopped && q.pid == p.pid ==> q == p
    {
      hide Chain, Relative, Settled, ReadyList, SleepList;
      assert Table(Now());
      CellOf(proctab, p);
      forall q | q in proctab && q.state != Stopped && q.pid == p.pid
        ensures q == p
      {
        CellOf(proctab, q);
      }
    }

    /** create: a process in the first free slot, with the next number for that slot, becomes ready. */
    method Create() returns (pid: nat)
      requires Valid() && exists p :: p in proctab && p.slot > 0 && p.state == Stopped
      modifies this`head, this`tail, this`readyQ, proctab
      ensures Valid() && 1 <= pid % 64 < |proctab| && old(proctab[pid % 64].state) == Stopped
      ensures forall j :: 1 <= j < pid % 64 ==> old(proctab[j].state) != Stopped
      ensures proctab[pid % 64].pid == pid && proctab[pid % 64].slot == pid % 64 != idle.slot
      ensures old(proctab[pid % 64].pid) % 64 != pid % 64 ==> pid == pid % 64
      ensures old(proctab[pid % 64].pid) % 64 == pid % 64 && old(proctab[pid % 64].pid) < 0x7fff_ffff - 64 ==>
        pid == old(proctab[pid % 64].pid) + 64
      ensures old(proctab[pid % 64].pid) >= 0x7fff_ffff - 64 ==> pid == pid % 64
      ensures Sched() == Do(old(Sched()), Schedule.Create(pid % 64), idle.slot)
    {
      hide Good, Fine, Cells, Abs, PutReady;
      ghost var v := Now();
      var i := FreeSlot();
      var p := proctab[i];
      pid := if p.pid % MAX_PROC != i || p.pid + MAX_PROC >= INT_MAX then i else p.pid + MAX_PROC;
      NextNumber(p.pid, i);
      CellOf(proctab, p);
      CellOf(proctab, idle);
      CreateGood(v, p, pid);
      SetPid(p, pid, proctab);
      Mark(p, State.Ready, proctab);
      CellOf(proctab, idle);
      assert Cells(proctab) == v.h[p := v.h[p].(pid := pid, state := State.Ready)];
      Ready(p);
      CellOf(proctab, p);
    }

    /** SYS_TIMER. */
    method Timer()
      requires Valid()
      modifies this`head, this`tail, this`readyQ, this`running, this`headsleeper, this`sleepQ, this`lefts, proctab
      ensures Valid() && Sched() == Ticked(Yielded(old(Sched()), idle.slot))
    {
      hide Good, Abs, Ticked, Yielded;
      Yield();
      Tick();
    }
  }

  /** The first j sleepers became ready. */
  ghost function Awake(s: Sys, j: nat): Sys
    requires j <= |s.sleepers|
  {
    s.(ready := s.ready + Names(s.sleepers[..j]), sleepers := s.sleepers[j..])
  }

  lemma AwakeStep(s: Sys, j: nat)
    requires j <= |s.sleepers|
    ensures Awake(s, 0) == s && (Awake(s, j).sleepers == [] <==> j == |s.sleepers|)
    ensures j < |s.sleepers| ==> Awake(s, j).sleepers[0] == s.sleepers[j] && Awake(Awake(s, j), 1) == Awake(s, j + 1)
  {
    assert Names(s.sleepers[..0]) == [];
    if j < |s.sleepers| {
      assert Names(s.sleepers[..j + 1]) == Names(s.sleepers[..j]) + Names(s.sleepers[j..][..1]);
    }
  }

  lemma WakeGood(v: View)
    requires Good(v) && v.sleepQ != [] && v.lefts != [] && v.lefts[0] == 0
    ensures v.headsleeper == v.sleepQ[0] && v.headsleeper in v.h && Fine(PopSleeper(v), v.headsleeper)
    ensures |v.sleepQ| == |v.lefts| && var v' := PutReady(PopSleeper(v), v.headsleeper);
      && Good(v') && v'.running == v.running && v'.idle == v.idle && |v'.sleepQ| == |v'.lefts|
      && Abs(v') == Awake(Abs(v), 1)
  {
    hide Fine, PutReady;
    IdleKnown(v);
    PopSleeperFine(v);
    var p, v1 := v.headsleeper, PopSleeper(v);
    PutReadyFine(v1, p);
    PutReadyAbs(v1, p);
    PutReadyKnown(v1, p);
    SameSlotFine(v, p);
    assert Names(Abs(v).sleepers[..1]) == [p.slot];
  }

  lemma SameSlotFine(v: View, p: Pcb)
    requires Fine(v, null) && p in v.h
    ensures v.idle in v.h && (p == v.idle <==> p.slot == v.idle.slot)
  {
    hide ReadyList, SleepList, Settled;
    SameSlot(v, p, v.idle);
  }

  /** A slot's numbers are congruent to it. */
  lemma NextNumber(pid: nat, i: nat)
    requires 0 < i < MAX_PROC
    ensures i % MAX_PROC == i && (pid % MAX_PROC == i ==> (pid + MAX_PROC) % MAX_PROC == i)
  {
  }

  lemma NoneDead(v: View, p: Pcb)
    requires Good(v) && p in v.h
    ensures v.h[p].state != Dead
  {
    hide Chain, Relative, Table;
    assert Settled(v, p);
  }

  lemma CreateFine(v: View, p: Pcb, pid: nat)
    requires Good(v) && p in v.h && v.h[p].state == Stopped && p.slot > 0 && pid % MAX_PROC == p.slot
    ensures Fine(v.(h := v.h[p := v.h[p].(pid := pid, state := State.Ready)]), p)
  {
    hide Chain, Relative;
    var h := v.h[p := v.h[p].(pid := pid, state := State.Ready)];
    ChainFrame(v.h, h, v.readyQ, v.head);
    ChainFrame(v.h, h, v.sleepQ, v.headsleeper);
    RelativeFrame(v.h, h, v.sleepQ, v.lefts);
    assert Settled(v, p);
    CreateSettled(v, p, pid);
  }

  lemma CreateSettled(v: View, p: Pcb, pid: nat)
    requires SettledBut(v, null) && p in v.h
    ensures var v1 := v.(h := v.h[p := v.h[p].(pid := pid, state := State.Ready)]);
      forall q :: q in v1.h && q != p ==> Settled(v1, q)
  {
    var v1 := v.(h := v.h[p := v.h[p].(pid := pid, state := State.Ready)]);
    forall q | q in v1.h && q != p
      ensures Settled(v1, q)
    {
      assert Settled(v, q);
    }
  }

  /** A stopped process that gets a number and becomes ready. */
  lemma CreateGood(v: View, p: Pcb, pid: nat)
    requires Good(v) && p in v.h && v.h[p].state == Stopped && p.slot > 0 && pid % MAX_PROC == p.slot
    ensures var v1 := v.(h := v.h[p := v.h[p].(pid := pid, state := State.Ready)]);
      && Fine(v1, p) && |v.sleepQ| == |v.lefts| && p.slot != v.idle.slot && v.idle in v.h && p != v.idle
      && Good(PutReady(v1, p)) && Abs(PutReady(v1, p)) == Do(Abs(v), Schedule.Create(p.slot), v.idle.slot)
      && PutReady(v1, p).h[p].pid == pid
  {
    hide Settled, PutReady, Chain, Relative, InState;
    var v1 := v.(h := v.h[p := v.h[p].(pid := pid, state := State.Ready)]);
    CreateFine(v, p, pid);
    PutReadyFine(v1, p);
    PutReadyAbs(v1, p);
    PutReadyKnown(v1, p);
    SameSlotFine(v, p);
  }

  lemma SleepersSorted(v: View)
    requires Good(v)
    ensures |v.sleepQ| == |v.lefts| && var z := Abs(v).sleepers; forall i :: 0 <= i < |z| ==> z[0].left <= z[i].left
  {
    hide Chain, Relative, Settled, ReadyList;
    SleeperKnown(v);
  }

  lemma PopSleeperPid(v: View)
    requires v.headsleeper != null && v.headsleeper in v.h && v.sleepQ != [] && v.lefts != []
    ensures PopSleeper(v).h.Keys == v.h.Keys && forall p :: p in v.h ==> PopSleeper(v).h[p].pid == v.h[p].pid
  {
  }

  lemma AdvanceGood(v: View, n: nat)
    requires Good(v) && v.sleepQ != [] && |v.lefts| > 0 && n <= v.lefts[0]
    ensures |v.sleepQ| == |v.lefts| && v.headsleeper != null && v.headsleeper in v.h && n <= v.h[v.headsleeper].ticks
    ensures var v' := v.(h := v.h[v.headsleeper := v.h[v.headsleeper].(ticks := v.h[v.headsleeper].ticks - n)],
                         lefts := seq(|v.lefts|, i requires 0 <= i < |v.lefts| => Minus(v.lefts[i], n)));
      Good(v') && Abs(v') == Abs(v).(sleepers := Less(Abs(v).sleepers, n))
  {
    hide Fine;
    IdleKnown(v);
    SoonerFine(v, n);
    assert Sooner(v, n).lefts == seq(|v.lefts|, i requires 0 <= i < |v.lefts| => Minus(v.lefts[i], n));
  }

  lemma {:induction false} TiedLess(z: seq<Sleeper>, n: nat)
    requires forall i :: 0 <= i < |z| ==> n <= z[i].left
    ensures Tied(Less(z, n), 0) == Tied(z, n)
  {
    if z != [] {
      TiedLess(z[1..], n);
      assert Less(z, n)[1..] == Less(z[1..], n);
    }
  }

  /** The steps of tick, one after the other. */
  lemma TickedIs(s: Sys)
    requires forall i :: 0 <= i < |s.sleepers| ==> s.sleepers[0].left <= s.sleepers[i].left
    ensures s.sleepers == [] ==> Ticked(s) == s
    ensures s.sleepers != [] && s.sleepers[0].left > 1 ==> Ticked(s) == s.(sleepers := Less(s.sleepers, 1))
    ensures s.sleepers != [] && s.sleepers[0].left <= 1 ==>
      var s1 := s.(sleepers := Less(s.sleepers, s.sleepers[0].left));
      var s2 := Awake(s1, Tied(s1.sleepers, 0));
      Ticked(s) == s2.(sleepers := Less(s2.sleepers, 1))
  {
    var z := s.sleepers;
    assert Names(z[..0]) == [];
    if z != [] && z[0].left <= 1 {
      var h := z[0].left;
      TiedLess(z, h);
      var n := Tied(z, h);
      assert Names(Less(z, h)[..n]) == Names(z[..n]);
      assert Less(Less(z, h)[n..], 1) == Less(z[n..], h + 1);
    }
  }

  /** The cells after p was linked in before `first`. */
  ghost function Prepended(h: cells, p: Pcb, first: Pcb?, left: nat): cells
    requires p in h && (first != null ==> first in h && h[first].ticks >= left)
  {
    var h1 := h[p := Cell(first, Sleeping, h[p].pid, left)];
    if first == null then h1 else h1[first := h1[first].(ticks := h[first].ticks - left)]
  }

  /** Linking in before all others. */
  lemma FirstIs(v: View, p: Pcb, left: nat)
    requires Fine(v, p) && (v.headsleeper != null ==> v.headsleeper in v.h && v.h[v.headsleeper].ticks >= left)
    ensures p in v.h && p != v.headsleeper && PutSleep(v, p, left).headsleeper == p
    ensures PutSleep(v, p, left) == v.(headsleeper := p, h := Prepended(v.h, p, v.headsleeper, left),
                                       sleepQ := [p] + v.sleepQ, lefts := [left] + v.lefts)
  {
    hide Table, ReadyList, Settled, Place, Chain, Relative;
    PlaceBefore(v, left);
    SleeperKnown(v);
    PlaceIs(Sleepers(v.sleepQ, v.lefts), left, 0);
  }

  /** The cells after p was linked in between prev and nxt. */
  ghost function Spliced(h: cells, p: Pcb, prev: Pcb, nxt: Pcb?, left: nat, acc: nat): cells
    requires p in h && prev in h && acc <= left && (nxt != null ==> nxt in h)
  {
    var h1 := h[p := Cell(nxt, Sleeping, h[p].pid, left)];
    var h2 := h1[prev := h1[prev].(next := p)];
    var h3 := h2[p := h2[p].(ticks := left - acc)];
    if nxt == null then h3 else h3[nxt := h3[nxt].(ticks := Minus(h3[nxt].ticks, left - acc))]
  }

  lemma SplicedIs(v: View, p: Pcb, left: nat, i: nat)
    requires Fine(v, p) && i == Place(Sleepers(v.sleepQ, v.lefts), left) && 1 <= i <= |v.sleepQ|
    ensures var q := v.sleepQ;
      && |v.lefts| == |q| && p in v.h && q[i - 1] in v.h && v.lefts[i - 1] <= left && (i < |q| ==> q[i] in v.h)
      && PutSleep(v, p, left).h == Spliced(v.h, p, q[i - 1], if i < |q| then q[i] else null, left, v.lefts[i - 1])
      && (i < |q| ==> v.h[q[i]].ticks >= left - v.lefts[i - 1] && q[i] != p && q[i] != q[i - 1]) && q[i - 1] != p
  {
    hide Table, ReadyList, Settled, Place;
    PlaceBefore(v, left);
    SleeperAt(v, i - 1);
    if i < |v.sleepQ| {
      SleeperAt(v, i);
    }
  }

  lemma PutSleepKnown(v: View, p: Pcb, left: nat)
    requires Fine(v, p)
    ensures v.idle in v.h && PutSleep(v, p, left).h.Keys == v.h.Keys && PutSleep(v, p, left).idle == v.idle
    ensures PutSleep(v, p, left).running == v.running && p in v.h && PutSleep(v, p, left).h[p].state == Sleeping
    ensures forall q :: q in v.h ==> PutSleep(v, p, left).h[q].pid == v.h[q].pid
    ensures forall q :: q in v.h && q != p ==> PutSleep(v, p, left).h[q].state == v.h[q].state
  {
    hide ReadyList, SleepList, Settled, PutSleep;
    var i := PutSleepCells(v, p, left);
    PutSleepSame(v, p, left);
  }

  lemma PutSleepSame(v: View, p: Pcb, left: nat)
    requires Fine(v, p)
    ensures PutSleep(v, p, left).idle == v.idle && PutSleep(v, p, left).running == v.running && p in v.h
  {
  }

  /** Every sleeper is in the process table. */
  lemma InTable(v: View, p: Pcb)
    requires Fine(v, p)
    ensures forall q :: q in v.h ==> q in v.tab
  {
    hide ReadyList, SleepList, Settled;
  }

  lemma SleeperAt(v: View, i: nat)
    requires SleepList(v) && i < |v.sleepQ|
    ensures |v.sleepQ| == |v.lefts| && v.sleepQ[i] in v.h
    ensures v.h[v.sleepQ[i]].next == if i + 1 < |v.sleepQ| then v.sleepQ[i + 1] else null
    ensures v.h[v.sleepQ[i]].ticks + (if i == 0 then 0 else v.lefts[i - 1]) == v.lefts[i]
  {
  }

  lemma {:induction false} PlaceIs(z: seq<Sleeper>, left: nat, i: nat)
    requires i <= |z| && (forall j :: 0 <= j < i ==> z[j].left < left) && (i < |z| ==> left <= z[i].left)
    ensures Place(z, left) == i
  {
    if i > 0 {
      PlaceIs(z[1..], left, i - 1);
    }
  }

  /** The list of sleepers does not depend on other processes. */
  lemma SleepListOther(v: View, v': View, p: Pcb)
    requires SleepList(v) && p in v.h && p !in v.sleepQ && p in v'.h && v' == v.(h := v'.h) && v'.h == v.h[p := v'.h[p]]
    ensures SleepList(v')
  {
    hide Chain, Relative;
    ChainFrame(v.h, v'.h, v.sleepQ, v.headsleeper);
    RelativeFrame(v.h, v'.h, v.sleepQ, v.lefts);
  }

  /** The queues at boot are well. */
  lemma BootGood(v: View)
    requires |v.tab| == MAX_PROC && (forall i :: 0 <= i < MAX_PROC ==> v.tab[i].slot == i)
    requires v.h.Keys == set p | p in v.tab
    requires v.running == v.tab[1] && v.h[v.running] == Cell(null, Running, 1, v.h[v.running].ticks)
    requires v.idle == v.tab[2] && v.h[v.idle] == Cell(null, State.Ready, 2, v.h[v.idle].ticks)
    requires forall p :: p in v.h && p != v.running && p != v.idle ==> v.h[p].state == Stopped && v.h[p].next == null
    requires v.readyQ == [v.idle] && v.head == v.tail == v.idle
    requires v.sleepQ == [] && v.lefts == [] && v.headsleeper == null
    ensures Good(v) && Abs(v) == Sys([2], [], 1)
  {
  }

  /** Process numbers tell processes apart. */
  lemma KnownByPid(v: View, p: Pcb)
    requires Fine(v, p)
    ensures p in v.h && v.idle in v.h && (v.h[p].pid == v.h[v.idle].pid <==> p == v.idle)
  {
    hide ReadyList, SleepList, Settled;
    SameSlot(v, p, v.idle);
  }

  lemma ReadyListOf(v: View, x: Pcb?)
    requires Fine(v, x)
    ensures ReadyList(v) && (v.readyQ == [] <==> v.head == null)
    ensures v.readyQ != [] ==> v.head == v.readyQ[0] && v.head in v.h
    ensures v.tail != null ==> v.tail in v.h
    ensures v.idle in v.h && v.running in v.h
  {
    hide Settled, Chain, Relative;
    HeadKnown(v);
    TailKnown(v);
  }

  /** When the idle process was running and does not run, it is ready. */
  lemma IdleReady(v: View)
    requires Fine(v, null) && v.running == v.idle && v.idle in v.h && v.h[v.running].state != Running
    ensures v.h[v.idle].state == State.Ready
  {
    hide Chain, Relative;
    assert Settled(v, v.idle);
  }

  lemma TakenState(v: View)
    requires Fine(v, null)
    ensures Taken(v).running == v.running && v.running in v.h && v.running in Taken(v).h
    ensures Taken(v).h[v.running].state == v.h[v.running].state
  {
    hide Fine, PopReady;
    IdleKnown(v);
    if v.readyQ != [] {
      PopReadyFine(v);
      PopReadyKnown(v);
      if v.readyQ[0] == v.idle && |v.readyQ| > 1 {
        PopReadyFine(PopReady(v));
        PopReadyKnown(PopReady(v));
      }
    }
  }

  lemma RunningLoose(v: View)
    requires Good(v)
    ensures Fine(v, v.running) && v.running in v.h
  {
    hide Chain, Relative;
    assert Settled(v, v.running);
  }

  lemma PutReadyKnown(v: View, p: Pcb)
    requires p in v.h
    ensures PutReady(v, p).running == v.running && PutReady(v, p).idle == v.idle && PutReady(v, p).sleepQ == v.sleepQ
    ensures PutReady(v, p).lefts == v.lefts && PutReady(v, p).h.Keys == v.h.Keys
    ensures PutReady(v, p).h[p].state == State.Ready
    ensures forall q :: q in v.h && q != p ==> PutReady(v, p).h[q].state == v.h[q].state
    ensures forall q :: q in v.h ==> PutReady(v, p).h[q].pid == v.h[q].pid
  {
  }

  lemma SleepListOf(v: View, x: Pcb?)
    requires Fine(v, x)
    ensures SleepList(v) && v.idle in v.h && |v.sleepQ| == |v.lefts|
    ensures x != null ==> x in v.h && x !in v.sleepQ
    ensures v.sleepQ == [] <==> v.headsleeper == null
    ensures v.sleepQ != [] ==> v.headsleeper == v.sleepQ[0]
    ensures forall i :: 0 <= i < |v.sleepQ| ==> v.sleepQ[i] in v.h
  {
    hide Settled, ReadyList;
  }
}
