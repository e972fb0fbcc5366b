/**
 The sleep queue with relative times (c/sleep.c:42-102): what sleep and tick do to the
 lists of Queues, and that they keep them.
 */
module SleepQueue {
  import opened Words
  import opened Schedule
  import opened Queues

  // ----- sleep

  ghost function Before(lefts: seq<nat>, i: nat): nat
    requires i <= |lefts|
  {
    if i == 0 then 0 else lefts[i - 1]
  }

  /** The cells after p, with `left` ticks, was linked in as number i. */
  ghost function Linked(h: cells, q: seq<Pcb>, lefts: seq<nat>, i: nat, p: Pcb, left: nat): cells
    requires i <= |q| == |lefts| && p in h && (forall j :: 0 <= j < |q| ==> q[j] in h) && (i < |q| ==> left <= lefts[i])
    requires Before(lefts, i) <= left
  {
    var after := if i < |q| then q[i] else null;
    var h1 := h[p := h[p].(next := after, state := Sleeping, ticks := left - Before(lefts, i))];
    var h2 := if i > 0 then h1[q[i - 1] := h1[q[i - 1]].(next := p)] else h1;
    if i < |q| then h2[q[i] := h2[q[i]].(ticks := lefts[i] - left)] else h2
  }

  ghost function PutSleep(v: View, p: Pcb, left: nat): View
    requires Fine(v, p)
  {
    var i := Place(Sleepers(v.sleepQ, v.lefts), left);
    PlaceBefore(v, left);
    v.(h := Linked(v.h, v.sleepQ, v.lefts, i, p, left), headsleeper := if i == 0 then p else v.headsleeper,
       sleepQ := v.sleepQ[..i] + [p] + v.sleepQ[i..], lefts := v.lefts[..i] + [left] + v.lefts[i..])
  }

  lemma PlaceBefore(v: View, left: nat)
    requires SleepList(v)
    ensures |v.sleepQ| == |v.lefts| && var i := Place(Sleepers(v.sleepQ, v.lefts), left);
      i <= |v.lefts| && Before(v.lefts, i) <= left && (i < |v.lefts| ==> left <= v.lefts[i])
    ensures forall j :: 0 <= j < |v.sleepQ| ==> v.sleepQ[j] in v.h
  {
    var z := Sleepers(v.sleepQ, v.lefts);
    var i := Place(z, left);
    assert i > 0 ==> z[i - 1].left == v.lefts[i - 1];
    assert i < |z| ==> z[i].left == v.lefts[i];
  }

  /** What linking in changes, and what it leaves. */
  lemma LinkedCells(h: cells, q: seq<Pcb>, first: Pcb?, lefts: seq<nat>, i: nat, p: Pcb, left: nat)
    requires Chain(h, q, first) && i <= |q| == |lefts| && p in h && p !in q
    requires Before(lefts, i) <= left && (i < |q| ==> left <= lefts[i])
    ensures var h' := Linked(h, q, lefts, i, p, left);
      && h'.Keys == h.Keys
      && h'[p] == Cell(if i < |q| then q[i] else null, Sleeping, h[p].pid, left - Before(lefts, i))
      && (forall x :: x in h && x != p ==>
            h'[x].pid == h[x].pid && h'[x].state == h[x].state && (x !in q ==> h'[x] == h[x]))
      && (forall j :: 0 <= j < |q| ==> q[j] in h && h'[q[j]].next == (if j + 1 == i then p else h[q[j]].next))
      && (forall j :: 0 <= j < |q| ==>
        q[j] in h && h'[q[j]].ticks == (if j == i then lefts[i] - left else h[q[j]].ticks))
  {
    hide Before;
    assert forall j :: 0 <= j < |q| ==> q[j] in q;
  }

  /** The sleepers with p as number i. */
  ghost function WithAt(q: seq<Pcb>, i: nat, p: Pcb): (r: seq<Pcb>)
    requires i <= |q|
    ensures |r| == |q| + 1
    ensures forall j :: 0 <= j < |r| ==> r[j] == if j < i then q[j] else if j == i then p else q[j - 1]
  {
    q[..i] + [p] + q[i..]
  }

  lemma WithAtDistinct(q: seq<Pcb>, i: nat, p: Pcb)
    requires i <= |q| && p !in q && forall j, k :: 0 <= j < k < |q| ==> q[j] != q[k]
    ensures var r := WithAt(q, i, p); forall j, k :: 0 <= j < k < |r| ==> r[j] != r[k]
  {
    var r := WithAt(q, i, p);
    forall j, k | 0 <= j < k < |r|
      ensures r[j] != r[k]
    {
      var j', k' := if j < i then j else j - 1, if k < i then k else k - 1;
      assert j != i ==> r[j] == q[j'] && q[j'] in q;
      assert k != i ==> r[k] == q[k'] && q[k'] in q;
    }
  }

  lemma WithAtLinked(h: cells, h': cells, q: seq<Pcb>, first: Pcb?, i: nat, p: Pcb)
    requires Chain(h, q, first) && p in h' && i <= |q| && h'[p].next == if i < |q| then q[i] else null
    requires forall j :: 0 <= j < |q| ==>
      q[j] in h && q[j] in h' && h'[q[j]].next == if j + 1 == i then p else h[q[j]].next
    ensures var r := WithAt(q, i, p); forall j :: 0 <= j < |r| ==>
      r[j] in h' && h'[r[j]].next == if j + 1 < |r| then r[j + 1] else null
  {
    var r := WithAt(q, i, p);
    forall j | 0 <= j < |r|
      ensures r[j] in h' && h'[r[j]].next == if j + 1 < |r| then r[j + 1] else null
    {
      var j' := if j < i then j else j - 1;
      assert j != i ==> r[j] == q[j'];
    }
  }

  lemma ChainInsert(h: cells, h': cells, q: seq<Pcb>, first: Pcb?, i: nat, p: Pcb)
    requires Chain(h, q, first) && p in h' && p !in q && i <= |q| && h'[p].next == if i < |q| then q[i] else null
    requires forall j :: 0 <= j < |q| ==>
      q[j] in h && q[j] in h' && h'[q[j]].next == if j + 1 == i then p else h[q[j]].next
    ensures Chain(h', q[..i] + [p] + q[i..], if i == 0 then p else first)
  {
    WithAtDistinct(q, i, p);
    WithAtLinked(h, h', q, first, i, p);
    assert WithAt(q, i, p) == q[..i] + [p] + q[i..];
    assert i > 0 ==> WithAt(q, i, p)[0] == q[0];
  }

  lemma RelativeInsert(h: cells, h': cells, q: seq<Pcb>, lefts: seq<nat>, i: nat, p: Pcb, left: nat)
    requires Relative(h, q, lefts) && p in h' && i <= |q| == |lefts| && Before(lefts, i) + h'[p].ticks == left
    requires forall j :: 0 <= j < |q| ==> q[j] in h && q[j] in h' && (j != i ==> h'[q[j]].ticks == h[q[j]].ticks)
    requires i < |q| ==> left + h'[q[i]].ticks == lefts[i]
    ensures Relative(h', q[..i] + [p] + q[i..], lefts[..i] + [left] + lefts[i..])
  {
    hide Relative;
    RelativeParts(h, q, lefts);
    var q', lefts' := q[..i] + [p] + q[i..], lefts[..i] + [left] + lefts[i..];
    forall j | 0 <= j < |q'|
      ensures LeadsTo(h', q', lefts', j)
    {
      if j < i {
        assert LeadsTo(h, q, lefts, j);
        assert q'[j] == q[j] && lefts'[j] == lefts[j];
      } else if j > i {
        assert LeadsTo(h, q, lefts, j - 1);
        assert q'[j] == q[j - 1] && lefts'[j] == lefts[j - 1];
      }
    }
    RelativeFrom(h', q', lefts');
  }

  /** The j-th sleeper's ticks lead from the time of the one before to its own. */
  ghost predicate LeadsTo(h: cells, q: seq<Pcb>, lefts: seq<nat>, j: nat)
    requires j < |q| == |lefts|
  {
    q[j] in h && Before(lefts, j) + h[q[j]].ticks == lefts[j]
  }

  lemma RelativeParts(h: cells, q: seq<Pcb>, lefts: seq<nat>)
    requires Relative(h, q, lefts)
    ensures |q| == |lefts| && forall j :: 0 <= j < |q| ==> LeadsTo(h, q, lefts, j)
  {
  }

  lemma RelativeFrom(h: cells, q: seq<Pcb>, lefts: seq<nat>)
    requires |q| == |lefts| && forall j :: 0 <= j < |q| ==> LeadsTo(h, q, lefts, j)
    ensures Relative(h, q, lefts)
  {
    forall j | 0 <= j < |q|
      ensures q[j] in h && Before(lefts, j) + h[q[j]].ticks == lefts[j]
    {
      assert LeadsTo(h, q, lefts, j);
    }
    assert q != [] ==> Before(lefts, 0) + h[q[0]].ticks == lefts[0];
    assert forall j :: 1 <= j < |q| ==> Before(lefts, j) == lefts[j - 1];
  }

  lemma PutSleepCells(v: View, p: Pcb, left: nat) returns (i: nat)
    requires Fine(v, p)
    ensures i == Place(Sleepers(v.sleepQ, v.lefts), left) <= |v.sleepQ| == |v.lefts|
    ensures var v' := PutSleep(v, p, left);
      && v'.h.Keys == v.h.Keys
      && v'.h[p] == Cell(if i < |v.sleepQ| then v.sleepQ[i] else null, Sleeping, v.h[p].pid, left - Before(v.lefts, i))
      && (forall x :: x in v.h && x != p ==>
            v'.h[x].pid == v.h[x].pid && v'.h[x].state == v.h[x].state && (x !in v.sleepQ ==> v'.h[x] == v.h[x]))
      && (forall j :: 0 <= j < |v.sleepQ| ==>
            v.sleepQ[j] in v.h && v'.h[v.sleepQ[j]].next == (if j + 1 == i then p else v.h[v.sleepQ[j]].next))
      && (forall j :: 0 <= j < |v.sleepQ| ==>
            v.sleepQ[j] in v.h
            && v'.h[v.sleepQ[j]].ticks == (if j == i then v.lefts[i] - left else v.h[v.sleepQ[j]].ticks))
    ensures Before(v.lefts, i) <= left && (i < |v.lefts| ==> left <= v.lefts[i])
  {
    hide Chain, Linked, Before, Table, ReadyList, Settled;
    PlaceBefore(v, left);
    i := Place(Sleepers(v.sleepQ, v.lefts), left);
    LinkedCells(v.h, v.sleepQ, v.headsleeper, v.lefts, i, p, left);
  }

  lemma PutSleepQueues(v: View, p: Pcb, left: nat, i: nat)
    requires Fine(v, p) && i == Place(Sleepers(v.sleepQ, v.lefts), left) && i <= |v.sleepQ| == |v.lefts|
    ensures var v' := PutSleep(v, p, left);
      && v'.readyQ == v.readyQ && v'.head == v.head && v'.tail == v.tail && v'.idle == v.idle
      && v'.sleepQ == v.sleepQ[..i] + [p] + v.sleepQ[i..] && v'.lefts == v.lefts[..i] + [left] + v.lefts[i..]
      && v'.headsleeper == if i == 0 then p else v.headsleeper
  {
    hide Table, ReadyList, SleepList, Settled, Linked, Place, Before;
  }

  lemma PutSleepLists(v: View, p: Pcb, left: nat)
    requires Fine(v, p) && p != v.idle
    ensures ReadyList(PutSleep(v, p, left)) && SleepList(PutSleep(v, p, left))
  {
    hide Table, Chain, Relative, Settled, Before, PutSleep;
    ApartLists(v);
    var v' := PutSleep(v, p, left);
    var i := PutSleepCells(v, p, left);
    PutSleepQueues(v, p, left, i);
    ChainInsert(v.h, v'.h, v.sleepQ, v.headsleeper, i, p);
    RelativeInsert(v.h, v'.h, v.sleepQ, v.lefts, i, p, left);
    ChainFrame(v.h, v'.h, v.readyQ, v.head);
    InsertMembers(v.sleepQ, i, p);
  }

  lemma InsertMembers(q: seq<Pcb>, i: nat, p: Pcb)
    requires i <= |q|
    ensures forall x :: x in q[..i] + [p] + q[i..] <==> x in q || x == p
  {
    assert q == q[..i] + q[i..];
  }

  lemma PutSleepFine(v: View, p: Pcb, left: nat)
    requires Fine(v, p) && p != v.idle
    ensures Fine(PutSleep(v, p, left), null)
  {
    hide ReadyList, SleepList, Settled, Linked, Place, Before;
    PutSleepLists(v, p, left);
    var i := PutSleepCells(v, p, left);
    TableFrame(v, PutSleep(v, p, left));
    PutSleepSettled(v, p, left);
  }

  lemma PutSleepSettled(v: View, p: Pcb, left: nat)
    requires Fine(v, p)
    ensures SettledBut(PutSleep(v, p, left), null)
  {
    hide ReadyList, SleepList, Linked, Place, Before, Table;
    var v' := PutSleep(v, p, left);
    var i := PutSleepCells(v, p, left);
    InsertMembers(v.sleepQ, i, p);
    forall q | q in v'.h
      ensures Settled(v', q)
    {
      if q != p {
        assert Settled(v, q);
      }
    }
  }

  lemma PutSleepAbs(v: View, p: Pcb, left: nat)
    requires Fine(v, p)
    ensures |PutSleep(v, p, left).sleepQ| == |PutSleep(v, p, left).lefts| && |v.sleepQ| == |v.lefts|
    ensures Abs(PutSleep(v, p, left)) == Abs(v).(sleepers := Inserted(Sleepers(v.sleepQ, v.lefts), p.slot, left))
  {
    hide ReadyList, Settled, Linked, Place, Before, Table;
    PlaceBefore(v, left);
    var i := Place(Sleepers(v.sleepQ, v.lefts), left);
    var v' := PutSleep(v, p, left);
    assert Sleepers(v'.sleepQ, v'.lefts) == Inserted(Sleepers(v.sleepQ, v.lefts), p.slot, left);
  }

  // ----- tick

  /** n ticks less for the first sleeper, and so for all. */
  ghost function Sooner(v: View, n: nat): View
    requires v.headsleeper != null && v.headsleeper in v.h && n <= v.h[v.headsleeper].ticks
    requires forall i :: 0 <= i < |v.lefts| ==> n <= v.lefts[i]
  {
    v.(h := v.h[v.headsleeper := v.h[v.headsleeper].(ticks := v.h[v.headsleeper].ticks - n)],
       lefts := seq(|v.lefts|, i requires 0 <= i < |v.lefts| => v.lefts[i] - n))
  }

  lemma SleeperKnown(v: View)
    requires SleepList(v)
    ensures |v.sleepQ| == |v.lefts| && (v.sleepQ == [] <==> v.headsleeper == null)
    ensures v.sleepQ != [] ==> v.headsleeper == v.sleepQ[0] && v.headsleeper in v.h
    ensures v.sleepQ != [] ==> v.h[v.headsleeper].ticks == v.lefts[0]
    ensures v.sleepQ != [] ==> v.h[v.headsleeper].next == if |v.sleepQ| > 1 then v.sleepQ[1] else null
    ensures forall i :: 0 <= i < |v.lefts| ==> v.lefts[0] <= v.lefts[i]
  {
    if v.sleepQ != [] {
      forall i | 0 <= i < |v.lefts|
        ensures v.lefts[0] <= v.lefts[i]
      {
        FirstSoonest(v.h, v.sleepQ, v.lefts, i);
      }
    }
  }

  lemma {:induction false} FirstSoonest(h: cells, q: seq<Pcb>, lefts: seq<nat>, i: nat)
    requires Relative(h, q, lefts) && i < |q|
    ensures lefts[0] <= lefts[i]
  {
    if i > 0 {
      FirstSoonest(h, q, lefts, i - 1);
    }
  }

  lemma SoonerFine(v: View, n: nat)
    requires Fine(v, null) && v.sleepQ != [] && |v.lefts| > 0 && n <= v.lefts[0]
    ensures v.headsleeper != null && v.headsleeper in v.h && n <= v.h[v.headsleeper].ticks
    ensures forall i :: 0 <= i < |v.lefts| ==> n <= v.lefts[i]
    ensures Fine(Sooner(v, n), null)
  {
    hide Chain, Settled;
    SleeperKnown(v);
    var v' := Sooner(v, n);
    TableFrame(v, v');
    ChainFrame(v.h, v'.h, v.sleepQ, v.headsleeper);
    ChainFrame(v.h, v'.h, v.readyQ, v.head);
    SoonerRelative(v, n);
    SoonerSettled(v, v');
  }

  lemma SoonerRelative(v: View, n: nat)
    requires SleepList(v) && v.sleepQ != [] && v.headsleeper == v.sleepQ[0] && v.headsleeper in v.h
    requires n <= v.h[v.headsleeper].ticks
    requires forall i :: 0 <= i < |v.lefts| ==> n <= v.lefts[i]
    ensures Relative(Sooner(v, n).h, v.sleepQ, Sooner(v, n).lefts)
  {
  }

  lemma SoonerSettled(v: View, v': View)
    requires SettledBut(v, null) && v'.h.Keys == v.h.Keys && v'.idle == v.idle && v'.running == v.running
    requires v'.readyQ == v.readyQ && v'.sleepQ == v.sleepQ
    requires forall p :: p in v.h ==> v'.h[p].state == v.h[p].state && v'.h[p].next == v.h[p].next
    ensures SettledBut(v', null)
  {
    forall q | q in v'.h
      ensures Settled(v', q)
    {
      assert Settled(v, q);
    }
  }

  /** The first sleeper, whose time is up, leaves the list. */
  ghost function PopSleeper(v: View): View
    requires v.headsleeper != null && v.headsleeper in v.h && v.sleepQ != [] && v.lefts != []
  {
    v.(h := v.h[v.headsleeper := v.h[v.headsleeper].(next := null)], headsleeper := v.h[v.headsleeper].next,
       sleepQ := v.sleepQ[1..], lefts := v.lefts[1..])
  }

  lemma PopSleeperLists(v: View)
    requires Fine(v, null) && v.sleepQ != [] && v.lefts != [] && v.lefts[0] == 0
    ensures v.headsleeper == v.sleepQ[0] && v.headsleeper in v.h && SleepList(PopSleeper(v)) && ReadyList(PopSleeper(v))
  {
    hide Table, Chain, Settled;
    SleeperKnown(v);
    ApartLists(v);
    var v' := PopSleeper(v);
    ChainTail(v.h, v'.h, v.sleepQ, v.headsleeper);
    ChainFrame(v.h, v'.h, v.readyQ, v.head);
    PopRelative(v.h, v'.h, v.sleepQ, v.lefts);
  }

  lemma PopRelative(h: cells, h': cells, q: seq<Pcb>, lefts: seq<nat>)
    requires Relative(h, q, lefts) && q != [] && lefts[0] == 0 && h' == h[q[0] := h[q[0]].(next := null)]
    ensures Relative(h', q[1..], lefts[1..])
  {
    var t, l := q[1..], lefts[1..];
    assert forall i :: 0 <= i < |t| ==> t[i] == q[i + 1] && l[i] == lefts[i + 1];
  }

  lemma PopSleeperFine(v: View)
    requires Fine(v, null) && v.sleepQ != [] && v.lefts != [] && v.lefts[0] == 0
    ensures v.headsleeper == v.sleepQ[0] && v.headsleeper in v.h && Fine(PopSleeper(v), v.headsleeper)
    ensures v.headsleeper != v.idle && v.h[v.headsleeper].state == Sleeping
  {
    hide Chain, Relative;
    SleeperKnown(v);
    PopSleeperLists(v);
    ApartLists(v);
    var v' := PopSleeper(v);
    TableFrame(v, v');
    ChainTail(v.h, v'.h, v.sleepQ, v.headsleeper);
    PopSleeperSettled(v);
  }

  lemma PopSleeperSettled(v: View)
    requires SettledBut(v, null) && v.sleepQ != [] && v.lefts != [] && v.headsleeper == v.sleepQ[0]
    requires v.headsleeper in v.h
    ensures forall p :: p in v.h && p != v.headsleeper ==> Settled(PopSleeper(v), p)
  {
    var v' := PopSleeper(v);
    forall p | p in v'.h && p != v.headsleeper
      ensures Settled(v', p)
    {
      assert Settled(v, p);
      assert p in v.sleepQ ==> p in v.sleepQ[1..];
    }
  }
}
