/**
 Delivery of signals to one process (c/disp.c:194-241, 418-498, and c/signal.c): masks of
 pending, allowed and currently acceptable signals, and frames on the process's stack
 that hold what a handler interrupted.
 */
module Signals {
  import opened Words
  import opened Masks
  import opened Wrappers

  const MAXSIGNAL: nat := 31
  const MINSIGNAL: nat := 0

  const SIGHDLR_OK: int := 0
  const INVALID_SIGNAL: int := -1
  const EINTR: int := -128

  /** sizeof(sigtramp_setup_frame), and the words it is filled with first. */
  const FRAME: nat := 68
  const FILL: word := 0x8181_8181

  /** INTR_ENA_EFLAGS, the flags a handler starts with. */
  const EFLAGS: word := 0x3200

  /** The address of sigtramp, and the code segment. */
  datatype Machine = Machine(sigtramp: word, cs: word)

  // ----- masks

  /** Accepts the signals above s. */
  function PriorityMask(s: nat): nat
    requires s <= MAXSIGNAL
  {
    if s == MAXSIGNAL then 0 else Shl(WORD - 1, s + 1)
  }

  lemma PriorityMembers(s: nat)
    requires s <= MAXSIGNAL
    ensures PriorityMask(s) < WORD && Members(PriorityMask(s)) == Range(s + 1, 32)
  {
    if s == MAXSIGNAL {
      MembersNone(0);
    } else {
      MembersHigh(s + 1);
    }
  }

  /** `mask & (1 << i)`. */
  predicate Test(mask: nat, i: nat) {
    And(mask, Shl(1, i)) != 0
  }

  lemma TestMembers(mask: nat, i: nat)
    requires i < 32
    ensures Test(mask, i) <==> i in Members(mask)
  {
    hide And, Shr;
    MembersOne(i);
    AndBit(mask, i);
  }

  function HighestFrom(mask: nat, i: nat): int {
    if Test(mask, i) then i else if i == 0 then -1 else HighestFrom(mask, i - 1)
  }

  /** get_next_signal: the highest bit. */
  method GetNextSignal(pending: nat) returns (r: int)
    ensures r == HighestFrom(pending, MAXSIGNAL)
  {
    var i := MAXSIGNAL;
    while i >= 0
      invariant -1 <= i <= MAXSIGNAL
      invariant HighestFrom(pending, MAXSIGNAL) == if i < 0 then -1 else HighestFrom(pending, i)
    {
      if Test(pending, i) {
        return i;
      }
      i := i - 1;
    }
    r := -1;
  }

  lemma {:induction false} HighestIs(mask: nat, i: nat)
    requires i < 32
    ensures var r := HighestFrom(mask, i);
      && (r == -1 ==> forall b: nat :: b in Members(mask) ==> b > i)
      && (r != -1 ==> 0 <= r <= i && r in Members(mask) && forall b: nat :: b in Members(mask) ==> b <= r || b > i)
  {
    hide Members, Test;
    TestMembers(mask, i);
    if i > 0 {
      HighestIs(mask, i - 1);
    }
  }

  /** The highest pending signal, if any. */
  lemma HighestPending(mask: nat)
    requires mask < WORD
    ensures var r := HighestFrom(mask, MAXSIGNAL);
      && (r == -1 <==> mask == 0)
      && (mask != 0 ==> 0 <= r <= MAXSIGNAL && r in Members(mask) && forall b: nat :: b in Members(mask) ==> b <= r)
  {
    HighestIs(mask, MAXSIGNAL);
    MembersNone(mask);
  }

  /** The signal that is delivered next. */
  function Top(mask: nat): (r: int)
    requires mask < WORD
    ensures mask != 0 ==> 0 <= r <= MAXSIGNAL
  {
    HighestPending(mask);
    HighestFrom(mask, MAXSIGNAL)
  }

  function LowestFrom(mask: nat, i: nat): Option<int>
    requires i <= MAXSIGNAL
    decreases MAXSIGNAL - i
  {
    if i == MAXSIGNAL then None else if Test(mask, i) then Some(i) else LowestFrom(mask, i + 1)
  }

  /** pr_mask_to_signum; None is a result that was never assigned. */
  function Signum(mask: nat): Option<int> {
    if mask == 0 then Some(MAXSIGNAL)
    else if mask == WORD - 1 then Some(MINSIGNAL)
    else
      match LowestFrom(mask, 0)
      case None => None
      case Some(i) => Some(i - 1)
  }

  method PrMaskToSignum(mask: nat) returns (r: Option<int>)
    ensures r == Signum(mask)
  {
    if mask == 0 {
      return Some(MAXSIGNAL);
    }
    if mask == WORD - 1 {
      return Some(MINSIGNAL);
    }
    r := None;
    var i := 0;
    while i < MAXSIGNAL
      invariant 0 <= i <= MAXSIGNAL && LowestFrom(mask, 0) == LowestFrom(mask, i)
    {
      if Test(mask, i) {
        return Some(i - 1);
      }
      i := i + 1;
    }
  }

  lemma {:induction false} LowestIs(mask: nat, i: nat, k: nat)
    requires i <= k <= MAXSIGNAL && Members(mask) == Range(k, 32)
    ensures LowestFrom(mask, i) == if k < MAXSIGNAL then Some(k) else None
    decreases k - i
  {
    TestMembers(mask, i);
    if i < k {
      LowestIs(mask, i + 1, k);
    }
  }

  /** A signal's priority mask says which signal it is, except for signal 30. */
  lemma MaskSaysSignal(s: nat)
    requires s <= MAXSIGNAL
    ensures Signum(PriorityMask(s)) == Some(s) <==> s != 30
  {
    hide Members, LowestFrom;
    PriorityMembers(s);
    if s < MAXSIGNAL {
      MembersNone(PriorityMask(s));
      assert s + 1 in Members(PriorityMask(s));
      assert PriorityMask(s) != WORD - 1 by {
        MembersHigh(s + 1);
        Pow2Strict(0, s + 1);
      }
      LowestIs(PriorityMask(s), 0, s + 1);
    }
  }

  // ----- a process and what signals do to it

  /** The fields of a pcb that signals concern, and the memory its stack is in. */
  datatype Proc = Proc(esp: word, ret: int32, pending: word, allow: word, priority: word, waiter: int,
                       handlers: seq<word>, mem: map<int, word>)

  /** The 32-bit word at an address. */
  function Word(mem: map<int, word>, a: int): word {
    if a in mem then mem[a] else 0
  }

  /** The words ws stored from address a upwards. */
  function Written(mem: map<int, word>, a: int, ws: seq<word>): map<int, word>
    decreases |ws|
  {
    if ws == [] then mem else Written(mem[a := ws[0]], a + 4, ws[1..])
  }

  lemma {:induction false} WrittenAt(mem: map<int, word>, a: int, ws: seq<word>)
    ensures forall i :: 0 <= i < |ws| ==> Word(Written(mem, a, ws), a + 4 * i) == ws[i]
    ensures forall b :: b < a || a + 4 * |ws| <= b ==> Word(Written(mem, a, ws), b) == Word(mem, b)
    decreases |ws|
  {
    if ws != [] {
      WrittenAt(mem[a := ws[0]], a + 4, ws[1..]);
      forall i | 0 <= i < |ws|
        ensures Word(Written(mem, a, ws), a + 4 * i) == ws[i]
      {
        if i > 0 {
          assert a + 4 * i == (a + 4) + 4 * (i - 1);
        }
      }
    }
  }

  lemma WrittenStep(mem: map<int, word>, a: int, ws: seq<word>, i: nat)
    requires i < |ws|
    ensures Written(mem, a, ws[i..]) == Written(mem[a := ws[i]], a + 4, ws[i + 1..])
  {
    assert ws[i..][1..] == ws[i + 1..];
  }

  /** The frame from which the process will continue in sigtramp. */
  function FrameWords(m: Machine, p: Proc, s: nat): (r: seq<word>)
    requires s < |p.handlers|
    ensures |r| == 17
  {
    [FILL, FILL, p.esp, p.esp, FILL, FILL, FILL, FILL, m.sigtramp, m.cs, EFLAGS, Word(p.mem, p.esp + 8),
     p.handlers[s], p.esp, p.esp, p.priority, Unsigned(p.ret)]
  }

  /**
   The frame at a, by the offsets of its fields: ebp and esp, what iret and sigtramp take, and
   what sigreturn will need.
   */
  ghost predicate FrameAt(m: Machine, mem: map<int, word>, a: int, p: Proc, handler: word) {
    && Word(mem, a + 8) == p.esp && Word(mem, a + 12) == p.esp
    && Word(mem, a + 32) == m.sigtramp && Word(mem, a + 36) == m.cs && Word(mem, a + 40) == 0x3200
    && Word(mem, a + 44) == Word(p.mem, p.esp + 8)
    && Word(mem, a + 48) == handler && Word(mem, a + 52) == p.esp && Word(mem, a + 56) == p.esp
    && Word(mem, a + 60) == p.priority && Signed(Word(mem, a + 64)) == p.ret
    && forall b :: b < a || a + 68 <= b ==> Word(mem, b) == Word(p.mem, b)
  }

  lemma FrameIs(m: Machine, p: Proc, s: nat, a: int)
    requires s < |p.handlers|
    ensures FrameAt(m, Written(p.mem, a, FrameWords(m, p, s)), a, p, p.handlers[s])
  {
    hide Written, Word;
    var ws := FrameWords(m, p, s);
    var mem := Written(p.mem, a, ws);
    WrittenAt(p.mem, a, ws);
    assert Word(mem, a + 4 * 2) == ws[2] && Word(mem, a + 4 * 3) == ws[3] && Word(mem, a + 4 * 8) == ws[8];
    assert Word(mem, a + 4 * 9) == ws[9] && Word(mem, a + 4 * 10) == ws[10] && Word(mem, a + 4 * 11) == ws[11];
    assert Word(mem, a + 4 * 12) == ws[12] && Word(mem, a + 4 * 13) == ws[13] && Word(mem, a + 4 * 14) == ws[14];
    assert Word(mem, a + 4 * 15) == ws[15] && Word(mem, a + 4 * 16) == ws[16];
  }

  /** The condition under which a signal is delivered. */
  predicate Deliverable(p: Proc) {
    p.pending > 0 && And(And(p.pending, p.allow), p.priority) != 0
  }

  /** A signal is delivered when some signal is pending, allowed and acceptable. */
  lemma DeliverableMeans(p: Proc)
    ensures Deliverable(p) <==> Members(p.pending) * Members(p.allow) * Members(p.priority) != {}
  {
    hide Members, And;
    MembersNone(p.pending);
    MembersAnd(p.pending, p.allow);
    MembersAnd(And(p.pending, p.allow), p.priority);
    AndBound(p.pending, p.allow);
    AndBound(And(p.pending, p.allow), p.priority);
    MembersNone(And(And(p.pending, p.allow), p.priority));
  }

  function PriorityWord(s: nat): word
    requires s <= MAXSIGNAL
  {
    PriorityMembers(s);
    PriorityMask(s)
  }

  /** The process with the handler of signal s about to start. */
  function Started(m: Machine, p: Proc, s: nat): Proc
    requires s < |p.handlers| && s <= MAXSIGNAL && p.esp >= FRAME
  {
    p.(mem := Written(p.mem, p.esp - FRAME, FrameWords(m, p, s)), esp := p.esp - FRAME, priority := PriorityWord(s))
  }

  /** The pending signals without signal s. */
  function Cleared(pending: word, s: nat): word
    requires s <= MAXSIGNAL
  {
    MembersOne(s);
    AndBound(pending, Not(Shl(1, s)));
    And(pending, Not(Shl(1, s)))
  }

  lemma ClearedMembers(pending: word, s: nat)
    requires s <= MAXSIGNAL
    ensures Members(Cleared(pending, s)) == Members(pending) - {s}
  {
    MembersOne(s);
    MembersNot(Shl(1, s));
    MembersAnd(pending, Not(Shl(1, s)));
  }

  /** The process after its handler of signal s returned to the stack pointer sp. */
  function Resumed(p: Proc, sp: word, s: nat): Proc
    requires s <= MAXSIGNAL
  {
    var pending := Cleared(p.pending, s);
    p.(priority := Word(p.mem, sp - 8),
       esp := sp,
       pending := pending,
       ret := if pending != 0 then Signed(Word(p.mem, sp - 4)) else if p.waiter == 1 then s else EINTR,
       waiter := if pending == 0 && p.waiter == 1 then 0 else p.waiter)
  }

  /** Signal s becomes pending. */
  function Notified(p: Proc, s: nat): Proc
    requires s <= MAXSIGNAL
  {
    Pow2Values();
    MembersOne(s);
    OrBound(p.pending, Shl(1, s), 32);
    p.(pending := Or(p.pending, Shl(1, s)))
  }

  lemma NotifiedMembers(p: Proc, s: nat)
    requires s <= MAXSIGNAL
    ensures Members(Notified(p, s).pending) == Members(p.pending) + {s}
  {
    MembersOne(s);
    MembersOr(p.pending, Shl(1, s));
  }

  /** Handler h is installed for signal s; a null handler takes s out of the allowed signals. */
  function Installed(p: Proc, s: nat, h: word): Proc
    requires s < |p.handlers| && s <= MAXSIGNAL
  {
    Pow2Values();
    MembersOne(s);
    OrBound(p.allow, Shl(1, s), 32);
    p.(handlers := p.handlers[s := h], allow := if h == 0 then Cleared(p.allow, s) else Or(p.allow, Shl(1, s)))
  }

  lemma InstalledMembers(p: Proc, s: nat, h: word)
    requires s < |p.handlers| && s <= MAXSIGNAL
    ensures Members(Installed(p, s, h).allow) == if h == 0 then Members(p.allow) - {s} else Members(p.allow) + {s}
  {
    MembersOne(s);
    MembersOr(p.allow, Shl(1, s));
    ClearedMembers(p.allow, s);
  }

  /** A process as create leaves it: no signal pending or allowed, none masked. */
  function Created(esp: word, mem: map<int, word>): Proc {
    Proc(esp, 0, 0, 0, WORD - 1, 0, seq(31, _ => 0), mem)
  }

  // ----- the pcb

  class Process {
    const m: Machine
    var esp: word
    var ret: int32
    var sigPending: word
    var sigAllow: word
    var sigPriority: word
    var sigwaiter: int
    var sigHandler: seq<word>
    var mem: map<int, word>

    ghost function State(): Proc
      reads this
    {
      Proc(esp, ret, sigPending, sigAllow, sigPriority, sigwaiter, sigHandler, mem)
    }

    /**
     The handler of signal s, the greatest one pending, is about to start on top of what the
     process was doing, and only greater signals are accepted; nothing else has changed.
     */
    ghost predicate HandlerStarts(p: Proc, s: int)
      reads this
    {
      && 0 <= s <= 31 && s in Members(p.pending) && (forall b: nat :: b in Members(p.pending) ==> b <= s)
      && s < |p.handlers| && esp == p.esp - 68 && FrameAt(m, mem, esp, p, p.handlers[s])
      && Members(sigPriority) == Range(s + 1, 32)
      && ret == p.ret && sigPending == p.pending && sigAllow == p.allow && sigwaiter == p.waiter
      && sigHandler == p.handlers
    }

    /** A new process. */
    constructor (m: Machine, esp: word, mem: map<int, word>)
      ensures this.m == m && State() == Created(esp, mem)
    {
      this.m, this.esp, this.mem := m, esp, mem;
      ret, sigPending, sigAllow, sigPriority, sigwaiter := 0, 0, 0, WORD - 1, 0;
      sigHandler := seq(31, _ => 0);
    }

    /** memset of the frame and its fields, in order of their addresses. */
    method ModifyProcessStack(signum: nat)
      requires signum < |sigHandler| && esp >= FRAME
      modifies this`esp, this`mem
      ensures esp == old(esp) - FRAME && mem == Written(old(mem), esp, FrameWords(m, old(State()), signum))
      ensures esp == old(esp) - 68 && FrameAt(m, mem, esp, old(State()), old(sigHandler)[signum])
    {
      hide FrameWords, FrameAt;
      var words := FrameWords(m, Proc(esp, ret, sigPending, sigAllow, sigPriority, sigwaiter, sigHandler, mem), signum);
      var newstackptr: word := esp - FRAME;
      var i := 0;
      while i < |words|
        invariant 0 <= i <= |words|
        invariant Written(mem, newstackptr + 4 * i, words[i..]) == Written(old(mem), newstackptr, words)
      {
        WrittenStep(mem, newstackptr + 4 * i, words, i);
        mem := mem[newstackptr + 4 * i := words[i]];
        i := i + 1;
      }
      FrameIs(m, old(State()), signum, newstackptr);
      esp := newstackptr;
    }

    /** deliver_signals_ifany: before the process is given the processor. */
    method DeliverSignalsIfAny()
      requires sigPending > 0 ==> Top(sigPending) < |sigHandler| && esp >= FRAME
      modifies this
      ensures State() ==
        if Deliverable(old(State())) then Started(m, old(State()), Top(old(sigPending))) else old(State())
      ensures Deliverable(old(State())) ==> HandlerStarts(old(State()), Top(old(sigPending)))
      ensures esp != old(esp) <==> Members(old(sigPending)) * Members(old(sigAllow)) * Members(old(sigPriority)) != {}
    {
      hide Written, FrameWords, And, PriorityMask, HighestFrom, FrameAt, Members;
      DeliverableMeans(State());
      if sigPending > 0 && And(And(sigPending, sigAllow), sigPriority) != 0 {
        var signum := GetNextSignal(sigPending);
        assert signum == Top(sigPending);
        var priorityMask := PriorityWord(signum);
        HighestPending(sigPending);
        PriorityMembers(signum);
        ModifyProcessStack(signum);
        sigPriority := priorityMask;
      }
    }

    /** SYS_SIGRETURN. */
    method SigReturn(oldStackptr: word)
      requires Signum(sigPriority).Some? && 0 <= Signum(sigPriority).value <= MAXSIGNAL
      modifies this
      ensures State() == Resumed(old(State()), oldStackptr, Signum(old(sigPriority)).value)
      ensures esp == oldStackptr && sigPriority == Word(mem, oldStackptr - 8)
      ensures Members(sigPending) == Members(old(sigPending)) - {Signum(old(sigPriority)).value}
      ensures ret == if sigPending != 0 then Signed(Word(mem, oldStackptr - 4))
                     else if old(sigwaiter) == 1 then Signum(old(sigPriority)).value else -128
      ensures sigwaiter == if sigPending == 0 && old(sigwaiter) == 1 then 0 else old(sigwaiter)
      ensures sigAllow == old(sigAllow) && sigHandler == old(sigHandler) && mem == old(mem)
    {
      hide Members, Cleared, LowestFrom;
      ClearedMembers(sigPending, Signum(sigPriority).value);
      var signo := PrMaskToSignum(sigPriority);
      var completed := signo.value;
      var savedPriorityMask := Word(mem, oldStackptr - 8);
      var savedReturn := Word(mem, oldStackptr - 4);
      sigPriority := savedPriorityMask;
      ret := Signed(savedReturn);
      esp := oldStackptr;
      sigPending := Cleared(sigPending, completed);
      if sigPending == 0 {
        if sigwaiter == 1 {
          ret := completed;
          sigwaiter := 0;
        } else {
          ret := EINTR;
        }
      }
    }

    /** SYS_SIGKILL for this target; what is compared with the signal numbers is the pid. */
    method Signal(pid: int, sigNo: nat) returns (r: int)
      requires sigNo <= MAXSIGNAL
      modifies this`sigPending
      ensures r == if 0 <= pid <= 31 && sigNo in Members(sigAllow) then 0 else -1
      ensures State() == if r == 0 then Notified(old(State()), sigNo) else old(State())
      ensures Members(sigPending) == Members(old(sigPending)) + if r == 0 then {sigNo} else {}
    {
      hide Members, Test, Or;
      TestMembers(sigAllow, sigNo);
      if pid < MINSIGNAL || pid > MAXSIGNAL {
        return INVALID_SIGNAL;
      }
      if !Test(sigAllow, sigNo) {
        return INVALID_SIGNAL;
      }
      var p := Proc(esp, ret, sigPending, sigAllow, sigPriority, sigwaiter, sigHandler, mem);
      NotifiedMembers(p, sigNo);
      sigPending := Notified(p, sigNo).pending;
      r := SIGHDLR_OK;
    }

    /** SYS_SIGHANDLER; the old handler is not given back when the number is not a signal's. */
    method SigHandler(signum: int, fp: word) returns (old_fp: Option<word>)
      requires |sigHandler| == 31 && signum != MAXSIGNAL
      modifies this`ret, this`sigHandler, this`sigAllow
      ensures old_fp == if 0 <= signum < 31 then Some(old(sigHandler)[signum]) else None
      ensures old_fp.Some? ==> State() == Installed(old(State()), signum, fp).(ret := 0)
      ensures old_fp.Some? ==> sigHandler == old(sigHandler)[signum := fp]
      ensures old_fp.Some? ==>
        Members(sigAllow) == if fp == 0 then Members(old(sigAllow)) - {signum} else Members(old(sigAllow)) + {signum}
      ensures old_fp.None? ==> State() == old(State()).(ret := -1)
    {
      hide Members, Or, Cleared;
      if signum < 0 || signum > MAXSIGNAL {
        ret := INVALID_SIGNAL;
        return None;
      }
      old_fp := Some(sigHandler[signum]);
      var p := Installed(Proc(esp, ret, sigPending, sigAllow, sigPriority, sigwaiter, sigHandler, mem), signum, fp);
      InstalledMembers(old(State()), signum, fp);
      sigHandler := sigHandler[signum := fp];
      sigAllow := p.allow;
      ret := SIGHDLR_OK;
    }
  }
}
