/**
 Runs of one process under signals: what holds in every run of deliveries, returns,
 kills, installations of handlers, and the process's own steps in between. What a move
 does to the process are the functions that the methods of Signals.Process compute.
 */
module SignalRuns {
  import opened Words
  import opened Masks
  import opened Wrappers
  import opened Signals

  /** An active handler: its signal, where its frame is, and what its delivery saved. */
  datatype Frame = Frame(sig: nat, base: word, sp: word, mask: word, ret: int32)

  /** Where in a frame sigtramp's third argument, the saved mask and the saved return value are. */
  const OLD_SP: nat := 56
  const SAVED_MASK: nat := 60
  const SAVED_RET: nat := 64

  datatype Config = Config(p: Proc, active: seq<Frame>)

  datatype Move =
    | Deliver
    | Return
    | Kill(sig: nat)
    | Install(sig: nat, handler: word)
    | Execute(next: Proc)

  // ----- what every run keeps

  /** What `sig_priority` is when the first n handlers are active. */
  function MaskAt(active: seq<Frame>, n: nat): word
    requires n <= |active|
  {
    if n == 0 then WORD - 1 else if active[n - 1].sig <= MAXSIGNAL then PriorityWord(active[n - 1].sig) else 0
  }

  /** The signals are the ones of installed handlers, and below 30. */
  ghost predicate Masked(p: Proc) {
    && |p.handlers| == 31
    && Members(p.pending) <= Members(p.allow)
    && (forall s: nat :: s in Members(p.allow) ==> s < 30)
  }

  /** Active signals increase up the stack, and are still pending. */
  ghost predicate Nested(c: Config) {
    && (forall i :: 0 <= i < |c.active| ==> c.active[i].sig < 30 && c.active[i].sig in Members(c.p.pending))
    && (forall i, j :: 0 <= i < j < |c.active| ==> c.active[i].sig < c.active[j].sig)
  }

  /** The frame was pushed at the saved stack pointer, and its words in memory are what was saved. */
  ghost predicate Holds(mem: map<int, word>, f: Frame) {
    && f.base + FRAME == f.sp
    && Word(mem, f.base + OLD_SP) == f.sp
    && Word(mem, f.base + SAVED_MASK) == f.mask
    && Word(mem, f.base + SAVED_RET) == Unsigned(f.ret)
  }

  /** Each frame holds what its delivery saved, and was pushed below the ones before it. */
  ghost predicate Stacked(c: Config) {
    && (forall i :: 0 <= i < |c.active| ==> Holds(c.p.mem, c.active[i]) && c.p.esp <= c.active[i].base)
    && (forall i, j :: 0 <= i < j < |c.active| ==> c.active[j].sp <= c.active[i].base)
  }

  /** What each handler interrupted is the one below it. */
  ghost predicate Chained(c: Config) {
    && c.p.priority == MaskAt(c.active, |c.active|)
    && forall i :: 0 <= i < |c.active| ==> c.active[i].mask == MaskAt(c.active, i)
  }

  ghost predicate Valid(c: Config) {
    Masked(c.p) && Nested(c) && Stacked(c) && Chained(c)
  }

  // ----- moves

  /** The process runs by itself: it keeps its frames and stays below them. */
  ghost predicate Executes(c: Config, q: Proc) {
    && q.pending == c.p.pending && q.allow == c.p.allow && q.priority == c.p.priority && q.handlers == c.p.handlers
    && forall f :: f in c.active ==> q.esp <= f.base && SameWords(c.p.mem, q.mem, f)
  }

  /** The three words of a frame that are still needed are as they were. */
  ghost predicate SameWords(mem: map<int, word>, mem': map<int, word>, f: Frame) {
    && Word(mem', f.base + OLD_SP) == Word(mem, f.base + OLD_SP)
    && Word(mem', f.base + SAVED_MASK) == Word(mem, f.base + SAVED_MASK)
    && Word(mem', f.base + SAVED_RET) == Word(mem, f.base + SAVED_RET)
  }

  ghost predicate Legal(c: Config, v: Move) {
    match v
    case Deliver => Deliverable(c.p) && c.p.esp >= FRAME
    case Return => c.active != []
    case Kill(s) => s < 30 && Test(c.p.allow, s)
    case Install(s, h) => s < 30 && (h != 0 || !Test(c.p.pending, s))
    case Execute(q) => Executes(c, q)
  }

  function Last(active: seq<Frame>): Frame
    requires active != []
  {
    active[|active| - 1]
  }

  /** sigtramp's third argument, which it passes on to sigreturn, as it is in the topmost frame's memory. */
  function ReturnTo(c: Config): word
    requires c.active != []
  {
    Word(c.p.mem, Last(c.active).base + OLD_SP)
  }

  /**
   The configuration after a move. A return goes to the stack pointer that it finds in
   the frame, and names its signal by the priority mask.
   */
  function Apply(m: Machine, c: Config, v: Move): Config {
    match v
    case Deliver =>
      var s := Top(c.p.pending);
      if 0 <= s < |c.p.handlers| && s <= MAXSIGNAL && c.p.esp >= FRAME then
        Config(Started(m, c.p, s), c.active + [Frame(s, c.p.esp - FRAME, c.p.esp, c.p.priority, c.p.ret)])
      else c
    case Return =>
      var s := Signum(c.p.priority);
      if c.active != [] && s.Some? && 0 <= s.value <= MAXSIGNAL then
        Config(Resumed(c.p, ReturnTo(c), s.value), c.active[..|c.active| - 1])
      else c
    case Kill(s) => if s <= MAXSIGNAL then Config(Notified(c.p, s), c.active) else c
    case Install(s, h) => if s < |c.p.handlers| && s <= MAXSIGNAL then Config(Installed(c.p, s, h), c.active) else c
    case Execute(q) => Config(q, c.active)
  }

  /** What is deliverable is more urgent than everything active, and has a handler. */
  lemma DeliverableAbove(c: Config)
    requires Valid(c) && Deliverable(c.p)
    ensures var s := Top(c.p.pending); 0 <= s < 30 && s in Members(c.p.pending)
    ensures forall i :: 0 <= i < |c.active| ==> c.active[i].sig < Top(c.p.pending)
    ensures forall b: nat :: b in Members(c.p.pending) ==> b <= Top(c.p.pending)
  {
    hide Members, Masked, Nested, Stacked, Chained, Deliverable, Top, PriorityWord;
    TopMember(c.p);
    PendingBelow(c.p, Top(c.p.pending));
    if c.active != [] {
      DeliverableMeans(c.p);
      var b :| b in Members(c.p.pending) * Members(c.p.allow) * Members(c.p.priority);
      TopNested(c);
      TopChained(c);
      AboveTop(c.p, Last(c.active).sig, b);
    }
  }

  lemma TopMember(p: Proc)
    requires Deliverable(p)
    ensures 0 <= Top(p.pending) && Top(p.pending) in Members(p.pending)
    ensures forall b: nat :: b in Members(p.pending) ==> b <= Top(p.pending)
  {
    hide Members, And, HighestFrom;
    HighestPending(p.pending);
  }

  lemma PendingBelow(p: Proc, s: int)
    requires Masked(p) && s >= 0 && s in Members(p.pending)
    ensures s < 30
  {
    hide Members;
  }

  lemma AboveTop(p: Proc, s: nat, b: nat)
    requires s <= MAXSIGNAL && p.priority == PriorityWord(s) && b in Members(p.priority)
    ensures s < b
  {
    hide Members;
    PriorityMembers(s);
  }

  /** The frame that a delivery pushes holds what was saved, and leaves the frames above alone. */
  lemma PushedFrame(m: Machine, p: Proc, s: nat, f: Frame)
    requires s < |p.handlers| && s <= MAXSIGNAL && p.esp >= FRAME
    ensures Holds(Started(m, p, s).mem, Frame(s, p.esp - FRAME, p.esp, p.priority, p.ret))
    ensures Holds(p.mem, f) && p.esp <= f.base ==> Holds(Started(m, p, s).mem, f)
  {
    hide PriorityWord, Written, Word;
    var mem, base, ws := Started(m, p, s).mem, p.esp - FRAME, FrameWords(m, p, s);
    WrittenAt(p.mem, base, ws);
    assert ws[14] == p.esp && ws[15] == p.priority && ws[16] == Unsigned(p.ret);
    assert Word(mem, base + 4 * 14) == ws[14];
    assert Word(mem, base + 4 * 15) == ws[15];
    assert Word(mem, base + 4 * 16) == ws[16];
  }

  lemma DeliverStacked(m: Machine, c: Config)
    requires Valid(c) && Deliverable(c.p) && c.p.esp >= FRAME
    ensures Stacked(Apply(m, c, Deliver))
  {
    hide Members, Deliverable, Top, Nested, Chained, Holds;
    DeliverableAbove(c);
    var s := Top(c.p.pending);
    var f := Frame(s, c.p.esp - FRAME, c.p.esp, c.p.priority, c.p.ret);
    PushedFrame(m, c.p, s, f);
    forall i | 0 <= i < |c.active|
      ensures Holds(Started(m, c.p, s).mem, c.active[i])
    {
      PushedFrame(m, c.p, s, c.active[i]);
    }
    StackedMore(c, Started(m, c.p, s), f);
  }

  lemma StackedMore(c: Config, p: Proc, f: Frame)
    requires Stacked(c) && f.sp == c.p.esp && p.esp == f.base && f.base + FRAME == f.sp && Holds(p.mem, f)
    requires forall i :: 0 <= i < |c.active| ==> Holds(p.mem, c.active[i])
    ensures Stacked(Config(p, c.active + [f]))
  {
    hide Holds;
  }

  /** The frame of the handler that is delivered next. */
  function Delivered(p: Proc): Frame
    requires p.pending != 0 && p.esp >= FRAME
  {
    Frame(Top(p.pending), p.esp - FRAME, p.esp, p.priority, p.ret)
  }

  lemma NestedMore(c: Config, p: Proc, f: Frame)
    requires Nested(c) && p.pending == c.p.pending && f.sig < 30 && f.sig in Members(p.pending)
    requires forall i :: 0 <= i < |c.active| ==> c.active[i].sig < f.sig
    ensures Nested(Config(p, c.active + [f]))
  {
    hide Members;
  }

  lemma ChainedMore(c: Config, p: Proc, f: Frame)
    requires Chained(c) && f.mask == c.p.priority && f.sig <= MAXSIGNAL && p.priority == PriorityWord(f.sig)
    ensures Chained(Config(p, c.active + [f]))
  {
    hide MaskAt;
    var active, n := c.active + [f], |c.active|;
    forall i | 0 <= i <= n
      ensures MaskAt(active, i) == MaskAt(c.active, i)
    {
      MaskPrefix(active, i, n);
      assert active[..n] == c.active;
    }
    MaskLast(active);
  }

  lemma MaskLast(active: seq<Frame>)
    requires active != [] && Last(active).sig <= MAXSIGNAL
    ensures MaskAt(active, |active|) == PriorityWord(Last(active).sig)
  {
    hide PriorityWord;
  }

  lemma DeliverValid(m: Machine, c: Config)
    requires Valid(c) && Legal(c, Deliver)
    ensures Valid(Apply(m, c, Deliver))
    ensures Apply(m, c, Deliver).active == c.active + [Delivered(c.p)]
  {
    hide Members, Nested, Stacked, Chained, PriorityWord, Deliverable, Written, FrameWords, Top;
    PendingSome(c.p);
    DeliverableAbove(c);
    DeliverStacked(m, c);
    var p, f := Started(m, c.p, Top(c.p.pending)), Delivered(c.p);
    NestedMore(c, p, f);
    ChainedMore(c, p, f);
  }

  /** A return restores what the matching delivery saved, and clears its own signal only. */
  lemma ReturnRestores(m: Machine, c: Config)
    requires Valid(c) && c.active != []
    ensures var p, f := Apply(m, c, Return).p, Last(c.active);
      && Signum(c.p.priority) == Some(f.sig)
      && p.esp == f.sp && p.priority == f.mask
      && Members(p.pending) == Members(c.p.pending) - {f.sig}
      && p.ret == (if p.pending != 0 then f.ret else if c.p.waiter == 1 then f.sig else -128)
      && p.waiter == (if p.pending == 0 && c.p.waiter == 1 then 0 else c.p.waiter)
      && p.allow == c.p.allow && p.handlers == c.p.handlers && p.mem == c.p.mem
    ensures Apply(m, c, Return).active == c.active[..|c.active| - 1]
  {
    hide Members, PriorityMask, Signum, Cleared, Valid, Word;
    var f := Last(c.active);
    TopFrame(c);
    MaskSaysSignal(f.sig);
    ClearedMembers(c.p.pending, f.sig);
    UnsignedInjective(f.ret, Signed(Unsigned(f.ret)));
  }

  lemma TopNested(c: Config)
    requires Nested(c) && c.active != []
    ensures Last(c.active).sig < 30 && Last(c.active).sig in Members(c.p.pending)
    ensures forall i :: 0 <= i < |c.active| ==> c.active[i].sig <= Last(c.active).sig
  {
    hide Members;
  }

  lemma TopChained(c: Config)
    requires Chained(c) && c.active != [] && Last(c.active).sig <= MAXSIGNAL
    ensures c.p.priority == PriorityWord(Last(c.active).sig)
  {
    hide PriorityWord;
  }

  lemma TopStacked(c: Config)
    requires Stacked(c) && c.active != []
    ensures Holds(c.p.mem, Last(c.active))
  {
    hide Holds;
  }

  lemma TopFrame(c: Config)
    requires Valid(c) && c.active != []
    ensures var f := Last(c.active);
      && f.sig < 30 && c.p.priority == PriorityWord(f.sig)
      && ReturnTo(c) == f.sp && Word(c.p.mem, f.sp - 8) == f.mask && Word(c.p.mem, f.sp - 4) == Unsigned(f.ret)
  {
    hide Members, PriorityWord, Word, Masked, Nested, Stacked, Chained, Last;
    TopNested(c);
    TopChained(c);
    TopStacked(c);
  }

  lemma UnsignedInjective(x: int32, y: int32)
    requires Unsigned(x) == Unsigned(y)
    ensures x == y
  {
  }

  lemma ReturnNested(c: Config, p: Proc)
    requires Nested(c) && c.active != [] && Members(p.pending) == Members(c.p.pending) - {Last(c.active).sig}
    ensures Nested(Config(p, c.active[..|c.active| - 1]))
  {
    hide Members;
  }

  lemma ReturnStacked(c: Config, p: Proc)
    requires Stacked(c) && c.active != [] && p.mem == c.p.mem && p.esp == Last(c.active).sp
    ensures Stacked(Config(p, c.active[..|c.active| - 1]))
  {
    hide Word;
  }

  lemma MaskPrefix(active: seq<Frame>, n: nat, k: nat)
    requires n <= k <= |active|
    ensures MaskAt(active[..k], n) == MaskAt(active, n)
  {
    hide PriorityWord;
  }

  lemma ReturnChained(c: Config, p: Proc)
    requires Chained(c) && c.active != [] && p.priority == Last(c.active).mask
    ensures Chained(Config(p, c.active[..|c.active| - 1]))
  {
    hide MaskAt;
    var k := |c.active| - 1;
    forall n | 0 <= n <= k
      ensures MaskAt(c.active[..k], n) == MaskAt(c.active, n)
    {
      MaskPrefix(c.active, n, k);
    }
  }

  lemma ReturnValid(m: Machine, c: Config)
    requires Valid(c) && Legal(c, Return)
    ensures Valid(Apply(m, c, Return))
  {
    hide Members, Nested, Stacked, Chained, Apply;
    ReturnRestores(m, c);
    var p := Apply(m, c, Return).p;
    ReturnNested(c, p);
    ReturnStacked(c, p);
    ReturnChained(c, p);
  }

  /** More signals pending, with the same stack. */
  lemma Widen(c: Config, q: Proc)
    requires Valid(c) && Masked(q) && q.esp == c.p.esp && q.mem == c.p.mem && q.priority == c.p.priority
    requires Members(c.p.pending) <= Members(q.pending)
    ensures Valid(Config(q, c.active))
  {
    hide Members, Masked, MaskAt, Word;
  }

  lemma KillValid(m: Machine, c: Config, s: nat)
    requires Valid(c) && Legal(c, Kill(s))
    ensures Valid(Apply(m, c, Kill(s))) && Members(Apply(m, c, Kill(s)).p.pending) == Members(c.p.pending) + {s}
  {
    hide Members, Test, Or, Nested, Stacked, Chained;
    NotifiedMembers(c.p, s);
    TestMembers(c.p.allow, s);
    Widen(c, Notified(c.p, s));
  }

  lemma InstallValid(m: Machine, c: Config, s: nat, h: word)
    requires Valid(c) && Legal(c, Install(s, h))
    ensures Valid(Apply(m, c, Install(s, h)))
  {
    hide Members, Or, Cleared, Nested, Stacked, Chained, Test;
    InstalledMembers(c.p, s, h);
    TestMembers(c.p.pending, s);
    Widen(c, Installed(c.p, s, h));
  }

  /** Every legal move keeps the invariant. */
  lemma ApplyValid(m: Machine, c: Config, v: Move)
    requires Valid(c) && Legal(c, v)
    ensures Valid(Apply(m, c, v))
  {
    hide Valid, Deliverable, Test, Executes;
    match v
    case Deliver => DeliverValid(m, c);
    case Return => ReturnValid(m, c);
    case Kill(s) => KillValid(m, c, s);
    case Install(s, h) => InstallValid(m, c, s, h);
    case Execute(q) => ExecuteValid(m, c, q);
  }

  lemma ExecuteStacked(c: Config, q: Proc)
    requires Stacked(c) && Executes(c, q)
    ensures Stacked(Config(q, c.active))
    ensures q.pending == c.p.pending && q.allow == c.p.allow && q.priority == c.p.priority && q.handlers == c.p.handlers
  {
    hide Word;
    forall i | 0 <= i < |c.active|
      ensures q.esp <= c.active[i].base && Holds(q.mem, c.active[i])
    {
      assert c.active[i] in c.active;
    }
  }

  lemma ExecuteValid(m: Machine, c: Config, q: Proc)
    requires Valid(c) && Executes(c, q)
    ensures Valid(Config(q, c.active))
  {
    hide Members, MaskAt, Stacked, Executes;
    ExecuteStacked(c, q);
  }

  // ----- runs

  function Run(m: Machine, c: Config, vs: seq<Move>): Config
    decreases |vs|
  {
    if vs == [] then c else Run(m, Apply(m, c, vs[0]), vs[1..])
  }

  ghost predicate LegalRun(m: Machine, c: Config, vs: seq<Move>)
    decreases |vs|
  {
    vs == [] || (Legal(c, vs[0]) && LegalRun(m, Apply(m, c, vs[0]), vs[1..]))
  }

  /** A new process: nothing pending, nothing allowed, no handler active. */
  ghost predicate Initial(c: Config) {
    c.active == [] && c.p.pending == 0 && c.p.allow == 0 && c.p.priority == WORD - 1 && |c.p.handlers| == 31
  }

  lemma {:induction false} RunValid(m: Machine, c: Config, vs: seq<Move>)
    requires Valid(c) && LegalRun(m, c, vs)
    ensures Valid(Run(m, c, vs))
    decreases |vs|
  {
    hide Valid, Apply, Legal;
    if vs != [] {
      ApplyValid(m, c, vs[0]);
      RunValid(m, Apply(m, c, vs[0]), vs[1..]);
    }
  }

  /** The process that the constructor makes is such a one. */
  lemma CreatedInitial(esp: word, mem: map<int, word>)
    ensures Initial(Config(Created(esp, mem), []))
  {
  }

  lemma InitialValid(c: Config)
    requires Initial(c)
    ensures Valid(c)
  {
    hide Members;
    MembersNone(0);
  }

  /**
   In every run of a new process, active signals increase up the stack and are pending,
   their frames in memory hold what they interrupted, and the mask is the top one's.
   */
  lemma RunFromStart(m: Machine, c: Config, vs: seq<Move>)
    requires Initial(c) && LegalRun(m, c, vs)
    ensures Valid(Run(m, c, vs))
  {
    InitialValid(c);
    RunValid(m, c, vs);
  }

  // ----- which handler starts

  /** Move i installs the handler h of signal s, and no later move installs another. */
  ghost predicate LatestInstall(vs: seq<Move>, i: nat, s: nat, h: word) {
    && i < |vs| && vs[i] == Install(s, h)
    && forall j :: i < j < |vs| ==> !(vs[j].Install? && vs[j].sig == s)
  }

  /** No move of vs installs a handler of signal s. */
  ghost predicate NoInstall(vs: seq<Move>, s: nat) {
    forall j :: 0 <= j < |vs| ==> !(vs[j].Install? && vs[j].sig == s)
  }

  /** Only installing a signal's handler changes which one it is, and whether the signal is allowed. */
  lemma HandlerStep(m: Machine, c: Config, v: Move, s: nat)
    requires |c.p.handlers| == 31 && s < 31 && Legal(c, v)
    ensures var q := Apply(m, c, v).p;
      && |q.handlers| == 31
      && (v.Install? && v.sig == s ==> q.handlers[s] == v.handler && (s in Members(q.allow) <==> v.handler != 0))
      && (!(v.Install? && v.sig == s) ==>
            q.handlers[s] == c.p.handlers[s] && (s in Members(q.allow) <==> s in Members(c.p.allow)))
  {
    hide Members, Or, Cleared, Written, FrameWords, Resumed, Signum, Top, Deliverable, Test;
    match v
    case Install(t, h) => InstalledMembers(c.p, t, h);
    case Return => ResumedKeeps(c.p, s);
    case _ =>
  }

  lemma ResumedKeeps(p: Proc, s: nat)
    ensures forall sp: word, t: nat :: t <= MAXSIGNAL ==>
      Resumed(p, sp, t).handlers == p.handlers && Resumed(p, sp, t).allow == p.allow
  {
    hide Cleared;
  }

  /** After a run, a signal's handler is the one installed last; before any was, the signal is as at the start. */
  lemma {:induction false} HandlerIs(m: Machine, c: Config, vs: seq<Move>, s: nat)
    requires |c.p.handlers| == 31 && s < 31 && LegalRun(m, c, vs)
    ensures var q := Run(m, c, vs).p;
      && |q.handlers| == 31
      && (forall i: nat, h :: LatestInstall(vs, i, s, h) ==> q.handlers[s] == h && (s in Members(q.allow) <==> h != 0))
      && (NoInstall(vs, s) ==>
            q.handlers[s] == c.p.handlers[s] && (s in Members(q.allow) <==> s in Members(c.p.allow)))
    decreases |vs|
  {
    hide Members, Apply, Legal;
    if vs != [] {
      var d, q := Apply(m, c, vs[0]), Run(m, c, vs).p;
      HandlerStep(m, c, vs[0], s);
      HandlerIs(m, d, vs[1..], s);
      if NoInstall(vs, s) {
        assert NoInstall(vs[1..], s);
      }
      forall i: nat, h | LatestInstall(vs, i, s, h)
        ensures q.handlers[s] == h && (s in Members(q.allow) <==> h != 0)
      {
        if i > 0 {
          assert LatestInstall(vs[1..], i - 1, s, h);
        } else {
          assert NoInstall(vs[1..], s);
        }
      }
    }
  }

  lemma {:induction false} SomeInstall(vs: seq<Move>, s: nat) returns (i: nat)
    requires !NoInstall(vs, s)
    ensures i < |vs| && vs[i].Install? && LatestInstall(vs, i, s, vs[i].handler)
  {
    var n := |vs| - 1;
    if vs[n].Install? && vs[n].sig == s {
      i := n;
    } else {
      i := SomeInstall(vs[..n], s);
    }
  }

  /**
   In every run of a new process, the handler that a delivery starts, in the frame's word at
   48, is the one that the latest move to install a handler of the delivered signal gave, and
   that was not the null handler.
   */
  lemma StartsLatest(m: Machine, c: Config, vs: seq<Move>) returns (i: nat)
    requires Initial(c) && LegalRun(m, c, vs) && Legal(Run(m, c, vs), Deliver)
    ensures var d := Run(m, c, vs); var e := Apply(m, d, Deliver);
      && i < |vs| && vs[i].Install? && vs[i].sig == Top(d.p.pending)
      && LatestInstall(vs, i, vs[i].sig, vs[i].handler) && vs[i].handler != 0
      && e.p.esp == d.p.esp - 68 && Word(e.p.mem, e.p.esp + 48) == vs[i].handler
  {
    hide Members, Valid, Apply, Deliverable, Written, Word, FrameWords, Top, NoInstall, LatestInstall, Initial;
    var d := Run(m, c, vs);
    RunFromStart(m, c, vs);
    DeliveredAllowed(d);
    var s: nat := Top(d.p.pending);
    InitialNone(c, s);
    HandlerIs(m, c, vs, s);
    i := SomeInstall(vs, s);
    LatestIs(vs, i, s, vs[i].handler);
    DeliveredFrame(m, d, s);
  }

  /** Handlers for signals 3 and 5 are installed, and both become pending. */
  function BothPending(esp: word, mem: map<int, word>, h: word, k: word): Proc {
    Notified(Notified(Installed(Installed(Created(esp, mem), 3, h), 5, k), 3), 5)
  }

  lemma BothMembers(esp: word, mem: map<int, word>, h: word, k: word)
    requires h != 0 && k != 0
    ensures var p := BothPending(esp, mem, h, k);
      && Members(p.pending) == {3, 5} && Members(p.allow) == {3, 5} && p.handlers[5] == k
      && p.esp == esp && p.priority == WORD - 1 && |p.handlers| == 31
    ensures var p := BothPending(esp, mem, h, k); Valid(Config(p, []))
  {
    hide Members, Or, Cleared;
    var p0 := Created(esp, mem);
    var p1 := Installed(p0, 3, h);
    var p2 := Installed(p1, 5, k);
    MembersNone(0);
    InstalledMembers(p0, 3, h);
    InstalledMembers(p1, 5, k);
    NotifiedMembers(p2, 3);
    NotifiedMembers(Notified(p2, 3), 5);
  }

  /**
   Taking away the handler of a signal that is pending is not one of these moves. After it, a
   lesser signal that may be delivered starts the null handler.
   */
  lemma NullStarts(m: Machine, esp: word, mem: map<int, word>, h: word, k: word)
    requires esp >= 68 && h != 0 && k != 0
    ensures var c := Config(BothPending(esp, mem, h, k), []);
      var d := Apply(m, c, Install(5, 0));
      && Run(m, Config(Created(esp, mem), []), [Install(3, h), Install(5, k), Kill(3), Kill(5)]) == c
      && Valid(c) && !Legal(c, Install(5, 0))
      && Legal(d, Deliver) && Word(Apply(m, d, Deliver).p.mem, esp - 68 + 48) == 0
  {
    hide Members, Or, Cleared, Written, Word, FrameWords, Top, Deliverable, Test, Valid, Notified, Installed;
    var c := Config(BothPending(esp, mem, h, k), []);
    FourMoves(m, esp, mem, h, k);
    BothMembers(esp, mem, h, k);
    TestMembers(c.p.pending, 5);
    TakenAway(c.p, 5);
    var d := Config(Installed(c.p, 5, 0), []);
    AllMembers();
    DeliverableMeans(d.p);
    assert 3 in Members(d.p.pending) * Members(d.p.allow) * Members(d.p.priority);
    TopMember(d.p);
    DeliveredFrame(m, d, 5);
  }

  lemma TakenAway(p: Proc, s: nat)
    requires s < |p.handlers| && s <= MAXSIGNAL
    ensures var q := Installed(p, s, 0);
      && q.handlers == p.handlers[s := 0] && Members(q.allow) == Members(p.allow) - {s}
      && q.pending == p.pending && q.priority == p.priority && q.esp == p.esp
  {
    hide Members, Or, Cleared;
    InstalledMembers(p, s, 0);
  }

  lemma FourMoves(m: Machine, esp: word, mem: map<int, word>, h: word, k: word)
    ensures Run(m, Config(Created(esp, mem), []), [Install(3, h), Install(5, k), Kill(3), Kill(5)])
      == Config(BothPending(esp, mem, h, k), [])
  {
    hide Run, Installed, Notified, Started, Resumed;
    var p0 := Created(esp, mem);
    var p1 := Installed(p0, 3, h);
    InstallSize(p0, 3, h);
    var p2 := Installed(p1, 5, k);
    var a, b, v3, v5 := Install(3, h), Install(5, k), Kill(3), Kill(5);
    assert [a] + [b, v3, v5] == [a, b, v3, v5] && [b] + [v3, v5] == [b, v3, v5] && [v3] + [v5] == [v3, v5];
    RunStep(m, Config(p0, []), Install(3, h), [Install(5, k), Kill(3), Kill(5)]);
    RunStep(m, Config(p1, []), Install(5, k), [Kill(3), Kill(5)]);
    RunStep(m, Config(p2, []), Kill(3), [Kill(5)]);
    RunStep(m, Config(Notified(p2, 3), []), Kill(5), []);
  }

  lemma InstallSize(p: Proc, s: nat, h: word)
    requires s < |p.handlers| && s <= MAXSIGNAL
    ensures |Installed(p, s, h).handlers| == |p.handlers|
  {
    hide Or, Cleared;
  }

  lemma RunStep(m: Machine, c: Config, v: Move, vs: seq<Move>)
    ensures Run(m, c, [v] + vs) == Run(m, Apply(m, c, v), vs) && Run(m, c, []) == c
    ensures vs == [] ==> Run(m, c, [v]) == Apply(m, c, v)
  {
    assert ([v] + vs)[1..] == vs;
  }

  lemma LatestIs(vs: seq<Move>, i: nat, s: nat, h: word)
    requires LatestInstall(vs, i, s, h)
    ensures i < |vs| && vs[i] == Install(s, h)
  {
  }

  lemma InitialNone(c: Config, s: nat)
    requires Initial(c)
    ensures s !in Members(c.p.allow) && |c.p.handlers| == 31
  {
    hide Members;
    MembersNone(0);
  }

  lemma DeliveredAllowed(c: Config)
    requires Valid(c) && Legal(c, Deliver)
    ensures 0 <= Top(c.p.pending) < 30 && Top(c.p.pending) in Members(c.p.allow)
  {
    hide Members, Deliverable, Top, Nested, Stacked, Chained;
    DeliverableAbove(c);
  }

  lemma DeliveredFrame(m: Machine, c: Config, s: nat)
    requires s == Top(c.p.pending) && s < |c.p.handlers| && s < 30 && c.p.esp >= FRAME
    ensures var e := Apply(m, c, Deliver);
      e.p.esp == c.p.esp - 68 && Word(e.p.mem, e.p.esp + 48) == c.p.handlers[s]
  {
    hide Written, Word, FrameWords, Top;
    FrameIs(m, c.p, s, c.p.esp - FRAME);
  }

  /** A pending signal stays so until its own handler returns. */
  lemma ClearedByReturn(m: Machine, c: Config, v: Move, b: nat)
    requires Valid(c) && Legal(c, v) && b in Members(c.p.pending) && b !in Members(Apply(m, c, v).p.pending)
    ensures v == Return && c.active != [] && b == Last(c.active).sig
  {
    hide Members, Valid, Deliverable, Executes, Test;
    match v
    case Deliver => DeliverValid(m, c);
    case Return => ReturnRestores(m, c);
    case Kill(s) => KillValid(m, c, s);
    case _ => OtherMoves(m, c, v);
  }

  /** A signal is delivered exactly when the highest pending one is above the active ones. */
  lemma DeliverableIff(c: Config)
    requires Valid(c)
    ensures Deliverable(c.p) <==> c.p.pending != 0 && (c.active == [] || Last(c.active).sig < Top(c.p.pending))
  {
    hide Members, Deliverable, Nested, Stacked, Chained, Top;
    if Deliverable(c.p) {
      DeliverableAbove(c);
      PendingSome(c.p);
      if c.active != [] {
        assert Last(c.active).sig < Top(c.p.pending);
      }
    } else if c.p.pending != 0 {
      DeliverableMeans(c.p);
      PriorityAbove(c);
      TopPending(c.p);
      var t: nat := Top(c.p.pending);
      assert t in Members(c.p.allow);
      assert t !in Members(c.p.priority);
    }
  }

  lemma PendingSome(p: Proc)
    requires Deliverable(p)
    ensures p.pending != 0
  {
  }

  lemma TopPending(p: Proc)
    requires p.pending != 0
    ensures 0 <= Top(p.pending) <= MAXSIGNAL && Top(p.pending) in Members(p.pending)
  {
    hide Members, HighestFrom;
    HighestPending(p.pending);
  }

  /** The acceptable signals are those above the topmost active one. */
  lemma PriorityAbove(c: Config)
    requires Valid(c)
    ensures Members(c.p.priority) == Range(if c.active == [] then 0 else Last(c.active).sig + 1, 32)
  {
    hide Members, Stacked, PriorityMask;
    AllMembers();
    if c.active != [] {
      PriorityMembers(Last(c.active).sig);
    }
  }

  // ----- a delivery and its return

  /** During the moves vs, the first n handlers stay active. */
  ghost predicate Above(m: Machine, c: Config, vs: seq<Move>, n: nat)
    decreases |vs|
  {
    |c.active| >= n && (vs == [] || Above(m, Apply(m, c, vs[0]), vs[1..], n))
  }

  lemma ActiveAfter(m: Machine, c: Config, v: Move)
    ensures var a := Apply(m, c, v).active;
      a == c.active || (a != [] && a[..|a| - 1] == c.active) || (c.active != [] && a == c.active[..|c.active| - 1])
  {
    hide Resumed, Started, Installed, Notified, Signum, Top;
  }

  /** Handlers that stay active keep what they saved. */
  lemma {:induction false} Kept(m: Machine, c: Config, vs: seq<Move>, n: nat)
    requires Above(m, c, vs, n)
    ensures |c.active| >= n && |Run(m, c, vs).active| >= n && Run(m, c, vs).active[..n] == c.active[..n]
    decreases |vs|
  {
    hide Apply;
    if vs != [] {
      ActiveAfter(m, c, vs[0]);
      Kept(m, Apply(m, c, vs[0]), vs[1..], n);
    }
  }

  /**
   Whatever happens while a handler is active, its return restores the stack pointer and
   the mask that its delivery interrupted, and leaves its signal not pending.
   */
  lemma Bracket(m: Machine, c: Config, vs: seq<Move>)
    requires Valid(c) && Legal(c, Deliver)
    requires var d := Apply(m, c, Deliver);
      LegalRun(m, d, vs) && Above(m, d, vs, |c.active| + 1) && |Run(m, d, vs).active| == |c.active| + 1
    ensures var after := Apply(m, Run(m, Apply(m, c, Deliver), vs), Return);
      && Valid(after) && after.active == c.active
      && after.p.esp == c.p.esp && after.p.priority == c.p.priority
      && Top(c.p.pending) !in Members(after.p.pending)
      && (after.p.pending != 0 ==> after.p.ret == c.p.ret)
  {
    hide Valid, Apply, Deliverable, Members, Top;
    var d := Apply(m, c, Deliver);
    DeliverValid(m, c);
    RunValid(m, d, vs);
    Kept(m, d, vs, |c.active| + 1);
    var e := Run(m, d, vs);
    ReturnRestores(m, e);
    ReturnValid(m, e);
    assert d.active[..|c.active| + 1] == d.active && e.active[..|c.active| + 1] == e.active;
    assert d.active[..|c.active|] == c.active;
    PendingSome(c.p);
    LastIs(c.active, Delivered(c.p));
  }

  lemma LastIs(active: seq<Frame>, f: Frame)
    ensures Last(active + [f]) == f
  {
  }

  // ----- draining

  /** Returns and deliveries in a run. */
  function Transitions(vs: seq<Move>): nat {
    if vs == [] then 0 else (if vs[0].Deliver? || vs[0].Return? then 1 else 0) + Transitions(vs[1..])
  }

  ghost predicate NoKills(vs: seq<Move>) {
    forall i :: 0 <= i < |vs| ==> !vs[i].Kill?
  }

  /** Twice the pending signals less the active ones. */
  ghost function Left(c: Config): int {
    2 * |Members(c.p.pending)| - |c.active|
  }

  ghost function ActiveSignals(active: seq<Frame>): set<nat> {
    set i | 0 <= i < |active| :: active[i].sig
  }

  lemma {:induction false} DistinctSignals(active: seq<Frame>)
    requires forall i, j :: 0 <= i < j < |active| ==> active[i].sig < active[j].sig
    ensures |ActiveSignals(active)| == |active|
  {
    if active != [] {
      var n := |active| - 1;
      DistinctSignals(active[..n]);
      assert ActiveSignals(active) == ActiveSignals(active[..n]) + {active[n].sig};
    }
  }

  /** No more handlers are active than signals are pending. */
  lemma LeftBound(c: Config)
    requires Nested(c)
    ensures |c.active| <= |Members(c.p.pending)| && Left(c) >= |c.active|
  {
    hide Members;
    DistinctSignals(c.active);
    Included(ActiveSignals(c.active), Members(c.p.pending));
  }

  lemma {:induction false} Included(a: set<nat>, b: set<nat>)
    requires a <= b
    ensures |a| <= |b|
  {
    if a != {} {
      var x :| x in a;
      Included(a - {x}, b - {x});
    }
  }

  /** Each delivery and each return uses one up. */
  lemma LeftStep(m: Machine, c: Config, v: Move)
    requires Valid(c) && Legal(c, v) && !v.Kill?
    ensures Left(Apply(m, c, v)) == Left(c) - (if v.Deliver? || v.Return? then 1 else 0)
  {
    hide Members, Valid, Deliverable, Executes;
    match v
    case Deliver => DeliverValid(m, c);
    case Return =>
      ReturnRestores(m, c);
      LastPending(c);
    case _ => OtherMoves(m, c, v);
  }

  /** The other moves neither clear pending signals nor change what is active. */
  lemma OtherMoves(m: Machine, c: Config, v: Move)
    requires Legal(c, v) && !v.Kill? && !v.Deliver? && !v.Return?
    ensures Apply(m, c, v).p.pending == c.p.pending && Apply(m, c, v).active == c.active
  {
    hide Cleared, Or;
  }

  lemma LastPending(c: Config)
    requires Valid(c) && c.active != []
    ensures Last(c.active).sig in Members(c.p.pending)
  {
    hide Members;
  }

  /** Without new kills, deliveries and returns come to an end. */
  lemma {:induction false} DrainBound(m: Machine, c: Config, vs: seq<Move>)
    requires Valid(c) && LegalRun(m, c, vs) && NoKills(vs)
    ensures Transitions(vs) <= 2 * |Members(c.p.pending)| - |c.active|
    decreases |vs|
  {
    hide Valid, Apply, Legal, Members;
    if vs == [] {
      ValidLeft(c);
    } else {
      LeftStep(m, c, vs[0]);
      ApplyValid(m, c, vs[0]);
      DrainBound(m, Apply(m, c, vs[0]), vs[1..]);
    }
  }

  lemma ValidLeft(c: Config)
    requires Valid(c)
    ensures Left(c) >= 0
  {
    hide Members, Masked, Stacked, Chained;
    LeftBound(c);
  }

  /** When nothing is left to deliver or to return from, nothing is pending. */
  lemma Drained(c: Config)
    requires Valid(c) && c.active == [] && !Deliverable(c.p)
    ensures c.p.pending == 0
  {
    hide Members, And, HighestFrom;
    DeliverableIff(c);
  }

  lemma AllMembers()
    ensures Members(WORD - 1) == Range(0, 32)
  {
    hide Members;
    MembersHigh(0);
    assert Pow2(0) == 1;
  }

  // ----- the order of handlers

  /** The signals whose handlers were started. */
  function Deliveries(m: Machine, c: Config, vs: seq<Move>): seq<int>
    decreases |vs|
  {
    if vs == [] then []
    else (if vs[0].Deliver? then [Top(c.p.pending)] else []) + Deliveries(m, Apply(m, c, vs[0]), vs[1..])
  }

  /** After signal d was delivered: nothing above it is pending, and it stays active while pending. */
  ghost predicate Passed(c: Config, d: int) {
    && (forall b: nat :: b in Members(c.p.pending) ==> b <= d)
    && (forall b: nat :: b in Members(c.p.pending) && b == d ==> b in ActiveSignals(c.active))
  }

  lemma PassedDeliver(m: Machine, c: Config)
    requires Valid(c) && Legal(c, Deliver)
    ensures Passed(Apply(m, c, Deliver), Top(c.p.pending))
  {
    hide Members, Deliverable, Masked, Nested, Stacked, Chained, Top, Written, FrameWords, PriorityMask;
    DeliverValid(m, c);
    DeliverableAbove(c);
    var a := Apply(m, c, Deliver).active;
    assert a[|a| - 1].sig == Top(c.p.pending);
  }

  /** The next delivery is of a lesser signal. */
  lemma PassedBelow(c: Config, d: int)
    requires Valid(c) && Legal(c, Deliver) && Passed(c, d)
    ensures Top(c.p.pending) < d
  {
    hide Members, Deliverable, Masked, Nested, Stacked, Chained, Top;
    DeliverableAbove(c);
  }

  lemma PassedStep(m: Machine, c: Config, v: Move, d: int)
    requires Valid(c) && Legal(c, v) && !v.Kill? && !v.Deliver? && Passed(c, d)
    ensures Passed(Apply(m, c, v), d)
  {
    hide Members, Valid, Deliverable, Executes;
    if v.Return? {
      ReturnRestores(m, c);
      var a := Apply(m, c, v).active;
      forall b: nat | b in Members(Apply(m, c, v).p.pending) && b == d
        ensures b in ActiveSignals(a)
      {
        assert b in ActiveSignals(c.active);
        var i :| 0 <= i < |c.active| && c.active[i].sig == b;
        assert i < |a| && a[i].sig == b;
      }
    } else {
      OtherMoves(m, c, v);
    }
  }

  ghost predicate AllBelow(ds: seq<int>, d: int) {
    forall i :: 0 <= i < |ds| ==> ds[i] < d
  }

  ghost predicate Decreasing(ds: seq<int>) {
    forall i, j :: 0 <= i < j < |ds| ==> ds[i] > ds[j]
  }

  /** Without new kills, handlers start in decreasing order of their signals. */
  lemma {:induction false} DeliveriesDecrease(m: Machine, c: Config, vs: seq<Move>)
    requires Valid(c) && LegalRun(m, c, vs) && NoKills(vs)
    ensures Decreasing(Deliveries(m, c, vs))
    ensures forall d :: Passed(c, d) ==> AllBelow(Deliveries(m, c, vs), d)
    decreases |vs|
  {
    hide Valid, Apply, Legal, Passed, Top;
    if vs != [] {
      var c', d := Apply(m, c, vs[0]), Top(c.p.pending);
      ApplyValid(m, c, vs[0]);
      DeliveriesDecrease(m, c', vs[1..]);
      if vs[0].Deliver? {
        PassedDeliver(m, c);
      }
      forall e | Passed(c, e)
        ensures AllBelow(Deliveries(m, c, vs), e)
      {
        if vs[0].Deliver? {
          PassedBelow(c, e);
        } else {
          PassedStep(m, c, vs[0], e);
        }
      }
    }
  }
}
