/** Lock safety over every run, preemptive or not, under every policy: the spin lock admits one
    process at a time, and no print is lost, overwritten or put off the screen. */
module LockSafety {
  import opened KernelTypes
  import opened Interrupts
  import opened Applications

  /** Between the two swaps. */
  predicate Critical(pc: Pc) {
    pc.LoadCursor? || pc.StoreCursor? || pc.StoreCell? || pc.Release?
  }

  /** How often the process has won the lock, read off its registers. */
  function Taken(u: User): nat {
    u.i + if Critical(u.pc) || u.pc.Yield? then 1 else 0
  }

  /** The loop counter matches the program point. */
  predicate CounterOk(c: Config, u: User) {
    match u.pc
    case SetPriority | SetShare | SetLottery => u.i == 0
    case Exit | Gone => u.i == c.runs
    case _ => u.i < c.runs
  }

  function Glyph(c: Config, p: nat): int {
    if Pid(c, p) then AppOf(c, p).glyph else 0
  }

  /** The console when the processes in `log` have printed one cell each, in that order. */
  function Screen(c: Config, base: map<int, int>, log: seq<nat>): map<int, int> {
    base + map j: int | 0 <= j < |log| :: Glyph(c, log[j])
  }

  ghost predicate Free(c: Config, base: map<int, int>, vs: seq<User>, m: Shared, log: seq<nat>) {
    && m.lock == 0
    && (forall p | 0 <= p < |vs| :: !Critical(vs[p].pc))
    && m.cursor == |log|
    && m.cells == Screen(c, base, log)
  }

  /** Process `h` is between its swaps, and the shared variables are as far as it has got. */
  ghost predicate Held(c: Config, base: map<int, int>, vs: seq<User>, m: Shared, log: seq<nat>, h: nat) {
    && m.lock == 1
    && h < |vs| && Critical(vs[h].pc)
    && (forall p | 0 <= p < |vs| && p != h :: !Critical(vs[p].pc))
    && log != [] && log[|log| - 1] == h
    && m.cells == Screen(c, base, if vs[h].pc.Release? then log else log[..|log| - 1])
    && m.cursor == |log| - (if vs[h].pc.LoadCursor? || vs[h].pc.StoreCursor? then 1 else 0)
    && (vs[h].pc.StoreCursor? || vs[h].pc.StoreCell? ==> vs[h].tmp == |log| - 1)
  }

  ghost predicate LockInv(c: Config, base: map<int, int>, vs: seq<User>, m: Shared, log: seq<nat>) {
    Free(c, base, vs, m, log) || exists h :: Held(c, base, vs, m, log, h)
  }

  ghost predicate CountInv(c: Config, vs: seq<User>, log: seq<nat>) {
    && |vs| == |c.apps| + 1
    && !Critical(vs[0].pc)
    && (forall j | 0 <= j < |log| :: Pid(c, log[j]))
    && forall p | Pid(c, p) :: CounterOk(c, vs[p]) && multiset(log)[p] == Taken(vs[p])
  }

  /** The console `start` leaves. */
  function Base(boot: Shared): map<int, int> {
    Cleared(boot.cells, CELLS)
  }

  ghost predicate SysInv(c: Config, boot: Shared, s: Sys) {
    && TableInv(c, s)
    && CountInv(c, Views(s), s.log)
    && LockInv(c, Base(boot), Views(s), s.kern.mem, s.log)
  }

  // ----- Instructions -----

  lemma ScreenGrows(c: Config, base: map<int, int>, log: seq<nat>)
    requires log != []
    ensures Screen(c, base, log[..|log| - 1])[|log| - 1 := Glyph(c, log[|log| - 1])] == Screen(c, base, log)
  {
  }

  /** Winning the lock. */
  lemma AcquireKeepsLock(c: Config, base: map<int, int>, vs: seq<User>, m: Shared, log: seq<nat>, p: nat)
    requires Free(c, base, vs, m, log) && Pid(c, p) && p < |vs| && vs[p].pc.Acquire?
    ensures var (u, m') := UserStep(c, p, vs[p], m);
            Held(c, base, vs[p := u], m', log + [p], p)
  {
  }

  /** An instruction of the lock holder. */
  lemma HolderKeepsLock(c: Config, base: map<int, int>, vs: seq<User>, m: Shared, log: seq<nat>, p: nat)
    requires Held(c, base, vs, m, log, p) && Pid(c, p)
    ensures var (u, m') := UserStep(c, p, vs[p], m);
            if u.pc.Yield? then Free(c, base, vs[p := u], m', log) else Held(c, base, vs[p := u], m', log, p)
  {
    if vs[p].pc.StoreCell? {
      ScreenGrows(c, base, log);
    }
  }

  lemma InstructionKeepsCounts(c: Config, vs: seq<User>, m: Shared, log: seq<nat>, p: nat)
    requires CountInv(c, vs, log) && Pid(c, p) && !IsCall(vs[p].pc)
    ensures var (u, m') := UserStep(c, p, vs[p], m);
            CountInv(c, vs[p := u], if vs[p].pc.Acquire? && u.pc.LoadCursor? then log + [p] else log)
  {
  }

  /** One instruction of process `p` keeps the lock invariant. */
  lemma InstructionKeepsLock(c: Config, base: map<int, int>, vs: seq<User>, m: Shared, log: seq<nat>, p: nat)
    requires LockInv(c, base, vs, m, log)
    requires Pid(c, p) && p < |vs| && !IsCall(vs[p].pc)
    ensures var (u, m') := UserStep(c, p, vs[p], m);
            LockInv(c, base, vs[p := u], m', if vs[p].pc.Acquire? && u.pc.LoadCursor? then log + [p] else log)
  {
    var (u, m') := UserStep(c, p, vs[p], m);
    if vs[p].pc.Acquire? && m.lock == 0 {
      AcquireKeepsLock(c, base, vs, m, log, p);
    } else if Critical(vs[p].pc) {
      var h: nat :| Held(c, base, vs, m, log, h);
      assert h == p;
      HolderKeepsLock(c, base, vs, m, log, p);
    } else {
      assert m' == m && vs[p := u] == vs;
    }
  }

  /** Changing the registers of a process outside its critical section, without changing how many
      prints it has made, keeps the lock invariant. */
  lemma QuietChangeKeepsLock(c: Config, base: map<int, int>, vs: seq<User>, m: Shared, log: seq<nat>, p: nat, u: User)
    requires LockInv(c, base, vs, m, log) && CountInv(c, vs, log) && Pid(c, p)
    requires u == vs[p] || (!Critical(vs[p].pc) && !Critical(u.pc) && CounterOk(c, u) && Taken(u) == Taken(vs[p]))
    ensures LockInv(c, base, vs[p := u], m, log) && CountInv(c, vs[p := u], log)
  {
    var vs' := vs[p := u];
    if u == vs[p] {
      assert vs' == vs;
    } else if !Free(c, base, vs, m, log) {
      var h: nat :| Held(c, base, vs, m, log, h);
      assert Held(c, base, vs', m, log, h);
    }
  }

  lemma TrapKeepsLock(c: Config, boot: Shared, s: Sys, f: Frame<User>, ticks: seq<nat>, s': Sys)
    requires SysInv(c, boot, s) && s.running && Pid(c, s.kern.current) && Trap(s, f, ticks, s')
    requires f.intno != INT_SYS_ATOMIC_PRINT
    requires || f.regs == s.cpu
             || (!Critical(s.cpu.pc) && !Critical(f.regs.pc) && CounterOk(c, f.regs) && Taken(f.regs) == Taken(s.cpu))
    ensures CountInv(c, Views(s'), s'.log) && LockInv(c, Base(boot), Views(s'), s'.kern.mem, s'.log)
  {
    TrapViews(s, f, ticks, s');
    assert Views(s)[s.kern.current] == s.cpu;
    QuietChangeKeepsLock(c, Base(boot), Views(s), s.kern.mem, s.log, s.kern.current, f.regs);
  }

  lemma StepKeepsLock(c: Config, boot: Shared, s: Sys, e: Event, s': Sys)
    requires SysInv(c, boot, s) && Step(c, s, e, s')
    ensures SysInv(c, boot, s')
  {
    StepKeepsTable(c, s, e, s');
    hide LockInv;
    hide CountInv;
    var p := s.kern.current;
    assert Views(s)[p] == s.cpu;
    match e
    case Local =>
      LocalViews(c, s);
      InstructionKeepsLock(c, Base(boot), Views(s), s.kern.mem, s.log, p);
      InstructionKeepsCounts(c, Views(s), s.kern.mem, s.log, p);
    case Call(ticks) =>
      CallKeepsCount(c, s, p);
      hide Trap;
      TrapKeepsLock(c, boot, s, CallFrame(c, p, s.cpu), ticks, s');
    case Clock(ticks) =>
      hide Trap;
      TrapKeepsLock(c, boot, s, Frame(s.cpu, INT_CLOCK, 0), ticks, s');
  }

  /** A system call is made outside the critical section, and the registers it returns to have made
      the same number of prints. */
  lemma CallKeepsCount(c: Config, s: Sys, p: nat)
    requires TableInv(c, s) && CountInv(c, Views(s), s.log) && s.running && p == s.kern.current && Pid(c, p)
    requires IsCall(s.cpu.pc)
    ensures var f := CallFrame(c, p, s.cpu);
            && f.intno != INT_SYS_ATOMIC_PRINT
            && !Critical(s.cpu.pc) && !Critical(f.regs.pc) && CounterOk(c, f.regs) && Taken(f.regs) == Taken(s.cpu)
  {
    assert Views(s)[p] == s.cpu;
  }

  lemma LockInitially(c: Config, boot: Shared)
    requires Sane(c) && boot.lock == 0
    ensures SysInv(c, boot, Initial(c, boot))
  {
    TableInitially(c, boot);
    var s := Initial(c, boot);
    assert Free(c, Base(boot), Views(s), s.kern.mem, s.log);
  }

  lemma {:induction false} RunKeepsLock(c: Config, boot: Shared, ss: seq<Sys>, es: seq<Event>, t: nat)
    requires IsRun(c, boot, ss, es) && t < |ss|
    ensures SysInv(c, boot, ss[t])
  {
    hide *;
    RunStarts(c, boot, ss, es);
    if t == 0 {
      LockInitially(c, boot);
    } else {
      RunStep(c, boot, ss, es, t);
      RunKeepsLock(c, boot, ss, es, t - 1);
      StepKeepsLock(c, boot, ss[t - 1], es[t - 1], ss[t]);
    }
  }

  // ----- How many prints there are -----

  /** Prints by the processes below `n`. */
  function SumCounts(log: seq<nat>, n: nat): nat {
    if n == 0 then 0 else SumCounts(log, n - 1) + multiset(log)[n - 1]
  }

  lemma {:induction false} SumCountsStep(log: seq<nat>, x: nat, n: nat)
    ensures SumCounts(log + [x], n) == SumCounts(log, n) + if x < n then 1 else 0
  {
    if n > 0 {
      SumCountsStep(log, x, n - 1);
    }
  }

  lemma {:induction false} SumCountsAll(log: seq<nat>, n: nat)
    requires forall j | 0 <= j < |log| :: log[j] < n
    ensures SumCounts(log, n) == |log|
  {
    if log == [] {
      SumCountsNone(n);
    } else {
      var init, last := log[..|log| - 1], log[|log| - 1];
      assert log == init + [last];
      SumCountsAll(init, n);
      SumCountsStep(init, last, n);
    }
  }

  lemma {:induction false} SumCountsNone(n: nat)
    ensures SumCounts([], n) == 0
  {
    if n > 0 {
      SumCountsNone(n - 1);
    }
  }

  /** If every process has made at most (exactly) `r` prints there are at most (exactly) `r` times
      as many as processes. */
  lemma {:induction false} SumCountsBound(log: seq<nat>, n: nat, r: nat)
    requires multiset(log)[0] == 0
    requires forall p | 1 <= p < n :: multiset(log)[p] <= r
    ensures n > 0 ==> SumCounts(log, n) <= (n - 1) * r
    ensures n > 0 && (forall p | 1 <= p < n :: multiset(log)[p] == r) ==> SumCounts(log, n) == (n - 1) * r
  {
    if n > 1 {
      SumCountsBound(log, n - 1, r);
      assert (n - 1) * r == (n - 2) * r + r;
    }
  }

  lemma LogLength(c: Config, s: Sys)
    requires TableInv(c, s) && CountInv(c, Views(s), s.log)
    ensures |s.log| <= |c.apps| * c.runs
    ensures (forall p | Pid(c, p) :: View(s, p).pc.Gone?) ==> |s.log| == |c.apps| * c.runs
  {
    var n := |c.apps| + 1;
    forall p | 1 <= p < n
      ensures multiset(s.log)[p] <= c.runs && (View(s, p).pc.Gone? ==> multiset(s.log)[p] == c.runs)
    {
      assert Pid(c, p) && Views(s)[p] == View(s, p);
    }
    assert 0 !in s.log;
    SumCountsAll(s.log, n);
    SumCountsBound(s.log, n, c.runs);
  }

  // ----- The theorems -----

  /** What the lock invariant says about the registers of all processes. */
  lemma SafeViews(c: Config, base: map<int, int>, vs: seq<User>, m: Shared, log: seq<nat>)
    requires LockInv(c, base, vs, m, log) && |vs| == |c.apps| + 1 && !Critical(vs[0].pc)
    ensures 0 <= m.lock <= 1
    ensures m.lock == 1 <==> exists p :: Pid(c, p) && Critical(vs[p].pc)
    ensures forall p, q | Pid(c, p) && Pid(c, q) && Critical(vs[p].pc) && Critical(vs[q].pc) :: p == q
    ensures m.lock == 0 ==> Free(c, base, vs, m, log)
  {
  }

  /** What the lock invariant says about one state. */
  lemma SafeState(c: Config, boot: Shared, s: Sys)
    requires SysInv(c, boot, s)
    ensures 0 <= s.kern.mem.lock <= 1
    ensures s.kern.mem.lock == 1 <==> exists p :: Pid(c, p) && Critical(View(s, p).pc)
    ensures forall p, q | Pid(c, p) && Pid(c, q) && Critical(View(s, p).pc) && Critical(View(s, q).pc) :: p == q
    ensures s.kern.mem.lock == 0 ==> s.kern.mem.cursor == |s.log| && s.kern.mem.cells == Screen(c, Base(boot), s.log)
  {
    var vs := Views(s);
    SafeViews(c, Base(boot), vs, s.kern.mem, s.log);
    forall p | Pid(c, p) ensures Critical(View(s, p).pc) <==> Critical(vs[p].pc) {
      assert vs[p] == View(s, p);
    }
    if s.kern.mem.lock == 1 {
      var p :| Pid(c, p) && Critical(vs[p].pc);
      assert Critical(View(s, p).pc);
    }
  }

  /** Mutual exclusion and lossless printing, in every state of every run. */
  lemma LockSafety(c: Config, boot: Shared, ss: seq<Sys>, es: seq<Event>, t: nat)
    requires IsRun(c, boot, ss, es) && t < |ss|
    ensures |ss[t].kern.procs| == |c.apps| + 1
    ensures var s := ss[t];
            && 0 <= s.kern.mem.lock <= 1
            && (s.kern.mem.lock == 1 <==> exists p :: Pid(c, p) && Critical(View(s, p).pc))
            && (forall p, q | Pid(c, p) && Pid(c, q) && Critical(View(s, p).pc) && Critical(View(s, q).pc) :: p == q)
            && (s.kern.mem.lock == 0 ==>
                  s.kern.mem.cursor == |s.log| && s.kern.mem.cells == Screen(c, Base(boot), s.log))
  {
    RunKeepsLock(c, boot, ss, es, t);
    SafeState(c, boot, ss[t]);
  }

  /** No process prints more often than it should, so the prints never outnumber `N * runs`. */
  lemma PrintsBounded(c: Config, boot: Shared, ss: seq<Sys>, es: seq<Event>, t: nat, p: nat)
    requires IsRun(c, boot, ss, es) && t < |ss| && Pid(c, p)
    ensures |ss[t].kern.procs| == |c.apps| + 1
    ensures multiset(ss[t].log)[p] == Taken(View(ss[t], p)) <= c.runs
    ensures |ss[t].log| <= |c.apps| * c.runs
  {
    RunKeepsLock(c, boot, ss, es, t);
    assert Views(ss[t])[p] == View(ss[t], p);
    LogLength(c, ss[t]);
  }

  /** Prints whose lock has been released again. */
  function Settled(s: Sys): int {
    |s.log| - s.kern.mem.lock
  }

  lemma StepSettles(c: Config, boot: Shared, s: Sys, e: Event, s': Sys)
    requires SysInv(c, boot, s) && Step(c, s, e, s')
    ensures s.log <= s'.log && Settled(s) <= Settled(s')
  {
    match e
    case Local =>
      SafeState(c, boot, s);
      assert s.cpu == View(s, s.kern.current);
    case Call(ticks) => TrapViews(s, CallFrame(c, s.kern.current, s.cpu), ticks, s');
    case Clock(ticks) => TrapViews(s, Frame(s.cpu, INT_CLOCK, 0), ticks, s');
  }

  lemma LastStepSettles(c: Config, boot: Shared, ss: seq<Sys>, es: seq<Event>, t: nat)
    requires IsRun(c, boot, ss, es) && 0 < t < |ss|
    ensures ss[t - 1].log <= ss[t].log && Settled(ss[t - 1]) <= Settled(ss[t])
  {
    RunKeepsLock(c, boot, ss, es, t - 1);
    StepSettles(c, boot, ss[t - 1], es[t - 1], ss[t]);
  }

  /** The log only grows, and so does the number of settled prints. */
  lemma {:induction false} RunSettles(c: Config, boot: Shared, ss: seq<Sys>, es: seq<Event>, t: nat, t': nat)
    requires IsRun(c, boot, ss, es) && t <= t' < |ss|
    ensures ss[t].log <= ss[t'].log && Settled(ss[t]) <= Settled(ss[t'])
    decreases t' - t
  {
    hide *;
    if t < t' {
      RunSettles(c, boot, ss, es, t, t' - 1);
      LastStepSettles(c, boot, ss, es, t');
    }
  }

  /** Once the lock has been released after a print, its cell keeps that print for ever. */
  lemma PrintsSurvive(c: Config, boot: Shared, ss: seq<Sys>, es: seq<Event>, t: nat, t': nat, j: int)
    requires IsRun(c, boot, ss, es) && t <= t' < |ss|
    requires 0 <= j < Settled(ss[t]) && Settled(ss[t]) <= |ss[t].log|
    ensures j in ss[t'].kern.mem.cells && ss[t'].kern.mem.cells[j] == Glyph(c, ss[t].log[j])
  {
    hide IsRun;
    hide TableInv;
    hide CountInv;
    RunSettles(c, boot, ss, es, t, t');
    RunKeepsLock(c, boot, ss, es, t');
    var s' := ss[t'];
    assert s'.log[j] == ss[t].log[j];
    if !Free(c, Base(boot), Views(s'), s'.kern.mem, s'.log) {
      var h: nat :| Held(c, Base(boot), Views(s'), s'.kern.mem, s'.log, h);
      assert s'.log[..|s'.log| - 1][j] == s'.log[j];
    }
  }

  /** Conservation: when every process has exited, each has printed exactly `runs` cells, the lock
      is free, and the screen is those prints and nothing else. */
  lemma AllPrinted(c: Config, boot: Shared, ss: seq<Sys>, es: seq<Event>, t: nat)
    requires IsRun(c, boot, ss, es) && t < |ss|
    requires |ss[t].kern.procs| == |c.apps| + 1
    requires forall p | Pid(c, p) :: ss[t].kern.procs[p].state.Zombie?
    ensures var s := ss[t];
            && s.kern.mem.lock == 0 && s.kern.mem.cursor == |s.log| == |c.apps| * c.runs
            && s.kern.mem.cells == Screen(c, Base(boot), s.log)
            && forall p | Pid(c, p) :: multiset(s.log)[p] == c.runs
  {
    RunKeepsLock(c, boot, ss, es, t);
    var s := ss[t];
    var vs := Views(s);
    assert forall p | Pid(c, p) :: View(s, p).pc.Gone? && vs[p] == View(s, p);
    LogLength(c, s);
    assert forall p | 0 <= p < |vs| :: !Critical(vs[p].pc);
  }

  /** When all the prints fit on the screen, no cell outside it ever changes. */
  lemma OnScreen(c: Config, boot: Shared, ss: seq<Sys>, es: seq<Event>, t: nat, j: int)
    requires IsRun(c, boot, ss, es) && t < |ss|
    requires |c.apps| * c.runs <= CELLS && !(0 <= j < CELLS)
    ensures var cells := ss[t].kern.mem.cells;
            (j in cells <==> j in boot.cells) && (j in cells ==> cells[j] == boot.cells[j])
  {
    RunKeepsLock(c, boot, ss, es, t);
    var s := ss[t];
    LogLength(c, s);
    if !Free(c, Base(boot), Views(s), s.kern.mem, s.log) {
      var h: nat :| Held(c, Base(boot), Views(s), s.kern.mem, s.log, h);
    }
  }

  // ----- Without the assumption -----

  /** The lock is taken and nobody is between the swaps. */
  ghost predicate LockedOut(c: Config, boot: Shared, s: Sys) {
    && TableInv(c, s) && s.kern.mem.lock != 0 && s.log == [] && s.kern.mem.cells == Base(boot)
    && forall p: nat | p < |s.kern.procs| :: var pc := View(s, p).pc; !Critical(pc) && !pc.Yield?
  }

  lemma StepKeepsLockedOut(c: Config, boot: Shared, s: Sys, e: Event, s': Sys)
    requires LockedOut(c, boot, s) && Step(c, s, e, s')
    ensures LockedOut(c, boot, s')
  {
    StepKeepsTable(c, s, e, s');
    var cur := s.kern.current;
    assert View(s, cur) == s.cpu;
    match e
    case Local =>
      LocalViews(c, s);
      forall p: nat | p < |s.kern.procs| ensures View(s', p) == View(s, p) {
        assert View(s', p) == Views(s')[p] && View(s, p) == Views(s)[p];
      }
    case Call(ticks) => LockedOutTrap(c, boot, s, CallFrame(c, cur, s.cpu), ticks, s');
    case Clock(ticks) => LockedOutTrap(c, boot, s, Frame(s.cpu, INT_CLOCK, 0), ticks, s');
  }

  lemma LockedOutTrap(c: Config, boot: Shared, s: Sys, f: Frame<User>, ticks: seq<nat>, s': Sys)
    requires LockedOut(c, boot, s) && s.running && Trap(s, f, ticks, s') && TableInv(c, s')
    requires f.intno != INT_SYS_ATOMIC_PRINT && !Critical(f.regs.pc) && !f.regs.pc.Yield?
    ensures LockedOut(c, boot, s')
  {
    TrapViews(s, f, ticks, s');
    forall p: nat | p < |s'.kern.procs| ensures View(s', p) == if p == s.kern.current then f.regs else View(s, p) {
      assert View(s', p) == Views(s')[p];
    }
  }

  /** If the lock is not zero in the memory the boot loader leaves, nobody ever prints, under any
      policy, preemptive or not. */
  lemma {:induction false} LockedOutForEver(c: Config, boot: Shared, ss: seq<Sys>, es: seq<Event>, t: nat)
    requires IsRunFrom(c, boot, ss, es) && boot.lock != 0 && t < |ss|
    ensures LockedOut(c, boot, ss[t])
    ensures var s := ss[t];
            && s.log == [] && s.kern.mem.lock != 0
            && forall j | 0 <= j < 2000 :: j in s.kern.mem.cells && s.kern.mem.cells[j] == 0x0720
  {
    if t == 0 {
      TableInitially(c, boot);
    } else {
      LockedOutForEver(c, boot, ss, es, t - 1);
      assert Step(c, ss[t - 1], es[t - 1], ss[t]);
      StepKeepsLockedOut(c, boot, ss[t - 1], es[t - 1], ss[t]);
    }
  }
}
