/** The whole system as a state machine: the applications of schedos-1.c running, instruction by
    instruction, on the kernel.  A clock interrupt may come between any two instructions. */
module Applications {
  import opened KernelTypes
  import opened Scheduling
  import opened Interrupts

  /** Where an application is.  `*cursorpos++ = PRINTCHAR` is the three instructions
      `LoadCursor`, `StoreCursor`, `StoreCell`. */
  datatype Pc =
    | SetPriority | SetShare | SetLottery
    | Acquire | LoadCursor | StoreCursor | StoreCell | Release | Yield
    | Exit | Gone

  /** The registers an application's state lives in. */
  datatype User = User(pc: Pc, i: nat, tmp: int)

  /** The constants each application is compiled with. */
  datatype App = App(glyph: int, priority: int32, share: int32, tickets: int32)

  /** The configuration: process `p` runs `apps[p - 1]`, each prints `runs` times. */
  datatype Config = Config(apps: seq<App>, runs: nat, algorithm: int)

  predicate Sane(c: Config) {
    |c.apps| >= 1 && 0 <= c.algorithm <= 4
  }

  predicate Pid(c: Config, p: int) {
    1 <= p <= |c.apps|
  }

  function AppOf(c: Config, p: nat): App
    requires Pid(c, p)
  {
    c.apps[p - 1]
  }

  predicate IsCall(pc: Pc) {
    pc.SetPriority? || pc.SetShare? || pc.SetLottery? || pc.Yield? || pc.Exit?
  }

  /** `atomic_swap(&lock, val)`: the old value and the new memory, in one step. */
  function AtomicSwap(m: Shared, val: uint32): (uint32, Shared) {
    (m.lock, m.(lock := val))
  }

  /** One user instruction. */
  function UserStep(c: Config, p: nat, u: User, m: Shared): (User, Shared)
    requires Pid(c, p)
  {
    match u.pc
    case Acquire =>
      var (was, m') := AtomicSwap(m, 1);
      (if was != 0 then u else u.(pc := LoadCursor), m')
    case LoadCursor => (u.(pc := StoreCursor, tmp := m.cursor), m)
    case StoreCursor => (u.(pc := StoreCell), m.(cursor := u.tmp + 1))
    case StoreCell => (u.(pc := Release), m.(cells := m.cells[u.tmp := AppOf(c, p).glyph]))
    case Release =>
      var (_, m') := AtomicSwap(m, 0);
      (u.(pc := Yield), m')
    case _ => (u, m)
  }

  /** The test of the counted loop. */
  function LoopHead(c: Config, u: User): User {
    u.(pc := if u.i < c.runs then Acquire else Exit)
  }

  /** The frame a system call hands to the kernel; its registers are those the call returns to. */
  function CallFrame(c: Config, p: nat, u: User): Frame<User>
    requires Pid(c, p) && IsCall(u.pc)
  {
    match u.pc
    case SetPriority => Frame(u.(pc := SetShare), INT_SYS_USER1, Unsigned(AppOf(c, p).priority))
    case SetShare => Frame(u.(pc := SetLottery), INT_SYS_USER2, Unsigned(AppOf(c, p).share))
    case SetLottery => Frame(LoopHead(c, u.(i := 0)), INT_SYS_SET_LOTTERY, Unsigned(AppOf(c, p).tickets))
    case Yield => Frame(LoopHead(c, u.(i := u.i + 1)), INT_SYS_YIELD, 0)
    case Exit => Frame(u.(pc := Gone), INT_SYS_EXIT, 0)
  }

  /** The machine: the kernel's memory, the registers in the processor, whether the processor is
      in user mode at all, and the history of lock acquisitions. */
  datatype Sys = Sys(kern: Kern<User>, cpu: User, running: bool, log: seq<nat>)

  datatype Event = Local | Call(ticks: seq<nat>) | Clock(ticks: seq<nat>)

  function Initial(c: Config, boot: Shared): Sys
    requires Sane(c)
  {
    var start := User(SetPriority, 0, 0);
    var k := InitialKern(start, seq(|c.apps|, _ => start), c.algorithm, boot);
    Sys(k, start, true, [])
  }

  /** A user instruction of the current process; winning the lock is recorded. */
  function LocalStep(c: Config, s: Sys): Sys
    requires Pid(c, s.kern.current)
  {
    var p := s.kern.current;
    var (u, m) := UserStep(c, p, s.cpu, s.kern.mem);
    var won := s.cpu.pc.Acquire? && u.pc.LoadCursor?;
    s.(kern := s.kern.(mem := m), cpu := u, log := if won then s.log + [p] else s.log)
  }

  /** An interrupt: the frame is handled, `schedule` chooses, `run` loads the chosen registers. */
  ghost predicate Trap(s: Sys, f: Frame<User>, ticks: seq<nat>, s': Sys) {
    && s.kern.current < |s.kern.procs|
    && s'.log == s.log
    && (if s'.running then
          && Scheduled(Handle(s.kern, f), ticks, s'.kern, Run(s'.kern.current))
          && s'.kern.current < |s'.kern.procs|
          && s'.cpu == s'.kern.procs[s'.kern.current].regs
        else
          && Scheduled(Handle(s.kern, f), ticks, s'.kern, Spin)
          && s'.cpu == s.cpu)
  }

  ghost predicate Step(c: Config, s: Sys, e: Event, s': Sys) {
    && s.running && Pid(c, s.kern.current)
    && match e
       case Local => !IsCall(s.cpu.pc) && s' == LocalStep(c, s)
       case Call(ticks) => IsCall(s.cpu.pc) && Trap(s, CallFrame(c, s.kern.current, s.cpu), ticks, s')
       case Clock(ticks) => Trap(s, Frame(s.cpu, INT_CLOCK, 0), ticks, s')
  }

  /** A run of the system from `start`, which leaves the lock as it finds it in memory. */
  ghost predicate IsRunFrom(c: Config, boot: Shared, ss: seq<Sys>, es: seq<Event>) {
    && Sane(c) && |ss| == |es| + 1 && ss[0] == Initial(c, boot)
    && forall t | 0 < t < |ss| :: Step(c, ss[t - 1], es[t - 1], ss[t])
  }

  /** A run with the lock free in the memory the boot loader leaves. */
  ghost predicate IsRun(c: Config, boot: Shared, ss: seq<Sys>, es: seq<Event>) {
    boot.lock == 0 && IsRunFrom(c, boot, ss, es)
  }

  /** With any applications, any number of prints and any of the five policies there are runs, beginning
      with process 1 about to make its first call. */
  lemma RunsBegin(c: Config, boot: Shared)
    requires |c.apps| >= 1 && 0 <= c.algorithm <= 4 && boot.lock == 0
    ensures IsRun(c, boot, [Initial(c, boot)], [])
    ensures var s := Initial(c, boot);
            && s.running && s.kern.current == 1 && s.cpu.pc.SetPriority? && s.log == []
            && s.kern.mem.lock == 0 && s.kern.algorithm == c.algorithm && |s.kern.procs| == |c.apps| + 1
            && forall p | 1 <= p <= |c.apps| ::
                 s.kern.procs[p].state.Runnable? && s.kern.procs[p].regs.pc.SetPriority?
  {
  }

  lemma RunStarts(c: Config, boot: Shared, ss: seq<Sys>, es: seq<Event>)
    requires IsRun(c, boot, ss, es)
    ensures Sane(c) && boot.lock == 0 && |ss| == |es| + 1 && ss[0] == Initial(c, boot)
  {
  }

  lemma RunStep(c: Config, boot: Shared, ss: seq<Sys>, es: seq<Event>, t: nat)
    requires IsRun(c, boot, ss, es) && 0 < t < |ss|
    ensures t - 1 < |es| && Step(c, ss[t - 1], es[t - 1], ss[t])
  {
  }

  // ----- Every process's registers, wherever they are -----

  function View(s: Sys, p: nat): User
    requires p < |s.kern.procs|
  {
    if s.running && p == s.kern.current then s.cpu else s.kern.procs[p].regs
  }

  function Views(s: Sys): (vs: seq<User>)
    ensures |vs| == |s.kern.procs|
    ensures forall p | 0 <= p < |vs| :: vs[p] == View(s, p)
  {
    seq(|s.kern.procs|, p requires 0 <= p < |s.kern.procs| => View(s, p))
  }

  /** An interrupt moves nobody's registers but the interrupted process's, whose registers become
      those of the frame; it leaves memory to `Handle`. */
  lemma TrapViews(s: Sys, f: Frame<User>, ticks: seq<nat>, s': Sys)
    requires s.running && WellFormed(s.kern) && Trap(s, f, ticks, s')
    ensures Views(s') == Views(s)[s.kern.current := f.regs]
    ensures s'.kern.mem == HandleMemory(s.kern.mem, f) && s'.kern.algorithm == s.kern.algorithm
  {
    var h := Handle(s.kern, f);
    if s'.running {
      ScheduledRuns(h, ticks, s'.kern, s'.kern.current);
    }
    var vs, vs' := Views(s)[s.kern.current := f.regs], Views(s');
    assert |vs'| == |vs|;
    forall p | 0 <= p < |vs| ensures vs'[p] == vs[p] {
      assert vs'[p] == View(s', p);
      assert s'.kern.procs[p].regs == h.procs[p].regs;
    }
  }

  lemma LocalViews(c: Config, s: Sys)
    requires s.running && Pid(c, s.kern.current) && s.kern.current < |s.kern.procs|
    ensures Views(LocalStep(c, s)) == Views(s)[s.kern.current := UserStep(c, s.kern.current, s.cpu, s.kern.mem).0]
  {
  }

  // ----- The process table -----

  /** What holds of the process table whenever the system is observed. */
  ghost predicate TableInv(c: Config, s: Sys) {
    && |s.kern.procs| == |c.apps| + 1
    && WellFormed(s.kern) && ShareInv(s.kern) && s.kern.algorithm == c.algorithm
    && s.kern.procs[0].state.Empty?
    && (forall p | Pid(c, p) :: s.kern.procs[p].state == if View(s, p).pc.Gone? then Zombie else Runnable)
    && (s.running ==> Runs(s.kern.procs, s.kern.current))
  }

  lemma TableInitially(c: Config, boot: Shared)
    requires Sane(c)
    ensures TableInv(c, Initial(c, boot))
  {
  }

  /** Everything an interrupt changes in a descriptor other than the running count. */
  lemma TrapTable(c: Config, s: Sys, f: Frame<User>, ticks: seq<nat>, s': Sys)
    requires TableInv(c, s) && s.running && Trap(s, f, ticks, s')
    ensures |s'.kern.procs| == |s.kern.procs| && WellFormed(s'.kern) && ShareInv(s'.kern)
    ensures s'.running ==> Runs(s'.kern.procs, s'.kern.current)
    ensures forall p | 0 <= p < |s.kern.procs| ::
              var d := if p == s.kern.current then HandleDescriptor(s.kern.procs[p], f) else s.kern.procs[p];
              && s'.kern.procs[p] == d.(numTimes := s'.kern.procs[p].numTimes)
              && (!d.state.Runnable? ==> s'.kern.procs[p] == d)
  {
    var h := Handle(s.kern, f);
    var o := if s'.running then Run(s'.kern.current) else Spin;
    InterruptKeepsInvariant(s.kern, f, ticks, s'.kern, o);
    if s'.running {
      ScheduledRuns(h, ticks, s'.kern, s'.kern.current);
      assert forall p | 0 <= p < |h.procs| && !h.procs[p].state.Runnable? :: s'.kern.procs[p] == h.procs[p];
    }
  }

  lemma TrapKeepsTable(c: Config, s: Sys, f: Frame<User>, ticks: seq<nat>, s': Sys)
    requires TableInv(c, s) && s.running && Pid(c, s.kern.current) && Trap(s, f, ticks, s')
    requires f.regs.pc.Gone? <==> f.intno == INT_SYS_EXIT
    ensures TableInv(c, s')
  {
    TrapTable(c, s, f, ticks, s');
    TrapViews(s, f, ticks, s');
    forall p | Pid(c, p) ensures s'.kern.procs[p].state == if View(s', p).pc.Gone? then Zombie else Runnable {
      assert View(s', p) == Views(s')[p] == if p == s.kern.current then f.regs else View(s, p);
    }
  }

  lemma StepKeepsTable(c: Config, s: Sys, e: Event, s': Sys)
    requires TableInv(c, s) && Step(c, s, e, s')
    ensures TableInv(c, s')
  {
    assert !View(s, s.kern.current).pc.Gone?;
    match e
    case Local =>
      LocalViews(c, s);
      forall p | Pid(c, p) ensures View(s', p).pc.Gone? <==> View(s, p).pc.Gone? {
        assert View(s', p) == Views(s')[p];
      }
    case Call(ticks) => TrapKeepsTable(c, s, CallFrame(c, s.kern.current, s.cpu), ticks, s');
    case Clock(ticks) => TrapKeepsTable(c, s, Frame(s.cpu, INT_CLOCK, 0), ticks, s');
  }

  lemma {:induction false} RunKeepsTable(c: Config, boot: Shared, ss: seq<Sys>, es: seq<Event>, t: nat)
    requires IsRun(c, boot, ss, es) && t < |ss|
    ensures TableInv(c, ss[t])
  {
    hide *;
    RunStarts(c, boot, ss, es);
    if t == 0 {
      TableInitially(c, boot);
    } else {
      RunStep(c, boot, ss, es, t);
      RunKeepsTable(c, boot, ss, es, t - 1);
      StepKeepsTable(c, ss[t - 1], es[t - 1], ss[t]);
    }
  }

  /** Process-table safety over every run: descriptors move only from runnable to zombie; an empty
      or zombie descriptor, with its exit status, never changes again; slot 0 stays empty; and
      whoever has the processor is runnable. */
  lemma {:induction false} TableSafety(c: Config, boot: Shared, ss: seq<Sys>, es: seq<Event>, t: nat, t': nat, p: nat)
    requires IsRun(c, boot, ss, es) && t <= t' < |ss| && p <= |c.apps|
    ensures |ss[t].kern.procs| == |ss[t'].kern.procs| == |c.apps| + 1
    ensures Frozen(ss[t].kern.procs[p], ss[t'].kern.procs[p])
    ensures ss[t].kern.procs[p].state.Zombie? ==> ss[t'].kern.procs[p] == ss[t].kern.procs[p]
    ensures ss[t].kern.procs[p].state.Runnable? ==>
              ss[t'].kern.procs[p].state.Runnable? || ss[t'].kern.procs[p].state.Zombie?
    ensures ss[t'].kern.procs[0].state.Empty?
    ensures ss[t'].running ==> Runs(ss[t'].kern.procs, ss[t'].kern.current)
    ensures ss[t].kern.procs[p].state.Zombie? && ss[t'].running ==> ss[t'].kern.current != p
    decreases t' - t
  {
    hide *;
    RunKeepsTable(c, boot, ss, es, t');
    TableParts(c, ss[t']);
    RunKeepsTable(c, boot, ss, es, t);
    TableParts(c, ss[t]);
    if t == t' {
      FrozenRefl(ss[t].kern.procs, p);
    } else {
      TableSafety(c, boot, ss, es, t, t' - 1, p);
      RunKeepsTable(c, boot, ss, es, t' - 1);
      TableParts(c, ss[t' - 1]);
      RunStep(c, boot, ss, es, t');
      StepFreezes(c, ss[t' - 1], es[t' - 1], ss[t'], p);
      FrozenTrans(ss[t].kern.procs[p], ss[t' - 1].kern.procs[p], ss[t'].kern.procs[p]);
    }
    FrozenMeans(ss[t].kern.procs[p], ss[t'].kern.procs[p]);
    if ss[t'].running {
      OnlyRunnableRuns(ss[t'].kern, p);
    }
  }

  lemma TableParts(c: Config, s: Sys)
    requires TableInv(c, s)
    ensures |s.kern.procs| == |c.apps| + 1 && WellFormed(s.kern) && s.kern.algorithm == c.algorithm
    ensures s.kern.procs[0].state.Empty? && (s.running ==> Runs(s.kern.procs, s.kern.current))
  {
  }

  lemma StepFreezes(c: Config, s: Sys, e: Event, s': Sys, p: nat)
    requires TableInv(c, s) && Step(c, s, e, s') && p < |s.kern.procs|
    ensures |s'.kern.procs| == |s.kern.procs| && Frozen(s.kern.procs[p], s'.kern.procs[p])
  {
    match e
    case Local =>
    case Call(ticks) => TrapTable(c, s, CallFrame(c, s.kern.current, s.cpu), ticks, s');
    case Clock(ticks) => TrapTable(c, s, Frame(s.cpu, INT_CLOCK, 0), ticks, s');
  }
}
