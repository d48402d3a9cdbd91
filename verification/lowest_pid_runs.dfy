/** Policy 1 with clock interrupts: they give the processor back to the process they take it from, so
    the preemptive runs print what the cooperative ones print. */
module LowestPidRuns {
  import opened KernelTypes
  import opened Scheduling
  import opened Interrupts
  import opened Applications
  import opened LockSafety
  import opened Turns
  import opened Prints
  import opened Cooperative

  /** Nobody with a lower pid than the running process is runnable. */
  ghost predicate LowestRuns(s: Sys) {
    s.running ==> forall q | Runs(s.kern.procs, q) :: s.kern.current <= q
  }

  lemma TrapLowest(s: Sys, f: Frame<User>, ticks: seq<nat>, s': Sys)
    requires s.kern.algorithm == 1 && Trap(s, f, ticks, s')
    ensures LowestRuns(s')
  {
    if s'.running {
      assert Best(Handle(s.kern, f), s'.kern.current);
    }
  }

  lemma StepLowest(c: Config, s: Sys, e: Event, s': Sys)
    requires s.kern.algorithm == 1 && LowestRuns(s) && Step(c, s, e, s')
    ensures LowestRuns(s')
  {
    hide Trap;
    match e
    case Local =>
    case Call(ticks) => TrapLowest(s, CallFrame(c, s.kern.current, s.cpu), ticks, s');
    case Clock(ticks) => TrapLowest(s, Frame(s.cpu, INT_CLOCK, 0), ticks, s');
  }

  /** A clock interrupt changes nothing an application could notice. */
  lemma ClockReturns(c: Config, s: Sys, ticks: seq<nat>, s': Sys)
    requires TableInv(c, s) && c.algorithm == 1 && LowestRuns(s) && Step(c, s, Clock(ticks), s')
    ensures s.running && s'.running && s'.kern.current == s.kern.current && s'.cpu == s.cpu
    ensures |s'.kern.procs| == |s.kern.procs| && Views(s') == Views(s)
    ensures s'.kern.mem == s.kern.mem && s'.log == s.log
  {
    var f := Frame(s.cpu, INT_CLOCK, 0);
    var h := Handle(s.kern, f);
    assert forall q :: Runs(h.procs, q) <==> Runs(s.kern.procs, q);
    assert Best(h, s.kern.current);
    assert s'.running && Best(h, s'.kern.current);
    TrapViews(s, f, ticks, s');
    assert Views(s)[s.kern.current := s.cpu] == Views(s);
  }

  lemma ClockKeepsCoop(c: Config, boot: Shared, s: Sys, ticks: seq<nat>, s': Sys, done: seq<Turn>)
    requires CoopInv(c, boot, s, done) && c.algorithm == 1 && LowestRuns(s) && Step(c, s, Clock(ticks), s')
    ensures CoopInv(c, boot, s', done)
  {
    hide SysInv;
    hide TurnsFrom;
    hide Whole;
    hide Printed;
    hide Step;
    CallTable(c, boot, s);
    ClockReturns(c, s, ticks, s');
    StepKeepsLock(c, boot, s, Clock(ticks), s');
    forall p: nat | p < |s'.kern.procs| ensures View(s', p) == View(s, p) {
      assert Views(s')[p] == View(s', p) && Views(s)[p] == View(s, p);
    }
  }

  lemma {:induction false} LowestKeeps(c: Config, boot: Shared, ss: seq<Sys>, es: seq<Event>, t: nat)
    requires IsRun(c, boot, ss, es) && c.algorithm == 1 && t <= |es| && t < |ss|
    ensures CoopInv(c, boot, ss[t], Done(c, ss, es, t)) && LowestRuns(ss[t])
  {
    hide *;
    RunStarts(c, boot, ss, es);
    IsPredictable(c);
    if t == 0 {
      CoopInitially(c, boot);
      LowestInitially(c, boot);
      NothingDone(c, ss, es);
    } else {
      RunStep(c, boot, ss, es, t);
      LowestKeeps(c, boot, ss, es, t - 1);
      RunKeepsTable(c, boot, ss, es, t - 1);
      TableParts(c, ss[t - 1]);
      StepLowest(c, ss[t - 1], es[t - 1], ss[t]);
      MoreDone(c, ss, es, t);
      match es[t - 1]
      case Local => LocalKeepsCoop(c, boot, ss[t - 1], ss[t], Done(c, ss, es, t - 1));
      case Call(ticks) => CallKeepsCoop(c, boot, ss[t - 1], ticks, ss[t], Done(c, ss, es, t - 1));
      case Clock(ticks) => ClockKeepsCoop(c, boot, ss[t - 1], ticks, ss[t], Done(c, ss, es, t - 1));
    }
  }

  lemma IsPredictable(c: Config)
    requires Sane(c) && c.algorithm == 1
    ensures Predictable(c)
  {
  }

  lemma LowestInitially(c: Config, boot: Shared)
    requires Sane(c)
    ensures LowestRuns(Initial(c, boot))
  {
  }

  lemma NothingDone(c: Config, ss: seq<Sys>, es: seq<Event>)
    requires |es| <= |ss|
    ensures Done(c, ss, es, 0) == []
  {
  }

  lemma MoreDone(c: Config, ss: seq<Sys>, es: seq<Event>, t: nat)
    requires 0 < t <= |es| <= |ss|
    ensures Done(c, ss, es, t) == if es[t - 1].Call?
            then Done(c, ss, es, t - 1) + [Turn(ss[t - 1].kern.current, PosOf(c, ss[t - 1].cpu))]
            else Done(c, ss, es, t - 1)
  {
    hide PosOf;
  }

  // ----- The theorems -----

  /** In every run of policy 1, wherever clock interrupts fall, the prints so far begin `1^R ... N^R`. */
  lemma LowestPrefix(c: Config, boot: Shared, ss: seq<Sys>, es: seq<Event>, t: nat)
    requires IsRun(c, boot, ss, es) && c.algorithm == 1 && t < |ss|
    ensures ss[t].log <= OneByOne(c, 1)
  {
    hide *;
    RunStarts(c, boot, ss, es);
    IsPredictable(c);
    LowestKeeps(c, boot, ss, es, t);
    PrefixSoFar(c, boot, ss[t], Done(c, ss, es, t));
    ExpectedOneByOne(c);
  }

  lemma ExpectedOneByOne(c: Config)
    requires c.algorithm == 1
    ensures ExpectedPrints(c) == OneByOne(c, 1)
  {
  }

  /** When it stops, the screen shows exactly that. */
  lemma LowestScreen(c: Config, boot: Shared, ss: seq<Sys>, es: seq<Event>, t: nat)
    requires IsRun(c, boot, ss, es) && c.algorithm == 1 && t < |ss| && !ss[t].running
    ensures ss[t].log == OneByOne(c, 1) && ss[t].kern.mem.lock == 0
    ensures ss[t].kern.mem.cells == Screen(c, Base(boot), OneByOne(c, 1))
  {
    hide *;
    RunStarts(c, boot, ss, es);
    IsPredictable(c);
    LowestKeeps(c, boot, ss, es, t);
    StoppedLog(c, boot, ss[t], Done(c, ss, es, t));
    ExactPrints(c);
    ExpectedOneByOne(c);
    StoppedMeansGone(c, boot, ss, es, t);
    SlotsAre(c);
    AllPrinted(c, boot, ss, es, t);
  }

  lemma SlotsAre(c: Config)
    ensures Slots(c) == |c.apps| + 1
  {
  }

  lemma StoppedLog(c: Config, boot: Shared, s: Sys, done: seq<Turn>)
    requires CoopInv(c, boot, s, done) && !s.running
    ensures s.log == Printed(c, Whole(c))
  {
    hide SysInv;
    hide AtRest;
    hide Whole;
    hide Printed;
    hide TurnsFrom;
    CallTable(c, boot, s);
    assert done + [] == done;
  }

  /** And the lock is free whenever a process tries to take it. */
  lemma LowestUncontended(c: Config, boot: Shared, ss: seq<Sys>, es: seq<Event>, t: nat)
    requires IsRun(c, boot, ss, es) && c.algorithm == 1 && t < |ss| && ss[t].running && ss[t].cpu.pc.Acquire?
    ensures ss[t].kern.mem.lock == 0
  {
    hide *;
    RunStarts(c, boot, ss, es);
    LowestKeeps(c, boot, ss, es, t);
    CoopParts(c, boot, ss[t], Done(c, ss, es, t));
    NeverContended(c, boot, ss[t]);
  }
}
