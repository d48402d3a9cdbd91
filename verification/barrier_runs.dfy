/** Exactly when policy 2 keeps the barrier, and exactly when it keeps its lock holders from being
    outranked, over all runs: where it does not, a run that shows it. */
module BarrierRuns {
  import opened KernelTypes
  import opened Scheduling
  import opened Interrupts
  import opened Applications
  import opened Fairness
  import opened LockSafety
  import opened PriorityBarrier
  import Turns

  /** Some run of the system reaches the state. */
  ghost predicate Reachable(c: Config, boot: Shared, s: Sys) {
    exists ss: seq<Sys>, es: seq<Event> :: IsRun(c, boot, ss, es) && ss[|es|] == s
  }

  lemma InitialReachable(c: Config, boot: Shared)
    requires Sane(c) && boot.lock == 0
    ensures Reachable(c, boot, Initial(c, boot))
  {
    assert IsRun(c, boot, [Initial(c, boot)], []);
  }

  lemma StepReachable(c: Config, boot: Shared, s: Sys, e: Event, s': Sys)
    requires Reachable(c, boot, s) && Step(c, s, e, s')
    ensures Reachable(c, boot, s')
  {
    var ss: seq<Sys>, es: seq<Event> :| IsRun(c, boot, ss, es) && ss[|es|] == s;
    hide Step;
    var ss', es' := ss + [s'], es + [e];
    forall t | 0 < t < |ss'| ensures Step(c, ss'[t - 1], es'[t - 1], ss'[t]) {
      if t < |ss| {
        assert Step(c, ss[t - 1], es[t - 1], ss[t]);
      }
    }
    assert IsRun(c, boot, ss', es') && ss'[|es'|] == s';
  }

  /** Every state of every run is reachable. */
  lemma RunReachable(c: Config, boot: Shared, ss: seq<Sys>, es: seq<Event>, t: nat)
    requires IsRun(c, boot, ss, es) && t < |ss|
    ensures Reachable(c, boot, ss[t])
  {
    hide Step;
    assert IsRun(c, boot, ss[..t + 1], es[..t]);
  }

  // ----- Steering a run -----

  /** `schedule` picks somebody, and that is a step. */
  lemma PickStep(s: Sys, f: Frame<User>) returns (s': Sys)
    requires s.kern.algorithm == 2 && s.kern.current < |s.kern.procs| && AnyRuns(Handle(s.kern, f).procs)
    ensures Trap(s, f, [], s') && s'.running && s'.log == s.log && s'.kern.mem == HandleMemory(s.kern.mem, f)
    ensures IsPick(Handle(s.kern, f), s'.kern.current)
    ensures s'.kern == Handle(s.kern, f).(current := s'.kern.current)
  {
    var h := Handle(s.kern, f);
    PickExists(h);
    var r: int :| IsPick(h, r);
    s' := Sys(h.(current := r), h.procs[r].regs, true, s.log);
  }

  /** A clock interrupt changes nothing the policy looks at. */
  lemma ClockBest(s: Sys, p: nat)
    requires s.kern.current < |s.kern.procs| && Best(s.kern, p)
    ensures Best(Handle(s.kern, Frame(s.cpu, INT_CLOCK, 0)), p)
  {
    var h := Handle(s.kern, Frame(s.cpu, INT_CLOCK, 0));
    assert SameTable(s.kern, h);
    SameBest(s.kern, h, s.kern.current, p);
    assert h.(current := s.kern.current) == h;
  }

  lemma ClockStep(c: Config, s: Sys, p: nat) returns (s': Sys)
    requires AssignedInv(c, s) && s.running && c.algorithm == 2 && Pid(c, p) && Best(s.kern, p) && s.kern.current != p
    ensures Step(c, s, Clock([]), s') && AssignedInv(c, s') && s'.running && Best(s'.kern, p)
    ensures Views(s') == Views(s) && s'.log == s.log && s'.kern.mem == s.kern.mem
    ensures |s'.kern.procs| == |s.kern.procs|
    ensures 0 <= Dist(|s.kern.procs|, s.kern.current, p)
    ensures || s'.kern.current == p
            || 0 <= Dist(|s.kern.procs|, s'.kern.current, p) < Dist(|s.kern.procs|, s.kern.current, p)
  {
    var f := Frame(s.cpu, INT_CLOCK, 0);
    var h := Handle(s.kern, f);
    ClockBest(s, p);
    s' := PickStep(s, f);
    assert Step(c, s, Clock([]), s');
    hide Step;
    StepKeepsAssigned(c, s, Clock([]), s');
    TrapViews(s, f, [], s');
    assert Views(s)[s.kern.current] == s.cpu;
    hide Trap;
    if s'.kern.current != p {
      WaitingShrinks(h, s'.kern.current, p);
    }
    SameBest(h, h, s'.kern.current, p);
    hide Best;
  }

  /** Clock interrupts alone bring any process of the best class to the processor. */
  lemma {:induction false} ClockTo(c: Config, boot: Shared, s: Sys, p: nat) returns (s': Sys)
    requires Reachable(c, boot, s) && AssignedInv(c, s) && s.running && c.algorithm == 2 && Pid(c, p) && Best(s.kern, p)
    ensures Reachable(c, boot, s') && AssignedInv(c, s') && s'.running && s'.kern.current == p
    ensures Views(s') == Views(s) && s'.log == s.log && s'.kern.mem == s.kern.mem
    decreases if s.kern.current == p then 0 else Dist(|s.kern.procs|, s.kern.current, p) + 1
  {
    hide Reachable;
    hide AssignedInv;
    hide Step;
    hide Views;
    hide Best;
    if s.kern.current == p {
      s' := s;
    } else {
      var s1 := ClockStep(c, s, p);
      StepReachable(c, boot, s, Clock([]), s1);
      s' := ClockTo(c, boot, s1, p);
    }
  }

  /** The current process makes a system call that leaves it runnable. */
  lemma CallStep(c: Config, s: Sys) returns (s': Sys)
    requires AssignedInv(c, s) && s.running && c.algorithm == 2 && Pid(c, s.kern.current)
    requires IsCall(s.cpu.pc) && !s.cpu.pc.Exit?
    ensures Step(c, s, Call([]), s') && AssignedInv(c, s') && s'.running
    ensures Views(s') == Views(s)[s.kern.current := CallFrame(c, s.kern.current, s.cpu).regs]
    ensures s'.log == s.log && s'.kern.mem == s.kern.mem
  {
    var f := CallFrame(c, s.kern.current, s.cpu);
    assert Runs(Handle(s.kern, f).procs, s.kern.current);
    s' := PickStep(s, f);
    assert Step(c, s, Call([]), s');
    StepKeepsAssigned(c, s, Call([]), s');
    TrapViews(s, f, [], s');
  }

  // ----- A process of priority zero or less wins the lock first -----

  /** Nobody but `p` has made a call, the lock is free, and nothing has been printed. */
  ghost predicate Ahead(c: Config, boot: Shared, s: Sys, p: nat, pc: Pc) {
    && Reachable(c, boot, s) && AssignedInv(c, s) && s.running && s.log == [] && s.kern.mem.lock == 0
    && p < |s.kern.procs| && View(s, p).pc == pc && (pc.Acquire? ==> View(s, p).i < c.runs)
    && forall q | Pid(c, q) && q != p :: View(s, q).pc.SetPriority?
  }

  lemma AheadIsBest(c: Config, boot: Shared, s: Sys, p: nat, pc: Pc)
    requires c.algorithm == 2 && Pid(c, p) && AppOf(c, p).priority <= 0 && Ahead(c, boot, s, p, pc) && !pc.Gone?
    ensures Best(s.kern, p)
  {
    assert s.kern.procs[p].state == Runnable;
    forall q | Runs(s.kern.procs, q) ensures s.kern.procs[p].priority <= s.kern.procs[q].priority {
      assert Pid(c, q);
    }
  }

  /** One of the three set-up calls, after as many clock interrupts as it takes. */
  lemma AheadCalls(c: Config, boot: Shared, s: Sys, p: nat, pc: Pc) returns (s': Sys)
    requires c.algorithm == 2 && Pid(c, p) && AppOf(c, p).priority <= 0 && Ahead(c, boot, s, p, pc) && c.runs > 0
    requires pc.SetPriority? || pc.SetShare? || pc.SetLottery?
    ensures Ahead(c, boot, s', p, if pc.SetPriority? then SetShare else if pc.SetShare? then SetLottery else Acquire)
  {
    hide Reachable;
    hide AssignedInv;
    hide Step;
    AheadIsBest(c, boot, s, p, pc);
    AssignedSize(c, s);
    var s1 := ClockTo(c, boot, s, p);
    AssignedSize(c, s1);
    assert Views(s1)[p] == s1.cpu == View(s, p);
    s' := CallStep(c, s1);
    StepReachable(c, boot, s1, Call([]), s');
    AssignedSize(c, s');
    assert View(s', p) == Views(s')[p];
    forall q | Pid(c, q) && q != p ensures View(s', q).pc.SetPriority? {
      assert View(s', q) == Views(s')[q] == Views(s1)[q] == View(s, q);
    }
  }

  lemma AssignedSize(c: Config, s: Sys)
    requires AssignedInv(c, s)
    ensures |s.kern.procs| == Turns.Slots(c) && (s.running ==> Pid(c, s.kern.current))
  {
  }

  lemma FirstWins(c: Config, boot: Shared, p: nat) returns (s: Sys)
    requires Sane(c) && c.algorithm == 2 && boot.lock == 0 && c.runs > 0 && Pid(c, p) && AppOf(c, p).priority <= 0
    ensures Reachable(c, boot, s) && AssignedInv(c, s) && s.running && s.log == [p] && View(s, p).pc.LoadCursor?
    ensures forall q | Pid(c, q) && q != p :: View(s, q).pc.SetPriority?
  {
    var s0 := Initial(c, boot);
    InitialReachable(c, boot);
    TableInitially(c, boot);
    assert Ahead(c, boot, s0, p, SetPriority);
    hide Ahead;
    var s1 := AheadCalls(c, boot, s0, p, SetPriority);
    var s2 := AheadCalls(c, boot, s1, p, SetShare);
    var s3 := AheadCalls(c, boot, s2, p, SetLottery);
    s := AheadWins(c, boot, s3, p);
  }

  lemma AheadWins(c: Config, boot: Shared, s: Sys, p: nat) returns (s': Sys)
    requires c.algorithm == 2 && Pid(c, p) && AppOf(c, p).priority <= 0 && Ahead(c, boot, s, p, Acquire)
    ensures Reachable(c, boot, s') && AssignedInv(c, s') && s'.running && s'.log == [p] && View(s', p).pc.LoadCursor?
    ensures forall q | Pid(c, q) && q != p :: View(s', q).pc.SetPriority?
  {
    hide Reachable;
    AheadIsBest(c, boot, s, p, Acquire);
    AssignedSize(c, s);
    var s1 := ClockTo(c, boot, s, p);
    AssignedSize(c, s1);
    assert Views(s1)[p] == s1.cpu == View(s, p);
    s' := LocalStep(c, s1);
    assert Step(c, s1, Local, s');
    StepReachable(c, boot, s1, Local, s');
    LocalKeepsAssigned(c, s1, s');
    forall q | Pid(c, q) && q != p ensures View(s', q).pc.SetPriority? {
      assert View(s', q) == View(s1, q) == Views(s1)[q] == View(s, q);
    }
  }

  // ----- The barrier -----

  /** If anybody has won the lock, everybody has set its priority. */
  ghost predicate BarrierKept(c: Config, s: Sys) {
    s.log != [] ==> forall q: nat | Pid(c, q) :: q < |s.kern.procs| && !View(s, q).pc.SetPriority?
  }

  /** Every state of every run of policy 2 keeps the barrier exactly if all priorities are positive, or
      nobody ever prints, or there is nobody to wait for. */
  lemma BarrierIff(c: Config, boot: Shared)
    requires Sane(c) && c.algorithm == 2 && boot.lock == 0
    ensures (forall ss: seq<Sys>, es: seq<Event>, t: nat | IsRun(c, boot, ss, es) && t < |ss| :: BarrierKept(c, ss[t]))
            <==> PositivePriorities(c) || c.runs == 0 || |c.apps| == 1
  {
    hide IsRun;
    hide Reachable;
    if PositivePriorities(c) || c.runs == 0 || |c.apps| == 1 {
      forall ss: seq<Sys>, es: seq<Event>, t: nat | IsRun(c, boot, ss, es) && t < |ss| ensures BarrierKept(c, ss[t]) {
        RunReachable(c, boot, ss, es, t);
        BarrierHolds(c, boot, ss[t]);
      }
    } else {
      var p: nat :| Pid(c, p) && AppOf(c, p).priority <= 0;
      var s := FirstWins(c, boot, p);
      AssignedSize(c, s);
      assert View(s, if p == 1 then 2 else 1).pc.SetPriority?;
      var ss, es := RunTo(c, boot, s);
      assert !BarrierKept(c, ss[|es|]);
    }
  }

  lemma BarrierHolds(c: Config, boot: Shared, s: Sys)
    requires Reachable(c, boot, s) && (PositivePriorities(c) || c.runs == 0 || |c.apps| == 1)
    ensures BarrierKept(c, s)
  {
    var ss, es := RunTo(c, boot, s);
    hide IsRun;
    hide View;
    hide PositivePriorities;
    if s.log != [] {
      forall q: nat | Pid(c, q) ensures q < |s.kern.procs| && !View(s, q).pc.SetPriority? {
        PastBarrier(c, boot, ss, es, q);
      }
    }
  }

  lemma PastBarrier(c: Config, boot: Shared, ss: seq<Sys>, es: seq<Event>, q: nat)
    requires IsRun(c, boot, ss, es) && |ss| == |es| + 1 && ss[|es|].log != [] && Pid(c, q)
    requires PositivePriorities(c) || c.runs == 0 || |c.apps| == 1
    ensures q < |ss[|es|].kern.procs| && !View(ss[|es|], q).pc.SetPriority?
  {
    hide *;
    PrintsBounded(c, boot, ss, es, |es|, q);
    if PositivePriorities(c) {
      NoLockBeforeBarrier(c, boot, ss, es, |es|, q);
    } else if |c.apps| == 1 {
      RunKeepsLock(c, boot, ss, es, |es|);
      AlonePastBarrier(c, boot, ss[|es|]);
      OnlyPid(c, q);
    }
  }

  lemma OnlyPid(c: Config, q: nat)
    requires Pid(c, q) && |c.apps| == 1
    ensures q == 1
  {
  }

  lemma RunTo(c: Config, boot: Shared, s: Sys) returns (ss: seq<Sys>, es: seq<Event>)
    requires Reachable(c, boot, s)
    ensures IsRun(c, boot, ss, es) && |ss| == |es| + 1 && ss[|es|] == s
  {
    ss, es :| IsRun(c, boot, ss, es) && ss[|es|] == s;
  }

  /** The only process there is has won the lock itself. */
  lemma AlonePastBarrier(c: Config, boot: Shared, s: Sys)
    requires SysInv(c, boot, s) && |c.apps| == 1 && s.log != []
    ensures |s.kern.procs| == 2 && !View(s, 1).pc.SetPriority?
  {
    hide LockInv;
    assert s.log[0] == 1 && s.log[0] in multiset(s.log);
    assert Pid(c, 1) && Views(s)[1] == View(s, 1);
  }

  // ----- Inversion -----

  /** The lock holder is of the best runnable class, and nobody of another class is running. */
  ghost predicate NotOutranked(c: Config, s: Sys) {
    forall h: nat | Pid(c, h) && h < |s.kern.procs| && Critical(View(s, h).pc) ::
      && Best(s.kern, h)
      && (s.running ==> s.kern.current < |s.kern.procs|
                        && s.kern.procs[s.kern.current].priority == s.kern.procs[h].priority)
  }

  lemma LeadsNotOutranked(c: Config, s: Sys)
    requires c.algorithm == 2 && LeadInv(c, s)
    ensures NotOutranked(c, s)
  {
    forall h: nat | Pid(c, h) && h < |s.kern.procs| && Critical(View(s, h).pc)
      ensures Best(s.kern, h)
      ensures s.running ==> s.kern.procs[s.kern.current].priority == s.kern.procs[h].priority
    {
      assert s.kern.procs[h].state == Runnable;
      if s.running {
        HolderTies(c, s, h);
      }
    }
  }

  lemma NobodyPrints(c: Config, boot: Shared, s: Sys, h: nat)
    requires SysInv(c, boot, s) && c.runs == 0 && Pid(c, h) && h < |s.kern.procs|
    ensures !Critical(View(s, h).pc)
  {
    hide LockInv;
    assert Views(s)[h] == View(s, h);
  }

  lemma CalmHolds(c: Config, boot: Shared, s: Sys)
    requires Reachable(c, boot, s) && c.algorithm == 2 && (Calm(c) || c.runs == 0)
    ensures NotOutranked(c, s)
  {
    hide LeadInv;
    hide SysInv;
    hide Step;
    hide Calm;
    var ss: seq<Sys>, es: seq<Event> :| IsRun(c, boot, ss, es) && ss[|es|] == s;
    if Calm(c) {
      RunKeepsLeads(c, boot, ss, es, |es|);
      LeadsNotOutranked(c, s);
    } else {
      RunKeepsLock(c, boot, ss, es, |es|);
      forall h: nat | Pid(c, h) && h < |s.kern.procs| ensures !Critical(View(s, h).pc) {
        NobodyPrints(c, boot, s, h);
      }
    }
  }

  /** A lock holder of priority zero, interrupted before another process gives itself a negative
      priority, is outranked. */
  lemma Outranked(c: Config, boot: Shared, h: nat, q: nat) returns (s: Sys)
    requires Sane(c) && c.algorithm == 2 && boot.lock == 0 && c.runs > 0 && Pid(c, h) && Pid(c, q)
    requires AppOf(c, h).priority == 0 && AppOf(c, q).priority < 0
    ensures Reachable(c, boot, s) && AssignedInv(c, s) && s.running && s.log == [h]
    ensures View(s, h).pc.LoadCursor? && View(s, q).pc.SetShare?
    ensures forall r | Pid(c, r) && r != h && r != q :: View(s, r).pc.SetPriority?
  {
    var s1 := FirstWins(c, boot, h);
    AssignedSize(c, s1);
    assert Best(s1.kern, q) by {
      assert s1.kern.procs[q].state == Runnable;
      forall r | Runs(s1.kern.procs, r) ensures s1.kern.procs[q].priority <= s1.kern.procs[r].priority {
        assert Pid(c, r);
      }
    }
    hide Reachable;
    hide AssignedInv;
    hide Step;
    var s2 := ClockTo(c, boot, s1, q);
    AssignedSize(c, s2);
    assert Views(s2)[q] == s2.cpu == View(s1, q);
    s := CallStep(c, s2);
    StepReachable(c, boot, s2, Call([]), s);
    AssignedSize(c, s);
    forall r: nat | Pid(c, r) ensures View(s, r) == if r == q then s2.cpu.(pc := SetShare) else View(s1, r) {
      assert View(s, r) == Views(s)[r] && Views(s2)[r] == View(s1, r);
    }
  }

  /** Under policy 2 no state of any run has its lock holder outranked exactly if nobody ever prints or
      no priority of zero stands beside a negative one. */
  lemma InversionIff(c: Config, boot: Shared)
    requires Sane(c) && c.algorithm == 2 && boot.lock == 0
    ensures (forall ss: seq<Sys>, es: seq<Event>, t: nat | IsRun(c, boot, ss, es) && t < |ss| :: NotOutranked(c, ss[t]))
            <==> c.runs == 0 || Calm(c)
  {
    hide IsRun;
    hide Reachable;
    hide NotOutranked;
    if c.runs == 0 || Calm(c) {
      forall ss: seq<Sys>, es: seq<Event>, t: nat | IsRun(c, boot, ss, es) && t < |ss| ensures NotOutranked(c, ss[t]) {
        RunReachable(c, boot, ss, es, t);
        CalmHolds(c, boot, ss[t]);
      }
    } else {
      var h: nat, q: nat :| Pid(c, h) && Pid(c, q) && AppOf(c, h).priority == 0 && AppOf(c, q).priority < 0;
      var s := Outranked(c, boot, h, q);
      HolderOutranked(c, s, h, q);
      var ss, es := RunTo(c, boot, s);
      assert !NotOutranked(c, ss[|es|]);
    }
  }

  lemma HolderOutranked(c: Config, s: Sys, h: nat, q: nat)
    requires AssignedInv(c, s) && c.algorithm == 2 && Pid(c, h) && Pid(c, q)
    requires AppOf(c, h).priority == 0 && AppOf(c, q).priority < 0
    requires |s.kern.procs| == Turns.Slots(c) && View(s, h).pc.LoadCursor? && View(s, q).pc.SetShare?
    ensures !NotOutranked(c, s)
  {
    assert s.kern.procs[q].priority < s.kern.procs[h].priority && Runs(s.kern.procs, q);
    assert Critical(View(s, h).pc);
  }

  // ----- For ever -----

  /** Process `q` alone is of the best class and waits for a lock that somebody else holds. */
  ghost predicate Stuck(c: Config, s: Sys, q: nat) {
    && s.running && s.kern.current == q && s.kern.algorithm == 2 && s.kern.mem.lock == 1 && c.runs > 0
    && Runs(s.kern.procs, q) && (s.cpu.pc.SetShare? || s.cpu.pc.SetLottery? || s.cpu.pc.Acquire?)
    && forall r | Runs(s.kern.procs, r) && r != q :: s.kern.procs[q].priority < s.kern.procs[r].priority
  }

  lemma StuckTrap(c: Config, s: Sys, f: Frame<User>, ticks: seq<nat>, s': Sys, q: nat)
    requires Stuck(c, s, q) && Trap(s, f, ticks, s')
    requires f.intno == INT_CLOCK || f.intno == INT_SYS_USER2 || f.intno == INT_SYS_SET_LOTTERY
    requires f.regs.pc.SetShare? || f.regs.pc.SetLottery? || f.regs.pc.Acquire?
    ensures Stuck(c, s', q)
  {
    var h := Handle(s.kern, f);
    assert forall r :: Runs(h.procs, r) <==> Runs(s.kern.procs, r);
    assert forall r | 0 <= r < |h.procs| :: h.procs[r].priority == s.kern.procs[r].priority;
    assert Best(h, q);
  }

  lemma StuckStep(c: Config, s: Sys, e: Event, s': Sys, q: nat)
    requires Stuck(c, s, q) && Step(c, s, e, s')
    ensures Stuck(c, s', q) && s'.log == s.log
  {
    match e
    case Local =>
    case Call(ticks) => StuckTrap(c, s, CallFrame(c, q, s.cpu), ticks, s', q);
    case Clock(ticks) => StuckTrap(c, s, Frame(s.cpu, INT_CLOCK, 0), ticks, s', q);
  }

  /** From then on it spins for ever: whatever happens, it keeps the processor and nobody prints. */
  lemma {:induction false} StuckForEver(c: Config, ss: seq<Sys>, es: seq<Event>, q: nat, t: nat)
    requires |ss| == |es| + 1 && (forall i | 0 < i < |ss| :: Step(c, ss[i - 1], es[i - 1], ss[i]))
    requires Stuck(c, ss[0], q) && t < |ss|
    ensures Stuck(c, ss[t], q) && ss[t].log == ss[0].log
  {
    if t > 0 {
      StuckForEver(c, ss, es, q, t - 1);
      assert Step(c, ss[t - 1], es[t - 1], ss[t]);
      hide Stuck;
      hide Step;
      StuckStep(c, ss[t - 1], es[t - 1], ss[t], q);
    }
  }

  /** Unless the configuration is calm the system can lock up so. */
  lemma CanLockUp(c: Config, boot: Shared) returns (s: Sys, q: nat)
    requires Sane(c) && c.algorithm == 2 && boot.lock == 0 && c.runs > 0 && !Calm(c)
    ensures Reachable(c, boot, s) && Stuck(c, s, q)
  {
    var h: nat;
    h, q :| Pid(c, h) && Pid(c, q) && AppOf(c, h).priority == 0 && AppOf(c, q).priority < 0;
    var s0 := Outranked(c, boot, h, q);
    AssignedSize(c, s0);
    OutrankedBest(c, s0, h, q);
    s := ClockTo(c, boot, s0, q);
    AssignedSize(c, s);
    forall r: nat | Pid(c, r) ensures View(s, r) == View(s0, r) {
      assert View(s, r) == Views(s)[r] && Views(s0)[r] == View(s0, r);
    }
    OutrankedBest(c, s, h, q);
    HolderHasLock(c, boot, s, h);
  }

  lemma OutrankedBest(c: Config, s: Sys, h: nat, q: nat)
    requires AssignedInv(c, s) && c.algorithm == 2 && Pid(c, h) && Pid(c, q) && |s.kern.procs| == Turns.Slots(c)
    requires AppOf(c, h).priority == 0 && AppOf(c, q).priority < 0
    requires View(s, h).pc.LoadCursor? && View(s, q).pc.SetShare?
    requires forall r | Pid(c, r) && r != h && r != q :: View(s, r).pc.SetPriority?
    ensures Best(s.kern, q) && Runs(s.kern.procs, q)
    ensures forall r | Runs(s.kern.procs, r) && r != q :: s.kern.procs[q].priority < s.kern.procs[r].priority
  {
    assert s.kern.procs[q].state == Runnable;
    forall r | Runs(s.kern.procs, r) && r != q ensures s.kern.procs[q].priority < s.kern.procs[r].priority {
      assert Pid(c, r);
    }
  }

  lemma HolderHasLock(c: Config, boot: Shared, s: Sys, h: nat)
    requires Reachable(c, boot, s) && Pid(c, h) && |s.kern.procs| == Turns.Slots(c) && View(s, h).pc.LoadCursor?
    ensures s.kern.mem.lock == 1
  {
    var ss: seq<Sys>, es: seq<Event> :| IsRun(c, boot, ss, es) && ss[|es|] == s;
    LockSafety.LockSafety(c, boot, ss, es, |es|);
    assert Critical(View(s, h).pc);
  }
}
