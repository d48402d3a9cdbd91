/** Policy 3 over every run, preemptive or not: the table holds the shares set so far, only processes
    with a share run, one that gives itself a negative share never runs again, and when the system
    stops the others have printed everything. */
module ShareRuns {
  import opened KernelTypes
  import opened Scheduling
  import opened Interrupts
  import opened Applications
  import opened LockSafety
  import opened PriorityBarrier
  import opened Fairness
  import opened Turns
  import opened Cooperative
  import opened ShareTurns

  /** The table holds the shares set so far. */
  ghost predicate SharesSet(c: Config, s: Sys) {
    TableInv(c, s) && forall p | Pid(c, p) :: s.kern.procs[p].share == ShareAt(c, p, PosOf(c, View(s, p)))
  }

  // ----- The table of shares -----

  lemma TrapShares(c: Config, s: Sys, f: Frame<User>, ticks: seq<nat>, s': Sys, p: nat)
    requires TableInv(c, s) && s.running && Trap(s, f, ticks, s') && Pid(c, p)
    ensures p < |s'.kern.procs|
    ensures View(s', p) == if p == s.kern.current then f.regs else View(s, p)
    ensures s'.kern.procs[p].share ==
            if p == s.kern.current && f.intno == INT_SYS_USER2 then Signed(f.eax) else s.kern.procs[p].share
  {
    TrapTable(c, s, f, ticks, s');
    TrapViews(s, f, ticks, s');
    assert View(s', p) == Views(s')[p] == Views(s)[s.kern.current := f.regs][p];
  }

  lemma CallShare(c: Config, s: Sys, ticks: seq<nat>, s': Sys, p: nat)
    requires SharesSet(c, s) && Step(c, s, Call(ticks), s') && Pid(c, p)
    requires s.kern.current < |s.kern.procs| && CounterOk(c, s.cpu)
    ensures p < |s'.kern.procs| && s'.kern.procs[p].share == ShareAt(c, p, PosOf(c, View(s', p)))
    ensures PosOf(c, View(s', p)) == PosOf(c, View(s, p)) + if p == s.kern.current then 1 else 0
  {
    var cur := s.kern.current;
    var f := CallFrame(c, cur, s.cpu);
    SignedUnsigned(AppOf(c, cur).share);
    TrapShares(c, s, f, ticks, s', p);
    CallAdvances(c, cur, s.cpu);
    assert View(s, cur) == s.cpu;
    hide Trap;
    hide TableInv;
  }

  lemma ClockShare(c: Config, s: Sys, ticks: seq<nat>, s': Sys, p: nat)
    requires SharesSet(c, s) && Step(c, s, Clock(ticks), s') && Pid(c, p)
    ensures p < |s'.kern.procs| && s'.kern.procs[p].share == ShareAt(c, p, PosOf(c, View(s', p)))
    ensures View(s', p) == View(s, p)
  {
    hide Trap;
    TrapShares(c, s, Frame(s.cpu, INT_CLOCK, 0), ticks, s', p);
    assert View(s, s.kern.current) == s.cpu;
  }

  lemma LocalShare(c: Config, s: Sys, s': Sys, p: nat)
    requires SharesSet(c, s) && Step(c, s, Local, s') && Pid(c, p)
    ensures p < |s'.kern.procs| && s'.kern.procs[p].share == ShareAt(c, p, PosOf(c, View(s', p)))
    ensures PosOf(c, View(s', p)) == PosOf(c, View(s, p))
  {
    LocalViews(c, s);
    assert View(s', p) == Views(s')[p] && View(s, p) == Views(s)[p];
  }

  /** A step changes at most the current process's position, by its call. */
  lemma StepShare(c: Config, boot: Shared, s: Sys, e: Event, s': Sys, p: nat)
    requires SysInv(c, boot, s) && SharesSet(c, s) && Step(c, s, e, s') && Pid(c, p)
    ensures p < |s'.kern.procs| && s'.kern.procs[p].share == ShareAt(c, p, PosOf(c, View(s', p)))
    ensures PosOf(c, View(s', p)) == PosOf(c, View(s, p)) + if e.Call? && p == s.kern.current then 1 else 0
  {
    StepRuns(c, s, e, s');
    CurrentOk(c, boot, s);
    hide *;
    match e
    case Local => LocalShare(c, s, s', p);
    case Call(ticks) => CallShare(c, s, ticks, s', p);
    case Clock(ticks) => ClockShare(c, s, ticks, s', p);
  }

  lemma StepRuns(c: Config, s: Sys, e: Event, s': Sys)
    requires Step(c, s, e, s')
    ensures s.running && Pid(c, s.kern.current) && (e.Call? <==> IsCall(s.cpu.pc) && !e.Clock?)
  {
    hide Trap;
  }

  lemma StepKeepsShares(c: Config, boot: Shared, s: Sys, e: Event, s': Sys)
    requires SysInv(c, boot, s) && SharesSet(c, s) && Step(c, s, e, s')
    ensures SharesSet(c, s')
  {
    hide SysInv;
    hide Step;
    hide ShareAt;
    hide PosOf;
    hide View;
    SharesTable(c, s);
    StepKeepsTable(c, s, e, s');
    forall p: nat | Pid(c, p) ensures s'.kern.procs[p].share == ShareAt(c, p, PosOf(c, View(s', p))) {
      StepShare(c, boot, s, e, s', p);
    }
  }

  lemma SharesTable(c: Config, s: Sys)
    requires SharesSet(c, s)
    ensures TableInv(c, s)
  {
  }

  // ----- Who runs -----

  /** Whoever runs has a share and is inside its turn, process 1 before its first call apart; and
      nobody gets beyond setting a negative share. */
  ghost predicate Sharing(c: Config, s: Sys) {
    && SharesSet(c, s)
    && (s.running ==>
          && Wants(s.kern.procs, s.kern.current)
          && (InTurn(s.kern) || (s.cpu.pc.SetPriority? && s.kern.mem.lock == 0)))
    && forall p | Pid(c, p) && AppOf(c, p).share < 0 :: PosOf(c, View(s, p)) <= 2
  }

  /** Resetting a count takes nobody's share away. */
  lemma ResetWants(k: Kern<User>)
    requires k.current < |k.procs|
    ensures AnyWants(ResetCurrent(k)) <==> AnyWants(k.procs)
  {
    forall q: int ensures Wants(ResetCurrent(k), q) <==> Wants(k.procs, q) {
    }
  }

  lemma ScheduledWants(h: Kern<User>, ticks: seq<nat>, k': Kern<User>, o: Outcome)
    requires h.algorithm == 3 && WellFormed(h) && ShareInv(h) && Scheduled(h, ticks, k', o)
    ensures o.Run? ==> k'.current == o.pid && Wants(k'.procs, o.pid) && k'.procs[o.pid].numTimes >= 1
    ensures o.Spin? ==> !AnyWants(k'.procs)
  {
    ResetWants(h);
    if o.Run? && Continues(h) {
      assert Wants(h.procs, h.current);
    }
  }

  lemma TurnCounted(k: Kern<User>)
    requires k.algorithm == 3 && ShareInv(k) && Wants(k.procs, k.current) && k.procs[k.current].numTimes >= 1
    ensures InTurn(k)
  {
  }

  lemma TrapWants(s: Sys, f: Frame<User>, ticks: seq<nat>, s': Sys)
    requires s.kern.algorithm == 3 && WellFormed(s.kern) && ShareInv(s.kern) && Trap(s, f, ticks, s')
    ensures if s'.running then InTurn(s'.kern) && Wants(s'.kern.procs, s'.kern.current) else !AnyWants(s'.kern.procs)
  {
    hide ShareInv;
    hide WellFormed;
    hide Scheduled;
    hide AnyWants;
    hide InTurn;
    hide Wants;
    HandleKeepsInvariant(s.kern, f);
    var h, o := Handle(s.kern, f), if s'.running then Run(s'.kern.current) else Spin;
    ScheduledWants(h, ticks, s'.kern, o);
    ScheduleKeepsInvariant(h, ticks, s'.kern, o);
    if s'.running {
      ScheduledRuns(h, ticks, s'.kern, s'.kern.current);
      TurnCounted(s'.kern);
    }
  }

  lemma StepTurn(c: Config, s: Sys, e: Event, s': Sys)
    requires Sharing(c, s) && c.algorithm == 3 && Step(c, s, e, s')
    ensures s'.running ==> InTurn(s'.kern) && Wants(s'.kern.procs, s'.kern.current)
    ensures !s'.running ==> !AnyWants(s'.kern.procs)
  {
    hide Trap;
    hide AnyWants;
    hide InTurn;
    hide Wants;
    match e
    case Local => LocalInTurn(s.kern, s'.kern.mem);
    case Call(ticks) => TrapWants(s, CallFrame(c, s.kern.current, s.cpu), ticks, s');
    case Clock(ticks) => TrapWants(s, Frame(s.cpu, INT_CLOCK, 0), ticks, s');
  }

  lemma LocalInTurn(k: Kern<User>, m: Shared)
    ensures InTurn(k) ==> InTurn(k.(mem := m))
  {
  }

  /** With a negative share the current process is not yet past the call that sets it. */
  lemma NegativeWaits(c: Config, s: Sys, p: nat)
    requires Sharing(c, s) && s.running && p == s.kern.current && Pid(c, p) && AppOf(c, p).share < 0
    ensures PosOf(c, View(s, p)) < 2
  {
  }

  lemma StepKeepsSharing(c: Config, boot: Shared, s: Sys, e: Event, s': Sys)
    requires SysInv(c, boot, s) && Sharing(c, s) && c.algorithm == 3 && Step(c, s, e, s')
    ensures Sharing(c, s') && (!s'.running ==> !AnyWants(s'.kern.procs))
  {
    hide SysInv;
    hide Step;
    hide SharesSet;
    hide InTurn;
    hide Wants;
    hide View;
    hide PosOf;
    hide AnyWants;
    StepKeepsShares(c, boot, s, e, s');
    StepTurn(c, s, e, s');
    StepRuns(c, s, e, s');
    SharesSize(c, s');
    forall p: nat | Pid(c, p) && AppOf(c, p).share < 0 ensures PosOf(c, View(s', p)) <= 2 {
      StepShare(c, boot, s, e, s', p);
      if p == s.kern.current {
        NegativeWaits(c, s, p);
      }
    }
  }

  lemma SharesSize(c: Config, s: Sys)
    requires SharesSet(c, s)
    ensures |s.kern.procs| == Slots(c)
  {
  }

  lemma SharingInitially(c: Config, boot: Shared)
    requires Sane(c) && boot.lock == 0
    ensures Sharing(c, Initial(c, boot))
  {
    TableInitially(c, boot);
  }

  lemma {:induction false} RunShares(c: Config, boot: Shared, ss: seq<Sys>, es: seq<Event>, t: nat)
    requires IsRun(c, boot, ss, es) && c.algorithm == 3 && t < |ss|
    ensures Sharing(c, ss[t]) && (!ss[t].running ==> !AnyWants(ss[t].kern.procs))
  {
    hide *;
    RunStarts(c, boot, ss, es);
    if t == 0 {
      SharingInitially(c, boot);
      StartsRunning(c, boot);
    } else {
      RunStep(c, boot, ss, es, t);
      RunShares(c, boot, ss, es, t - 1);
      RunKeepsLock(c, boot, ss, es, t - 1);
      StepKeepsSharing(c, boot, ss[t - 1], es[t - 1], ss[t]);
    }
  }

  lemma StartsRunning(c: Config, boot: Shared)
    requires Sane(c)
    ensures Initial(c, boot).running
  {
  }

  /** With a negative share a process never gets beyond the call that sets it, and whoever runs has a
      share. */
  lemma Starves(c: Config, boot: Shared, ss: seq<Sys>, es: seq<Event>, t: nat, p: nat)
    requires IsRun(c, boot, ss, es) && c.algorithm == 3 && t < |ss| && Pid(c, p) && AppOf(c, p).share < 0
    ensures |ss[t].kern.procs| == Slots(c) && PosOf(c, View(ss[t], p)) <= 2
    ensures ss[t].running ==> Wants(ss[t].kern.procs, ss[t].kern.current)
  {
    RunShares(c, boot, ss, es, t);
    hide IsRun;
  }

  /** When the system stops, everybody with a share has printed all its characters and exited, and
      everybody with a negative share has printed nothing and waits for ever. */
  lemma ShareStopped(c: Config, boot: Shared, ss: seq<Sys>, es: seq<Event>, t: nat, p: nat)
    requires IsRun(c, boot, ss, es) && c.algorithm == 3 && t < |ss| && !ss[t].running && Pid(c, p)
    ensures |ss[t].kern.procs| == Slots(c)
    ensures if 0 <= AppOf(c, p).share then View(ss[t], p).pc.Gone? && multiset(ss[t].log)[p] == c.runs
            else View(ss[t], p).pc.SetLottery? && multiset(ss[t].log)[p] == 0
  {
    RunShares(c, boot, ss, es, t);
    RunKeepsLock(c, boot, ss, es, t);
    PrintsBounded(c, boot, ss, es, t, p);
    hide IsRun;
    hide SysInv;
    hide Sharing;
    StoppedView(c, boot, ss[t], p);
  }

  lemma StoppedView(c: Config, boot: Shared, s: Sys, p: nat)
    requires SysInv(c, boot, s) && Sharing(c, s) && !AnyWants(s.kern.procs) && Pid(c, p)
    ensures |s.kern.procs| == Slots(c)
    ensures if 0 <= AppOf(c, p).share then View(s, p).pc.Gone? && Taken(View(s, p)) == c.runs
            else View(s, p).pc.SetLottery? && Taken(View(s, p)) == 0
  {
    hide LockInv;
    hide InTurn;
    assert Views(s)[p] == View(s, p);
    assert !Wants(s.kern.procs, p);
  }

  // ----- How much there is to do -----

  /** The instructions a process executes that is never made to wait. */
  function Quota(c: Config, p: nat): nat
    requires Pid(c, p)
  {
    if AppOf(c, p).share < 0 then 2 else 4 + 6 * c.runs
  }

  function Quotas(c: Config, n: nat): nat
    requires n <= |c.apps|
  {
    if n == 0 then 0 else Quotas(c, n - 1) + Quota(c, n)
  }

  lemma {:induction false} WorkInQuotas(c: Config, vs: seq<User>)
    requires 1 <= |vs| <= Slots(c) && vs[0].pc.SetPriority?
    requires forall p | 1 <= p < |vs| :: Pid(c, p) && Work(c, vs[p]) <= Quota(c, p)
    ensures TotalWork(c, vs) <= Quotas(c, |vs| - 1)
    ensures (forall p | 1 <= p < |vs| :: Work(c, vs[p]) == Quota(c, p)) <==> TotalWork(c, vs) == Quotas(c, |vs| - 1)
  {
    hide Work;
    hide Quota;
    var n := |vs| - 1;
    if n == 0 {
      assert TotalWork(c, vs[..0]) == 0;
      IdleWork(c, vs[0]);
    } else {
      WorkInQuotas(c, vs[..n]);
      assert forall p | 1 <= p < n :: vs[..n][p] == vs[p];
      assert TotalWork(c, vs) == TotalWork(c, vs[..n]) + Work(c, vs[n]);
    }
  }

  lemma ViewQuota(c: Config, boot: Shared, s: Sys, p: nat)
    requires SysInv(c, boot, s) && Sharing(c, s) && Pid(c, p)
    ensures |s.kern.procs| == Slots(c) && Views(s)[p] == View(s, p) && Work(c, View(s, p)) <= Quota(c, p)
    ensures Work(c, View(s, p)) == Quota(c, p) <==>
            if AppOf(c, p).share < 0 then View(s, p).pc.SetLottery? else View(s, p).pc.Gone?
  {
    hide LockInv;
    hide InTurn;
    OneBound(c, Views(s)[p]);
  }

  /** The work done never exceeds the quotas, and reaches them exactly when the system stops. */
  lemma WorkToDo(c: Config, boot: Shared, ss: seq<Sys>, es: seq<Event>, t: nat)
    requires IsRun(c, boot, ss, es) && c.algorithm == 3 && t < |ss|
    ensures TotalWork(c, Views(ss[t])) <= Quotas(c, |c.apps|)
    ensures ss[t].running <==> TotalWork(c, Views(ss[t])) < Quotas(c, |c.apps|)
  {
    hide *;
    RunShares(c, boot, ss, es, t);
    RunKeepsLock(c, boot, ss, es, t);
    SlotZeroIdle(c, boot, ss, es, t);
    StateQuotas(c, boot, ss[t]);
  }

  lemma StateQuotas(c: Config, boot: Shared, s: Sys)
    requires SysInv(c, boot, s) && Sharing(c, s) && (!s.running ==> !AnyWants(s.kern.procs))
    requires s.kern.procs != [] && View(s, 0).pc.SetPriority?
    ensures TotalWork(c, Views(s)) <= Quotas(c, |c.apps|)
    ensures s.running <==> TotalWork(c, Views(s)) < Quotas(c, |c.apps|)
  {
    hide SysInv;
    hide Sharing;
    hide TotalWork;
    hide Work;
    hide Quota;
    hide Quotas;
    hide AnyWants;
    hide View;
    var vs := Views(s);
    WorkLeft(c, boot, s);
    assert vs[0] == View(s, 0);
    forall p | 1 <= p < |vs| ensures Pid(c, p) && Work(c, vs[p]) <= Quota(c, p) {
      ViewQuota(c, boot, s, p);
    }
    WorkInQuotas(c, vs);
  }

  lemma WorkLeft(c: Config, boot: Shared, s: Sys)
    requires SysInv(c, boot, s) && Sharing(c, s) && (!s.running ==> !AnyWants(s.kern.procs))
    ensures |s.kern.procs| == Slots(c)
    ensures s.running ==> exists p :: 1 <= p < |Views(s)| && Pid(c, p) && Work(c, Views(s)[p]) < Quota(c, p)
    ensures !s.running ==> forall p | 1 <= p < |Views(s)| :: Pid(c, p) && Work(c, Views(s)[p]) == Quota(c, p)
  {
    SharesSize(c, s);
    if s.running {
      var p := s.kern.current;
      RunnerIsPid(c, s);
      ViewQuota(c, boot, s, p);
      if AppOf(c, p).share < 0 {
        NegativeWaits(c, s, p);
      }
      CurrentOk(c, boot, s);
      hide SysInv;
      hide Sharing;
      assert Work(c, Views(s)[p]) < Quota(c, p);
    } else {
      forall p | 1 <= p < |Views(s)| ensures Pid(c, p) && Work(c, Views(s)[p]) == Quota(c, p) {
        ViewQuota(c, boot, s, p);
        StoppedView(c, boot, s, p);
      }
    }
  }

  lemma RunnerIsPid(c: Config, s: Sys)
    requires Sharing(c, s) && s.running
    ensures Pid(c, s.kern.current) && s.kern.current < |s.kern.procs|
  {
    assert s.kern.current != 0;
  }
}
