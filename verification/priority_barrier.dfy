/** Policy 2 with positive assigned priorities, over every run, preemptive or not: nobody wins the
    lock before every application has set its priority, and from then on the lock holder always
    belongs to the best runnable class, so no spinner ever outranks it. */
module PriorityBarrier {
  import opened KernelTypes
  import opened Scheduling
  import opened Interrupts
  import opened Applications
  import opened LockSafety

  ghost predicate PositivePriorities(c: Config) {
    c.algorithm == 2 && forall p | Pid(c, p) :: 0 < AppOf(c, p).priority
  }

  /** The priority number in the table: zero until the process has made its call. */
  function Assigned(c: Config, p: nat, u: User): int32
    requires Pid(c, p)
  {
    if u.pc.SetPriority? then 0 else AppOf(c, p).priority
  }

  /** Process `p` has the least priority number of the runnable processes. */
  ghost predicate Leads<R>(procs: seq<Descriptor<R>>, p: nat) {
    p < |procs| && forall q | Runs(procs, q) :: procs[p].priority <= procs[q].priority
  }

  /** The table holds the priorities set so far, under every policy. */
  ghost predicate AssignedInv(c: Config, s: Sys) {
    TableInv(c, s) && forall p | Pid(c, p) :: s.kern.procs[p].priority == Assigned(c, p, View(s, p))
  }

  /** Nobody can come to outrank a process that has not made its call yet but ties with the lock
      holder: no priority of zero beside a negative one. */
  ghost predicate Calm(c: Config) {
    c.algorithm == 2
    && forall p, q | Pid(c, p) && Pid(c, q) && AppOf(c, p).priority == 0 :: 0 <= AppOf(c, q).priority
  }

  /** The running process and the lock holder are of the best class. */
  ghost predicate LeadInv(c: Config, s: Sys) {
    && AssignedInv(c, s)
    && (s.running ==> Leads(s.kern.procs, s.kern.current))
    && (forall h | Pid(c, h) && Critical(View(s, h).pc) :: Leads(s.kern.procs, h))
  }

  ghost predicate BarrierInv(c: Config, s: Sys) {
    && LeadInv(c, s)
    && (s.log != [] || (exists h :: Pid(c, h) && Critical(View(s, h).pc)) ==>
          forall q | Pid(c, q) :: !View(s, q).pc.SetPriority?)
  }

  lemma SignedUnsigned(x: int32)
    ensures Signed(Unsigned(x)) == x
  {
  }

  /** When the leader has made its call, everybody has. */
  lemma LeaderPastBarrier(c: Config, s: Sys, p: nat, q: nat)
    requires PositivePriorities(c) && BarrierInv(c, s)
    requires Pid(c, p) && Leads(s.kern.procs, p) && !View(s, p).pc.SetPriority? && Pid(c, q)
    ensures !View(s, q).pc.SetPriority?
  {
  }

  /** A trap leaves every other process's descriptor as it was, up to the running count. */
  lemma TrapPriorities(c: Config, s: Sys, f: Frame<User>, ticks: seq<nat>, s': Sys, p: nat)
    requires TableInv(c, s) && s.running && Trap(s, f, ticks, s') && Pid(c, p)
    ensures p < |s'.kern.procs|
    ensures View(s', p) == if p == s.kern.current then f.regs else View(s, p)
    ensures var d := if p == s.kern.current then HandleDescriptor(s.kern.procs[p], f) else s.kern.procs[p];
            s'.kern.procs[p].priority == d.priority && s'.kern.procs[p].state == d.state
  {
    TrapTable(c, s, f, ticks, s');
    TrapViews(s, f, ticks, s');
    assert View(s', p) == Views(s')[p] == Views(s)[s.kern.current := f.regs][p];
  }

  /** What the frame of a clock interrupt or of any of the applications' calls satisfies. */
  predicate FrameOk(c: Config, p: nat, u: User, f: Frame<User>)
    requires Pid(c, p)
  {
    && (f.intno == INT_SYS_USER1 <==> u.pc.SetPriority? && !f.regs.pc.SetPriority?)
    && (f.intno == INT_SYS_USER1 ==> Signed(f.eax) == AppOf(c, p).priority)
    && (f.intno == INT_SYS_EXIT <==> f.regs.pc.Gone?)
    && (f.regs.pc.SetPriority? ==> u.pc.SetPriority?)
    && (Critical(f.regs.pc) ==> Critical(u.pc))
  }

  lemma LeadsAfterTrap(c: Config, s: Sys, f: Frame<User>, ticks: seq<nat>, s': Sys, p: nat)
    requires TableInv(c, s) && s.running && Pid(c, s.kern.current) && Trap(s, f, ticks, s') && Pid(c, p)
    requires Leads(s.kern.procs, p)
    requires f.intno == INT_SYS_USER1 ==> p != s.kern.current && s.kern.procs[p].priority <= Signed(f.eax)
    ensures Leads(s'.kern.procs, p)
  {
    TrapTable(c, s, f, ticks, s');
    TrapPriorities(c, s, f, ticks, s', p);
    assert s'.kern.procs[0].state == s.kern.procs[0].state;
    forall q | Runs(s'.kern.procs, q) ensures s'.kern.procs[p].priority <= s'.kern.procs[q].priority {
      assert Pid(c, q);
      TrapPriorities(c, s, f, ticks, s', q);
      assert Runs(s.kern.procs, q);
    }
  }

  lemma DispatchedLeads(c: Config, s: Sys, f: Frame<User>, ticks: seq<nat>, s': Sys)
    requires c.algorithm == 2 && TableInv(c, s) && s.running && Trap(s, f, ticks, s') && s'.running
    ensures Leads(s'.kern.procs, s'.kern.current)
  {
    var h := Handle(s.kern, f);
    assert Best(h, s'.kern.current);
    assert s'.kern.procs == h.procs;
  }

  lemma TrapKeepsAssigned(c: Config, s: Sys, f: Frame<User>, ticks: seq<nat>, s': Sys)
    requires AssignedInv(c, s) && s.running && Pid(c, s.kern.current)
    requires Trap(s, f, ticks, s') && FrameOk(c, s.kern.current, s.cpu, f)
    ensures AssignedInv(c, s')
  {
    TrapKeepsTable(c, s, f, ticks, s');
    assert View(s, s.kern.current) == s.cpu;
    forall p | Pid(c, p) ensures s'.kern.procs[p].priority == Assigned(c, p, View(s', p)) {
      TrapPriorities(c, s, f, ticks, s', p);
    }
  }

  lemma LocalKeepsAssigned(c: Config, s: Sys, s': Sys)
    requires AssignedInv(c, s) && Step(c, s, Local, s')
    ensures AssignedInv(c, s')
    ensures forall p | Pid(c, p) :: View(s', p).pc.SetPriority? <==> View(s, p).pc.SetPriority?
    ensures forall p | Pid(c, p) && p != s.kern.current :: View(s', p) == View(s, p)
  {
    StepKeepsTable(c, s, Local, s');
    LocalViews(c, s);
    forall p | Pid(c, p)
      ensures View(s', p).pc.SetPriority? <==> View(s, p).pc.SetPriority?
      ensures p != s.kern.current ==> View(s', p) == View(s, p)
    {
      assert View(s', p) == Views(s')[p];
    }
  }

  /** Under every policy, preemptive or not, the table keeps up with the calls. */
  lemma StepKeepsAssigned(c: Config, s: Sys, e: Event, s': Sys)
    requires AssignedInv(c, s) && Step(c, s, e, s')
    ensures AssignedInv(c, s')
  {
    match e
    case Local => LocalKeepsAssigned(c, s, s');
    case Call(ticks) =>
      SignedUnsigned(AppOf(c, s.kern.current).priority);
      TrapKeepsAssigned(c, s, CallFrame(c, s.kern.current, s.cpu), ticks, s');
    case Clock(ticks) =>
      assert View(s, s.kern.current) == s.cpu;
      TrapKeepsAssigned(c, s, Frame(s.cpu, INT_CLOCK, 0), ticks, s');
  }

  /** Nobody is between the swaps. */
  ghost predicate NobodyInside(c: Config, s: Sys) {
    forall h: nat | Pid(c, h) && h < |s.kern.procs| :: !Critical(View(s, h).pc)
  }

  /** An interrupt leaves the lock holder in the best class, in a calm configuration even one that sets
      a priority. */
  lemma TrapKeepsLeads(c: Config, s: Sys, f: Frame<User>, ticks: seq<nat>, s': Sys)
    requires c.algorithm == 2 && LeadInv(c, s) && s.running && Pid(c, s.kern.current)
    requires f.intno == INT_SYS_USER1 ==> Calm(c) || NobodyInside(c, s)
    requires Trap(s, f, ticks, s') && FrameOk(c, s.kern.current, s.cpu, f)
    ensures LeadInv(c, s')
    ensures forall h | Pid(c, h) && Critical(View(s', h).pc) :: Critical(View(s, h).pc)
  {
    TrapKeepsAssigned(c, s, f, ticks, s');
    if s'.running {
      DispatchedLeads(c, s, f, ticks, s');
    }
    var cur := s.kern.current;
    assert View(s, cur) == s.cpu;
    forall h | Pid(c, h) && Critical(View(s', h).pc)
      ensures Pid(c, h) && Critical(View(s, h).pc) && Leads(s'.kern.procs, h)
    {
      TrapPriorities(c, s, f, ticks, s', h);
      if f.intno == INT_SYS_USER1 {
        assert s.kern.procs[h].priority == s.kern.procs[cur].priority == 0 by {
          HolderTies(c, s, h);
        }
      }
      LeadsAfterTrap(c, s, f, ticks, s', h);
    }
  }

  /** The lock holder and the running process have the same number in the table. */
  lemma HolderTies(c: Config, s: Sys, h: nat)
    requires LeadInv(c, s) && s.running && Pid(c, h) && Critical(View(s, h).pc)
    ensures Runs(s.kern.procs, h) && s.kern.procs[h].priority == s.kern.procs[s.kern.current].priority
  {
    assert s.kern.procs[h].state == Runnable;
  }

  lemma LocalKeepsLeads(c: Config, s: Sys, s': Sys)
    requires c.algorithm == 2 && LeadInv(c, s) && Step(c, s, Local, s')
    ensures LeadInv(c, s')
  {
    LocalKeepsAssigned(c, s, s');
    assert View(s', s.kern.current) == s'.cpu;
  }

  lemma StepKeepsLeads(c: Config, s: Sys, e: Event, s': Sys)
    requires c.algorithm == 2 && LeadInv(c, s) && Step(c, s, e, s')
    requires e.Call? && s.cpu.pc.SetPriority? ==> Calm(c) || NobodyInside(c, s)
    ensures LeadInv(c, s')
  {
    match e
    case Local => LocalKeepsLeads(c, s, s');
    case Call(ticks) =>
      SignedUnsigned(AppOf(c, s.kern.current).priority);
      TrapKeepsLeads(c, s, CallFrame(c, s.kern.current, s.cpu), ticks, s');
    case Clock(ticks) =>
      assert View(s, s.kern.current) == s.cpu;
      TrapKeepsLeads(c, s, Frame(s.cpu, INT_CLOCK, 0), ticks, s');
  }

  lemma LeadsInitially(c: Config, boot: Shared)
    requires Sane(c)
    ensures LeadInv(c, Initial(c, boot))
  {
    TableInitially(c, boot);
  }

  lemma {:induction false} RunKeepsLeads(c: Config, boot: Shared, ss: seq<Sys>, es: seq<Event>, t: nat)
    requires Calm(c) && IsRun(c, boot, ss, es) && t < |ss|
    ensures LeadInv(c, ss[t])
  {
    hide IsRun;
    hide LeadInv;
    hide Step;
    RunStarts(c, boot, ss, es);
    if t == 0 {
      LeadsInitially(c, boot);
    } else {
      RunStep(c, boot, ss, es, t);
      RunKeepsLeads(c, boot, ss, es, t - 1);
      StepKeepsLeads(c, ss[t - 1], es[t - 1], ss[t]);
    }
  }

  lemma TrapKeepsBarrier(c: Config, s: Sys, f: Frame<User>, ticks: seq<nat>, s': Sys)
    requires PositivePriorities(c) && BarrierInv(c, s) && s.running && Pid(c, s.kern.current)
    requires Trap(s, f, ticks, s') && FrameOk(c, s.kern.current, s.cpu, f)
    ensures BarrierInv(c, s')
  {
    TrapKeepsLeads(c, s, f, ticks, s');
    assert View(s, s.kern.current) == s.cpu;
    forall q | Pid(c, q) && !View(s, q).pc.SetPriority? ensures !View(s', q).pc.SetPriority? {
      TrapPriorities(c, s, f, ticks, s', q);
    }
  }

  lemma LocalKeepsBarrier(c: Config, s: Sys, s': Sys)
    requires PositivePriorities(c) && BarrierInv(c, s) && Step(c, s, Local, s')
    ensures BarrierInv(c, s')
  {
    LocalKeepsLeads(c, s, s');
    LocalKeepsAssigned(c, s, s');
    var cur := s.kern.current;
    forall q | Pid(c, q) && (Critical(s'.cpu.pc) || s'.log != s.log) ensures !View(s, q).pc.SetPriority? {
      assert View(s, cur) == s.cpu;
      LeaderPastBarrier(c, s, cur, q);
    }
  }

  lemma StepKeepsBarrier(c: Config, s: Sys, e: Event, s': Sys)
    requires PositivePriorities(c) && BarrierInv(c, s) && Step(c, s, e, s')
    ensures BarrierInv(c, s')
  {
    match e
    case Local => LocalKeepsBarrier(c, s, s');
    case Call(ticks) =>
      SignedUnsigned(AppOf(c, s.kern.current).priority);
      TrapKeepsBarrier(c, s, CallFrame(c, s.kern.current, s.cpu), ticks, s');
    case Clock(ticks) =>
      assert View(s, s.kern.current) == s.cpu;
      TrapKeepsBarrier(c, s, Frame(s.cpu, INT_CLOCK, 0), ticks, s');
  }

  lemma BarrierInitially(c: Config, boot: Shared)
    requires Sane(c)
    ensures BarrierInv(c, Initial(c, boot))
  {
    TableInitially(c, boot);
  }

  lemma {:induction false} RunKeepsBarrier(c: Config, boot: Shared, ss: seq<Sys>, es: seq<Event>, t: nat)
    requires PositivePriorities(c) && IsRun(c, boot, ss, es) && t < |ss|
    ensures BarrierInv(c, ss[t])
  {
    hide IsRun;
    hide BarrierInv;
    hide Step;
    RunStarts(c, boot, ss, es);
    if t == 0 {
      BarrierInitially(c, boot);
    } else {
      RunStep(c, boot, ss, es, t);
      RunKeepsBarrier(c, boot, ss, es, t - 1);
      StepKeepsBarrier(c, ss[t - 1], es[t - 1], ss[t]);
    }
  }

  /** The barrier: a process that has ever won the lock implies that all have set their priority. */
  lemma NoLockBeforeBarrier(c: Config, boot: Shared, ss: seq<Sys>, es: seq<Event>, t: nat, q: nat)
    requires PositivePriorities(c) && IsRun(c, boot, ss, es) && t < |ss| && Pid(c, q)
    requires ss[t].log != []
    ensures q < |ss[t].kern.procs| && !View(ss[t], q).pc.SetPriority?
    ensures ss[t].kern.procs[q].priority == AppOf(c, q).priority
  {
    RunKeepsBarrier(c, boot, ss, es, t);
  }

  /** No inversion: the lock holder is among the processes policy 2 chooses from, and whoever is
      running, in particular a process spinning for the lock, has the holder's priority. */
  lemma NoInversion(c: Config, boot: Shared, ss: seq<Sys>, es: seq<Event>, t: nat, h: nat)
    requires PositivePriorities(c) && IsRun(c, boot, ss, es) && t < |ss| && Pid(c, h)
    requires |ss[t].kern.procs| == |c.apps| + 1 && Critical(View(ss[t], h).pc)
    ensures Best(ss[t].kern, h)
    ensures ss[t].running ==>
              Pid(c, ss[t].kern.current) && AppOf(c, ss[t].kern.current).priority == AppOf(c, h).priority
  {
    RunKeepsBarrier(c, boot, ss, es, t);
    var s := ss[t];
    assert s.kern.procs[h].state == Runnable;
    assert Runs(s.kern.procs, h);
    if s.running {
      assert s.kern.current != 0;
    }
  }
}
