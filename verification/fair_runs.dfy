/** Clock interrupts that let every dispatched process execute at least one instruction: under policy 2
    they keep the lock holder in the best class whatever the priorities. */
module FairRuns {
  import opened KernelTypes
  import opened Scheduling
  import opened Interrupts
  import opened Applications
  import opened LockSafety
  import opened PriorityBarrier
  import opened Turns

  /** No clock interrupt right after a dispatch. */
  predicate Fair(es: seq<Event>) {
    forall t | 0 <= t < |es| && es[t].Clock? :: t > 0 && es[t - 1].Local?
  }

  // ----- Setting priorities -----

  /** The processes up to `m` have set their priority.  Those with a negative one have finished, but
      for `m` itself, which may be running; the others wait; the next one is due. */
  ghost predicate SettingUp(c: Config, s: Sys, m: nat) {
    && AssignedInv(c, s) && s.running && m < |c.apps|
    && (forall q | Pid(c, q) && q > m :: View(s, q).pc.SetPriority?)
    && (forall q | Pid(c, q) && q <= m && q != s.kern.current ::
          var pc := View(s, q).pc; if Eager(c, q) then pc.Gone? else pc.SetShare?)
    && (s.kern.current == m + 1
        || (s.kern.current == m && Pid(c, m) && Eager(c, m) && !s.cpu.pc.SetPriority?))
  }

  ghost predicate AllSet(c: Config, s: Sys) {
    forall q: nat | Pid(c, q) && q < |s.kern.procs| :: !View(s, q).pc.SetPriority?
  }

  /** Everybody has set its priority, or they are about to in the order of their pids. */
  ghost predicate InOrder(c: Config, s: Sys) {
    AllSet(c, s) || exists m: nat :: SettingUp(c, s, m)
  }

  /** While they are, whoever makes the call finds nobody inside. */
  lemma FirstCallAlone(c: Config, s: Sys)
    requires InOrder(c, s) && AssignedInv(c, s) && s.running && Pid(c, s.kern.current) && s.cpu.pc.SetPriority?
    ensures NobodyInside(c, s)
  {
    assert View(s, s.kern.current) == s.cpu;
    var m: nat :| SettingUp(c, s, m);
    forall h: nat | Pid(c, h) && h < |s.kern.procs| ensures !Critical(View(s, h).pc) {
    }
  }

  /** What is in the table after a trap by the current process, and who is chosen. */
  lemma TrapChoice(c: Config, s: Sys, f: Frame<User>, ticks: seq<nat>, s': Sys, q: nat)
    requires AssignedInv(c, s) && s.running && Pid(c, s.kern.current) && Pid(c, q)
    requires Trap(s, f, ticks, s') && FrameOk(c, s.kern.current, s.cpu, f)
    ensures AssignedInv(c, s') && |s'.kern.procs| == Slots(c)
    ensures View(s', q) == if q == s.kern.current then f.regs else View(s, q)
    ensures Runs(s'.kern.procs, q) <==> !View(s', q).pc.Gone?
    ensures s'.kern.procs[q].priority == Assigned(c, q, View(s', q))
  {
    TrapKeepsAssigned(c, s, f, ticks, s');
    TrapPriorities(c, s, f, ticks, s', q);
    hide Trap;
  }

  /** The only runnable process of negative priority is chosen. */
  lemma EagerChosen(c: Config, s: Sys, f: Frame<User>, ticks: seq<nat>, s': Sys, p: nat)
    requires c.algorithm == 2 && AssignedInv(c, s) && s.running && Trap(s, f, ticks, s')
    requires |s'.kern.procs| == Slots(c) && TableInv(c, s') && Runs(s'.kern.procs, p)
    requires forall q | Runs(s'.kern.procs, q) && q != p :: s'.kern.procs[p].priority < s'.kern.procs[q].priority
    ensures s'.running && s'.kern.current == p
  {
    var h := Handle(s.kern, f);
    assert s'.kern.procs == h.procs;
    assert Best(h, p);
    assert s'.running;
    assert Best(h, s'.kern.current);
  }

  /** Of the best class, the next process comes first. */
  lemma NextChosen(c: Config, s: Sys, f: Frame<User>, ticks: seq<nat>, s': Sys, p: nat)
    requires c.algorithm == 2 && AssignedInv(c, s) && s.running && Trap(s, f, ticks, s')
    requires |s'.kern.procs| == Slots(c) && Runs(s'.kern.procs, p) && p == s.kern.current + 1
    requires forall q | Runs(s'.kern.procs, q) :: s'.kern.procs[p].priority <= s'.kern.procs[q].priority
    ensures s'.running && s'.kern.current == p
  {
    var h := Handle(s.kern, f);
    assert s'.kern.procs == h.procs && h.current == s.kern.current;
    assert Best(h, p);
    assert s'.running;
    assert IsPick(h, s'.kern.current);
    assert Dist(Slots(c), h.current, s'.kern.current) <= Dist(Slots(c), h.current, p) == 0;
  }

  /** The first call of process `m + 1`. */
  lemma FirstCall(c: Config, s: Sys, f: Frame<User>, ticks: seq<nat>, s': Sys, m: nat)
    requires c.algorithm == 2 && SettingUp(c, s, m) && s.kern.current == m + 1
    requires Trap(s, f, ticks, s') && FrameOk(c, m + 1, s.cpu, f) && f.regs.pc.SetShare?
    ensures InOrder(c, s')
  {
    var p := m + 1;
    SetUpTable(c, s, f, ticks, s', m);
    hide Trap;
    if p == |c.apps| {
      assert AllSet(c, s');
    } else {
      assert Runs(s'.kern.procs, p + 1);
      if Eager(c, p) {
        forall q | Runs(s'.kern.procs, q) && q != p ensures s'.kern.procs[p].priority < s'.kern.procs[q].priority {
          assert Pid(c, q);
        }
        EagerChosen(c, s, f, ticks, s', p);
        assert View(s', p) == s'.cpu;
      } else {
        forall q | Runs(s'.kern.procs, q) ensures s'.kern.procs[p + 1].priority <= s'.kern.procs[q].priority {
          assert Pid(c, q);
        }
        NextChosen(c, s, f, ticks, s', p + 1);
      }
      assert SettingUp(c, s', p);
    }
  }

  lemma SetUpTable(c: Config, s: Sys, f: Frame<User>, ticks: seq<nat>, s': Sys, m: nat)
    requires c.algorithm == 2 && SettingUp(c, s, m) && Pid(c, s.kern.current)
    requires Trap(s, f, ticks, s') && FrameOk(c, s.kern.current, s.cpu, f)
    ensures AssignedInv(c, s') && |s'.kern.procs| == Slots(c) && !s'.kern.procs[0].state.Runnable?
    ensures forall q: nat | Pid(c, q) ::
              && View(s', q) == (if q == s.kern.current then f.regs else View(s, q))
              && (Runs(s'.kern.procs, q) <==> !View(s', q).pc.Gone?)
              && s'.kern.procs[q].priority == Assigned(c, q, View(s', q))
  {
    hide Trap;
    hide FrameOk;
    hide View;
    TrapChoice(c, s, f, ticks, s', s.kern.current);
    forall q: nat | Pid(c, q)
      ensures View(s', q) == if q == s.kern.current then f.regs else View(s, q)
      ensures Runs(s'.kern.procs, q) <==> !View(s', q).pc.Gone?
      ensures s'.kern.procs[q].priority == Assigned(c, q, View(s', q))
    {
      TrapChoice(c, s, f, ticks, s', q);
    }
  }

  /** An interrupt of process `m`, which has a negative priority and goes on until it exits. */
  lemma EagerTrap(c: Config, s: Sys, f: Frame<User>, ticks: seq<nat>, s': Sys, m: nat)
    requires c.algorithm == 2 && SettingUp(c, s, m) && s.kern.current == m && Pid(c, m)
    requires Trap(s, f, ticks, s') && FrameOk(c, m, s.cpu, f)
    ensures InOrder(c, s')
  {
    SetUpTable(c, s, f, ticks, s', m);
    hide Trap;
    if f.regs.pc.Gone? {
      forall q | Runs(s'.kern.procs, q) ensures s'.kern.procs[m + 1].priority <= s'.kern.procs[q].priority {
        assert Pid(c, q);
      }
      NextChosen(c, s, f, ticks, s', m + 1);
    } else {
      forall q | Runs(s'.kern.procs, q) && q != m ensures s'.kern.procs[m].priority < s'.kern.procs[q].priority {
        assert Pid(c, q);
      }
      EagerChosen(c, s, f, ticks, s', m);
      assert View(s', m) == s'.cpu;
    }
    assert SettingUp(c, s', m);
  }

  lemma LocalKeepsInOrder(c: Config, s: Sys, s': Sys)
    requires c.algorithm == 2 && InOrder(c, s) && AssignedInv(c, s) && Step(c, s, Local, s')
    ensures InOrder(c, s')
  {
    LocalKeepsAssigned(c, s, s');
    if AllSet(c, s) {
      assert AllSet(c, s');
    } else {
      var m: nat :| SettingUp(c, s, m);
      assert View(s, s.kern.current) == s.cpu;
      assert SettingUp(c, s', m);
    }
  }

  lemma SetForGood(c: Config, s: Sys, f: Frame<User>, ticks: seq<nat>, s': Sys)
    requires AllSet(c, s) && AssignedInv(c, s) && s.running && Pid(c, s.kern.current)
    requires Trap(s, f, ticks, s') && FrameOk(c, s.kern.current, s.cpu, f)
    ensures AllSet(c, s')
  {
    assert View(s, s.kern.current) == s.cpu;
    forall q: nat | Pid(c, q) && q < |s'.kern.procs| ensures !View(s', q).pc.SetPriority? {
      TrapChoice(c, s, f, ticks, s', q);
    }
  }

  lemma TrapKeepsInOrder(c: Config, s: Sys, f: Frame<User>, ticks: seq<nat>, s': Sys)
    requires c.algorithm == 2 && InOrder(c, s) && AssignedInv(c, s) && s.running && Pid(c, s.kern.current)
    requires Trap(s, f, ticks, s') && FrameOk(c, s.kern.current, s.cpu, f)
    requires s.cpu.pc.SetPriority? ==> f.regs.pc.SetShare?
    ensures InOrder(c, s')
  {
    hide Trap;
    hide FrameOk;
    if AllSet(c, s) {
      SetForGood(c, s, f, ticks, s');
    } else {
      var m: nat :| SettingUp(c, s, m);
      assert View(s, s.kern.current) == s.cpu;
      if s.kern.current == m + 1 {
        FirstCall(c, s, f, ticks, s', m);
      } else {
        EagerTrap(c, s, f, ticks, s', m);
      }
    }
  }

  lemma StepKeepsInOrder(c: Config, s: Sys, e: Event, s': Sys)
    requires c.algorithm == 2 && InOrder(c, s) && AssignedInv(c, s) && Step(c, s, e, s')
    requires e.Clock? ==> !s.cpu.pc.SetPriority?
    ensures InOrder(c, s')
  {
    hide Trap;
    hide InOrder;
    match e
    case Local => LocalKeepsInOrder(c, s, s');
    case Call(ticks) =>
      SignedUnsigned(AppOf(c, s.kern.current).priority);
      TrapKeepsInOrder(c, s, CallFrame(c, s.kern.current, s.cpu), ticks, s');
    case Clock(ticks) =>
      assert View(s, s.kern.current) == s.cpu;
      TrapKeepsInOrder(c, s, Frame(s.cpu, INT_CLOCK, 0), ticks, s');
  }

  lemma InOrderInitially(c: Config, boot: Shared)
    requires Sane(c)
    ensures InOrder(c, Initial(c, boot))
  {
    TableInitially(c, boot);
    assert SettingUp(c, Initial(c, boot), 0);
  }

  /** After an instruction the program is past its first call. */
  lemma LocalIsLater(c: Config, s: Sys, s': Sys)
    requires Step(c, s, Local, s')
    ensures !s'.cpu.pc.SetPriority?
  {
  }

  lemma ClockIsLater(c: Config, boot: Shared, ss: seq<Sys>, es: seq<Event>, t: nat)
    requires IsRun(c, boot, ss, es) && Fair(es) && 0 < t < |ss|
    ensures t - 1 < |es| && (es[t - 1].Clock? ==> !ss[t - 1].cpu.pc.SetPriority?)
  {
    hide Step;
    RunStep(c, boot, ss, es, t);
    if es[t - 1].Clock? {
      RunStep(c, boot, ss, es, t - 1);
      LocalIsLater(c, ss[t - 2], ss[t - 1]);
    }
  }

  /** Without an interrupt right after a dispatch, priorities are set in order before anybody but a
      process of negative priority runs, so whoever runs and whoever holds the lock is of the best
      class, whatever the priorities. */
  lemma {:induction false} FairLeads(c: Config, boot: Shared, ss: seq<Sys>, es: seq<Event>, t: nat)
    requires IsRun(c, boot, ss, es) && Fair(es) && c.algorithm == 2 && t < |ss|
    ensures LeadInv(c, ss[t]) && InOrder(c, ss[t])
  {
    hide *;
    RunStarts(c, boot, ss, es);
    if t == 0 {
      LeadsInitially(c, boot);
      InOrderInitially(c, boot);
    } else {
      FairLeads(c, boot, ss, es, t - 1);
      RunStep(c, boot, ss, es, t);
      ClockIsLater(c, boot, ss, es, t);
      FairStep(c, ss[t - 1], es[t - 1], ss[t]);
    }
  }

  lemma FairStep(c: Config, s: Sys, e: Event, s': Sys)
    requires c.algorithm == 2 && LeadInv(c, s) && InOrder(c, s) && Step(c, s, e, s')
    requires e.Clock? ==> !s.cpu.pc.SetPriority?
    ensures LeadInv(c, s') && InOrder(c, s')
  {
    hide InOrder;
    hide Trap;
    hide AssignedInv;
    StepKeepsInOrder(c, s, e, s');
    if s.cpu.pc.SetPriority? {
      FirstCallAlone(c, s);
    }
    StepKeepsLeads(c, s, e, s');
  }
}
