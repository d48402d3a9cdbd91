/** What the calls of the applications leave in the process table, over every run under every policy. */
module CallRecords {
  import opened KernelTypes
  import opened Scheduling
  import opened Interrupts
  import opened Applications
  import opened PriorityBarrier

  /** The constants process `p` has handed over by the time it is at `pc`, and the status it exits
      with. */
  predicate HandedOver(c: Config, p: nat, d: Descriptor<User>, pc: Pc)
    requires Pid(c, p)
  {
    && d.priority == (if pc.SetPriority? then 0 else AppOf(c, p).priority)
    && d.share == (if pc.SetPriority? || pc.SetShare? then 0 else AppOf(c, p).share)
    && d.numTickets == (if pc.SetPriority? || pc.SetShare? || pc.SetLottery? then 0 else AppOf(c, p).tickets)
    && d.exitStatus == 0
  }

  ghost predicate Recorded(c: Config, s: Sys) {
    TableInv(c, s) && forall p: nat | Pid(c, p) :: HandedOver(c, p, s.kern.procs[p], View(s, p).pc)
  }

  lemma TrapRecords(c: Config, s: Sys, f: Frame<User>, ticks: seq<nat>, s': Sys, p: nat)
    requires TableInv(c, s) && s.running && Trap(s, f, ticks, s') && Pid(c, p)
    ensures p < |s'.kern.procs| && View(s', p) == if p == s.kern.current then f.regs else View(s, p)
    ensures var d, d' := s.kern.procs[p], s'.kern.procs[p];
            var mine, x := p == s.kern.current, Signed(f.eax);
            && d'.priority == (if mine && f.intno == 50 then x else d.priority)
            && d'.share == (if mine && f.intno == 51 then x else d.share)
            && d'.numTickets == (if mine && f.intno == 53 then x else d.numTickets)
            && d'.exitStatus == (if mine && f.intno == 49 then x else d.exitStatus)
  {
    hide Handle;
    hide Scheduled;
    CallRecorded(s.kern, f, ticks, s'.kern, if s'.running then Run(s'.kern.current) else Spin);
    TrapViews(s, f, ticks, s');
    assert View(s', p) == Views(s')[p] == Views(s)[s.kern.current := f.regs][p];
  }

  lemma StepRecords(c: Config, s: Sys, e: Event, s': Sys, p: nat)
    requires Recorded(c, s) && Step(c, s, e, s') && Pid(c, p) && TableInv(c, s')
    ensures HandedOver(c, p, s'.kern.procs[p], View(s', p).pc)
  {
    hide Trap;
    hide TableInv;
    TableParts(c, s);
    var cur := s.kern.current;
    SignedUnsigned(AppOf(c, cur).priority);
    SignedUnsigned(AppOf(c, cur).share);
    SignedUnsigned(AppOf(c, cur).tickets);
    assert View(s, cur) == s.cpu;
    RecordedTable(c, s);
    match e
    case Local =>
      LocalViews(c, s);
      assert View(s', p) == Views(s')[p] && View(s, p) == Views(s)[p];
    case Call(ticks) => TrapRecords(c, s, CallFrame(c, cur, s.cpu), ticks, s', p);
    case Clock(ticks) => TrapRecords(c, s, Frame(s.cpu, INT_CLOCK, 0), ticks, s', p);
  }

  lemma RecordedTable(c: Config, s: Sys)
    requires Recorded(c, s)
    ensures TableInv(c, s)
  {
  }

  lemma {:induction false} RunRecords(c: Config, boot: Shared, ss: seq<Sys>, es: seq<Event>, t: nat)
    requires IsRun(c, boot, ss, es) && t < |ss|
    ensures Recorded(c, ss[t])
  {
    hide IsRun;
    hide Step;
    hide TableInv;
    hide HandedOver;
    hide View;
    RunStarts(c, boot, ss, es);
    RunKeepsTable(c, boot, ss, es, t);
    TableParts(c, ss[t]);
    if t == 0 {
      RecordedInitially(c, boot);
    } else {
      RunRecords(c, boot, ss, es, t - 1);
      RunStep(c, boot, ss, es, t);
      forall p: nat | Pid(c, p) ensures HandedOver(c, p, ss[t].kern.procs[p], View(ss[t], p).pc) {
        StepRecords(c, ss[t - 1], es[t - 1], ss[t], p);
      }
    }
  }

  lemma RecordedInitially(c: Config, boot: Shared)
    requires Sane(c)
    ensures Recorded(c, Initial(c, boot))
  {
    TableInitially(c, boot);
  }

  /** In every run the table holds exactly the priority, share and tickets that an application was
      compiled with once it has made its three calls, and every zombie has the status 0 of
      `sys_exit(0)`. */
  lemma TableFollowsCalls(c: Config, boot: Shared, ss: seq<Sys>, es: seq<Event>, t: nat, p: nat)
    requires IsRun(c, boot, ss, es) && t < |ss| && 1 <= p <= |c.apps|
    ensures p < |ss[t].kern.procs|
    ensures var d := ss[t].kern.procs[p];
            && (d.state.Zombie? ==> d.exitStatus == 0)
            && (d.state.Zombie? || View(ss[t], p).pc.Yield? ==>
                  d.priority == c.apps[p - 1].priority && d.share == c.apps[p - 1].share
                  && d.numTickets == c.apps[p - 1].tickets)
  {
    RunRecords(c, boot, ss, es, t);
    hide IsRun;
  }
}
