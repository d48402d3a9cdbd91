/** Policies that make the same choices over whole stretches of a run. */
module PolicyRuns {
  import opened KernelTypes
  import opened Scheduling
  import opened Interrupts
  import opened Applications
  import opened Fairness

  /** Any stretch of a run. */
  ghost predicate Stretch(c: Config, ss: seq<Sys>, es: seq<Event>) {
    |ss| == |es| + 1 && forall t | 0 < t < |ss| :: Step(c, ss[t - 1], es[t - 1], ss[t])
  }

  function Under(s: Sys, algorithm: int): Sys {
    s.(kern := s.kern.(algorithm := algorithm))
  }

  function AllUnder(ss: seq<Sys>, algorithm: int): (us: seq<Sys>)
    ensures |us| == |ss|
    ensures forall t | 0 <= t < |ss| :: us[t] == Under(ss[t], algorithm)
  {
    seq(|ss|, t requires 0 <= t < |ss| => Under(ss[t], algorithm))
  }

  ghost predicate EqualPriorities(procs: seq<Descriptor<User>>) {
    forall a, b | Runs(procs, a) && Runs(procs, b) :: procs[a].priority == procs[b].priority
  }

  ghost predicate IncreasingPriorities(procs: seq<Descriptor<User>>) {
    forall a, b | Runs(procs, a) && Runs(procs, b) && a < b :: procs[a].priority < procs[b].priority
  }

  lemma SwitchTrap(s: Sys, f: Frame<User>, ticks: seq<nat>, s': Sys, algorithm: int)
    requires s.kern.algorithm == 2 && 0 <= algorithm <= 1 && Trap(s, f, ticks, s')
    requires if algorithm == 0 then EqualPriorities(s'.kern.procs) else IncreasingPriorities(s'.kern.procs)
    ensures Trap(Under(s, algorithm), f, ticks, Under(s', algorithm))
  {
    var h := Handle(s.kern, f);
    assert Handle(Under(s, algorithm).kern, f) == h.(algorithm := algorithm);
    if s'.running {
      assert s'.kern.procs == h.procs;
      if algorithm == 0 {
        EqualPrioritiesAreRoundRobin(h, s'.kern.current);
      } else {
        IncreasingPrioritiesAreLowestPid(h, s'.kern.current);
      }
    }
  }

  lemma SwitchStep(c: Config, s: Sys, e: Event, s': Sys, algorithm: int)
    requires s.kern.algorithm == 2 && 0 <= algorithm <= 1 && Step(c, s, e, s')
    requires if algorithm == 0 then EqualPriorities(s'.kern.procs) else IncreasingPriorities(s'.kern.procs)
    ensures Step(c, Under(s, algorithm), e, Under(s', algorithm)) && s'.kern.algorithm == 2
  {
    match e
    case Local =>
    case Call(ticks) => SwitchTrap(s, CallFrame(c, s.kern.current, s.cpu), ticks, s', algorithm);
    case Clock(ticks) => SwitchTrap(s, Frame(s.cpu, INT_CLOCK, 0), ticks, s', algorithm);
  }

  /** A stretch of a run of policy 2 throughout which the runnable priorities are all equal is a
      stretch of policy 0, state for state; one throughout which they increase with the pid is a
      stretch of policy 1. */
  lemma PriorityStretch(c: Config, ss: seq<Sys>, es: seq<Event>, algorithm: int)
    requires Stretch(c, ss, es) && ss[0].kern.algorithm == 2 && 0 <= algorithm <= 1
    requires forall t | 0 <= t < |ss| ::
               if algorithm == 0 then EqualPriorities(ss[t].kern.procs) else IncreasingPriorities(ss[t].kern.procs)
    ensures Stretch(c, AllUnder(ss, algorithm), es)
  {
    var us := AllUnder(ss, algorithm);
    forall t | 0 < t < |us| ensures Step(c, us[t - 1], es[t - 1], us[t]) {
      StretchPolicy(c, ss, es, t - 1);
      SwitchStep(c, ss[t - 1], es[t - 1], ss[t], algorithm);
    }
  }

  lemma {:induction false} StretchPolicy(c: Config, ss: seq<Sys>, es: seq<Event>, t: nat)
    requires Stretch(c, ss, es) && t < |ss|
    ensures ss[t].kern.algorithm == ss[0].kern.algorithm
  {
    if t > 0 {
      StretchPolicy(c, ss, es, t - 1);
      assert Step(c, ss[t - 1], es[t - 1], ss[t]);
    }
  }

  // ----- Zero shares -----

  /** The table as policy 0 keeps it: no running counts. */
  function Uncounted(procs: seq<Descriptor<User>>): (ps: seq<Descriptor<User>>)
    ensures |ps| == |procs|
    ensures forall q | 0 <= q < |ps| :: ps[q] == procs[q].(numTimes := 0)
  {
    seq(|procs|, q requires 0 <= q < |procs| => procs[q].(numTimes := 0))
  }

  function AsRoundRobin(s: Sys): Sys {
    s.(kern := s.kern.(procs := Uncounted(s.kern.procs), algorithm := 0))
  }

  function AllAsRoundRobin(ss: seq<Sys>): (us: seq<Sys>)
    ensures |us| == |ss|
    ensures forall t | 0 <= t < |ss| :: us[t] == AsRoundRobin(ss[t])
  {
    seq(|ss|, t requires 0 <= t < |ss| => AsRoundRobin(ss[t]))
  }

  /** All shares are zero, and the current process's single dispatch is counted. */
  ghost predicate ZeroShares(k: Kern<User>) {
    && k.algorithm == 3 && k.current < |k.procs| && ShareInv(k)
    && (forall q | Runs(k.procs, q) :: k.procs[q].share == 0)
    && (Runs(k.procs, k.current) ==> k.procs[k.current].numTimes == 1)
  }

  lemma ZeroSharesTrap(s: Sys, f: Frame<User>, ticks: seq<nat>, s': Sys)
    requires ZeroShares(s.kern) && f.intno != INT_SYS_USER2 && Trap(s, f, ticks, s')
    ensures Trap(AsRoundRobin(s), f, ticks, AsRoundRobin(s'))
    ensures s'.running ==> ZeroShares(s'.kern)
  {
    var h := Handle(s.kern, f);
    ZeroSharesHandled(s, f);
    hide Handle;
    ZeroSharesScheduled(h, ticks, s'.kern, if s'.running then Run(s'.kern.current) else Spin);
  }

  lemma ZeroSharesHandled(s: Sys, f: Frame<User>)
    requires ZeroShares(s.kern) && f.intno != INT_SYS_USER2
    ensures var h := Handle(s.kern, f);
            && h.algorithm == 3 && h.current == s.kern.current < |h.procs| == |s.kern.procs| && ShareInv(h)
            && (forall q | Runs(h.procs, q) :: h.procs[q].share == 0)
            && (Runs(h.procs, h.current) ==> h.procs[h.current].numTimes == 1)
            && Handle(AsRoundRobin(s).kern, f) == h.(procs := Uncounted(h.procs), algorithm := 0)
  {
    var h := Handle(s.kern, f);
    assert forall q | 0 <= q < |h.procs| && q != h.current :: h.procs[q] == s.kern.procs[q];
    assert Handle(AsRoundRobin(s).kern, f).procs == Uncounted(h.procs);
  }

  lemma ZeroSharesScheduled(h: Kern<User>, ticks: seq<nat>, k': Kern<User>, o: Outcome)
    requires h.algorithm == 3 && h.current < |h.procs| && ShareInv(h)
    requires forall q | Runs(h.procs, q) :: h.procs[q].share == 0
    requires Runs(h.procs, h.current) ==> h.procs[h.current].numTimes == 1
    requires Scheduled(h, ticks, k', o) && (o.Run? ==> o.pid == k'.current)
    ensures |k'.procs| == |h.procs|
    ensures Scheduled(h.(procs := Uncounted(h.procs), algorithm := 0), ticks,
                      k'.(procs := Uncounted(k'.procs), algorithm := 0), o)
    ensures o.Run? ==> ZeroShares(k')
  {
    var uh := h.(procs := Uncounted(h.procs), algorithm := 0);
    if o.Run? {
      ZeroSharesAreRoundRobin(h, k', o.pid);
      assert forall q :: Best(uh, q) <==> Best(h.(algorithm := 0), q);
      assert Uncounted(k'.procs) == uh.procs;
    } else {
      assert forall q :: Runs(uh.procs, q) ==> Wants(h.procs, q);
      assert Uncounted(k'.procs) == uh.procs;
    }
  }

  lemma {:induction false} ZeroSharesKept(c: Config, ss: seq<Sys>, es: seq<Event>, t: nat)
    requires Stretch(c, ss, es) && t < |ss| && ss[t].running && ZeroShares(ss[0].kern)
    requires forall i | 0 <= i < |es| :: !(es[i].Call? && ss[i].cpu.pc.SetShare?)
    ensures ZeroShares(ss[t].kern)
  {
    hide *;
    if t > 0 {
      StretchStep(c, ss, es, t);
      ZeroSharesKept(c, ss, es, t - 1);
      ZeroSharesStep(c, ss[t - 1], es[t - 1], ss[t]);
    }
  }

  lemma StretchStep(c: Config, ss: seq<Sys>, es: seq<Event>, t: nat)
    requires Stretch(c, ss, es) && 0 < t < |ss|
    ensures |ss| == |es| + 1 && Step(c, ss[t - 1], es[t - 1], ss[t]) && ss[t - 1].running
  {
    hide Trap;
    assert Step(c, ss[t - 1], es[t - 1], ss[t]);
  }

  lemma ZeroSharesStep(c: Config, s: Sys, e: Event, s': Sys)
    requires ZeroShares(s.kern) && Step(c, s, e, s') && !(e.Call? && s.cpu.pc.SetShare?)
    ensures Step(c, AsRoundRobin(s), e, AsRoundRobin(s')) && (s'.running ==> ZeroShares(s'.kern))
  {
    match e
    case Local => assert AsRoundRobin(s') == LocalStep(c, AsRoundRobin(s));
    case Call(ticks) => ZeroSharesTrap(s, CallFrame(c, s.kern.current, s.cpu), ticks, s');
    case Clock(ticks) => ZeroSharesTrap(s, Frame(s.cpu, INT_CLOCK, 0), ticks, s');
  }

  /** A stretch of policy 3 in which nobody sets a share, starting with all shares zero and the
      current process's dispatch counted, is a stretch of policy 0 once the running counts are
      left out. */
  lemma ZeroShareStretch(c: Config, ss: seq<Sys>, es: seq<Event>)
    requires Stretch(c, ss, es) && ZeroShares(ss[0].kern)
    requires forall i | 0 <= i < |es| :: !(es[i].Call? && ss[i].cpu.pc.SetShare?)
    ensures Stretch(c, AllAsRoundRobin(ss), es)
  {
    var us := AllAsRoundRobin(ss);
    forall t | 0 < t < |us| ensures Step(c, us[t - 1], es[t - 1], us[t]) {
      StretchStep(c, ss, es, t);
      ZeroSharesKept(c, ss, es, t - 1);
      ZeroSharesStep(c, ss[t - 1], es[t - 1], ss[t]);
    }
  }
}
