/** Liveness with clock interrupts: if every dispatched process executes at least one instruction, the
    kernel is entered only so often, whatever the spinning, and the system stops with everything
    printed. */
module Liveness {
  import opened KernelTypes
  import opened Scheduling
  import opened Interrupts
  import opened Applications
  import opened Rotor
  import opened Fairness
  import opened DispatchRuns
  import opened LockSafety
  import opened PriorityBarrier
  import opened BarrierRuns
  import opened Turns
  import opened Cooperative
  import opened ShareTurns
  import opened ShareRuns
  import opened FairRuns
  import opened LowestPidRuns

  /** Interrupts and system calls among the first `t` events. */
  function Entries(es: seq<Event>, t: nat): nat
    requires t <= |es|
  {
    if t == 0 then 0 else Entries(es, t - 1) + if es[t - 1].Local? then 0 else 1
  }

  /** The last process to win the lock. */
  function Holder(s: Sys): nat
    requires s.log != []
  {
    s.log[|s.log| - 1]
  }

  /** The running process can only spin. */
  predicate Waiting(s: Sys) {
    s.running && s.kern.mem.lock != 0 && s.log != [] && Holder(s) != s.kern.current
  }

  // ----- How far off the lock holder is -----

  /** From process `p` round to process `h`. */
  function Around(n: nat, p: nat, h: nat): int {
    if h > p then h - p else h - p + n
  }

  function Weights(procs: seq<Descriptor<User>>): (ws: seq<nat>)
    ensures |ws| == |procs| && forall q | 0 <= q < |ws| :: ws[q] == ShareWeight(procs[q])
  {
    seq(|procs|, q requires 0 <= q < |procs| => ShareWeight(procs[q]))
  }

  /** From slot `at` of a wheel round to slot `off`. */
  function Forward(total: nat, at: int, off: int): int {
    if off > at then off - at else off - at + total
  }

  /** Dispatches until the holder's, at most, if all the others only spin. */
  function Lag(c: Config, s: Sys): int {
    if !Waiting(s) then 0
    else if c.algorithm != 3 then Around(|c.apps|, s.kern.current, Holder(s))
    else
      var ws := Weights(s.kern.procs);
      if s.kern.current < |ws| && Holder(s) < |ws| then
        Forward(Off(ws, |ws|), ShareSlot(s.kern, ws), Off(ws, Holder(s)))
      else 0
  }

  /** The dispatches of a round of everybody's turns. */
  function Round(c: Config): nat {
    if c.algorithm == 3 then Turnout(c, |c.apps|) else |c.apps|
  }

  function Turnout(c: Config, n: nat): nat
    requires n <= |c.apps|
  {
    if n == 0 then 0 else Turnout(c, n - 1) + if AppOf(c, n).share < 0 then 1 else AppOf(c, n).share + 1
  }

  /** What keeps the lock holder within reach. */
  ghost predicate Reach(c: Config, s: Sys) {
    && (c.algorithm == 1 ==> !Waiting(s))
    && (c.algorithm == 2 ==> LeadInv(c, s))
    && (c.algorithm == 3 ==> Sharing(c, s))
  }

  lemma HolderIs(c: Config, boot: Shared, s: Sys)
    requires SysInv(c, boot, s) && s.kern.mem.lock != 0
    ensures s.kern.mem.lock == 1 && s.log != [] && Pid(c, Holder(s)) && |s.kern.procs| == Slots(c)
    ensures forall p: nat | p < |s.kern.procs| :: Critical(View(s, p).pc) <==> p == Holder(s)
  {
    var vs := Views(s);
    var h: nat :| Held(c, Base(boot), vs, s.kern.mem, s.log, h);
    assert Pid(c, s.log[|s.log| - 1]);
    forall p: nat | p < |s.kern.procs| ensures Critical(View(s, p).pc) <==> p == h {
      assert vs[p] == View(s, p);
    }
  }

  lemma WaitingPids(c: Config, boot: Shared, s: Sys)
    requires SysInv(c, boot, s) && Waiting(s)
    ensures |s.kern.procs| == Slots(c) && s.log != [] && Pid(c, Holder(s)) && Pid(c, s.kern.current)
    ensures Critical(View(s, Holder(s)).pc) && Runs(s.kern.procs, Holder(s)) && s.kern.current != Holder(s)
    ensures WellFormed(s.kern) && ShareInv(s.kern) && s.kern.algorithm == c.algorithm
  {
    HolderIs(c, boot, s);
    hide LockInv;
    hide CountInv;
    assert s.kern.current != 0;
  }

  // ----- Policies 0 to 2 -----

  /** The lock holder is one of those the policy chooses from. */
  lemma HolderBest(c: Config, boot: Shared, s: Sys)
    requires SysInv(c, boot, s) && Waiting(s) && Reach(c, s) && 0 <= c.algorithm <= 2
    ensures Best(s.kern, Holder(s)) && s.kern.current < |s.kern.procs|
  {
    WaitingPids(c, boot, s);
    hide SysInv;
    hide View;
  }

  lemma AroundShrinks(n: nat, cur: nat, p: nat, h: nat)
    requires 1 <= cur <= n && 1 <= p <= n && 1 <= h <= n && cur != h && p != h
    requires Dist(n + 1, cur, p) <= Dist(n + 1, cur, h)
    ensures Around(n, p, h) < Around(n, cur, h)
  {
  }

  /** A dispatch comes nearer to the holder. */
  lemma PickNearer(c: Config, boot: Shared, s: Sys, ticks: seq<nat>, s': Sys)
    requires SysInv(c, boot, s) && Waiting(s) && Reach(c, s) && 0 <= c.algorithm <= 2
    requires Step(c, s, Clock(ticks), s') && TableInv(c, s')
    ensures s'.running && (s'.kern.current == Holder(s) ||
                           Around(|c.apps|, s'.kern.current, Holder(s)) < Around(|c.apps|, s.kern.current, Holder(s)))
  {
    hide SysInv;
    hide Reach;
    hide Waiting;
    WaitingPids(c, boot, s);
    HolderBest(c, boot, s);
    ClockBest(s, Holder(s));
    ClockPicks(c, s, ticks, s', Holder(s));
    hide Step;
    if s'.kern.current != Holder(s) {
      AroundShrinks(|c.apps|, s.kern.current, s'.kern.current, Holder(s));
    }
  }

  lemma ClockPicks(c: Config, s: Sys, ticks: seq<nat>, s': Sys, h: nat)
    requires Step(c, s, Clock(ticks), s') && 0 <= s.kern.algorithm <= 2 && s.kern.current < |s.kern.procs|
    requires TableInv(c, s') && Best(Handle(s.kern, Frame(s.cpu, INT_CLOCK, 0)), h)
    ensures s'.running && Pid(c, s'.kern.current) && |s.kern.procs| == Slots(c)
    ensures Dist(Slots(c), s.kern.current, s'.kern.current) <= Dist(Slots(c), s.kern.current, h)
  {
    var k := Handle(s.kern, Frame(s.cpu, INT_CLOCK, 0));
    assert Runs(k.procs, h);
    assert s'.running;
    assert IsPick(k, s'.kern.current);
    assert s'.kern.current != 0;
  }

  // ----- Policy 3 -----

  /** Inside its turn, the current process is not in the holder's block of the wheel. */
  lemma SlotOutside(k: Kern<User>, h: nat)
    requires InTurn(k) && h < |k.procs| && h != k.current && Wants(k.procs, h)
    ensures var ws := Weights(k.procs);
            && 0 <= ShareSlot(k, ws) < Off(ws, |ws|) && Off(ws, h) < Off(ws, |ws|)
            && ShareSlot(k, ws) != Off(ws, h)
  {
    var ws := Weights(k.procs);
    BlockFits(ws, k.current);
    BlockFits(ws, h);
    OneBlock(ws, k.current, h, ShareSlot(k, ws));
  }

  lemma HolderWants(c: Config, boot: Shared, s: Sys)
    requires SysInv(c, boot, s) && Waiting(s) && Sharing(c, s) && c.algorithm == 3
    ensures Wants(s.kern.procs, Holder(s)) && InTurn(s.kern)
    ensures Holder(s) != s.kern.current && Pid(c, Holder(s)) && s.kern.current < |s.kern.procs| == Slots(c)
  {
    WaitingPids(c, boot, s);
    hide SysInv;
    hide InTurn;
    var h := Holder(s);
    assert PosOf(c, View(s, h)) >= 3;
    assert s.kern.procs[h].share == ShareAt(c, h, PosOf(c, View(s, h)));
  }

  lemma ForwardAdvances(total: nat, at: int, off: int)
    requires 0 <= at < total && 0 <= off < total && at != off
    ensures Advance(at, total) != off ==> Forward(total, Advance(at, total), off) == Forward(total, at, off) - 1
    ensures 1 <= Forward(total, at, off) <= total - 1
  {
  }

  lemma ClockIsShare(c: Config, s: Sys, ticks: seq<nat>, s': Sys)
    requires Step(c, s, Clock(ticks), s') && InTurn(s.kern) && s.kern.algorithm == 3
    requires s.kern.current < |s.kern.procs|
    ensures s'.running && NextShare(s.kern, s'.kern)
  {
    QuietTable(c, s, Clock(ticks), s');
    ShareTrap(s.kern, s, Frame(s.cpu, INT_CLOCK, 0), ticks, s');
  }

  lemma ShareNearer(c: Config, boot: Shared, s: Sys, ticks: seq<nat>, s': Sys)
    requires SysInv(c, boot, s) && Waiting(s) && Sharing(c, s) && c.algorithm == 3
    requires Step(c, s, Clock(ticks), s') && s'.log == s.log
    ensures s'.running && (s'.kern.current == Holder(s) || !Waiting(s') || Lag(c, s') < Lag(c, s))
  {
    hide SysInv;
    hide Sharing;
    hide InTurn;
    hide Wants;
    hide NextShare;
    hide ShareSlot;
    hide Off;
    HolderWants(c, boot, s);
    WaitingPids(c, boot, s);
    ClockIsShare(c, s, ticks, s');
    hide Step;
    var h, ws := Holder(s), Weights(s.kern.procs);
    SlotOutside(s.kern, h);
    ShareAdvances(s.kern, s'.kern, ws);
    SameWeights(s'.kern.procs, ws);
    if s'.kern.current != h && Waiting(s') {
      WantsByWeight(s.kern.procs, s'.kern.procs, ws, h);
      SlotOutside(s'.kern, h);
      ForwardAdvances(Off(ws, |ws|), ShareSlot(s.kern, ws), Off(ws, h));
      InTurnSize(s'.kern);
    }
  }

  lemma InTurnSize(k: Kern<User>)
    requires InTurn(k)
    ensures k.current < |k.procs|
  {
  }

  lemma SameWeights(procs: seq<Descriptor<User>>, ws: seq<nat>)
    requires Shares(procs, ws)
    ensures Weights(procs) == ws
  {
  }

  lemma WantsByWeight(procs: seq<Descriptor<User>>, procs': seq<Descriptor<User>>, ws: seq<nat>, h: nat)
    requires ws == Weights(procs) == Weights(procs') && Wants(procs, h)
    ensures h < |procs'| && Wants(procs', h)
  {
  }

  // ----- The lag is less than a round -----

  lemma {:induction false} WeightsInTurnout(c: Config, ws: seq<nat>, n: nat)
    requires n < |ws| == Slots(c) && ws[0] == 0
    requires forall p | Pid(c, p) :: ws[p] <= if AppOf(c, p).share < 0 then 1 else AppOf(c, p).share + 1
    ensures Off(ws, n + 1) <= Turnout(c, n)
  {
    if n > 0 {
      WeightsInTurnout(c, ws, n - 1);
      assert Pid(c, n);
    }
  }

  lemma WeightsBounded(c: Config, s: Sys)
    requires SharesSet(c, s)
    ensures var ws := Weights(s.kern.procs);
            && |ws| == Slots(c) && ws[0] == 0
            && forall p | Pid(c, p) :: ws[p] <= if AppOf(c, p).share < 0 then 1 else AppOf(c, p).share + 1
  {
    hide PosOf;
  }

  lemma LagBounded(c: Config, boot: Shared, s: Sys)
    requires SysInv(c, boot, s) && Reach(c, s) && Sane(c) && 0 <= c.algorithm <= 3
    ensures 0 <= Lag(c, s) < Round(c) && (Waiting(s) ==> Lag(c, s) >= 1)
  {
    RoundPositive(c, |c.apps|);
    if Waiting(s) {
      WaitingPids(c, boot, s);
      if c.algorithm == 3 {
        ReachSharing(c, s);
        ShareLagBounded(c, boot, s);
      }
    }
  }

  lemma ReachSharing(c: Config, s: Sys)
    requires Reach(c, s) && c.algorithm == 3
    ensures Sharing(c, s) && SharesSet(c, s)
  {
  }

  lemma {:induction false} RoundPositive(c: Config, n: nat)
    requires n <= |c.apps|
    ensures Turnout(c, n) >= n
  {
    if n > 0 {
      RoundPositive(c, n - 1);
    }
  }

  lemma ShareLagBounded(c: Config, boot: Shared, s: Sys)
    requires SysInv(c, boot, s) && Waiting(s) && Sharing(c, s) && SharesSet(c, s) && c.algorithm == 3
    ensures 1 <= Lag(c, s) < Turnout(c, |c.apps|)
  {
    hide SysInv;
    hide Sharing;
    hide SharesSet;
    hide InTurn;
    hide Wants;
    hide ShareSlot;
    hide Off;
    hide Turnout;
    HolderWants(c, boot, s);
    var ws := Weights(s.kern.procs);
    SlotOutside(s.kern, Holder(s));
    ForwardAdvances(Off(ws, |ws|), ShareSlot(s.kern, ws), Off(ws, Holder(s)));
    WeightsBounded(c, s);
    WeightsInTurnout(c, ws, |c.apps|);
  }

  // ----- One step -----

  /** Nothing but spinning and being interrupted is no work. */
  lemma LocalWork(c: Config, boot: Shared, s: Sys, s': Sys)
    requires SysInv(c, boot, s) && Step(c, s, Local, s')
    ensures if Waiting(s) then s' == s
            else TotalWork(c, Views(s')) == TotalWork(c, Views(s)) + 1 && !Waiting(s')
  {
    hide TotalWork;
    hide Work;
    hide LockInv;
    var cur := s.kern.current;
    LocalRuns(c, s, s');
    CurrentOk(c, boot, s);
    CallTable(c, boot, s);
    LocalCases(c, boot, s);
    if !Waiting(s) {
      InstructionWorks(c, cur, s.cpu, s.kern.mem);
      LocalViews(c, s);
      WorkUpdate(c, Views(s), cur, UserStep(c, cur, s.cpu, s.kern.mem).0);
    }
  }

  lemma LocalRuns(c: Config, s: Sys, s': Sys)
    requires Step(c, s, Local, s')
    ensures s.running && Pid(c, s.kern.current) && !IsCall(s.cpu.pc) && s' == LocalStep(c, s)
  {
  }

  /** The current process waits for somebody else, or tries a free lock, or holds it. */
  lemma LocalCases(c: Config, boot: Shared, s: Sys)
    requires SysInv(c, boot, s) && s.running && Pid(c, s.kern.current) && !IsCall(s.cpu.pc)
    ensures if s.kern.mem.lock == 0 then s.cpu.pc.Acquire?
            else s.kern.mem.lock == 1 && s.log != [] &&
                 if Holder(s) == s.kern.current then Critical(s.cpu.pc) else s.cpu.pc.Acquire?
  {
    CurrentOk(c, boot, s);
    assert View(s, s.kern.current) == s.cpu;
    if s.kern.mem.lock != 0 {
      HolderIs(c, boot, s);
    } else {
      SafeViews(c, Base(boot), Views(s), s.kern.mem, s.log);
    }
  }

  lemma CallWork(c: Config, boot: Shared, s: Sys, ticks: seq<nat>, s': Sys)
    requires SysInv(c, boot, s) && Step(c, s, Call(ticks), s')
    ensures TotalWork(c, Views(s')) == TotalWork(c, Views(s)) + 1
  {
    hide TotalWork;
    hide Work;
    hide SysInv;
    hide UserStep;
    hide CallFrame;
    hide Trap;
    var cur := s.kern.current;
    CallTable(c, boot, s);
    TableParts(c, s);
    CurrentOk(c, boot, s);
    InstructionWorks(c, cur, s.cpu, s.kern.mem);
    TrapViews(s, CallFrame(c, cur, s.cpu), ticks, s');
    WorkUpdate(c, Views(s), cur, CallFrame(c, cur, s.cpu).regs);
  }

  lemma ClockWork(c: Config, boot: Shared, s: Sys, ticks: seq<nat>, s': Sys)
    requires SysInv(c, boot, s) && Step(c, s, Clock(ticks), s')
    ensures Views(s') == Views(s) && s'.kern.mem.lock == s.kern.mem.lock && s'.log == s.log
  {
    hide SysInv;
    CallTable(c, boot, s);
    TableParts(c, s);
    CurrentOk(c, boot, s);
    TrapViews(s, Frame(s.cpu, INT_CLOCK, 0), ticks, s');
    assert Views(s)[s.kern.current := s.cpu] == Views(s);
  }

  lemma ClockNearer(c: Config, boot: Shared, s: Sys, ticks: seq<nat>, s': Sys)
    requires SysInv(c, boot, s) && Waiting(s) && Reach(c, s) && Sane(c) && 0 <= c.algorithm <= 3
    requires Step(c, s, Clock(ticks), s') && SysInv(c, boot, s') && Reach(c, s')
    ensures Lag(c, s') < Lag(c, s)
  {
    hide SysInv;
    hide Reach;
    hide Step;
    hide ShareSlot;
    hide Off;
    hide Sharing;
    ClockWork(c, boot, s, ticks, s');
    LagBounded(c, boot, s);
    if c.algorithm == 3 {
      ReachSharing(c, s);
      ShareNearer(c, boot, s, ticks, s');
    } else {
      CallTable(c, boot, s');
      PickNearer(c, boot, s, ticks, s');
    }
  }

  // ----- The potential -----

  /** Every kernel entry is paid for by work: each unit pays for a round. */
  ghost predicate Paid(c: Config, s: Sys, entries: nat, afterLocal: bool) {
    entries + Lag(c, s) + (if afterLocal && !Waiting(s) then Round(c) else 0) <= Round(c) * TotalWork(c, Views(s))
  }

  lemma PaysMore(r: nat, w: nat)
    ensures r * (w + 1) == r * w + r
  {
  }

  lemma StepPays(c: Config, boot: Shared, s: Sys, e: Event, s': Sys, entries: nat, afterLocal: bool)
    requires SysInv(c, boot, s) && Reach(c, s) && SysInv(c, boot, s') && Reach(c, s')
    requires Sane(c) && 0 <= c.algorithm <= 3 && Step(c, s, e, s') && Paid(c, s, entries, afterLocal)
    requires e.Clock? ==> afterLocal
    ensures Paid(c, s', if e.Local? then entries else entries + 1, e.Local?)
  {
    hide SysInv;
    hide Reach;
    hide Step;
    hide Lag;
    hide Waiting;
    hide TotalWork;
    hide Round;
    LagBounded(c, boot, s);
    LagBounded(c, boot, s');
    PaysMore(Round(c), TotalWork(c, Views(s)));
    match e
    case Local =>
      LocalWork(c, boot, s, s');
      NotWaiting(c, s');
    case Call(ticks) => CallWork(c, boot, s, ticks, s');
    case Clock(ticks) =>
      ClockWork(c, boot, s, ticks, s');
      if Waiting(s) {
        ClockNearer(c, boot, s, ticks, s');
      }
  }

  lemma NotWaiting(c: Config, s: Sys)
    ensures !Waiting(s) ==> Lag(c, s) == 0
  {
  }

  // ----- Whole runs -----

  lemma RunReaches(c: Config, boot: Shared, ss: seq<Sys>, es: seq<Event>, t: nat)
    requires IsRun(c, boot, ss, es) && Fair(es) && t < |ss|
    ensures SysInv(c, boot, ss[t]) && Reach(c, ss[t]) && Sane(c)
  {
    hide IsRun;
    hide SysInv;
    hide LeadInv;
    hide Sharing;
    hide Waiting;
    RunStarts(c, boot, ss, es);
    RunKeepsLock(c, boot, ss, es, t);
    if c.algorithm == 1 {
      LowestKeeps(c, boot, ss, es, t);
      CoopParts(c, boot, ss[t], Done(c, ss, es, t));
      NeverWaiting(c, boot, ss[t]);
    } else if c.algorithm == 2 {
      FairLeads(c, boot, ss, es, t);
    } else if c.algorithm == 3 {
      RunShares(c, boot, ss, es, t);
    }
  }

  /** If everybody but the running process is between turns, it never waits. */
  lemma NeverWaiting(c: Config, boot: Shared, s: Sys)
    requires SysInv(c, boot, s) && AtRest(s)
    ensures !Waiting(s)
  {
    if Waiting(s) {
      WaitingPids(c, boot, s);
    }
  }

  lemma FairClock(es: seq<Event>, t: nat)
    requires Fair(es) && t < |es| && es[t].Clock?
    ensures t > 0 && es[t - 1].Local?
  {
  }

  lemma PaidInitially(c: Config, boot: Shared)
    requires Sane(c)
    ensures Paid(c, Initial(c, boot), 0, false)
  {
    hide TotalWork;
    WorkZero(c, Views(Initial(c, boot)));
  }

  lemma {:induction false} RunPays(c: Config, boot: Shared, ss: seq<Sys>, es: seq<Event>, t: nat)
    requires IsRun(c, boot, ss, es) && Fair(es) && 0 <= c.algorithm <= 3 && t <= |es| && t < |ss|
    ensures Paid(c, ss[t], Entries(es, t), t > 0 && es[t - 1].Local?)
  {
    hide *;
    RunStarts(c, boot, ss, es);
    MoreEntries(es, t);
    if t == 0 {
      PaidInitially(c, boot);
    } else {
      RunPays(c, boot, ss, es, t - 1);
      RunStep(c, boot, ss, es, t);
      RunReaches(c, boot, ss, es, t - 1);
      RunReaches(c, boot, ss, es, t);
      if es[t - 1].Clock? {
        FairClock(es, t - 1);
      }
      StepPays(c, boot, ss[t - 1], es[t - 1], ss[t], Entries(es, t - 1), t > 1 && es[t - 2].Local?);
    }
  }

  lemma MoreEntries(es: seq<Event>, t: nat)
    requires t <= |es|
    ensures Entries(es, t) == if t == 0 then 0 else Entries(es, t - 1) + if es[t - 1].Local? then 0 else 1
  {
  }

  // ----- The theorems -----

  /** All the work there is. */
  function FullWork(c: Config): nat {
    if c.algorithm == 3 then Quotas(c, |c.apps|) else |c.apps| * (4 + 6 * c.runs)
  }

  lemma WorkBounded(c: Config, boot: Shared, ss: seq<Sys>, es: seq<Event>, t: nat)
    requires IsRun(c, boot, ss, es) && 0 <= c.algorithm <= 3 && t < |ss|
    ensures TotalWork(c, Views(ss[t])) <= FullWork(c)
    ensures ss[t].running ==> TotalWork(c, Views(ss[t])) < FullWork(c)
  {
    hide *;
    FullWorkIs(c);
    if c.algorithm == 3 {
      WorkToDo(c, boot, ss, es, t);
    } else {
      RunKeepsLock(c, boot, ss, es, t);
      SlotZeroIdle(c, boot, ss, es, t);
      StateWork(c, boot, ss[t]);
    }
  }

  lemma FullWorkIs(c: Config)
    ensures FullWork(c) == if c.algorithm == 3 then Quotas(c, |c.apps|) else |c.apps| * (4 + 6 * c.runs)
  {
  }

  lemma StateWork(c: Config, boot: Shared, s: Sys)
    requires SysInv(c, boot, s) && s.kern.procs != [] && View(s, 0).pc.SetPriority?
    ensures TotalWork(c, Views(s)) <= |c.apps| * (4 + 6 * c.runs)
    ensures s.running ==> TotalWork(c, Views(s)) < |c.apps| * (4 + 6 * c.runs)
  {
    hide TotalWork;
    hide LockInv;
    hide CountInv;
    ViewsBound(c, boot, s);
    if s.running {
      assert s.kern.current != 0 && Pid(c, s.kern.current) && !View(s, s.kern.current).pc.Gone?;
    }
  }

  lemma BoundTimes(r: nat, w: nat, full: nat)
    requires w <= full
    ensures r * w <= r * full && (w < full ==> r * w + r <= r * full)
  {
    MulLe(w, full, r);
    if w < full {
      MulLe(w + 1, full, r);
      PaysMore(r, w);
    }
  }

  /** In every such run of policies 0 to 3 the kernel is entered at most once for each unit of work and
      each dispatch in a round of turns, and the system has stopped by then. */
  lemma EntriesBounded(c: Config, boot: Shared, ss: seq<Sys>, es: seq<Event>, t: nat)
    requires IsRun(c, boot, ss, es) && Fair(es) && 0 <= c.algorithm <= 3 && t <= |es| && t < |ss|
    ensures Entries(es, t) <= Round(c) * FullWork(c)
    ensures ss[t].running ==> Entries(es, t) < Round(c) * FullWork(c)
  {
    hide *;
    RunPays(c, boot, ss, es, t);
    RunReaches(c, boot, ss, es, t);
    LagBounded(c, boot, ss[t]);
    PaidMeans(c, ss[t], Entries(es, t), t > 0 && es[t - 1].Local?);
    WorkBounded(c, boot, ss, es, t);
    BoundTimes(Round(c), TotalWork(c, Views(ss[t])), FullWork(c));
  }

  lemma {:induction false} EqualTurnout(c: Config, share: int, n: nat)
    requires n <= |c.apps| && share >= 0 && forall a | a in c.apps :: a.share == share
    ensures Turnout(c, n) == n * (share + 1)
    decreases n
  {
    if n > 0 {
      EqualTurnout(c, share, n - 1);
      assert c.apps[n - 1] in c.apps;
      assert n * (share + 1) == (n - 1) * (share + 1) + (share + 1);
    }
  }

  lemma {:induction false} EqualQuotas(c: Config, share: int, n: nat)
    requires n <= |c.apps| && share >= 0 && forall a | a in c.apps :: a.share == share
    ensures Quotas(c, n) == n * (4 + 6 * c.runs)
    decreases n
  {
    if n > 0 {
      EqualQuotas(c, share, n - 1);
      assert c.apps[n - 1] in c.apps;
      assert n * (4 + 6 * c.runs) == (n - 1) * (4 + 6 * c.runs) + (4 + 6 * c.runs);
    }
  }

  /** In numbers: at most `N * N * (4 + 6R)` entries under policies 0 to 2, and `share + 1` times that
      under policy 3 when everybody has the same share. */
  lemma EntriesInNumbers(c: Config, boot: Shared, ss: seq<Sys>, es: seq<Event>, t: nat, share: int)
    requires IsRun(c, boot, ss, es) && Fair(es) && 0 <= c.algorithm <= 3 && t <= |es| && t < |ss|
    requires c.algorithm == 3 ==> share >= 0 && forall a | a in c.apps :: a.share == share
    ensures var n := |c.apps|;
            Entries(es, t) <= (if c.algorithm == 3 then n * (share + 1) else n) * (n * (4 + 6 * c.runs))
  {
    EntriesBounded(c, boot, ss, es, t);
    RoundIs(c, share);
    hide *;
  }

  lemma RoundIs(c: Config, share: int)
    requires c.algorithm == 3 ==> share >= 0 && forall a | a in c.apps :: a.share == share
    ensures Round(c) == (if c.algorithm == 3 then |c.apps| * (share + 1) else |c.apps|)
    ensures FullWork(c) == |c.apps| * (4 + 6 * c.runs)
  {
    if c.algorithm == 3 {
      EqualTurnout(c, share, |c.apps|);
      EqualQuotas(c, share, |c.apps|);
    }
  }

  lemma PaidMeans(c: Config, s: Sys, entries: nat, afterLocal: bool)
    requires Paid(c, s, entries, afterLocal) && Lag(c, s) >= 0
    ensures entries <= Round(c) * TotalWork(c, Views(s))
  {
    hide Lag;
    hide TotalWork;
    hide Round;
  }

  /** A running system can always take a step that is no clock interrupt, so it can be run to its end. */
  lemma CanGoOn(c: Config, boot: Shared, ss: seq<Sys>, es: seq<Event>, t: nat)
    requires IsRun(c, boot, ss, es) && 0 <= c.algorithm <= 3 && t < |ss| && ss[t].running
    ensures exists e: Event, s': Sys :: !e.Clock? && Step(c, ss[t], e, s')
  {
    hide *;
    RunKeepsTable(c, boot, ss, es, t);
    StepExists(c, ss[t]);
  }

  /** And when it has stopped, everybody has printed `runs` characters and exited, except that under
      policy 3 those of negative share have printed none. */
  lemma StoppedIsDone(c: Config, boot: Shared, ss: seq<Sys>, es: seq<Event>, t: nat, p: nat)
    requires IsRun(c, boot, ss, es) && 0 <= c.algorithm <= 3 && t < |ss| && !ss[t].running && Pid(c, p)
    ensures |ss[t].kern.procs| == Slots(c)
    ensures if c.algorithm == 3 && AppOf(c, p).share < 0 then multiset(ss[t].log)[p] == 0
            else View(ss[t], p).pc.Gone? && multiset(ss[t].log)[p] == c.runs
  {
    if c.algorithm == 3 {
      ShareStopped(c, boot, ss, es, t, p);
    } else {
      StoppedMeansGone(c, boot, ss, es, t);
      SlotsAre(c);
      AllPrinted(c, boot, ss, es, t);
    }
  }
}
