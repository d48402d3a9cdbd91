/** The cooperative system under policy 3: every run of the machine takes exactly the laps of bursts
    worked out for the shares. */
module ShareCooperative {
  import opened KernelTypes
  import opened Scheduling
  import opened Interrupts
  import opened Applications
  import opened LockSafety
  import opened PriorityBarrier
  import opened Turns
  import opened Prints
  import opened Cooperative
  import opened ShareTurns
  import opened ShareRuns

  /** A run of policy 3 without clock interrupts. */
  ghost predicate IsShareRun(c: Config, boot: Shared, ss: seq<Sys>, es: seq<Event>) {
    IsRun(c, boot, ss, es) && c.algorithm == 3 && forall t | 0 <= t < |es| :: !es[t].Clock?
  }

  /** The current process's count. */
  function Count(k: Kern<User>): nat
    requires k.current < |k.procs|
  {
    var n := k.procs[k.current].numTimes;
    if n < 0 then 0 else n
  }

  /** The turns still to come in state `s`, the current one first. */
  ghost function ShareRest(c: Config, s: Sys): seq<Turn>
    requires |s.kern.procs| == Slots(c)
  {
    var pos := Positions(c, Views(s));
    var cur := s.kern.current;
    if s.running && cur < Slots(c) then
      [Turn(cur, pos[cur])] + TurnsOf(c, pos[cur := pos[cur] + 1], cur, CountAfter(Count(s.kern), pos[cur]))
    else []
  }

  ghost predicate ShareCoopInv(c: Config, boot: Shared, s: Sys, done: seq<Turn>) {
    && SysInv(c, boot, s) && AtRest(s) && SharesSet(c, s)
    && Pid(c, 1) && done + ShareRest(c, s) == WholeShare(c)
    && s.log == Printed(c, done) + Pending(s)
  }

  // ----- One system call -----

  /** What policy 3 sees in the table is what the turns say. */
  ghost predicate ShareMatches(c: Config, k: Kern<User>, pos: seq<nat>) {
    && |k.procs| == |pos| == Slots(c) && k.algorithm == 3 && k.current < Slots(c)
    && (forall p | Pid(c, p) ::
          (k.procs[p].state.Runnable? <==> pos[p] < Length(c)) && k.procs[p].share == ShareAt(c, p, pos[p]))
    && !k.procs[0].state.Runnable?
    && (Runs(k.procs, k.current) ==> 0 <= k.procs[k.current].numTimes)
  }

  lemma MatchesWants(c: Config, k: Kern<User>, pos: seq<nat>, q: nat)
    requires ShareMatches(c, k, pos)
    ensures Wants(k.procs, q) <==> Willing(c, pos, q)
  {
  }

  /** After `schedule` has gone from `h` to `k`, process `p`'s turn is the next one. */
  ghost predicate IsNext(c: Config, h: Kern<User>, pos: seq<nat>, k: Kern<User>, p: nat) {
    && |pos| == Slots(c) && p < |pos| && k.current == p < |k.procs| && h.current < |h.procs|
    && TurnsOf(c, pos, h.current, Count(h)) ==
       [Turn(p, pos[p])] + TurnsOf(c, pos[p := pos[p] + 1], p, CountAfter(Count(k), pos[p]))
  }

  /** The current process goes on. */
  lemma StaysTurn(c: Config, h: Kern<User>, pos: seq<nat>, k': Kern<User>)
    requires ShareMatches(c, h, pos) && Continues(h) && IsShareTurn(h, k', h.current)
    ensures IsNext(c, h, pos, k', h.current)
  {
    MatchesStays(c, h, pos);
    hide ShareMatches;
  }

  /** Another one's turn starts. */
  lemma NewTurn(c: Config, h: Kern<User>, pos: seq<nat>, k': Kern<User>, p: nat)
    requires ShareMatches(c, h, pos) && !Continues(h) && IsShareTurn(h, k', p)
    ensures IsNext(c, h, pos, k', p)
  {
    NewNearest(c, h, pos, k', p);
    hide IsShareTurn;
    hide TurnsOf;
    hide Nearest;
    OverIsOnward(c, pos, h.current, Count(h));
    OnwardTo(c, pos, h.current, p);
  }

  lemma NewNearest(c: Config, h: Kern<User>, pos: seq<nat>, k': Kern<User>, p: nat)
    requires ShareMatches(c, h, pos) && !Continues(h) && IsShareTurn(h, k', p)
    ensures |pos| == Slots(c) && h.current < |h.procs| == Slots(c) && p < |pos|
    ensures Nearest(c, pos, h.current, p) && !Stays(c, pos, h.current, Count(h))
    ensures k'.current == p < |k'.procs| && Count(k') == 1
  {
    MatchesStays(c, h, pos);
    forall q: nat ensures Wants(h.procs, q) <==> Willing(c, pos, q) {
      MatchesWants(c, h, pos, q);
    }
    assert k'.procs[p].numTimes == 1;
    hide Wants;
    hide Willing;
  }

  lemma NoTurn(c: Config, h: Kern<User>, pos: seq<nat>)
    requires ShareMatches(c, h, pos) && !AnyWants(h.procs)
    ensures |pos| == Slots(c) && TurnsOf(c, pos, h.current, Count(h)) == []
  {
    MatchesStays(c, h, pos);
    forall q: nat ensures !Willing(c, pos, q) {
      MatchesWants(c, h, pos, q);
    }
    assert !Wants(h.procs, h.current);
    hide ShareMatches;
    hide TurnsOf;
    OverIsOnward(c, pos, h.current, Count(h));
  }

  lemma ScheduledByShare(c: Config, h: Kern<User>, pos: seq<nat>, ticks: seq<nat>, k': Kern<User>, o: Outcome)
    requires ShareMatches(c, h, pos) && Scheduled(h, ticks, k', o)
    ensures |pos| == Slots(c) && h.current < |h.procs|
    ensures o.Run? ==> IsShareTurn(h, k', o.pid) && (Continues(h) ==> o.pid == h.current)
    ensures o.Spin? ==> !AnyWants(h.procs)
  {
  }

  /** The kernel's choice after a system call is the next turn of `TurnsOf`. */
  lemma ScheduledIsShareTurn(c: Config, h: Kern<User>, pos: seq<nat>, ticks: seq<nat>, k': Kern<User>, o: Outcome)
    requires ShareMatches(c, h, pos) && Scheduled(h, ticks, k', o)
    ensures |pos| == Slots(c) && h.current < |h.procs|
    ensures o.Run? ==> IsNext(c, h, pos, k', o.pid)
    ensures o.Spin? ==> TurnsOf(c, pos, h.current, Count(h)) == []
  {
    ScheduledByShare(c, h, pos, ticks, k', o);
    hide ShareMatches;
    hide TurnsOf;
    hide Continues;
    hide IsShareTurn;
    hide Scheduled;
    hide Count;
    hide IsNext;
    hide AnyWants;
    if o.Spin? {
      NoTurn(c, h, pos);
    } else if Continues(h) {
      StaysTurn(c, h, pos, k');
    } else {
      NewTurn(c, h, pos, k', o.pid);
    }
  }

  lemma MatchesStays(c: Config, h: Kern<User>, pos: seq<nat>)
    requires ShareMatches(c, h, pos)
    ensures Continues(h) <==> Stays(c, pos, h.current, Count(h))
    ensures Continues(h) ==> Wants(h.procs, h.current) && Count(h) == h.procs[h.current].numTimes
  {
    assert h.current == 0 || Pid(c, h.current);
  }

  lemma HandledShares(c: Config, boot: Shared, s: Sys)
    requires SysInv(c, boot, s) && SharesSet(c, s) && c.algorithm == 3
    requires s.running && Pid(c, s.kern.current) && IsCall(s.cpu.pc)
    ensures var cur := s.kern.current;
            var f := CallFrame(c, cur, s.cpu);
            var h := Handle(s.kern, f);
            && |s.kern.procs| == Slots(c)
            && ShareMatches(c, h, Positions(c, Views(s)[cur := f.regs]))
            && Count(h) == CountAfter(Count(s.kern), PosOf(c, s.cpu))
  {
    var cur := s.kern.current;
    var f := CallFrame(c, cur, s.cpu);
    CurrentOk(c, boot, s);
    HandledShape(c, boot, s);
    HandledCount(c, boot, s);
    forall p | Pid(c, p)
      ensures var d, a := Handle(s.kern, f).procs[p], PosOf(c, Views(s)[cur := f.regs][p]);
              (d.state.Runnable? <==> a < Length(c)) && d.share == ShareAt(c, p, a)
    {
      HandledShare(c, boot, s, p);
    }
    hide SysInv;
    hide SharesSet;
    hide CallFrame;
    hide Views;
    hide Count;
  }

  lemma HandledCount(c: Config, boot: Shared, s: Sys)
    requires SysInv(c, boot, s) && s.running && Pid(c, s.kern.current) && IsCall(s.cpu.pc)
    ensures |s.kern.procs| == Slots(c)
    ensures var h := Handle(s.kern, CallFrame(c, s.kern.current, s.cpu));
            && Count(h) == CountAfter(Count(s.kern), PosOf(c, s.cpu))
            && (Runs(h.procs, h.current) ==> 0 <= h.procs[h.current].numTimes)
  {
    CurrentOk(c, boot, s);
    HandleKeepsInvariant(s.kern, CallFrame(c, s.kern.current, s.cpu));
    hide LockInv;
    hide CountInv;
  }

  lemma HandledShare(c: Config, boot: Shared, s: Sys, p: nat)
    requires SysInv(c, boot, s) && SharesSet(c, s)
    requires s.running && Pid(c, s.kern.current) && IsCall(s.cpu.pc) && Pid(c, p) && |s.kern.procs| == Slots(c)
    ensures var f := CallFrame(c, s.kern.current, s.cpu);
            var d, a := Handle(s.kern, f).procs[p], PosOf(c, Views(s)[s.kern.current := f.regs][p]);
            (d.state.Runnable? <==> a < Length(c)) && d.share == ShareAt(c, p, a)
  {
    hide LockInv;
    hide ShareInv;
    CurrentOk(c, boot, s);
    CallAdvances(c, s.kern.current, s.cpu);
    SignedUnsigned(AppOf(c, s.kern.current).share);
    assert Views(s)[p] == View(s, p) && CounterOk(c, View(s, p));
  }

  lemma ShareCallRest(c: Config, boot: Shared, s: Sys, ticks: seq<nat>, s': Sys)
    requires SysInv(c, boot, s) && SharesSet(c, s) && c.algorithm == 3
    requires Step(c, s, Call(ticks), s') && |s.kern.procs| == |s'.kern.procs| == Slots(c)
    ensures ShareRest(c, s) == [Turn(s.kern.current, PosOf(c, s.cpu))] + ShareRest(c, s')
  {
    var cur := s.kern.current;
    var h := Handle(s.kern, CallFrame(c, cur, s.cpu));
    var pos' := Positions(c, Views(s'));
    CallPositions(c, boot, s, ticks, s');
    HandledShares(c, boot, s);
    CallScheduled(c, s, ticks, s');
    hide TurnsOf;
    hide SysInv;
    hide SharesSet;
    hide ShareMatches;
    hide Step;
    hide Handle;
    hide CallFrame;
    hide Scheduled;
    hide Count;
    hide Views;
    hide Positions;
    ScheduledIsShareTurn(c, h, pos', ticks, s'.kern, if s'.running then Run(s'.kern.current) else Spin);
    ShareRestIs(c, s);
    ShareRestIs(c, s');
    hide ShareRest;
  }

  lemma ShareRestIs(c: Config, s: Sys)
    requires |s.kern.procs| == Slots(c) && s.kern.current < Slots(c)
    ensures var pos, cur := Positions(c, Views(s)), s.kern.current;
            && |pos| == Slots(c)
            && ShareRest(c, s) == if !s.running then [] else
               [Turn(cur, pos[cur])] + TurnsOf(c, pos[cur := pos[cur] + 1], cur, CountAfter(Count(s.kern), pos[cur]))
  {
    hide TurnsOf;
  }

  lemma ShareCallKeeps(c: Config, boot: Shared, s: Sys, ticks: seq<nat>, s': Sys, done: seq<Turn>)
    requires ShareCoopInv(c, boot, s, done) && c.algorithm == 3 && Step(c, s, Call(ticks), s')
    ensures ShareCoopInv(c, boot, s', done + [Turn(s.kern.current, PosOf(c, s.cpu))])
  {
    hide ShareRest;
    hide SysInv;
    hide SharesSet;
    hide AtRest;
    hide Step;
    hide Printed;
    hide WholeShare;
    var now := Turn(s.kern.current, PosOf(c, s.cpu));
    StepKeepsLock(c, boot, s, Call(ticks), s');
    StepKeepsShares(c, boot, s, Call(ticks), s');
    CallPositions(c, boot, s, ticks, s');
    ShareCallRest(c, boot, s, ticks, s');
    CallPrints(c, boot, s, ticks, s', done);
    assert done + ([now] + ShareRest(c, s')) == (done + [now]) + ShareRest(c, s');
  }

  // ----- One instruction -----

  lemma ShareLocalKeeps(c: Config, boot: Shared, s: Sys, s': Sys, done: seq<Turn>)
    requires ShareCoopInv(c, boot, s, done) && Step(c, s, Local, s')
    ensures ShareCoopInv(c, boot, s', done)
  {
    hide SysInv;
    hide SharesSet;
    hide AtRest;
    hide TurnsOf;
    hide UserStep;
    hide Printed;
    hide WholeShare;
    StepKeepsLock(c, boot, s, Local, s');
    CurrentOk(c, boot, s);
    if s.cpu.pc.Acquire? {
      NeverContended(c, boot, s);
    }
    InstructionPends(c, s);
    LocalPositions(c, s);
    CallTable(c, boot, s');
    StepKeepsShares(c, boot, s, Local, s');
  }

  // ----- Whole runs -----

  lemma ShareStarts(c: Config, boot: Shared)
    requires Sane(c) && c.algorithm == 3 && boot.lock == 0
    ensures ShareCoopInv(c, boot, Initial(c, boot), [])
  {
    hide TurnsOf;
    var s := Initial(c, boot);
    LockInitially(c, boot);
    hide SysInv;
    assert Positions(c, Views(s)) == Start(c);
    assert Pid(c, 1);
  }

  lemma ShareRunStep(c: Config, boot: Shared, ss: seq<Sys>, es: seq<Event>, t: nat)
    requires IsShareRun(c, boot, ss, es) && 0 < t < |ss|
    ensures t - 1 < |es| && !es[t - 1].Clock? && Step(c, ss[t - 1], es[t - 1], ss[t])
    ensures c.algorithm == 3 && |ss| == |es| + 1
  {
  }

  lemma {:induction false} ShareKeeps(c: Config, boot: Shared, ss: seq<Sys>, es: seq<Event>, t: nat)
    requires IsShareRun(c, boot, ss, es) && t <= |es| && t < |ss|
    ensures ShareCoopInv(c, boot, ss[t], Done(c, ss, es, t))
  {
    hide ShareCoopInv;
    hide Step;
    if t == 0 {
      ShareStarts(c, boot);
    } else {
      ShareRunStep(c, boot, ss, es, t);
      ShareKeeps(c, boot, ss, es, t - 1);
      hide IsShareRun;
      var done := Done(c, ss, es, t - 1);
      if es[t - 1].Local? {
        ShareLocalKeeps(c, boot, ss[t - 1], ss[t], done);
        assert done + [] == done;
      } else {
        ShareCallKeeps(c, boot, ss[t - 1], es[t - 1].ticks, ss[t], done);
      }
    }
  }

  // ----- What it prints -----

  /** Print turns among the turns `a`, ..., `b - 1`. */
  function PrintsIn(c: Config, a: nat, b: nat): nat {
    AtMost(3 + c.runs, b) - AtMost(AtMost(3 + c.runs, b), if a < 3 then 3 else a)
  }

  lemma {:induction false} PrintedBurst(c: Config, p: nat, a: nat, b: nat)
    ensures Printed(c, Burst(p, a, b)) == Repeat([p], PrintsIn(c, a, b))
    decreases b - a
  {
    if a < b {
      PrintedBurst(c, p, a + 1, b);
      assert Burst(p, a, b)[0] == Turn(p, a) && Burst(p, a, b)[1..] == Burst(p, a + 1, b);
    }
  }

  /** The prints of lap `lap` from process `p` on. */
  function LapPrints(c: Config, lap: nat, p: nat): seq<nat>
    decreases Slots(c) - p
  {
    if !Pid(c, p) then []
    else Repeat([p], PrintsIn(c, Reached(c, p, lap), Reached(c, p, lap + 1))) + LapPrints(c, lap, p + 1)
  }

  function LapsPrints(c: Config, lap: nat, n: nat): seq<nat>
    decreases n
  {
    if n == 0 then [] else LapPrints(c, lap, 1) + LapsPrints(c, lap + 1, n - 1)
  }

  lemma {:induction false} PrintedLap(c: Config, lap: nat, p: nat)
    ensures Printed(c, Lap(c, lap, p)) == LapPrints(c, lap, p)
    decreases Slots(c) - p
  {
    if Pid(c, p) {
      PrintedLap(c, lap, p + 1);
      PrintedBurst(c, p, Reached(c, p, lap), Reached(c, p, lap + 1));
      PrintedConcat(c, Burst(p, Reached(c, p, lap), Reached(c, p, lap + 1)), Lap(c, lap, p + 1));
    }
  }

  lemma {:induction false} PrintedLaps(c: Config, lap: nat, n: nat)
    ensures Printed(c, Laps(c, lap, n)) == LapsPrints(c, lap, n)
    decreases n
  {
    if n > 0 {
      PrintedLaps(c, lap + 1, n - 1);
      PrintedLap(c, lap, 1);
      PrintedConcat(c, Lap(c, lap, 1), Laps(c, lap + 1, n - 1));
    }
  }

  /** When the cooperative system stops under policy 3, the screen shows exactly the laps: in each lap
      everybody in turn prints as often as its burst of `share + 1` calls has prints. */
  lemma ShareScreen(c: Config, boot: Shared, ss: seq<Sys>, es: seq<Event>, t: nat)
    requires IsShareRun(c, boot, ss, es) && t < |ss| && !ss[t].running
    ensures ss[t].log == LapsPrints(c, 0, Length(c)) && ss[t].kern.mem.lock == 0
    ensures ss[t].kern.mem.cells == Screen(c, Base(boot), LapsPrints(c, 0, Length(c)))
  {
    var s := ss[t];
    ShareKeeps(c, boot, ss, es, t);
    var done := Done(c, ss, es, t);
    assert ShareRest(c, s) == [] && done + [] == done;
    ExactShareOrder(c);
    PrintedLaps(c, 0, Length(c));
    assert s.log == Printed(c, done) + [] == Printed(c, done);
    hide IsShareRun;
    StoppedAtRest(c, boot, s);
  }

  lemma StoppedAtRest(c: Config, boot: Shared, s: Sys)
    requires SysInv(c, boot, s) && AtRest(s) && !s.running
    ensures s.kern.mem.lock == 0 && s.kern.mem.cells == Screen(c, Base(boot), s.log)
  {
    SafeState(c, boot, s);
  }

  lemma ShareState(c: Config, boot: Shared, ss: seq<Sys>, es: seq<Event>, t: nat)
    requires IsShareRun(c, boot, ss, es) && t <= |es| && t < |ss|
    ensures SysInv(c, boot, ss[t]) && AtRest(ss[t]) && SharesSet(c, ss[t]) && |ss[t].kern.procs| == Slots(c)
  {
    ShareKeeps(c, boot, ss, es, t);
  }

  /** At any moment the prints so far are the first ones of the laps. */
  lemma SharePrefix(c: Config, boot: Shared, ss: seq<Sys>, es: seq<Event>, t: nat)
    requires IsShareRun(c, boot, ss, es) && t < |ss|
    ensures ss[t].log <= LapsPrints(c, 0, Length(c))
  {
    hide *;
    ShareIsRun(c, boot, ss, es);
    ShareKeeps(c, boot, ss, es, t);
    SharePrefixSoFar(c, boot, ss[t], Done(c, ss, es, t));
    ExactShareOrder(c);
    PrintedLaps(c, 0, Length(c));
  }

  lemma ShareIsRun(c: Config, boot: Shared, ss: seq<Sys>, es: seq<Event>)
    requires IsShareRun(c, boot, ss, es)
    ensures IsRun(c, boot, ss, es) && |ss| == |es| + 1 && c.algorithm == 3 && Sane(c) && Pid(c, 1)
  {
  }

  lemma SharePrefixSoFar(c: Config, boot: Shared, s: Sys, done: seq<Turn>)
    requires ShareCoopInv(c, boot, s, done)
    ensures Pid(c, 1) && s.log <= Printed(c, WholeShare(c))
  {
    hide SysInv;
    hide AtRest;
    hide SharesSet;
    hide WholeShare;
    hide ShareRest;
    hide Printed;
    hide Pending;
    SharesSize(c, s);
    PrintedConcat(c, done, ShareRest(c, s));
    SharePendingFirst(c, boot, s);
    var later := Printed(c, ShareRest(c, s))[|Pending(s)|..];
    assert Printed(c, done) + (Pending(s) + later) == s.log + later;
  }

  /** The pending print is the first of the prints to come. */
  lemma SharePendingFirst(c: Config, boot: Shared, s: Sys)
    requires SysInv(c, boot, s) && |s.kern.procs| == Slots(c)
    ensures Pending(s) <= Printed(c, ShareRest(c, s))
  {
    hide TurnsOf;
    if Pending(s) != [] {
      CallTable(c, boot, s);
      assert s.kern.current != 0;
      CurrentOk(c, boot, s);
      hide SysInv;
      assert ShareRest(c, s)[0] == Turn(s.kern.current, PosOf(c, s.cpu)) && IsPrint(c, ShareRest(c, s)[0]);
    }
  }

  /** A cooperative run of policy 3 that has not stopped can always go on. */
  lemma ShareContinues(c: Config, boot: Shared, ss: seq<Sys>, es: seq<Event>)
    requires IsShareRun(c, boot, ss, es) && ss[|es|].running
    ensures exists e: Event, s': Sys :: !e.Clock? && Step(c, ss[|es|], e, s')
  {
    hide Step;
    hide TableInv;
    ShareIsRun(c, boot, ss, es);
    RunKeepsTable(c, boot, ss, es, |es|);
    StepExists(c, ss[|es|]);
  }

  lemma ShareStartsIdle(c: Config, boot: Shared, ss: seq<Sys>, es: seq<Event>)
    requires IsShareRun(c, boot, ss, es)
    ensures |ss| > 0 && forall p | 0 <= p < |Views(ss[0])| :: Views(ss[0])[p].pc.SetPriority?
  {
    hide Step;
  }

  lemma {:induction false} ShareStepsExact(c: Config, boot: Shared, ss: seq<Sys>, es: seq<Event>, t: nat)
    requires IsShareRun(c, boot, ss, es) && t < |ss|
    ensures t == TotalWork(c, Views(ss[t]))
  {
    hide *;
    ShareIsRun(c, boot, ss, es);
    if t == 0 {
      ShareStartsIdle(c, boot, ss, es);
      WorkZero(c, Views(ss[0]));
    } else {
      ShareStepsExact(c, boot, ss, es, t - 1);
      ShareRunStep(c, boot, ss, es, t);
      ShareState(c, boot, ss, es, t - 1);
      WorkStep(c, boot, ss[t - 1], es[t - 1], ss[t]);
    }
  }

  /** Under policy 3 no instruction is wasted either: the steps are the work done, at most `4 + 6R` for
      each process with a share and two for each other, and exactly that when the system stops. */
  lemma ShareStepsAreWork(c: Config, boot: Shared, ss: seq<Sys>, es: seq<Event>, t: nat)
    requires IsShareRun(c, boot, ss, es) && t < |ss|
    ensures t == TotalWork(c, Views(ss[t])) <= Quotas(c, |c.apps|)
    ensures ss[t].running <==> t < Quotas(c, |c.apps|)
  {
    hide *;
    ShareIsRun(c, boot, ss, es);
    ShareStepsExact(c, boot, ss, es, t);
    WorkToDo(c, boot, ss, es, t);
  }
}
