/** The cooperative system actually configured (clock interrupts masked): every run of the machine
    takes exactly the turns worked out for its policy, never spins on the lock, and ends. */
module Cooperative {
  import opened KernelTypes
  import opened Scheduling
  import opened Interrupts
  import opened Applications
  import opened LockSafety
  import opened PriorityBarrier
  import opened Turns
  import opened Prints

  /** A run without clock interrupts. */
  ghost predicate IsCoopRun(c: Config, boot: Shared, ss: seq<Sys>, es: seq<Event>) {
    IsRun(c, boot, ss, es) && Predictable(c) && forall t | 0 <= t < |es| :: !es[t].Clock?
  }

  /** How many system calls a process has made, read off its registers. */
  function PosOf(c: Config, u: User): nat {
    match u.pc
    case SetPriority => 0
    case SetShare => 1
    case SetLottery => 2
    case Exit => 3 + c.runs
    case Gone => 4 + c.runs
    case _ => 3 + u.i
  }

  function Positions(c: Config, vs: seq<User>): (pos: seq<nat>)
    ensures |pos| == |vs| && forall p | 0 <= p < |vs| :: pos[p] == PosOf(c, vs[p])
  {
    seq(|vs|, p requires 0 <= p < |vs| => PosOf(c, vs[p]))
  }

  /** The turns completed by time `t`. */
  function Done(c: Config, ss: seq<Sys>, es: seq<Event>, t: nat): seq<Turn>
    requires t <= |es| <= |ss|
  {
    if t == 0 then []
    else
      Done(c, ss, es, t - 1)
      + if es[t - 1].Call? then [Turn(ss[t - 1].kern.current, PosOf(c, ss[t - 1].cpu))] else []
  }

  /** The turns still to come in state `s`, the current one first. */
  ghost function Rest(c: Config, s: Sys): seq<Turn>
    requires |s.kern.procs| == Slots(c)
  {
    var pos := Positions(c, Views(s));
    var cur := s.kern.current;
    if s.running && cur < Slots(c) then [Turn(cur, pos[cur])] + TurnsFrom(c, pos[cur := pos[cur] + 1], cur) else []
  }

  /** Nobody but the current process is in the middle of a turn. */
  ghost predicate AtRest(s: Sys) {
    forall p: nat | p < |s.kern.procs| && !(s.running && p == s.kern.current) ::
      var pc := View(s, p).pc; !Critical(pc) && !pc.Yield?
  }

  /** The current turn's print, once the lock is won. */
  function Pending(s: Sys): seq<nat> {
    if s.running && (Critical(s.cpu.pc) || s.cpu.pc.Yield?) then [s.kern.current] else []
  }

  ghost predicate CoopInv(c: Config, boot: Shared, s: Sys, done: seq<Turn>) {
    && SysInv(c, boot, s) && AtRest(s)
    && (c.algorithm == 2 ==> AssignedInv(c, s))
    && done + Rest(c, s) == Whole(c)
    && s.log == Printed(c, done) + Pending(s)
  }

  // ----- One interrupt -----

  /** What policies 0 to 2 see in the table is what the turns say. */
  ghost predicate TableMatches(c: Config, k: Kern<User>, pos: seq<nat>) {
    && |k.procs| == |pos| == Slots(c) && k.algorithm == c.algorithm
    && (forall p | Pid(c, p) ::
         && (k.procs[p].state.Runnable? <==> pos[p] < Length(c))
         && (c.algorithm == 2 ==> k.procs[p].priority == KeyAt(c, p, pos[p])))
    && !k.procs[0].state.Runnable?
  }

  lemma PickIsChosen(c: Config, k: Kern<User>, pos: seq<nat>, p: nat)
    requires TableMatches(c, k, pos) && 0 <= c.algorithm <= 2 && IsPick(k, p)
    ensures Chosen(c, pos, k.current, p)
  {
    assert Pid(c, p);
    forall q: nat | Live(c, pos, q)
      ensures KeyAt(c, p, pos[p]) <= KeyAt(c, q, pos[q])
      ensures KeyAt(c, p, pos[p]) == KeyAt(c, q, pos[q]) ==>
                Dist(Slots(c), k.current, p) <= Dist(Slots(c), k.current, q)
    {
      assert Runs(k.procs, q);
      assert Key(k, p) == KeyAt(c, p, pos[p]) && Key(k, q) == KeyAt(c, q, pos[q]);
      if KeyAt(c, p, pos[p]) == KeyAt(c, q, pos[q]) {
        assert Best(k, q);
      }
    }
  }

  lemma CallAdvances(c: Config, p: nat, u: User)
    requires Pid(c, p) && IsCall(u.pc) && CounterOk(c, u)
    ensures var f := CallFrame(c, p, u);
            && PosOf(c, f.regs) == PosOf(c, u) + 1 && CounterOk(c, f.regs)
            && !Critical(f.regs.pc) && !f.regs.pc.Yield?
  {
  }

  lemma HandledMatches(c: Config, boot: Shared, s: Sys)
    requires SysInv(c, boot, s) && s.running && Pid(c, s.kern.current) && IsCall(s.cpu.pc) && Predictable(c)
    requires c.algorithm == 2 ==> AssignedInv(c, s)
    ensures var f := CallFrame(c, s.kern.current, s.cpu);
            TableMatches(c, Handle(s.kern, f), Positions(c, Views(s)[s.kern.current := f.regs]))
  {
    HandledShape(c, boot, s);
    var cur := s.kern.current;
    var f := CallFrame(c, cur, s.cpu);
    var vs' := Views(s)[cur := f.regs];
    var h := Handle(s.kern, f);
    forall p | Pid(c, p)
      ensures h.procs[p].state.Runnable? <==> Positions(c, vs')[p] < Length(c)
      ensures c.algorithm == 2 ==> h.procs[p].priority == KeyAt(c, p, Positions(c, vs')[p])
    {
      if p == cur {
        HandledCaller(c, boot, s);
      } else {
        HandledOther(c, boot, s, p);
      }
    }
    hide SysInv;
    hide AssignedInv;
    hide Handle;
    hide KeyAt;
    hide Views;
  }

  lemma HandledShape(c: Config, boot: Shared, s: Sys)
    requires SysInv(c, boot, s) && s.running && Pid(c, s.kern.current) && IsCall(s.cpu.pc)
    ensures var h := Handle(s.kern, CallFrame(c, s.kern.current, s.cpu));
            |s.kern.procs| == |h.procs| == Slots(c) && h.algorithm == c.algorithm && !h.procs[0].state.Runnable?
  {
  }

  /** The caller's descriptor after its call. */
  lemma HandledCaller(c: Config, boot: Shared, s: Sys)
    requires SysInv(c, boot, s) && s.running && Pid(c, s.kern.current) && IsCall(s.cpu.pc) && Predictable(c)
    requires c.algorithm == 2 ==> AssignedInv(c, s)
    requires |s.kern.procs| == Slots(c)
    ensures var f := CallFrame(c, s.kern.current, s.cpu);
            var d := Handle(s.kern, f).procs[s.kern.current];
            && (d.state.Runnable? <==> PosOf(c, f.regs) < Length(c))
            && (c.algorithm == 2 ==> d.priority == KeyAt(c, s.kern.current, PosOf(c, f.regs)))
  {
    var cur := s.kern.current;
    SignedUnsigned(AppOf(c, cur).priority);
    CallAdvances(c, cur, s.cpu);
    assert View(s, cur) == s.cpu && CounterOk(c, s.cpu);
  }

  /** Every other descriptor is as it was. */
  lemma HandledOther(c: Config, boot: Shared, s: Sys, p: nat)
    requires SysInv(c, boot, s) && s.running && Pid(c, s.kern.current) && IsCall(s.cpu.pc) && Predictable(c)
    requires c.algorithm == 2 ==> AssignedInv(c, s)
    requires |s.kern.procs| == Slots(c) && Pid(c, p) && p != s.kern.current
    ensures var d := Handle(s.kern, CallFrame(c, s.kern.current, s.cpu)).procs[p];
            && (d.state.Runnable? <==> PosOf(c, Views(s)[p]) < Length(c))
            && (c.algorithm == 2 ==> d.priority == KeyAt(c, p, PosOf(c, Views(s)[p])))
  {
    assert Views(s)[p] == View(s, p) && CounterOk(c, View(s, p));
  }

  /** The interrupted process's registers are those in the processor, and well placed. */
  lemma CurrentOk(c: Config, boot: Shared, s: Sys)
    requires SysInv(c, boot, s) && s.running && Pid(c, s.kern.current)
    ensures |s.kern.procs| == Slots(c) && Views(s)[s.kern.current] == s.cpu
    ensures CounterOk(c, s.cpu) && !s.cpu.pc.Gone?
  {
  }

  /** A system call advances the caller's position by one. */
  lemma CallPositions(c: Config, boot: Shared, s: Sys, ticks: seq<nat>, s': Sys)
    requires SysInv(c, boot, s) && Step(c, s, Call(ticks), s')
    ensures |s'.kern.procs| == Slots(c) && |Views(s)| == Slots(c) && s.kern.current < Slots(c)
    ensures var cur := s.kern.current;
            var pos := Positions(c, Views(s));
            pos[cur] == PosOf(c, s.cpu) && Positions(c, Views(s')) == pos[cur := pos[cur] + 1]
    ensures Positions(c, Views(s'))
         == Positions(c, Views(s)[s.kern.current := CallFrame(c, s.kern.current, s.cpu).regs])
  {
    hide SysInv;
    hide Trap;
    hide CallFrame;
    hide PosOf;
    hide CounterOk;
    CallTable(c, boot, s);
    TableParts(c, s);
    var cur := s.kern.current;
    CurrentOk(c, boot, s);
    CallAdvances(c, cur, s.cpu);
    TrapViews(s, CallFrame(c, cur, s.cpu), ticks, s');
  }

  lemma TurnsOver(c: Config, pos: seq<nat>, cur: nat)
    requires |pos| == Slots(c) && !AnyLive(c, pos)
    ensures TurnsFrom(c, pos, cur) == []
  {
  }

  /** The kernel's choice after a system call is the next turn of `TurnsFrom`. */
  lemma ScheduledIsTurn(c: Config, h: Kern<User>, pos: seq<nat>, ticks: seq<nat>, k': Kern<User>, o: Outcome)
    requires TableMatches(c, h, pos) && 0 <= c.algorithm <= 2 && h.current < Slots(c)
    requires Scheduled(h, ticks, k', o)
    ensures o.Run? ==> k'.current == o.pid < |pos|
    ensures o.Run? ==>
              (TurnsFrom(c, pos, h.current)
               == [Turn(o.pid, pos[o.pid])] + TurnsFrom(c, pos[o.pid := pos[o.pid] + 1], o.pid))
    ensures o.Spin? ==> TurnsFrom(c, pos, h.current) == []
  {
    hide TurnsFrom;
    if o.Run? {
      PickIsChosen(c, h, pos, o.pid);
      TurnsUnfold(c, pos, h.current, o.pid);
    } else {
      forall q: nat ensures !Live(c, pos, q) {
        assert !Runs(h.procs, q);
      }
      TurnsOver(c, pos, h.current);
    }
  }

  /** After a system call the turns to come are those `TurnsFrom` lists. */
  lemma CallRest(c: Config, boot: Shared, s: Sys, ticks: seq<nat>, s': Sys)
    requires SysInv(c, boot, s) && Predictable(c) && (c.algorithm == 2 ==> AssignedInv(c, s))
    requires Step(c, s, Call(ticks), s') && |s.kern.procs| == |s'.kern.procs| == Slots(c)
    ensures Rest(c, s) == [Turn(s.kern.current, PosOf(c, s.cpu))] + Rest(c, s')
  {
    hide TurnsFrom;
    hide SysInv;
    hide AssignedInv;
    hide TableMatches;
    hide Step;
    hide Handle;
    hide CallFrame;
    hide Scheduled;
    hide Views;
    hide Positions;
    hide Rest;
    CallPositions(c, boot, s, ticks, s');
    CallScheduled(c, s, ticks, s');
    HandledMatches(c, boot, s);
    var cur := s.kern.current;
    var h := Handle(s.kern, CallFrame(c, cur, s.cpu));
    var pos' := Positions(c, Views(s'));
    ScheduledIsTurn(c, h, pos', ticks, s'.kern, if s'.running then Run(s'.kern.current) else Spin);
    RestIs(c, s);
    RestIs(c, s');
  }

  lemma RestIs(c: Config, s: Sys)
    requires |s.kern.procs| == Slots(c) && s.kern.current < Slots(c)
    ensures var pos, cur := Positions(c, Views(s)), s.kern.current;
            && |pos| == Slots(c)
            && Rest(c, s) ==
               if s.running then [Turn(cur, pos[cur])] + TurnsFrom(c, pos[cur := pos[cur] + 1], cur) else []
  {
    hide TurnsFrom;
  }

  lemma CallScheduled(c: Config, s: Sys, ticks: seq<nat>, s': Sys)
    requires Step(c, s, Call(ticks), s') && s.kern.current < |s.kern.procs|
    ensures s.running && Pid(c, s.kern.current) && IsCall(s.cpu.pc)
    ensures var h := Handle(s.kern, CallFrame(c, s.kern.current, s.cpu));
            && h.current == s.kern.current
            && Scheduled(h, ticks, s'.kern, if s'.running then Run(s'.kern.current) else Spin)
  {
  }

  lemma CallKeepsCoop(c: Config, boot: Shared, s: Sys, ticks: seq<nat>, s': Sys, done: seq<Turn>)
    requires CoopInv(c, boot, s, done) && Predictable(c) && Step(c, s, Call(ticks), s')
    ensures CoopInv(c, boot, s', done + [Turn(s.kern.current, PosOf(c, s.cpu))])
  {
    hide Rest;
    hide SysInv;
    hide AssignedInv;
    hide AtRest;
    hide Step;
    hide Predictable;
    hide Printed;
    var now := Turn(s.kern.current, PosOf(c, s.cpu));
    CallKeepsInvariants(c, boot, s, ticks, s');
    CallPositions(c, boot, s, ticks, s');
    CallRest(c, boot, s, ticks, s');
    CallPrints(c, boot, s, ticks, s', done);
    assert done + ([now] + Rest(c, s')) == (done + [now]) + Rest(c, s');
  }

  lemma CallKeepsInvariants(c: Config, boot: Shared, s: Sys, ticks: seq<nat>, s': Sys)
    requires SysInv(c, boot, s) && Predictable(c) && Step(c, s, Call(ticks), s')
    requires c.algorithm == 2 ==> AssignedInv(c, s)
    ensures SysInv(c, boot, s') && (c.algorithm == 2 ==> AssignedInv(c, s'))
  {
    StepKeepsLock(c, boot, s, Call(ticks), s');
    hide SysInv;
    if c.algorithm == 2 {
      StepKeepsAssigned(c, s, Call(ticks), s');
    }
  }

  /** A yield completes the pending print; the other calls complete none. */
  lemma PendingIsPrinted(c: Config, s: Sys)
    requires s.running && IsCall(s.cpu.pc) && CounterOk(c, s.cpu)
    ensures Printed(c, [Turn(s.kern.current, PosOf(c, s.cpu))]) == Pending(s)
  {
  }

  lemma CallPrints(c: Config, boot: Shared, s: Sys, ticks: seq<nat>, s': Sys, done: seq<Turn>)
    requires SysInv(c, boot, s) && AtRest(s) && Step(c, s, Call(ticks), s')
    requires s.log == Printed(c, done) + Pending(s)
    ensures s'.log == Printed(c, done + [Turn(s.kern.current, PosOf(c, s.cpu))]) + Pending(s') && AtRest(s')
  {
    hide SysInv;
    hide AtRest;
    hide Printed;
    hide Scheduled;
    CurrentOk(c, boot, s);
    CallAdvances(c, s.kern.current, s.cpu);
    CallTable(c, boot, s);
    CallLeavesRest(c, s, ticks, s');
    PendingIsPrinted(c, s);
    PrintedConcat(c, done, [Turn(s.kern.current, PosOf(c, s.cpu))]);
  }

  lemma CallTable(c: Config, boot: Shared, s: Sys)
    requires SysInv(c, boot, s)
    ensures TableInv(c, s)
  {
  }

  lemma CallLeavesRest(c: Config, s: Sys, ticks: seq<nat>, s': Sys)
    requires TableInv(c, s) && AtRest(s) && Step(c, s, Call(ticks), s')
    requires var pc := CallFrame(c, s.kern.current, s.cpu).regs.pc; !Critical(pc) && !pc.Yield?
    ensures AtRest(s') && Pending(s') == []
  {
    var f := CallFrame(c, s.kern.current, s.cpu);
    TrapViews(s, f, ticks, s');
    forall p: nat | p < |s'.kern.procs| ensures !Critical(View(s', p).pc) && !View(s', p).pc.Yield? {
      assert View(s', p) == Views(s')[p] == if p == s.kern.current then f.regs else View(s, p);
    }
    if s'.running {
      assert View(s', s'.kern.current) == s'.cpu;
    }
  }

  // ----- One instruction -----

  /** In the cooperative system the lock is free whenever a process tries to take it. */
  lemma NeverContended(c: Config, boot: Shared, s: Sys)
    requires SysInv(c, boot, s) && AtRest(s) && s.running && s.cpu.pc.Acquire?
    ensures s.kern.mem.lock == 0
  {
  }

  /** Winning the lock is the only thing that makes a print pending. */
  lemma InstructionPends(c: Config, s: Sys)
    requires s.running && Pid(c, s.kern.current) && !IsCall(s.cpu.pc) && !s.cpu.pc.Gone?
    requires s.cpu.pc.Acquire? ==> s.kern.mem.lock == 0
    ensures var s' := LocalStep(c, s);
            && PosOf(c, s'.cpu) == PosOf(c, s.cpu)
            && if s.cpu.pc.Acquire? then s'.log == s.log + Pending(s') && Pending(s) == []
               else s'.log == s.log && Pending(s') == Pending(s)
  {
  }

  /** An instruction changes no position and disturbs nobody else. */
  lemma LocalPositions(c: Config, s: Sys)
    requires s.running && Pid(c, s.kern.current) && s.kern.current < |s.kern.procs|
    requires PosOf(c, LocalStep(c, s).cpu) == PosOf(c, s.cpu) && AtRest(s)
    ensures var s' := LocalStep(c, s);
            |s'.kern.procs| == |s.kern.procs| && Positions(c, Views(s')) == Positions(c, Views(s)) && AtRest(s')
  {
  }

  lemma LocalKeepsCoop(c: Config, boot: Shared, s: Sys, s': Sys, done: seq<Turn>)
    requires CoopInv(c, boot, s, done) && Predictable(c) && Step(c, s, Local, s')
    ensures CoopInv(c, boot, s', done)
  {
    hide SysInv;
    hide AssignedInv;
    hide AtRest;
    hide TurnsFrom;
    hide UserStep;
    hide Printed;
    StepKeepsLock(c, boot, s, Local, s');
    if c.algorithm == 2 {
      StepKeepsAssigned(c, s, Local, s');
    }
    CurrentOk(c, boot, s);
    if s.cpu.pc.Acquire? {
      NeverContended(c, boot, s);
    }
    InstructionPends(c, s);
    LocalPositions(c, s);
  }

  lemma CoopInitially(c: Config, boot: Shared)
    requires Predictable(c) && boot.lock == 0
    ensures CoopInv(c, boot, Initial(c, boot), [])
  {
    hide TurnsFrom;
    var s := Initial(c, boot);
    LockInitially(c, boot);
    hide SysInv;
    assert Positions(c, Views(s)) == Start(c);
    assert Pid(c, 1);
    assert Chosen(c, Start(c), 0, 1);
    TurnsUnfold(c, Start(c), 0, 1);
  }

  lemma CoopStarts(c: Config, boot: Shared, ss: seq<Sys>, es: seq<Event>)
    requires IsCoopRun(c, boot, ss, es)
    ensures |ss| == |es| + 1 && CoopInv(c, boot, ss[0], [])
  {
    CoopInitially(c, boot);
  }

  lemma CoopRunStep(c: Config, boot: Shared, ss: seq<Sys>, es: seq<Event>, t: nat)
    requires IsCoopRun(c, boot, ss, es) && 0 < t < |ss|
    ensures t - 1 < |es| && !es[t - 1].Clock? && Step(c, ss[t - 1], es[t - 1], ss[t])
    ensures Predictable(c) && IsRun(c, boot, ss, es)
  {
  }

  lemma {:induction false} CoopKeeps(c: Config, boot: Shared, ss: seq<Sys>, es: seq<Event>, t: nat)
    requires IsCoopRun(c, boot, ss, es) && t <= |es| && t < |ss|
    ensures CoopInv(c, boot, ss[t], Done(c, ss, es, t))
  {
    hide CoopInv;
    hide Step;
    hide IsCoopRun;
    if t == 0 {
      CoopStarts(c, boot, ss, es);
    } else {
      CoopRunStep(c, boot, ss, es, t);
      CoopKeeps(c, boot, ss, es, t - 1);
      hide IsRun;
      hide Predictable;
      var done := Done(c, ss, es, t - 1);
      if es[t - 1].Local? {
        LocalKeepsCoop(c, boot, ss[t - 1], ss[t], done);
        assert done + [] == done;
      } else {
        CallKeepsCoop(c, boot, ss[t - 1], es[t - 1].ticks, ss[t], done);
      }
    }
  }

  // ----- How long it takes -----

  /** Instructions a process has executed, if it never had to wait for the lock. */
  function Work(c: Config, u: User): nat {
    match u.pc
    case SetPriority => 0
    case SetShare => 1
    case SetLottery => 2
    case Acquire => 3 + 6 * u.i
    case LoadCursor => 4 + 6 * u.i
    case StoreCursor => 5 + 6 * u.i
    case StoreCell => 6 + 6 * u.i
    case Release => 7 + 6 * u.i
    case Yield => 8 + 6 * u.i
    case Exit => 3 + 6 * c.runs
    case Gone => 4 + 6 * c.runs
  }

  function TotalWork(c: Config, vs: seq<User>): nat {
    if vs == [] then 0 else TotalWork(c, vs[..|vs| - 1]) + Work(c, vs[|vs| - 1])
  }

  lemma {:induction false} WorkUpdate(c: Config, vs: seq<User>, p: nat, u: User)
    requires p < |vs| && Work(c, u) == Work(c, vs[p]) + 1
    ensures TotalWork(c, vs[p := u]) == TotalWork(c, vs) + 1
  {
    var n := |vs| - 1;
    if p == n {
      assert vs[p := u][..n] == vs[..n];
    } else {
      WorkUpdate(c, vs[..n], p, u);
      assert vs[p := u][..n] == vs[..n][p := u];
    }
  }

  /** Every instruction and every call is one unit of work. */
  lemma InstructionWorks(c: Config, p: nat, u: User, m: Shared)
    requires Pid(c, p) && CounterOk(c, u) && !u.pc.Gone?
    requires u.pc.Acquire? ==> m.lock == 0
    ensures Work(c, if IsCall(u.pc) then CallFrame(c, p, u).regs else UserStep(c, p, u, m).0) == Work(c, u) + 1
  {
  }

  lemma WorkStep(c: Config, boot: Shared, s: Sys, e: Event, s': Sys)
    requires SysInv(c, boot, s) && AtRest(s) && Step(c, s, e, s') && !e.Clock?
    ensures TotalWork(c, Views(s')) == TotalWork(c, Views(s)) + 1
  {
    hide SysInv;
    hide AtRest;
    hide UserStep;
    hide Work;
    hide TotalWork;
    hide Scheduled;
    var cur := s.kern.current;
    CurrentOk(c, boot, s);
    CallTable(c, boot, s);
    if s.cpu.pc.Acquire? {
      NeverContended(c, boot, s);
    }
    InstructionWorks(c, cur, s.cpu, s.kern.mem);
    match e
    case Local =>
      LocalViews(c, s);
      WorkUpdate(c, Views(s), cur, UserStep(c, cur, s.cpu, s.kern.mem).0);
    case Call(ticks) =>
      TrapViews(s, CallFrame(c, cur, s.cpu), ticks, s');
      WorkUpdate(c, Views(s), cur, CallFrame(c, cur, s.cpu).regs);
  }

  lemma {:induction false} WorkZero(c: Config, vs: seq<User>)
    requires forall p | 0 <= p < |vs| :: vs[p].pc.SetPriority?
    ensures TotalWork(c, vs) == 0
  {
    if vs != [] {
      WorkZero(c, vs[..|vs| - 1]);
    }
  }

  lemma {:induction false} WorkBound(c: Config, vs: seq<User>)
    requires vs != [] && vs[0].pc.SetPriority?
    requires forall p | 1 <= p < |vs| :: CounterOk(c, vs[p])
    ensures TotalWork(c, vs) <= (|vs| - 1) * (4 + 6 * c.runs)
    ensures (forall p | 1 <= p < |vs| :: vs[p].pc.Gone?) <==> TotalWork(c, vs) == (|vs| - 1) * (4 + 6 * c.runs)
  {
    hide CounterOk;
    hide Work;
    var n := |vs| - 1;
    if n == 0 {
      assert TotalWork(c, vs[..0]) == 0;
      IdleWork(c, vs[0]);
    } else {
      WorkBound(c, vs[..n]);
      assert forall p | 1 <= p < n :: vs[..n][p] == vs[p];
      OneBound(c, vs[n]);
      assert n * (4 + 6 * c.runs) == (n - 1) * (4 + 6 * c.runs) + (4 + 6 * c.runs);
    }
  }

  lemma IdleWork(c: Config, u: User)
    requires u.pc.SetPriority?
    ensures Work(c, u) == 0
  {
  }

  lemma OneBound(c: Config, u: User)
    requires CounterOk(c, u)
    ensures Work(c, u) <= 4 + 6 * c.runs && (u.pc.Gone? <==> Work(c, u) == 4 + 6 * c.runs)
  {
  }

  /** Slot 0 never leaves its initial registers. */
  lemma {:induction false} SlotZeroIdle(c: Config, boot: Shared, ss: seq<Sys>, es: seq<Event>, t: nat)
    requires IsRun(c, boot, ss, es) && t < |ss|
    ensures ss[t].kern.procs != [] && View(ss[t], 0) == User(SetPriority, 0, 0)
  {
    RunKeepsTable(c, boot, ss, es, t);
    if t > 0 {
      SlotZeroIdle(c, boot, ss, es, t - 1);
      RunKeepsTable(c, boot, ss, es, t - 1);
      RunStep(c, boot, ss, es, t);
      TableSafety(c, boot, ss, es, t - 1, t, 0);
    }
  }

  lemma {:induction false} StepsExact(c: Config, boot: Shared, ss: seq<Sys>, es: seq<Event>, t: nat)
    requires IsCoopRun(c, boot, ss, es) && t < |ss|
    ensures t == TotalWork(c, Views(ss[t]))
  {
    hide *;
    if t == 0 {
      StartsIdle(c, boot, ss, es);
      WorkZero(c, Views(ss[0]));
    } else {
      StepsExact(c, boot, ss, es, t - 1);
      StepWorks(c, boot, ss, es, t);
    }
  }

  lemma StepWorks(c: Config, boot: Shared, ss: seq<Sys>, es: seq<Event>, t: nat)
    requires IsCoopRun(c, boot, ss, es) && 0 < t < |ss|
    ensures TotalWork(c, Views(ss[t])) == TotalWork(c, Views(ss[t - 1])) + 1
  {
    hide IsCoopRun;
    hide CoopInv;
    hide Step;
    hide TotalWork;
    CoopRunStep(c, boot, ss, es, t);
    CoopKeeps(c, boot, ss, es, t - 1);
    CoopParts(c, boot, ss[t - 1], Done(c, ss, es, t - 1));
    WorkStep(c, boot, ss[t - 1], es[t - 1], ss[t]);
  }

  lemma CoopParts(c: Config, boot: Shared, s: Sys, done: seq<Turn>)
    requires CoopInv(c, boot, s, done)
    ensures SysInv(c, boot, s) && AtRest(s)
  {
  }

  lemma StartsIdle(c: Config, boot: Shared, ss: seq<Sys>, es: seq<Event>)
    requires IsCoopRun(c, boot, ss, es)
    ensures |ss| > 0 && forall p | 0 <= p < |Views(ss[0])| :: Views(ss[0])[p].pc.SetPriority?
  {
    hide Step;
  }

  /** In the cooperative system no instruction is wasted: the number of steps is exactly the work
      done, so every run ends after at most, and a complete one after exactly, `N * (4 + 6R)`
      steps. */
  lemma {:induction false} StepsAreWork(c: Config, boot: Shared, ss: seq<Sys>, es: seq<Event>, t: nat)
    requires IsCoopRun(c, boot, ss, es) && t < |ss|
    ensures t == TotalWork(c, Views(ss[t])) <= |c.apps| * (4 + 6 * c.runs)
    ensures !ss[t].running ==> t == |c.apps| * (4 + 6 * c.runs)
  {
    hide *;
    CoopIsRun(c, boot, ss, es);
    StepsExact(c, boot, ss, es, t);
    RunKeepsLock(c, boot, ss, es, t);
    SlotZeroIdle(c, boot, ss, es, t);
    ViewsBound(c, boot, ss[t]);
    if !ss[t].running {
      PredictablePolicy(c);
      StoppedMeansGone(c, boot, ss, es, t);
    }
  }

  lemma PredictablePolicy(c: Config)
    requires Predictable(c)
    ensures 0 <= c.algorithm <= 2
  {
  }

  lemma ViewsBound(c: Config, boot: Shared, s: Sys)
    requires SysInv(c, boot, s) && s.kern.procs != [] && View(s, 0).pc.SetPriority?
    ensures TotalWork(c, Views(s)) <= |c.apps| * (4 + 6 * c.runs)
    ensures |s.kern.procs| == Slots(c)
    ensures (forall p | Pid(c, p) :: View(s, p).pc.Gone?) <==> TotalWork(c, Views(s)) == |c.apps| * (4 + 6 * c.runs)
  {
    hide TotalWork;
    hide LockInv;
    var vs := Views(s);
    assert vs[0] == View(s, 0);
    WorkBound(c, vs);
    forall p | 1 <= p < |vs| ensures Pid(c, p) && vs[p] == View(s, p) {
    }
  }

  /** The kernel stops dispatching only when every process has exited. */
  lemma {:induction false} StoppedMeansGone(c: Config, boot: Shared, ss: seq<Sys>, es: seq<Event>, t: nat)
    requires IsRun(c, boot, ss, es) && 0 <= c.algorithm <= 2 && t < |ss| && !ss[t].running
    ensures |ss[t].kern.procs| == Slots(c)
    ensures forall p | Pid(c, p) :: View(ss[t], p).pc.Gone? && ss[t].kern.procs[p].state.Zombie?
  {
    RunKeepsTable(c, boot, ss, es, t);
    RunStep(c, boot, ss, es, t);
    RunKeepsTable(c, boot, ss, es, t - 1);
    assert !AnyRuns(ss[t].kern.procs);
    forall p | Pid(c, p) ensures View(ss[t], p).pc.Gone? {
      assert !Runs(ss[t].kern.procs, p);
    }
  }

  /** Whatever the policy, `schedule` has an outcome, save that the draw may run out of readings. */
  lemma OutcomeExists(h: Kern<User>) returns (k': Kern<User>, o: Outcome)
    requires WellFormed(h) && ShareInv(h) && 0 <= h.algorithm <= 3
    ensures Scheduled(h, [], k', o) && (o.Run? ==> o.pid == k'.current < |k'.procs|)
  {
    if h.algorithm == 3 {
      hide ShareInv;
      ShareTurnExists(h);
      if AnyWants(h.procs) {
        var k: Kern<User>, p :| IsShareTurn(h, k, p);
        k', o := k, Run(p);
      } else {
        k', o := h.(procs := ResetCurrent(h)), Spin;
      }
    } else {
      PickExists(h);
      if AnyRuns(h.procs) {
        var p :| IsPick(h, p);
        k', o := h.(current := p), Run(p);
      } else {
        k', o := h, Spin;
      }
    }
  }

  /** Under policies 0 to 3 a running system can always take a step of the current process. */
  lemma StepExists(c: Config, s: Sys)
    requires TableInv(c, s) && s.running && 0 <= c.algorithm <= 3
    ensures exists e: Event, s': Sys :: !e.Clock? && Step(c, s, e, s')
  {
    assert s.kern.current != 0 && Pid(c, s.kern.current);
    if IsCall(s.cpu.pc) {
      var f := CallFrame(c, s.kern.current, s.cpu);
      HandleKeepsInvariant(s.kern, f);
      var k, o := OutcomeExists(Handle(s.kern, f));
      var s' := Sys(k, if o.Run? then k.procs[k.current].regs else s.cpu, o.Run?, s.log);
      hide Scheduled;
      hide Handle;
      hide CallFrame;
      assert Trap(s, f, [], s');
      assert Step(c, s, Call([]), s');
    } else {
      assert Step(c, s, Local, LocalStep(c, s));
    }
  }

  /** A cooperative run that has not stopped can always go on. */
  lemma CoopContinues(c: Config, boot: Shared, ss: seq<Sys>, es: seq<Event>)
    requires IsCoopRun(c, boot, ss, es) && ss[|es|].running
    ensures exists e: Event, s': Sys :: !e.Clock? && Step(c, ss[|es|], e, s')
  {
    hide Step;
    hide TableInv;
    CoopIsRun(c, boot, ss, es);
    RunKeepsTable(c, boot, ss, es, |es|);
    StepExists(c, ss[|es|]);
  }

  // ----- The theorems -----

  /** At any moment of a cooperative run the prints so far are the first ones of the policy's exact
      schedule. */
  lemma CoopPrefix(c: Config, boot: Shared, ss: seq<Sys>, es: seq<Event>, t: nat)
    requires IsCoopRun(c, boot, ss, es) && t < |ss|
    ensures ss[t].log <= ExpectedPrints(c)
  {
    hide *;
    CoopIsRun(c, boot, ss, es);
    CoopKeeps(c, boot, ss, es, t);
    PrefixSoFar(c, boot, ss[t], Done(c, ss, es, t));
  }

  lemma CoopIsRun(c: Config, boot: Shared, ss: seq<Sys>, es: seq<Event>)
    requires IsCoopRun(c, boot, ss, es)
    ensures IsRun(c, boot, ss, es) && Predictable(c) && |ss| == |es| + 1
  {
  }

  lemma PrefixSoFar(c: Config, boot: Shared, s: Sys, done: seq<Turn>)
    requires CoopInv(c, boot, s, done) && Predictable(c)
    ensures s.log <= ExpectedPrints(c)
  {
    hide SysInv;
    hide AtRest;
    hide AssignedInv;
    hide Whole;
    hide Rest;
    hide Printed;
    hide ExpectedPrints;
    CallTable(c, boot, s);
    TableParts(c, s);
    ExactPrints(c);
    if s.running {
      assert s.kern.current != 0;
      CurrentOk(c, boot, s);
    }
    PrefixOfWhole(c, boot, s, done);
  }

  lemma PrefixOfWhole(c: Config, boot: Shared, s: Sys, done: seq<Turn>)
    requires CoopInv(c, boot, s, done) && |s.kern.procs| == Slots(c)
    requires s.running ==> s.kern.current < Slots(c) && Views(s)[s.kern.current] == s.cpu && CounterOk(c, s.cpu)
    ensures s.log <= Printed(c, Whole(c))
  {
    hide SysInv;
    hide AtRest;
    hide AssignedInv;
    hide Whole;
    hide Rest;
    hide Printed;
    hide Pending;
    PrintedConcat(c, done, Rest(c, s));
    PendingFirst(c, s);
    var later := Printed(c, Rest(c, s))[|Pending(s)|..];
    assert Printed(c, done) + (Pending(s) + later) == s.log + later;
  }

  /** The pending print is the first of the prints to come. */
  lemma PendingFirst(c: Config, s: Sys)
    requires |s.kern.procs| == Slots(c)
    requires s.running ==> s.kern.current < Slots(c) && Views(s)[s.kern.current] == s.cpu && CounterOk(c, s.cpu)
    ensures Pending(s) <= Printed(c, Rest(c, s))
  {
    hide TurnsFrom;
    if Pending(s) != [] {
      assert Rest(c, s)[0] == Turn(s.kern.current, PosOf(c, s.cpu)) && IsPrint(c, Rest(c, s)[0]);
    }
  }

  /** When the cooperative system stops, the screen shows exactly the policy's schedule:
      `(1 2 ... N)^R` under policy 0, `1^R ... N^R` under policy 1, and under policy 2 the interleaved
      classes in ascending order of priority number, after any processes of negative priority. */
  lemma CoopScreen(c: Config, boot: Shared, ss: seq<Sys>, es: seq<Event>, t: nat)
    requires IsCoopRun(c, boot, ss, es) && t < |ss| && !ss[t].running
    ensures ss[t].log == ExpectedPrints(c)
    ensures ss[t].kern.mem.cells == Screen(c, Base(boot), ExpectedPrints(c))
    ensures ss[t].kern.mem.lock == 0
  {
    CoopKeeps(c, boot, ss, es, t);
    ExactPrints(c);
    StoppedMeansGone(c, boot, ss, es, t);
    AllPrinted(c, boot, ss, es, t);
    assert Done(c, ss, es, t) + [] == Done(c, ss, es, t);
  }
}
