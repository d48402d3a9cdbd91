/** Turnaround times in the cooperative system, counting prints as time: the figures of
    answers.txt, for any number of processes and prints. */
module Turnaround {
  import opened KernelTypes
  import opened Applications
  import opened Turns
  import opened Prints
  import opened LockSafety
  import opened Cooperative

  /** How many prints come before turn `t` in `ts`. */
  function PrintsBefore(c: Config, ts: seq<Turn>, t: Turn): nat {
    if ts == [] || ts[0] == t then 0
    else (if IsPrint(c, ts[0]) then 1 else 0) + PrintsBefore(c, ts[1..], t)
  }

  /** Prints on the screen when process `p` exits. */
  ghost function Completion(c: Config, p: nat): nat {
    PrintsBefore(c, Whole(c), Turn(p, 3 + c.runs))
  }

  /** Prints on the screen when process `p` starts its first print turn. */
  ghost function Wait(c: Config, p: nat): nat {
    PrintsBefore(c, Whole(c), Turn(p, 3))
  }

  lemma {:induction false} PrintsBeforeConcat(c: Config, a: seq<Turn>, b: seq<Turn>, t: Turn)
    ensures PrintsBefore(c, a + b, t)
         == if t in a then PrintsBefore(c, a, t) else |Printed(c, a)| + PrintsBefore(c, b, t)
  {
    if a == [] {
      assert a + b == b;
    } else {
      assert (a + b)[1..] == a[1..] + b;
      PrintsBeforeConcat(c, a[1..], b, t);
    }
  }

  // ----- Completion is what the machine shows -----

  lemma CoopState(c: Config, boot: Shared, ss: seq<Sys>, es: seq<Event>, t: nat)
    requires IsCoopRun(c, boot, ss, es) && t <= |es| && t < |ss|
    ensures SysInv(c, boot, ss[t]) && AtRest(ss[t]) && |ss[t].kern.procs| == Slots(c)
  {
    CoopKeeps(c, boot, ss, es, t);
  }

  /** A completed turn lies behind its process's position. */
  lemma {:induction false} DoneIsPast(c: Config, boot: Shared, ss: seq<Sys>, es: seq<Event>, t: nat, i: nat)
    requires IsCoopRun(c, boot, ss, es) && t <= |es| && t < |ss| && i < |Done(c, ss, es, t)|
    ensures var d := Done(c, ss, es, t)[i];
            d.pid < |ss[t].kern.procs| && d.pos < PosOf(c, View(ss[t], d.pid))
  {
    hide Step;
    hide IsCoopRun;
    hide SysInv;
    hide AtRest;
    if t > 0 {
      CoopRunStep(c, boot, ss, es, t);
      CoopState(c, boot, ss, es, t - 1);
      CoopState(c, boot, ss, es, t);
      hide IsRun;
      var s := ss[t - 1];
      if i < |Done(c, ss, es, t - 1)| {
        DoneIsPast(c, boot, ss, es, t - 1, i);
      } else {
        CallerRuns(c, s, es[t - 1], ss[t]);
      }
      PositionsGrow(c, boot, s, es[t - 1], ss[t], Done(c, ss, es, t)[i].pid);
    }
  }

  lemma CallerRuns(c: Config, s: Sys, e: Event, s': Sys)
    requires Step(c, s, e, s') && |s.kern.procs| == Slots(c)
    ensures s.kern.current < Slots(c) && View(s, s.kern.current) == s.cpu
  {
  }

  lemma PositionsGrow(c: Config, boot: Shared, s: Sys, e: Event, s': Sys, p: nat)
    requires SysInv(c, boot, s) && SysInv(c, boot, s') && AtRest(s) && Step(c, s, e, s') && !e.Clock? && p < Slots(c)
    ensures PosOf(c, View(s', p)) == PosOf(c, View(s, p)) + if e.Call? && p == s.kern.current then 1 else 0
  {
    hide AtRest;
    hide LockInv;
    CurrentOk(c, boot, s);
    if e.Call? {
      CallPositions(c, boot, s, e.ticks, s');
      var pos, pos' := Positions(c, Views(s)), Positions(c, Views(s'));
      assert pos'[p] == PosOf(c, Views(s')[p]) && pos[p] == PosOf(c, Views(s)[p]);
    } else {
      if s.cpu.pc.Acquire? {
        NeverContended(c, boot, s);
      }
      InstructionPends(c, s);
      LocalPositions(c, s);
      var pos, pos' := Positions(c, Views(s)), Positions(c, Views(s'));
      assert pos'[p] == PosOf(c, Views(s')[p]) && pos[p] == PosOf(c, Views(s)[p]);
    }
  }

  /** At any point of any cooperative run where the current process has nothing pending, the screen
      holds the prints that come before its present turn. */
  lemma TurnTime(c: Config, boot: Shared, ss: seq<Sys>, es: seq<Event>, t: nat)
    requires IsCoopRun(c, boot, ss, es) && t < |es| && t < |ss| && Pending(ss[t]) == []
    ensures |ss[t].log| == PrintsBefore(c, Whole(c), Turn(ss[t].kern.current, PosOf(c, ss[t].cpu)))
  {
    var s := ss[t];
    var cur := s.kern.current;
    var now := Turn(cur, PosOf(c, s.cpu));
    var done := Done(c, ss, es, t);
    CoopKeeps(c, boot, ss, es, t);
    CoopRunStep(c, boot, ss, es, t + 1);
    assert s.running && Pid(c, cur);
    CurrentOk(c, boot, s);
    forall i | 0 <= i < |done| ensures done[i] != now {
      DoneIsPast(c, boot, ss, es, t, i);
      assert View(s, cur) == s.cpu;
    }
    hide IsCoopRun;
    hide SysInv;
    hide Step;
    hide TurnsFrom;
    assert now !in done;
    PrintsBeforeConcat(c, done, Rest(c, s), now);
    assert Rest(c, s)[0] == now;
  }

  /** When a process makes its exit call in any cooperative run, the screen holds `Completion`
      prints. */
  lemma ExitTime(c: Config, boot: Shared, ss: seq<Sys>, es: seq<Event>, t: nat)
    requires IsCoopRun(c, boot, ss, es) && t < |es| && t < |ss| && es[t].Call? && ss[t].cpu.pc.Exit?
    ensures |ss[t].log| == Completion(c, ss[t].kern.current)
  {
    TurnTime(c, boot, ss, es, t);
  }

  /** When a process first tries to take the lock in any cooperative run it wins it, and the screen
      holds the `Wait` prints of others. */
  lemma WaitTime(c: Config, boot: Shared, ss: seq<Sys>, es: seq<Event>, t: nat)
    requires IsCoopRun(c, boot, ss, es) && t < |es| && t + 1 < |ss| && ss[t].cpu.pc.Acquire? && ss[t].cpu.i == 0
    ensures var p := ss[t].kern.current;
            |ss[t].log| == Wait(c, p) && p !in ss[t].log && ss[t + 1].log == ss[t].log + [p]
  {
    var s := ss[t];
    CoopRunStep(c, boot, ss, es, t + 1);
    CoopState(c, boot, ss, es, t);
    TurnTime(c, boot, ss, es, t);
    PrintsBounded(c, boot, ss, es, t, s.kern.current);
    CurrentOk(c, boot, s);
    NeverContended(c, boot, s);
    hide IsCoopRun;
    hide SysInv;
  }

  // ----- Policy 0 -----

  /** Print turns among the turns `a`, ..., `b - 1`. */
  function PrintLevels(c: Config, a: nat, b: nat): nat
    decreases b - a
  {
    if a >= b then 0 else (if 3 <= a < 3 + c.runs then 1 else 0) + PrintLevels(c, a + 1, b)
  }

  lemma {:induction false} PrintLevelsIs(c: Config, a: nat, b: nat)
    requires a <= 3 <= b <= 3 + c.runs
    ensures PrintLevels(c, a, b) == b - 3
    decreases b - a
  {
    if a < 3 {
      PrintLevelsIs(c, a + 1, b);
    } else {
      PrintLevelsTop(c, a, b);
    }
  }

  lemma {:induction false} PrintLevelsTop(c: Config, a: nat, b: nat)
    requires 3 <= a <= b <= 3 + c.runs
    ensures PrintLevels(c, a, b) == b - a
    decreases b - a
  {
    if a < b {
      PrintLevelsTop(c, a + 1, b);
    }
  }

  ghost predicate Distinct(o: seq<nat>) {
    forall x, y | 0 <= x < y < |o| :: o[x] != o[y]
  }

  lemma {:induction false} BeforeInRow(c: Config, o: seq<nat>, a: nat, i: nat)
    requires i < |o| && Distinct(o)
    ensures PrintsBefore(c, Row(o, a), Turn(o[i], a)) == if 3 <= a < 3 + c.runs then i else 0
  {
    if i > 0 {
      assert Row(o, a)[1..] == Row(o[1..], a);
      BeforeInRow(c, o[1..], a, i - 1);
    }
  }

  /** A turn of a later row comes after the whole first row. */
  lemma AfterRow(c: Config, o: seq<nat>, a: nat, rest: seq<Turn>, t: Turn)
    requires t.pos != a
    ensures PrintsBefore(c, Row(o, a) + rest, t) == (if 3 <= a < 3 + c.runs then |o| else 0) + PrintsBefore(c, rest, t)
  {
    hide Printed;
    hide PrintsBefore;
    assert forall j | 0 <= j < |o| :: Row(o, a)[j].pos == a;
    PrintsBeforeConcat(c, Row(o, a), rest, t);
    PrintedRow(c, o, a);
  }

  function Times(k: nat, m: nat): nat {
    k * m
  }

  lemma TimesStep(n: int, m: int)
    requires n >= 1 && m >= 0
    ensures Times(n, m) == Times(n - 1, m) + m
    ensures Times(n, n - 1) == Times(n - 1, if n == 1 then 0 else n - 2) + 2 * (n - 1)
  {
  }

  lemma {:induction false} BeforeInRounds(c: Config, o: seq<nat>, a: nat, b: nat, i: nat)
    requires i < |o| && Distinct(o) && a <= b < Length(c)
    ensures PrintsBefore(c, Rounds(o, a, Length(c)), Turn(o[i], b)) ==
            Times(PrintLevels(c, a, b), |o|) + if 3 <= b < 3 + c.runs then i else 0
    decreases b - a
  {
    hide PrintsBefore;
    hide Printed;
    var row, rest := Row(o, a), Rounds(o, a + 1, Length(c));
    if a == b {
      PrintsBeforeConcat(c, row, rest, Turn(o[i], b));
      BeforeInRow(c, o, a, i);
      assert row[i] == Turn(o[i], b);
    } else {
      AfterRow(c, o, a, rest, Turn(o[i], b));
      BeforeInRounds(c, o, a + 1, b, i);
    }
  }

  lemma RoundRobinTurns(c: Config)
    requires Sane(c) && c.algorithm == 0
    ensures Whole(c) == Rounds(Pids(c), 0, Length(c))
  {
    hide TurnsFrom;
    var s := AllPids(c);
    ExactOrder(c);
    assert Pid(c, 1) && 1 in s;
    assert BestClass(c, s) == s;
    PidsCyclic(c);
    assert s - s == {};
    var o := Pids(c);
    assert ClassTurns(c, s - s, if o == [] then 0 else o[|o| - 1], 0) == [];
    assert ClassTurns(c, s, 0, 0) == Rounds(o, 0, Length(c)) + [];
  }

  /** Round robin: everybody exits after all `N * R` prints, and process `p` first prints after
      `p - 1` others. */
  lemma RoundRobinTimes(c: Config, p: nat)
    requires Sane(c) && c.algorithm == 0 && Pid(c, p) && c.runs >= 1
    ensures Completion(c, p) == |c.apps| * c.runs && Wait(c, p) == p - 1
  {
    hide PrintsBefore;
    hide Rounds;
    hide Whole;
    RoundRobinTurns(c);
    PidsAre(c);
    BeforeInRounds(c, Pids(c), 0, 3 + c.runs, p - 1);
    BeforeInRounds(c, Pids(c), 0, 3, p - 1);
    PrintLevelsIs(c, 0, 3 + c.runs);
    PrintLevelsIs(c, 0, 3);
  }

  // ----- Policy 1 -----

  lemma OneByOneTurns(c: Config, p: nat)
    requires c.algorithm == 1 && Pid(c, p)
    ensures ClassTurns(c, PidsFrom(c, p), p - 1, 0)
         == Rounds([p], 0, Length(c)) + ClassTurns(c, PidsFrom(c, p + 1), p, 0)
  {
    assert p in PidsFrom(c, p);
    LowestIsBest(c, p);
  }

  lemma {:induction false} BeforeOneByOne(c: Config, p: nat, q: nat, b: nat)
    requires c.algorithm == 1 && 1 <= p <= q && Pid(c, q) && 3 <= b <= 3 + c.runs
    ensures PrintsBefore(c, ClassTurns(c, PidsFrom(c, p), p - 1, 0), Turn(q, b)) == Times(q - p, c.runs) + (b - 3)
    decreases q - p
  {
    hide PrintsBefore;
    hide Printed;
    hide Rounds;
    hide ClassTurns;
    var first, rest := Rounds([p], 0, Length(c)), ClassTurns(c, PidsFrom(c, p + 1), p, 0);
    OneByOneTurns(c, p);
    PrintsBeforeConcat(c, first, rest, Turn(q, b));
    RoundsTurns([p], 0, Length(c));
    if p == q {
      assert [p][0] == q;
      BeforeInRounds(c, [p], 0, b, 0);
      PrintLevelsIs(c, 0, b);
    } else {
      PrintedRounds(c, [p], 0);
      RepeatOne(p, c.runs);
      BeforeOneByOne(c, p + 1, q, b);
    }
  }

  lemma {:induction false} RepeatOne(p: nat, k: nat)
    ensures |Repeat([p], k)| == k
  {
    if k > 0 {
      RepeatOne(p, k - 1);
    }
  }

  lemma {:induction false} RoundsTurns(o: seq<nat>, a: nat, b: nat)
    ensures forall t :: t in Rounds(o, a, b) <==> t.pid in o && a <= t.pos < b
    decreases b - a
  {
    if a < b {
      RoundsTurns(o, a + 1, b);
      var row := Row(o, a);
      forall t: Turn ensures t in row <==> t.pid in o && t.pos == a {
        if t.pid in o && t.pos == a {
          var i :| 0 <= i < |o| && o[i] == t.pid;
          assert row[i] == t;
        }
      }
    }
  }

  lemma LowestPidTurns(c: Config)
    requires Sane(c) && c.algorithm == 1
    ensures Whole(c) == ClassTurns(c, PidsFrom(c, 1), 0, 0)
  {
    hide ClassTurns;
    hide Whole;
    ExactOrder(c);
    assert AllPids(c) == PidsFrom(c, 1);
  }

  /** Lowest pid first: process `p` exits after `R * p` prints and waits for `R * (p - 1)`. */
  lemma LowestPidTimes(c: Config, p: nat)
    requires Sane(c) && c.algorithm == 1 && Pid(c, p)
    ensures Completion(c, p) == p * c.runs && Wait(c, p) == (p - 1) * c.runs
  {
    hide PrintsBefore;
    hide ClassTurns;
    hide Whole;
    hide PidsFrom;
    LowestPidTurns(c);
    BeforeOneByOne(c, 1, p, 3 + c.runs);
    BeforeOneByOne(c, 1, p, 3);
    TimesStep(p, c.runs);
  }

  // ----- The comparison -----

  /** answers.txt counts round robin's turnaround from a process's first print and policy 1's from
      the start of the run. */
  ghost function Documented(c: Config, p: nat): int {
    if c.algorithm == 0 then Completion(c, p) - Wait(c, p) else Completion(c, p)
  }

  ghost function Total(c: Config, n: nat): int {
    if n == 0 then 0 else Total(c, n - 1) + Documented(c, n)
  }

  lemma TriangleStep(n: nat, r: nat)
    requires n >= 1
    ensures Times(n * (n + 1), r) == Times((n - 1) * n, r) + 2 * Times(n, r)
  {
    var a, b := (n - 1) * n, 2 * n;
    assert n * (n + 1) == a + b;
    assert (a + b) * r == a * r + b * r;
  }

  lemma {:induction false} RoundRobinTotal(c: Config, n: nat)
    requires Sane(c) && c.runs >= 1 && c.algorithm == 0 && n <= |c.apps|
    ensures 2 * Total(c, n) == 2 * Times(n, |c.apps| * c.runs) - Times(n, if n == 0 then 0 else n - 1)
  {
    if n > 0 {
      RoundRobinTotal(c, n - 1);
      RoundRobinTimes(c, n);
      hide Completion;
      hide Wait;
      TimesStep(n, |c.apps| * c.runs);
      hide Times;
    }
  }

  lemma {:induction false} LowestPidTotal(c: Config, n: nat)
    requires Sane(c) && c.runs >= 1 && c.algorithm == 1 && n <= |c.apps|
    ensures 2 * Total(c, n) == Times(n * (n + 1), c.runs)
  {
    if n > 0 {
      LowestPidTotal(c, n - 1);
      LowestPidTimes(c, n);
      hide Completion;
      hide Wait;
      TriangleStep(n, c.runs);
      assert Documented(c, n) == Times(n, c.runs);
      hide Times;
      hide Documented;
    }
  }

  lemma Difference(n: nat, r: nat)
    requires n >= 1 && r >= 1
    ensures 2 * Times(n, n * r) - Times(n, n - 1) - Times(n * (n + 1), r) == (r - 1) * (n * (n - 1)) >= 0
  {
    var a := n * n;
    assert n * (n * r) == a * r;
    assert n * (n - 1) == a - n && n * (n + 1) == a + n;
    assert (a + n) * r == a * r + n * r;
    assert (r - 1) * (a - n) == a * r - n * r - (a - n);
    assert a >= n;
  }

  /** The totals differ by `(R - 1) N (N - 1) / 2`, so policy 1's average turnaround is never larger
      than round robin's. */
  lemma LowestPidIsNoSlower(c: Config)
    requires Sane(c) && c.runs >= 1 && c.algorithm == 0
    ensures var n := |c.apps|;
            2 * (Total(c, n) - Total(c.(algorithm := 1), n)) == (c.runs - 1) * (n * (n - 1))
    ensures Total(c.(algorithm := 1), |c.apps|) <= Total(c, |c.apps|)
  {
    var n, r := |c.apps|, c.runs;
    RoundRobinTotal(c, n);
    LowestPidTotal(c.(algorithm := 1), n);
    hide Total;
    Difference(n, r);
    hide Times;
  }

  /** The four applications with 320 prints each: averages 1278.5 and 800, as documented. */
  lemma DocumentedAverages(c: Config)
    requires |c.apps| == 4 && c.runs == 320 && c.algorithm == 0
    ensures Total(c, 4) == 5114 && Total(c.(algorithm := 1), 4) == 3200
  {
    RoundRobinTotal(c, 4);
    LowestPidTotal(c.(algorithm := 1), 4);
  }
}
