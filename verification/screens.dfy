/** The screen cell by cell: what the safety theorem and the exact schedules come to in cells and
    glyphs. */
module Screens {
  import opened KernelTypes
  import opened Applications
  import opened LockSafety
  import opened Turns
  import opened Prints
  import opened Cooperative
  import opened LowestPidRuns
  import opened ShareTurns
  import opened ShareCooperative

  /** The first `|log|` cells show the glyphs of the processes in the log, the rest of the screen is
      blank, and memory outside it is as it was. */
  ghost predicate ShowsLog(c: Config, boot: Shared, cells: map<int, int>, log: seq<nat>) {
    && (forall j | 0 <= j < |log| ::
          j in cells && 1 <= log[j] <= |c.apps| && cells[j] == c.apps[log[j] - 1].glyph)
    && (forall j | |log| <= j < 2000 :: j in cells && cells[j] == 0x0720)
    && (forall j | !(0 <= j < 2000) && !(0 <= j < |log|) ::
          (j in cells <==> j in boot.cells) && (j in cells ==> cells[j] == boot.cells[j]))
  }

  lemma ScreenShows(c: Config, boot: Shared, log: seq<nat>)
    requires forall j | 0 <= j < |log| :: Pid(c, log[j])
    ensures ShowsLog(c, boot, Screen(c, Base(boot), log), log)
  {
  }

  /** Whenever the lock is free, in any run under any policy, the screen shows the log, whose length is the
      cursor. */
  lemma FreeScreen(c: Config, boot: Shared, ss: seq<Sys>, es: seq<Event>, t: nat)
    requires IsRun(c, boot, ss, es) && t < |ss| && ss[t].kern.mem.lock == 0
    ensures ss[t].kern.mem.cursor == |ss[t].log| && ShowsLog(c, boot, ss[t].kern.mem.cells, ss[t].log)
  {
    LockSafety.LockSafety(c, boot, ss, es, t);
    RunKeepsLock(c, boot, ss, es, t);
    hide IsRun;
    hide LockInv;
    hide TableInv;
    hide Screen;
    ScreenShows(c, boot, ss[t].log);
  }

  // ----- Policies 0 and 1 -----

  lemma {:induction false} RepeatAt(o: seq<nat>, k: nat, i: nat, j: nat)
    requires i < k && j < |o|
    ensures |Repeat(o, k)| == k * |o| && i * |o| + j < k * |o| && Repeat(o, k)[i * |o| + j] == o[j]
    decreases k
  {
    RepeatSize(o, k);
    RepeatSize(o, k - 1);
    if i > 0 {
      RepeatAt(o, k - 1, i - 1, j);
      assert i * |o| == (i - 1) * |o| + |o|;
    }
  }

  lemma {:induction false} RepeatSize(o: seq<nat>, k: nat)
    ensures |Repeat(o, k)| == k * |o|
  {
    if k > 0 {
      RepeatSize(o, k - 1);
      assert k * |o| == (k - 1) * |o| + |o|;
    }
  }

  /** Under policy 0 without clock interrupts the applications alternate: print `i` of process `p` is cell
      `N * i + p - 1`. */
  lemma RoundRobinScreen(c: Config, boot: Shared, ss: seq<Sys>, es: seq<Event>, t: nat, p: nat, i: nat)
    requires IsRun(c, boot, ss, es) && c.algorithm == 0 && (forall k | 0 <= k < |es| :: !es[k].Clock?)
    requires t < |ss| && !ss[t].running && 1 <= p <= |c.apps| && i < c.runs
    ensures var m, j := ss[t].kern.mem, |c.apps| * i + (p - 1);
            && m.lock == 0 && m.cursor == |c.apps| * c.runs && j < m.cursor
            && j in m.cells && m.cells[j] == c.apps[p - 1].glyph
  {
    RunStarts(c, boot, ss, es);
    hide *;
    RoundRobinLog(c, boot, ss, es, t);
    FreeScreen(c, boot, ss, es, t);
    PidsAre(c);
    RepeatAt(Pids(c), c.runs, i, p - 1);
    assert i * |c.apps| == |c.apps| * i && c.runs * |c.apps| == |c.apps| * c.runs;
    CellOf(c, boot, ss[t].kern.mem.cells, ss[t].log, |c.apps| * i + (p - 1));
  }

  lemma RoundRobinLog(c: Config, boot: Shared, ss: seq<Sys>, es: seq<Event>, t: nat)
    requires IsRun(c, boot, ss, es) && c.algorithm == 0 && (forall k | 0 <= k < |es| :: !es[k].Clock?)
    requires t < |ss| && !ss[t].running
    ensures ss[t].log == Repeat(Pids(c), c.runs) && ss[t].kern.mem.lock == 0
  {
    hide Step;
    hide Screen;
    assert IsCoopRun(c, boot, ss, es);
    CoopScreen(c, boot, ss, es, t);
  }

  lemma CellOf(c: Config, boot: Shared, cells: map<int, int>, log: seq<nat>, j: nat)
    requires ShowsLog(c, boot, cells, log) && j < |log|
    ensures j in cells && 1 <= log[j] <= |c.apps| && cells[j] == c.apps[log[j] - 1].glyph
  {
  }

  lemma {:induction false} OneByOneAt(c: Config, p: nat, q: nat, i: nat)
    requires 1 <= p <= q <= |c.apps| && i < c.runs
    ensures |OneByOne(c, p)| == (|c.apps| + 1 - p) * c.runs
    ensures 0 <= (q - p) * c.runs + i < |OneByOne(c, p)| && OneByOne(c, p)[(q - p) * c.runs + i] == q
    decreases q - p
  {
    hide *;
    OneByOneFirst(c, p);
    OneByOneSize(c, p);
    RepeatSize([p], c.runs);
    if q > p {
      OneByOneAt(c, p + 1, q, i);
      OneFewer(q - p, c.runs);
    } else {
      RepeatAt([p], c.runs, i, 0);
      OneByOneSize(c, p + 1);
      OneFewer(|c.apps| + 1 - p, c.runs);
    }
  }

  lemma OneFewer(k: nat, r: nat)
    requires k > 0
    ensures k * r == (k - 1) * r + r && (k - 1) * r >= 0
  {
  }

  lemma OneByOneFirst(c: Config, p: nat)
    requires 1 <= p <= |c.apps|
    ensures OneByOne(c, p) == Repeat([p], c.runs) + OneByOne(c, p + 1)
  {
    hide Repeat;
  }

  lemma {:induction false} OneByOneSize(c: Config, p: nat)
    requires 1 <= p <= |c.apps| + 1
    ensures |OneByOne(c, p)| == (|c.apps| + 1 - p) * c.runs
    decreases |c.apps| + 1 - p
  {
    if p <= |c.apps| {
      OneByOneFirst(c, p);
      OneByOneSize(c, p + 1);
      RepeatSize([p], c.runs);
      assert (|c.apps| + 1 - p) * c.runs == (|c.apps| - p) * c.runs + c.runs;
    }
  }

  /** Under policy 1, wherever clock interrupts fall, print `i` of process `p` is cell `R * (p - 1) + i`. */
  lemma LowestPidScreen(c: Config, boot: Shared, ss: seq<Sys>, es: seq<Event>, t: nat, p: nat, i: nat)
    requires IsRun(c, boot, ss, es) && c.algorithm == 1
    requires t < |ss| && !ss[t].running && 1 <= p <= |c.apps| && i < c.runs
    ensures var m, j := ss[t].kern.mem, c.runs * (p - 1) + i;
            && m.lock == 0 && m.cursor == |c.apps| * c.runs && j < m.cursor
            && j in m.cells && m.cells[j] == c.apps[p - 1].glyph
  {
    hide *;
    LowestScreen(c, boot, ss, es, t);
    FreeScreen(c, boot, ss, es, t);
    OneByOneAt(c, 1, p, i);
    assert (p - 1) * c.runs == c.runs * (p - 1) && (|c.apps| + 1 - 1) * c.runs == |c.apps| * c.runs;
    CellOf(c, boot, ss[t].kern.mem.cells, ss[t].log, c.runs * (p - 1) + i);
  }

  // ----- Policy 2 -----

  /** With the priorities that the four applications are built with and no clock interrupts, policy 2 fills
      the screen with the first and the third alternating, then the second, then the fourth. */
  lemma AsBuiltScreen(c: Config, boot: Shared, ss: seq<Sys>, es: seq<Event>, t: nat, i: nat)
    requires IsRun(c, boot, ss, es) && c.algorithm == 2 && (forall k | 0 <= k < |es| :: !es[k].Clock?)
    requires |c.apps| == 4 && c.apps[0].priority == 1 && c.apps[1].priority == 2
    requires c.apps[2].priority == 1 && c.apps[3].priority == 4
    requires t < |ss| && !ss[t].running && i < c.runs
    ensures var m, r := ss[t].kern.mem, c.runs;
            && m.lock == 0 && m.cursor == 4 * r
            && 2 * i in m.cells && m.cells[2 * i] == c.apps[0].glyph
            && 2 * i + 1 in m.cells && m.cells[2 * i + 1] == c.apps[2].glyph
            && 2 * r + i in m.cells && m.cells[2 * r + i] == c.apps[1].glyph
            && 3 * r + i in m.cells && m.cells[3 * r + i] == c.apps[3].glyph
  {
    var r := c.runs;
    AsBuiltLog(c, boot, ss, es, t);
    hide *;
    FreeScreen(c, boot, ss, es, t);
    var cells, log := ss[t].kern.mem.cells, ss[t].log;
    AsBuiltAt(log, r, i);
    CellOf(c, boot, cells, log, 2 * i);
    CellOf(c, boot, cells, log, 2 * i + 1);
    CellOf(c, boot, cells, log, 2 * r + i);
    CellOf(c, boot, cells, log, 3 * r + i);
  }

  lemma AsBuiltAt(log: seq<nat>, r: nat, i: nat)
    requires log == Repeat([1, 3], r) + Repeat([2], r) + Repeat([4], r) && i < r
    ensures |log| == 4 * r
    ensures log[2 * i] == 1 && log[2 * i + 1] == 3 && log[2 * r + i] == 2 && log[3 * r + i] == 4
  {
    hide *;
    var a, b, d := Repeat([1, 3], r), Repeat([2], r), Repeat([4], r);
    RepeatAt([1, 3], r, i, 0);
    RepeatAt([1, 3], r, i, 1);
    RepeatAt([2], r, i, 0);
    RepeatAt([4], r, i, 0);
    assert log == a + b + d;
  }

  lemma AsBuiltLog(c: Config, boot: Shared, ss: seq<Sys>, es: seq<Event>, t: nat)
    requires IsRun(c, boot, ss, es) && c.algorithm == 2 && (forall k | 0 <= k < |es| :: !es[k].Clock?)
    requires |c.apps| == 4 && c.apps[0].priority == 1 && c.apps[1].priority == 2
    requires c.apps[2].priority == 1 && c.apps[3].priority == 4
    requires t < |ss| && !ss[t].running
    ensures ss[t].log == Repeat([1, 3], c.runs) + Repeat([2], c.runs) + Repeat([4], c.runs)
    ensures ss[t].kern.mem.lock == 0
  {
    hide Step;
    hide Screen;
    hide Repeat;
    hide ExpectedPrints;
    assert IsCoopRun(c, boot, ss, es);
    CoopScreen(c, boot, ss, es, t);
    AsBuilt(c);
  }

  /** What comes before comes with a priority number at most as great. */
  predicate Before(c: Config, p: nat, q: nat) {
    1 <= p <= |c.apps| && 1 <= q <= |c.apps| && c.apps[p - 1].priority <= c.apps[q - 1].priority
  }

  ghost predicate Sorted(c: Config, log: seq<nat>) {
    forall i, j | 0 <= i < j < |log| :: Before(c, log[i], log[j])
  }

  lemma InRepeat(o: seq<nat>, k: nat)
    ensures forall x | x in Repeat(o, k) :: x in o
  {
    if k > 0 {
      InRepeat(o, k - 1);
    }
  }

  lemma SortedAppend(c: Config, first: seq<nat>, later: seq<nat>, key: int)
    requires forall x | x in first :: Pid(c, x) && c.apps[x - 1].priority == key
    requires (forall x | x in later :: Pid(c, x) && key <= c.apps[x - 1].priority) && Sorted(c, later)
    ensures Sorted(c, first + later)
  {
    var log := first + later;
    forall i, j | 0 <= i < j < |log|
      ensures Before(c, log[i], log[j])
    {
      if i < |first| {
        assert log[i] == first[i] && first[i] in first;
        assert if j < |first| then log[j] == first[j] && log[j] in first else log[j] == later[j - |first|];
        assert j >= |first| ==> later[j - |first|] in later;
      } else {
        assert log[i] == later[i - |first|] && log[j] == later[j - |first|];
      }
    }
  }

  lemma {:induction false} ClassesSorted(c: Config, s: set<nat>, cur: nat)
    requires c.algorithm == 2 && (forall p | p in s :: Pid(c, p))
    ensures Sorted(c, ClassPrints(c, s, cur)) && forall x | x in ClassPrints(c, s, cur) :: x in s
    decreases |s|
  {
    hide *;
    if s == {} {
      NoClass(c, cur);
      NothingSorted(c);
    } else {
      BestClassSmaller(c, s);
      BestMembers(c, s);
      var best := BestClass(c, s);
      var o := Order(Slots(c), cur, best);
      var next := if o == [] then cur else o[|o| - 1];
      FirstLater(c, s, cur);
      ClassesSorted(c, s - best, next);
      OrderMembers(c, cur, best);
      InRepeat(o, c.runs);
      BestFirst(c, s, Repeat(o, c.runs), ClassPrints(c, s - best, next));
    }
  }

  lemma NothingSorted(c: Config)
    ensures Sorted(c, [])
  {
  }

  lemma BestMembers(c: Config, s: set<nat>)
    requires forall p | p in s :: Pid(c, p)
    ensures forall p | p in BestClass(c, s) :: p in s
  {
  }

  lemma BestFirst(c: Config, s: set<nat>, first: seq<nat>, later: seq<nat>)
    requires c.algorithm == 2 && s != {} && (forall p | p in s :: Pid(c, p))
    requires (forall x | x in first :: x in BestClass(c, s)) && forall x | x in later :: x in s
    requires Sorted(c, later)
    ensures Sorted(c, first + later)
  {
    hide Sorted;
    BestClassNonempty(c, s);
    var b :| b in BestClass(c, s);
    SortedAppend(c, first, later, c.apps[b - 1].priority);
  }

  lemma OrderMembers(c: Config, cur: nat, s: set<nat>)
    requires forall p | p in s :: Pid(c, p)
    ensures forall x | x in Order(Slots(c), cur, s) :: x in s
  {
    AscendingMembers(s, cur + 1, Slots(c));
    AscendingMembers(s, 0, cur + 1);
  }

  lemma {:induction false} AscendingMembers(s: set<nat>, lo: nat, hi: nat)
    ensures forall x | x in Ascending(s, lo, hi) :: x in s
    decreases hi - lo
  {
    if lo < hi {
      AscendingMembers(s, lo + 1, hi);
    }
  }

  lemma FirstLater(c: Config, s: set<nat>, cur: nat)
    requires s != {} && forall p | p in s :: Pid(c, p)
    ensures var best := BestClass(c, s);
            var o := Order(Slots(c), cur, best);
            ClassPrints(c, s, cur) == Repeat(o, c.runs) + ClassPrints(c, s - best, if o == [] then cur else o[|o| - 1])
  {
    hide Repeat;
    hide Order;
    hide BestClass;
    hide Slots;
    hide Pid;
    BestClassSmaller(c, s);
  }

  /** For any priorities that are not negative, policy 2 without clock interrupts prints them in ascending
      order. */
  lemma PriorityScreen(c: Config, boot: Shared, ss: seq<Sys>, es: seq<Event>, t: nat)
    requires IsRun(c, boot, ss, es) && c.algorithm == 2 && (forall k | 0 <= k < |es| :: !es[k].Clock?)
    requires forall a | a in c.apps :: a.priority >= 0
    requires t < |ss| && !ss[t].running
    ensures Sorted(c, ss[t].log) && ShowsLog(c, boot, ss[t].kern.mem.cells, ss[t].log)
  {
    hide Step;
    hide Screen;
    hide ExpectedPrints;
    hide ClassPrints;
    hide ShowsLog;
    hide Sorted;
    assert IsCoopRun(c, boot, ss, es);
    CoopScreen(c, boot, ss, es, t);
    AscendingClasses(c);
    ClassesSorted(c, AllPids(c), |c.apps|);
    FreeScreen(c, boot, ss, es, t);
  }

  // ----- Policy 3 -----

  /** The calls of a process with `share` in `turns` turns of `share + 1`, less the one that sets it. */
  function CallsIn(share: int, turns: int): int {
    share + (turns - 1) * (share + 1)
  }

  lemma CallsMore(share: int, turns: int)
    requires share >= 0 && turns >= 1
    ensures CallsIn(share, turns) >= 0 && CallsIn(share, turns + 1) == CallsIn(share, turns) + share + 1
    ensures CallsIn(share, 1) == share
  {
    assert turns * (share + 1) == (turns - 1) * (share + 1) + (share + 1);
  }

  /** How many prints process `p` has made after `lap` laps: its share in its first turn with a share,
      which is one lap later for all but process 1, and one more than that in each later lap, up to `R`;
      none with a negative share. */
  function PrintedBy(c: Config, p: nat, lap: nat): int
    requires 1 <= p <= |c.apps|
  {
    var share: int := c.apps[p - 1].share;
    var turns := if p == 1 then lap else lap - 1;
    if share < 0 || turns <= 0 then 0
    else
      var calls := CallsIn(share, turns);
      if calls < c.runs then calls else c.runs
  }

  lemma StopFirst(c: Config, p: nat)
    requires 1 <= p <= |c.apps| && c.apps[p - 1].share >= 0
    ensures Stop(c, p, 0, true) == AtMost(c.runs + 4, c.apps[p - 1].share + 3)
    ensures Stop(c, p, 0, false) == 1
    ensures Stop(c, p, 1, false) == AtMost(c.runs + 4, c.apps[p - 1].share + 3)
  {
  }

  lemma StopLater(c: Config, p: nat, n: int)
    requires 1 <= p <= |c.apps| && c.apps[p - 1].share >= 0 && n >= 3
    ensures Stop(c, p, AtMost(c.runs + 4, n), false) == AtMost(c.runs + 4, n + c.apps[p - 1].share + 1)
  {
  }

  lemma ReachedNext(c: Config, p: nat, lap: nat)
    requires 1 <= p <= |c.apps|
    ensures Reached(c, p, 0) == 0
    ensures Reached(c, p, lap + 1) == Stop(c, p, Reached(c, p, lap), p == 1 && lap == 0)
  {
    hide Stop;
  }

  lemma {:induction false} ReachedIs(c: Config, p: nat, lap: nat)
    requires 1 <= p <= |c.apps| && c.apps[p - 1].share >= 0
    ensures var turns := if p == 1 then lap else lap - 1;
            Reached(c, p, lap) ==
            if turns <= 0 then lap else AtMost(c.runs + 4, CallsIn(c.apps[p - 1].share, turns) + 3)
  {
    hide *;
    var turns := if p == 1 then lap else lap - 1;
    var share: int := c.apps[p - 1].share;
    if lap == 0 {
      ReachedNext(c, p, 0);
    } else {
      ReachedIs(c, p, lap - 1);
      ReachedNext(c, p, lap - 1);
      StopFirst(c, p);
      CallsMore(share, 1);
      if turns > 1 {
        CallsMore(share, turns - 1);
        StopLater(c, p, CallsIn(share, turns - 1) + 3);
      }
    }
  }

  lemma {:induction false} UnwillingReached(c: Config, p: nat, lap: nat)
    requires Pid(c, p) && c.apps[p - 1].share < 0
    ensures Reached(c, p, lap) <= 2
  {
    if lap > 0 {
      UnwillingReached(c, p, lap - 1);
    }
  }

  lemma ReachedPrints(c: Config, p: nat, lap: nat)
    requires Pid(c, p)
    ensures var reached := Reached(c, p, lap);
            PrintedBy(c, p, lap) == if reached < 3 then 0 else if reached < c.runs + 3 then reached - 3 else c.runs
  {
    hide CallsIn;
    hide Reached;
    var turns := if p == 1 then lap else lap - 1;
    if c.apps[p - 1].share < 0 {
      UnwillingReached(c, p, lap);
    } else {
      ReachedIs(c, p, lap);
      if turns >= 1 {
        CallsMore(c.apps[p - 1].share, turns);
      }
    }
  }

  /** The prints of laps `lap`, ..., `lap + n - 1`, in each of them those of process `p` and after. */
  function LapLog(c: Config, lap: nat, p: nat): seq<nat>
    decreases |c.apps| - p
  {
    if !(1 <= p <= |c.apps|) then []
    else
      var n := PrintedBy(c, p, lap + 1) - PrintedBy(c, p, lap);
      (if n < 0 then [] else seq(n, _ => p)) + LapLog(c, lap, p + 1)
  }

  function LapsLog(c: Config, lap: nat, n: nat): seq<nat>
    decreases n
  {
    if n == 0 then [] else LapLog(c, lap, 1) + LapsLog(c, lap + 1, n - 1)
  }

  lemma {:induction false} RepeatOne(p: nat, k: nat)
    ensures Repeat([p], k) == seq(k, _ => p)
  {
    if k > 0 {
      RepeatOne(p, k - 1);
    }
  }

  lemma ReachedStep(c: Config, p: nat, lap: nat)
    requires Pid(c, p)
    ensures Reached(c, p, lap) <= Reached(c, p, lap + 1)
  {
  }

  lemma PrintsOfLap(c: Config, p: nat, lap: nat)
    requires Pid(c, p)
    ensures PrintsIn(c, Reached(c, p, lap), Reached(c, p, lap + 1)) == PrintedBy(c, p, lap + 1) - PrintedBy(c, p, lap)
  {
    hide PrintedBy;
    ReachedStep(c, p, lap);
    ReachedPrints(c, p, lap);
    ReachedPrints(c, p, lap + 1);
    hide Reached;
  }

  lemma {:induction false} LapIs(c: Config, lap: nat, p: nat)
    requires p >= 1
    ensures LapPrints(c, lap, p) == LapLog(c, lap, p)
    decreases |c.apps| + 1 - p
  {
    hide Reached;
    hide PrintedBy;
    hide PrintsIn;
    hide Repeat;
    if Pid(c, p) {
      LapIs(c, lap, p + 1);
      PrintsOfLap(c, p, lap);
      RepeatOne(p, PrintsIn(c, Reached(c, p, lap), Reached(c, p, lap + 1)));
    }
  }

  lemma {:induction false} LapsAre(c: Config, lap: nat, n: nat)
    ensures LapsPrints(c, lap, n) == LapsLog(c, lap, n)
    decreases n
  {
    hide LapPrints;
    hide LapLog;
    if n > 0 {
      LapIs(c, lap, 1);
      LapsAre(c, lap + 1, n - 1);
    }
  }

  /** Under policy 3 without clock interrupts the processes print in laps, in the order of their pids,
      process `p` in lap `lap` until it has made `PrintedBy` prints. */
  lemma SharesScreen(c: Config, boot: Shared, ss: seq<Sys>, es: seq<Event>, t: nat)
    requires IsRun(c, boot, ss, es) && c.algorithm == 3 && (forall k | 0 <= k < |es| :: !es[k].Clock?)
    requires t < |ss| && !ss[t].running
    ensures ss[t].log == LapsLog(c, 0, c.runs + 4) && ss[t].kern.mem.lock == 0
    ensures ShowsLog(c, boot, ss[t].kern.mem.cells, ss[t].log)
  {
    hide Step;
    hide Screen;
    hide ShowsLog;
    hide LapsPrints;
    hide LapsLog;
    assert IsShareRun(c, boot, ss, es);
    ShareScreen(c, boot, ss, es, t);
    LapsAre(c, 0, c.runs + 4);
    FreeScreen(c, boot, ss, es, t);
  }
}
