/** The dispatches of the machine are the sequences fairness is stated for: what holds of those
    sequences holds of every stretch of every run of the applications. */
module DispatchRuns {
  import opened KernelTypes
  import opened Scheduling
  import opened Interrupts
  import opened Applications
  import opened Rotor
  import opened Fairness
  import opened PolicyRuns

  /** Nobody exits or sets a priority or a share. */
  ghost predicate Quiet(ss: seq<Sys>, es: seq<Event>) {
    |ss| == |es| + 1 && forall i | 0 <= i < |es| && es[i].Call? :: ss[i].cpu.pc.Yield? || ss[i].cpu.pc.SetLottery?
  }

  /** The kernel after each of the dispatches up to time `n`, the one in progress first. */
  function Dispatched(ss: seq<Sys>, es: seq<Event>, n: nat): (ks: seq<Kern<User>>)
    requires n <= |es| < |ss|
    ensures ks != []
  {
    if n == 0 then [ss[0].kern]
    else Dispatched(ss, es, n - 1) + if es[n - 1].Local? then [] else [ss[n].kern]
  }

  /** The frame of a system call or a clock interrupt. */
  function FrameOf(c: Config, s: Sys, e: Event): Frame<User>
    requires Pid(c, s.kern.current) && !e.Local? && (e.Call? ==> IsCall(s.cpu.pc))
  {
    if e.Call? then CallFrame(c, s.kern.current, s.cpu) else Frame(s.cpu, INT_CLOCK, 0)
  }

  lemma TrapOf(c: Config, s: Sys, e: Event, s': Sys) returns (ticks: seq<nat>)
    requires Step(c, s, e, s') && !e.Local?
    ensures Trap(s, FrameOf(c, s, e), ticks, s')
  {
    ticks := e.ticks;
  }

  /** Between dispatches nothing changes that a policy looks at. */
  lemma QuietTable(c: Config, s: Sys, e: Event, s': Sys)
    requires Step(c, s, e, s') && s.kern.current < |s.kern.procs|
    requires e.Call? ==> s.cpu.pc.Yield? || s.cpu.pc.SetLottery?
    ensures if e.Local? then SameTable(s.kern, s'.kern) && s'.running
            else SameTable(s.kern, Handle(s.kern, FrameOf(c, s, e)))
  {
  }

  lemma SameTableTransitive(a: Kern<User>, b: Kern<User>, d: Kern<User>)
    requires SameTable(a, b) && SameTable(b, d)
    ensures SameTable(a, d)
  {
  }

  // ----- Policy 3 -----

  lemma ShareTrap(k: Kern<User>, s: Sys, f: Frame<User>, ticks: seq<nat>, s': Sys)
    requires InTurn(k) && k.algorithm == 3 && k.current < |k.procs| && s.kern.current < |s.kern.procs|
    requires SameTable(k, Handle(s.kern, f)) && Trap(s, f, ticks, s')
    ensures s'.running && NextShare(k, s'.kern) && s'.kern.algorithm == 3
  {
    var h := Handle(s.kern, f);
    assert Wants(h.procs, h.current);
    assert s'.running;
    assert IsShareTurn(h, s'.kern, s'.kern.current);
  }

  lemma RunExtends(ks: seq<Kern<User>>, ws: seq<nat>, k: Kern<User>)
    requires ShareRun(ks, ws) && NextShare(ks[|ks| - 1], k)
    ensures ShareRun(ks + [k], ws)
  {
    hide NextShare;
    var ks' := ks + [k];
    forall t | 0 < t < |ks'| ensures NextShare(ks'[t - 1], ks'[t]) {
      if t < |ks| {
        assert NextShare(ks[t - 1], ks[t]);
      }
    }
  }

  /** The dispatches of any stretch of policy 3 in which nobody exits or calls for a priority or a
      share, starting inside a turn, go round the wheel of shares. */
  lemma {:induction false} StretchIsShareRun(c: Config, ss: seq<Sys>, es: seq<Event>, ws: seq<nat>, n: nat)
    requires Stretch(c, ss, es) && Quiet(ss, es) && n <= |es|
    requires ss[0].running && ss[0].kern.algorithm == 3 && InTurn(ss[0].kern) && Shares(ss[0].kern.procs, ws)
    ensures var ks := Dispatched(ss, es, n);
            && ShareRun(ks, ws) && SameTable(ks[|ks| - 1], ss[n].kern) && ss[n].running
            && ss[n].kern.algorithm == 3
  {
    hide ShareRun;
    hide Step;
    hide SameTable;
    hide Stretch;
    hide Dispatched;
    hide Shares;
    if n == 0 {
      ShareRunStarts(ss, es, ws);
    } else {
      StretchIsShareRun(c, ss, es, ws, n - 1);
      QuietStep(c, ss, es, n);
      ShareStretchStep(c, ss[n - 1], es[n - 1], ss[n], Dispatched(ss, es, n - 1), ws);
    }
  }

  lemma ShareRunStarts(ss: seq<Sys>, es: seq<Event>, ws: seq<nat>)
    requires |ss| == |es| + 1 && ss[0].kern.algorithm == 3 && InTurn(ss[0].kern) && Shares(ss[0].kern.procs, ws)
    ensures var ks := Dispatched(ss, es, 0);
            ShareRun(ks, ws) && SameTable(ks[|ks| - 1], ss[0].kern)
  {
  }

  lemma ShareStretchStep(c: Config, s: Sys, e: Event, s': Sys, ks: seq<Kern<User>>, ws: seq<nat>)
    requires Step(c, s, e, s') && (e.Call? ==> s.cpu.pc.Yield? || s.cpu.pc.SetLottery?)
    requires ShareRun(ks, ws) && SameTable(ks[|ks| - 1], s.kern) && s.kern.algorithm == 3
    ensures var ks' := ks + if e.Local? then [] else [s'.kern];
            && ShareRun(ks', ws) && SameTable(ks'[|ks'| - 1], s'.kern) && s'.running && s'.kern.algorithm == 3
  {
    var k := ks[|ks| - 1];
    ShareRunSlots(ks, ws, |ks| - 1);
    hide ShareRun;
    assert s.kern.current < |s.kern.procs|;
    QuietTable(c, s, e, s');
    if e.Local? {
      SameTableTransitive(k, s.kern, s'.kern);
      assert ks + [] == ks;
    } else {
      var f := FrameOf(c, s, e);
      var ticks := TrapOf(c, s, e, s');
      SameTableTransitive(k, s.kern, Handle(s.kern, f));
      hide Step;
      ShareTrap(k, s, f, ticks, s');
      hide NextShare;
      RunExtends(ks, ws, s'.kern);
    }
  }

  /** Proportional share on the machine: in any such stretch a process is dispatched its share of the
      times to within one turn, and exactly its share in a whole round of turns. */
  lemma StretchShares(c: Config, ss: seq<Sys>, es: seq<Event>, ws: seq<nat>, p: nat)
    requires Stretch(c, ss, es) && Quiet(ss, es) && p < |ws|
    requires ss[0].running && ss[0].kern.algorithm == 3 && InTurn(ss[0].kern) && Shares(ss[0].kern.procs, ws)
    ensures var ks, total, width := Dispatched(ss, es, |es|), Off(ws, |ws|), ws[p];
            && -((total - width) * width) <= total * Dispatches(ks, p) - |ks| * width <= (total - width) * width
            && (|ks| == total ==> Dispatches(ks, p) == width)
  {
    StretchIsShareRun(c, ss, es, ws, |es|);
    var ks := Dispatched(ss, es, |es|);
    hide ShareRun;
    ProportionalShare(ks, ws, p);
    if |ks| == Off(ws, |ws|) {
      ExactShare(ks, ws, p);
    }
  }

  // ----- Policies 0, 1 and 2 -----

  lemma PickTrap(k: Kern<User>, s: Sys, f: Frame<User>, ticks: seq<nat>, s': Sys)
    requires Best(k, k.current) && 0 <= k.algorithm <= 2 && s.kern.current < |s.kern.procs|
    requires SameTable(k, Handle(s.kern, f)) && Trap(s, f, ticks, s')
    ensures s'.running && NextPick(k, s'.kern) && s'.kern.algorithm == k.algorithm
  {
    var h := Handle(s.kern, f);
    assert Runs(h.procs, h.current);
    assert s'.running;
    assert IsPick(h, s'.kern.current) && s'.kern == h.(current := s'.kern.current);
  }

  lemma PickRunExtends(ks: seq<Kern<User>>, ws: seq<nat>, k: Kern<User>)
    requires PickRun(ks, ws) && NextPick(ks[|ks| - 1], k)
    ensures PickRun(ks + [k], ws)
  {
    hide NextPick;
    var ks' := ks + [k];
    forall t | 0 < t < |ks'| ensures NextPick(ks'[t - 1], ks'[t]) {
      if t < |ks| {
        assert NextPick(ks[t - 1], ks[t]);
      }
    }
  }

  /** The dispatches of any such stretch of policies 0 to 2 rotate through the best processes. */
  lemma {:induction false} StretchIsPickRun(c: Config, ss: seq<Sys>, es: seq<Event>, ws: seq<nat>, n: nat)
    requires Stretch(c, ss, es) && Quiet(ss, es) && n <= |es|
    requires ss[0].running && 0 <= ss[0].kern.algorithm <= 2
    requires Best(ss[0].kern, ss[0].kern.current) && BestOnes(ss[0].kern, ws)
    ensures var ks := Dispatched(ss, es, n);
            && PickRun(ks, ws) && SameTable(ks[|ks| - 1], ss[n].kern) && ss[n].running
            && ss[n].kern.algorithm == ss[0].kern.algorithm
  {
    hide PickRun;
    hide Step;
    hide SameTable;
    hide Best;
    hide BestOnes;
    hide Stretch;
    hide Dispatched;
    if n == 0 {
      PickRunStarts(ss, es, ws);
    } else {
      StretchIsPickRun(c, ss, es, ws, n - 1);
      QuietStep(c, ss, es, n);
      PickStretchStep(c, ss[n - 1], es[n - 1], ss[n], Dispatched(ss, es, n - 1), ws);
    }
  }

  lemma PickRunStarts(ss: seq<Sys>, es: seq<Event>, ws: seq<nat>)
    requires |ss| == |es| + 1 && Best(ss[0].kern, ss[0].kern.current) && BestOnes(ss[0].kern, ws)
    ensures var ks := Dispatched(ss, es, 0);
            PickRun(ks, ws) && SameTable(ks[|ks| - 1], ss[0].kern)
  {
  }

  lemma QuietStep(c: Config, ss: seq<Sys>, es: seq<Event>, n: nat)
    requires Stretch(c, ss, es) && Quiet(ss, es) && 0 < n <= |es|
    ensures |ss| == |es| + 1 && Step(c, ss[n - 1], es[n - 1], ss[n])
    ensures es[n - 1].Call? ==> ss[n - 1].cpu.pc.Yield? || ss[n - 1].cpu.pc.SetLottery?
    ensures Dispatched(ss, es, n) == Dispatched(ss, es, n - 1) + if es[n - 1].Local? then [] else [ss[n].kern]
  {
  }

  lemma PickStretchStep(c: Config, s: Sys, e: Event, s': Sys, ks: seq<Kern<User>>, ws: seq<nat>)
    requires Step(c, s, e, s') && (e.Call? ==> s.cpu.pc.Yield? || s.cpu.pc.SetLottery?)
    requires PickRun(ks, ws) && SameTable(ks[|ks| - 1], s.kern) && 0 <= s.kern.algorithm <= 2
    ensures var ks' := ks + if e.Local? then [] else [s'.kern];
            && PickRun(ks', ws) && SameTable(ks'[|ks'| - 1], s'.kern)
            && s'.running && s'.kern.algorithm == s.kern.algorithm
  {
    var k := ks[|ks| - 1];
    PickRunSlots(ks, ws, |ks| - 1);
    CurrentInTable(k, s);
    hide PickRun;
    hide Best;
    hide BestOnes;
    QuietTable(c, s, e, s');
    if e.Local? {
      SameTableTransitive(k, s.kern, s'.kern);
      assert ks + [] == ks;
    } else {
      var f := FrameOf(c, s, e);
      var ticks := TrapOf(c, s, e, s');
      SameTableTransitive(k, s.kern, Handle(s.kern, f));
      hide Step;
      PickTrap(k, s, f, ticks, s');
      hide NextPick;
      PickRunExtends(ks, ws, s'.kern);
    }
  }

  lemma CurrentInTable(k: Kern<User>, s: Sys)
    requires Best(k, k.current) && SameTable(k, s.kern)
    ensures s.kern.current < |s.kern.procs| && k.algorithm == s.kern.algorithm
  {
  }

  /** Rotation on the machine: as many dispatches as there are best processes run each exactly once. */
  lemma StretchRotates(c: Config, ss: seq<Sys>, es: seq<Event>, ws: seq<nat>, p: nat)
    requires Stretch(c, ss, es) && Quiet(ss, es) && p < |ws|
    requires ss[0].running && 0 <= ss[0].kern.algorithm <= 2
    requires Best(ss[0].kern, ss[0].kern.current) && BestOnes(ss[0].kern, ws)
    requires |Dispatched(ss, es, |es|)| == Off(ws, |ws|)
    ensures Dispatches(Dispatched(ss, es, |es|), p) == if Best(ss[0].kern, p) then 1 else 0
  {
    StretchIsPickRun(c, ss, es, ws, |es|);
    FirstDispatched(ss, es, |es|);
    var ks := Dispatched(ss, es, |es|);
    hide PickRun;
    RotationIsPermutation(ks, ws, p);
  }

  lemma {:induction false} FirstDispatched(ss: seq<Sys>, es: seq<Event>, n: nat)
    requires n <= |es| < |ss|
    ensures Dispatched(ss, es, n)[0] == ss[0].kern
  {
    if n > 0 {
      FirstDispatched(ss, es, n - 1);
    }
  }

  // ----- Bounded waiting -----

  /** What `schedule` finds at an interrupt. */
  function FoundAt(c: Config, s: Sys, e: Event): Kern<User> {
    if Pid(c, s.kern.current) && s.kern.current < |s.kern.procs| && !e.Local? && (e.Call? ==> IsCall(s.cpu.pc)) then
      Handle(s.kern, FrameOf(c, s, e))
    else s.kern
  }

  /** What it finds at each interrupt up to time `n`. */
  function Found(c: Config, ss: seq<Sys>, es: seq<Event>, n: nat): seq<Kern<User>>
    requires n <= |es| < |ss|
  {
    if n == 0 then []
    else Found(c, ss, es, n - 1) + if es[n - 1].Local? then [] else [FoundAt(c, ss[n - 1], es[n - 1])]
  }

  /** Whom it runs. */
  function Ran(ss: seq<Sys>, es: seq<Event>, n: nat): seq<nat>
    requires n <= |es| < |ss|
  {
    if n == 0 then [] else Ran(ss, es, n - 1) + if es[n - 1].Local? then [] else [ss[n].kern.current]
  }

  /** Whatever the others do, `schedule` always finds `q` among the best. */
  ghost predicate StaysBest(c: Config, ss: seq<Sys>, es: seq<Event>, q: nat) {
    && |ss| == |es| + 1
    && forall i | 0 <= i < |es| && !es[i].Local? :: Best(FoundAt(c, ss[i], es[i]), q)
  }

  lemma WaitingTrap(c: Config, s: Sys, e: Event, s': Sys, q: nat)
    requires Step(c, s, e, s') && 0 <= s.kern.algorithm <= 2 && s.kern.current < |s.kern.procs|
    requires !e.Local? ==> Best(FoundAt(c, s, e), q)
    ensures s'.running && s'.kern.algorithm == s.kern.algorithm && |s'.kern.procs| == |s.kern.procs|
    ensures s'.kern.current < |s'.kern.procs|
    ensures e.Local? ==> s'.kern.current == s.kern.current
    ensures !e.Local? ==> var h := FoundAt(c, s, e);
                          h.current == s.kern.current && |h.procs| == |s.kern.procs| && IsPick(h, s'.kern.current)
  {
  }

  lemma WaitingExtends(hs: seq<Kern<User>>, ps: seq<nat>, q: nat, h: Kern<User>, p: nat)
    requires WaitingRun(hs, ps, q) && IsPick(h, p) && Best(h, q) && h.current < |h.procs|
    requires hs != [] ==> |h.procs| == |hs[0].procs| && h.current == ps[|ps| - 1]
    ensures WaitingRun(hs + [h], ps + [p], q)
  {
    hide Best;
    hide IsPick;
  }

  /** The interrupts of any stretch of policies 0 to 2, whatever the processes do, are a waiting run for
      a process that stays among the best. */
  lemma {:induction false} StretchIsWaitingRun(c: Config, ss: seq<Sys>, es: seq<Event>, q: nat, n: nat)
    requires Stretch(c, ss, es) && StaysBest(c, ss, es, q) && n <= |es|
    requires ss[0].running && 0 <= ss[0].kern.algorithm <= 2 && ss[0].kern.current < |ss[0].kern.procs|
    ensures LedTo(ss[0].kern, ss[n], Found(c, ss, es, n), Ran(ss, es, n), q)
  {
    if n > 0 {
      StretchIsWaitingRun(c, ss, es, q, n - 1);
      var s, e, s' := ss[n - 1], es[n - 1], ss[n];
      assert Step(c, ss[n - 1], es[n - 1], ss[n]);
      assert !e.Local? ==> Best(FoundAt(c, s, e), q);
      hide Step;
      hide FoundAt;
      hide Best;
      hide WaitingRun;
      hide StaysBest;
      WaitingStretchStep(c, ss[0].kern, s, e, s', Found(c, ss, es, n - 1), Ran(ss, es, n - 1), q);
    }
  }

  /** The interrupts so far, from table `k` on, have led to the present state. */
  ghost predicate LedTo(k: Kern<User>, s: Sys, hs: seq<Kern<User>>, ps: seq<nat>, q: nat) {
    && WaitingRun(hs, ps, q) && s.running && s.kern.algorithm == k.algorithm
    && |s.kern.procs| == |k.procs| && s.kern.current < |s.kern.procs|
    && (if hs == [] then s.kern.current == k.current
        else |hs[0].procs| == |k.procs| && ps[|ps| - 1] == s.kern.current && hs[0].current == k.current)
  }

  lemma WaitingStretchStep(c: Config, k: Kern<User>, s: Sys, e: Event, s': Sys,
                           hs: seq<Kern<User>>, ps: seq<nat>, q: nat)
    requires Step(c, s, e, s') && 0 <= k.algorithm <= 2 && (!e.Local? ==> Best(FoundAt(c, s, e), q))
    requires LedTo(k, s, hs, ps, q)
    ensures LedTo(k, s', hs + if e.Local? then [] else [FoundAt(c, s, e)],
                  ps + if e.Local? then [] else [s'.kern.current], q)
  {
    WaitingTrap(c, s, e, s', q);
    hide Step;
    hide FoundAt;
    hide Best;
    hide IsPick;
    if e.Local? {
      assert hs + [] == hs && ps + [] == ps;
    } else {
      var h := FoundAt(c, s, e);
      WaitingExtends(hs, ps, q, h, s'.kern.current);
      hide WaitingRun;
      assert (hs + [h])[0] == if hs == [] then h else hs[0];
    }
  }

  /** Bounded waiting on the machine: it runs before its cyclic distance is used up. */
  lemma StretchWaits(c: Config, ss: seq<Sys>, es: seq<Event>, q: nat)
    requires Stretch(c, ss, es) && StaysBest(c, ss, es, q)
    requires ss[0].running && 0 <= ss[0].kern.algorithm <= 2 && ss[0].kern.current < |ss[0].kern.procs|
    requires |Ran(ss, es, |es|)| > Dist(|ss[0].kern.procs|, ss[0].kern.current, q) >= 0
    ensures q in Ran(ss, es, |es|)[..Dist(|ss[0].kern.procs|, ss[0].kern.current, q) + 1]
  {
    StretchIsWaitingRun(c, ss, es, q, |es|);
    BoundedWaiting(Found(c, ss, es, |es|), Ran(ss, es, |es|), q);
  }
}
