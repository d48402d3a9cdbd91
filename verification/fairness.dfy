/** Fairness over runs of dispatches: policy 3 gives every process its share, policies 0 to 2
    rotate through the best processes, and nobody eligible waits more than one round. */
module Fairness {
  import opened KernelTypes
  import opened Scheduling
  import opened Rotor

  /** Between two dispatches nothing policy-relevant changed: no process exited or called
      `sys_set_priority` or `sys_set_share`.  Registers, lottery tickets and shared memory may
      have changed. */
  ghost predicate SameTable<R>(k: Kern<R>, h: Kern<R>) {
    && |h.procs| == |k.procs| && h.current == k.current && h.algorithm == k.algorithm
    && forall q | 0 <= q < |k.procs| ::
         && h.procs[q].state == k.procs[q].state && h.procs[q].share == k.procs[q].share
         && h.procs[q].numTimes == k.procs[q].numTimes && h.procs[q].priority == k.procs[q].priority
  }

  // ----- Proportional share -----

  function ShareWeight<R>(d: Descriptor<R>): nat {
    if d.state.Runnable? && 0 <= d.share then d.share + 1 else 0
  }

  /** `ws` lists the dispatches each process has in one round of turns. */
  ghost predicate Shares<R>(procs: seq<Descriptor<R>>, ws: seq<nat>) {
    |ws| == |procs| && forall q | 0 <= q < |procs| :: ws[q] == ShareWeight(procs[q])
  }

  /** The current process is somewhere inside its turn and nobody else has started one. */
  ghost predicate InTurn<R>(k: Kern<R>) {
    && Wants(k.procs, k.current)
    && 1 <= k.procs[k.current].numTimes <= k.procs[k.current].share + 1
    && forall q | Runs(k.procs, q) && q != k.current :: k.procs[q].numTimes == 0
  }

  ghost predicate NextShare<R(!new)>(k: Kern<R>, k': Kern<R>) {
    exists h: Kern<R> :: SameTable(k, h) && IsShareTurn(h, k', k'.current)
  }

  function ShareSlot<R>(k: Kern<R>, ws: seq<nat>): int
    requires k.current < |k.procs| == |ws|
  {
    Off(ws, k.current) + k.procs[k.current].numTimes - 1
  }

  /** The nearest nonempty block after `cur` starts where block `cur` ends. */
  lemma NextBlock(ws: seq<nat>, cur: nat, p: nat)
    requires cur < |ws| && p < |ws| && ws[p] > 0
    requires forall q | 0 <= q < |ws| && ws[q] > 0 :: Dist(|ws|, cur, p) <= Dist(|ws|, cur, q)
    ensures if p > cur then Off(ws, p) == Off(ws, cur) + ws[cur]
            else Off(ws, p) == 0 && Off(ws, cur) + ws[cur] == Off(ws, |ws|)
  {
    if p > cur {
      OffMonotone(ws, cur + 1, p);
    } else {
      OffMonotone(ws, 0, p);
      OffMonotone(ws, cur + 1, |ws|);
    }
  }

  /** A dispatch of policy 3 keeps everyone's share and leaves the new process in its turn. */
  lemma ShareTurnKeeps<R>(k: Kern<R>, h: Kern<R>, k': Kern<R>, ws: seq<nat>)
    requires InTurn(k) && Shares(k.procs, ws) && SameTable(k, h) && IsShareTurn(h, k', k'.current)
    ensures InTurn(k') && Shares(k'.procs, ws) && k'.algorithm == k.algorithm && h.current < |h.procs|
    ensures forall q | 0 <= q < |ws| :: ws[q] > 0 <==> Wants(h.procs, q)
  {
    var reset := ResetCurrent(h);
    assert forall q | 0 <= q < |ws| && q != k'.current :: k'.procs[q] == if Continues(h) then h.procs[q] else reset[q];
  }

  /** Each dispatch of policy 3 moves one slot on round the wheel of shares. */
  lemma ShareAdvances<R(!new)>(k: Kern<R>, k': Kern<R>, ws: seq<nat>)
    requires InTurn(k) && Shares(k.procs, ws) && NextShare(k, k')
    ensures InTurn(k') && Shares(k'.procs, ws)
    ensures 0 <= ShareSlot(k, ws) < Off(ws, |ws|)
    ensures ShareSlot(k', ws) == Advance(ShareSlot(k, ws), Off(ws, |ws|))
  {
    hide InTurn;
    hide Shares;
    hide SameTable;
    hide IsShareTurn;
    hide ShareSlot;
    hide Off;
    var h: Kern<R> :| SameTable(k, h) && IsShareTurn(h, k', k'.current);
    ShareTurnKeeps(k, h, k', ws);
    SlotFits(k, ws);
    SlotFits(k', ws);
    if Continues(h) {
      SlotGoesOn(k, h, k', ws);
    } else {
      SlotMovesOn(k, h, k', ws);
    }
  }

  lemma SlotFits<R>(k: Kern<R>, ws: seq<nat>)
    requires InTurn(k) && Shares(k.procs, ws)
    ensures k.current < |k.procs| == |ws| && 0 <= ShareSlot(k, ws) < Off(ws, |ws|)
  {
    BlockFits(ws, k.current);
  }

  /** Inside a turn the pointer moves on in the same block. */
  lemma SlotGoesOn<R>(k: Kern<R>, h: Kern<R>, k': Kern<R>, ws: seq<nat>)
    requires InTurn(k) && Shares(k.procs, ws) && SameTable(k, h) && IsShareTurn(h, k', k'.current)
    requires InTurn(k') && Shares(k'.procs, ws) && h.current < |h.procs| && Continues(h)
    ensures k.current < |ws| && k'.current < |k'.procs| == |ws| == |k.procs|
    ensures ShareSlot(k', ws) == ShareSlot(k, ws) + 1 == Advance(ShareSlot(k, ws), Off(ws, |ws|))
  {
    BlockFits(ws, k'.current);
  }

  /** At its end it moves to the beginning of the next block. */
  lemma SlotMovesOn<R>(k: Kern<R>, h: Kern<R>, k': Kern<R>, ws: seq<nat>)
    requires InTurn(k) && Shares(k.procs, ws) && SameTable(k, h) && IsShareTurn(h, k', k'.current)
    requires InTurn(k') && Shares(k'.procs, ws) && h.current < |h.procs| && !Continues(h)
    requires forall q | 0 <= q < |ws| :: ws[q] > 0 <==> Wants(h.procs, q)
    ensures k.current < |ws| && k'.current < |k'.procs| == |ws| == |k.procs|
    ensures ShareSlot(k', ws) == Advance(ShareSlot(k, ws), Off(ws, |ws|))
  {
    BlockFits(ws, k'.current);
    NextBlock(ws, k.current, k'.current);
  }

  ghost predicate ShareRun<R(!new)>(ks: seq<Kern<R>>, ws: seq<nat>) {
    && |ks| > 0 && InTurn(ks[0]) && Shares(ks[0].procs, ws)
    && forall t | 0 < t < |ks| :: NextShare(ks[t - 1], ks[t])
  }

  /** How often process `p` is dispatched in the run. */
  function Dispatches<R>(ks: seq<Kern<R>>, p: nat): nat {
    if ks == [] then 0 else Dispatches(ks[..|ks| - 1], p) + if ks[|ks| - 1].current == p then 1 else 0
  }

  lemma {:induction false} ShareRunSlots<R(!new)>(ks: seq<Kern<R>>, ws: seq<nat>, t: nat)
    requires ShareRun(ks, ws) && t < |ks|
    ensures InTurn(ks[t]) && Shares(ks[t].procs, ws)
    ensures 0 <= ShareSlot(ks[0], ws) < Off(ws, |ws|)
    ensures ShareSlot(ks[t], ws) == Wheel(ShareSlot(ks[0], ws), t, Off(ws, |ws|))
  {
    BlockFits(ws, ks[0].current);
    if t > 0 {
      ShareRunSlots(ks, ws, t - 1);
      ShareAdvances(ks[t - 1], ks[t], ws);
    }
  }

  lemma {:induction false} DispatchesAreHits<R(!new)>(ks: seq<Kern<R>>, ws: seq<nat>, p: nat, m: nat)
    requires ShareRun(ks, ws) && p < |ws| && m <= |ks|
    requires 0 <= ShareSlot(ks[0], ws) < Off(ws, |ws|)
    ensures Dispatches(ks[..m], p) == Hits(ShareSlot(ks[0], ws), m, Off(ws, |ws|), Off(ws, p), ws[p])
  {
    hide NextShare;
    if m > 0 {
      DispatchesAreHits(ks, ws, p, m - 1);
      assert ks[..m][..m - 1] == ks[..m - 1];
      ShareRunSlots(ks, ws, m - 1);
      OneBlock(ws, ks[m - 1].current, p, ShareSlot(ks[m - 1], ws));
    }
  }

  /** Proportional share: while the runnable set and the shares stay fixed, in any stretch of
      dispatches the count of a process is within `width * (1 - width/total)`, hence within one
      turn, of its part `width / total` of them. */
  lemma ProportionalShare<R(!new)>(ks: seq<Kern<R>>, ws: seq<nat>, p: nat)
    requires ShareRun(ks, ws) && p < |ws|
    ensures var total, width := Off(ws, |ws|), ws[p];
            && total > 0
            && -((total - width) * width) <= total * Dispatches(ks, p) - |ks| * width <= (total - width) * width
  {
    hide NextShare;
    ShareRunSlots(ks, ws, 0);
    DispatchesAreHits(ks, ws, p, |ks|);
    assert ks[..|ks|] == ks;
    BlockFits(ws, p);
    HitsNearShare(ShareSlot(ks[0], ws), |ks|, Off(ws, |ws|), Off(ws, p), ws[p]);
  }

  /** Any stretch as long as the shares add up to gives every process exactly its share. */
  lemma ExactShare<R(!new)>(ks: seq<Kern<R>>, ws: seq<nat>, p: nat)
    requires ShareRun(ks, ws) && p < |ws| && |ks| == Off(ws, |ws|)
    ensures Dispatches(ks, p) == ws[p]
  {
    ShareRunSlots(ks, ws, 0);
    DispatchesAreHits(ks, ws, p, |ks|);
    assert ks[..|ks|] == ks;
    BlockFits(ws, p);
    HitsFullTurn(ShareSlot(ks[0], ws), |ks|, Off(ws, p), ws[p]);
  }

  /** Inside a turn the count goes up by one; at its end a new turn starts at one. */
  lemma TurnStep<R(!new)>(k: Kern<R>, k': Kern<R>, ws: seq<nat>)
    requires InTurn(k) && Shares(k.procs, ws) && NextShare(k, k')
    ensures var p, p' := k.current, k'.current;
            && p < |ws| && p' < |k'.procs| == |ws|
            && if k.procs[p].numTimes < ws[p] then p' == p && k'.procs[p].numTimes == k.procs[p].numTimes + 1
               else StartsTurn(k', ws, p)
  {
  }

  /** The current process has just started a turn and is the first with a share after `last`. */
  ghost predicate StartsTurn<R>(k: Kern<R>, ws: seq<nat>, last: nat) {
    && k.current < |ws| == |k.procs|
    && ws[k.current] > 0 && k.procs[k.current].numTimes == 1
    && forall q | 0 <= q < |ws| && ws[q] > 0 :: Dist(|ws|, last, k.current) <= Dist(|ws|, last, q)
  }

  /** A turn that starts at dispatch `t` is `share + 1` dispatches long, and the next one starts
      with the first process after it that has a share. */
  lemma {:induction false} TurnLength<R(!new)>(ks: seq<Kern<R>>, ws: seq<nat>, t: nat, j: nat)
    requires ShareRun(ks, ws) && t + j < |ks|
    requires ks[t].current < |ws| == |ks[t].procs| && ks[t].procs[ks[t].current].numTimes == 1
    requires j <= ws[ks[t].current]
    ensures var p, k := ks[t].current, ks[t + j];
            && k.current < |k.procs| == |ws|
            && (j < ws[p] ==> k.current == p && k.procs[p].numTimes == j + 1)
            && (j == ws[p] ==> StartsTurn(k, ws, p))
  {
    hide NextShare;
    if j > 0 {
      TurnLength(ks, ws, t, j - 1);
      ShareRunSlots(ks, ws, t + j - 1);
      TurnStep(ks[t + j - 1], ks[t + j], ws);
    } else {
      ShareRunSlots(ks, ws, t);
      assert ws[ks[t].current] > 0;
    }
  }

  // ----- Rotation of policies 0, 1 and 2 -----

  ghost predicate NextPick<R(!new)>(k: Kern<R>, k': Kern<R>) {
    exists h: Kern<R> :: SameTable(k, h) && IsPick(h, k'.current) && k' == h.(current := k'.current)
  }

  /** `ws` marks the processes policies 0 to 2 choose among. */
  ghost predicate BestOnes<R>(k: Kern<R>, ws: seq<nat>) {
    |ws| == |k.procs| && forall q | 0 <= q < |ws| :: ws[q] == if Best(k, q) then 1 else 0
  }

  ghost predicate PickRun<R(!new)>(ks: seq<Kern<R>>, ws: seq<nat>) {
    && |ks| > 0 && Best(ks[0], ks[0].current) && BestOnes(ks[0], ws)
    && forall t | 0 < t < |ks| :: NextPick(ks[t - 1], ks[t])
  }

  /** The best processes depend only on what `SameTable` compares. */
  lemma SameBest<R>(k: Kern<R>, h: Kern<R>, cur: nat, q: int)
    requires SameTable(k, h)
    ensures Best(h.(current := cur), q) <==> Best(k, q)
  {
    var h' := h.(current := cur);
    assert forall r :: Runs(h'.procs, r) <==> Runs(k.procs, r);
    assert forall r | 0 <= r < |k.procs| :: Key(h', r) == Key(k, r);
  }

  /** Each dispatch of policies 0 to 2 moves to the next of the best processes. */
  lemma PickAdvances<R(!new)>(k: Kern<R>, k': Kern<R>, ws: seq<nat>)
    requires Best(k, k.current) && BestOnes(k, ws) && NextPick(k, k')
    ensures Best(k', k'.current) && BestOnes(k', ws)
    ensures 0 <= Off(ws, k.current) < Off(ws, |ws|)
    ensures k'.current < |ws| && Off(ws, k'.current) == Advance(Off(ws, k.current), Off(ws, |ws|))
  {
    var h: Kern<R> :| SameTable(k, h) && IsPick(h, k'.current) && k' == h.(current := k'.current);
    assert h == h.(current := k.current);
    forall q ensures (Best(h, q) <==> Best(k, q)) && (Best(k', q) <==> Best(k, q)) {
      SameBest(k, h, k.current, q);
      SameBest(k, h, k'.current, q);
    }
    BlockFits(ws, k.current);
    BlockFits(ws, k'.current);
    NextBlock(ws, k.current, k'.current);
  }

  lemma {:induction false} PickRunSlots<R(!new)>(ks: seq<Kern<R>>, ws: seq<nat>, t: nat)
    requires PickRun(ks, ws) && t < |ks|
    ensures Best(ks[t], ks[t].current) && BestOnes(ks[t], ws)
    ensures Off(ws, ks[0].current) < Off(ws, |ws|)
    ensures Off(ws, ks[t].current) == Wheel(Off(ws, ks[0].current), t, Off(ws, |ws|))
  {
    BlockFits(ws, ks[0].current);
    if t > 0 {
      PickRunSlots(ks, ws, t - 1);
      PickAdvances(ks[t - 1], ks[t], ws);
    }
  }

  lemma {:induction false} PicksAreHits<R(!new)>(ks: seq<Kern<R>>, ws: seq<nat>, p: nat, m: nat)
    requires PickRun(ks, ws) && p < |ws| && m <= |ks|
    requires Off(ws, ks[0].current) < Off(ws, |ws|)
    ensures Dispatches(ks[..m], p) == Hits(Off(ws, ks[0].current), m, Off(ws, |ws|), Off(ws, p), ws[p])
  {
    hide PickRun;
    hide NextPick;
    hide Off;
    hide Wheel;
    if m > 0 {
      PicksAreHits(ks, ws, p, m - 1);
      assert ks[..m][..m - 1] == ks[..m - 1];
      PickRunSlots(ks, ws, m - 1);
      OneBlock(ws, ks[m - 1].current, p, Off(ws, ks[m - 1].current));
    }
  }

  /** Any stretch of as many dispatches as there are best processes runs each of them exactly once
      and nobody else: every runnable process under policy 0, the top priority class under
      policy 2. */
  lemma RotationIsPermutation<R(!new)>(ks: seq<Kern<R>>, ws: seq<nat>, p: nat)
    requires PickRun(ks, ws) && p < |ws| && |ks| == Off(ws, |ws|)
    ensures Dispatches(ks, p) == if Best(ks[0], p) then 1 else 0
  {
    PickRunSlots(ks, ws, 0);
    PicksAreHits(ks, ws, p, |ks|);
    assert ks[..|ks|] == ks;
    BlockFits(ws, p);
    HitsFullTurn(Off(ws, ks[0].current), |ks|, Off(ws, p), ws[p]);
  }

  // ----- Bounded waiting -----

  /** Passing over an eligible process brings the rotation strictly closer to it. */
  lemma WaitingShrinks<R>(k: Kern<R>, p: nat, q: nat)
    requires k.current < |k.procs| && IsPick(k, p) && Best(k, q) && p != q
    ensures 0 <= Dist(|k.procs|, p, q) < Dist(|k.procs|, k.current, q) < |k.procs|
  {
  }

  /** `hs[t]` is what `schedule` finds and `ps[t]` whom it runs; between dispatches other
      processes may exit, change priority or do anything else. */
  ghost predicate WaitingRun<R>(hs: seq<Kern<R>>, ps: seq<nat>, q: nat) {
    && |hs| == |ps|
    && forall t | 0 <= t < |hs| ::
         && hs[t].current < |hs[t].procs| == |hs[0].procs|
         && IsPick(hs[t], ps[t]) && Best(hs[t], q)
         && (t > 0 ==> hs[t].current == ps[t - 1])
  }

  /** A process that stays eligible runs within one round of the table, whatever the others do. */
  lemma {:induction false} BoundedWaiting<R>(hs: seq<Kern<R>>, ps: seq<nat>, q: nat)
    requires WaitingRun(hs, ps, q) && |hs| > 0
    requires |hs| > Dist(|hs[0].procs|, hs[0].current, q)
    ensures q in ps[..Dist(|hs[0].procs|, hs[0].current, q) + 1]
    decreases |hs|
  {
    var n := |hs[0].procs|;
    var d := Dist(n, hs[0].current, q);
    if ps[0] == q {
      assert ps[..d + 1][0] == q;
    } else {
      WaitingShrinks(hs[0], ps[0], q);
      var hs', ps' := hs[1..], ps[1..];
      assert hs[1].current == ps[0] && |hs[1].procs| == n;
      assert WaitingRun(hs', ps', q) by {
        forall t | 0 <= t < |hs'|
          ensures hs'[t] == hs[t + 1] && ps'[t] == ps[t + 1] && (t > 0 ==> ps'[t - 1] == ps[t])
        {
        }
      }
      BoundedWaiting(hs', ps', q);
      var d' := Dist(n, ps[0], q);
      var j :| 0 <= j < d' + 1 && ps'[j] == q;
      assert ps[..d + 1][j + 1] == q;
    }
  }

  // ----- Policies that agree -----

  /** With all runnable priorities equal, policy 2 chooses as policy 0 does. */
  lemma EqualPrioritiesAreRoundRobin<R>(k: Kern<R>, p: nat)
    requires k.algorithm == 2
    requires forall a, b | Runs(k.procs, a) && Runs(k.procs, b) :: k.procs[a].priority == k.procs[b].priority
    ensures IsPick(k, p) <==> IsPick(k.(algorithm := 0), p)
  {
  }

  /** With priorities increasing in the pid, policy 2 chooses as policy 1 does. */
  lemma IncreasingPrioritiesAreLowestPid<R>(k: Kern<R>, p: nat)
    requires k.algorithm == 2
    requires forall a, b | Runs(k.procs, a) && Runs(k.procs, b) && a < b :: k.procs[a].priority < k.procs[b].priority
    ensures IsPick(k, p) <==> IsPick(k.(algorithm := 1), p)
  {
  }

  /** With all shares zero and the current process's one dispatch counted, policy 3 chooses as
      policy 0 does, and the same holds again afterwards. */
  lemma ZeroSharesAreRoundRobin<R>(k: Kern<R>, k': Kern<R>, p: nat)
    requires k.algorithm == 3 && ShareInv(k) && k.current < |k.procs|
    requires forall q | Runs(k.procs, q) :: k.procs[q].share == 0
    requires Runs(k.procs, k.current) ==> k.procs[k.current].numTimes == 1
    requires IsShareTurn(k, k', p)
    ensures IsPick(k.(algorithm := 0), p) && k'.current == p
    ensures ShareInv(k') && Runs(k'.procs, p) && k'.procs[p].numTimes == 1
    ensures forall q | Runs(k'.procs, q) :: k'.procs[q].share == 0
  {
  }
}
