/** What each scheduling policy chooses, stated without its loops; that the choice exists and is
    unique; and when the scanning loops of `schedule` spin forever. */
module Scheduling {
  import opened KernelTypes

  /** How many table slots lie strictly between `from` and `p`, walking upwards and wrapping
      at `n`.  The slot `from` itself comes last. */
  function Dist(n: nat, from: int, p: int): int {
    if p > from then p - from - 1 else p - from - 1 + n
  }

  /** What policies 0, 1 and 2 minimise: nothing, the pid, the priority number. */
  function Key<R>(k: Kern<R>, p: int): int
    requires 0 <= p < |k.procs|
  {
    if k.algorithm == 0 then 0 else if k.algorithm == 1 then p else k.procs[p].priority
  }

  ghost predicate Best<R>(k: Kern<R>, p: int) {
    Runs(k.procs, p) && forall q | Runs(k.procs, q) :: Key(k, p) <= Key(k, q)
  }

  /** Policies 0, 1 and 2: among the runnable processes with the least key, the first one
      after the current process in cyclic order. */
  ghost predicate IsPick<R>(k: Kern<R>, p: int) {
    && Best(k, p)
    && forall q | Best(k, q) :: Dist(|k.procs|, k.current, p) <= Dist(|k.procs|, k.current, q)
  }

  ghost predicate AnyRuns<R>(procs: seq<Descriptor<R>>) {
    exists q :: Runs(procs, q)
  }

  /** A process that policy 3 can ever choose afresh. */
  predicate Wants<R>(procs: seq<Descriptor<R>>, q: int) {
    Runs(procs, q) && 0 <= procs[q].share
  }

  ghost predicate AnyWants<R>(procs: seq<Descriptor<R>>) {
    exists q :: Wants(procs, q)
  }

  /** What policy 3 relies on: only the current process has a running count, and none beyond its
      turn of `share + 1`.  The other policies leave every count at zero. */
  ghost predicate ShareInv<R>(k: Kern<R>) {
    && (forall q | Runs(k.procs, q) && (q != k.current || k.algorithm != 3) :: k.procs[q].numTimes == 0)
    && (Runs(k.procs, k.current) ==>
          var d := k.procs[k.current]; d.numTimes == 0 || 0 < d.numTimes <= d.share + 1)
  }

  predicate Continues<R>(k: Kern<R>)
    requires k.current < |k.procs|
  {
    var d := k.procs[k.current];
    d.state.Runnable? && d.numTimes <= d.share
  }

  /** The current process's count after policy 3 has moved on from it. */
  function ResetCurrent<R>(k: Kern<R>): seq<Descriptor<R>>
    requires k.current < |k.procs|
  {
    var d := k.procs[k.current];
    if d.state.Runnable? then k.procs[k.current := d.(numTimes := 0)] else k.procs
  }

  /** Policy 3: the current process until its turn is used up, then the next process in cyclic
      order that has a share, whose count starts at one. */
  ghost predicate IsShareTurn<R>(k: Kern<R>, k': Kern<R>, p: int) {
    && k.current < |k.procs|
    && if Continues(k) then
      && p == k.current
      && k' == k.(procs := k.procs[p := k.procs[p].(numTimes := k.procs[p].numTimes + 1)])
    else
      && Wants(k.procs, p)
      && (forall q | Wants(k.procs, q) :: Dist(|k.procs|, k.current, p) <= Dist(|k.procs|, k.current, q))
      && k' == k.(procs := ResetCurrent(k)[p := k.procs[p].(numTimes := 1)], current := p)
  }

  /** The slot a 64-bit cycle count selects. */
  function Residue(n: nat, tick: nat): nat
    requires n > 0
  {
    (tick % 0x1_0000_0000) % n
  }

  /** Policy 4: the first cycle count whose residue is a runnable slot. */
  ghost predicate IsDraw<R>(k: Kern<R>, ticks: seq<nat>, p: int) {
    && |k.procs| > 0
    && Runs(k.procs, p)
    && exists j :: 0 <= j < |ticks| && Residue(|k.procs|, ticks[j]) == p &&
                   forall i | 0 <= i < j :: !Runs(k.procs, Residue(|k.procs|, ticks[i]))
  }

  /** `schedule()` called in `k`, where `ticks` are the successive cycle counts it may read,
      ends with outcome `o` in `k'`.  When its loop never ends, `k'` is what every round of the loop
      leaves behind. */
  ghost predicate Scheduled<R>(k: Kern<R>, ticks: seq<nat>, k': Kern<R>, o: Outcome) {
    match o
    case Run(p) =>
      if 0 <= k.algorithm <= 2 then IsPick(k, p) && k' == k.(current := p)
      else if k.algorithm == 3 then IsShareTurn(k, k', p)
      else k.algorithm == 4 && IsDraw(k, ticks, p) && k' == k.(current := p)
    case Spin =>
      && (k' == if k.algorithm == 3 && k.current < |k.procs| then k.(procs := ResetCurrent(k)) else k)
      && (0 <= k.algorithm <= 2 ==> !AnyRuns(k.procs))
      && (k.algorithm == 3 ==> !AnyWants(k.procs))
      && (k.algorithm == 4 ==>
            forall i | 0 <= i < |ticks| && |k.procs| > 0 :: !Runs(k.procs, Residue(|k.procs|, ticks[i])))
  }

  // ----- Existence and uniqueness -----

  lemma {:induction false} LeastExists<R>(k: Kern<R>, m: nat) returns (b: int)
    requires m <= |k.procs|
    requires exists q :: 0 <= q < m && Runs(k.procs, q)
    ensures 0 <= b < m && Runs(k.procs, b)
    ensures forall q | 0 <= q < m && Runs(k.procs, q) :: Key(k, b) <= Key(k, q)
  {
    if exists q :: 0 <= q < m - 1 && Runs(k.procs, q) {
      b := LeastExists(k, m - 1);
      if Runs(k.procs, m - 1) && Key(k, m - 1) < Key(k, b) {
        b := m - 1;
      }
    } else {
      b := m - 1;
    }
  }

  /** The eligible slot nearest after `from`, for any eligibility. */
  lemma {:induction false} NearestExists(n: nat, from: int, eligible: set<int>) returns (p: int)
    requires exists q :: q in eligible
    ensures p in eligible
    ensures forall q | q in eligible :: Dist(n, from, p) <= Dist(n, from, q)
  {
    p :| p in eligible;
    var rest := eligible - {p};
    if exists q :: q in rest {
      var p' := NearestExists(n, from, rest);
      if Dist(n, from, p') < Dist(n, from, p) {
        p := p';
      } else {
        assert forall q | q in eligible :: q == p || q in rest;
      }
    } else {
      assert forall q | q in eligible :: q == p || q in rest;
    }
  }

  /** Policies 0, 1 and 2 have a choice exactly when some process is runnable. */
  lemma PickExists<R>(k: Kern<R>)
    ensures AnyRuns(k.procs) <==> exists p :: IsPick(k, p)
  {
    if AnyRuns(k.procs) {
      var b := LeastExists(k, |k.procs|);
      assert Best(k, b);
      var eligible := set q | 0 <= q < |k.procs| && Best(k, q);
      assert b in eligible;
      var p := NearestExists(|k.procs|, k.current, eligible);
      assert forall q | Best(k, q) :: q in eligible;
      assert IsPick(k, p);
    }
    if p :| IsPick(k, p) {
      assert Runs(k.procs, p);
    }
  }

  lemma PickUnique<R>(k: Kern<R>, p: int, q: int)
    requires k.current < |k.procs|
    requires IsPick(k, p) && IsPick(k, q)
    ensures p == q
  {
  }

  /** Under its invariant policy 3 has a choice exactly when some process has a share. */
  lemma ShareTurnExists<R>(k: Kern<R>)
    requires k.current < |k.procs| && k.algorithm == 3 && ShareInv(k)
    ensures AnyWants(k.procs) <==> exists k', p :: IsShareTurn(k, k', p)
  {
    var n := |k.procs|;
    if AnyWants(k.procs) {
      if Continues(k) {
        var p := k.current;
        assert IsShareTurn(k, k.(procs := k.procs[p := k.procs[p].(numTimes := k.procs[p].numTimes + 1)]), p);
      } else {
        var eligible := set q | 0 <= q < n && Wants(k.procs, q);
        var w :| Wants(k.procs, w);
        assert w in eligible;
        var p := NearestExists(n, k.current, eligible);
        assert forall q | Wants(k.procs, q) :: q in eligible;
        assert IsShareTurn(k, k.(procs := ResetCurrent(k)[p := k.procs[p].(numTimes := 1)], current := p), p);
      }
    }
    if k', p :| IsShareTurn(k, k', p) {
      assert Wants(k.procs, p);
    }
  }

  /** Whatever the policy, a call of `schedule` has one result. */
  lemma ScheduledUnique<R>(k: Kern<R>, ticks: seq<nat>, k1: Kern<R>, o1: Outcome, k2: Kern<R>, o2: Outcome)
    requires k.current < |k.procs| && (k.algorithm == 3 ==> ShareInv(k))
    requires 0 <= k.algorithm <= 4
    requires Scheduled(k, ticks, k1, o1) && Scheduled(k, ticks, k2, o2)
    ensures k1 == k2 && o1 == o2
  {
    if o1.Run? && o2.Run? {
      if k.algorithm <= 2 {
        PickUnique(k, o1.pid, o2.pid);
      } else if k.algorithm == 3 {
        assert Dist(|k.procs|, k.current, o1.pid) == Dist(|k.procs|, k.current, o2.pid);
      } else {
        var n := |k.procs|;
        var i :| && 0 <= i < |ticks| && Residue(n, ticks[i]) == o1.pid
                 && forall h | 0 <= h < i :: !Runs(k.procs, Residue(n, ticks[h]));
        var j :| && 0 <= j < |ticks| && Residue(n, ticks[j]) == o2.pid
                 && forall h | 0 <= h < j :: !Runs(k.procs, Residue(n, ticks[h]));
        assert i == j;
      }
    }
  }

  /** A process that gets the processor is runnable, and `current` names it. */
  lemma ScheduledRuns<R>(k: Kern<R>, ticks: seq<nat>, k': Kern<R>, p: nat)
    requires WellFormed(k) && Scheduled(k, ticks, k', Run(p))
    ensures WellFormed(k') && k'.current == p && Runs(k'.procs, p) && |k'.procs| == |k.procs|
    ensures forall q | 0 <= q < |k.procs| :: k'.procs[q] == k.procs[q].(numTimes := k'.procs[q].numTimes)
    ensures k'.algorithm == k.algorithm && k'.mem == k.mem
  {
  }

  // ----- The scanning loops -----

  /** `pid` after `i` rounds of `pid = (pid + 1) % n`. */
  function After(n: nat, pid: nat, i: nat): nat
    requires n > 0
  {
    (pid + i) % n
  }

  lemma AfterStep(n: nat, pid: nat, i: nat)
    requires n > 0
    ensures After(n, pid, i + 1) == (After(n, pid, i) + 1) % n
  {
    var m := (pid + i) % n;
    assert pid + i == n * ((pid + i) / n) + m;
    if m + 1 < n {
      ModUnique(pid + i + 1, n, (pid + i) / n, m + 1);
      ModUnique(m + 1, n, 0, m + 1);
    } else {
      assert pid + i + 1 == n * ((pid + i) / n) + n == n * ((pid + i) / n + 1);
      ModUnique(pid + i + 1, n, (pid + i) / n + 1, 0);
      ModUnique(m + 1, n, 1, 0);
    }
  }

  lemma ModUnique(x: int, n: nat, q: int, r: int)
    requires n > 0 && x == n * q + r && 0 <= r < n
    ensures x % n == r && x / n == q
  {
    var q', r' := x / n, x % n;
    var e := q - q';
    assert n * e == n * q - n * q';
    if e >= 1 {
      MulMonotone(n, 1, e);
    } else if e <= -1 {
      MulMonotone(n, e, -1);
    }
  }

  lemma MulMonotone(n: nat, a: int, b: int)
    requires a <= b
    ensures n * a <= n * b
  {
  }

  /** The loop visits slot `p` for the first time `Dist + 1` rounds in. */
  lemma AfterDist(n: nat, from: nat, p: nat)
    requires from < n && p < n
    ensures After(n, from, Dist(n, from, p) + 1) == p
  {
    if p > from {
      ModUnique(p, n, 0, p);
    } else {
      ModUnique(p + n, n, 1, p);
    }
  }

  /** After `i` rounds, at most `n`, the loop stands on the slot at distance `i - 1`. */
  lemma DistAfter(n: nat, from: nat, i: nat)
    requires from < n && 1 <= i <= n
    ensures 0 <= After(n, from, i) < n && Dist(n, from, After(n, from, i)) == i - 1
  {
    if from + i < n {
      ModUnique(from + i, n, 0, from + i);
    } else {
      ModUnique(from + i, n, 1, from + i - n);
    }
  }

  /** The loop of policy 0 goes round forever exactly when no process is runnable. */
  lemma RoundRobinSpinsIff<R>(procs: seq<Descriptor<R>>, pid: nat)
    requires pid < |procs|
    ensures (forall i: nat | i >= 1 :: !Runs(procs, After(|procs|, pid, i))) <==> !AnyRuns(procs)
  {
    if q :| Runs(procs, q) {
      AfterDist(|procs|, pid, q);
      assert Runs(procs, After(|procs|, pid, Dist(|procs|, pid, q) + 1));
    }
  }

  /** The loops of policy 1, which start again at slot 0 after every round, go on forever exactly when
      no process is runnable. */
  lemma LowestPidSpinsIff<R>(procs: seq<Descriptor<R>>)
    requires procs != []
    ensures (forall i: nat :: !Runs(procs, After(|procs|, 0, i))) <==> !AnyRuns(procs)
  {
    if q: nat :| Runs(procs, q) {
      ModUnique(q, |procs|, 0, q);
      assert Runs(procs, After(|procs|, 0, q));
    }
  }

  /** The loop of policy 4 goes on whatever the cycle counter reads exactly when no process is
      runnable. */
  lemma RandomSpinsIff<R>(k: Kern<R>)
    requires k.procs != [] && |k.procs| <= 0x1_0000_0000 && k.algorithm == 4
    ensures (forall ticks: seq<nat> :: Scheduled(k, ticks, k, Spin)) <==> !AnyRuns(k.procs)
  {
    if q: nat :| Runs(k.procs, q) {
      ModUnique(q, 0x1_0000_0000, 0, q);
      ModUnique(q, |k.procs|, 0, q);
      assert Residue(|k.procs|, [q][0]) == q;
      assert !Scheduled(k, [q], k, Spin);
    }
  }

  /** What the first loop of policy 2 leaves in `most_priority`. */
  function MostPriority<R>(procs: seq<Descriptor<R>>): (r: int32)
    ensures forall q | Runs(procs, q) :: r <= procs[q].priority
    ensures AnyRuns(procs) ==> exists q :: Runs(procs, q) && procs[q].priority == r
    ensures !AnyRuns(procs) ==> r == INT_MAX
  {
    if procs == [] then INT_MAX
    else
      var last := |procs| - 1;
      var r := MostPriority(procs[..last]);
      assert procs[last].state.Runnable? ==> Runs(procs, last);
      assert forall q | Runs(procs[..last], q) :: Runs(procs, q) && procs[q] == procs[..last][q];
      assert forall q | Runs(procs, q) :: q == last || Runs(procs[..last], q);
      if procs[last].state.Runnable? && procs[last].priority < r then procs[last].priority else r
  }

  /** The inner loop of policy 2 goes round forever exactly when no process is runnable, even
      when every runnable process has priority `INT_MAX`. */
  lemma PrioritySpinsIff<R>(procs: seq<Descriptor<R>>, pid: nat)
    requires pid < |procs|
    ensures (forall i: nat | i >= 1 :: var q := After(|procs|, pid, i);
                                       !(Runs(procs, q) && procs[q].priority == MostPriority(procs)))
            <==> !AnyRuns(procs)
  {
    var m := MostPriority(procs);
    if AnyRuns(procs) {
      var q :| Runs(procs, q) && procs[q].priority == m;
      AfterDist(|procs|, pid, q);
      var i := Dist(|procs|, pid, q) + 1;
      assert After(|procs|, pid, i) == q;
    }
  }

  /** One round of the loop of policy 3: `Run` stops it, otherwise it goes on with new counts and
      the next slot. */
  datatype ShareRound<R> = Stop(procs: seq<Descriptor<R>>, pid: nat) | Next(procs: seq<Descriptor<R>>, pid: nat)

  function ShareStep<R>(procs: seq<Descriptor<R>>, pid: nat): ShareRound<R>
    requires pid < |procs|
  {
    var d := procs[pid];
    var next := (pid + 1) % |procs|;
    if d.state.Runnable? then
      if d.numTimes <= d.share then Stop(procs[pid := d.(numTimes := d.numTimes + 1)], pid)
      else Next(procs[pid := d.(numTimes := 0)], next)
    else Next(procs, next)
  }

  /** The loop of policy 3 after `fuel` rounds. */
  function ShareRounds<R>(procs: seq<Descriptor<R>>, pid: nat, fuel: nat): (r: ShareRound<R>)
    requires pid < |procs|
    ensures |r.procs| == |procs| && r.pid < |procs|
    decreases fuel
  {
    if fuel == 0 then Next(procs, pid)
    else
      match ShareStep(procs, pid)
      case Stop(procs', pid') => Stop(procs', pid')
      case Next(procs', pid') => ShareRounds(procs', pid', fuel - 1)
  }

  /** With no share left anywhere and no negative count, no number of rounds ends the loop. */
  lemma {:induction false} ShareNeverStops<R>(procs: seq<Descriptor<R>>, pid: nat, fuel: nat)
    requires pid < |procs| && !AnyWants(procs)
    requires forall q | Runs(procs, q) :: 0 <= procs[q].numTimes
    ensures ShareRounds(procs, pid, fuel).Next?
    decreases fuel
  {
    if fuel > 0 {
      assert !Wants(procs, pid);
      var s := ShareStep(procs, pid);
      assert forall q | Wants(s.procs, q) :: Wants(procs, q);
      ShareNeverStops(s.procs, s.pid, fuel - 1);
    }
  }

  /** From counts that are all zero the loop stops at the first slot with a share. */
  lemma {:induction false} ShareStopsAt<R>(procs: seq<Descriptor<R>>, pid: nat, w: nat, d: nat)
    requires pid < |procs| && Wants(procs, w)
    requires forall q | Runs(procs, q) :: procs[q].numTimes == 0
    requires After(|procs|, pid, d) == w
    ensures exists fuel: nat :: ShareRounds(procs, pid, fuel).Stop?
    decreases d
  {
    if Wants(procs, pid) {
      assert ShareRounds(procs, pid, 1).Stop?;
    } else {
      ModUnique(pid, |procs|, 0, pid);
      var s := ShareStep(procs, pid);
      assert s.procs == procs;
      AfterStep(|procs|, pid, 0);
      AfterShift(|procs|, pid, d);
      ShareStopsAt(procs, s.pid, w, d - 1);
      var fuel: nat :| ShareRounds(procs, s.pid, fuel).Stop?;
      assert ShareRounds(procs, pid, fuel + 1).Stop?;
    }
  }

  lemma AfterShift(n: nat, pid: nat, d: nat)
    requires n > 0 && d > 0
    ensures After(n, After(n, pid, 1), d - 1) == After(n, pid, d)
  {
    var a := (pid + 1) % n;
    var q := (a + d - 1) / n;
    assert a + d - 1 == n * q + (a + d - 1) % n;
    assert pid + 1 == n * ((pid + 1) / n) + a;
    assert pid + d == n * ((pid + 1) / n) + n * q + (a + d - 1) % n == n * ((pid + 1) / n + q) + (a + d - 1) % n;
    ModUnique(pid + d, n, (pid + 1) / n + q, (a + d - 1) % n);
  }

  /** The loop of policy 3 goes round forever exactly when no runnable process has a share of at
      least zero. */
  lemma ShareSpinsIff<R>(k: Kern<R>)
    requires k.current < |k.procs| && ShareInv(k)
    ensures (forall fuel: nat :: ShareRounds(k.procs, k.current, fuel).Next?) <==> !AnyWants(k.procs)
  {
    if AnyWants(k.procs) {
      if Continues(k) {
        assert ShareRounds(k.procs, k.current, 1).Stop?;
      } else {
        var s := ShareStep(k.procs, k.current);
        var w :| Wants(k.procs, w);
        assert Wants(s.procs, w);
        AfterDist(|k.procs|, s.pid, w);
        ShareStopsAt(s.procs, s.pid, w, Dist(|k.procs|, s.pid, w) + 1);
        var fuel: nat :| ShareRounds(s.procs, s.pid, fuel).Stop?;
        assert ShareRounds(k.procs, k.current, fuel + 1).Stop?;
      }
    } else {
      forall fuel: nat ensures ShareRounds(k.procs, k.current, fuel).Next? {
        ShareNeverStops(k.procs, k.current, fuel);
      }
    }
  }

  /** Stopping at the slot `i` rounds in is the turn policy 3 prescribes. */
  lemma ShareTurnFound<R>(k: Kern<R>, pid: nat, i: nat, before: seq<Descriptor<R>>)
    requires WellFormed(k) && ShareInv(k) && k.algorithm == 3
    requires before == if i == 0 then k.procs else ResetCurrent(k)
    requires if i == 0 then pid == k.current
             else !Continues(k) && pid < |k.procs| && Dist(|k.procs|, k.current, pid) == i - 1
    requires i > 0 ==> forall q | Wants(k.procs, q) :: Dist(|k.procs|, k.current, q) + 1 >= i
    requires Runs(before, pid) && before[pid].numTimes <= before[pid].share
    ensures var p' := before[pid].(numTimes := before[pid].numTimes + 1);
            IsShareTurn(k, k.(procs := before[pid := p'], current := pid), pid)
  {
  }

  /** Passing the slot `i` rounds in leaves only the current process's count reset, and no
      process with a share behind. */
  lemma ShareTurnMissed<R>(k: Kern<R>, pid: nat, i: nat, before: seq<Descriptor<R>>, now: seq<Descriptor<R>>)
    requires WellFormed(k) && ShareInv(k) && k.algorithm == 3
    requires before == if i == 0 then k.procs else ResetCurrent(k)
    requires if i == 0 then pid == k.current else pid < |k.procs| && Dist(|k.procs|, k.current, pid) == i - 1
    requires Runs(before, pid) ==> before[pid].numTimes > before[pid].share
    requires now == if Runs(before, pid) then before[pid := before[pid].(numTimes := 0)] else before
    ensures now == ResetCurrent(k)
    ensures i == 0 ==> !Continues(k)
    ensures i > 0 ==> forall q | Wants(k.procs, q) :: Dist(|k.procs|, k.current, q) + 1 != i
  {
  }
}
