/** What each policy's scan comes to, slot by slot as the source walks the table, and reading by
    reading for the policy that draws. */
module ScanOrder {
  import opened KernelTypes
  import opened Scheduling

  /** Policy 0 runs the first runnable process after the current one, going on from slot 0 at the end
      of the table, the current one itself last. */
  lemma RoundRobinOrder<R>(k: Kern<R>, ticks: seq<nat>, k': Kern<R>, o: Outcome)
    requires k.current < |k.procs| && k.algorithm == 0 && Scheduled(k, ticks, k', o)
    ensures o.Run? ==>
              && 0 <= o.pid < |k.procs| && k.procs[o.pid].state.Runnable? && k' == k.(current := o.pid)
              && forall q | 0 <= q < |k.procs|
                   && (if o.pid > k.current then k.current < q < o.pid else k.current < q || q < o.pid) ::
                   !k.procs[q].state.Runnable?
    ensures o.Spin? ==> k' == k && forall q | 0 <= q < |k.procs| :: !k.procs[q].state.Runnable?
  {
    if o.Run? {
      forall q | 0 <= q < |k.procs| && k.procs[q].state.Runnable?
        ensures Dist(|k.procs|, k.current, o.pid) <= Dist(|k.procs|, k.current, q)
      {
        assert Runs(k.procs, q);
        assert Best(k, q);
      }
    } else {
      NoneRunnable(k);
    }
  }

  lemma NoneRunnable<R>(k: Kern<R>)
    requires !AnyRuns(k.procs)
    ensures forall q | 0 <= q < |k.procs| :: !k.procs[q].state.Runnable?
  {
    forall q | 0 <= q < |k.procs| ensures !k.procs[q].state.Runnable? {
      assert !Runs(k.procs, q);
    }
  }

  /** Policy 1 runs the runnable process with the lowest pid. */
  lemma LowestPidOrder<R>(k: Kern<R>, ticks: seq<nat>, k': Kern<R>, o: Outcome)
    requires k.algorithm == 1 && Scheduled(k, ticks, k', o)
    ensures o.Run? ==>
              && 0 <= o.pid < |k.procs| && k.procs[o.pid].state.Runnable? && k' == k.(current := o.pid)
              && forall q | 0 <= q < o.pid :: !k.procs[q].state.Runnable?
    ensures o.Spin? ==> k' == k && forall q | 0 <= q < |k.procs| :: !k.procs[q].state.Runnable?
  {
    if o.Run? {
      forall q | 0 <= q < o.pid ensures !k.procs[q].state.Runnable? {
        if k.procs[q].state.Runnable? {
          assert Runs(k.procs, q);
        }
      }
    } else {
      NoneRunnable(k);
    }
  }

  /** Policy 2 runs a process with the least priority number among the runnable ones, the first of them
      after the current process. */
  lemma PriorityOrder<R>(k: Kern<R>, ticks: seq<nat>, k': Kern<R>, o: Outcome)
    requires k.current < |k.procs| && k.algorithm == 2 && Scheduled(k, ticks, k', o)
    ensures o.Run? ==>
              && 0 <= o.pid < |k.procs| && k.procs[o.pid].state.Runnable? && k' == k.(current := o.pid)
              && (forall q | 0 <= q < |k.procs| && k.procs[q].state.Runnable? ::
                    k.procs[o.pid].priority <= k.procs[q].priority)
              && forall q | 0 <= q < |k.procs|
                   && (if o.pid > k.current then k.current < q < o.pid else k.current < q || q < o.pid) ::
                   k.procs[q].state.Runnable? ==> k.procs[q].priority > k.procs[o.pid].priority
    ensures o.Spin? ==> k' == k && forall q | 0 <= q < |k.procs| :: !k.procs[q].state.Runnable?
  {
    if o.Run? {
      forall q | 0 <= q < |k.procs| && k.procs[q].state.Runnable?
        ensures k.procs[o.pid].priority <= k.procs[q].priority
        ensures k.procs[q].priority <= k.procs[o.pid].priority ==>
                  Dist(|k.procs|, k.current, o.pid) <= Dist(|k.procs|, k.current, q)
      {
        assert Runs(k.procs, q);
        assert k.procs[q].priority <= k.procs[o.pid].priority ==> Best(k, q);
      }
    } else {
      NoneRunnable(k);
    }
  }

  /** Policy 3 keeps the current process while its count is at most its share, and counts one more;
      otherwise that count goes back to zero and the first process after it with a share starts
      with a count of one. */
  lemma ShareOrder<R>(k: Kern<R>, ticks: seq<nat>, k': Kern<R>, o: Outcome)
    requires k.current < |k.procs| && k.algorithm == 3 && ShareInv(k) && Scheduled(k, ticks, k', o)
    ensures var d := k.procs[k.current];
            var over := if d.state.Runnable? then k.procs[k.current := d.(numTimes := 0)] else k.procs;
            if d.state.Runnable? && d.numTimes <= d.share then
              o == Run(k.current) && k' == k.(procs := k.procs[k.current := d.(numTimes := d.numTimes + 1)])
            else if o.Run? then
              && 0 <= o.pid < |k.procs| && k.procs[o.pid].state.Runnable? && k.procs[o.pid].share >= 0
              && k' == k.(procs := over[o.pid := over[o.pid].(numTimes := 1)], current := o.pid)
              && forall q | 0 <= q < |k.procs|
                   && (if o.pid > k.current then k.current < q < o.pid else k.current < q || q < o.pid) ::
                   !k.procs[q].state.Runnable? || k.procs[q].share < 0
            else
              && k' == k.(procs := over)
              && forall q | 0 <= q < |k.procs| :: !k.procs[q].state.Runnable? || k.procs[q].share < 0
  {
    var d := k.procs[k.current];
    if d.state.Runnable? && d.numTimes <= d.share {
      assert Wants(k.procs, k.current);
    } else if o.Run? {
      forall q | 0 <= q < |k.procs| && k.procs[q].state.Runnable? && k.procs[q].share >= 0
        ensures Dist(|k.procs|, k.current, o.pid) <= Dist(|k.procs|, k.current, q)
      {
        assert Wants(k.procs, q);
      }
    } else {
      forall q | 0 <= q < |k.procs| ensures !k.procs[q].state.Runnable? || k.procs[q].share < 0 {
        assert !Wants(k.procs, q);
      }
    }
  }

  /** Policy 4 takes the low 32 bits of a 64-bit reading modulo the number of slots, runs that slot's
      process if it is runnable, and reads again if not. */
  lemma DrawOrder<R>(k: Kern<R>, high: nat, low: nat, q: nat, p: nat, more: seq<nat>, k': Kern<R>, o: Outcome)
    requires k.algorithm == 4 && p < |k.procs| && low == |k.procs| * q + p < 0x1_0000_0000
    ensures k.procs[p].state.Runnable? ==>
              (Scheduled(k, [0x1_0000_0000 * high + low] + more, k', o) <==> o == Run(p) && k' == k.(current := p))
    ensures !k.procs[p].state.Runnable? ==>
              (Scheduled(k, [0x1_0000_0000 * high + low] + more, k', o) <==> Scheduled(k, more, k', o))
  {
    var n, reading := |k.procs|, 0x1_0000_0000 * high + low;
    ModUnique(reading, 0x1_0000_0000, high, low);
    ModUnique(low, n, q, p);
    assert Residue(n, reading) == p;
    hide Residue;
    DrawFirst(k, reading, more, k', o);
  }

  lemma DrawFirst<R>(k: Kern<R>, reading: nat, more: seq<nat>, k': Kern<R>, o: Outcome)
    requires k.algorithm == 4 && |k.procs| > 0
    ensures var all, p := [reading] + more, Residue(|k.procs|, reading);
            if Runs(k.procs, p) then Scheduled(k, all, k', o) <==> o == Run(p) && k' == k.(current := p)
            else Scheduled(k, all, k', o) <==> Scheduled(k, more, k', o)
  {
    hide Residue;
    var n, all, p := |k.procs|, [reading] + more, Residue(|k.procs|, reading);
    assert all[0] == reading && forall i | 0 <= i < |more| :: all[i + 1] == more[i];
    if Runs(k.procs, p) {
      assert IsDraw(k, all, p) by {
        assert Residue(n, all[0]) == p;
      }
      assert !Scheduled(k, all, k', Spin) by {
        assert Runs(k.procs, Residue(n, all[0]));
      }
    } else {
      forall r: int ensures IsDraw(k, all, r) <==> IsDraw(k, more, r) {
        DrawLater(k, reading, more, r);
      }
      if forall i | 0 <= i < |more| :: !Runs(k.procs, Residue(n, more[i])) {
        forall i | 0 <= i < |all| ensures !Runs(k.procs, Residue(n, all[i])) {
          assert i > 0 ==> all[i] == more[i - 1];
        }
      } else {
        var i :| 0 <= i < |more| && Runs(k.procs, Residue(n, more[i]));
        assert Runs(k.procs, Residue(n, all[i + 1]));
      }
    }
  }

  lemma DrawLater<R>(k: Kern<R>, reading: nat, more: seq<nat>, r: int)
    requires |k.procs| > 0 && !Runs(k.procs, Residue(|k.procs|, reading))
    ensures IsDraw(k, [reading] + more, r) <==> IsDraw(k, more, r)
  {
    hide Residue;
    var n, all := |k.procs|, [reading] + more;
    if IsDraw(k, all, r) {
      var j :| 0 <= j < |all| && Residue(n, all[j]) == r &&
               forall i | 0 <= i < j :: !Runs(k.procs, Residue(n, all[i]));
      assert j > 0 && more[j - 1] == all[j];
      forall i | 0 <= i < j - 1 ensures !Runs(k.procs, Residue(n, more[i])) {
        assert more[i] == all[i + 1];
      }
    }
    if IsDraw(k, more, r) {
      var j :| 0 <= j < |more| && Residue(n, more[j]) == r &&
               forall i | 0 <= i < j :: !Runs(k.procs, Residue(n, more[i]));
      assert all[j + 1] == more[j];
      forall i | 0 <= i < j + 1 ensures !Runs(k.procs, Residue(n, all[i])) {
        assert i > 0 ==> all[i] == more[i - 1];
      }
      assert IsDraw(k, all, r);
    }
  }
}
