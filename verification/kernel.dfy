/** The kernel of schedos-kern.c with its loops: `start`, `interrupt` and the five scans of
    `schedule`, working in place on the process table. */
module KernelCode {
  import opened KernelTypes
  import opened Scheduling
  import opened Interrupts

  lemma DistBelow(n: nat, from: nat, p: int)
    ensures from < n && 0 <= p < n ==> 0 <= Dist(n, from, p) < n
  {
  }

  /** If nobody is within a round, nobody is runnable. */
  lemma NobodyRuns<R>(procs: seq<Descriptor<R>>, cur: nat)
    requires cur < |procs| && forall q | Runs(procs, q) :: Dist(|procs|, cur, q) >= |procs|
    ensures !AnyRuns(procs)
  {
    forall q ensures !Runs(procs, q) {
      DistBelow(|procs|, cur, q);
    }
  }

  lemma NobodyWants<R>(procs: seq<Descriptor<R>>, cur: nat)
    requires cur < |procs| && forall q | Wants(procs, q) :: Dist(|procs|, cur, q) >= |procs|
    ensures !AnyWants(procs)
  {
    forall q ensures !Wants(procs, q) {
      DistBelow(|procs|, cur, q);
    }
  }

  /** A runnable process with the number the first loop of policy 2 finds. */
  predicate HasMost<R>(procs: seq<Descriptor<R>>, most: int, q: int) {
    Runs(procs, q) && procs[q].priority == most
  }

  /** None of them is among the first `i` slots after `cur`. */
  ghost predicate NoneWithin<R>(procs: seq<Descriptor<R>>, most: int, cur: nat, i: nat) {
    forall q | HasMost(procs, most, q) :: Dist(|procs|, cur, q) >= i
  }

  lemma NoneYet<R>(procs: seq<Descriptor<R>>, most: int, cur: nat)
    requires cur < |procs|
    ensures NoneWithin(procs, most, cur, 0)
  {
  }

  lemma NoneStill<R>(procs: seq<Descriptor<R>>, most: int, cur: nat, i: nat, p: nat)
    requires cur < |procs| && NoneWithin(procs, most, cur, i) && p < |procs| && Dist(|procs|, cur, p) == i
    requires !HasMost(procs, most, p)
    ensures NoneWithin(procs, most, cur, i + 1)
  {
  }

  lemma NobodyHasMost<R>(procs: seq<Descriptor<R>>, cur: nat)
    requires cur < |procs| && NoneWithin(procs, MostPriority(procs), cur, |procs|)
    ensures !AnyRuns(procs)
  {
    var most := MostPriority(procs);
    forall q ensures !(Runs(procs, q) && procs[q].priority == most) {
      DistBelow(|procs|, cur, q);
      assert HasMost(procs, most, q) ==> Dist(|procs|, cur, q) >= |procs|;
    }
    hide MostPriority;
  }

  /** The nearest of them is the policy's pick. */
  lemma MostIsPick<R>(k: Kern<R>, p: nat)
    requires k.algorithm == 2 && k.current < |k.procs| && HasMost(k.procs, MostPriority(k.procs), p)
    requires NoneWithin(k.procs, MostPriority(k.procs), k.current, Dist(|k.procs|, k.current, p))
    ensures IsPick(k, p)
  {
    var most := MostPriority(k.procs);
    hide MostPriority;
    forall q | Best(k, q) ensures HasMost(k.procs, most, q) {
      assert k.procs[q].priority <= k.procs[p].priority;
    }
  }

  class Kernel<R> {
    const procs: array<Descriptor<R>>
    var current: nat
    var algorithm: int
    var mem: Shared

    /** The abstract value of the kernel's variables. */
    ghost function K(): Kern<R>
      reads this, procs
    {
      Kern(procs[..], current, algorithm, mem)
    }

    ghost predicate Valid()
      reads this, procs
    {
      WellFormed(K()) && ShareInv(K())
    }

    /** `start`: clear the console and the table, set every application up, run the first. */
    constructor Start(zero: R, entry: seq<R>, algorithm: int, boot: Shared)
      requires |entry| >= 1
      ensures fresh(procs) && Valid()
      ensures K() == InitialKern(zero, entry, algorithm, boot)
    {
      var n := |entry| + 1;
      procs := new Descriptor<R>[n](_ => Descriptor(0, zero, Empty, 0, 0, 0, 0, 0));
      current := 0;
      this.algorithm := 0;
      mem := boot;
      new;
      ConsoleClear();
      for i := 0 to n
        invariant procs.Length == n
        invariant mem == boot.(cursor := 0, cells := Cleared(boot.cells, CELLS))
        invariant forall j | 0 <= j < n :: procs[j] == Descriptor(if j < i then j else 0, zero, Empty, 0, 0, 0, 0, 0)
      {
        procs[i] := procs[i].(pid := i, state := Empty);
      }
      for i := 1 to n
        invariant procs.Length == n
        invariant mem == boot.(cursor := 0, cells := Cleared(boot.cells, CELLS))
        invariant forall j | 0 <= j < i :: procs[j] == InitialDescriptor(zero, entry, j)
        invariant forall j | i <= j < n :: procs[j] == Descriptor(j, zero, Empty, 0, 0, 0, 0, 0)
      {
        procs[i] := procs[i].(regs := entry[i - 1]);
        procs[i] := procs[i].(state := Runnable);
        procs[i] := procs[i].(numTimes := 0);
      }
      mem := mem.(cursor := 0);
      this.algorithm := algorithm;
      SwitchTo(1);
      assert procs[..] == InitialKern(zero, entry, algorithm, boot).procs;
    }

    method ConsoleClear()
      modifies this`mem
      ensures mem == old(mem).(cursor := 0, cells := Cleared(old(mem).cells, CELLS))
      ensures forall j: int | 0 <= j < 2000 :: j in mem.cells && mem.cells[j] == 0x0720
    {
      mem := mem.(cursor := 0);
      for i := 0 to 80 * 25
        invariant mem == old(mem).(cursor := 0, cells := mem.cells)
        invariant mem.cells == Cleared(old(mem).cells, i)
      {
        mem := mem.(cells := mem.cells[mem.cursor + i := BlankCell(i)]);
      }
    }

    /** `run`: the processor now belongs to process `pid`. */
    method SwitchTo(pid: nat)
      requires pid < procs.Length
      modifies this`current
      ensures current == pid
    {
      current := pid;
    }

    /** `interrupt`. */
    method Interrupt(f: Frame<R>, ticks: seq<nat>) returns (o: Outcome)
      requires Valid()
      modifies this, procs
      ensures f.intno == 32 || 48 <= f.intno <= 53 ==> Scheduled(Handle(old(K()), f), ticks, K(), o) && Valid()
      ensures !(f.intno == 32 || 48 <= f.intno <= 53) ==> o == Spin && K() == Handle(old(K()), f)
      ensures old(current) < procs.Length
      ensures var eax: int := f.eax;
              var x := if eax < 0x8000_0000 then eax else eax - 0x1_0000_0000;
              var d, d' := old(procs[current]), procs[old(current)];
              && d'.regs == f.regs
              && (f.intno == 49 ==> d'.state.Zombie? && d'.exitStatus == x)
              && (f.intno != 49 ==> d'.state == d.state && d'.exitStatus == d.exitStatus)
              && d'.priority == (if f.intno == 50 then x else d.priority)
              && d'.share == (if f.intno == 51 then x else d.share)
              && d'.numTickets == (if f.intno == 53 then x else d.numTickets)
    {
      hide Scheduled;
      hide ShareInv;
      ghost var k0 := K();
      procs[current] := procs[current].(regs := f.regs);
      if f.intno == INT_SYS_YIELD {
      } else if f.intno == INT_SYS_EXIT {
        procs[current] := procs[current].(state := Zombie);
        procs[current] := procs[current].(exitStatus := Signed(f.eax));
      } else if f.intno == INT_SYS_USER1 {
        procs[current] := procs[current].(priority := Signed(f.eax));
      } else if f.intno == INT_SYS_USER2 {
        procs[current] := procs[current].(share := Signed(f.eax));
        procs[current] := procs[current].(numTimes := 0);
      } else if f.intno == INT_CLOCK {
      } else if f.intno == INT_SYS_ATOMIC_PRINT {
        mem := mem.(cells := mem.cells[mem.cursor := CharCell(f.eax)], cursor := mem.cursor + 1);
      } else if f.intno == INT_SYS_SET_LOTTERY {
        procs[current] := procs[current].(numTickets := Signed(f.eax));
      } else {
        return Spin;
      }
      ghost var h := K();
      assert h == Handle(k0, f);
      HandleKeepsInvariant(k0, f);
      o := Schedule(ticks);
      InterruptKeepsInvariant(k0, f, ticks, K(), o);
      CallRecorded(k0, f, ticks, K(), o);
    }

    /** `schedule`. */
    method Schedule(ticks: seq<nat>) returns (o: Outcome)
      requires Valid()
      modifies this, procs
      ensures Scheduled(old(K()), ticks, K(), o)
    {
      if algorithm == 0 {
        o := RoundRobin();
      } else if algorithm == 1 {
        o := LowestPid();
      } else if algorithm == 2 {
        o := LowestPriority();
      } else if algorithm == 3 {
        o := ProportionalShare();
      } else if algorithm == 4 {
        o := Random(ticks);
      } else {
        return Spin;
      }
    }

    /** Policy 0.  A loop that has been round the whole table without finding anybody is back where it
        began and goes on for ever; the source has no such test, it just never returns. */
    method RoundRobin() returns (o: Outcome)
      requires Valid() && algorithm == 0
      modifies this`current
      ensures o.Run? ==> IsPick(old(K()), o.pid) && K() == old(K()).(current := o.pid)
      ensures o.Spin? ==> !AnyRuns(old(K()).procs) && K() == old(K())
    {
      ghost var k := K();
      var i := 0;
      var pid := procs[current].pid;
      ModUnique(pid, procs.Length, 0, pid);
      while i < procs.Length
        invariant K() == k && pid < procs.Length && 0 <= i <= procs.Length
        invariant pid == After(procs.Length, current, i)
        invariant forall q | Runs(k.procs, q) :: Dist(procs.Length, current, q) >= i
      {
        AfterStep(procs.Length, current, i);
        pid := (pid + 1) % procs.Length;
        i := i + 1;
        DistAfter(procs.Length, current, i);
        if procs[pid].state.Runnable? {
          assert Runs(k.procs, pid);
          SwitchTo(pid);
          return Run(pid);
        }
        assert forall q | Runs(k.procs, q) :: Dist(procs.Length, current, q) != i - 1;
      }
      NobodyRuns(k.procs, current);
      return Spin;
    }

    /** Policy 1: the inner loop, which the outer one repeats for ever if it finds nobody. */
    method LowestPid() returns (o: Outcome)
      requires Valid() && algorithm == 1
      modifies this`current
      ensures o.Run? ==> IsPick(old(K()), o.pid) && K() == old(K()).(current := o.pid)
      ensures o.Spin? ==> !AnyRuns(old(K()).procs) && K() == old(K())
    {
      ghost var k := K();
      var pid := 0;
      while pid < procs.Length
        invariant K() == k && 0 <= pid <= procs.Length
        invariant forall q | 0 <= q < pid :: !Runs(k.procs, q)
      {
        if procs[pid].state.Runnable? {
          assert Best(k, pid);
          SwitchTo(pid);
          return Run(pid);
        }
        pid := pid + 1;
      }
      return Spin;
    }

    /** The first loop of policy 2. */
    method LeastPriority() returns (most: int32)
      ensures most == MostPriority(procs[..])
    {
      most := INT_MAX;
      for i := 0 to procs.Length
        invariant most == MostPriority(procs[..i])
      {
        assert procs[..i + 1][..i] == procs[..i];
        if procs[i].state.Runnable? && procs[i].priority < most {
          most := procs[i].priority;
        }
      }
      assert procs[..procs.Length] == procs[..];
    }

    /** Policy 2. */
    method LowestPriority() returns (o: Outcome)
      requires Valid() && algorithm == 2
      modifies this`current
      ensures o.Run? ==> IsPick(old(K()), o.pid) && K() == old(K()).(current := o.pid)
      ensures o.Spin? ==> !AnyRuns(old(K()).procs) && K() == old(K())
    {
      hide MostPriority;
      hide IsPick;
      hide AnyRuns;
      hide NoneWithin;
      hide ShareInv;
      ghost var k := K();
      ghost var n := procs.Length;
      var most := LeastPriority();
      NoneYet(k.procs, most, current);
      var i := 0;
      var pid := procs[current].pid;
      ModUnique(pid, n, 0, pid);
      while i < procs.Length
        invariant K() == k && 0 <= pid < n && 0 <= i <= n
        invariant pid == After(n, current, i)
        invariant NoneWithin(k.procs, most, current, i)
      {
        AfterStep(n, current, i);
        pid := (pid + 1) % procs.Length;
        i := i + 1;
        DistAfter(n, current, i);
        if procs[pid].state.Runnable? && procs[pid].priority == most {
          MostIsPick(k, pid);
          SwitchTo(pid);
          return Run(pid);
        }
        NoneStill(k.procs, most, current, i - 1, pid);
      }
      NobodyHasMost(k.procs, current);
      return Spin;
    }

    /** Policy 3.  The first round may end the current process's turn and reset its count; if the
        whole table has then been passed, every further round leaves the counts as they are. */
    method ProportionalShare() returns (o: Outcome)
      requires Valid() && algorithm == 3
      modifies this`current, procs
      ensures o.Run? ==> IsShareTurn(old(K()), K(), o.pid)
      ensures o.Spin? ==> !AnyWants(old(K()).procs) && K() == old(K()).(procs := ResetCurrent(old(K())))
    {
      ghost var k := K();
      ghost var n := procs.Length;
      hide IsShareTurn;
      hide ShareInv;
      var i := 0;
      var pid := procs[current].pid;
      ModUnique(pid, n, 0, pid);
      while i <= procs.Length
        invariant current == k.current && 0 <= pid < n && 0 <= i <= n + 1
        invariant pid == After(n, current, i)
        invariant procs[..] == if i == 0 then k.procs else ResetCurrent(k)
        invariant i > 0 ==> !Continues(k)
        invariant i > 0 ==> forall q | Wants(k.procs, q) :: Dist(n, current, q) + 1 >= i
      {
        if i > 0 {
          DistAfter(n, current, i);
        }
        ghost var before := procs[..];
        assert before[pid] == procs[pid];
        if procs[pid].state.Runnable? {
          var times := procs[pid].numTimes;
          procs[pid] := procs[pid].(numTimes := times + 1);
          if times <= procs[pid].share {
            SwitchTo(pid);
            assert procs[..] == before[pid := before[pid].(numTimes := times + 1)];
            ShareTurnFound(k, pid, i, before);
            return Run(pid);
          } else {
            procs[pid] := procs[pid].(numTimes := 0);
          }
        }
        ShareTurnMissed(k, pid, i, before, procs[..]);
        AfterStep(n, current, i);
        pid := (pid + 1) % procs.Length;
        i := i + 1;
      }
      NobodyWants(k.procs, current);
      return Spin;
    }

    /** Policy 4 reads the cycle counter until it selects a runnable slot; when the readings given
        run out first, it is still looping. */
    method Random(ticks: seq<nat>) returns (o: Outcome)
      requires Valid() && algorithm == 4
      modifies this`current
      ensures Scheduled(old(K()), ticks, K(), o)
    {
      ghost var k := K();
      for i := 0 to |ticks|
        invariant K() == k
        invariant forall j | 0 <= j < i :: !Runs(k.procs, Residue(procs.Length, ticks[j]))
      {
        var low := ticks[i] % 0x1_0000_0000;
        var pid := low % procs.Length;
        if procs[pid].state.Runnable? {
          assert Residue(procs.Length, ticks[i]) == pid && Runs(k.procs, pid);
          SwitchTo(pid);
          return Run(pid);
        }
      }
      return Spin;
    }
  }
}
