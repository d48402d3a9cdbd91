/** What `interrupt` does to the kernel's variables before it calls `schedule`, and the state
    `start` leaves behind. */
module Interrupts {
  import opened KernelTypes
  import opened Scheduling

  /** The current descriptor once the frame is saved and the call's argument recorded. */
  function HandleDescriptor<R>(d: Descriptor<R>, f: Frame<R>): Descriptor<R> {
    var saved := d.(regs := f.regs);
    var arg := Signed(f.eax);
    if f.intno == INT_SYS_EXIT then saved.(state := Zombie, exitStatus := arg)
    else if f.intno == INT_SYS_USER1 then saved.(priority := arg)
    else if f.intno == INT_SYS_USER2 then saved.(share := arg, numTimes := 0)
    else if f.intno == INT_SYS_SET_LOTTERY then saved.(numTickets := arg)
    else saved
  }

  function HandleMemory<R>(m: Shared, f: Frame<R>): Shared {
    if f.intno == INT_SYS_ATOMIC_PRINT then
      m.(cells := m.cells[m.cursor := CharCell(f.eax)], cursor := m.cursor + 1)
    else m
  }

  function Handle<R>(k: Kern<R>, f: Frame<R>): Kern<R>
    requires k.current < |k.procs|
  {
    k.(procs := k.procs[k.current := HandleDescriptor(k.procs[k.current], f)],
       mem := HandleMemory(k.mem, f))
  }

  /** What no step may do to a descriptor. */
  predicate Frozen<R(==)>(before: Descriptor<R>, after: Descriptor<R>) {
    && after.pid == before.pid
    && (after.state == before.state || (before.state.Runnable? && after.state.Zombie?))
    && (!before.state.Runnable? ==> after == before)
  }

  lemma FrozenRefl<R>(procs: seq<Descriptor<R>>, p: nat)
    requires p < |procs|
    ensures Frozen(procs[p], procs[p])
  {
  }

  /** Written out. */
  lemma FrozenMeans<R>(before: Descriptor<R>, after: Descriptor<R>)
    requires Frozen(before, after)
    ensures before.state.Zombie? || before.state.Empty? ==> after == before
    ensures after.pid == before.pid && (before.state.Runnable? ==> after.state.Runnable? || after.state.Zombie?)
  {
  }

  lemma FrozenTrans<R>(a: Descriptor<R>, b: Descriptor<R>, d: Descriptor<R>)
    requires Frozen(a, b) && Frozen(b, d)
    ensures Frozen(a, d) && (!a.state.Runnable? ==> !d.state.Runnable?)
  {
  }

  lemma OnlyRunnableRuns<R>(k: Kern<R>, p: nat)
    requires Runs(k.procs, k.current) && p < |k.procs|
    ensures !k.procs[p].state.Runnable? ==> k.current != p
  {
  }

  /** What `console_clear` writes: a space, grey on black. */
  function BlankCell(i: int): int {
    0x0720
  }

  /** The console with its first `n` cells cleared. */
  function Cleared(cells: map<int, int>, n: nat): map<int, int> {
    cells + map i: int | 0 <= i < n :: BlankCell(i)
  }

  function InitialDescriptor<R>(zero: R, entry: seq<R>, i: nat): Descriptor<R>
    requires i <= |entry|
  {
    if i == 0 then Descriptor(0, zero, Empty, 0, 0, 0, 0, 0)
    else Descriptor(i, entry[i - 1], Runnable, 0, 0, 0, 0, 0)
  }

  /** The kernel when `start` runs the first process.  `entry` holds the initial registers of
      each application, `boot` what is in memory before; `start` does not initialise the lock. */
  function InitialKern<R>(zero: R, entry: seq<R>, algorithm: int, boot: Shared): Kern<R> {
    Kern(seq(|entry| + 1, i requires 0 <= i <= |entry| => InitialDescriptor(zero, entry, i)), 1, algorithm,
         boot.(cursor := 0, cells := Cleared(boot.cells, CELLS)))
  }

  lemma HandleKeepsInvariant<R>(k: Kern<R>, f: Frame<R>)
    requires WellFormed(k) && ShareInv(k)
    ensures WellFormed(Handle(k, f)) && ShareInv(Handle(k, f))
  {
  }

  lemma ScheduleKeepsInvariant<R>(h: Kern<R>, ticks: seq<nat>, k': Kern<R>, o: Outcome)
    requires WellFormed(h) && ShareInv(h)
    requires Scheduled(h, ticks, k', o)
    ensures WellFormed(k') && ShareInv(k')
  {
    if o.Run? && h.algorithm == 3 {
      var reset := ResetCurrent(h);
      assert forall q | 0 <= q < |h.procs| && q != o.pid :: k'.procs[q] == reset[q];
      assert forall q | Runs(h.procs, q) && q != o.pid :: k'.procs[q].numTimes == 0;
    } else if o.Run? {
      assert k'.procs == h.procs;
    }
  }

  /** Every interrupt keeps what the kernel relies on, under every policy. */
  lemma InterruptKeepsInvariant<R>(k: Kern<R>, f: Frame<R>, ticks: seq<nat>, k': Kern<R>, o: Outcome)
    requires WellFormed(k) && ShareInv(k)
    requires Scheduled(Handle(k, f), ticks, k', o)
    ensures WellFormed(k') && ShareInv(k')
    ensures o.Run? ==> k'.current == o.pid && Runs(k'.procs, o.pid)
  {
    HandleKeepsInvariant(k, f);
    ScheduleKeepsInvariant(Handle(k, f), ticks, k', o);
    if o.Run? {
      ScheduledRuns(Handle(k, f), ticks, k', o.pid);
    }
  }

  /** What each call leaves in the caller's descriptor and in shared memory, by interrupt number: 49
      ends the process with the argument as its status, 50, 51 and 53 record the argument, 52 prints
      its low byte, sign-extended, and moves the cursor on.  Everybody else keeps everything but a
      running count. */
  lemma CallRecorded<R>(k: Kern<R>, f: Frame<R>, ticks: seq<nat>, k': Kern<R>, o: Outcome)
    requires WellFormed(k) && Scheduled(Handle(k, f), ticks, k', o)
    ensures |k'.procs| == |k.procs| && k'.algorithm == k.algorithm
    ensures var eax: int := f.eax;
            var x := if eax < 0x8000_0000 then eax else eax - 0x1_0000_0000;
            var d, d' := k.procs[k.current], k'.procs[k.current];
            && d'.regs == f.regs && d'.pid == d.pid
            && (f.intno == 49 ==> d'.state.Zombie? && d'.exitStatus == x)
            && (f.intno != 49 ==> d'.state == d.state && d'.exitStatus == d.exitStatus)
            && d'.priority == (if f.intno == 50 then x else d.priority)
            && d'.share == (if f.intno == 51 then x else d.share)
            && d'.numTickets == (if f.intno == 53 then x else d.numTickets)
            && (k.algorithm != 3 ==> d'.numTimes == if f.intno == 51 then 0 else d.numTimes)
    ensures forall q | 0 <= q < |k.procs| && q != k.current ::
              k'.procs[q] == k.procs[q].(numTimes := k'.procs[q].numTimes)
    ensures f.intno != 52 ==> k'.mem == k.mem
    ensures f.intno == 52 ==>
              var low := f.eax % 256;
              k'.mem == k.mem.(cells := k.mem.cells[k.mem.cursor := if low < 128 then low else 0xFF00 + low],
                               cursor := k.mem.cursor + 1)
  {
    var h := Handle(k, f);
    if o.Run? {
      ScheduledRuns(h, ticks, k', o.pid);
    }
    assert forall q | 0 <= q < |k.procs| && q != k.current :: h.procs[q] == k.procs[q];
  }

  /** What `start` leaves: an empty slot 0, every application runnable at its entry with everything
      else zero, the first one running, and 2000 cells of grey blanks with the cursor at the first. */
  lemma StartState<R>(zero: R, entry: seq<R>, algorithm: int, boot: Shared)
    ensures var k := InitialKern(zero, entry, algorithm, boot);
            && |k.procs| == |entry| + 1 && k.current == 1 && k.algorithm == algorithm
            && k.procs[0] == Descriptor(0, zero, Empty, 0, 0, 0, 0, 0)
            && (forall i | 1 <= i <= |entry| :: k.procs[i] == Descriptor(i, entry[i - 1], Runnable, 0, 0, 0, 0, 0))
            && k.mem.lock == boot.lock && k.mem.cursor == 0
            && (forall j: int | 0 <= j < 2000 :: j in k.mem.cells && k.mem.cells[j] == 0x0720)
            && (forall j: int | !(0 <= j < 2000) && j in boot.cells ::
                  j in k.mem.cells && k.mem.cells[j] == boot.cells[j])
  {
  }
}
