/** Context isolation: whatever programs the processes run, whatever policy schedules them and
    wherever interrupts fall, each process's registers evolve as if it ran alone, given what it
    reads from shared memory. */
module ContextIsolation {
  import opened KernelTypes
  import opened Scheduling
  import opened Interrupts
  import opened TrapFrame

  /** One user instruction: the registers and shared memory it leaves. */
  datatype Effect = Effect(regs: UserState, mem: Shared)

  /** What each process's code does: any function of its registers and shared memory. */
  type Program = (nat, UserState, Shared) -> Effect

  /** The kernel's variables, with saved frames as they lie in the descriptors, and the registers
      in the processor. */
  datatype World = World(kern: Kern<Registers>, cpu: UserState)

  datatype Happening =
    | Execute
    | Interrupt(n: uint32, paddings: Paddings, kernelEsp: uint32, ticks: seq<nat>)

  /** The frame the trap entry passes to `interrupt`. */
  function TrapFrameOf(w: World, h: Happening): Frame<Registers>
    requires h.Interrupt?
  {
    var r := FrameOf(w.cpu, h.n, h.kernelEsp, h.paddings);
    Frame(r, r.intno, r.eax)
  }

  /** One step that ends in user mode: an instruction, or an interrupt the kernel handles and
      returns from. */
  ghost predicate Step(prog: Program, w: World, h: Happening, w': World) {
    && w.kern.current < |w.kern.procs|
    && match h
       case Execute =>
         var e := prog(w.kern.current, w.cpu, w.kern.mem);
         w' == World(w.kern.(mem := e.mem), e.regs)
       case Interrupt(n, _, _, ticks) =>
         && (n == 32 || 48 <= n <= 53)
         && w'.kern.current < |w'.kern.procs|
         && Scheduled(Handle(w.kern, TrapFrameOf(w, h)), ticks, w'.kern, Run(w'.kern.current))
         && w'.cpu == StateOf(w'.kern.procs[w'.kern.current].regs)
  }

  ghost predicate IsRun(prog: Program, ws: seq<World>, hs: seq<Happening>) {
    && |ws| == |hs| + 1 && WellFormed(ws[0].kern)
    && forall t | 0 < t < |ws| :: Step(prog, ws[t - 1], hs[t - 1], ws[t])
  }

  /** The registers of process `p`, in the processor or as `run` would load them. */
  function RegsOf(w: World, p: nat): UserState
    requires p < |w.kern.procs|
  {
    if p == w.kern.current then w.cpu else StateOf(w.kern.procs[p].regs)
  }

  /** What process `p` reads in one step. */
  function Read(w: World, h: Happening, p: nat): seq<Shared> {
    if h.Execute? && w.kern.current == p then [w.kern.mem] else []
  }

  /** The shared memory process `p` finds at each of its instructions up to time `t`. */
  function Reads(ws: seq<World>, hs: seq<Happening>, p: nat, t: nat): seq<Shared>
    requires t <= |hs| < |ws|
  {
    if t == 0 then [] else Reads(ws, hs, p, t - 1) + Read(ws[t - 1], hs[t - 1], p)
  }

  /** Process `p` alone: its instructions one after the other on the given memories. */
  function Alone(prog: Program, p: nat, start: UserState, seen: seq<Shared>): UserState {
    if seen == [] then start
    else
      var last := |seen| - 1;
      prog(p, Alone(prog, p, start, seen[..last]), seen[last]).regs
  }

  /** An interrupt changes nobody's registers: neither the interrupted process's, nor those of the
      process that gets the processor, nor anybody else's. */
  lemma InterruptKeepsRegs(prog: Program, w: World, h: Happening, w': World, p: nat)
    requires WellFormed(w.kern) && h.Interrupt? && Step(prog, w, h, w') && p < |w.kern.procs|
    ensures WellFormed(w'.kern) && |w'.kern.procs| == |w.kern.procs|
    ensures RegsOf(w', p) == RegsOf(w, p)
  {
    var f := TrapFrameOf(w, h);
    RoundTrip(w.cpu, h.n, h.kernelEsp, h.paddings);
    ScheduledRuns(Handle(w.kern, f), h.ticks, w'.kern, w'.kern.current);
    assert w'.kern.procs[p].regs == if p == w.kern.current then f.regs else w.kern.procs[p].regs;
  }

  /** The isolation theorem: at any time of any run, a process's registers are those it would have
      running alone from its initial registers on the same shared-memory reads. */
  lemma {:induction false} Isolation(prog: Program, ws: seq<World>, hs: seq<Happening>, p: nat, t: nat)
    requires IsRun(prog, ws, hs) && t <= |hs| && p < |ws[0].kern.procs|
    ensures WellFormed(ws[t].kern) && |ws[t].kern.procs| == |ws[0].kern.procs|
    ensures RegsOf(ws[t], p) == Alone(prog, p, RegsOf(ws[0], p), Reads(ws, hs, p, t))
  {
    hide *;
    RunStarts(prog, ws, hs);
    if t == 0 {
      NothingRead(prog, ws, hs, p);
    } else {
      Isolation(prog, ws, hs, p, t - 1);
      RunStep(prog, ws, hs, t);
      MoreRead(ws, hs, p, t);
      StepIsolates(prog, ws[t - 1], hs[t - 1], ws[t], p, RegsOf(ws[0], p), Reads(ws, hs, p, t - 1));
    }
  }

  /** An instruction is the running process's program applied to the registers in the processor and to
      shared memory, and changes nothing else. */
  lemma InstructionStep(prog: Program, w: World, w': World)
    requires Step(prog, w, Execute, w')
    ensures var e := prog(w.kern.current, w.cpu, w.kern.mem);
            w'.cpu == e.regs && w'.kern == w.kern.(mem := e.mem)
  {
  }

  lemma {:induction false} IdleKeepsRegs(prog: Program, ws: seq<World>, hs: seq<Happening>, p: nat, t: nat, t': nat)
    requires IsRun(prog, ws, hs) && t <= t' <= |hs| && p < |ws[0].kern.procs|
    requires forall i | t <= i < t' && hs[i].Execute? :: ws[i].kern.current != p
    ensures WellFormed(ws[t].kern) && |ws[t].kern.procs| == |ws[0].kern.procs|
    ensures WellFormed(ws[t'].kern) && |ws[t'].kern.procs| == |ws[0].kern.procs|
    ensures RegsOf(ws[t'], p) == RegsOf(ws[t], p)
    decreases t'
  {
    Isolation(prog, ws, hs, p, t);
    if t < t' {
      IdleKeepsRegs(prog, ws, hs, p, t, t' - 1);
      RunStep(prog, ws, hs, t');
      hide IsRun;
      if hs[t' - 1].Interrupt? {
        InterruptKeepsRegs(prog, ws[t' - 1], hs[t' - 1], ws[t'], p);
      }
    }
  }

  /** A process that has the processor again finds in it exactly the registers it last left there,
      whatever the others have done and however often it was interrupted meanwhile. */
  lemma ResumesUnchanged(prog: Program, ws: seq<World>, hs: seq<Happening>, t: nat, t': nat)
    requires IsRun(prog, ws, hs) && t <= t' <= |hs|
    requires ws[t].kern.current == ws[t'].kern.current
    requires forall i | t <= i < t' && hs[i].Execute? :: ws[i].kern.current != ws[t].kern.current
    requires ws[t].kern.current < |ws[0].kern.procs|
    ensures ws[t'].cpu == ws[t].cpu
  {
    hide IsRun;
    hide Step;
    hide StateOf;
    RunStarts(prog, ws, hs);
    IdleKeepsRegs(prog, ws, hs, ws[t].kern.current, t, t');
  }

  lemma RunStarts(prog: Program, ws: seq<World>, hs: seq<Happening>)
    requires IsRun(prog, ws, hs)
    ensures |ws| == |hs| + 1 && WellFormed(ws[0].kern)
  {
  }

  lemma RunStep(prog: Program, ws: seq<World>, hs: seq<Happening>, t: nat)
    requires IsRun(prog, ws, hs) && 0 < t < |ws|
    ensures t - 1 < |hs| && Step(prog, ws[t - 1], hs[t - 1], ws[t])
  {
  }

  lemma NothingRead(prog: Program, ws: seq<World>, hs: seq<Happening>, p: nat)
    requires |hs| < |ws| && p < |ws[0].kern.procs|
    ensures Alone(prog, p, RegsOf(ws[0], p), Reads(ws, hs, p, 0)) == RegsOf(ws[0], p)
  {
  }

  lemma MoreRead(ws: seq<World>, hs: seq<Happening>, p: nat, t: nat)
    requires 0 < t <= |hs| < |ws|
    ensures Reads(ws, hs, p, t) == Reads(ws, hs, p, t - 1) + Read(ws[t - 1], hs[t - 1], p)
  {
  }

  /** One step takes a process where it would go alone on what it reads. */
  lemma StepIsolates(prog: Program, w: World, h: Happening, w': World, p: nat, start: UserState, seen: seq<Shared>)
    requires WellFormed(w.kern) && Step(prog, w, h, w') && p < |w.kern.procs|
    requires RegsOf(w, p) == Alone(prog, p, start, seen)
    ensures WellFormed(w'.kern) && |w'.kern.procs| == |w.kern.procs|
    ensures RegsOf(w', p) == Alone(prog, p, start, seen + Read(w, h, p))
  {
    if h.Interrupt? {
      InterruptKeepsRegs(prog, w, h, w', p);
      hide Step;
      assert seen + [] == seen;
    } else if p == w.kern.current {
      var now := seen + [w.kern.mem];
      assert now[..|now| - 1] == seen;
    } else {
      assert seen + [] == seen;
    }
  }

  /** From `start` every process begins at its entry point with its own stack, in the application
      segments, with interrupts enabled and all other registers zero. */
  lemma FirstRegisters(stacks: seq<uint32>, entries: seq<uint32>, zero: Registers, algorithm: int, boot: Shared, p: nat)
    requires |stacks| == |entries| >= 1 && 1 <= p <= |stacks|
    ensures var frames := seq(|stacks|, i requires 0 <= i < |stacks| => FirstFrame(stacks[i], entries[i]));
            var k := InitialKern(zero, frames, algorithm, boot);
            var u := RegsOf(World(k, StateOf(k.procs[k.current].regs)), p);
            && u.eip == entries[p - 1] && u.esp == stacks[p - 1]
            && u.cs == 0x1B && u.ds == u.es == u.ss == 0x23
            && u.eflags == 0x200 && u.g == General(0, 0, 0, 0, 0, 0, 0)
  {
  }

  // ----- The process table -----

  /** An instruction leaves the table alone, and an interrupt moves the current process at most from
      runnable to zombie. */
  lemma StepTable(prog: Program, w: World, h: Happening, w': World, p: nat)
    requires WellFormed(w.kern) && Runs(w.kern.procs, w.kern.current) && Step(prog, w, h, w') && p < |w.kern.procs|
    ensures WellFormed(w'.kern) && Runs(w'.kern.procs, w'.kern.current) && |w'.kern.procs| == |w.kern.procs|
    ensures Frozen(w.kern.procs[p], w'.kern.procs[p])
  {
    if h.Interrupt? {
      var k := Handle(w.kern, TrapFrameOf(w, h));
      ScheduledRuns(k, h.ticks, w'.kern, w'.kern.current);
      assert !k.procs[p].state.Runnable? ==> w'.kern.procs[p] == k.procs[p];
    }
  }

  /** Process-table safety for arbitrary programs and any calls: descriptors move only from runnable to
      zombie, one that is not runnable, slot 0 among them, never changes again and never runs, and
      whoever has the processor is runnable. */
  lemma {:induction false} TableSafety(prog: Program, ws: seq<World>, hs: seq<Happening>, t: nat, t': nat, p: nat)
    requires IsRun(prog, ws, hs) && Runs(ws[0].kern.procs, ws[0].kern.current)
    requires t <= t' < |ws| && p < |ws[0].kern.procs|
    ensures WellFormed(ws[t'].kern) && Runs(ws[t'].kern.procs, ws[t'].kern.current)
    ensures |ws[t].kern.procs| == |ws[t'].kern.procs| == |ws[0].kern.procs|
    ensures Frozen(ws[t].kern.procs[p], ws[t'].kern.procs[p])
    ensures ws[t].kern.procs[p].state.Zombie? ==> ws[t'].kern.procs[p] == ws[t].kern.procs[p]
    ensures ws[t].kern.procs[p].state.Runnable? ==>
              ws[t'].kern.procs[p].state.Runnable? || ws[t'].kern.procs[p].state.Zombie?
    ensures !ws[t].kern.procs[p].state.Runnable? ==> ws[t'].kern.current != p
    decreases t'
  {
    hide *;
    RunStarts(prog, ws, hs);
    if t == t' {
      if t > 0 {
        TableSafety(prog, ws, hs, t - 1, t - 1, p);
        RunStep(prog, ws, hs, t);
        StepTable(prog, ws[t - 1], hs[t - 1], ws[t], p);
      }
      FrozenRefl(ws[t].kern.procs, p);
      OnlyRunnableRuns(ws[t].kern, p);
    } else {
      TableSafety(prog, ws, hs, t, t' - 1, p);
      RunStep(prog, ws, hs, t');
      StepTable(prog, ws[t' - 1], hs[t' - 1], ws[t'], p);
      FrozenTrans(ws[t].kern.procs[p], ws[t' - 1].kern.procs[p], ws[t'].kern.procs[p]);
      OnlyRunnableRuns(ws[t'].kern, p);
    }
    FrozenMeans(ws[t].kern.procs[p], ws[t'].kern.procs[p]);
  }

  // ----- What calls record -----

  /** A call's argument is what the caller had in eax, and the kernel records it as the call's number
      says, in the caller's descriptor and nobody else's. */
  lemma CallOf(prog: Program, w: World, h: Happening, w': World)
    requires WellFormed(w.kern) && h.Interrupt? && Step(prog, w, h, w')
    ensures |w'.kern.procs| == |w.kern.procs|
    ensures var eax: int := w.cpu.g.eax;
            var x := if eax < 0x8000_0000 then eax else eax - 0x1_0000_0000;
            var d, d' := w.kern.procs[w.kern.current], w'.kern.procs[w.kern.current];
            && (h.n == 49 ==> d'.state.Zombie? && d'.exitStatus == x)
            && (h.n != 49 ==> d'.state == d.state && d'.exitStatus == d.exitStatus)
            && d'.priority == (if h.n == 50 then x else d.priority)
            && d'.share == (if h.n == 51 then x else d.share)
            && d'.numTickets == (if h.n == 53 then x else d.numTickets)
    ensures forall q | 0 <= q < |w.kern.procs| && q != w.kern.current ::
              w'.kern.procs[q] == w.kern.procs[q].(numTimes := w'.kern.procs[q].numTimes)
    ensures h.n != 52 ==> w'.kern.mem == w.kern.mem
    ensures h.n == 52 ==>
              var low := w.cpu.g.eax % 256;
              w'.kern.mem == w.kern.mem.(
                cells := w.kern.mem.cells[w.kern.mem.cursor := if low < 128 then low else 0xFF00 + low],
                cursor := w.kern.mem.cursor + 1)
  {
    hide Scheduled;
    hide Handle;
    CallRecorded(w.kern, TrapFrameOf(w, h), h.ticks, w'.kern, Run(w'.kern.current));
  }

  /** Whatever the programs do, a process that calls `sys_exit(x)` is a zombie with status `x` in every
      later state. */
  lemma ExitStatusStays(prog: Program, ws: seq<World>, hs: seq<Happening>, t: nat, t': nat)
    requires IsRun(prog, ws, hs) && Runs(ws[0].kern.procs, ws[0].kern.current)
    requires t < t' < |ws| && hs[t].Interrupt? && hs[t].n == 49
    ensures var p := ws[t].kern.current;
            var eax: int := ws[t].cpu.g.eax;
            && p < |ws[t'].kern.procs| && ws[t'].kern.procs[p].state.Zombie? && ws[t'].kern.current != p
            && ws[t'].kern.procs[p].exitStatus == if eax < 0x8000_0000 then eax else eax - 0x1_0000_0000
  {
    hide IsRun;
    hide Step;
    RunStarts(prog, ws, hs);
    var p := ws[t].kern.current;
    TableSafety(prog, ws, hs, 0, t, 0);
    RunStep(prog, ws, hs, t + 1);
    CallOf(prog, ws[t], hs[t], ws[t + 1]);
    TableSafety(prog, ws, hs, t + 1, t', p);
  }
}
