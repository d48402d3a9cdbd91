/** The data the SchedOS kernel keeps: process descriptors, the process table and the
    memory it shares with the applications. */
module KernelTypes {
  type int32 = x: int | -0x8000_0000 <= x < 0x8000_0000
  type uint32 = x: int | 0 <= x < 0x1_0000_0000

  const INT_MAX: int := 0x7FFF_FFFF

  // Interrupt numbers (schedos.h, schedos-kern.h).
  const INT_CLOCK: int := 32
  const INT_SYS_YIELD: int := 48
  const INT_SYS_EXIT: int := 49
  const INT_SYS_USER1: int := 50
  const INT_SYS_USER2: int := 51
  const INT_SYS_ATOMIC_PRINT: int := 52
  const INT_SYS_SET_LOTTERY: int := 53

  /** A register word read back as a C `int`. */
  function Signed(x: uint32): int32 {
    if x < 0x8000_0000 then x else x - 0x1_0000_0000
  }

  /** A C `int` stored into a register. */
  function Unsigned(x: int32): uint32 {
    if x < 0 then x + 0x1_0000_0000 else x
  }

  datatype ProcState = Empty | Runnable | Blocked | Zombie

  /** A process descriptor.  `R` is whatever the trap entry saves. */
  datatype Descriptor<R> = Descriptor(
    pid: nat,
    regs: R,
    state: ProcState,
    exitStatus: int32,
    priority: int32,
    share: int32,
    numTimes: int,
    numTickets: int32)

  /** The memory shared by the kernel and the applications.  `cursor` and the keys of `cells`
      count 16-bit cells from the start of the console. */
  datatype Shared = Shared(lock: uint32, cursor: int, cells: map<int, int>)

  /** The kernel's global variables; `current` is the index of the current descriptor. */
  datatype Kern<R> = Kern(procs: seq<Descriptor<R>>, current: nat, algorithm: int, mem: Shared)

  /** What the trap entry hands to `interrupt`. */
  datatype Frame<R> = Frame(regs: R, intno: int, eax: uint32)

  /** How a call of `schedule` ends: it switches to a process, or it never leaves the kernel. */
  datatype Outcome = Run(pid: nat) | Spin

  /** What the kernel relies on between interrupts. */
  ghost predicate WellFormed<R>(k: Kern<R>) {
    && k.current < |k.procs|
    && forall i | 0 <= i < |k.procs| :: k.procs[i].pid == i
  }

  predicate Runs<R>(procs: seq<Descriptor<R>>, p: int) {
    0 <= p < |procs| && procs[p].state.Runnable?
  }

  /** The cell `(char) eax` becomes: the low byte, sign-extended to sixteen bits. */
  function CharCell(eax: uint32): int {
    var b := eax % 256;
    if b < 128 then b else b + 0xFF00
  }

  /** The cells of the 80x25 console. */
  const CELLS: nat := 2000
}
