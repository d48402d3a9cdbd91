# SchedOS, modelled and proved in Dafny

SchedOS is a teaching kernel for x86: it loads four applications, gives each a process
descriptor, and switches between them on system calls and clock interrupts under one of five
scheduling policies. The applications share a console cursor guarded by a spinlock. This project
models that system and proves what its parts promise, separately and together. Nothing was executed:
every statement below is a theorem about the model, for all inputs it names.

`dafny verify dfyconfig.toml` checks everything. The files, bottom up:

- **The kernel.** `kernel_types`, `scheduling` (what each policy chooses, and when its loop never
  ends), `scan_order` (the same slot by slot), `interrupts` (what each interrupt number does), `kernel`
  (the class with the source's loops, working in place on the process table). The number of processes, the policy, priorities, shares and
  the type of a saved register set are parameters. `schedule` either runs a process or never leaves
  the kernel (`Spin`), which stands for the source's endless loops.
- **Fairness.** `rotor` (arithmetic of a rotating pointer over blocks) and `fairness`
  (proportional shares, exact rotations, bounded waiting, equivalent policies). `policy_runs` and
  `dispatch_runs` carry the equivalences and the rest over to stretches of runs of the machine.
- **The applications on the machine.** `applications` is a small-step machine: any instruction of
  the current process, its system calls, and clock interrupts between any two instructions;
  `*cursorpos++ = c` is three instructions. `lock_safety` (mutual exclusion, no lost print),
  `call_records` (what the calls leave in the table), `priority_barrier` (policy 2) and `share_runs` (policy 3) hold over every preemptive run;
  `barrier_runs` builds the runs that show when exactly the barrier and the freedom from priority
  inversion fail. `turns`, `prints` and `cooperative` give the exact schedules of policies 0 to 2 with
  clock interrupts off, as the system is configured, `share_turns` and `share_cooperative` those of
  policy 3, and `lowest_pid_runs` shows that policy 1 keeps its schedule with them on. `fair_runs` and
  `liveness` prove that clock interrupts which let every dispatched process execute something do not
  keep the system from finishing. `class_shape` says when policy 2 prints its classes in ascending
  order, `screens` gives the screen cell by cell, and `turnaround` generalises the documented figures.
- **Context switch.** `trap_frame` (pushes and pops on a stack machine) and `context_isolation`.
- **Console and formatter.** `numbers`, `console` (ring buffer), `formatter` (a pure renderer),
  `format_scan` (reading a specification inverts writing it), `format_standard` (the numeric
  conversions against section 7.21.6.1 of C11), `printf` (the loops of `console_vprintf`),
  `format_pieces` (whole formats, each conversion with its own arguments).
- **Boot chain.** `memory`, `elf` and `elf_layout`, `disk_image` and `disk_contents` (`mkbootdisk`),
  `boot_loader`, `boot_chain` (from the linked file to memory), `ram_loader` and `program_images`
  (loading all applications), `stored_kernel` and `stored_programs` (the same from the bytes of the
  stored structures).

Where the code and what is written about it differ, the code is modelled:

- `answers.txt` measures turnaround from a process's first print for policy 0, but from the start of
  the run for policy 1; `Turnaround.Documented` follows it in both, and `LowestPidIsNoSlower` compares
  the two measures as they stand.
- A share of `s` gives turns of `s + 1` dispatches, because `p_num_times++ <= p_share` counts from
  zero (`Fairness.TurnLength`).
- Policy 2 serves a process that gives itself a negative priority to its end before the next process
  has set its own, so classes of negative priority do not alternate. `Turns.ExactOrder` states the
  order for all priorities; `ClassShape.ClassesAscendIff` says that the classes print in ascending
  order, each in rounds, exactly if nobody prints or the negative priorities increase strictly with
  the pid (equal ones do no harm when everybody prints once); `Prints.NegativeClassesDoNotAlternate`
  is an instance.
- With policy 2 and clock interrupts somebody can win the lock before all priorities are set, exactly
  if some priority is zero or less, there is somebody to wait for and something to print
  (`BarrierRuns.BarrierIff`). The lock holder can be outranked exactly if something is printed and a
  priority of zero meets a negative one (`InversionIff`), and then the system can lock up for good
  (`CanLockUp`, `StuckForEver`). It takes an interrupt right after a dispatch: without such ones the
  holder is never outranked (`FairRuns.FairLeads`) and every run ends (`Liveness.EntriesBounded`).
- The numeric conversions differ from C11 where the precision is shorter than the number (its low
  digits are lost), where a `*` precision is negative (taken as zero, not as absent), where a `*`
  width is negative and wider than the output (taken as absent, not as left justification), and for
  unsigned conversions where a flag `+` or blank prints a sign or `#` should print a base.
  `FormatStandard.NumberMatchesStandardIff` says so exactly, with instances.
- The comment on `copyseg` promises the bytes at the given address. If the copy does not overtake its
  source, it delivers them exactly when that address is page-aligned; if it does, exactly when the
  distance from source to destination divides the offset in the page and is at least the number of
  bytes (`RamLoader.InstallsIff`). `readseg` needs the address and the file offset to agree modulo a
  sector unless there are no file bytes (`BootLoader.LoadedIff`).
- The kernel initialises `cursorpos` but never `lock`. Runs assume the boot loader left it zero;
  otherwise nobody ever prints (`LockSafety.LockedOutForEver`).

## Model

| member | source | states |
|---|---|---|
| Scheduling.PickExists | weensyos2/schedos-kern.c:207-245 | policies 0, 1 and 2 have someone to choose if and only if some process is runnable |
| Scheduling.PickUnique | weensyos2/schedos-kern.c:207-245 | the runnable process with the least key (nothing, pid, priority) that comes first in cyclic order after `current` is unique |
| Scheduling.ShareTurnExists | weensyos2/schedos-kern.c:246-259 | policy 3 has a turn to give if and only if some runnable process has a share of at least zero |
| Scheduling.ScheduledUnique | weensyos2/schedos-kern.c:202-296 | whatever the policy, one call of `schedule` has exactly one result for given cycle-counter readings |
| Scheduling.ScheduledRuns | weensyos2/schedos-kern.c:202-296 | whoever gets the processor is runnable and is `current`; nothing but running counts changes |
| Scheduling.RoundRobinSpinsIff | weensyos2/schedos-kern.c:208-216 | the loop of policy 0 goes round forever if and only if no process is runnable |
| Scheduling.LowestPidSpinsIff | weensyos2/schedos-kern.c:217-224 | the loops of policy 1, which start again at slot 0 after every round, go on forever if and only if no process is runnable |
| Scheduling.PrioritySpinsIff | weensyos2/schedos-kern.c:226-245 | the inner loop of policy 2 goes round forever if and only if no process is runnable, also when every runnable priority is `INT_MAX` |
| Scheduling.ShareSpinsIff | weensyos2/schedos-kern.c:247-259 | the loop of policy 3, counts included, goes round forever if and only if no runnable process has a share of at least zero |
| Scheduling.RandomSpinsIff | weensyos2/schedos-kern.c:260-295 | the loop of policy 4 goes on whatever the cycle counter reads if and only if no process is runnable |
| Scheduling.MostPriority | weensyos2/schedos-kern.c:229-236 | the first loop's result is the least priority number among the runnable processes, attained by one of them if there is any |
| Scheduling.ShareTurnFound | weensyos2/schedos-kern.c:248-251 | where the loop of policy 3 stops is the turn the policy prescribes, with its count |
| Scheduling.ShareTurnMissed | weensyos2/schedos-kern.c:252-258 | passing a slot resets only the count of the process whose turn ended, and leaves no process with a share behind |
| ScanOrder.RoundRobinOrder | weensyos2/schedos-kern.c:207-216 | policy 0 runs the first runnable slot after the current one, wrapping at the end of the table, the current one last; if there is none nothing is runnable |
| ScanOrder.LowestPidOrder | weensyos2/schedos-kern.c:217-224 | policy 1 runs the runnable slot with no runnable slot below it |
| ScanOrder.PriorityOrder | weensyos2/schedos-kern.c:225-245 | policy 2 runs a slot of the least runnable priority number, and every runnable slot between the current one and it has a greater number |
| ScanOrder.ShareOrder | weensyos2/schedos-kern.c:246-259 | policy 3 stays while the count is at most the share and counts one more; otherwise it clears that count and the first runnable slot after it with a share of at least zero starts with a count of one |
| ScanOrder.DrawOrder | weensyos2/schedos-kern.c:260-295 | policy 4 takes the low 32 bits of each 64-bit reading modulo the number of slots: a reading of 2^32 h + N q + p runs slot p if it is runnable, and counts for nothing otherwise |
| Interrupts.HandleKeepsInvariant | weensyos2/schedos-kern.c:127-184 | every case of `interrupt` keeps the table well formed, with a running count only for the current process, and at most `share + 1` |
| Interrupts.ScheduleKeepsInvariant | weensyos2/schedos-kern.c:202-296 | `schedule` keeps them too, under every policy |
| Interrupts.InterruptKeepsInvariant | weensyos2/schedos-kern.c:127-302 | hence every interrupt does, and a process that is run is runnable |
| Interrupts.CallRecorded | weensyos2/schedos-kern.c:127-185 | by interrupt number: 49 makes the caller a zombie with the signed eax as its status, 50, 51 and 53 record it as priority, share and tickets, 52 puts its sign-extended low byte in the cell at the cursor and moves that on; apart from running counts everything else stays |
| Interrupts.StartState | weensyos2/schedos-kern.c:61-112 | the initial kernel: an empty slot 0, every application runnable at its entry with all else zero, the first one current, 2000 cells of 0x0720 and the cursor at the first |
| KernelCode.Kernel.Start | weensyos2/schedos-kern.c:61-112 | after `start` the table, console, cursor and current process are those of the initial kernel, and the invariant holds |
| KernelCode.Kernel.ConsoleClear | weensyos2/schedos-x86.c:250-256 | the 2000 cells are grey blanks, the cursor is at the first one, nothing else changes |
| KernelCode.Kernel.Interrupt | weensyos2/schedos-kern.c:127-185 | saves the frame, records the call's argument by interrupt number (49 to 53) and schedules; an unknown number never leaves the kernel |
| KernelCode.Kernel.Schedule | weensyos2/schedos-kern.c:202-302 | the loops of all policies end with the choice the policy prescribes, or spin when there is none, leaving the table as the loop had made it |
| KernelCode.Kernel.RoundRobin | weensyos2/schedos-kern.c:207-216 | the scan stops at the first runnable process after `current` in cyclic order, and spins only if nobody is runnable |
| KernelCode.Kernel.LowestPid | weensyos2/schedos-kern.c:217-224 | the scan stops at the runnable process with the lowest pid, and spins only if nobody is runnable |
| KernelCode.Kernel.LeastPriority | weensyos2/schedos-kern.c:229-236 | the loop computes the least runnable priority number |
| KernelCode.Kernel.LowestPriority | weensyos2/schedos-kern.c:225-245 | the scan stops at the first process of the best class after `current`, and spins only if nobody is runnable |
| KernelCode.Kernel.ProportionalShare | weensyos2/schedos-kern.c:246-259 | the loop keeps the current process for its turn, then resets its count and finds the next process with a share; it spins only if there is none, with that count reset |
| KernelCode.Kernel.Random | weensyos2/schedos-kern.c:260-295 | runs the slot that the first reading of the cycle counter with a runnable residue selects |
| Rotor.HitsNearShare | weensyos2/schedos-kern.c:246-259 | over any number of steps of a rotating pointer a block gets its part of them to within one pass of the block |
| Rotor.HitsFullTurn | weensyos2/schedos-kern.c:246-259 | one full rotation passes every slot of a block exactly once |
| Fairness.ShareAdvances | weensyos2/schedos-kern.c:246-259 | with runnable set and shares fixed, each dispatch of policy 3 moves one slot on round a wheel with `share + 1` slots for each process |
| Fairness.TurnLength | weensyos2/schedos-kern.c:248-254 | a turn is exactly `share + 1` consecutive dispatches, and the next one belongs to the next process in cyclic order that has a share |
| Fairness.ProportionalShare | weensyos2/schedos-kern.c:246-259 | in any stretch of T dispatches the count of a process differs from T(share+1)/sum(share+1) by less than one turn |
| Fairness.ExactShare | weensyos2/schedos-kern.c:246-259 | a stretch as long as all turns together gives every process exactly its turn |
| Fairness.PickAdvances | weensyos2/schedos-kern.c:207-245 | each dispatch of policies 0 to 2 moves to the cyclically next of the best processes |
| Fairness.RotationIsPermutation | weensyos2/schedos-kern.c:207-245 | k dispatches with k fixed best processes run each of them exactly once, and nobody else |
| Fairness.WaitingShrinks | weensyos2/schedos-kern.c:207-245 | passing over an eligible process strictly shortens its cyclic distance from `current` |
| Fairness.BoundedWaiting | weensyos2/schedos-kern.c:207-245 | a process that stays eligible runs before its distance is used up, whatever the others do |
| Fairness.EqualPrioritiesAreRoundRobin | weensyos2/schedos-kern.c:225-245 | with equal runnable priorities policy 2 chooses exactly as policy 0 |
| Fairness.IncreasingPrioritiesAreLowestPid | weensyos2/schedos-kern.c:225-245 | with priorities increasing in the pid policy 2 chooses exactly as policy 1 |
| Fairness.ZeroSharesAreRoundRobin | weensyos2/schedos-kern.c:246-259 | with all shares zero and `current` counted once policy 3 chooses as policy 0, and the condition holds again |
| PolicyRuns.PriorityStretch | weensyos2/schedos-kern.c:207-245 | any stretch of a run of policy 2 with equal (pid-increasing) priorities is a run of policy 0 (policy 1) |
| PolicyRuns.ZeroShareStretch | weensyos2/schedos-kern.c:246-259 | any stretch of a run of policy 3 with zero shares is a run of policy 0, counts left out |
| DispatchRuns.StretchIsShareRun | weensyos2/schedos-kern.c:246-259 | the dispatches of any stretch of the preemptive machine under policy 3 without exit, priority or share call are a run of the share wheel |
| DispatchRuns.StretchShares | weensyos2/schedos-kern.c:246-259 | so in any such stretch every process gets its part of the dispatches to within one turn, and exactly its turn in a full rotation |
| DispatchRuns.StretchIsPickRun | weensyos2/schedos-kern.c:207-245 | under policies 0 to 2 they rotate through the best processes |
| DispatchRuns.StretchRotates | weensyos2/schedos-kern.c:207-245 | so as many dispatches as there are best processes run each of those once and nobody else |
| DispatchRuns.StretchIsWaitingRun | weensyos2/schedos-kern.c:207-245 | in any stretch at all, exits and priority calls included, in which a process is among the best at each dispatch, the dispatches are a waiting run for it |
| DispatchRuns.StretchWaits | weensyos2/schedos-kern.c:207-245 | so that process is dispatched before its cyclic distance is used up |
| Applications.RunsBegin | weensyos2/schedos-kern.c:61-112 | with any applications, any number of prints and any of the five policies there are runs, beginning with process 1 before its first call |
| Applications.TrapViews | weensyos2/schedos-kern.c:128-132 | an interrupt leaves every process the registers it had |
| Applications.TrapTable | weensyos2/schedos-kern.c:127-185 | an interrupt changes only the current descriptor, and running counts of runnable ones |
| Applications.TableSafety | weensyos2/schedos-kern.c:71-185 | over every run: states move only from runnable to zombie, zombies and their exit status are frozen and never run, slot 0 stays empty, whoever runs is runnable |
| CallRecords.TableFollowsCalls | weensyos2/schedos-1.c:36-68 | over every run under every policy: once process p has made its calls its descriptor holds the priority, share and tickets that application p was compiled with, and every zombie has status 0 |
| LockSafety.InstructionKeepsLock | weensyos2/schedos-1.c:50-53 | every instruction of any process keeps the lock invariant, including the three of `*cursorpos++ = c` |
| LockSafety.QuietChangeKeepsLock | weensyos2/schedos-kern.c:127-185 | an interrupt between any two instructions keeps it |
| LockSafety.LockSafety | weensyos2/schedos-1.c:45-62 | in every state of every run under every policy: the lock is 1 exactly when one process is between its swaps, and when it is free the cursor has moved by the number of prints and the screen is those prints in lock order |
| LockSafety.PrintsBounded | weensyos2/schedos-1.c:45-62 | nobody prints more than RUNCOUNT cells, so there are never more than N * RUNCOUNT |
| LockSafety.PrintsSurvive | weensyos2/schedos-1.c:50-53 | once the lock is released after a print its cell keeps that print for the rest of the run |
| LockSafety.AllPrinted | weensyos2/schedos-1.c:45-67 | when all have exited, each has printed exactly RUNCOUNT cells, the lock is free and the screen is those prints and nothing else |
| LockSafety.OnScreen | weensyos2/schedos-1.c:45-62 | if N * RUNCOUNT is at most 2000 no cell outside the screen ever changes |
| LockSafety.LockedOutForEver | weensyos2/schedos-kern.c:99-104 | started with a nonzero lock word, no run of any policy ever prints or changes the screen |
| Screens.FreeScreen | weensyos2/schedos-1.c:45-62 | whenever the lock is free, cell j shows the character of the application that printed j-th, the other cells of the screen are 0x0720, and memory outside it is unchanged |
| ShareRuns.Starves | weensyos2/schedos-kern.c:246-259 | in every preemptive run of policy 3 a process of negative share makes at most the two calls up to the one that sets it, and whoever runs has a share |
| ShareRuns.ShareStopped | weensyos2/schedos-kern.c:246-259 | when such a run stops everybody with a share of at least zero has printed R cells and exited, and everybody else has printed nothing and is stuck after its second call |
| ShareRuns.WorkToDo | weensyos2/schedos-kern.c:246-259 | the work done in such a run stays below the sum of those quotas until it stops, and equals it then |
| FairRuns.FairLeads | weensyos2/schedos-kern.c:225-245 | under policy 2 with any priorities, if no clock interrupt comes right after a dispatch, whoever runs and whoever holds the lock is of the best class in every state of every run, and priorities are set in the order of the pids |
| Liveness.EntriesBounded | weensyos2/schedos-kern.c:202-259 | under policies 0 to 3, if no clock interrupt comes right after a dispatch, every run enters the kernel at most once for each unit of work and each dispatch in a round of turns (N * N(4 + 6R) times under policies 0 to 2), however much is spun, and has stopped by then |
| Liveness.EntriesInNumbers | weensyos2/schedos-kern.c:202-259 | that is at most N * N(4 + 6R) entries under policies 0 to 2, and N(s + 1) * N(4 + 6R) under policy 3 with equal shares s |
| Liveness.CanGoOn | weensyos2/schedos-kern.c:202-259 | until it stops, the running process can always execute something |
| Liveness.StoppedIsDone | weensyos2/schedos-1.c:36-68 | when it has stopped everybody has printed R cells and exited, save those of negative share under policy 3, which have printed none |
| PriorityBarrier.StepKeepsAssigned | weensyos2/schedos-kern.c:153-158 | under every policy the table holds zero until a process sets its priority, and that priority from then on |
| PriorityBarrier.NoLockBeforeBarrier | weensyos2/schedos-kern.c:225-245 | under policy 2 with positive priorities, preemptive or not, nobody wins the lock before every process has set its priority |
| PriorityBarrier.NoInversion | weensyos2/schedos-kern.c:225-245 | from then on the lock holder is of the best runnable class, and whoever runs, spinners included, has the holder's priority |
| PriorityBarrier.RunKeepsLeads | weensyos2/schedos-kern.c:225-245 | for any priorities among which no zero meets a negative one, in every state of every run whoever runs and whoever holds the lock is of the best class |
| BarrierRuns.BarrierIff | weensyos2/schedos-kern.c:225-245 | every state of every run of policy 2 keeps the barrier if and only if all priorities are positive, or RUNCOUNT is zero, or there is one application |
| BarrierRuns.InversionIff | weensyos2/schedos-kern.c:225-245 | in every state of every run of policy 2 the lock holder is of the best class and so is whoever runs, if and only if RUNCOUNT is zero or no priority zero meets a negative one |
| BarrierRuns.CanLockUp | weensyos2/schedos-kern.c:225-245 | otherwise a state can be reached in which the only process of the best class waits for a lock that another one holds |
| BarrierRuns.StuckForEver | weensyos2/schedos-kern.c:225-245 | and from such a state every continuation keeps running that process and prints nothing |
| Turns.RunClasses | weensyos2/schedos-kern.c:207-245 | once keys are fixed the classes take all their turns one after the other, each in rounds in cyclic order |
| Turns.ExactOrder | weensyos2/schedos-kern.c:207-245 | the exact order of all system calls under policies 0, 1 and 2, for any number of processes and prints and any priorities, including the three set-up calls |
| Prints.ExactPrints | weensyos2/schedos-kern.c:207-245 | what that order prints: (1 2 ... N)^R, 1^R 2^R ... N^R, or the processes of negative priority one by one and then the classes in ascending order, each interleaved R times |
| Prints.AscendingClasses | weensyos2/schedos-kern.c:225-245 | without negative priorities the classes print in ascending order of priority number, each interleaved R times |
| Prints.NegativeClassesDoNotAlternate | weensyos2/schedos-kern.c:225-245 | two processes of priority -1 with two prints each print 1 1 2 2, not 1 2 1 2 |
| ClassShape.ClassesAscendIff | weensyos2/schedos-kern.c:225-245 | policy 2 prints the classes in ascending order, each as R rounds of the class in cyclic order from anywhere, if and only if R is zero or the negative priorities increase strictly with the pid, equal ones allowed when R is one |
| Prints.AsBuilt | weensyos2/schedos-3.c:8-12 | with the priorities of the four applications policy 2 prints (1 3)^R 2^R 4^R |
| Cooperative.CoopPrefix | weensyos2/schedos-kern.c:66-69 | at any moment of any cooperative run the prints so far begin the exact schedule |
| Cooperative.CoopScreen | weensyos2/schedos-1.c:36-68 | when the cooperative system stops the screen shows exactly that schedule, each cell its process's character, and the lock is free |
| Cooperative.StepsAreWork | weensyos2/schedos-1.c:36-68 | a cooperative run wastes no instruction: a complete one takes exactly N(4 + 6R) steps, and no run takes more |
| Cooperative.CoopContinues | weensyos2/schedos-kern.c:202-245 | a cooperative run that has not stopped can always go on |
| Cooperative.StoppedMeansGone | weensyos2/schedos-kern.c:202-245 | the kernel stops dispatching only when every process has exited |
| Cooperative.NeverContended | weensyos2/schedos-1.c:50-51 | without clock interrupts the lock is free whenever a process tries to take it |
| LowestPidRuns.LowestPrefix | weensyos2/schedos-kern.c:217-224 | in every preemptive run of policy 1, wherever clock interrupts fall, the prints so far begin 1^R 2^R ... N^R |
| LowestPidRuns.LowestScreen | weensyos2/schedos-kern.c:217-224 | and when it stops the screen shows exactly that, with the lock free |
| LowestPidRuns.LowestUncontended | weensyos2/schedos-kern.c:217-224 | and the lock is free whenever a process tries to take it |
| Screens.RoundRobinScreen | weensyos2/schedos-kern.c:207-216 | at the stop of a cooperative run of policy 0 print i of process p is cell N * i + p - 1 |
| Screens.LowestPidScreen | weensyos2/schedos-kern.c:217-224 | at the stop of any run of policy 1 print i of process p is cell R * (p - 1) + i |
| Screens.PriorityScreen | weensyos2/schedos-kern.c:225-245 | at the stop of a cooperative run of policy 2 with priorities of at least zero the cells are in ascending order of the priority numbers of those who printed them |
| Screens.AsBuiltScreen | weensyos2/schedos-3.c:8-12 | with the priorities of the four applications cells 2i and 2i + 1 are the first and the third application's, 2R + i the second's and 3R + i the fourth's |
| ShareTurns.ExactShareOrder | weensyos2/schedos-kern.c:246-259 | the exact order of all calls under policy 3, for any number of processes and prints and any shares: laps in which everybody takes a burst of `share + 1` calls, with the set-up calls as they are counted |
| ShareCooperative.ShareScreen | weensyos2/schedos-kern.c:246-259 | when the cooperative system stops under policy 3 the screen shows exactly the prints of those laps, and the lock is free |
| Screens.SharesScreen | weensyos2/schedos-kern.c:246-259 | in closed form: a process of share s >= 0 has made s + (k - 1)(s + 1) prints, or R if that is less, by the end of its turn number k with a share, and in every lap the processes print up to there in the order of their pids |
| ShareCooperative.SharePrefix | weensyos2/schedos-kern.c:246-259 | at any moment of a cooperative run of policy 3 the prints so far begin those of the laps |
| ShareCooperative.ShareContinues | weensyos2/schedos-kern.c:246-259 | a cooperative run of policy 3 that has not stopped can always go on |
| ShareCooperative.ShareStepsAreWork | weensyos2/schedos-1.c:36-68 | and wastes no instruction: it stops after exactly 4 + 6R steps for each process with a share and two for each other, and no run takes more |
| Turnaround.ExitTime | weensyos2/answers.txt:21-33 | in every cooperative run a process exits when exactly `Completion` prints are on the screen |
| Turnaround.WaitTime | weensyos2/answers.txt:21-33 | in every cooperative run a process prints for the first time when exactly `Wait` prints are on the screen |
| Turnaround.RoundRobinTimes | weensyos2/answers.txt:21-26 | under policy 0 everyone exits after N * R prints, and process p waits for p - 1 |
| Turnaround.LowestPidTimes | weensyos2/answers.txt:28-33 | under policy 1 process p exits after p * R prints and waits for (p - 1) * R |
| Turnaround.LowestPidIsNoSlower | weensyos2/answers.txt:35-41 | the totals differ by (R - 1)N(N - 1)/2, so policy 1's average is never larger, for any N and any R >= 1 |
| Turnaround.DocumentedAverages | weensyos2/answers.txt:35-41 | for four processes and 320 prints the averages are the documented 1278.5 and 800 |
| TrapFrame.RoundTrip | weensyos2/schedos-int.S:45-118 | saving any registers into a frame and loading it restores every one, whatever the padding, interrupt number and saved kernel stack pointer |
| TrapFrame.FrameLayout | weensyos2/x86.h:28-56 | the frame by address: edi, esi, ebp, the kernel's stack pointer, ebx, edx, ecx and eax from 0 on, es at 32, ds at 36, the interrupt number at 40, 0 at 44, then eip, cs, eflags, esp and ss |
| TrapFrame.Cpu.EnterKernel | weensyos2/schedos-int.S:100-103 | the processor pushes the interrupted stack, flags and program counter, in frame order, on the kernel stack |
| TrapFrame.Cpu.PushAll | weensyos2/schedos-int.S:108 | the eight words of `pushal`, the old stack pointer among them, leaving those above alone |
| TrapFrame.Cpu.Handler | weensyos2/schedos-int.S:45-118 | a numbered handler completes the frame and passes its address |
| TrapFrame.Cpu.Trap | weensyos2/schedos-int.S:40-118 | `interrupt` gets a pointer to exactly the frame `registers_t` lays out |
| TrapFrame.Cpu.Resume | weensyos2/schedos-x86.c:312-323 | `run` loads every register of any frame, ignoring the stack pointer `pushal` stored |
| TrapFrame.Cpu.CopyFrame | weensyos2/schedos-kern.c:130-132 | the frame copied to the descriptor is the frame on the stack |
| TrapFrame.TrapAndResume | weensyos2/schedos-kern.c:130-132 | interrupt, copy and resume on the machine bring back every register |
| ContextIsolation.InterruptKeepsRegs | weensyos2/schedos-kern.c:130-132 | an interrupt changes nobody's registers, wherever it falls |
| ContextIsolation.InstructionStep | weensyos2/schedos-kern.c:128-132 | an instruction applies the running process's program to the registers in the processor and to shared memory, and changes nothing else |
| ContextIsolation.ResumesUnchanged | weensyos2/schedos-kern.c:128-132 | a process that has the processor again finds in it the registers it last left there, whatever the others did meanwhile |
| ContextIsolation.Isolation | weensyos2/schedos-kern.c:127-185 | in every run of arbitrary programs with interrupts anywhere, each process's registers are those of the process running alone on the same shared-memory reads |
| ContextIsolation.TableSafety | weensyos2/schedos-kern.c:71-185 | over every run of arbitrary programs making any known calls, atomic prints included: states move only from runnable to zombie, zombies are frozen and never run, whoever runs is runnable |
| ContextIsolation.CallOf | weensyos2/schedos-kern.c:127-185 | whatever the programs, the argument of a call is what the caller had in eax, recorded by interrupt number in the caller's descriptor and nobody else's, or printed |
| ContextIsolation.ExitStatusStays | weensyos2/schedos-kern.c:147-152 | a process that calls `sys_exit(x)` is a zombie with status x in every later state of every run of arbitrary programs |
| ContextIsolation.FirstRegisters | weensyos2/schedos-x86.c:227-237 | every process starts at its entry point with its own stack, application segments, interrupts on and all else zero |
| Numbers.ParseNumeral | weensyos2/lib.c:91-102 | for both digit alphabets and bases 10 and 16 the digits of a number parse back to it |
| Numbers.NoLeadingZero | weensyos2/lib.c:91-102 | a numeral starts with zero only if it is `0` |
| Numbers.TenDigits | weensyos2/lib.c:115-116 | ten digits are enough for 32 bits, so the 20-byte buffer is too |
| Numbers.FillNumbuf | weensyos2/lib.c:91-102 | the loop terminates, stays in the buffer and leaves the number's digits and a terminator, or none for zero with precision zero |
| Console.RingShowsLast | weensyos2/lib.c:74-86 | a cell shows the last element of the unbounded stream whose position is its index modulo 2000 |
| Console.RingKeeps | weensyos2/lib.c:74-86 | a cell no element goes to keeps its old value |
| Console.RingFull | weensyos2/lib.c:74-86 | after a screenful or more the screen is exactly the last 2000 elements |
| Console.RingConcat | weensyos2/lib.c:74-86 | printing two streams in turn is printing their concatenation, cursor included |
| Console.FillRow | weensyos2/lib.c:79-82 | a newline fills its row with blanks, never storing outside the buffer |
| Console.Putc | weensyos2/lib.c:74-86 | every store is inside the buffer, and buffer and cursor are those of the ring with the glyph's cells added: the character in the low byte and the colour's high byte at the cursor, or blanks of that colour to the end of the row |
| Console.ShowsNext | weensyos2/lib.c:74-86 | after any sequence of prints one more call keeps console and stream in step |
| Console.GlyphCells | weensyos2/lib.c:74-86 | cell by cell: a character goes to the cell at the cursor, or to cell 0 from the end, as its code with the colour's bits; a newline makes every cell from there to the next multiple of 80 a blank of that colour; the other cells keep their contents |
| Console.TextShown | weensyos2/lib.c:74-86 | text without a newline that fits behind the cursor is in the cells from there on, in order and in its colours, and nothing else changes |
| Formatter.PlainText | weensyos2/lib.c:119-123 | text without `%` is printed as it is |
| Formatter.LayoutWidth | weensyos2/lib.c:212-242 | a conversion fills exactly the wider of its field and sign, zeros and data |
| Formatter.NumbersReadBack | weensyos2/lib.c:161-242 | without a precision every numeric conversion, for any flags and width, reads back as its argument, signed for `%d` including the least integer |
| FormatStandard.NumberMatchesStandardIff | weensyos2/lib.c:161-242 | for `%d`, `%u`, `%x` and `%X`, all flags, widths and precisions, in digits or as `*`, and all arguments, the output is what C11 asks for if and only if the precision is absent or no shorter than the number (none for zero at precision zero), a negative width no wider than the output, and, unless signed, there is no `+`, no base due, and a blank flag passes for padding |
| FormatStandard.PrecisionTruncates | weensyos2/lib.c:212-225 | `%.2d` prints 12345 as 12 |
| FormatStandard.NegativePrecisionTruncates | weensyos2/lib.c:147-159 | `%.*d` with -1 and 0 prints nothing, where C11 asks for `0` |
| FormatStandard.NegativeWidthIsLost | weensyos2/lib.c:136-146 | `%*.0d` with -1 and 0 prints nothing, where C11 asks for one blank |
| FormatStandard.BaseIsMissing | weensyos2/lib.c:176-185 | `%#x` prints 10 as `a`, where C11 asks for `0xa` |
| FormatScan.SpecReadsBack | weensyos2/lib.c:125-159 | reading inverts writing: any flags in any order, any width, any precision (no digits after the point and leading zeros included), in digits or as `*`, before any conversion character or the end of any format, read back as meant, consuming the right arguments |
| Printf.Strnlen | weensyos2/lib.c:58-66 | the length, cut at the bound |
| Printf.ScanFlags | weensyos2/lib.c:125-134 | the flag loops find the set of leading flags and where it ends |
| Printf.ScanNumber | weensyos2/lib.c:138-140 | the digit loop computes the number written there |
| Printf.ScanSpec | weensyos2/lib.c:125-159 | flags, width and precision as the renderer reads them, never past the terminator |
| Printf.Fetch | weensyos2/lib.c:161-210 | the switch produces the renderer's item through the 20-byte buffer |
| Printf.PutItem | weensyos2/lib.c:212-242 | the four output loops print padding, sign, zeros, data and padding |
| Printf.ConsoleVprintf | weensyos2/lib.c:111-247 | for every format and argument list the console ends up showing exactly the rendered glyphs, and the format is never read past its terminator, even when it ends inside a conversion |
| FormatPieces.PiecesRender | weensyos2/lib.c:111-247 | for formats made of text and conversions the output is that of the pieces one after the other, each conversion with the arguments that are its own: one for each `*`, one for `d u x X s c C`, none for others; numbers signed and padded, strings cut at the precision, characters, `%`, and `%C` as the colour of all later pieces |
| FormatPieces.InPieces | weensyos2/lib.c:111-247 | every format consists of such pieces, a last specification without a conversion character printing `%` |
| FormatPieces.NumberTextIff | weensyos2/lib.c:161-242 | anywhere in a format the text of a number is what C11 asks for if and only if the condition on the written amounts holds |
| FormatPieces.TwoNumbers | weensyos2/lib.c:165-170 | `%d%d` with 1 and 2 prints `12` |
| FormatPieces.ColorHolds | weensyos2/lib.c:194-196 | `%Cx` with 0x100 prints `x` in that colour |
| Memory.Memcpy | weensyos2/lib.c:16-24 | the exact result of the ascending copy, also when it overtakes its source and repeats bytes |
| Memory.CopiedInside | weensyos2/lib.c:16-24 | in which the destination is equal to what was in the source, or, when it begins after the source, to what is then in the source |
| Memory.Memmove | weensyos2/lib.c:26-39 | the destination holds the old source bytes for every overlap, nothing else changes |
| Memory.CopyIsMoveIff | weensyos2/lib.c:16-39 | `memcpy` moves every memory's bytes as `memmove` does if and only if the destination does not begin inside the source |
| DiskImage.FileInImage | weensyos2/mkbootdisk.c:115-149 | every file argument is in the image whole, at its sector, zero-padded to a sector boundary |
| DiskImage.ImageShape | weensyos2/mkbootdisk.c:93-155 | the image begins with the boot code, has 0x55 0xAA at 510, is a whole number of sectors and at least 1024 |
| DiskContents.Sectors | weensyos2/mkbootdisk.c:107-149 | the first argument begins at sector 1, the next one after a file of n bytes (n + 511) / 512 sectors on, and the next one after `@s` at sector s |
| DiskContents.MakeableIff | weensyos2/mkbootdisk.c:96-128 | there is an image if and only if the boot code has at most 510 bytes and no `@s` comes after sector s |
| DiskContents.Contents | weensyos2/mkbootdisk.c:93-155 | every byte of the image: the boot code, zeros to byte 509, 0x55 and 0xAA, each file from byte 512 * sector on, zeros everywhere else |
| DiskContents.ImageLength | weensyos2/mkbootdisk.c:147-155 | the image ends with the last argument's sector, but not before sector 1024 |
| DiskImage.TransferByReport | weensyos2/mkbootdisk.c:54-67 | an error or a write of no bytes ends a transfer, an interrupted write is tried again, a short one goes on with the rest |
| DiskImage.HealthyTransfer | weensyos2/mkbootdisk.c:54-67 | short and interrupted writes alone never make a write give up |
| DiskImage.Writer.DiskWrite | weensyos2/mkbootdisk.c:46-68 | whatever `write` reports, the bytes reaching the file are a prefix of the data, in order and once each, all of them on success; `curoff` is the file's length |
| DiskImage.Writer.ZeroSectors | weensyos2/mkbootdisk.c:129-132 | the loop adds zero sectors up to the given one, never more |
| DiskImage.Writer.CopyFile | weensyos2/mkbootdisk.c:136-148 | the chunked copy and its padding add the whole padded file |
| DiskImage.Writer.WriteArg | weensyos2/mkbootdisk.c:117-149 | one argument, starting with the file at byte 512 * nsectors, adds its piece of the layout; skipping back gives up |
| DiskImage.Writer.MakeDisk | weensyos2/mkbootdisk.c:70-158 | a successful run leaves exactly the image, any other a prefix of it; with a boot sector of at most 510 bytes, no skip back and no error report it never gives up |
| ElfLayout.HeaderReadsBack | weensyos2/elf.h:6-22 | for any `struct Elf` stored little-endian anywhere the loaders read its magic, entry point, header offset and header count |
| ElfLayout.ProgramHeaderReadsBack | weensyos2/elf.h:24-33 | for any `struct Proghdr` stored anywhere they read its type, offset, address and sizes |
| StoredPrograms.HeaderLayout | weensyos2/elf.h:6-22 | in the 52 bytes of `struct Elf` the magic is at 0, the entry point at 24, the header offset at 28, least significant byte first, and the header count at 44 |
| StoredPrograms.ProgramHeaderLayout | weensyos2/elf.h:24-33 | in the 32 bytes of `struct Proghdr` type, offset, address, file size and memory size are at 0, 4, 8, 16 and 20 |
| Elf.SameHeader | weensyos2/elf.h:6-22 | equal bytes hold equal ELF headers wherever they lie |
| Elf.SameProghdr | weensyos2/elf.h:24-33 | and equal program headers |
| BootLoader.ReadSect | weensyos2/schedos-boot.c:109-127 | one sector replaces 512 bytes of memory |
| BootLoader.ReadSeg | weensyos2/schedos-boot.c:76-99 | exactly the rounded sectors are read and the tail is cleared, nothing else changes |
| BootLoader.LoadedIff | weensyos2/schedos-boot.c:76-99 | `readseg` puts a segment's bytes and zeros at its address for every disk if and only if address and offset agree modulo 512 or there are no file bytes |
| BootLoader.BootedStep | weensyos2/schedos-boot.c:66-70 | reading one more segment keeps the header page and the segments already read |
| BootLoader.BootMain | weensyos2/schedos-boot.c:53-74 | jumps if and only if sector 1 begins with 0x7F E L F; then it has read every segment, changed nothing outside them and the header page, and goes to the entry point |
| BootChain.KernelOnDisk | weensyos2/GNUmakefile:92-95 | the kernel file given to `mkbootdisk` is what the boot loader reads from sector 1 on |
| BootChain.LoadableIsBootable | weensyos2/schedos-boot.c:59-70 | a loadable kernel file meets all that `bootmain` needs of the disk, and its headers are those read |
| BootChain.LinkedIsLoaded | weensyos2/schedos-boot.c:53-99 | end to end: after `mkbootdisk` and `bootmain` memory holds every segment of the kernel file, its bytes and then zeros |
| StoredKernel.KernelAsStored | weensyos2/schedos-boot.c:53-99 | the same for a kernel file given by its structures: if headers of any type lie at phoff + 32 j in the first page, and their segments have the same place in their sectors in the file and in memory and keep apart in whole sectors, `bootmain` can load the disk, every segment's bytes and zeros arrive, and the entry point is the stored one |
| RamLoader.CopySeg | weensyos2/schedos-loader.c:69-85 | the exact memory `copyseg` leaves, for any address and overlap |
| RamLoader.InstalledParts | weensyos2/schedos-loader.c:69-85 | which is the source from the beginning of the page va - va % 4096 on, if it does not begin before that, zeros after the file bytes, and all else unchanged |
| RamLoader.AlignedInstalls | weensyos2/schedos-loader.c:69-85 | a page-aligned segment ends up as its bytes and zeros, and nothing else changes |
| RamLoader.InstallsIff | weensyos2/schedos-loader.c:69-85 | for any address, size and source, overlapping or not, `copyseg` installs the right bytes of every memory if and only if the segment has no file bytes, or is page-aligned where the copy does not overtake its source, or repeats exactly where it does |
| RamLoader.OvertakenSourceIsLost | weensyos2/schedos-loader.c:69-85 | a page-aligned segment of two bytes whose source begins one byte before it ends up wrong |
| RamLoader.LoadNext | weensyos2/schedos-loader.c:56-63 | loading one more segment keeps those loaded before, the image, and everything else |
| RamLoader.LoaderPanic | weensyos2/schedos-loader.c:87-92 | a grey exclamation mark in the corner of the screen, nothing else |
| RamLoader.ProgramLoader | weensyos2/schedos-loader.c:41-67 | starts the program if and only if the number is good and the image begins with 0x7F E L F, and panics otherwise; every loadable segment is then in memory, nothing else changes, and the result is the entry point |
| StoredPrograms.LinkedIsLoadable | weensyos2/schedos-loader.c:41-67 | an image that holds an executable's header and its program headers at phoff + 32 j, with page-aligned segments of type 1 apart from each other and the image, can be loaded, and the headers of type 1 are those that are |
| StoredPrograms.LoadedAsStored | weensyos2/schedos-loader.c:41-67 | afterwards every segment of type 1 has its stored bytes and then zeros at its address, and an address in no such segment holds what it held, whatever other headers there are |
| ProgramImages.ImagesIntact | weensyos2/schedos-kern.c:78-97 | loading programs leaves all images as they are |
| ProgramImages.LoadAll | weensyos2/schedos-kern.c:78-97 | after the loading loop all programs are in memory at the same time as linked, with their entry points |
| StoredPrograms.LinkedAreLoadable | weensyos2/schedos-kern.c:78-97 | images that hold executables with the four bytes first and segments of type 1 apart can all be loaded |
| StoredPrograms.AllLoadedAsStored | weensyos2/schedos-kern.c:78-97 | and after the loading loop all their segments of type 1 are in memory as stored, everything else unchanged |
| StoredPrograms.EntriesAsStored | weensyos2/schedos-kern.c:78-97 | with the entry points of the stored headers |

## Left out

- Port I/O, the interrupt controller and timer set-up, disk waiting, the hardware cursor and `console_read_digit`: device plumbing without a deeper property.
- Descriptor tables, the TSS and real-mode start-up (`segments_init`, `bootstart.S`): bit packing that would only add easy members.
- The commented-out lottery: dead code. Policy 4 is the live uniform choice, with cycle-counter readings as an arbitrary list and no statement about probabilities.
- `default_int_handler`: it pushes one word less than the frame needs, after which the kernel spins; the trap model has the numbered handlers and the clock.
- The `sys_atomic_print` variant of the applications: the kernel's handling of the call is modelled, and `ContextIsolation` covers programs that make it; what such applications print is not stated.
- `compare_and_swap` and `fetch_and_add` (unused), `memset` and `strlen` on their own.
- The variable-argument layout: arguments are a typed list. A missing or wrongly typed argument reads as zero or the empty string, where the source has no meaning.
- The text of "Unknown scheduling algorithm": an unknown policy only spins.
- Command-line parsing, messages and usage exits of `mkbootdisk`; its results of `fread` other than full chunks before the end of the file.
- Address arithmetic that wraps at 2^32: memory ends below that, and segments fit into it.
- Reading of the sector number by the disk controller: a disk is a function from sector numbers to 512 bytes.
- KernelCode.Kernel.Schedule: an endless loop is an outcome, reported when a scan has gone once round the table and found nobody; that the source's loops spin in exactly those cases is stated by the `SpinsIff` lemmas.
- KernelCode.Kernel.Random: when the given readings run out the loop is still going on, which the model reports as spinning.
- KernelCode.Kernel.ProportionalShare: counts are unbounded, so a share of `INT_MAX`, whose count overflows a C `int` and then has no defined meaning, is not modelled.
- Printf.ConsoleVprintf: widths and precisions are unbounded; where a C `int` would overflow, the source has no defined meaning.
- Printf.ScanNumber: the number is unbounded, likewise.
- Printf.ScanSpec: widths and precisions written in digits are unbounded, likewise.
- FormatStandard.NumberMatchesStandardIff: C11 leaves the flag `#` undefined for `%d` and `%u`; it is taken as ignored there, as the code ignores it.
- Applications.TableSafety: is about applications that make the calls of `schedos-1.c`; `ContextIsolation.TableSafety` covers arbitrary programs.
- PriorityBarrier.NoLockBeforeBarrier: is about positive priorities; `BarrierRuns.BarrierIff` has the exact condition.
