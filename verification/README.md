# Process system calls and trap gateway of a teaching RISC-V kernel

This project is a Dafny model of two parts of the kernel.

- **The process system calls** of `os/src/syscall/process.rs`: `sys_getpid`, `sys_set_priority`, `sys_fork`, `sys_exec`, `sys_spawn` and `sys_waitpid`.
  - Each call is a total function from an immutable kernel state to the next state and the `isize` the caller gets back in register a0.
  - A kernel panic is an outcome of its own (`Process.Outcome.Panicked`).
- **The trap gateway** of `os/src/trap/mod.rs`:
  - `trap_handler`'s dispatch on the trap cause, which covers system call, store fault, illegal instruction, timer and everything else;
  - the user/kernel mode machine that `set_kernel_trap_entry`, `set_user_trap_entry`, `trap_return` and `trap_from_kernel` drive.

The state lives in `Task.Kernel`. It has:

- a task table keyed by pid, whose control blocks hold the parent link, the children list, the run state, the exit code, the priority, the saved trap context and the program image;
- the current task and the ready queue;
- the pid allocator's counter;
- the loader's table of programs.

`Task.Valid` is the invariant the Rust types and the allocator maintain:

- every child link points at a task whose parent link points back;
- children lists have no duplicates;
- the counter lies above every pid in use;
- the current task and every queued task are live (not zombies).

From this invariant follows `Task.UniqueOwnership`: no task sits in two children lists. That is what makes `sys_waitpid`'s reference-count assertion (`strong_count == 1`) hold.

Machine words are explicit.

- `usize`, `isize` and `i32` are subset types.
- The `as` casts between `isize` and `usize` are two's-complement reinterpretations (`Machine.AsUsize`, `Machine.AsIsize`).
- Because of this, `waitpid` with target `-2` matches a child whose pid is 2^64-2, exactly as `pid as usize == p.getpid()` does.

Layout:

| file | contents |
|---|---|
| `machine.dfy` | machine words and casts, `Option` |
| `context.dfy` | the saved trap context (32 registers and `sepc`) |
| `seqs.dfy` | first-match search and removal by position, with their properties |
| `task.dfy` | task control blocks, the kernel state and its invariant |
| `process.dfy` | the system calls, and `sys_spawn` as written and as intended |
| `process_properties.dfy` | invariant preservation; the waitpid, fork and spawn properties |
| `trap.dfy` | cause dispatch (as written and as intended) and the mode machine |
| `trap_properties.dfy` | properties of dispatch and of runs of the mode machine |

## Model

| member | source | states |
|---|---|---|
| Machine.AsUsize | os/src/trap/mod.rs:66 | `v as usize` keeps the bit pattern: equal to `v` modulo 2^64, and equal to `v` when `v` is non-negative |
| Machine.AsIsize | os/src/syscall/process.rs:159 | `v as isize` keeps the bit pattern: equal to `v` modulo 2^64, and equal to `v` when `v` fits in `isize` |
| Machine.SignedRoundTrip | os/src/trap/mod.rs:66 | a signed result stored in a0 as `usize` and read back as `isize` is unchanged |
| Machine.UnsignedRoundTrip | os/src/syscall/process.rs:54 | a pid returned as `isize` and read back as `usize` is the pid itself |
| Machine.WrappingAdd | os/src/trap/mod.rs:65 | `sepc += 4` equals the true sum modulo 2^64, and the true sum when it does not overflow |
| TrapContext.SetReg | os/src/syscall/process.rs:50 | writing one saved register changes that register only, and keeps the context well formed |
| Seqs.IndexOfFirst | os/src/syscall/process.rs:135-149 | `iter().find` gives `None` exactly when no element satisfies the predicate, and otherwise the first satisfying position |
| Seqs.RemoveAt | os/src/syscall/process.rs:151 | `Vec::remove(idx)` shortens the list by one, keeping the elements before `idx` in place and shifting the rest down one |
| Seqs.RemoveAtMultiset | os/src/syscall/process.rs:151 | the removed element and the remaining list together are exactly the original elements |
| Seqs.RemoveAtNoDuplicates | os/src/syscall/process.rs:151-153 | removing from a duplicate-free list leaves a duplicate-free list that no longer contains the removed element |
| Task.OwnershipUnique | os/src/syscall/process.rs:151-153 | under the invariant, every task sits in at most one children list, and at one position only |
| Task.ReplaceTcbKeepsValid | os/src/syscall/process.rs:62-65 | replacing a control block without changing its identity, links or run state keeps the invariant |
| Process.SysGetPid | os/src/syscall/process.rs:36-38 | returns the caller's pid as a signed word, which reads back as the pid, and changes nothing |
| Process.SysSetPriority | os/src/syscall/process.rs:167-174 | in range 2..=`ISIZI_MAX as usize`, sets only the caller's priority and returns it; otherwise returns -1 and changes nothing |
| Process.SysFork | os/src/syscall/process.rs:40-55 | panics exactly when the pid space is exhausted; otherwise returns the fresh pid and gives the child a well-formed context whose a0 is 0; the caller's children and the ready queue each gain the child at the end |
| Process.SysExec | os/src/syscall/process.rs:57-69 | returns -1, changing nothing, exactly when the program is unknown; otherwise returns 0 and only the caller's image and context change |
| Process.SysWaitPid | os/src/syscall/process.rs:129-164 | when nothing is written out, the state is unchanged and the result is -1 or -2; a reap shortens the caller's children list by exactly one |
| Spawn.SysSpawn | os/src/syscall/process.rs:75-84 | as written: it never returns a pid; an unknown program gives -1 but leaves the forked child behind; a known program overwrites the caller's own image and then panics |
| Spawn.SysSpawnIntended | os/src/syscall/process.rs:112-124 | intended, in the draft's lookup, fork, exec-in-child, return-pid order: an unknown program gives -1 and changes nothing; a known one gives the fresh child's pid, and the child runs that program from its initial context while the caller is otherwise untouched. Unlike the draft, whose `add_task` is commented out, the child is queued, as `sys_fork` does |
| ProcessProperties.ForkEffect | os/src/syscall/process.rs:40-55 | a fork that does not exhaust the pids gives a child that copies the caller's registers (a0 forced to 0), image and `sepc`, has no children, is ready and is queued last; nothing else changes |
| ProcessProperties.ForkKeepsOldTaskValid | os/src/syscall/process.rs:42-52 | after a fork every pre-existing task still has consistent, duplicate-free child links |
| ProcessProperties.ForkedIntoKeepsValid | os/src/syscall/process.rs:42-52 | a fork of that shape keeps the kernel invariant |
| ProcessProperties.ForkKeepsValid | os/src/syscall/process.rs:40-55 | `sys_fork` keeps the kernel invariant |
| ProcessProperties.ExecKeepsValid | os/src/syscall/process.rs:57-69 | `sys_exec` keeps the kernel invariant |
| ProcessProperties.SetPriorityKeepsValid | os/src/syscall/process.rs:167-174 | `sys_set_priority` keeps the kernel invariant |
| ProcessProperties.SetPriorityRange | os/src/syscall/process.rs:169-173 | with a non-negative `ISIZI_MAX`, the result is the argument exactly when 2 <= prio <= `ISIZI_MAX`, and -1 exactly otherwise, in which case the priority is unchanged |
| WaitPidProperties.WaitPidNoChild | os/src/syscall/process.rs:135-141 | the result is -1, with nothing changed, exactly when no child matches the target |
| WaitPidProperties.WaitPidPending | os/src/syscall/process.rs:142-164 | the result is -2, with nothing changed, exactly when some child matches but no matching child has exited |
| WaitPidProperties.WaitPidReaps | os/src/syscall/process.rs:150-159 | the first exited matching child in list order is taken out, and its pid is returned with its exit code written out; a panic happens only when something else still refers to that child |
| WaitPidProperties.FirstReapableExists | os/src/syscall/process.rs:142-150 | when some matching child has exited, there is a first one in list order |
| WaitPidProperties.DetachedZombieUnreferenced | os/src/syscall/process.rs:151-153 | under the invariant, an exited child taken out of the caller's list is referred to by nothing else, so the reference-count assertion holds |
| WaitPidProperties.ReapKeepsTasksValid | os/src/syscall/process.rs:151-159 | after a reap every remaining task still has consistent, duplicate-free child links |
| WaitPidProperties.ReapKeepsValid | os/src/syscall/process.rs:151-159 | a reap of an exited child keeps the kernel invariant |
| WaitPidProperties.WaitPidKeepsValid | os/src/syscall/process.rs:129-164 | under the invariant `sys_waitpid` never panics, and it keeps the invariant |
| WaitPidProperties.ReapedChildGone | os/src/syscall/process.rs:151-153 | the released child is no longer in the table, and no list, queue or current slot names it |
| WaitPidProperties.ReapedPidVanishes | os/src/syscall/process.rs:150-159 | the pid a successful reap returns names no task and is referred to by nothing |
| WaitPidProperties.ReapAnyTakesHead | os/src/syscall/process.rs:142-159 | `waitpid(-1)` reaps the head of the list when the head has exited and the call does not panic (under the kernel invariant it never panics, see `WaitPidKeepsValid`) |
| WaitPidProperties.ReapFirstOfTwo | os/src/syscall/process.rs:142-159 | with two exited children, `waitpid(-1)` reaps the earlier one and leaves the later one untouched as the only child, keeping the invariant |
| WaitPidProperties.ReapOnlyChild | os/src/syscall/process.rs:135-159 | with one exited child, `waitpid(-1)` reaps it, and a second call then reports -1 |
| WaitPidProperties.ReapAnyInListOrder | os/src/syscall/process.rs:135-159 | three polls with `waitpid(-1)` reap two exited children in list order, each with its own exit code, and then report -1 |
| WaitPidProperties.WaitForLiveChildPending | os/src/syscall/process.rs:142-164 | waiting for a specific child that is still alive, wherever it sits in the caller's list, reports -2 and changes nothing |
| ForkSpawnProperties.ForkTimes | os/src/syscall/process.rs:40-55 | repeated forks keep the preconditions of a further fork |
| ForkSpawnProperties.ForkStep | os/src/syscall/process.rs:40-55 | one fork takes the counter's pid, which was fresh, adds it to the table and to the caller's list, and advances the counter by one |
| ForkSpawnProperties.ForkTimesIssuesFreshPids | os/src/syscall/process.rs:40-55 | `n` successful forks hand out `n` previously unused pids, append them in order to the caller's children list, and add exactly those to the table: every issued pid is in it and no other new pid is. That the pids are consecutive comes from the modelled counter allocator (see `Process.SysFork` under Left out), not from `sys_fork` itself |
| ForkSpawnProperties.SpawnIntendedKeepsValid | os/src/syscall/process.rs:112-124 | the intended spawn keeps the kernel invariant |
| ForkSpawnProperties.SpawnMissingProgramLeavesChild | os/src/syscall/process.rs:75-83 | as written, spawning an unknown program returns -1, yet the table and the caller's list have gained the forked child; the intended version changes nothing |
| ForkSpawnProperties.SpawnKnownProgramPanics | os/src/syscall/process.rs:75-84 | as written, spawning a known program panics; the intended version returns the fresh pid, the child runs the program, and the caller keeps its own image |
| Trap.Dispatch | os/src/trap/mod.rs:62-88 | ecall: `sepc` advances by 4 and the other registers are unchanged; a0 holds the system call's result when the call returns, and the machine halts when it panics. Store faults and illegal instructions exit the task. The timer re-arms and yields. Any other cause exits the task and then halts the machine |
| Trap.DispatchIntended | os/src/trap/mod.rs:83-87 | the dispatch halts only when a system call panics; an unsupported cause only exits the task |
| Trap.Boot | os/src/trap/mod.rs:32-40 | `init` installs the kernel vector and starts in a consistent kernel-mode state |
| Trap.Enter | os/src/trap/mod.rs:53-55 | a trap enters kernel mode; through the kernel vector it halts the machine, and through the user vector it installs the kernel vector |
| Trap.TrapReturn | os/src/trap/mod.rs:93-95 | `trap_return` installs the user vector and resumes user mode |
| Trap.TakeTrap | os/src/trap/mod.rs:53-88 | one trap keeps the gateway invariant. From kernel mode it halts, leaving the context alone. From user mode it ends in kernel mode with the dispatch's context and actions, and halts exactly on an unsupported cause or a panicking system call |
| Trap.HandleTrap | os/src/trap/mod.rs:53-91 | a trap from user mode returns to user mode with the user vector installed exactly when its cause is supported and, for an `ecall`, the system call returns |
| TrapProperties.DispatchHaltsIffFatal | os/src/trap/mod.rs:62-88 | the dispatch halts exactly on the causes it has no branch for and on an `ecall` whose system call panics |
| TrapProperties.PanickingSyscallHalts | os/src/trap/mod.rs:63-66 | an `ecall` whose system call panics (such as `sys_spawn` of a known program) halts the machine instead of returning to user mode |
| TrapProperties.UnhandledTrapExitsThenHalts | os/src/trap/mod.rs:83-87 | the as-written and the intended dispatch agree on every supported cause; on any other cause the as-written one performs the intended exit and then also halts |
| TrapProperties.LoadFaultHalts | os/src/trap/mod.rs:62-88 | load faults have no branch of their own: they exit the task and halt the machine |
| TrapProperties.SyscallResumesAfterEcall | os/src/trap/mod.rs:63-66 | after a system call, the saved `sepc` points past the `ecall`, and when the call returns, a0 read as signed is its result |
| TrapProperties.NextKeepsConsistent | os/src/trap/mod.rs:36-55 | every trap or return keeps the invariant that user mode runs exactly when the user vector is installed |
| TrapProperties.RunKeepsConsistent | os/src/trap/mod.rs:32-46 | every run of the mode machine keeps that invariant |
| TrapProperties.KernelTrapHalts | os/src/trap/mod.rs:110-113 | a trap taken in kernel mode always halts |
| TrapProperties.UserModeOnlyThroughReturn | os/src/trap/mod.rs:93-95 | from kernel mode, only `trap_return` leads into user mode |
| TrapProperties.HaltIsFinal | os/src/trap/mod.rs:110-113 | a halted machine stays halted |
| TrapProperties.UserModeNeedsReturn | os/src/trap/mod.rs:93-95 | a run from kernel mode that ends in user mode contains a `trap_return` |

## Left out

- `sys_exit` and `sys_yield`: their work is done by `exit_current_and_run_next` and `suspend_current_and_run_next`, which live in the task module; that module is not part of this model. An `exit` or `yield` system call appears in the dispatch only as the `SyscallResult` of the uninterpreted `syscall`; the task switch it causes is not modelled.
- The scheduler, the stride logic behind `set_priority`, and `set_next_trigger`: none of them is part of this model. `sys_set_priority` is modelled as setting the caller's priority field.
- Locks (`TASK_MANAGER`, the per-task inner lock), `Arc` and concurrency: the model is a single, sequential state. The `Arc::strong_count(&child) == 1` assertion is modelled as "nothing except the caller's children list refers to the child". A reference means the current slot, the ready queue or any children list.
- Address translation (`translated_str`, `translated_refmut`): paths arrive as strings. The exit code is returned as the value written to the out-location. Translation failures are not modelled.
- Logging (`println!`, `info!`, `debug!`, `trace!`), `global_asm!`, `fence.i` and the jump into the trampoline: they have no effect on the modelled state.
- `ISIZI_MAX`: the configuration file that defines it is not part of this model. It is a parameter of `Process.SysSetPriority`.
- Process.SysFork: the pid allocator is not part of this model. It is modelled as a counter above every pid in use, and running out of words is modelled as a panic. The child's priority is a kernel-wide default, because `TaskControlBlock::fork` is not part of this model. Failures inside `TaskControlBlock::fork`, such as running out of memory for the copied address space, are not modelled, so pid exhaustion is the only modelled panic.
- Process.SysExec: `TaskControlBlock::exec` is not part of this model. It is modelled as installing the program's image and its initial trap context in the caller. Failures inside `TaskControlBlock::exec`, such as running out of memory for the new address space, are not modelled.
- Process.SysWaitPid: its `ensures` states only what holds of every call. The full case split is proved in `WaitPidNoChild`, `WaitPidPending` and `WaitPidReaps`.
- Machine.WrappingAdd: `cx.sepc += 4` is modelled as wrapping. A build with overflow checks would panic instead, but `sepc` never reaches the top of the address space in practice.
- The system-call dispatcher `syscall` (and its table from call numbers to the calls of `os/src/syscall/process.rs`) is not part of this model. It is a function parameter of the dispatch that returns `None` when the call panics. The process calls' own `Panicked` outcomes are therefore not linked to it mechanically.
- Trap.Dispatch: the as-written unsupported-cause branch is modelled as exiting the task and then halting, which assumes `exit_current_and_run_next()` returns to `trap_handler`. That function is not part of this model. `sys_exit` (`os/src/syscall/process.rs:25-26`) treats the code after a call of the same name, with an exit-code argument, as unreachable. The trap handler calls it with no argument, so the two files were written against different versions of the task module, and that is only indirect evidence. If the call never returns, the `panic!` at `os/src/trap/mod.rs:86` is dead code and the machine keeps running.
- Trap.Enter: entering the handler and installing the kernel vector are one atomic step, and so are installing the user vector and returning to user mode (`Trap.TrapReturn`). In the code, `trap_handler` runs its first statement in kernel mode with the user vector still installed, and `trap_return` stays in kernel mode between installing the user vector and the final jump. `Trap.Consistent` and `TrapProperties.KernelTrapHalts` hold only with these windows merged.
- Trap causes: the model lists the causes the `riscv` crate decodes. Only their membership in the handled set matters.
- The trap context's fields other than `x` and `sepc`: the handler does not read or change them.
- `current_task().unwrap()`: every process call requires the current task to be in the table. A system call always comes from a running task, so the unwrap is assumed to succeed and its panic is not modelled.
- Load faults are not handled like store faults: they have no branch in `trap_handler`, so they take the unsupported-trap path, and the model follows that.
- `sys_spawn` is modelled as the code does it (fork, then exec in the caller), with the intended version alongside.

## Findings

| source | as written | input that shows it | evidently intended | confidence | as-written member | corrected member |
|---|---|---|---|---|---|---|
| os/src/syscall/process.rs:75-84 | `sys_spawn` forks, then calls `sys_exec` in the caller, and reaches `unreachable!()` when the exec succeeds | any known program name: the caller's own image is replaced and the kernel panics; an unknown name returns -1 but leaves a forked child behind | look the program up, fork, exec the program in the child and return the child's pid, in the order of the commented-out code at lines 112-124; the corrected version also queues the child, as `sys_fork` does, where the draft leaves `add_task` commented out | high, not executed | Spawn.SysSpawn (ForkSpawnProperties.SpawnKnownProgramPanics, ForkSpawnProperties.SpawnMissingProgramLeavesChild) | Spawn.SysSpawnIntended (ForkSpawnProperties.SpawnIntendedKeepsValid) |
| os/src/trap/mod.rs:83-87 | an unsupported trap calls `exit_current_and_run_next()` and then `panic!` | a load page fault in user code: the task is terminated and then the whole kernel halts, provided `exit_current_and_run_next()` returns to the handler (that function is not part of this model; if it never returns, the `panic!` is dead code) | terminate the offending task and keep the machine running, as the store-fault and illegal-instruction branches do | low, not executed; depends on `exit_current_and_run_next()` returning, and the only hint that it does not (`os/src/syscall/process.rs:25-26`) calls a same-named function with one argument where the handler passes none | Trap.Dispatch (TrapProperties.UnhandledTrapExitsThenHalts, TrapProperties.LoadFaultHalts) | Trap.DispatchIntended (TrapProperties.UnhandledTrapExitsThenHalts) |
