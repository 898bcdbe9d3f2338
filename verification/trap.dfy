/** The trap gateway of `os/src/trap/mod.rs`: the cause dispatch of
    `trap_handler`, and the user/kernel mode machine driven by the two trap
    vectors (`set_kernel_trap_entry`, `set_user_trap_entry`), `trap_return`
    and `trap_from_kernel`. */
module Trap {
  import opened Machine
  import opened Optional
  import opened TrapContext

  /** Exception causes, as the `riscv` crate decodes `scause`. */
  datatype Exception =
    | InstructionMisaligned | InstructionFault | IllegalInstruction | Breakpoint
    | LoadFault | StoreMisaligned | StoreFault | UserEnvCall
    | InstructionPageFault | LoadPageFault | StorePageFault | UnknownException

  /** Interrupt causes, as the `riscv` crate decodes `scause`. */
  datatype Interrupt =
    | UserSoft | SupervisorSoft | UserTimer | SupervisorTimer
    | UserExternal | SupervisorExternal | UnknownInterrupt

  datatype Cause = ExceptionTrap(exception: Exception) | InterruptTrap(interrupt: Interrupt)

  /** What the handler asks of the rest of the kernel, in order: the system
      call's result, `exit_current_and_run_next`, `set_next_trigger`,
      `suspend_current_and_run_next`, or a panic that halts the machine. */
  datatype Action = SyscallResult(value: isize) | ExitCurrent | RearmTimer | Yield | Halt

  /** The system-call dispatcher, left uninterpreted: call number and the
      three argument registers to a signed result, or `None` when the call
      panics instead of returning (the `unreachable!()` of `sys_spawn`, the
      reference-count assertion of `sys_waitpid`, an `unwrap` of a missing
      current task). */
  type Syscall = (usize, usize, usize, usize) -> Option<isize>

  /** The saved context after dispatch and the actions taken, in order. */
  datatype Dispatched = Dispatched(ctx: Context, actions: seq<Action>)

  /** Store faults, the memory faults the handler recognises. */
  predicate IsStoreFault(cause: Cause)
  {
    cause == ExceptionTrap(StoreFault) || cause == ExceptionTrap(StorePageFault)
  }

  /** The causes `trap_handler` has a branch for. */
  predicate Handled(cause: Cause)
  {
    || cause == ExceptionTrap(UserEnvCall)
    || IsStoreFault(cause)
    || cause == ExceptionTrap(IllegalInstruction)
    || cause == InterruptTrap(SupervisorTimer)
  }

  /** The result the system call returns for the trapped context, if it returns. */
  function SyscallOf(ctx: Context, syscall: Syscall): Option<isize>
    requires WellFormed(ctx)
  {
    syscall(ctx.x[A7], ctx.x[A0], ctx.x[A1], ctx.x[A2])
  }

  /** A trap that ends in a kernel panic: a cause with no branch, or a system
      call that panics. */
  predicate Fatal(cause: Cause, syscallPanics: bool)
  {
    !Handled(cause) || (cause == ExceptionTrap(UserEnvCall) && syscallPanics)
  }

  /** `trap_handler`'s match on the cause, as written. */
  function Dispatch(cause: Cause, ctx: Context, syscall: Syscall): (r: Dispatched)
    requires WellFormed(ctx)
    ensures WellFormed(r.ctx)
    ensures cause == ExceptionTrap(UserEnvCall) ==>
              && r.ctx.sepc == WrappingAdd(ctx.sepc, 4)
              && (forall i :: 0 <= i < REG_COUNT && i != A0 ==> r.ctx.x[i] == ctx.x[i])
    ensures cause == ExceptionTrap(UserEnvCall) && SyscallOf(ctx, syscall).Some? ==>
              && r.actions == [SyscallResult(SyscallOf(ctx, syscall).value)]
              && AsIsize(r.ctx.x[A0]) == SyscallOf(ctx, syscall).value
    ensures cause == ExceptionTrap(UserEnvCall) && SyscallOf(ctx, syscall).None? ==>
              r.actions == [Halt] && r.ctx.x == ctx.x
    ensures cause != ExceptionTrap(UserEnvCall) ==> r.ctx == ctx
    ensures IsStoreFault(cause) || cause == ExceptionTrap(IllegalInstruction) ==> r.actions == [ExitCurrent]
    ensures cause == InterruptTrap(SupervisorTimer) ==> r.actions == [RearmTimer, Yield]
    ensures !Handled(cause) ==> r.actions == [ExitCurrent, Halt]
  {
    match cause
    case ExceptionTrap(UserEnvCall) =>
      var advanced := ctx.(sepc := WrappingAdd(ctx.sepc, 4));
      (match SyscallOf(ctx, syscall)
       case Some(ret) => Dispatched(SetReg(advanced, A0, AsUsize(ret)), [SyscallResult(ret)])
       case None => Dispatched(advanced, [Halt]))
    case ExceptionTrap(StoreFault) | ExceptionTrap(StorePageFault) =>
      Dispatched(ctx, [ExitCurrent])
    case ExceptionTrap(IllegalInstruction) =>
      Dispatched(ctx, [ExitCurrent])
    case InterruptTrap(SupervisorTimer) =>
      Dispatched(ctx, [RearmTimer, Yield])
    case _ =>
      Dispatched(ctx, [ExitCurrent, Halt])
  }

  /** The dispatch with the unsupported-cause branch made consistent: the
      offending task is terminated and the machine keeps running. Only a
      panicking system call still halts it. */
  function DispatchIntended(cause: Cause, ctx: Context, syscall: Syscall): (r: Dispatched)
    requires WellFormed(ctx)
    ensures Halt in r.actions <==> cause == ExceptionTrap(UserEnvCall) && SyscallOf(ctx, syscall).None?
    ensures !Handled(cause) ==> r == Dispatched(ctx, [ExitCurrent])
  {
    if Handled(cause) then Dispatch(cause, ctx, syscall) else Dispatched(ctx, [ExitCurrent])
  }

  // ------------------------------------------------------ the mode machine

  datatype Mode = UserMode | KernelMode

  /** The two installable trap vectors: `trap_from_kernel` and the
      trampoline that leads to `trap_handler`. */
  datatype TrapVector = KernelTrapEntry | UserTrapEntry

  /** The privilege mode, the vector installed in `stvec`, and whether a
      panic has halted the machine. */
  datatype Cpu = Cpu(mode: Mode, stvec: TrapVector, halted: bool)

  /** The gateway's invariant: user code runs exactly when the user vector is
      installed, and a halted machine is in kernel mode. */
  predicate Consistent(c: Cpu)
  {
    if c.halted then c.mode == KernelMode else (c.mode == UserMode <==> c.stvec == UserTrapEntry)
  }

  /** `trap::init`: the kernel starts with the kernel vector installed. */
  function Boot(): (c: Cpu)
    ensures Consistent(c) && c.mode == KernelMode && !c.halted
  {
    Cpu(KernelMode, KernelTrapEntry, false)
  }

  /** Taking a trap: the hardware enters kernel mode through `stvec`. Through
      the kernel vector that is `trap_from_kernel`, which panics; through the
      user vector it is `trap_handler`, which installs the kernel vector before
      it dispatches. Entry and the vector switch are one step here. */
  function Enter(c: Cpu): (r: Cpu)
    ensures r.mode == KernelMode || r == c
    ensures !c.halted ==> r.mode == KernelMode
    ensures !c.halted ==> (r.halted <==> c.stvec == KernelTrapEntry)
    ensures !r.halted ==> r.stvec == KernelTrapEntry
  {
    if c.halted then c
    else if c.stvec == KernelTrapEntry then Cpu(KernelMode, KernelTrapEntry, true)
    else Cpu(KernelMode, KernelTrapEntry, false)
  }

  /** `trap_return`: install the user vector and resume user code, as one step. */
  function TrapReturn(c: Cpu): (r: Cpu)
    ensures c.halted ==> r == c
    ensures !c.halted ==> r.mode == UserMode && r.stvec == UserTrapEntry && !r.halted
  {
    if c.halted then c else Cpu(UserMode, UserTrapEntry, false)
  }

  /** The outcome of one trap: the machine, the saved context of the task that
      trapped, and the actions requested. */
  datatype TrapOutcome = TrapOutcome(cpu: Cpu, ctx: Context, actions: seq<Action>)

  /** One trap from entry to the point where `trap_handler` would call
      `trap_return`: entry, then dispatch, which halts on a panic. */
  function TakeTrap(c: Cpu, cause: Cause, ctx: Context, syscall: Syscall): (r: TrapOutcome)
    requires WellFormed(ctx)
    ensures Consistent(c) ==> Consistent(r.cpu)
    ensures Consistent(c) && !c.halted && c.mode == KernelMode ==>
              r.cpu.halted && r.actions == [Halt] && r.ctx == ctx
    ensures Consistent(c) && !c.halted && c.mode == UserMode ==>
              && r.cpu.mode == KernelMode
              && (r.cpu.halted <==> Fatal(cause, SyscallOf(ctx, syscall).None?))
              && r.ctx == Dispatch(cause, ctx, syscall).ctx
              && r.actions == Dispatch(cause, ctx, syscall).actions
  {
    var cpu := Next(c, TrapEvent(cause, SyscallOf(ctx, syscall).None?));
    if c.halted then TrapOutcome(c, ctx, [])
    else if Enter(c).halted then TrapOutcome(cpu, ctx, [Halt])
    else
      var d := Dispatch(cause, ctx, syscall);
      TrapOutcome(cpu, d.ctx, d.actions)
  }

  /** `trap_handler` in full: take the trap and, unless the machine halted,
      go back to user mode through `trap_return`. */
  function HandleTrap(c: Cpu, cause: Cause, ctx: Context, syscall: Syscall): (r: TrapOutcome)
    requires WellFormed(ctx)
    ensures Consistent(c) ==> Consistent(r.cpu)
    ensures Consistent(c) && !c.halted && c.mode == UserMode ==>
              (r.cpu == Cpu(UserMode, UserTrapEntry, false) <==> !Fatal(cause, SyscallOf(ctx, syscall).None?))
  {
    var t := TakeTrap(c, cause, ctx, syscall);
    t.(cpu := TrapReturn(t.cpu))
  }

  /** A step of the mode machine: a trap with the given cause, whose system
      call (for an `ecall`) panics or not, or `trap_return`. */
  datatype Event = TrapEvent(cause: Cause, syscallPanics: bool) | ReturnEvent

  function Next(c: Cpu, e: Event): Cpu
  {
    match e
    case TrapEvent(cause, syscallPanics) =>
      var entered := Enter(c);
      if entered.halted then entered else entered.(halted := Fatal(cause, syscallPanics))
    case ReturnEvent => TrapReturn(c)
  }

  /** The machine after a sequence of events. */
  function Run(c: Cpu, events: seq<Event>): Cpu
    decreases |events|
  {
    if |events| == 0 then c else Run(Next(c, events[0]), events[1..])
  }
}
