/** Properties of the trap dispatch and of the mode machine. */
module TrapProperties {
  import opened Machine
  import opened Optional
  import opened TrapContext
  import opened Trap

  /** The as-written dispatch halts exactly on the causes it has no branch
      for and on a system call that panics, and nowhere else. */
  lemma DispatchHaltsIffFatal(cause: Cause, ctx: Context, syscall: Syscall)
    requires WellFormed(ctx)
    ensures Halt in Dispatch(cause, ctx, syscall).actions <==> Fatal(cause, SyscallOf(ctx, syscall).None?)
  {
  }

  /** A system call that panics takes the whole machine down: the trap from
      user mode never returns to user mode. */
  lemma PanickingSyscallHalts(ctx: Context, syscall: Syscall)
    requires WellFormed(ctx) && SyscallOf(ctx, syscall).None?
    ensures HandleTrap(Cpu(UserMode, UserTrapEntry, false), ExceptionTrap(UserEnvCall), ctx, syscall).cpu.halted
  {
  }

  /** The as-written and the intended dispatch agree on every handled cause;
      on an unhandled one the as-written handler exits the task exactly like
      the intended one and then additionally halts the machine. */
  lemma UnhandledTrapExitsThenHalts(cause: Cause, ctx: Context, syscall: Syscall)
    requires WellFormed(ctx)
    ensures Handled(cause) ==> Dispatch(cause, ctx, syscall) == DispatchIntended(cause, ctx, syscall)
    ensures !Handled(cause) ==>
              && Dispatch(cause, ctx, syscall).ctx == DispatchIntended(cause, ctx, syscall).ctx
              && Dispatch(cause, ctx, syscall).actions == DispatchIntended(cause, ctx, syscall).actions + [Halt]
  {
  }

  /** A load fault is one of the causes the handler does not recognise: it
      terminates the task and then halts the whole machine. */
  lemma LoadFaultHalts(ctx: Context, syscall: Syscall)
    requires WellFormed(ctx)
    ensures Dispatch(ExceptionTrap(LoadPageFault), ctx, syscall).actions == [ExitCurrent, Halt]
    ensures Dispatch(ExceptionTrap(LoadFault), ctx, syscall).actions == [ExitCurrent, Halt]
  {
  }

  /** After a system call that returns, the task resumes at the instruction
      following the 4-byte `ecall`, and reading a0 back as a signed word
      yields exactly the dispatcher's result. */
  lemma SyscallResumesAfterEcall(ctx: Context, syscall: Syscall)
    requires WellFormed(ctx) && ctx.sepc + 4 < WORD
    ensures var r := Dispatch(ExceptionTrap(UserEnvCall), ctx, syscall);
            && r.ctx.sepc == ctx.sepc + 4
            && (syscall(ctx.x[A7], ctx.x[A0], ctx.x[A1], ctx.x[A2]).Some? ==>
                  AsIsize(r.ctx.x[A0]) == syscall(ctx.x[A7], ctx.x[A0], ctx.x[A1], ctx.x[A2]).value)
  {
  }

  /** Every step keeps the gateway invariant. */
  lemma NextKeepsConsistent(c: Cpu, e: Event)
    requires Consistent(c)
    ensures Consistent(Next(c, e))
  {
  }

  /** Any run of the mode machine keeps the gateway invariant; in particular
      every state reachable from boot has user code running exactly when the
      user vector is installed. */
  lemma {:induction false} RunKeepsConsistent(c: Cpu, events: seq<Event>)
    requires Consistent(c)
    ensures Consistent(Run(c, events))
    decreases |events|
  {
    if |events| > 0 {
      NextKeepsConsistent(c, events[0]);
      RunKeepsConsistent(Next(c, events[0]), events[1..]);
    }
  }

  /** A trap taken in kernel mode always halts the machine. */
  lemma KernelTrapHalts(c: Cpu, cause: Cause, syscallPanics: bool)
    requires Consistent(c) && c.mode == KernelMode
    ensures Next(c, TrapEvent(cause, syscallPanics)).halted
  {
  }

  /** A trap never leads into user mode: only `trap_return` does. */
  lemma UserModeOnlyThroughReturn(c: Cpu, e: Event)
    requires Consistent(c) && c.mode == KernelMode
    ensures Next(c, e).mode == UserMode ==> e == ReturnEvent
  {
  }

  /** A halted machine stays halted, whatever happens next. */
  lemma {:induction false} HaltIsFinal(c: Cpu, events: seq<Event>)
    requires c.halted
    ensures Run(c, events) == c
    decreases |events|
  {
    if |events| > 0 {
      HaltIsFinal(Next(c, events[0]), events[1..]);
    }
  }

  /** Starting in kernel mode, a run that ends in user mode contains a
      `trap_return`. */
  lemma {:induction false} UserModeNeedsReturn(c: Cpu, events: seq<Event>)
    requires Consistent(c) && c.mode == KernelMode
    requires Run(c, events).mode == UserMode
    ensures ReturnEvent in events
    decreases |events|
  {
    if |events| > 0 && events[0] != ReturnEvent {
      var c1 := Next(c, events[0]);
      NextKeepsConsistent(c, events[0]);
      UserModeNeedsReturn(c1, events[1..]);
      assert events == [events[0]] + events[1..];
    }
  }
}
