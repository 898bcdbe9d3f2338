/** The process system calls of `os/src/syscall/process.rs`, each a total
    function from the kernel state to the next state and the `isize` the
    caller receives in register a0 (or a kernel panic). */
module Process {
  import opened Machine
  import opened Optional
  import opened TrapContext
  import opened Seqs
  import opened Task

  /** A system call that returned `ret` and left the kernel in `k`. */
  datatype Ret = Ret(k: Kernel, ret: isize)

  /** `sys_waitpid` also stores an exit code through the caller's pointer;
      `written` is what lands in that validated out-location, if anything. */
  datatype Wait = Wait(k: Kernel, ret: isize, written: Option<i32>)

  /** Either the call finished, or the kernel panicked in state `at`. */
  datatype Outcome<T> = Done(value: T) | Panicked(at: Kernel)

  /** `k2` is `k` with only the current task's control block replaced by `t`. */
  ghost predicate OnlyCurrentChanged(k: Kernel, k2: Kernel, t: Tcb)
    requires k.current in k.tasks
  {
    && k2.tasks.Keys == k.tasks.Keys
    && k2.tasks[k.current] == t
    && (forall p :: p in k.tasks && p != k.current ==> k2.tasks[p] == k.tasks[p])
    && k2.current == k.current
    && k2.ready == k.ready
    && k2.nextPid == k.nextPid
    && k2.defaultPriority == k.defaultPriority
    && k2.apps == k.apps
  }

  // ---------------------------------------------------------------- getpid

  /** The caller's pid, reinterpreted as a signed word. */
  function SysGetPid(k: Kernel): (r: Ret)
    requires k.current in k.tasks
    ensures r.k == k
    ensures AsUsize(r.ret) == k.tasks[k.current].pid
    ensures k.tasks[k.current].pid <= ISIZE_MAX ==> r.ret == k.tasks[k.current].pid
  {
    Ret(k, AsIsize(k.tasks[k.current].pid))
  }

  // ---------------------------------------------------------- set_priority

  /** The range `sys_set_priority` accepts; the bound is `ISIZI_MAX as usize`. */
  predicate PriorityInRange(prio: usize, isiziMax: isize)
  {
    2 <= prio <= AsUsize(isiziMax)
  }

  /** Sets the caller's priority when `prio` is in range and returns it (as a
      signed word); otherwise returns -1 and changes nothing. `isiziMax` is the
      kernel configuration constant `ISIZI_MAX`. */
  function SysSetPriority(k: Kernel, prio: usize, isiziMax: isize): (r: Ret)
    requires k.current in k.tasks
    ensures PriorityInRange(prio, isiziMax) ==>
              && r.ret == AsIsize(prio)
              && OnlyCurrentChanged(k, r.k, k.tasks[k.current].(priority := prio))
    ensures !PriorityInRange(prio, isiziMax) ==> r.ret == -1 && r.k == k
  {
    if PriorityInRange(prio, isiziMax) then
      Ret(k.(tasks := k.tasks[k.current := k.tasks[k.current].(priority := prio)]), AsIsize(prio))
    else
      Ret(k, -1)
  }

  // ------------------------------------------------------------------ fork

  /** `k2` is `k` after the current task forked child `np`: the child is a
      copy of the caller whose saved a0 reads 0, listed last among the
      caller's children and queued last for scheduling. */
  ghost predicate ForkedInto(k: Kernel, k2: Kernel, np: Pid)
    requires CanFork(k)
  {
    var parent := k.tasks[k.current];
    && np !in k.tasks
    && k2.tasks.Keys == k.tasks.Keys + {np}
    && k2.tasks[np].pid == np
    && k2.tasks[np].parent == Some(k.current)
    && k2.tasks[np].children == []
    && k2.tasks[np].status == Ready
    && k2.tasks[np].priority == k.defaultPriority
    && k2.tasks[np].image == parent.image
    && WellFormed(k2.tasks[np].ctx)
    && k2.tasks[np].ctx.x[A0] == 0
    && k2.tasks[np].ctx.sepc == parent.ctx.sepc
    && (forall i :: 0 <= i < REG_COUNT && i != A0 ==> k2.tasks[np].ctx.x[i] == parent.ctx.x[i])
    && k2.tasks[k.current] == parent.(children := parent.children + [np])
    && (forall p :: p in k.tasks && p != k.current ==> k2.tasks[p] == k.tasks[p])
    && k2.current == k.current
    && k2.ready == k.ready + [np]
    && k2.nextPid == np + 1
    && k2.defaultPriority == k.defaultPriority
    && k2.apps == k.apps
  }

  /** `sys_fork`: duplicate the caller under a fresh pid. The parent's call
      returns the child's pid; the child's own a0 is forced to 0. The pid
      allocator running out of words is a kernel panic. */
  function SysFork(k: Kernel): (r: Outcome<Ret>)
    requires CanFork(k)
    ensures r.Panicked? <==> k.nextPid == WORD
    ensures r.Panicked? ==> r.at == k
    ensures r.Done? ==>
              var k2 := r.value.k;
              && AsUsize(r.value.ret) == k.nextPid
              && k.nextPid !in k.tasks
              && k.nextPid in k2.tasks
              && WellFormed(k2.tasks[k.nextPid].ctx)
              && k2.tasks[k.nextPid].ctx.x[A0] == 0
              && k2.current == k.current
              && k.current in k2.tasks
              && k2.tasks[k.current].children == k.tasks[k.current].children + [k.nextPid as Pid]
              && k2.ready == k.ready + [k.nextPid as Pid]
  {
    if k.nextPid >= WORD then Panicked(k)
    else
      var parent := k.tasks[k.current];
      var np: Pid := k.nextPid;
      var child := Tcb(np, Some(k.current), [], Ready, 0, k.defaultPriority,
                       SetReg(parent.ctx, A0, 0), parent.image);
      var tasks := k.tasks[k.current := parent.(children := parent.children + [np])][np := child];
      Done(Ret(k.(tasks := tasks, ready := k.ready + [np], nextPid := np + 1), AsIsize(np)))
  }

  // ------------------------------------------------------------------ exec

  /** `sys_exec`: when the loader knows `path`, the caller's address space and
      context are replaced by the program's and the call returns 0; otherwise
      it returns -1 and the caller is untouched. */
  function SysExec(k: Kernel, path: string): (r: Ret)
    requires k.current in k.tasks
    ensures r.ret == -1 <==> path !in k.apps
    ensures path !in k.apps ==> r.k == k
    ensures path in k.apps ==>
              && r.ret == 0
              && OnlyCurrentChanged(k, r.k, k.tasks[k.current].(image := k.apps[path], ctx := k.apps[path].initCtx))
  {
    if path in k.apps then
      var img := k.apps[path];
      Ret(k.(tasks := k.tasks[k.current := k.tasks[k.current].(image := img, ctx := img.initCtx)]), 0)
    else
      Ret(k, -1)
  }

  // --------------------------------------------------------------- waitpid

  /** The filter `pid == -1 || pid as usize == child` of `sys_waitpid`. */
  predicate Matches(target: isize, child: Pid)
  {
    target == -1 || AsUsize(target) == child
  }

  /** A child the caller may reap: it matches the target and has exited. */
  predicate Reapable(k: Kernel, target: isize, child: Pid)
  {
    Matches(target, child) && child in k.tasks && k.tasks[child].status == Zombie
  }

  ghost predicate AnyMatch(children: seq<Pid>, target: isize)
  {
    exists i :: 0 <= i < |children| && Matches(target, children[i])
  }

  ghost predicate AnyReapable(k: Kernel, children: seq<Pid>, target: isize)
  {
    exists i :: 0 <= i < |children| && Reapable(k, target, children[i])
  }

  /** `idx` is the first position, in list order, of a reapable child. */
  ghost predicate FirstReapable(k: Kernel, target: isize, idx: nat)
    requires k.current in k.tasks
  {
    var cs := k.tasks[k.current].children;
    && idx < |cs|
    && Reapable(k, target, cs[idx])
    && (forall j :: 0 <= j < idx ==> !Reapable(k, target, cs[j]))
  }

  /** Some reference to `pid` besides the one just taken out of the caller's
      list survives, so its reference count is not 1. */
  predicate StillReferenced(k: Kernel, pid: Pid)
  {
    || pid == k.current
    || pid in k.ready
    || exists p, i :: p in k.tasks && 0 <= i < |k.tasks[p].children| && k.tasks[p].children[i] == pid
  }

  /** `k2` is `k` with the caller's child at position `idx` taken out of its
      list (others keep their order) but its control block not yet released. */
  ghost predicate DetachedFrom(k: Kernel, k2: Kernel, idx: nat)
    requires k.current in k.tasks && idx < |k.tasks[k.current].children|
  {
    var cs := k.tasks[k.current].children;
    k2 == k.(tasks := k.tasks[k.current := k.tasks[k.current].(children := RemoveAt(cs, idx))])
  }

  /** `k2` is `k` after the caller's child at position `idx` was taken out of
      its list (others keep their order) and its control block released. */
  ghost predicate ReapedFrom(k: Kernel, k2: Kernel, idx: nat)
    requires k.current in k.tasks && idx < |k.tasks[k.current].children|
  {
    var cs := k.tasks[k.current].children;
    var child := cs[idx];
    && child != k.current
    && k2.tasks.Keys == k.tasks.Keys - {child}
    && k2.tasks[k.current] == k.tasks[k.current].(children := RemoveAt(cs, idx))
    && (forall p :: p in k2.tasks && p != k.current ==> k2.tasks[p] == k.tasks[p])
    && k2.current == k.current
    && k2.ready == k.ready
    && k2.nextPid == k.nextPid
    && k2.defaultPriority == k.defaultPriority
    && k2.apps == k.apps
  }

  /** `sys_waitpid(pid, out)`: -1 when no child matches, -2 when children
      match but none has exited, otherwise the first exited matching child in
      list order is removed and its pid returned, its exit code written out. */
  function SysWaitPid(k: Kernel, pid: isize): (r: Outcome<Wait>)
    requires k.current in k.tasks
    ensures r.Done? ==> r.value.k.current == k.current && k.current in r.value.k.tasks
    ensures r.Done? && r.value.written.None? ==> r.value.k == k && (r.value.ret == -1 || r.value.ret == -2)
    ensures r.Done? && r.value.written.Some? ==>
              |r.value.k.tasks[k.current].children| + 1 == |k.tasks[k.current].children|
  {
    var cs := k.tasks[k.current].children;
    if IndexOfFirst(cs, c => Matches(pid, c)).None? then
      Done(Wait(k, -1, None))
    else
      match IndexOfFirst(cs, c => Reapable(k, pid, c))
      case None => Done(Wait(k, -2, None))
      case Some(idx) =>
        var child := cs[idx];
        var detached := k.(tasks := k.tasks[k.current := k.tasks[k.current].(children := RemoveAt(cs, idx))]);
        if StillReferenced(detached, child) then
          Panicked(detached)
        else
          Done(Wait(detached.(tasks := detached.tasks - {child}), AsIsize(child), Some(k.tasks[child].exitCode)))
  }
}

/** `sys_spawn`, as written and as evidently intended. */
module Spawn {
  import opened Machine
  import opened Optional
  import opened TrapContext
  import opened Task
  import opened Process

  /** `sys_spawn` as written: it forks, then runs `sys_exec` in the CALLER.
      A missing program yields -1 but leaves the forked child behind; a found
      program replaces the caller's image and then reaches `unreachable!()`. */
  function SysSpawn(k: Kernel, path: string): (r: Outcome<Ret>)
    requires CanFork(k)
    ensures r.Done? ==> r.value.ret == -1
    ensures k.nextPid < WORD && path !in k.apps ==> r == Done(Ret(SysFork(k).value.k, -1))
    ensures k.nextPid < WORD && path in k.apps ==>
              && r.Panicked?
              && k.current in r.at.tasks
              && r.at.tasks[k.current].image == k.apps[path]
              && k.nextPid in r.at.tasks
  {
    match SysFork(k)
    case Panicked(at) => Panicked(at)
    case Done(forked) =>
      var exec := SysExec(forked.k, path);
      if exec.ret == -1 then Done(Ret(exec.k, -1)) else Panicked(exec.k)
  }

  /** `k2` is `k` after spawning program `img` as the fresh child `np`: the
      caller gains `np` as its last child and is otherwise untouched, and the
      child starts from the program's own context. */
  ghost predicate SpawnedInto(k: Kernel, k2: Kernel, np: Pid, img: Image)
    requires k.current in k.tasks
  {
    && np !in k.tasks
    && k2.tasks.Keys == k.tasks.Keys + {np}
    && k2.tasks[np].pid == np
    && k2.tasks[np].parent == Some(k.current)
    && k2.tasks[np].children == []
    && k2.tasks[np].status == Ready
    && k2.tasks[np].image == img
    && k2.tasks[np].ctx == img.initCtx
    && k2.tasks[k.current] == k.tasks[k.current].(children := k.tasks[k.current].children + [np])
    && (forall p :: p in k.tasks && p != k.current ==> k2.tasks[p] == k.tasks[p])
    && k2.current == k.current
    && k2.ready == k.ready + [np]
    && k2.nextPid == np + 1
    && k2.apps == k.apps
  }

  /** `sys_spawn` in the order its commented-out draft takes: look the
      program up first; if found, fork and exec it in the CHILD and return the
      child's pid to the caller; if not, return -1 and change nothing. Unlike
      the draft, which leaves `add_task` commented out, the child is queued
      for scheduling, as `sys_fork` does. */
  function SysSpawnIntended(k: Kernel, path: string): (r: Outcome<Ret>)
    requires CanFork(k)
    ensures path !in k.apps ==> r == Done(Ret(k, -1))
    ensures path in k.apps ==> (r.Panicked? <==> k.nextPid == WORD)
    ensures path in k.apps && r.Done? ==>
              && AsUsize(r.value.ret) == k.nextPid
              && SpawnedInto(k, r.value.k, k.nextPid, k.apps[path])
  {
    if path !in k.apps then Done(Ret(k, -1))
    else
      match SysFork(k)
      case Panicked(at) => Panicked(at)
      case Done(forked) =>
        var np := AsUsize(forked.ret);
        var img := k.apps[path];
        var child := forked.k.tasks[np];
        Done(Ret(forked.k.(tasks := forked.k.tasks[np := child.(image := img, ctx := img.initCtx)]), forked.ret))
  }
}
