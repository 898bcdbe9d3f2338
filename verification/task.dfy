/** The abstract kernel state the process system calls act on: the task table
    keyed by pid, the current task, the ready queue, the pid allocator and the
    application loader's name table. */
module Task {
  import opened Machine
  import opened Optional
  import opened TrapContext
  import opened Seqs

  type Pid = usize

  /** A task's run state; `Zombie` once it has exited and awaits reaping. */
  datatype Status = Ready | Running | Zombie

  /** A loadable program, as the loader hands it out: its address-space
      contents are opaque, and `initCtx` is the context it starts from. */
  datatype Image = Image(name: string, initCtx: Context)

  /** A task control block. `image` stands for the task's address space. */
  datatype Tcb = Tcb(
    pid: Pid,
    parent: Option<Pid>,
    children: seq<Pid>,
    status: Status,
    exitCode: i32,
    priority: usize,
    ctx: Context,
    image: Image)

  /** The kernel: task table, current task, ready queue, next pid to hand out,
      the priority a new task starts with, and the loader's table of programs. */
  datatype Kernel = Kernel(
    tasks: map<Pid, Tcb>,
    current: Pid,
    ready: seq<Pid>,
    nextPid: nat,
    defaultPriority: usize,
    apps: map<string, Image>)

  /** What the Rust types and the pid allocator guarantee of every task. */
  ghost predicate TaskValid(k: Kernel, p: Pid)
    requires p in k.tasks
  {
    var t := k.tasks[p];
    && t.pid == p
    && WellFormed(t.ctx)
    && (forall i :: 0 <= i < |t.children| ==> t.children[i] in k.tasks)
    && (forall i :: 0 <= i < |t.children| ==> k.tasks[t.children[i]].parent == Some(p))
    && NoDuplicates(t.children)
  }

  /** Each task is owned by at most one parent, and appears there once.
      This follows from the invariant; see `OwnershipUnique`. */
  ghost predicate UniqueOwnership(tasks: map<Pid, Tcb>)
  {
    forall p, q, i, j ::
      p in tasks && q in tasks &&
      0 <= i < |tasks[p].children| && 0 <= j < |tasks[q].children| &&
      tasks[p].children[i] == tasks[q].children[j]
      ==> p == q && i == j
  }

  /** The pid allocator's counter lies above every pid in use, so the pid it
      hands out next is fresh. */
  ghost predicate PidsBelowNext(k: Kernel)
  {
    && k.nextPid <= WORD
    && (forall p :: p in k.tasks ==> p < k.nextPid)
  }

  /** What `fork` needs: a current task with a well-formed context, and a
      sound pid counter. */
  ghost predicate CanFork(k: Kernel)
  {
    && k.current in k.tasks
    && WellFormed(k.tasks[k.current].ctx)
    && PidsBelowNext(k)
  }

  /** The kernel invariant. */
  ghost predicate Valid(k: Kernel)
  {
    && k.current in k.tasks
    && k.tasks[k.current].status != Zombie
    && PidsBelowNext(k)
    && (forall p :: p in k.tasks ==> TaskValid(k, p))
    && (forall i :: 0 <= i < |k.ready| ==> k.ready[i] in k.tasks && k.tasks[k.ready[i]].status != Zombie)
    && (forall name :: name in k.apps ==> WellFormed(k.apps[name].initCtx))
  }

  /** A child's parent link names the one list it sits in, and that list has
      no duplicates, so no task is owned twice. */
  lemma OwnershipUnique(k: Kernel)
    requires Valid(k)
    ensures UniqueOwnership(k.tasks)
  {
    forall p, q, i, j |
      p in k.tasks && q in k.tasks &&
      0 <= i < |k.tasks[p].children| && 0 <= j < |k.tasks[q].children| &&
      k.tasks[p].children[i] == k.tasks[q].children[j]
      ensures p == q && i == j
    {
      assert TaskValid(k, p) && TaskValid(k, q);
    }
  }

  /** Replacing one control block by another with the same identity, links
      and run state, and a well-formed context, keeps the kernel invariant. */
  lemma ReplaceTcbKeepsValid(k: Kernel, p: Pid, t: Tcb)
    requires Valid(k) && p in k.tasks
    requires t.pid == p && t.parent == k.tasks[p].parent && t.children == k.tasks[p].children
    requires t.status == k.tasks[p].status && WellFormed(t.ctx)
    ensures Valid(k.(tasks := k.tasks[p := t]))
  {
    var k2 := k.(tasks := k.tasks[p := t]);
    forall q | q in k2.tasks
      ensures TaskValid(k2, q)
    {
      assert TaskValid(k, q);
    }
  }
}
