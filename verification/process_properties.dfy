/** Properties relating the process system calls to the kernel invariant and
    to each other. */
module ProcessProperties {
  import opened Machine
  import opened Optional
  import opened TrapContext
  import opened Seqs
  import opened Task
  import opened Process
  import opened Spawn

  /** The full effect of a successful fork: the child copies the caller with
      a0 forced to 0, and nothing else in the kernel changes beyond the
      caller's children list, the ready queue and the pid counter. */
  lemma ForkEffect(k: Kernel)
    requires CanFork(k) && k.nextPid < WORD
    ensures SysFork(k).Done?
    ensures ForkedInto(k, SysFork(k).value.k, k.nextPid)
  {
  }

  /** After a fork every old task still satisfies the per-task invariant:
      the caller's list gains only the fresh pid, whose parent is the caller. */
  lemma ForkKeepsOldTaskValid(k: Kernel, k2: Kernel, p: Pid)
    requires Valid(k) && k.nextPid < WORD && ForkedInto(k, k2, k.nextPid) && p in k.tasks
    ensures TaskValid(k2, p)
  {
    var np: Pid := k.nextPid;
    assert TaskValid(k, p);
    var cs := k.tasks[p].children;
    var cs2 := k2.tasks[p].children;
    forall i | 0 <= i < |cs2|
      ensures cs2[i] in k2.tasks && k2.tasks[cs2[i]].parent == Some(p)
    {
      if i < |cs| {
        assert cs2[i] == cs[i] && cs[i] in k.tasks;
      }
    }
    if p == k.current {
      assert np !in cs;
      assert NoDuplicates(cs2);
    }
  }

  /** A fork in the sense of `ForkedInto` keeps the kernel invariant. */
  lemma ForkedIntoKeepsValid(k: Kernel, k2: Kernel)
    requires Valid(k) && k.nextPid < WORD && ForkedInto(k, k2, k.nextPid)
    ensures Valid(k2)
  {
    forall p | p in k2.tasks
      ensures TaskValid(k2, p)
    {
      if p in k.tasks {
        ForkKeepsOldTaskValid(k, k2, p);
      }
    }
  }

  /** Forking keeps the kernel invariant: the fresh pid is owned by the
      caller alone and every other ownership link is as before. */
  lemma ForkKeepsValid(k: Kernel)
    requires Valid(k)
    ensures SysFork(k).Done? ==> Valid(SysFork(k).value.k)
  {
    if SysFork(k).Done? {
      ForkEffect(k);
      ForkedIntoKeepsValid(k, SysFork(k).value.k);
    }
  }

  /** Replacing the caller's image keeps the kernel invariant. */
  lemma ExecKeepsValid(k: Kernel, path: string)
    requires Valid(k)
    ensures Valid(SysExec(k, path).k)
  {
    if path in k.apps {
      var img := k.apps[path];
      ReplaceTcbKeepsValid(k, k.current, k.tasks[k.current].(image := img, ctx := img.initCtx));
    }
  }

  /** Changing the caller's priority keeps the kernel invariant. */
  lemma SetPriorityKeepsValid(k: Kernel, prio: usize, isiziMax: isize)
    requires Valid(k)
    ensures Valid(SysSetPriority(k, prio, isiziMax).k)
  {
    if PriorityInRange(prio, isiziMax) {
      ReplaceTcbKeepsValid(k, k.current, k.tasks[k.current].(priority := prio));
    }
  }

  /** With a non-negative `ISIZI_MAX`, `sys_set_priority(p)` returns `p`
      exactly when 2 <= p <= ISIZI_MAX and -1 exactly otherwise. */
  lemma SetPriorityRange(k: Kernel, prio: usize, isiziMax: isize)
    requires k.current in k.tasks && 0 <= isiziMax
    ensures SysSetPriority(k, prio, isiziMax).ret == prio <==> 2 <= prio <= isiziMax
    ensures SysSetPriority(k, prio, isiziMax).ret == -1 <==> !(2 <= prio <= isiziMax)
    ensures !(2 <= prio <= isiziMax) ==>
              SysSetPriority(k, prio, isiziMax).k.tasks[k.current].priority == k.tasks[k.current].priority
  {
  }
}

/** Properties of `sys_waitpid`. */
module WaitPidProperties {
  import opened Machine
  import opened Optional
  import opened Seqs
  import opened Task
  import opened Process

  /** `waitpid` reports -1, and changes nothing, exactly when no child of the
      caller matches the target. */
  lemma WaitPidNoChild(k: Kernel, pid: isize)
    requires k.current in k.tasks
    ensures !AnyMatch(k.tasks[k.current].children, pid) <==> SysWaitPid(k, pid) == Done(Wait(k, -1, None))
  {
    var cs := k.tasks[k.current].children;
    if AnyMatch(cs, pid) {
      var i :| 0 <= i < |cs| && Matches(pid, cs[i]);
      assert (c => Matches(pid, c))(cs[i]);
    }
  }

  /** `waitpid` reports -2, and changes nothing, exactly when some child
      matches the target but none of the matching children has exited. */
  lemma WaitPidPending(k: Kernel, pid: isize)
    requires k.current in k.tasks
    ensures (AnyMatch(k.tasks[k.current].children, pid) && !AnyReapable(k, k.tasks[k.current].children, pid))
              <==> SysWaitPid(k, pid) == Done(Wait(k, -2, None))
  {
    var cs := k.tasks[k.current].children;
    if AnyMatch(cs, pid) {
      var i :| 0 <= i < |cs| && Matches(pid, cs[i]);
      assert (c => Matches(pid, c))(cs[i]);
    }
    if AnyReapable(k, cs, pid) {
      var i :| 0 <= i < |cs| && Reapable(k, pid, cs[i]);
      assert (c => Reapable(k, pid, c))(cs[i]);
    }
  }

  /** When `idx` is the first reapable position, `waitpid` takes exactly that
      child out of the list, returns its pid and writes its exit code out; the
      only way it can fail is the reference-count assertion, when something
      other than the caller's list still refers to the child. */
  lemma WaitPidReaps(k: Kernel, pid: isize, idx: nat)
    requires k.current in k.tasks
    requires FirstReapable(k, pid, idx)
    ensures var r := SysWaitPid(k, pid);
            var child := k.tasks[k.current].children[idx];
            && (r.Done? ==>
                  && r.value.ret == AsIsize(child)
                  && r.value.written == Some(k.tasks[child].exitCode)
                  && ReapedFrom(k, r.value.k, idx))
            && (r.Panicked? ==> DetachedFrom(k, r.at, idx) && StillReferenced(r.at, child))
  {
    var cs := k.tasks[k.current].children;
    assert (c => Matches(pid, c))(cs[idx]);
    var found := IndexOfFirst(cs, c => Reapable(k, pid, c));
    assert found == Some(idx);
  }

  /** When some child is reapable, a first one in list order exists. */
  lemma FirstReapableExists(k: Kernel, pid: isize) returns (idx: nat)
    requires k.current in k.tasks
    requires AnyReapable(k, k.tasks[k.current].children, pid)
    ensures FirstReapable(k, pid, idx)
  {
    var cs := k.tasks[k.current].children;
    var found := IndexOfFirst(cs, c => Reapable(k, pid, c));
    idx := found.value;
  }

  /** Position of an element of `RemoveAt(s, idx)` in `s`. */
  function Unshift(i: nat, idx: nat): (j: nat)
  {
    if i < idx then i else i + 1
  }

  /** Under the kernel invariant an exited child is referenced by its
      parent's list alone, and only once: once taken out of that list nothing
      refers to it, which is the `strong_count == 1` assertion of the reap. */
  lemma DetachedZombieUnreferenced(k: Kernel, idx: nat, k2: Kernel)
    requires Valid(k)
    requires idx < |k.tasks[k.current].children|
    requires k.tasks[k.current].children[idx] in k.tasks
    requires k.tasks[k.tasks[k.current].children[idx]].status == Zombie
    requires DetachedFrom(k, k2, idx)
    ensures !StillReferenced(k2, k.tasks[k.current].children[idx])
  {
    var cs := k.tasks[k.current].children;
    var child := cs[idx];
    var rest := RemoveAt(cs, idx);
    OwnershipUnique(k);
    forall p, i | p in k2.tasks && 0 <= i < |k2.tasks[p].children|
      ensures k2.tasks[p].children[i] != child
    {
      if p == k.current {
        assert rest[i] == cs[Unshift(i, idx)];
      } else {
        assert k.tasks[p].children[i] == cs[idx] ==> p == k.current;
      }
    }
    assert child !in k.ready;
  }

  /** Every task left after a reap still satisfies the per-task invariant. */
  lemma ReapKeepsTasksValid(k: Kernel, idx: nat, k2: Kernel)
    requires Valid(k)
    requires idx < |k.tasks[k.current].children|
    requires ReapedFrom(k, k2, idx)
    ensures forall p :: p in k2.tasks ==> TaskValid(k2, p)
  {
    OwnershipUnique(k);
    var cs := k.tasks[k.current].children;
    var child := cs[idx];
    forall p | p in k2.tasks
      ensures TaskValid(k2, p)
    {
      assert TaskValid(k, p);
      var ps := k2.tasks[p].children;
      forall i | 0 <= i < |ps|
        ensures ps[i] in k2.tasks && k2.tasks[ps[i]].parent == Some(p)
      {
        var i' := if p == k.current then Unshift(i, idx) else i;
        assert ps[i] == k.tasks[p].children[i'];
        assert ps[i] != child;
      }
      if p == k.current {
        RemoveAtNoDuplicates(cs, idx);
      }
    }
  }

  /** A reap of an exited child keeps the kernel invariant. */
  lemma ReapKeepsValid(k: Kernel, idx: nat, k2: Kernel)
    requires Valid(k)
    requires idx < |k.tasks[k.current].children|
    requires k.tasks[k.current].children[idx] in k.tasks
    requires k.tasks[k.tasks[k.current].children[idx]].status == Zombie
    requires ReapedFrom(k, k2, idx)
    ensures Valid(k2)
  {
    ReapKeepsTasksValid(k, idx, k2);
    forall i | 0 <= i < |k2.ready|
      ensures k2.ready[i] in k2.tasks && k2.tasks[k2.ready[i]].status != Zombie
    {
      assert k.ready[i] in k.tasks;
    }
  }

  /** Under the kernel invariant `sys_waitpid` never panics, and the state
      after it satisfies the invariant again. */
  lemma WaitPidKeepsValid(k: Kernel, pid: isize)
    requires Valid(k)
    ensures SysWaitPid(k, pid).Done?
    ensures Valid(SysWaitPid(k, pid).value.k)
  {
    var r := SysWaitPid(k, pid);
    var cs := k.tasks[k.current].children;
    if !AnyMatch(cs, pid) || !AnyReapable(k, cs, pid) {
      assert r.Done? && r.value.k == k by {
        WaitPidNoChild(k, pid);
        WaitPidPending(k, pid);
      }
      return;
    }
    var idx := FirstReapableExists(k, pid);
    assert r.Done? && ReapedFrom(k, r.value.k, idx) by {
      WaitPidReaps(k, pid, idx);
      if r.Panicked? {
        DetachedZombieUnreferenced(k, idx, r.at);
        assert false;
      }
    }
    ReapKeepsValid(k, idx, r.value.k);
  }

  /** The child a reap releases is gone from the table, and nothing left
      refers to it. */
  lemma ReapedChildGone(k: Kernel, idx: nat, k2: Kernel)
    requires Valid(k)
    requires idx < |k.tasks[k.current].children|
    requires k.tasks[k.current].children[idx] in k.tasks
    requires k.tasks[k.tasks[k.current].children[idx]].status == Zombie
    requires ReapedFrom(k, k2, idx)
    ensures k.tasks[k.current].children[idx] !in k2.tasks
    ensures !StillReferenced(k2, k.tasks[k.current].children[idx])
  {
    var cs := k.tasks[k.current].children;
    var detached := k.(tasks := k.tasks[k.current := k.tasks[k.current].(children := RemoveAt(cs, idx))]);
    DetachedZombieUnreferenced(k, idx, detached);
    assert forall p :: p in k2.tasks ==> k2.tasks[p] == detached.tasks[p];
  }

  /** A successful reap returns a pid that no longer names any task, and
      that no remaining list, queue or current slot refers to. */
  lemma ReapedPidVanishes(k: Kernel, pid: isize)
    requires Valid(k)
    requires SysWaitPid(k, pid).Done? && SysWaitPid(k, pid).value.written.Some?
    ensures var w := SysWaitPid(k, pid).value;
            && AsUsize(w.ret) !in w.k.tasks
            && !StillReferenced(w.k, AsUsize(w.ret))
  {
    var w := SysWaitPid(k, pid).value;
    var cs := k.tasks[k.current].children;
    assert AnyReapable(k, cs, pid) by {
      WaitPidNoChild(k, pid);
      WaitPidPending(k, pid);
    }
    var idx := FirstReapableExists(k, pid);
    assert ReapedFrom(k, w.k, idx) && AsUsize(w.ret) == cs[idx] by {
      WaitPidReaps(k, pid, idx);
    }
    ReapedChildGone(k, idx, w.k);
  }

  /** `waitpid(-1, ..)` reaps the head of the list when the head has exited. */
  lemma ReapAnyTakesHead(k: Kernel)
    requires k.current in k.tasks
    requires |k.tasks[k.current].children| > 0
    requires k.tasks[k.current].children[0] in k.tasks
    requires k.tasks[k.tasks[k.current].children[0]].status == Zombie
    ensures var r := SysWaitPid(k, -1);
            r.Done? ==>
              && AsUsize(r.value.ret) == k.tasks[k.current].children[0]
              && r.value.written == Some(k.tasks[k.tasks[k.current].children[0]].exitCode)
              && ReapedFrom(k, r.value.k, 0)
  {
    assert FirstReapable(k, -1, 0);
    WaitPidReaps(k, -1, 0);
  }

  /** With two exited children, `waitpid(-1, ..)` reaps the earlier one and
      leaves the later one, untouched, as the only child. */
  lemma ReapFirstOfTwo(k: Kernel, a: Pid, b: Pid)
    requires Valid(k)
    requires k.tasks[k.current].children == [a, b]
    requires a in k.tasks && k.tasks[a].status == Zombie
    requires b in k.tasks && k.tasks[b].status == Zombie
    ensures var r := SysWaitPid(k, -1);
            && r.Done?
            && AsUsize(r.value.ret) == a
            && r.value.written == Some(k.tasks[a].exitCode)
            && Valid(r.value.k)
            && r.value.k.tasks[r.value.k.current].children == [b]
            && b in r.value.k.tasks
            && r.value.k.tasks[b] == k.tasks[b]
  {
    var r := SysWaitPid(k, -1);
    assert r.Done? && Valid(r.value.k) by {
      WaitPidKeepsValid(k, -1);
    }
    assert AsUsize(r.value.ret) == a && r.value.written == Some(k.tasks[a].exitCode)
           && ReapedFrom(k, r.value.k, 0) by {
      ReapAnyTakesHead(k);
    }
    assert RemoveAt([a, b], 0) == [b];
    assert b != a && b != k.current by {
      assert TaskValid(k, k.current);
    }
  }

  /** With one exited child, `waitpid(-1, ..)` reaps it, and a further call
      finds no child at all. */
  lemma ReapOnlyChild(k: Kernel, b: Pid)
    requires Valid(k)
    requires k.tasks[k.current].children == [b]
    requires b in k.tasks && k.tasks[b].status == Zombie
    ensures var r := SysWaitPid(k, -1);
            && r.Done?
            && AsUsize(r.value.ret) == b
            && r.value.written == Some(k.tasks[b].exitCode)
            && SysWaitPid(r.value.k, -1) == Done(Wait(r.value.k, -1, None))
  {
    WaitPidKeepsValid(k, -1);
    ReapAnyTakesHead(k);
    var k1 := SysWaitPid(k, -1).value.k;
    assert RemoveAt([b], 0) == [];
    assert k1.tasks[k1.current].children == [];
    WaitPidNoChild(k1, -1);
  }

  /** Two exited children, polled with `waitpid(-1, ..)` three times: the
      first call reaps the earlier child, the second the later one, each with
      its own exit code, and the third finds no child at all. */
  lemma ReapAnyInListOrder(k: Kernel, a: Pid, b: Pid)
    requires Valid(k)
    requires k.tasks[k.current].children == [a, b]
    requires a in k.tasks && k.tasks[a].status == Zombie
    requires b in k.tasks && k.tasks[b].status == Zombie
    ensures var first := SysWaitPid(k, -1);
            && first.Done?
            && AsUsize(first.value.ret) == a
            && first.value.written == Some(k.tasks[a].exitCode)
            && var second := SysWaitPid(first.value.k, -1);
               && second.Done?
               && AsUsize(second.value.ret) == b
               && second.value.written == Some(k.tasks[b].exitCode)
               && SysWaitPid(second.value.k, -1) == Done(Wait(second.value.k, -1, None))
  {
    ReapFirstOfTwo(k, a, b);
    ReapOnlyChild(SysWaitPid(k, -1).value.k, b);
  }

  /** Waiting for a specific child that has not exited reports -2 and changes
      nothing. */
  lemma WaitForLiveChildPending(k: Kernel, c: Pid)
    requires k.current in k.tasks
    requires c <= ISIZE_MAX
    requires c in k.tasks[k.current].children
    requires c in k.tasks && k.tasks[c].status != Zombie
    ensures SysWaitPid(k, c) == Done(Wait(k, -2, None))
  {
    var cs := k.tasks[k.current].children;
    var i :| 0 <= i < |cs| && cs[i] == c;
    assert Matches(c, cs[i]);
    WaitPidPending(k, c);
  }
}

/** Properties of repeated forks and of `sys_spawn`. */
module ForkSpawnProperties {
  import opened Machine
  import opened Optional
  import opened TrapContext
  import opened Task
  import opened Process
  import opened Spawn
  import opened ProcessProperties

  /** The caller issues `fork` `n` times in a row. */
  function ForkTimes(k: Kernel, n: nat): (r: Outcome<Kernel>)
    requires CanFork(k)
    ensures r.Done? ==> CanFork(r.value)
    decreases n
  {
    if n == 0 then Done(k)
    else
      match SysFork(k)
      case Panicked(at) => Panicked(at)
      case Done(forked) => ForkTimes(forked.k, n - 1)
  }

  /** The pids `lo, lo + 1, ..., lo + n - 1`, in order. */
  function Consecutive(lo: nat, n: nat): (s: seq<Pid>)
    requires lo + n <= WORD
  {
    seq(n, i requires 0 <= i < n => (lo + i) as Pid)
  }

  /** A run of consecutive pids is its first pid followed by the rest. */
  lemma ConsecutiveCons(lo: nat, n: nat)
    requires 0 < n && lo + n <= WORD
    ensures Consecutive(lo, n) == [lo as Pid] + Consecutive(lo + 1, n - 1)
  {
  }

  /** One successful fork, in the terms the induction below needs. */
  lemma ForkStep(k: Kernel)
    requires CanFork(k) && k.nextPid < WORD
    ensures SysFork(k).Done?
    ensures var k2 := SysFork(k).value.k;
            && CanFork(k2)
            && k2.current == k.current
            && k2.nextPid == k.nextPid + 1
            && k2.tasks.Keys == k.tasks.Keys + {k.nextPid as Pid}
            && k.nextPid !in k.tasks
            && k2.tasks[k.current].children == k.tasks[k.current].children + [k.nextPid as Pid]
  {
  }

  /** `n` forks that all succeed hand out the `n` consecutive pids from the
      allocator's counter, none of which any task held before: the caller's
      children list grows by exactly those pids in order, and the task table
      by exactly those keys. So the pids issued by any sequence of forks are
      pairwise distinct and distinct from every existing task. */
  lemma {:induction false} ForkTimesIssuesFreshPids(k: Kernel, n: nat)
    requires CanFork(k)
    ensures ForkTimes(k, n).Done? ==>
              var k2 := ForkTimes(k, n).value;
              && k2.current == k.current
              && k2.nextPid == k.nextPid + n
              && k.nextPid + n <= WORD
              && (forall p :: p in k2.tasks ==> p in k.tasks || k.nextPid <= p < k.nextPid + n)
              && k2.tasks[k.current].children == k.tasks[k.current].children + Consecutive(k.nextPid, n)
              && (forall i :: 0 <= i < n ==> Consecutive(k.nextPid, n)[i] !in k.tasks)
              && (forall i :: 0 <= i < n ==> Consecutive(k.nextPid, n)[i] in k2.tasks)
              && k.tasks.Keys <= k2.tasks.Keys
    decreases n
  {
    if n > 0 && ForkTimes(k, n).Done? {
      ForkStep(k);
      var k1 := SysFork(k).value.k;
      ForkTimesIssuesFreshPids(k1, n - 1);
      var k2 := ForkTimes(k, n).value;
      assert k2 == ForkTimes(k1, n - 1).value;
      ConsecutiveCons(k.nextPid, n);
      assert k.tasks.Keys <= k1.tasks.Keys <= k2.tasks.Keys;
      var before := k.tasks[k.current].children;
      var rest := Consecutive(k1.nextPid, n - 1);
      calc {
        k2.tasks[k.current].children;
        k1.tasks[k.current].children + rest;
        (before + [k.nextPid as Pid]) + rest;
        { assert (before + [k.nextPid as Pid]) + rest == before + ([k.nextPid as Pid] + rest); }
        before + Consecutive(k.nextPid, n);
      }
      forall i | 0 <= i < n
        ensures Consecutive(k.nextPid, n)[i] !in k.tasks
        ensures Consecutive(k.nextPid, n)[i] in k2.tasks
      {
        if i > 0 {
          assert Consecutive(k.nextPid, n)[i] == Consecutive(k1.nextPid, n - 1)[i - 1];
        }
      }
    }
  }

  /** Spawning keeps the kernel invariant in the intended version. */
  lemma SpawnIntendedKeepsValid(k: Kernel, path: string)
    requires Valid(k)
    ensures SysSpawnIntended(k, path).Done? ==> Valid(SysSpawnIntended(k, path).value.k)
  {
    if path in k.apps && SysSpawnIntended(k, path).Done? {
      var forked := SysFork(k).value.k;
      var np: Pid := k.nextPid;
      assert Valid(forked) && np in forked.tasks by {
        ForkKeepsValid(k);
      }
      var img := k.apps[path];
      ReplaceTcbKeepsValid(forked, np, forked.tasks[np].(image := img, ctx := img.initCtx));
    }
  }

  /** The as-written `sys_spawn` on a missing program reports failure, yet the
      caller has gained a forked child; the intended version changes nothing. */
  lemma SpawnMissingProgramLeavesChild(k: Kernel, path: string)
    requires Valid(k) && k.nextPid < WORD && path !in k.apps
    ensures SysSpawn(k, path).Done? && SysSpawn(k, path).value.ret == -1
    ensures SysSpawn(k, path).value.k.tasks.Keys == k.tasks.Keys + {k.nextPid}
    ensures SysSpawn(k, path).value.k.tasks[k.current].children == k.tasks[k.current].children + [k.nextPid]
    ensures SysSpawnIntended(k, path) == Done(Ret(k, -1))
  {
  }

  /** The as-written `sys_spawn` on a known program never returns: the caller
      itself is overwritten by the program and the kernel panics; the intended
      version returns the pid of a fresh child running that program. */
  lemma SpawnKnownProgramPanics(k: Kernel, path: string)
    requires Valid(k) && k.nextPid < WORD && path in k.apps
    ensures SysSpawn(k, path).Panicked?
    ensures SysSpawnIntended(k, path).Done?
    ensures AsUsize(SysSpawnIntended(k, path).value.ret) == k.nextPid
    ensures SysSpawnIntended(k, path).value.k.tasks[k.nextPid].image == k.apps[path]
    ensures SysSpawnIntended(k, path).value.k.tasks[k.current].image == k.tasks[k.current].image
  {
  }
}
