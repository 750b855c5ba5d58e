/** Laws of every run of the process table: pids, parents, the diagram of process states, what
    kill does, and that no process is kept from running. */
module ProcRuns {
  import opened Options
  import opened Proc

  // ---------------------------------------------------------------------------
  // kill

  /** In every reachable state a process asleep in wait or waitForProcess is not killed: kill
      wakes it up, and neither call goes to sleep once it is killed. */
  lemma WaitersNotKilled(t: State, p: nat)
    requires Reachable(t) && p < |t.procs| && Waits(t.procs[p])
    ensures !t.procs[p].killed
  {
    ReachableIsGood(t);
    assert GoodProc(t, p, t.procs[p]);
  }

  /** The slot that kill finds is killed and not asleep, and no other has changed. */
  lemma KillWakes(s: State, q: nat)
    requires s.lock.None? && q < |s.procs| && FirstPid(s.procs, s.procs[q].pid, q)
    ensures Next(s, KillPid(q)).Some?
    ensures var t := Next(s, KillPid(q)).value;
            && |t.procs| == |s.procs| && q < |s.procs| && t == s.(procs := t.procs)
            && t.procs[q].killed && t.procs[q].state != SLEEPING
            && (s.procs[q].state != SLEEPING ==> t.procs[q].state == s.procs[q].state)
            && (Live(s.procs[q]) <==> Live(t.procs[q]))
            && forall p :: 0 <= p < |s.procs| && p != q ==> t.procs[p] == s.procs[p]
  {}

  /** kill's loop over the table. */
  method KillLoop(table: array<Proc>, pid: int) returns (found: bool)
    modifies table
    ensures found <==> !NoSuch(old(table[..]), pid)
    ensures !found ==> table[..] == old(table[..])
    ensures found ==> forall s: State :: s.lock.None? && s.procs == old(table[..]) ==>
              exists q: nat :: FirstPid(s.procs, pid, q) && Next(s, KillPid(q)) == Some(s.(procs := table[..]))
  {
    var i := 0;
    while i < table.Length
      invariant 0 <= i <= table.Length && table[..] == old(table[..])
      invariant forall j :: 0 <= j < i ==> table[j].pid != pid
    {
      if table[i].pid == pid {
        table[i] := table[i].(killed := true);
        if table[i].state == SLEEPING {
          table[i] := table[i].(state := RUNNABLE);
        }
        ghost var was := old(table[..]);
        assert table[..] == was[i := table[i]];
        assert FirstPid(was, pid, i);
        return true;
      }
      i := i + 1;
    }
    return false;
  }

  // ---------------------------------------------------------------------------
  // Pids and parents

  /** Slots in use have pids, no slot has one not given out yet, and no two have the same. */
  ghost predicate PidsDiffer(s: State) {
    && s.nextpid > 0
    && (forall p :: 0 <= p < |s.procs| ==> 0 <= s.procs[p].pid < s.nextpid)
    && (forall p :: 0 <= p < |s.procs| && s.procs[p].state != UNUSED ==> s.procs[p].pid > 0)
    && forall p, q :: 0 <= p < q < |s.procs| && s.procs[p].pid > 0 ==> s.procs[p].pid != s.procs[q].pid
  }

  /** Every process but init has a parent. */
  ghost predicate NoOrphan(s: State) {
    forall p :: 0 <= p < |s.procs| && p != s.init && (Live(s.procs[p]) || s.procs[p].state == ZOMBIE) ==>
      s.procs[p].parent.Some?
  }

  lemma WakeupIs(procs: seq<Proc>, ch: Chan, q: nat)
    requires q < |procs|
    ensures |Wakeup(procs, ch)| == |procs|
    ensures var x, y := procs[q], Wakeup(procs, ch)[q];
            && y == x.(state := y.state)
            && y.state == if x.state == SLEEPING && x.chan == ch then RUNNABLE else x.state
  {}

  /** A child of p gets init for a parent, and only a process asleep on init's slot is woken. */
  lemma AdoptedIs(procs: seq<Proc>, p: nat, init: nat, q: nat)
    requires q < |procs|
    ensures var x, y := procs[q], Adopted(procs, p, init)[q];
            && y == x.(state := y.state, parent := if x.parent == Some(p) then Some(init) else x.parent)
            && (y.state != x.state ==> x.state == SLEEPING && y.state == RUNNABLE && x.chan == Slot(init))
  {}

  lemma ExitIs(s: State, c: nat, q: nat)
    requires Outside(s, c) && q < |s.procs|
    ensures |ExitState(s, c).procs| == |s.procs| && ExitState(s, c) == s.(procs := ExitState(s, c).procs,
              cpus := s.cpus[c := Leaving(s.cpus[c].p)], lock := Some(c))
    ensures var p, x, y := s.cpus[c].p, s.procs[q], ExitState(s, c).procs[q];
            && y == x.(state := y.state, parent := y.parent, place := y.place)
            && y.parent == (if x.parent == Some(p) then Some(s.init) else x.parent)
            && (q == p ==> y.state == ZOMBIE)
            && (q != p ==> y.place == x.place)
            && (q != p && y.state != x.state ==> x.state == SLEEPING && y.state == RUNNABLE)
            && (q != p && y.state != x.state ==>
                  x.chan == Slot(s.init) || (x.chan.Slot? && s.procs[p].parent == Some(x.chan.p)))
  {
    var p := s.cpus[c].p;
    var woken := ParentWoken(s.procs, p);
    hide Adopted, Wakeup;
    if s.procs[p].parent.Some? {
      WakeupIs(s.procs, Slot(s.procs[p].parent.value), q);
    }
    AdoptedIs(woken, p, s.init, q);
  }

  /** Who is on a CPU is running, and what a fork fills is an EMBRYO. */
  lemma WhoRuns(s: State)
    requires Inv(s)
    ensures forall c :: 0 <= c < |s.cpus| && (s.cpus[c].In? || s.cpus[c].Resumed?) ==>
              s.cpus[c].p < |s.procs| && s.procs[s.cpus[c].p].state == RUNNING
    ensures forall c :: 0 <= c < |s.cpus| && s.cpus[c].Leaving? ==>
              s.cpus[c].p < |s.procs| && s.procs[s.cpus[c].p].state in {SLEEPING, RUNNABLE, ZOMBIE}
    ensures forall c: nat, np: nat :: Forking(s, c, np) ==> s.procs[np].state == EMBRYO && np != s.cpus[c].p
  {
    forall c | 0 <= c < |s.cpus| ensures GoodCpu(s, c, s.cpus[c]) {}
    forall c: nat, np: nat | Forking(s, c, np) ensures s.procs[np].state == EMBRYO && np != s.cpus[c].p {
      EmbryoIs(s, c, np);
    }
  }

  /** What a step may do to the pid and the parent of a slot. */
  ghost predicate FamilyKept(s: State, t: State, step: Step, q: nat)
    requires q < |s.procs| == |t.procs|
  {
    var x, y := s.procs[q], t.procs[q];
    && t.init == s.init && t.nextpid == s.nextpid + (if step.ForkStart? then 1 else 0)
    && (|| (y.pid == x.pid && (y.state != UNUSED ==> x.state != UNUSED))
        || (y.pid == 0 && y.state == UNUSED)
        || (y.pid == s.nextpid && step.ForkStart? && step.np == q))
    && (x.parent.Some? && y.parent.None? ==> y.state == UNUSED)
    && (Live(y) || y.state == ZOMBIE ==> Live(x) || x.state == ZOMBIE || y.parent.Some?)
  }

  lemma ForkFamily(s: State, step: Step, q: nat)
    requires Inv(s) && Next(s, step).Some? && q < |s.procs| == |Next(s, step).value.procs|
    requires step.ForkStart? || step.ForkStack? || step.ForkCopy? || step.ForkFail? || step.ForkDone?
    ensures FamilyKept(s, Next(s, step).value, step, q)
  {
    hide Inv;
    WhoRuns(s);
  }

  lemma FamilyStep(s: State, step: Step, q: nat)
    requires Inv(s) && Next(s, step).Some? && q < |s.procs| == |Next(s, step).value.procs|
    ensures FamilyKept(s, Next(s, step).value, step, q)
  {
    hide Inv, ExitState, NoChild, NoZombie, NoneDead, NoSuch, Wakeup, FirstDead, FirstZombie, FirstPid;
    WhoRuns(s);
    if step.Exit? {
      ExitIs(s, step.c, q);
    } else if step.WakeEvent? {
      WakeupIs(s.procs, Event(step.e), q);
    } else if step.ForkStart? || step.ForkStack? || step.ForkCopy? || step.ForkFail? || step.ForkDone? {
      ForkFamily(s, step, q);
    }
  }

  lemma FamilyIsKept(s: State, t: State, step: Step)
    requires PidsDiffer(s) && NoOrphan(s) && s.init < |s.procs| == |t.procs|
    requires forall q :: 0 <= q < |s.procs| ==> FamilyKept(s, t, step, q)
    ensures PidsDiffer(t) && NoOrphan(t)
  {
    assert FamilyKept(s, t, step, s.init);
    forall p, q | 0 <= p < q < |t.procs| && t.procs[p].pid > 0 ensures t.procs[p].pid != t.procs[q].pid {
      assert FamilyKept(s, t, step, p) && FamilyKept(s, t, step, q);
    }
    forall p | 0 <= p < |t.procs|
      ensures 0 <= t.procs[p].pid < t.nextpid && (t.procs[p].state != UNUSED ==> t.procs[p].pid > 0)
      ensures p != t.init && (Live(t.procs[p]) || t.procs[p].state == ZOMBIE) ==> t.procs[p].parent.Some?
    {
      assert FamilyKept(s, t, step, p);
    }
  }

  lemma StepKeepsPids(s: State, step: Step)
    requires Inv(s) && PidsDiffer(s) && NoOrphan(s) && Next(s, step).Some?
    ensures PidsDiffer(Next(s, step).value) && NoOrphan(Next(s, step).value)
  {
    assert s.init < |s.procs|;
    hide Inv, Next, FamilyKept;
    SameSlots(s, step);
    var t := Next(s, step).value;
    forall q | 0 <= q < |s.procs| ensures FamilyKept(s, t, step, q) {
      FamilyStep(s, step, q);
    }
    FamilyIsKept(s, t, step);
  }

  /** In every reachable state the pids of slots in use are different, and every process but
      init has a live parent. */
  lemma {:induction false} RunKeepsPids(s: State, steps: seq<Step>)
    requires Boot(s) && Exec(s, steps).Some?
    ensures PidsDiffer(Exec(s, steps).value) && NoOrphan(Exec(s, steps).value)
    decreases |steps|
  {
    hide Inv, Next;
    if steps != [] {
      var n := |steps| - 1;
      RunKeepsPids(s, steps[..n]);
      RunKeepsInv(s, steps[..n]);
      StepKeepsPids(Exec(s, steps[..n]).value, steps[n]);
    }
  }

  /** Two slots in use have different pids. */
  lemma PidIsUnique(t: State, p: nat, q: nat)
    requires Reachable(t) && p < |t.procs| && q < |t.procs| && p != q
    requires t.procs[p].state != UNUSED && t.procs[q].state != UNUSED
    ensures t.procs[p].pid != t.procs[q].pid
  {
    var s, steps :| Boot(s) && Exec(s, steps) == Some(t);
    RunKeepsPids(s, steps);
  }

  predicate InWaitAsleep(x: Proc) {
    x.state == SLEEPING && x.place.InWait?
  }

  /** A zombie has a live parent to reap it, which is not asleep in wait. */
  lemma ZombieHasParent(t: State, q: nat)
    requires Reachable(t) && q < |t.procs| && t.procs[q].state == ZOMBIE
    ensures t.procs[q].parent.Some? && t.procs[q].parent.value < |t.procs|
    ensures var p := t.procs[t.procs[q].parent.value]; Live(p) && !InWaitAsleep(p)
  {
    var s, steps :| Boot(s) && Exec(s, steps) == Some(t);
    RunKeepsPids(s, steps);
    RunKeepsInv(s, steps);
    assert GoodProc(t, q, t.procs[q]);
    var p := t.procs[q].parent.value;
    assert ChildOf(t.procs, p, q);
    assert NotStranded(t, p, t.procs[p]);
  }

  // ---------------------------------------------------------------------------
  // The diagram of process states

  /** The process that takes the step. */
  predicate By(s: State, c: nat, q: nat) {
    c < |s.cpus| && Current(s.cpus[c]) == Some(q)
  }

  /** Every change of the state of a slot, with the step that makes it. */
  ghost predicate Moves(s: State, step: Step, q: nat, x: Proc, y: Proc) {
    match (x.state, y.state)
    case (UNUSED, EMBRYO) => step.ForkStart? && step.np == q && y.pid == s.nextpid
    case (EMBRYO, UNUSED) => step.ForkFail? && Forking(s, step.c, q)
    case (EMBRYO, RUNNABLE) => step.ForkDone? && Forking(s, step.c, q) && y.parent == Some(s.cpus[step.c].p)
    case (RUNNABLE, RUNNING) => step.Dispatch? && step.p == q
    case (RUNNING, RUNNABLE) => step.Yield? && By(s, step.c, q)
    case (RUNNING, SLEEPING) =>
      || (step.SleepOn? && By(s, step.c, q) && y.chan == Event(step.e))
      || ((step.WaitSleep? || step.WaitForSleep?) && By(s, step.c, q) && y.chan == Slot(q))
    case (RUNNING, ZOMBIE) => step.Exit? && By(s, step.c, q)
    case (SLEEPING, RUNNABLE) =>
      || step == KillPid(q) || (step.WakeEvent? && x.chan == Event(step.e))
      || (step.Exit? && step.c < |s.cpus| && s.cpus[step.c].In? && s.cpus[step.c].p < |s.procs|
          && (x.chan == Slot(s.init) || (x.chan.Slot? && s.procs[s.cpus[step.c].p].parent == Some(x.chan.p))))
    case (ZOMBIE, UNUSED) => Reaps(step, q)
    case _ => x.state == y.state
  }

  lemma ReapsZombie(s: State, step: Step)
    requires Next(s, step).Some? && (step.WaitReap? || step.WaitForReap?)
    ensures step.q < |s.procs| && s.procs[step.q].state == ZOMBIE
  {}

  lemma ForkDiagram(s: State, step: Step, q: nat)
    requires Inv(s) && Next(s, step).Some? && q < |s.procs| == |Next(s, step).value.procs|
    requires step.ForkStart? || step.ForkStack? || step.ForkCopy? || step.ForkFail? || step.ForkDone?
    ensures Moves(s, step, q, s.procs[q], Next(s, step).value.procs[q])
  {
    hide Inv;
    WhoRuns(s);
  }

  /** The steps that wake, reap or end a process. */
  lemma TableDiagram(s: State, step: Step, q: nat)
    requires Inv(s) && Next(s, step).Some? && q < |s.procs| == |Next(s, step).value.procs|
    requires step.Exit? || step.WakeEvent? || step.KillPid? || step.WaitReap? || step.WaitForReap?
    ensures Moves(s, step, q, s.procs[q], Next(s, step).value.procs[q])
  {
    hide Inv, ExitState, Wakeup, FirstDead, FirstZombie, FirstPid;
    WhoRuns(s);
    match step
    case Exit(c) => ExitIs(s, c, q);
    case WakeEvent(e) => WakeupIs(s.procs, Event(e), q);
    case KillPid(_) =>
    case _ => ReapsZombie(s, step);
  }

  /** No step changes the state of a slot but as the diagram has it. */
  lemma StateDiagram(s: State, step: Step, q: nat)
    requires Inv(s) && Next(s, step).Some? && q < |s.procs| == |Next(s, step).value.procs|
    ensures Moves(s, step, q, s.procs[q], Next(s, step).value.procs[q])
  {
    hide Inv, ExitState, NoChild, NoZombie, NoneDead, NoSuch, Wakeup, FirstDead, FirstZombie, FirstPid;
    if step.ForkStart? || step.ForkStack? || step.ForkCopy? || step.ForkFail? || step.ForkDone? {
      ForkDiagram(s, step, q);
    } else if step.Exit? || step.WakeEvent? || step.KillPid? || step.WaitReap? || step.WaitForReap? {
      TableDiagram(s, step, q);
    } else {
      WhoRuns(s);
    }
  }

  /** sleep puts the process to sleep on its channel. */
  lemma GoesToSleep(s: State, c: nat, e: nat, q: nat)
    requires Inv(s) && Outside(s, c) && By(s, c, q)
    ensures var t := Next(s, SleepOn(c, e));
            t.Some? && q < |t.value.procs| && t.value.procs[q].state == SLEEPING && t.value.procs[q].chan == Event(e)
  {}

  lemma ChanKept(s: State, step: Step, q: nat)
    requires Inv(s) && Next(s, step).Some? && q < |s.procs| == |Next(s, step).value.procs|
    requires s.procs[q].state == SLEEPING && Next(s, step).value.procs[q].state == SLEEPING
    ensures Next(s, step).value.procs[q].chan == s.procs[q].chan
  {
    hide Inv, ExitState, NoChild, NoZombie, NoneDead, NoSuch, Wakeup, FirstDead, FirstZombie, FirstPid;
    WhoRuns(s);
    if step.Exit? {
      ExitIs(s, step.c, q);
    } else if step.WakeEvent? {
      WakeupIs(s.procs, Event(step.e), q);
    }
  }

  lemma Awakens(s: State, step: Step, q: nat, e: nat)
    requires Next(s, step).Some? && q < |s.procs| == |Next(s, step).value.procs|
    requires s.procs[q].chan == Event(e) && (step == WakeEvent(e) || step == KillPid(q))
    ensures Next(s, step).value.procs[q].state != SLEEPING
  {}

  /** It sleeps on that channel until it is woken there, or killed. */
  lemma SleepsUntil(s: State, e: nat, step: Step, q: nat)
    requires Inv(s) && Next(s, step).Some? && q < |s.procs|
    requires s.procs[q].state == SLEEPING && s.procs[q].chan == Event(e)
    ensures var t := Next(s, step).value;
            && |t.procs| == |s.procs|
            && (t.procs[q].state != SLEEPING <==> step == WakeEvent(e) || step == KillPid(q))
            && (t.procs[q].state == SLEEPING ==> t.procs[q].chan == Event(e))
  {
    hide Inv, Next;
    SameSlots(s, step);
    StateDiagram(s, step, q);
    if Next(s, step).value.procs[q].state == SLEEPING {
      ChanKept(s, step, q);
    }
    if step == WakeEvent(e) || step == KillPid(q) {
      Awakens(s, step, q, e);
    }
  }

  /** A process that runs is on no channel. */
  ghost predicate Unchained(s: State) {
    forall q :: 0 <= q < |s.procs| && s.procs[q].state in {RUNNING, ZOMBIE} ==> s.procs[q].chan == Nothing
  }

  lemma ChainStep(s: State, step: Step, q: nat)
    requires Inv(s) && Unchained(s) && Next(s, step).Some? && q < |s.procs| == |Next(s, step).value.procs|
    ensures var y := Next(s, step).value.procs[q]; y.state in {RUNNING, ZOMBIE} ==> y.chan == Nothing
  {
    hide Inv, ExitState, NoChild, NoZombie, NoneDead, NoSuch, Wakeup, FirstDead, FirstZombie, FirstPid;
    WhoRuns(s);
    if step.Exit? {
      ExitIs(s, step.c, q);
    } else if step.WakeEvent? {
      WakeupIs(s.procs, Event(step.e), q);
    }
  }

  lemma {:induction false} RunUnchains(s: State, steps: seq<Step>)
    requires Boot(s) && Exec(s, steps).Some?
    ensures Unchained(Exec(s, steps).value)
    decreases |steps|
  {
    hide Inv, Next;
    if steps != [] {
      var n := |steps| - 1;
      RunUnchains(s, steps[..n]);
      RunKeepsInv(s, steps[..n]);
      var u := Exec(s, steps[..n]).value;
      SameSlots(u, steps[n]);
      forall q | 0 <= q < |u.procs|
        ensures var y := Exec(s, steps).value.procs[q]; y.state in {RUNNING, ZOMBIE} ==> y.chan == Nothing
      {
        ChainStep(u, steps[n], q);
      }
    }
  }

  // ---------------------------------------------------------------------------
  // The killed flag

  /** Only kill sets the flag of a slot, and only reaping clears it. */
  lemma FlagStep(s: State, step: Step, q: nat)
    requires Next(s, step).Some? && q < |s.procs| == |Next(s, step).value.procs|
    ensures Next(s, step).value.procs[q].killed ==
            if step == KillPid(q) then true else if Reaps(step, q) then false else s.procs[q].killed
  {
    hide ExitState, NoChild, NoZombie, NoneDead, NoSuch, Wakeup, FirstDead, FirstZombie, FirstPid;
    if step.Exit? {
      ExitIs(s, step.c, q);
    } else if step.WakeEvent? {
      WakeupIs(s.procs, Event(step.e), q);
    }
  }

  /** No kill of the run found a slot without a process: one that is unused, or not yet born. */
  ghost predicate KillsFind(s: State, steps: seq<Step>) {
    forall i :: 0 <= i < |steps| && steps[i].KillPid? ==>
      && Exec(s, steps[..i]).Some? && steps[i].q < |Exec(s, steps[..i]).value.procs|
      && Exec(s, steps[..i]).value.procs[steps[i].q].state !in {UNUSED, EMBRYO}
  }

  ghost predicate UnbornClean(s: State) {
    forall q :: 0 <= q < |s.procs| && (s.procs[q].state == UNUSED || s.procs[q].state == EMBRYO) ==> !s.procs[q].killed
  }

  lemma CleanStep(s: State, step: Step)
    requires Inv(s) && UnbornClean(s) && Next(s, step).Some?
    requires step.KillPid? ==> step.q < |s.procs| && s.procs[step.q].state !in {UNUSED, EMBRYO}
    ensures UnbornClean(Next(s, step).value)
  {
    hide Inv, Next;
    SameSlots(s, step);
    var t := Next(s, step).value;
    forall q | 0 <= q < |t.procs| && (t.procs[q].state == UNUSED || t.procs[q].state == EMBRYO)
      ensures !t.procs[q].killed
    {
      FlagStep(s, step, q);
      StateDiagram(s, step, q);
    }
  }

  /** Then no child is killed before its birth. */
  lemma {:induction false} BornClean(s: State, steps: seq<Step>)
    requires Boot(s) && Exec(s, steps).Some? && KillsFind(s, steps)
    ensures UnbornClean(Exec(s, steps).value)
    decreases |steps|
  {
    hide Inv, Next;
    if steps != [] {
      var n := |steps| - 1;
      forall i | 0 <= i < n ensures steps[..n][..i] == steps[..i] {}
      BornClean(s, steps[..n]);
      RunKeepsInv(s, steps[..n]);
      CleanStep(Exec(s, steps[..n]).value, steps[n]);
    }
  }

  /** kill(0) finds a slot never used; the first child of init is born killed. */
  lemma KilledBeforeBirth()
    ensures Reachable(Machine(Running(1, None), Ready(2, Some(0)).(killed := true), Free(), In(0), 3))
  {
    hide Reachable;
    InitRuns();
    var a, k := Running(1, None), Free().(killed := true);
    MachineSet(a, Free(), Free(), In(0), 2, k, In(0));
    StepsOn(Machine(a, Free(), Free(), In(0), 2), KillPid(1), Machine(a, k, Free(), In(0), 2));
    var f := a.(making := Some(1));
    var e0 := k.(state := EMBRYO, pid := 2);
    var e1 := e0.(kstack := true);
    var e2 := e1.(pgdir := true);
    MachineSet(a, k, Free(), In(0), 2, f, In(0));
    MachineSet(f, k, Free(), In(0), 2, e0, In(0));
    StepsOn(Machine(a, k, Free(), In(0), 2), ForkStart(0, 1), Machine(f, e0, Free(), In(0), 3));
    MachineSet(f, e0, Free(), In(0), 3, e1, In(0));
    StepsOn(Machine(f, e0, Free(), In(0), 3), ForkStack(0), Machine(f, e1, Free(), In(0), 3));
    MachineSet(f, e1, Free(), In(0), 3, e2, In(0));
    StepsOn(Machine(f, e1, Free(), In(0), 3), ForkCopy(0), Machine(f, e2, Free(), In(0), 3));
    var b := Ready(2, Some(0)).(killed := true);
    MachineSet(f, e2, Free(), In(0), 3, a, In(0));
    MachineSet(a, e2, Free(), In(0), 3, b, In(0));
    StepsOn(Machine(f, e2, Free(), In(0), 3), ForkDone(0), Machine(a, b, Free(), In(0), 3));
  }

  // ---------------------------------------------------------------------------
  // No process is kept from running

  ghost predicate LeadsTo(s: State, t: State) {
    exists steps :: Exec(s, steps) == Some(t)
  }

  lemma Stays(s: State)
    ensures LeadsTo(s, s)
  {
    assert Exec(s, []) == Some(s);
  }

  lemma Continues(s: State, t: State, step: Step)
    requires LeadsTo(s, t) && Next(t, step).Some?
    ensures LeadsTo(s, Next(t, step).value)
  {
    hide Next;
    var steps :| Exec(s, steps) == Some(t);
    assert (steps + [step])[..|steps|] == steps;
    assert Exec(s, steps + [step]) == Next(t, step);
  }

  lemma {:induction false} ExecJoin(s: State, a: seq<Step>, b: seq<Step>)
    requires Exec(s, a).Some?
    ensures Exec(s, a + b) == Exec(Exec(s, a).value, b)
    decreases |b|
  {
    hide Next;
    if b == [] {
      assert a + b == a;
    } else {
      var n := |b| - 1;
      assert (a + b)[..|a + b| - 1] == a + b[..n];
      ExecJoin(s, a, b[..n]);
    }
  }

  lemma LeadsOn(s: State, t: State, u: State)
    requires LeadsTo(s, t) && LeadsTo(t, u)
    ensures LeadsTo(s, u)
  {
    hide Exec;
    var a :| Exec(s, a) == Some(t);
    var b :| Exec(t, b) == Some(u);
    ExecJoin(s, a, b);
  }

  lemma StaysReachable(s: State, t: State)
    requires Reachable(s) && LeadsTo(s, t)
    ensures Reachable(t)
  {
    hide Exec;
    var b, steps :| Boot(b) && Exec(b, steps) == Some(s);
    var more :| Exec(s, more) == Some(t);
    ExecJoin(b, steps, more);
  }

  /** The process has slept in wait or waitForProcess, and no fork of its own is under way. */
  predicate Settled(x: Proc) {
    x.place.Plain? || x.making.None?
  }

  /** What is not running, or just switched to, is settled. */
  ghost predicate Resting(s: State) {
    && (forall p :: 0 <= p < |s.procs| && s.procs[p].state in {SLEEPING, RUNNABLE} ==> Settled(s.procs[p]))
    && (forall c :: 0 <= c < |s.cpus| && s.cpus[c].Resumed? && s.cpus[c].p < |s.procs| ==>
          Settled(s.procs[s.cpus[c].p]))
  }

  lemma RestStep(s: State, step: Step, q: nat)
    requires Inv(s) && Resting(s) && Next(s, step).Some? && q < |s.procs| == |Next(s, step).value.procs|
    ensures var y := Next(s, step).value.procs[q]; y.state in {SLEEPING, RUNNABLE} ==> Settled(y)
  {
    hide Inv, ExitState, NoChild, NoZombie, NoneDead, NoSuch, Wakeup, FirstDead, FirstZombie, FirstPid;
    WhoRuns(s);
    if step.Exit? {
      ExitIs(s, step.c, q);
    } else if step.WakeEvent? {
      WakeupIs(s.procs, Event(step.e), q);
    }
  }

  /** Who holds ptable.lock is the only one to change a process that has it. */
  lemma ResumedAlone(s: State, step: Step, c: nat)
    requires Inv(s) && Next(s, step).Some? && c < |s.cpus| == |Next(s, step).value.cpus|
    requires |Next(s, step).value.procs| == |s.procs|
    requires s.cpus[c].Resumed? && Next(s, step).value.cpus[c] == s.cpus[c]
    ensures s.cpus[c].p < |s.procs|
    ensures var x, y := s.procs[s.cpus[c].p], Next(s, step).value.procs[s.cpus[c].p];
            y.place == x.place && y.making == x.making
  {
    hide ExitState, NoChild, NoZombie, NoneDead, NoSuch, Wakeup, FirstDead, FirstZombie, FirstPid, GoodProcs;
    hide NoneStranded, MakersDiffer;
    assert GoodCpu(s, c, s.cpus[c]);
    WhoRuns(s);
    if step.ForkFail? {
      assert GoodCpu(s, step.c, s.cpus[step.c]);
    }
  }

  lemma NewlyResumed(s: State, step: Step, c: nat)
    requires Inv(s) && Next(s, step).Some? && c < |s.cpus| == |Next(s, step).value.cpus|
    requires Next(s, step).value.cpus[c].Resumed? && Next(s, step).value.cpus[c] != s.cpus[c]
    ensures step.Dispatch? && step.c == c && Next(s, step).value.cpus[c].p == step.p < |s.procs|
    ensures s.procs[step.p].state == RUNNABLE
    ensures |Next(s, step).value.procs| == |s.procs|
    ensures var x, y := s.procs[step.p], Next(s, step).value.procs[step.p];
            y.place == x.place && y.making == x.making
  {
    hide Inv, ExitState, NoChild, NoZombie, NoneDead, NoSuch, Wakeup, FirstDead, FirstZombie, FirstPid;
    if step.Exit? {
      ExitIs(s, step.c, s.cpus[step.c].p);
    }
  }

  lemma SameCpus(s: State, step: Step)
    requires Next(s, step).Some?
    ensures |Next(s, step).value.cpus| == |s.cpus|
  {
    hide ExitState, NoChild, NoZombie, NoneDead, NoSuch;
    if step.Exit? {
      ExitIs(s, step.c, s.cpus[step.c].p);
    }
  }

  lemma StepRests(s: State, step: Step)
    requires Inv(s) && Resting(s) && Next(s, step).Some?
    ensures Resting(Next(s, step).value)
  {
    hide Inv, Next, Settled;
    SameSlots(s, step);
    SameCpus(s, step);
    var t := Next(s, step).value;
    forall q | 0 <= q < |t.procs| && t.procs[q].state in {SLEEPING, RUNNABLE} ensures Settled(t.procs[q]) {
      RestStep(s, step, q);
    }
    forall c | 0 <= c < |t.cpus| && t.cpus[c].Resumed? && t.cpus[c].p < |t.procs|
      ensures Settled(t.procs[t.cpus[c].p]) {
      if t.cpus[c] == s.cpus[c] {
        ResumedAlone(s, step, c);
        SettledAs(s.procs[s.cpus[c].p], t.procs[s.cpus[c].p]);
      } else {
        NewlyResumed(s, step, c);
        SettledAs(s.procs[step.p], t.procs[step.p]);
      }
    }
  }

  lemma SettledAs(x: Proc, y: Proc)
    requires y.place == x.place && y.making == x.making
    ensures Settled(y) <==> Settled(x)
  {}

  lemma {:induction false} RunRests(s: State, steps: seq<Step>)
    requires Boot(s) && Exec(s, steps).Some?
    ensures Resting(Exec(s, steps).value)
    decreases |steps|
  {
    hide Inv, Next;
    if steps != [] {
      var n := |steps| - 1;
      RunRests(s, steps[..n]);
      RunKeepsInv(s, steps[..n]);
      StepRests(Exec(s, steps[..n]).value, steps[n]);
    }
  }

  lemma {:induction false} FindsZombie(procs: seq<Proc>, me: nat, i: nat) returns (q: nat)
    requires i < |procs| && ChildOf(procs, me, i) && procs[i].state == ZOMBIE
    ensures FirstZombie(procs, me, q)
    decreases i
  {
    q := i;
    if r :| 0 <= r < i && ChildOf(procs, me, r) && procs[r].state == ZOMBIE {
      q := FindsZombie(procs, me, r);
    }
  }

  lemma {:induction false} FindsDead(procs: seq<Proc>, pid: int, i: nat) returns (q: nat)
    requires i < |procs| && procs[i].pid == pid && procs[i].state == ZOMBIE
    ensures FirstDead(procs, pid, q)
    decreases i
  {
    q := i;
    if r :| 0 <= r < i && procs[r].pid == pid && procs[r].state == ZOMBIE {
      q := FindsDead(procs, pid, r);
    }
  }

  /** Whoever was switched to has a step that gives ptable.lock up, or the CPU. */
  lemma Goes(s: State, c: nat) returns (step: Step)
    requires Inv(s) && Resting(s) && c < |s.cpus| && s.cpus[c].Resumed?
    ensures Next(s, step).Some? && !step.Dispatch? && !step.WakeEvent? && !step.KillPid? && !step.Exit?
    ensures var t := Next(s, step).value;
            |t.cpus| == |s.cpus| && (t.cpus[c].In? || t.cpus[c].Leaving?) && (t.lock.None? <==> t.cpus[c].In?)
  {
    hide GoodProcs, NoneStranded, MakersDiffer;
    var p := s.cpus[c].p;
    assert GoodCpu(s, c, s.cpus[c]);
    match s.procs[p].place {
      case Plain =>
        step := Return(c);
      case InWait =>
        if i :| 0 <= i < |s.procs| && ChildOf(s.procs, p, i) && s.procs[i].state == ZOMBIE {
          var q := FindsZombie(s.procs, p, i);
          step := WaitReap(c, q);
        } else {
          assert NoZombie(s.procs, p);
          step := if s.procs[p].killed || NoChild(s.procs, p) then WaitFail(c) else WaitSleep(c);
        }
      case InWaitFor(pid) =>
        if i :| 0 <= i < |s.procs| && s.procs[i].pid == pid && s.procs[i].state == ZOMBIE {
          var q := FindsDead(s.procs, pid, i);
          step := WaitForReap(c, pid, q);
        } else {
          assert NoneDead(s.procs, pid);
          step := if s.procs[p].killed || NoSuch(s.procs, pid) then WaitForFail(c, pid) else WaitForSleep(c, pid);
        }
    }
  }

  /** A runnable process stays so until it is switched to. */
  lemma StaysRunnable(s: State, step: Step, q: nat)
    requires Inv(s) && Next(s, step).Some? && !step.Dispatch? && q < |s.procs| && s.procs[q].state == RUNNABLE
    ensures Inv(Next(s, step).value)
    ensures |Next(s, step).value.procs| == |s.procs| && Next(s, step).value.procs[q].state == RUNNABLE
  {
    hide Inv, Next;
    SameSlots(s, step);
    StateDiagram(s, step, q);
    StepKeepsInv(s, step);
  }

  /** A CPU whose scheduler has the lock switches to it. */
  lemma RunsNow(s: State, t: State, q: nat, c: nat) returns (u: State)
    requires LeadsTo(s, t) && Inv(t) && c < |t.cpus| && t.cpus[c].Scan? && q < |t.procs| && t.procs[q].state == RUNNABLE
    ensures LeadsTo(s, u) && q < |u.procs| && u.procs[q].state == RUNNING && c < |u.cpus| && u.cpus[c] == Resumed(q)
  {
    hide LeadsTo, Inv;
    u := Next(t, Dispatch(c, q)).value;
    Continues(s, t, Dispatch(c, q));
  }

  /** From a CPU that is leaving a process, the scheduler is one step away. */
  lemma RunsAfterSwitch(s: State, t: State, q: nat, c: nat) returns (u: State)
    requires LeadsTo(s, t) && Inv(t) && c < |t.cpus| && t.cpus[c].Leaving?
    requires q < |t.procs| && t.procs[q].state == RUNNABLE
    ensures LeadsTo(s, u) && q < |u.procs| && u.procs[q].state == RUNNING && c < |u.cpus| && u.cpus[c] == Resumed(q)
  {
    assert GoodCpu(t, c, t.cpus[c]);
    hide LeadsTo, Inv;
    Continues(s, t, Switch(c));
    StaysRunnable(t, Switch(c), q);
    u := RunsNow(s, Next(t, Switch(c)).value, q, c);
  }

  /** With ptable.lock free, any CPU can be brought to its scheduler. */
  lemma RunsFromFree(s: State, t: State, q: nat, c: nat) returns (u: State)
    requires LeadsTo(s, t) && Inv(t) && c < |t.cpus| && t.lock.None?
    requires q < |t.procs| && t.procs[q].state == RUNNABLE
    ensures LeadsTo(s, u) && q < |u.procs| && u.procs[q].state == RUNNING && c < |u.cpus| && u.cpus[c] == Resumed(q)
  {
    assert GoodCpu(t, c, t.cpus[c]);
    hide LeadsTo, Inv;
    var step := if t.cpus[c].Loop? then Step.Lock(c) else Yield(c);
    Continues(s, t, step);
    StaysRunnable(t, step, q);
    if t.cpus[c].Loop? {
      u := RunsNow(s, Next(t, step).value, q, c);
    } else {
      u := RunsAfterSwitch(s, Next(t, step).value, q, c);
    }
  }

  lemma RunsFromHeld(s: State, q: nat) returns (u: State)
    requires Inv(s) && Resting(s) && s.lock.Some? && q < |s.procs| && s.procs[q].state == RUNNABLE
    ensures LeadsTo(s, u) && q < |u.procs| && u.procs[q].state == RUNNING
  {
    var c := s.lock.value;
    assert GoodCpu(s, c, s.cpus[c]);
    hide LeadsTo, Inv, Next, Resting;
    Stays(s);
    if s.cpus[c].Scan? {
      u := RunsNow(s, s, q, c);
    } else if s.cpus[c].Leaving? {
      u := RunsAfterSwitch(s, s, q, c);
    } else {
      var step := Goes(s, c);
      Continues(s, s, step);
      StaysRunnable(s, step, q);
      var t := Next(s, step).value;
      if t.cpus[c].In? {
        u := RunsFromFree(s, t, q, c);
      } else {
        u := RunsAfterSwitch(s, t, q, c);
      }
    }
  }

  /** From every reachable state a runnable process can come to run. */
  lemma CanRun(s: State, q: nat) returns (u: State)
    requires Reachable(s) && |s.cpus| > 0 && q < |s.procs| && s.procs[q].state == RUNNABLE
    ensures LeadsTo(s, u) && q < |u.procs| && u.procs[q].state == RUNNING
  {
    hide LeadsTo, Inv, Next, Resting;
    var b, steps :| Boot(b) && Exec(b, steps) == Some(s);
    RunKeepsInv(b, steps);
    RunRests(b, steps);
    if s.lock.Some? {
      u := RunsFromHeld(s, q);
    } else {
      Stays(s);
      u := RunsFromFree(s, s, q, 0);
    }
  }

  // ---------------------------------------------------------------------------
  // Nor is a sleeper

  /** A sleeper stays asleep, on its channel, through the steps that give ptable.lock up. */
  lemma StaysAsleep(s: State, step: Step, q: nat)
    requires Inv(s) && Next(s, step).Some? && q < |s.procs| && s.procs[q].state == SLEEPING
    requires !step.WakeEvent? && !step.KillPid? && !step.Exit?
    ensures Inv(Next(s, step).value) && |Next(s, step).value.procs| == |s.procs|
    ensures Next(s, step).value.procs[q].state == SLEEPING && Next(s, step).value.procs[q].chan == s.procs[q].chan
  {
    hide Inv, Next;
    SameSlots(s, step);
    StateDiagram(s, step, q);
    ChanKept(s, step, q);
    StepKeepsInv(s, step);
  }

  lemma UnlocksFromScan(s: State, t: State, c: nat, q: nat) returns (u: State)
    requires LeadsTo(s, t) && Inv(t) && c < |t.cpus| && t.cpus[c].Scan? && q < |t.procs| && t.procs[q].state == SLEEPING
    ensures LeadsTo(s, u) && Inv(u) && u.lock.None? && q < |u.procs|
    ensures u.procs[q].state == SLEEPING && u.procs[q].chan == t.procs[q].chan
  {
    hide LeadsTo, Inv;
    u := Next(t, Unlock(c)).value;
    Continues(s, t, Unlock(c));
    StaysAsleep(t, Unlock(c), q);
  }

  lemma UnlocksFromLeaving(s: State, t: State, c: nat, q: nat) returns (u: State)
    requires LeadsTo(s, t) && Inv(t) && c < |t.cpus| && t.cpus[c].Leaving?
    requires q < |t.procs| && t.procs[q].state == SLEEPING
    ensures LeadsTo(s, u) && Inv(u) && u.lock.None? && q < |u.procs|
    ensures u.procs[q].state == SLEEPING && u.procs[q].chan == t.procs[q].chan
  {
    assert GoodCpu(t, c, t.cpus[c]);
    hide LeadsTo, Inv;
    Continues(s, t, Switch(c));
    StaysAsleep(t, Switch(c), q);
    u := UnlocksFromScan(s, Next(t, Switch(c)).value, c, q);
  }

  /** ptable.lock can always be given up, and no sleeper is disturbed. */
  lemma CanUnlock(s: State, q: nat) returns (u: State)
    requires Inv(s) && Resting(s) && q < |s.procs| && s.procs[q].state == SLEEPING
    ensures LeadsTo(s, u) && Inv(u) && u.lock.None? && q < |u.procs|
    ensures u.procs[q].state == SLEEPING && u.procs[q].chan == s.procs[q].chan
  {
    Stays(s);
    u := s;
    if s.lock.Some? {
      var c := s.lock.value;
      assert GoodCpu(s, c, s.cpus[c]);
      hide LeadsTo, Inv, Next, Resting;
      if s.cpus[c].Scan? {
        u := UnlocksFromScan(s, s, c, q);
      } else if s.cpus[c].Leaving? {
        u := UnlocksFromLeaving(s, s, c, q);
      } else {
        var step := Goes(s, c);
        Continues(s, s, step);
        StaysAsleep(s, step, q);
        u := Next(s, step).value;
        if u.cpus[c].Leaving? {
          u := UnlocksFromLeaving(s, u, c, q);
        }
      }
    }
  }

  lemma FreeLock(s: State, q: nat) returns (u: State)
    requires Reachable(s) && q < |s.procs| && s.procs[q].state == SLEEPING
    ensures LeadsTo(s, u) && u.lock.None? && q < |u.procs|
    ensures u.procs[q].state == SLEEPING && u.procs[q].chan == s.procs[q].chan
  {
    hide LeadsTo, Inv, Next, Resting;
    var b, steps :| Boot(b) && Exec(b, steps) == Some(s);
    RunKeepsInv(b, steps);
    RunRests(b, steps);
    u := CanUnlock(s, q);
  }

  lemma WakesAll(t: State, q: nat)
    requires t.lock.None? && q < |t.procs| && t.procs[q].state == SLEEPING && t.procs[q].chan.Event?
    ensures var u := Next(t, WakeEvent(t.procs[q].chan.e));
            u.Some? && |u.value.procs| == |t.procs| && u.value.procs[q].state == RUNNABLE
  {}

  /** A process is the first, and only, slot with its pid. */
  lemma PidIsFirst(t: State, q: nat)
    requires Reachable(t) && q < |t.procs| && t.procs[q].state != UNUSED
    ensures FirstPid(t.procs, t.procs[q].pid, q)
  {
    hide Next;
    var s, steps :| Boot(s) && Exec(s, steps) == Some(t);
    RunKeepsPids(s, steps);
  }

  lemma {:induction false} ExecSizes(s: State, steps: seq<Step>)
    requires Exec(s, steps).Some?
    ensures |Exec(s, steps).value.cpus| == |s.cpus| && |Exec(s, steps).value.procs| == |s.procs|
    decreases |steps|
  {
    hide Next;
    if steps != [] {
      var n := |steps| - 1;
      ExecSizes(s, steps[..n]);
      SameCpus(Exec(s, steps[..n]).value, steps[n]);
      SameSlots(Exec(s, steps[..n]).value, steps[n]);
    }
  }

  lemma SizesKept(s: State, t: State)
    requires LeadsTo(s, t)
    ensures |t.cpus| == |s.cpus| && |t.procs| == |s.procs|
  {
    hide Exec;
    var steps :| Exec(s, steps) == Some(t);
    ExecSizes(s, steps);
  }

  /** A wakeup of its channel, or a kill if it waits for a child, makes a sleeper runnable. */
  lemma CanWake(s: State, q: nat) returns (u: State)
    requires Reachable(s) && q < |s.procs| && s.procs[q].state == SLEEPING
    ensures LeadsTo(s, u) && |u.cpus| == |s.cpus| && q < |u.procs| && u.procs[q].state == RUNNABLE
    ensures s.procs[q].chan.Event? ==> exists t :: LeadsTo(s, t) && Next(t, WakeEvent(s.procs[q].chan.e)) == Some(u)
  {
    hide LeadsTo, Inv, Next, Resting, Reachable, PidsDiffer, FirstPid;
    var t := FreeLock(s, q);
    StaysReachable(s, t);
    if s.procs[q].chan.Event? {
      var step := WakeEvent(s.procs[q].chan.e);
      WakesAll(t, q);
      Continues(s, t, step);
      u := Next(t, step).value;
    } else {
      PidIsFirst(t, q);
      KillWakes(t, q);
      Continues(s, t, KillPid(q));
      u := Next(t, KillPid(q)).value;
      ReachableIsGood(t);
      StateDiagram(t, KillPid(q), q);
    }
    SizesKept(s, u);
  }

  /** From every reachable state every live process can come to run. */
  lemma EveryoneCanRun(s: State, q: nat) returns (u: State)
    requires Reachable(s) && |s.cpus| > 0 && q < |s.procs| && Live(s.procs[q])
    ensures LeadsTo(s, u) && q < |u.procs| && u.procs[q].state == RUNNING
  {
    hide LeadsTo, Reachable;
    Stays(s);
    u := s;
    if s.procs[q].state == SLEEPING {
      u := CanWake(s, q);
      StaysReachable(s, u);
    }
    if u.procs[q].state == RUNNABLE {
      var v := CanRun(u, q);
      LeadsOn(s, u, v);
      u := v;
    }
  }

  // ---------------------------------------------------------------------------
  // fork

  lemma ForkBegins(s: State, c: nat, np: nat) returns (t: State)
    requires Outside(s, c) && s.procs[s.cpus[c].p].making.None? && s.cpus[c].p != np
    requires np < |s.procs| && s.procs[np].state == UNUSED
    ensures Next(s, ForkStart(c, np)) == Some(t) && t == s.(procs := t.procs, nextpid := s.nextpid + 1)
    ensures |t.procs| == |s.procs| && t.procs[np] == s.procs[np].(state := EMBRYO, pid := s.nextpid)
    ensures t.procs[s.cpus[c].p] == s.procs[s.cpus[c].p].(making := Some(np))
    ensures forall r :: 0 <= r < |s.procs| && r != np && r != s.cpus[c].p ==> t.procs[r] == s.procs[r]
  {
    t := Next(s, ForkStart(c, np)).value;
  }

  lemma ForkFills(s: State, c: nat, np: nat) returns (t: State)
    requires Forking(s, c, np) && !s.procs[np].kstack && !s.procs[np].pgdir && s.cpus[c].p != np
    ensures LeadsTo(s, t) && t == s.(procs := t.procs) && |t.procs| == |s.procs|
    ensures t.procs[np] == s.procs[np].(kstack := true, pgdir := true)
    ensures forall r :: 0 <= r < |s.procs| && r != np ==> t.procs[r] == s.procs[r]
  {
    hide LeadsTo;
    Stays(s);
    var u := Set(s, np, s.procs[np].(kstack := true));
    assert Next(s, ForkStack(c)) == Some(u);
    Continues(s, s, ForkStack(c));
    t := Set(u, np, u.procs[np].(pgdir := true));
    assert Next(u, ForkCopy(c)) == Some(t);
    Continues(s, u, ForkCopy(c));
  }

  lemma ForkFinishes(s: State, c: nat, np: nat) returns (t: State)
    requires Forking(s, c, np) && s.procs[np].pgdir && s.lock.None? && s.cpus[c].p != np
    ensures Next(s, ForkDone(c)) == Some(t) && t == s.(procs := t.procs) && |t.procs| == |s.procs|
    ensures t.procs[np] ==
            s.procs[np].(state := RUNNABLE, parent := Some(s.cpus[c].p), chan := Nothing, place := Plain)
    ensures t.procs[s.cpus[c].p] == s.procs[s.cpus[c].p].(making := None)
    ensures forall r :: 0 <= r < |s.procs| && r != np && r != s.cpus[c].p ==> t.procs[r] == s.procs[r]
  {
    t := Next(s, ForkDone(c)).value;
  }

  /** fork can always be completed: the child is runnable, with the next pid and the process
      for a parent, and nothing else has changed. */
  lemma ForkMakesChild(s: State, c: nat, np: nat) returns (u: State)
    requires Inv(s) && Outside(s, c) && s.procs[s.cpus[c].p].making.None?
    requires np < |s.procs| && s.procs[np].state == UNUSED
    ensures LeadsTo(s, u) && u == s.(procs := u.procs, nextpid := s.nextpid + 1) && |u.procs| == |s.procs|
    ensures var y := u.procs[np];
            && y.state == RUNNABLE && y.pid == s.nextpid && y.parent == Some(s.cpus[c].p) && y.kstack && y.pgdir
            && y.place.Plain? && y.making == s.procs[np].making && y.killed == s.procs[np].killed
    ensures forall r :: 0 <= r < |s.procs| && r != np ==> u.procs[r] == s.procs[r]
  {
    UnusedIs(s, c, np);
    hide LeadsTo, Inv, Next;
    Stays(s);
    var t1 := ForkBegins(s, c, np);
    Continues(s, s, ForkStart(c, np));
    var t2 := ForkFills(t1, c, np);
    LeadsOn(s, t1, t2);
    u := ForkFinishes(t2, c, np);
    Continues(s, t2, ForkDone(c));
  }

  lemma UnusedIs(s: State, c: nat, np: nat)
    requires Inv(s) && Outside(s, c) && np < |s.procs| && s.procs[np].state == UNUSED
    ensures np != s.cpus[c].p && !s.procs[np].kstack && !s.procs[np].pgdir
  {
    assert GoodCpu(s, c, s.cpus[c]) && GoodProc(s, np, s.procs[np]);
  }

  // ---------------------------------------------------------------------------
  // exit

  /** exit can always be taken, by any process but init: it is a zombie then, still with its
      pid and its parent, who is not asleep in wait; its children are init's. */
  lemma ExitEnds(s: State, c: nat)
    requires Inv(s) && Outside(s, c) && s.cpus[c].p != s.init && s.procs[s.cpus[c].p].making.None?
    ensures Next(s, Exit(c)).Some?
    ensures var p, t := s.cpus[c].p, Next(s, Exit(c)).value;
            && |t.procs| == |s.procs| && t.procs[p].state == ZOMBIE && t.procs[p].pid == s.procs[p].pid
            && t.procs[p].parent == s.procs[p].parent && t.cpus == s.cpus[c := Leaving(p)]
            && (t.procs[p].parent.Some? ==>
                 t.procs[p].parent.value < |t.procs| && !InWaitAsleep(t.procs[t.procs[p].parent.value]))
            && forall q :: 0 <= q < |s.procs| ==>
                 t.procs[q].parent == if s.procs[q].parent == Some(p) then Some(s.init) else s.procs[q].parent
  {
    var p, t := s.cpus[c].p, Next(s, Exit(c)).value;
    ExitKeepsInv(s, c);
    assert GoodProc(s, p, s.procs[p]);
    hide ExitState, Inv;
    forall q | 0 <= q < |s.procs|
      ensures |t.procs| == |s.procs|
      ensures t.procs[q].parent == if s.procs[q].parent == Some(p) then Some(s.init) else s.procs[q].parent
    {
      ExitIs(s, c, q);
    }
    ExitIs(s, c, p);
    if t.procs[p].parent.Some? {
      WokenParent(t, p);
    }
  }

  lemma WokenParent(t: State, p: nat)
    requires Inv(t) && p < |t.procs| && t.procs[p].state == ZOMBIE && t.procs[p].parent.Some?
    ensures t.procs[p].parent.value < |t.procs|
    ensures !InWaitAsleep(t.procs[t.procs[p].parent.value])
  {
    var r := t.procs[p].parent.value;
    assert GoodProc(t, p, t.procs[p]);
    assert ChildOf(t.procs, r, p) && NotStranded(t, r, t.procs[r]);
  }
}
