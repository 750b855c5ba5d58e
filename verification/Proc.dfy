/** The process table: exit, wait and the scheduler, in every interleaving of CPUs.
    A step is one critical section under ptable.lock, or a part of one where a CPU
    changes stacks while the lock stays held. */
module Proc {
  import opened Options

  datatype ProcState = UNUSED | EMBRYO | SLEEPING | RUNNABLE | RUNNING | ZOMBIE

  /** What a process sleeps on: a process slot, as wait does, or anything else. */
  datatype Chan = Nothing | Slot(p: nat) | Event(e: nat)

  /** Where a process that is switched away from will go on. */
  datatype Place = Plain | InWait | InWaitFor(pid: int)

  /** A slot of ptable.  kstack and pgdir say whether these are allocated, making is
      the slot that a fork in progress is filling, and cpu is where the process runs
      (an auxiliary value: the code keeps only the converse, c->proc). */
  datatype Proc = Proc(state: ProcState, pid: int, parent: Option<nat>, chan: Chan, killed: bool,
                       kstack: bool, pgdir: bool, place: Place, making: Option<nat>, cpu: Option<nat>)

  /** A CPU: in scheduler() without or with ptable.lock, in a process without the lock,
      just switched to a process with it, or about to switch away from one. */
  datatype Cpu = Loop | Scan | In(p: nat) | Resumed(p: nat) | Leaving(p: nat)

  datatype State = State(procs: seq<Proc>, cpus: seq<Cpu>, lock: Option<nat>, nextpid: int, init: nat)

  function Current(c: Cpu): Option<nat> {
    match c
    case In(p) => Some(p)
    case Resumed(p) => Some(p)
    case Leaving(p) => Some(p)
    case _ => None
  }

  predicate HasLock(c: Cpu) {
    c.Scan? || c.Resumed? || c.Leaving?
  }

  predicate Live(x: Proc) {
    x.state in {SLEEPING, RUNNABLE, RUNNING}
  }

  /** Asleep in wait or waitForProcess. */
  predicate Waits(x: Proc) {
    x.state == SLEEPING && !x.place.Plain?
  }

  // ---------------------------------------------------------------------------
  // What the critical sections do to the table

  /** wakeup1. */
  function Wakeup(procs: seq<Proc>, ch: Chan): (r: seq<Proc>)
    ensures |r| == |procs|
    ensures forall i :: 0 <= i < |r| ==>
              r[i] == if procs[i].state == SLEEPING && procs[i].chan == ch then procs[i].(state := RUNNABLE)
                  else procs[i]
  {
    seq(|procs|, i requires 0 <= i < |procs| =>
      if procs[i].state == SLEEPING && procs[i].chan == ch then procs[i].(state := RUNNABLE) else procs[i])
  }

  /** exit's loop: abandoned children go to init. */
  function Reparent(procs: seq<Proc>, me: nat, init: nat): (r: seq<Proc>)
    ensures |r| == |procs|
    ensures forall i :: 0 <= i < |r| ==>
              r[i] == if procs[i].parent == Some(me) then procs[i].(parent := Some(init)) else procs[i]
  {
    seq(|procs|, i requires 0 <= i < |procs| =>
      if procs[i].parent == Some(me) then procs[i].(parent := Some(init)) else procs[i])
  }

  /** What wait and waitForProcess do to the zombie they find. */
  function Reaped(x: Proc): Proc {
    x.(kstack := false, pgdir := false, pid := 0, parent := None, killed := false, state := UNUSED)
  }

  predicate ChildOf(procs: seq<Proc>, me: nat, q: nat) {
    q < |procs| && procs[q].parent == Some(me)
  }

  ghost predicate HasChild(procs: seq<Proc>, me: nat) {
    exists q: nat :: ChildOf(procs, me, q)
  }

  /** q is the zombie that the scan of wait comes to first. */
  predicate FirstZombie(procs: seq<Proc>, me: nat, q: nat) {
    && ChildOf(procs, me, q) && procs[q].state == ZOMBIE
    && forall r | 0 <= r < q :: ChildOf(procs, me, r) ==> procs[r].state != ZOMBIE
  }

  predicate NoZombie(procs: seq<Proc>, me: nat) {
    forall q | 0 <= q < |procs| :: ChildOf(procs, me, q) ==> procs[q].state != ZOMBIE
  }

  predicate NoChild(procs: seq<Proc>, me: nat) {
    forall q | 0 <= q < |procs| :: !ChildOf(procs, me, q)
  }

  /** The same for waitForProcess, which looks for a pid. */
  predicate FirstDead(procs: seq<Proc>, pid: int, q: nat) {
    && q < |procs| && procs[q].pid == pid && procs[q].state == ZOMBIE
    && forall r | 0 <= r < q :: procs[r].pid == pid ==> procs[r].state != ZOMBIE
  }

  predicate NoneDead(procs: seq<Proc>, pid: int) {
    forall q | 0 <= q < |procs| :: procs[q].pid == pid ==> procs[q].state != ZOMBIE
  }

  /** q is the slot that the scan of kill comes to. */
  predicate FirstPid(procs: seq<Proc>, pid: int, q: nat) {
    q < |procs| && procs[q].pid == pid && forall r | 0 <= r < q :: procs[r].pid != pid
  }

  predicate NoSuch(procs: seq<Proc>, pid: int) {
    forall q | 0 <= q < |procs| :: procs[q].pid != pid
  }

  // ---------------------------------------------------------------------------
  // Steps

  datatype Step =
    | Lock(c: nat)                          // scheduler: acquire(&ptable.lock)
    | Unlock(c: nat)                        // scheduler: release(&ptable.lock)
    | Dispatch(c: nat, p: nat)              // scheduler: run p
    | Return(c: nat)                        // the process switched to releases the lock
    | Switch(c: nat)                        // sched: swtch to the scheduler, c->proc = 0
    | Yield(c: nat)
    | SleepOn(c: nat, e: nat)               // sleep on an event
    | WakeEvent(e: nat)                     // wakeup of an event
    | ForkStart(c: nat, np: nat)            // allocproc finds np
    | ForkStack(c: nat)                     // allocproc: the kernel stack of the child
    | ForkCopy(c: nat)                      // copyuvm: the page table of the child
    | ForkFail(c: nat)                      // no stack, or no memory for the copy
    | ForkDone(c: nat)                      // the child becomes RUNNABLE
    | KillPid(q: nat)                       // kill finds q first
    | Exit(c: nat)
    | WaitSleep(c: nat)                     // wait finds children but no zombie
    | WaitReap(c: nat, q: nat)              // wait finds zombie child q first
    | WaitFail(c: nat)                      // wait: no children, or killed
    | WaitForSleep(c: nat, pid: int)        // waitForProcess finds the pid, but no zombie
    | WaitForReap(c: nat, pid: int, q: nat) // waitForProcess finds zombie q first
    | WaitForFail(c: nat, pid: int)         // waitForProcess: no such pid, or killed

  function Set(s: State, p: nat, x: Proc): State
    requires p < |s.procs|
  {
    s.(procs := s.procs[p := x])
  }

  function SetCpu(s: State, c: nat, m: Cpu): State
    requires c < |s.cpus|
  {
    s.(cpus := s.cpus[c := m], lock := if HasLock(m) then Some(c) else None)
  }

  /** CPU c runs a process that may take ptable.lock now: it is outside of the lock
      while the lock is free, or was switched to inside wait or waitForProcess. */
  predicate MayEnter(s: State, c: nat, place: Place)
  {
    && c < |s.cpus| && Current(s.cpus[c]).Some? && Current(s.cpus[c]).value < |s.procs|
    && s.procs[Current(s.cpus[c]).value].making.None?
    && ((s.cpus[c].In? && s.lock.None?) || (s.cpus[c].Resumed? && s.procs[s.cpus[c].p].place == place))
  }

  predicate Outside(s: State, c: nat) {
    c < |s.cpus| && s.cpus[c].In? && s.cpus[c].p < |s.procs| && s.lock.None?
  }

  /** CPU c runs a fork that is filling slot np, whoever has ptable.lock. */
  predicate Forking(s: State, c: nat, np: nat) {
    && c < |s.cpus| && s.cpus[c].In? && s.cpus[c].p < |s.procs| && np < |s.procs|
    && s.procs[s.cpus[c].p].making == Some(np)
  }

  /** The slot that the process on CPU c is filling, if any. */
  function Making(s: State, c: nat): Option<nat> {
    if c < |s.cpus| && s.cpus[c].In? && s.cpus[c].p < |s.procs| then s.procs[s.cpus[c].p].making else None
  }

  /** The process gives up the CPU in the state x.state, still holding the lock. */
  function Leave(s: State, c: nat, p: nat, x: Proc): State
    requires c < |s.cpus| && p < |s.procs|
  {
    SetCpu(Set(s, p, x), c, Leaving(p))
  }

  /** Some(t): the step is possible in s and leads to t. */
  function Next(s: State, step: Step): Option<State> {
    match step
    case Lock(c) => if c < |s.cpus| && s.cpus[c].Loop? && s.lock.None? then Some(SetCpu(s, c, Scan)) else None
    case Unlock(c) => if c < |s.cpus| && s.cpus[c].Scan? then Some(SetCpu(s, c, Loop)) else None
    case Dispatch(c, p) =>
      if c < |s.cpus| && s.cpus[c].Scan? && p < |s.procs| && s.procs[p].state == RUNNABLE
      then Some(SetCpu(Set(s, p, s.procs[p].(state := RUNNING, chan := Nothing, cpu := Some(c))), c, Resumed(p)))
          else None
    case Return(c) =>
      if c < |s.cpus| && s.cpus[c].Resumed? && s.cpus[c].p < |s.procs| && s.procs[s.cpus[c].p].place.Plain?
      then Some(SetCpu(s, c, In(s.cpus[c].p))) else None
    case Switch(c) =>
      if c < |s.cpus| && s.cpus[c].Leaving? && s.cpus[c].p < |s.procs|
      then Some(SetCpu(Set(s, s.cpus[c].p, s.procs[s.cpus[c].p].(cpu := None)), c, Scan)) else None
    case Yield(c) =>
      if Outside(s, c)
      then var p := s.cpus[c].p; Some(Leave(s, c, p, s.procs[p].(state := RUNNABLE, place := Plain))) else None
    case SleepOn(c, e) =>
      if Outside(s, c)
      then var p := s.cpus[c].p;
          Some(Leave(s, c, p, s.procs[p].(state := SLEEPING, chan := Event(e), place := Plain))) else None
    case WakeEvent(e) => if s.lock.None? then Some(s.(procs := Wakeup(s.procs, Event(e)))) else None
    case ForkStart(c, np) =>
      if Outside(s, c) && np < |s.procs| && s.procs[np].state == UNUSED && s.procs[s.cpus[c].p].making.None?
      then var p := s.cpus[c].p;
        Some(Set(Set(s, p, s.procs[p].(making := Some(np))), np,
            s.procs[np].(state := EMBRYO, pid := s.nextpid)).(nextpid := s.nextpid + 1))
      else None
    case ForkStack(c) =>
      (match Making(s, c)
       case Some(np) => if Forking(s, c, np) && !s.procs[np].kstack
           then Some(Set(s, np, s.procs[np].(kstack := true))) else None
       case None => None)
    case ForkCopy(c) =>
      (match Making(s, c)
       case Some(np) =>
         if Forking(s, c, np) && s.procs[np].kstack && !s.procs[np].pgdir
             then Some(Set(s, np, s.procs[np].(pgdir := true))) else None
       case None => None)
    case ForkFail(c) =>
      (match Making(s, c)
       case Some(np) => if Forking(s, c, np) && !s.procs[np].pgdir then Some(Undone(s, c, np)) else None
       case None => None)
    case ForkDone(c) =>
      (match Making(s, c)
       case Some(np) => if Forking(s, c, np) && s.procs[np].pgdir && s.lock.None? then Some(Born(s, c, np)) else None
       case None => None)
    case KillPid(q) =>
      if s.lock.None? && q < |s.procs| && FirstPid(s.procs, s.procs[q].pid, q)
      then Some(Set(s, q, s.procs[q].(killed := true, state := if s.procs[q].state == SLEEPING then RUNNABLE
          else s.procs[q].state)))
      else None
    case Exit(c) =>
      if Outside(s, c) && s.cpus[c].p != s.init && s.procs[s.cpus[c].p].making.None?
      then Some(ExitState(s, c)) else None
    case WaitSleep(c) =>
      if MayEnter(s, c, InWait)
      then var p := Current(s.cpus[c]).value;
        if !s.procs[p].killed && !NoChild(s.procs, p) && NoZombie(s.procs, p)
        then Some(Leave(s, c, p, s.procs[p].(state := SLEEPING, chan := Slot(p), place := InWait))) else None
      else None
    case WaitReap(c, q) =>
      if MayEnter(s, c, InWait)
      then var p := Current(s.cpus[c]).value;
        if FirstZombie(s.procs, p, q)
        then Some(SetCpu(Set(s, q, Reaped(s.procs[q])), c, In(p))) else None
      else None
    case WaitFail(c) =>
      if MayEnter(s, c, InWait)
      then var p := Current(s.cpus[c]).value;
        if (s.procs[p].killed || NoChild(s.procs, p)) && NoZombie(s.procs, p)
        then Some(SetCpu(s, c, In(p))) else None
      else None
    case WaitForSleep(c, pid) =>
      if MayEnter(s, c, InWaitFor(pid))
      then var p := Current(s.cpus[c]).value;
        if !s.procs[p].killed && !NoSuch(s.procs, pid) && NoneDead(s.procs, pid)
        then Some(Leave(s, c, p, s.procs[p].(state := SLEEPING, chan := Slot(p), place := InWaitFor(pid)))) else None
      else None
    case WaitForReap(c, pid, q) =>
      if MayEnter(s, c, InWaitFor(pid))
      then var p := Current(s.cpus[c]).value;
        if FirstDead(s.procs, pid, q)
        then Some(SetCpu(Set(s, q, Reaped(s.procs[q])), c, In(p))) else None
      else None
    case WaitForFail(c, pid) =>
      if MayEnter(s, c, InWaitFor(pid))
      then var p := Current(s.cpus[c]).value;
        if (s.procs[p].killed || NoSuch(s.procs, pid)) && NoneDead(s.procs, pid)
        then Some(SetCpu(s, c, In(p))) else None
      else None
  }

  /** A fork without memory gives the stack back, if it had one, and leaves the slot. */
  function Undone(s: State, c: nat, np: nat): State
    requires Forking(s, c, np)
  {
    var p := s.cpus[c].p;
    Set(Set(s, p, s.procs[p].(making := None)), np, s.procs[np].(state := UNUSED, kstack := false))
  }

  /** The child is complete. Its parent is set a little earlier in the source, when nobody
      but the parent itself could tell. */
  function Born(s: State, c: nat, np: nat): State
    requires Forking(s, c, np)
  {
    var p := s.cpus[c].p;
    Set(Set(s, p, s.procs[p].(making := None)), np,
        s.procs[np].(state := RUNNABLE, parent := Some(p), chan := Nothing, place := Plain))
  }

  /** exit, from acquiring ptable.lock to sched. */
  function ExitState(s: State, c: nat): State
    requires Outside(s, c)
  {
    var p := s.cpus[c].p;
    var all := Adopted(ParentWoken(s.procs, p), p, s.init);
    Leave(s.(procs := all), c, p, all[p].(state := ZOMBIE, place := Plain))
  }

  /** exit's wakeup1 of the parent. */
  function ParentWoken(procs: seq<Proc>, p: nat): (r: seq<Proc>)
    requires p < |procs|
    ensures |r| == |procs|
  {
    if procs[p].parent.Some? then Wakeup(procs, Slot(procs[p].parent.value)) else procs
  }

  predicate ZombieChild(procs: seq<Proc>, p: nat) {
    exists q | 0 <= q < |procs| :: ChildOf(procs, p, q) && procs[q].state == ZOMBIE
  }

  /** The children of p go to init, which is woken when one of them is a zombie. */
  function Adopted(procs: seq<Proc>, p: nat, init: nat): (r: seq<Proc>)
    ensures |r| == |procs|
  {
    if ZombieChild(procs, p) then Wakeup(Reparent(procs, p, init), Slot(init)) else Reparent(procs, p, init)
  }

  // ---------------------------------------------------------------------------
  // The loops of the critical sections

  /** wakeup1's loop over the table. */
  method WakeupLoop(table: array<Proc>, ch: Chan)
    modifies table
    ensures table[..] == Wakeup(old(table[..]), ch)
  {
    var i := 0;
    while i < table.Length
      invariant 0 <= i <= table.Length
      invariant forall j :: 0 <= j < i ==> table[j] == Wakeup(old(table[..]), ch)[j]
      invariant forall j :: i <= j < table.Length ==> table[j] == old(table[j])
    {
      if table[i].state == SLEEPING && table[i].chan == ch {
        table[i] := table[i].(state := RUNNABLE);
      }
      i := i + 1;
    }
  }

  /** The table after exit's loop has passed slot i: the children of me below i have init for
      a parent, and init is awake if one of them was a zombie. */
  ghost predicate PassedOn(was: seq<Proc>, now: seq<Proc>, me: nat, init: nat, i: nat) {
    && |now| == |was| && i <= |was|
    && forall j :: 0 <= j < |was| ==>
         now[j] == was[j].(parent := if j < i && was[j].parent == Some(me) then Some(init) else was[j].parent,
                           state := if was[j].state == SLEEPING && was[j].chan == Slot(init) && ZombieBelow(was, me, i)
                                    then RUNNABLE else was[j].state)
  }

  ghost predicate ZombieBelow(procs: seq<Proc>, me: nat, i: nat) {
    exists q :: 0 <= q < i && ChildOf(procs, me, q) && procs[q].state == ZOMBIE
  }

  lemma ZombieBelowNext(procs: seq<Proc>, me: nat, i: nat)
    requires i < |procs|
    ensures ZombieBelow(procs, me, i + 1) <==>
            ZombieBelow(procs, me, i) || (procs[i].parent == Some(me) && procs[i].state == ZOMBIE)
  {
    if procs[i].parent == Some(me) && procs[i].state == ZOMBIE {
      assert ChildOf(procs, me, i);
    }
  }

  /** exit's loop, which wakes init as it goes, hands all children over at once. */
  method PassChildren(table: array<Proc>, me: nat, init: nat)
    modifies table
    ensures table[..] == Adopted(old(table[..]), me, init)
  {
    hide Adopted;
    ghost var was := table[..];
    var i := 0;
    while i < table.Length
      invariant 0 <= i <= table.Length && PassedOn(was, table[..], me, init, i)
    {
      ZombieBelowNext(was, me, i);
      if table[i].parent == Some(me) {
        table[i] := table[i].(parent := Some(init));
        if table[i].state == ZOMBIE {
          WakeupLoop(table, Slot(init));
        }
      }
      i := i + 1;
    }
    PassedOnAll(was, table[..], me, init);
  }

  lemma PassedOnAll(was: seq<Proc>, now: seq<Proc>, me: nat, init: nat)
    requires PassedOn(was, now, me, init, |was|)
    ensures now == Adopted(was, me, init)
  {
    assert ZombieBelow(was, me, |was|) <==> ZombieChild(was, me);
  }

  /** exit, on the table: the parent is woken, the children go to init, and the process is a
      zombie, as in the step. */
  method ExitLoop(table: array<Proc>, me: nat, init: nat)
    requires me < table.Length
    modifies table
    ensures forall s: State, c: nat :: Outside(s, c) && s.procs == old(table[..]) && s.cpus[c].p == me &&
                                       s.init == init ==>
              table[..] == ExitState(s, c).procs
    ensures var all := Adopted(ParentWoken(old(table[..]), me), me, init);
            table[..] == all[me := all[me].(state := ZOMBIE, place := Plain)]
  {
    hide Adopted, Wakeup;
    if table[me].parent.Some? {
      WakeupLoop(table, Slot(table[me].parent.value));
    }
    PassChildren(table, me, init);
    table[me] := table[me].(state := ZOMBIE, place := Plain);
  }

  /** The scan of wait: the first zombie child, and whether there is a child at all. */
  method ScanChildren(procs: seq<Proc>, me: nat) returns (zombie: Option<nat>, havekids: bool)
    ensures zombie.Some? ==> FirstZombie(procs, me, zombie.value)
    ensures zombie.None? ==> NoZombie(procs, me) && (havekids <==> !NoChild(procs, me))
  {
    havekids := false;
    var p := 0;
    while p < |procs|
      invariant 0 <= p <= |procs|
      invariant forall q :: 0 <= q < p && ChildOf(procs, me, q) ==> procs[q].state != ZOMBIE
      invariant havekids <==> exists q: nat :: q < p && ChildOf(procs, me, q)
    {
      if procs[p].parent == Some(me) {
        assert ChildOf(procs, me, p);
        havekids := true;
        if procs[p].state == ZOMBIE {
          return Some(p), true;
        }
      }
      p := p + 1;
    }
    return None, havekids;
  }

  /** The scan of waitForProcess. */
  method ScanPid(procs: seq<Proc>, pid: int) returns (zombie: Option<nat>, procexists: bool)
    ensures zombie.Some? ==> FirstDead(procs, pid, zombie.value)
    ensures zombie.None? ==> NoneDead(procs, pid) && (procexists <==> !NoSuch(procs, pid))
  {
    procexists := false;
    var p := 0;
    while p < |procs|
      invariant 0 <= p <= |procs|
      invariant forall q :: 0 <= q < p && procs[q].pid == pid ==> procs[q].state != ZOMBIE
      invariant procexists <==> exists q :: 0 <= q < p && procs[q].pid == pid
    {
      if procs[p].pid == pid {
        procexists := true;
        if procs[p].state == ZOMBIE {
          return Some(p), true;
        }
      }
      p := p + 1;
    }
    return None, procexists;
  }

  /** One turn of wait's outer loop takes the one step of wait that is possible. */
  method WaitTurn(s: State, c: nat) returns (step: Step)
    requires MayEnter(s, c, InWait)
    ensures step.WaitReap? || step == WaitFail(c) || step == WaitSleep(c)
    ensures forall q :: Next(s, WaitReap(c, q)).Some? <==> step == WaitReap(c, q)
    ensures Next(s, WaitFail(c)).Some? <==> step == WaitFail(c)
    ensures Next(s, WaitSleep(c)).Some? <==> step == WaitSleep(c)
  {
    var p := Current(s.cpus[c]).value;
    var zombie, havekids := ScanChildren(s.procs, p);
    if zombie.Some? {
      return WaitReap(c, zombie.value);
    }
    return if !havekids || s.procs[p].killed then WaitFail(c) else WaitSleep(c);
  }

  /** And one of waitForProcess. */
  method WaitForTurn(s: State, c: nat, pid: int) returns (step: Step)
    requires MayEnter(s, c, InWaitFor(pid))
    ensures step.WaitForReap? || step == WaitForFail(c, pid) || step == WaitForSleep(c, pid)
    ensures forall q :: Next(s, WaitForReap(c, pid, q)).Some? <==> step == WaitForReap(c, pid, q)
    ensures Next(s, WaitForFail(c, pid)).Some? <==> step == WaitForFail(c, pid)
    ensures Next(s, WaitForSleep(c, pid)).Some? <==> step == WaitForSleep(c, pid)
  {
    var p := Current(s.cpus[c]).value;
    var zombie, procexists := ScanPid(s.procs, pid);
    if zombie.Some? {
      return WaitForReap(c, pid, zombie.value);
    }
    return if !procexists || s.procs[p].killed then WaitForFail(c, pid) else WaitForSleep(c, pid);
  }

  // ---------------------------------------------------------------------------
  // The invariant

  ghost predicate GoodProc(s: State, p: nat, x: Proc)
  {
    && (x.state == RUNNING ==> x.cpu.Some?)
    && (x.cpu.Some? ==> x.cpu.value < |s.cpus| && Current(s.cpus[x.cpu.value]) == Some(p))
    && (x.state == UNUSED || x.state == EMBRYO ==> x.parent.None? && x.cpu.None?)
    && (x.state == UNUSED ==> !x.kstack && !x.pgdir)
    && (x.pgdir ==> x.kstack)
    && (Live(x) || x.state == ZOMBIE ==> x.kstack && x.pgdir)
    && (x.making.Some? ==> Live(x) && x.making.value < |s.procs| && s.procs[x.making.value].state == EMBRYO)
    && (x.parent.Some? ==> x.parent.value < |s.procs| && x.parent.value != p && Live(s.procs[x.parent.value]))
    && (Waits(x) ==> x.chan == Slot(p) && !x.killed)
  }

  /** A process asleep in wait has a child and no zombie child; one asleep in
      waitForProcess on a child of its own has a target that is no zombie. */
  ghost predicate NotStranded(s: State, p: nat, x: Proc)
  {
    && (x.state == SLEEPING && x.place.InWait? ==> HasChild(s.procs, p))
    && (x.state == SLEEPING && x.place.InWait? ==>
         forall q: nat :: ChildOf(s.procs, p, q) ==> s.procs[q].state != ZOMBIE)
    && (x.state == SLEEPING && x.place.InWaitFor? ==>
          forall q: nat :: ChildOf(s.procs, p, q) && s.procs[q].pid == x.place.pid ==> s.procs[q].state != ZOMBIE)
  }

  ghost predicate GoodCpu(s: State, c: nat, m: Cpu)
  {
    && (HasLock(m) <==> s.lock == Some(c))
    && (Current(m).Some? ==> Current(m).value < |s.procs| && s.procs[Current(m).value].cpu == Some(c))
    && (m.In? || m.Resumed? ==> s.procs[Current(m).value].state == RUNNING)
    && (m.Leaving? ==> s.procs[m.p].state in {SLEEPING, RUNNABLE, ZOMBIE})
  }

  ghost predicate GoodProcs(s: State) {
    forall p :: 0 <= p < |s.procs| ==> GoodProc(s, p, s.procs[p])
  }

  ghost predicate NoneStranded(s: State) {
    forall p :: 0 <= p < |s.procs| ==> NotStranded(s, p, s.procs[p])
  }

  ghost predicate GoodCpus(s: State) {
    forall c :: 0 <= c < |s.cpus| ==> GoodCpu(s, c, s.cpus[c])
  }

  /** No two forks fill the same slot. */
  ghost predicate MakersDiffer(procs: seq<Proc>) {
    forall p, q :: 0 <= p < q < |procs| && procs[p].making.Some? ==> procs[p].making != procs[q].making
  }

  ghost predicate Inv(s: State)
  {
    && s.init < |s.procs| && Live(s.procs[s.init]) && s.procs[s.init].parent.None?
    && (s.lock.Some? ==> s.lock.value < |s.cpus|)
    && GoodProcs(s) && NoneStranded(s) && GoodCpus(s) && MakersDiffer(s.procs)
  }

  /** What happens to process q between s and t strands neither q nor a parent: a
      waiter gets no new zombie child, and in wait it loses no child. */
  ghost predicate Calm(s: State, t: State, q: nat)
    requires q < |s.procs| == |t.procs|
  {
    var x, y := s.procs[q], t.procs[q];
    && NotStranded(s, q, y)
    && (y.state == ZOMBIE && y.parent.Some? && y.parent.value < |t.procs| && Waits(t.procs[y.parent.value]) ==>
          x.state == ZOMBIE && x.parent == y.parent && x.pid == y.pid)
    && (x.parent.Some? && x.parent.value < |t.procs| && Waits(t.procs[x.parent.value]) &&
        t.procs[x.parent.value].place.InWait? ==>
          y.parent == x.parent)
  }

  lemma CalmStrandsNobody(s: State, t: State)
    requires |t.procs| == |s.procs| && forall q :: 0 <= q < |s.procs| ==> Calm(s, t, q)
    ensures NoneStranded(t)
  {
    forall p | 0 <= p < |t.procs| ensures NotStranded(t, p, t.procs[p]) {
      assert Calm(s, t, p);
      if Waits(t.procs[p]) {
        if t.procs[p].place.InWait? {
          var r: nat :| ChildOf(s.procs, p, r);
          assert Calm(s, t, r);
          assert ChildOf(t.procs, p, r);
        }
        forall r: nat | ChildOf(t.procs, p, r) && t.procs[r].state == ZOMBIE
          ensures ChildOf(s.procs, p, r) && s.procs[r].state == ZOMBIE && s.procs[r].pid == t.procs[r].pid
        {
          assert Calm(s, t, r);
        }
      }
    }
  }

  // ---------------------------------------------------------------------------
  // Steps that change no more than one process and one CPU

  /** Only the CPU's mode changes. */
  lemma CpuKeepsInv(s: State, c: nat, m: Cpu)
    requires Inv(s) && c < |s.cpus| && (s.lock.None? || s.lock == Some(c))
    requires Current(m) == Current(s.cpus[c]) && (s.cpus[c].Leaving? <==> m.Leaving?)
    ensures Inv(SetCpu(s, c, m))
  {
    var t := SetCpu(s, c, m);
    forall p | 0 <= p < |s.procs| ensures GoodProc(t, p, t.procs[p]) && Calm(s, t, p) {
      assert GoodProc(s, p, s.procs[p]) && NotStranded(s, p, s.procs[p]);
    }
    CalmStrandsNobody(s, t);
    forall d | 0 <= d < |s.cpus| ensures GoodCpu(t, d, t.cpus[d]) {
      assert GoodCpu(s, d, s.cpus[d]);
    }
  }

  /** A live process and the CPU it runs on, has run on or is going to run on. */
  ghost predicate Related(s: State, p: nat, c: nat) {
    && p < |s.procs| && c < |s.cpus| && (s.lock.None? || s.lock == Some(c))
    && (Current(s.cpus[c]) == Some(p) || (Current(s.cpus[c]).None? && s.procs[p].cpu.None?))
  }

  /** The process gets state x and the CPU mode m, and they agree on who runs. */
  ghost predicate Agrees(p: nat, x: Proc, c: nat, m: Cpu) {
    && (Current(m) == Some(p) || Current(m).None?)
    && x.cpu == (if Current(m) == Some(p) then Some(c) else None)
    && (m.In? || m.Resumed? <==> x.state == RUNNING)
  }

  /** Family relations and resources stay as they are. */
  predicate SameFamily(x: Proc, y: Proc) {
    x.parent == y.parent && x.pid == y.pid && x.making == y.making && x.kstack == y.kstack && x.pgdir == y.pgdir
  }

  lemma MakersKept(a: seq<Proc>, b: seq<Proc>)
    requires MakersDiffer(a) && |a| == |b| && forall p :: 0 <= p < |a| ==> b[p].making == a[p].making
    ensures MakersDiffer(b)
  {}

  lemma UpdateKeepsProc(s: State, p: nat, x: Proc, c: nat, m: Cpu, q: nat)
    requires Inv(s) && Related(s, p, c) && Agrees(p, x, c, m) && q < |s.procs|
    requires Live(s.procs[p]) && Live(x) && SameFamily(x, s.procs[p])
    requires Waits(x) ==> x.chan == Slot(p) && !x.killed
    ensures GoodProc(SetCpu(Set(s, p, x), c, m), q, SetCpu(Set(s, p, x), c, m).procs[q])
  {
    hide NoneStranded, MakersDiffer;
    assert GoodProc(s, q, s.procs[q]);
    if q != p {
      assert GoodProc(s, p, s.procs[p]) && GoodCpu(s, c, s.cpus[c]);
    }
  }

  lemma UpdateKeepsProcs(s: State, p: nat, x: Proc, c: nat, m: Cpu)
    requires Inv(s) && Related(s, p, c) && Agrees(p, x, c, m)
    requires Live(s.procs[p]) && Live(x) && SameFamily(x, s.procs[p])
    requires Waits(x) ==> x.chan == Slot(p) && !x.killed
    ensures GoodProcs(SetCpu(Set(s, p, x), c, m))
  {
    hide NoneStranded, MakersDiffer, GoodProc, GoodCpu, Agrees, SameFamily;
    var t := SetCpu(Set(s, p, x), c, m);
    forall q | 0 <= q < |s.procs| ensures GoodProc(t, q, t.procs[q]) {
      UpdateKeepsProc(s, p, x, c, m, q);
    }
  }

  lemma UpdateKeepsCpus(s: State, p: nat, x: Proc, c: nat, m: Cpu)
    requires Inv(s) && Related(s, p, c) && Agrees(p, x, c, m) && Live(x)
    ensures GoodCpus(SetCpu(Set(s, p, x), c, m))
  {
    hide NoneStranded, MakersDiffer;
    var t := SetCpu(Set(s, p, x), c, m);
    assert GoodProc(s, p, s.procs[p]) && GoodCpu(s, c, s.cpus[c]);
    forall d | 0 <= d < |s.cpus| ensures GoodCpu(t, d, t.cpus[d]) {
      assert GoodCpu(s, d, s.cpus[d]);
    }
  }

  lemma UpdateKeepsInv(s: State, p: nat, x: Proc, c: nat, m: Cpu)
    requires Inv(s) && Related(s, p, c) && Agrees(p, x, c, m)
    requires Live(s.procs[p]) && Live(x) && SameFamily(x, s.procs[p])
    requires Waits(x) ==> x.chan == Slot(p) && !x.killed
    requires NotStranded(s, p, x)
    ensures Inv(SetCpu(Set(s, p, x), c, m))
  {
    hide GoodProcs, GoodCpus, MakersDiffer, NotStranded;
    var t := SetCpu(Set(s, p, x), c, m);
    UpdateKeepsProcs(s, p, x, c, m);
    UpdateKeepsCpus(s, p, x, c, m);
    forall q | 0 <= q < |s.procs| ensures Calm(s, t, q) {
      assert NotStranded(s, q, s.procs[q]);
    }
    CalmStrandsNobody(s, t);
    MakersKept(s.procs, t.procs);
  }

  /** The stack that a process was leaving is left for good. */
  lemma SwitchKeepsInv(s: State, c: nat)
    requires Inv(s) && Next(s, Switch(c)).Some?
    ensures Inv(Next(s, Switch(c)).value)
  {
    var t, p := Next(s, Switch(c)).value, s.cpus[c].p;
    SwitchKeepsProcs(s, c, p);
    hide GoodProcs, GoodCpus, MakersDiffer;
    forall q | 0 <= q < |s.procs| ensures Calm(s, t, q) {
      assert NotStranded(s, q, s.procs[q]);
    }
    CalmStrandsNobody(s, t);
    MakersKept(s.procs, t.procs);
  }

  lemma SwitchKeepsProcs(s: State, c: nat, p: nat)
    requires Inv(s) && c < |s.cpus| && s.cpus[c] == Leaving(p)
    ensures p < |s.procs| && s.procs[p].state != RUNNING
    ensures GoodProcs(SetCpu(Set(s, p, s.procs[p].(cpu := None)), c, Scan)) &&
            GoodCpus(SetCpu(Set(s, p, s.procs[p].(cpu := None)), c, Scan))
  {
    hide NoneStranded, MakersDiffer;
    assert GoodCpu(s, c, s.cpus[c]);
    var t := SetCpu(Set(s, p, s.procs[p].(cpu := None)), c, Scan);
    assert GoodProc(s, p, s.procs[p]);
    forall q | 0 <= q < |s.procs| ensures GoodProc(t, q, t.procs[q]) {
      assert GoodProc(s, q, s.procs[q]);
    }
    forall d | 0 <= d < |s.cpus| ensures GoodCpu(t, d, t.cpus[d]) {
      assert GoodCpu(s, d, s.cpus[d]);
    }
  }

  // ---------------------------------------------------------------------------
  // Steps that change the table

  /** A sleeper is woken, or only the killed flag changes, of a process not in wait. */
  predicate Mild(x: Proc, y: Proc) {
    && SameFamily(x, y) && y.cpu == x.cpu
    && ((y.state == x.state && y.place == x.place && y.chan == x.chan && (y.killed == x.killed || !Waits(x)))
        || (x.state == SLEEPING && y.state == RUNNABLE))
  }

  lemma MildKeepsProcs(s: State, procs: seq<Proc>)
    requires GoodProcs(s) && |procs| == |s.procs| && forall q :: 0 <= q < |procs| ==> Mild(s.procs[q], procs[q])
    ensures GoodProcs(s.(procs := procs))
  {}

  lemma MildKeepsCpus(s: State, procs: seq<Proc>)
    requires Inv(s) && |procs| == |s.procs| && forall q :: 0 <= q < |procs| ==> Mild(s.procs[q], procs[q])
    ensures GoodCpus(s.(procs := procs))
  {}

  /** Waking processes up, by wakeup1 or by kill, strands nobody. */
  lemma MildKeepsInv(s: State, procs: seq<Proc>)
    requires Inv(s) && |procs| == |s.procs| && forall q :: 0 <= q < |procs| ==> Mild(s.procs[q], procs[q])
    ensures Inv(s.(procs := procs))
  {
    MildKeepsProcs(s, procs);
    MildKeepsCpus(s, procs);
    hide GoodProcs, GoodCpus, MakersDiffer;
    var t := s.(procs := procs);
    forall q | 0 <= q < |procs| ensures Calm(s, t, q) && procs[q].making == s.procs[q].making {
      assert NotStranded(s, q, s.procs[q]) && Mild(s.procs[q], procs[q]);
    }
    CalmStrandsNobody(s, t);
    MakersKept(s.procs, procs);
    assert Mild(s.procs[s.init], procs[s.init]);
  }

  lemma ReapKeepsProcs(s: State, q: nat)
    requires Inv(s) && q < |s.procs| && s.procs[q].state == ZOMBIE && s.procs[q].cpu.None?
    ensures GoodProcs(Set(s, q, Reaped(s.procs[q]))) && GoodCpus(Set(s, q, Reaped(s.procs[q])))
    ensures s.procs[q].making.None?
  {
    hide NoneStranded, MakersDiffer;
    var t := Set(s, q, Reaped(s.procs[q]));
    assert GoodProc(s, q, s.procs[q]);
    forall p | 0 <= p < |s.procs| ensures GoodProc(t, p, t.procs[p]) {
      assert GoodProc(s, p, s.procs[p]);
    }
    forall d | 0 <= d < |s.cpus| ensures GoodCpu(t, d, t.cpus[d]) {
      assert GoodCpu(s, d, s.cpus[d]);
    }
  }

  /** A zombie whose stack no CPU uses can be reaped: nobody asleep in wait is its
      parent, so nobody loses the child they wait for. */
  lemma ReapKeepsInv(s: State, q: nat)
    requires Inv(s) && q < |s.procs| && s.procs[q].state == ZOMBIE && s.procs[q].cpu.None?
    ensures Inv(Set(s, q, Reaped(s.procs[q])))
  {
    ReapKeepsProcs(s, q);
    hide GoodProcs, GoodCpus, MakersDiffer;
    var t := Set(s, q, Reaped(s.procs[q]));
    MakersKept(s.procs, t.procs);
    forall p | 0 <= p < |s.procs| ensures Calm(s, t, p) {
      assert NotStranded(s, p, s.procs[p]);
      if p == q && s.procs[q].parent.Some? && s.procs[q].parent.value < |s.procs| {
        assert ChildOf(s.procs, s.procs[q].parent.value, q);
        assert NotStranded(s, s.procs[q].parent.value, s.procs[s.procs[q].parent.value]);
      }
    }
    CalmStrandsNobody(s, t);
  }

  // ---------------------------------------------------------------------------
  // fork

  lemma ForkStartKeepsInv(s: State, c: nat, np: nat)
    requires Inv(s) && Next(s, ForkStart(c, np)).Some?
    ensures Inv(Next(s, ForkStart(c, np)).value)
  {
    var t, p := Next(s, ForkStart(c, np)).value, s.cpus[c].p;
    assert GoodCpu(s, c, s.cpus[c]);
    ForkStartProcs(s, t, p, np);
    TwoChangedCpus(s, t, p, np);
    ForkStartMakers(s, t, p, np);
    CalmStrandsNobody(s, t);
  }

  ghost predicate Started(s: State, t: State, p: nat, np: nat) {
    && p < |s.procs| && np < |s.procs| && p != np
    && s.procs[p].state == RUNNING && s.procs[p].making.None? && s.procs[np].state == UNUSED
    && t == s.(procs := s.procs[p := s.procs[p].(making := Some(np))][np := s.procs[np].(state := EMBRYO,
         pid := s.nextpid)],
               nextpid := s.nextpid + 1)
  }

  lemma ForkStartProcs(s: State, t: State, p: nat, np: nat)
    requires Inv(s) && Started(s, t, p, np)
    ensures GoodProcs(t) && forall q :: 0 <= q < |s.procs| ==> Calm(s, t, q)
  {
    hide MakersDiffer, GoodCpus;
    assert GoodProc(s, np, s.procs[np]);
    forall q | 0 <= q < |s.procs| ensures GoodProc(t, q, t.procs[q]) {
      assert GoodProc(s, q, s.procs[q]);
    }
    forall q | 0 <= q < |s.procs| ensures Calm(s, t, q) {
      assert NotStranded(s, q, s.procs[q]);
    }
  }

  lemma ForkStartMakers(s: State, t: State, p: nat, np: nat)
    requires Inv(s) && Started(s, t, p, np)
    ensures MakersDiffer(t.procs)
  {}

  /** The CPUs do not mind a change of p and np that is no change of who runs where. */
  lemma TwoChangedCpus(s: State, t: State, p: nat, np: nat)
    requires GoodCpus(s) && |t.procs| == |s.procs| && t.cpus == s.cpus && t.lock == s.lock && p < |s.procs| &&
             np < |s.procs|
    requires forall q :: 0 <= q < |s.procs| && q != p && q != np ==> t.procs[q] == s.procs[q]
    requires t.procs[p].state == s.procs[p].state && t.procs[p].cpu == s.procs[p].cpu
    requires s.procs[np].cpu.None? && t.procs[np].cpu.None?
    ensures GoodCpus(t)
  {}

  /** Both ends of a fork: the slot np becomes y, UNUSED again or a child of p. */
  ghost predicate ForkResult(s: State, p: nat, y: Proc) {
    && y.making.None? && y.cpu.None?
    && ((y.state == UNUSED && !y.kstack && !y.pgdir && y.parent.None?)
        || (y.state == RUNNABLE && y.kstack && y.pgdir && y.parent == Some(p)))
  }

  ghost predicate Ended(s: State, t: State, p: nat, np: nat, y: Proc) {
    && p < |s.procs| && np < |s.procs| && s.procs[p].state == RUNNING && s.procs[p].making == Some(np)
    && ForkResult(s, p, y) && t == Set(Set(s, p, s.procs[p].(making := None)), np, y)
  }

  lemma ForkEndProcs(s: State, t: State, p: nat, np: nat, y: Proc)
    requires Inv(s) && Ended(s, t, p, np, y)
    ensures GoodProcs(t) && s.procs[np].state == EMBRYO && s.procs[np].cpu.None? && s.procs[np].making.None?
  {
    hide NoneStranded, GoodCpus;
    assert GoodProc(s, p, s.procs[p]);
    assert GoodProc(s, np, s.procs[np]);
    forall q | 0 <= q < |s.procs| ensures GoodProc(t, q, t.procs[q]) {
      assert GoodProc(s, q, s.procs[q]);
    }
  }

  lemma ForkEndCalm(s: State, t: State, p: nat, np: nat, y: Proc)
    requires Inv(s) && Ended(s, t, p, np, y) && s.procs[np].state == EMBRYO
    ensures forall q :: 0 <= q < |s.procs| ==> Calm(s, t, q)
  {}

  lemma MakersFewer(a: seq<Proc>, b: seq<Proc>)
    requires MakersDiffer(a) && |a| == |b|
    requires forall p :: 0 <= p < |a| ==> b[p].making.None? || b[p].making == a[p].making
    ensures MakersDiffer(b)
  {}

  lemma ForkEndKeepsInv(s: State, c: nat, np: nat, y: Proc)
    requires Inv(s) && Forking(s, c, np)
    requires ForkResult(s, s.cpus[c].p, y)
    ensures Inv(Set(Set(s, s.cpus[c].p, s.procs[s.cpus[c].p].(making := None)), np, y))
  {
    var p := s.cpus[c].p;
    var t := Set(Set(s, p, s.procs[p].(making := None)), np, y);
    assert GoodCpu(s, c, s.cpus[c]);
    hide GoodProcs, NoneStranded, MakersDiffer, GoodCpus, Calm;
    ForkEndProcs(s, t, p, np, y);
    ForkEndCalm(s, t, p, np, y);
    CalmStrandsNobody(s, t);
    TwoChangedCpus(s, t, p, np);
    MakersFewer(s.procs, t.procs);
  }

  /** The slot that a fork fills is an EMBRYO that no CPU is on. */
  lemma EmbryoIs(s: State, c: nat, np: nat)
    requires Inv(s) && Forking(s, c, np)
    ensures var e := s.procs[np];
            e.state == EMBRYO && e.making.None? && e.cpu.None? && e.parent.None? && (e.pgdir ==> e.kstack)
    ensures forall d :: 0 <= d < |s.cpus| ==> Current(s.cpus[d]) != Some(np)
  {
    hide NoneStranded, MakersDiffer;
    assert GoodProc(s, s.cpus[c].p, s.procs[s.cpus[c].p]) && GoodProc(s, np, s.procs[np]);
    forall d | 0 <= d < |s.cpus| ensures Current(s.cpus[d]) != Some(np) {
      assert GoodCpu(s, d, s.cpus[d]);
    }
  }

  /** An EMBRYO gets its stack or its page table. */
  lemma EmbryoKeepsInv(s: State, np: nat, y: Proc)
    requires Inv(s) && np < |s.procs| && s.procs[np].state == EMBRYO && (y.pgdir ==> y.kstack)
    requires y == s.procs[np].(kstack := y.kstack, pgdir := y.pgdir)
    ensures Inv(Set(s, np, y))
  {
    EmbryoProcs(s, np, y);
    hide GoodProcs, GoodCpus, MakersDiffer;
    var t := Set(s, np, y);
    forall q | 0 <= q < |s.procs| ensures Calm(s, t, q) {
      assert NotStranded(s, q, s.procs[q]);
    }
    CalmStrandsNobody(s, t);
    MakersKept(s.procs, t.procs);
  }

  lemma EmbryoProcs(s: State, np: nat, y: Proc)
    requires Inv(s) && np < |s.procs| && s.procs[np].state == EMBRYO && (y.pgdir ==> y.kstack)
    requires y == s.procs[np].(kstack := y.kstack, pgdir := y.pgdir)
    ensures GoodProcs(Set(s, np, y)) && GoodCpus(Set(s, np, y))
  {
    hide NoneStranded, MakersDiffer;
    var t := Set(s, np, y);
    forall q | 0 <= q < |s.procs| ensures GoodProc(t, q, t.procs[q]) {
      assert GoodProc(s, q, s.procs[q]);
    }
    forall d | 0 <= d < |s.cpus| ensures GoodCpu(t, d, t.cpus[d]) {
      assert GoodCpu(s, d, s.cpus[d]);
    }
  }

  // ---------------------------------------------------------------------------
  // exit

  /** Each process may be woken, and a child of p gets init for a parent. */
  ghost predicate AdoptedProc(x: Proc, y: Proc, p: nat, init: nat) {
    && (y.parent == if x.parent == Some(p) then Some(init) else x.parent)
    && Mild(x, y.(parent := x.parent))
  }

  lemma AdoptedProcs(procs: seq<Proc>, p: nat, init: nat)
    requires p != init
    ensures |Adopted(procs, p, init)| == |procs|
    ensures forall q :: 0 <= q < |procs| ==> AdoptedProc(procs[q], Adopted(procs, p, init)[q], p, init)
    ensures ZombieChild(procs, p) && init < |procs| ==>
            !(Adopted(procs, p, init)[init].state == SLEEPING && procs[init].chan == Slot(init))
  {}

  lemma AdoptProc(s: State, t: State, p: nat, q: nat)
    requires q < |s.procs| == |t.procs| && p < |s.procs| && t.cpus == s.cpus && s.init < |s.procs| && s.init != p
    requires GoodProc(s, q, s.procs[q]) && Live(s.procs[s.init]) && s.procs[s.init].parent.None?
    requires forall r :: 0 <= r < |s.procs| ==> AdoptedProc(s.procs[r], t.procs[r], p, s.init)
    ensures GoodProc(t, q, t.procs[q])
  {}

  lemma AdoptProcs(s: State, t: State, p: nat)
    requires Inv(s) && p < |s.procs| && p != s.init && t == s.(procs := t.procs) && |t.procs| == |s.procs|
    requires forall q :: 0 <= q < |s.procs| ==> AdoptedProc(s.procs[q], t.procs[q], p, s.init)
    ensures GoodProcs(t)
  {
    hide NoneStranded, MakersDiffer, GoodCpus, GoodProc, AdoptedProc;
    forall q | 0 <= q < |s.procs| ensures GoodProc(t, q, t.procs[q]) {
      AdoptProc(s, t, p, q);
    }
  }

  lemma AdoptCalm(s: State, t: State, p: nat)
    requires Inv(s) && p < |s.procs| && p != s.init && s.procs[p].state == RUNNING &&
             t == s.(procs := Adopted(s.procs, p, s.init))
    requires |t.procs| == |s.procs| && forall q :: 0 <= q < |s.procs| ==> AdoptedProc(s.procs[q], t.procs[q], p, s.init)
    requires ZombieChild(s.procs, p) ==> !Waits(t.procs[s.init])
    ensures forall q :: 0 <= q < |s.procs| ==> Calm(s, t, q)
  {
    hide MakersDiffer, GoodCpus, Adopted;
    assert AdoptedProc(s.procs[p], t.procs[p], p, s.init);
    forall q | 0 <= q < |s.procs| ensures Calm(s, t, q) {
      assert NotStranded(s, q, s.procs[q]) && AdoptedProc(s.procs[q], t.procs[q], p, s.init);
      if s.procs[q].parent == Some(p) && s.procs[q].state == ZOMBIE {
        assert ChildOf(s.procs, p, q);
      }
    }
  }

  lemma AdoptCpus(s: State, t: State, p: nat)
    requires GoodCpus(s) && t == s.(procs := t.procs) && |t.procs| == |s.procs|
    requires forall q :: 0 <= q < |s.procs| ==> AdoptedProc(s.procs[q], t.procs[q], p, s.init)
    ensures GoodCpus(t)
  {}

  lemma InitNotWaiting(s: State, t: State, p: nat)
    requires Inv(s) && p != s.init && t == s.(procs := Adopted(s.procs, p, s.init)) && ZombieChild(s.procs, p)
    ensures !Waits(t.procs[s.init])
  {}

  lemma AdoptKeepsInv(s: State, p: nat)
    requires Inv(s) && p < |s.procs| && p != s.init && s.procs[p].state == RUNNING
    ensures Inv(s.(procs := Adopted(s.procs, p, s.init)))
    ensures forall q: nat :: !ChildOf(Adopted(s.procs, p, s.init), p, q)
  {
    var t := s.(procs := Adopted(s.procs, p, s.init));
    hide GoodProcs, NoneStranded, MakersDiffer, GoodCpus, Calm, Adopted, ZombieChild;
    AdoptedProcs(s.procs, p, s.init);
    if ZombieChild(s.procs, p) {
      InitNotWaiting(s, t, p);
    }
    AdoptProcs(s, t, p);
    AdoptCalm(s, t, p);
    CalmStrandsNobody(s, t);
    AdoptCpus(s, t, p);
    assert AdoptedProc(s.procs[s.init], t.procs[s.init], p, s.init);
    forall q | 0 <= q < |s.procs| ensures t.procs[q].making == s.procs[q].making && t.procs[q].parent != Some(p) {
      assert AdoptedProc(s.procs[q], t.procs[q], p, s.init);
    }
    MakersKept(s.procs, t.procs);
  }

  /** A running process without children, whose parent does not wait. */
  ghost predicate MayDie(s: State, c: nat, p: nat) {
    && c < |s.cpus| && p < |s.procs| && s.lock.None? && s.cpus[c] == In(p) && p != s.init
    && s.procs[p].state == RUNNING && s.procs[p].making.None? && (forall q: nat :: !ChildOf(s.procs, p, q))
    && (s.procs[p].parent.Some? ==> s.procs[p].parent.value < |s.procs| && !Waits(s.procs[s.procs[p].parent.value]))
  }

  lemma DieProcs(s: State, c: nat, p: nat)
    requires Inv(s) && MayDie(s, c, p)
    ensures GoodProcs(Leave(s, c, p, s.procs[p].(state := ZOMBIE, place := Plain)))
    ensures GoodCpus(Leave(s, c, p, s.procs[p].(state := ZOMBIE, place := Plain)))
  {
    hide NoneStranded, MakersDiffer;
    var t := Leave(s, c, p, s.procs[p].(state := ZOMBIE, place := Plain));
    assert GoodCpu(s, c, s.cpus[c]) && GoodProc(s, p, s.procs[p]);
    forall q | 0 <= q < |s.procs| ensures GoodProc(t, q, t.procs[q]) {
      assert GoodProc(s, q, s.procs[q]) && !ChildOf(s.procs, p, q);
    }
    forall d | 0 <= d < |s.cpus| ensures GoodCpu(t, d, t.cpus[d]) {
      assert GoodCpu(s, d, s.cpus[d]);
    }
  }

  /** Such a process turns into a zombie. */
  lemma DieKeepsInv(s: State, c: nat, p: nat)
    requires Inv(s) && MayDie(s, c, p)
    ensures Inv(Leave(s, c, p, s.procs[p].(state := ZOMBIE, place := Plain)))
  {
    hide GoodProcs, GoodCpus, MakersDiffer;
    var t := Leave(s, c, p, s.procs[p].(state := ZOMBIE, place := Plain));
    DieProcs(s, c, p);
    forall q | 0 <= q < |s.procs| ensures Calm(s, t, q) {
      assert NotStranded(s, q, s.procs[q]) && !ChildOf(s.procs, p, q);
    }
    CalmStrandsNobody(s, t);
    MakersKept(s.procs, t.procs);
  }

  /** After the wakeup, the parent is not asleep in wait or waitForProcess. */
  lemma ParentAwake(s: State, p: nat)
    requires Inv(s) && p < |s.procs| && s.procs[p].state == RUNNING
    ensures Inv(s.(procs := ParentWoken(s.procs, p))) && ParentWoken(s.procs, p)[p] == s.procs[p]
    ensures s.procs[p].parent != Some(p)
    ensures s.procs[p].parent.Some? ==>
              s.procs[p].parent.value < |s.procs| && !Waits(ParentWoken(s.procs, p)[s.procs[p].parent.value])
  {
    assert GoodProc(s, p, s.procs[p]);
    if s.procs[p].parent.Some? {
      assert GoodProc(s, s.procs[p].parent.value, s.procs[s.procs[p].parent.value]);
    }
    MildKeepsInv(s, ParentWoken(s.procs, p));
  }

  lemma ExitKeepsInv(s: State, c: nat)
    requires Inv(s) && Outside(s, c) && s.cpus[c].p != s.init && s.procs[s.cpus[c].p].making.None?
    ensures Inv(ExitState(s, c))
  {
    hide GoodProcs, NoneStranded, MakersDiffer, Calm, Adopted, ParentWoken;
    var p := s.cpus[c].p;
    assert GoodCpu(s, c, s.cpus[c]);
    ParentAwake(s, p);
    var woken := ParentWoken(s.procs, p);
    AdoptKeepsInv(s.(procs := woken), p);
    var all := Adopted(woken, p, s.init);
    AdoptedProcs(woken, p, s.init);
    assert AdoptedProc(woken[p], all[p], p, s.init);
    if s.procs[p].parent.Some? {
      assert AdoptedProc(woken[s.procs[p].parent.value], all[s.procs[p].parent.value], p, s.init);
    }
    DieKeepsInv(s.(procs := all), c, p);
  }

  // ---------------------------------------------------------------------------
  // Every run

  lemma ReapStepKeepsInv(s: State, c: nat, q: nat)
    requires Inv(s) && c < |s.cpus| && q < |s.procs| && s.procs[q].state == ZOMBIE
    requires (s.cpus[c].In? && s.lock.None?) || s.cpus[c].Resumed?
    ensures s.procs[q].cpu.None? && s.procs[q].kstack && s.procs[q].pgdir
    ensures Inv(SetCpu(Set(s, q, Reaped(s.procs[q])), c, In(Current(s.cpus[c]).value)))
  {
    assert GoodProc(s, q, s.procs[q]) && GoodCpu(s, c, s.cpus[c]);
    forall d | 0 <= d < |s.cpus| ensures s.procs[q].cpu != Some(d) {
      assert GoodCpu(s, d, s.cpus[d]);
    }
    ReapKeepsInv(s, q);
    CpuKeepsInv(Set(s, q, Reaped(s.procs[q])), c, In(Current(s.cpus[c]).value));
  }

  /** Yield, sleep and the sleeping ends of wait and waitForProcess. */
  lemma LeaveKeepsInv(s: State, c: nat, p: nat, x: Proc)
    requires Inv(s) && c < |s.cpus| && p < |s.procs| && Current(s.cpus[c]) == Some(p)
    requires (s.cpus[c].In? && s.lock.None?) || s.cpus[c].Resumed?
    requires x.state in {SLEEPING, RUNNABLE} && SameFamily(x, s.procs[p]) && x.cpu == s.procs[p].cpu
    requires Waits(x) ==> x.chan == Slot(p) && !x.killed
    requires NotStranded(s, p, x)
    ensures Inv(Leave(s, c, p, x))
  {
    assert GoodCpu(s, c, s.cpus[c]);
    UpdateKeepsInv(s, p, x, c, Leaving(p));
  }

  lemma CpuStepKeepsInv(s: State, step: Step)
    requires Inv(s) && Next(s, step).Some?
    requires step.Lock? || step.Unlock? || step.Return? || step.WaitFail? || step.WaitForFail? || step.Dispatch?
    ensures Inv(Next(s, step).value)
  {
    hide GoodProcs, NoneStranded, MakersDiffer;
    var c := step.c;
    assert GoodCpu(s, c, s.cpus[c]);
    match step
    case Lock(_) => CpuKeepsInv(s, c, Scan);
    case Unlock(_) => CpuKeepsInv(s, c, Loop);
    case Return(_) => CpuKeepsInv(s, c, In(s.cpus[c].p));
    case WaitFail(_) => CpuKeepsInv(s, c, In(Current(s.cpus[c]).value));
    case WaitForFail(_, _) => CpuKeepsInv(s, c, In(Current(s.cpus[c]).value));
    case Dispatch(_, p) =>
      NotRunning(s, c, p);
      UpdateKeepsInv(s, p, s.procs[p].(state := RUNNING, chan := Nothing, cpu := Some(c)), c, Resumed(p));
  }

  /** With the scheduler holding the lock, a runnable process is on no CPU. */
  lemma NotRunning(s: State, c: nat, p: nat)
    requires Inv(s) && c < |s.cpus| && s.cpus[c].Scan? && p < |s.procs| && s.procs[p].state == RUNNABLE
    ensures s.procs[p].cpu.None?
  {}

  lemma LeaveStepKeepsInv(s: State, step: Step)
    requires Inv(s) && Next(s, step).Some?
    requires step.Yield? || step.SleepOn? || step.WaitSleep? || step.WaitForSleep?
    ensures Inv(Next(s, step).value)
  {
    hide GoodProcs, NoneStranded, MakersDiffer, GoodCpus;
    var c := step.c;
    var p := Current(s.cpus[c]).value;
    match step
    case Yield(_) => LeaveKeepsInv(s, c, p, s.procs[p].(state := RUNNABLE, place := Plain));
    case SleepOn(_, e) => LeaveKeepsInv(s, c, p, s.procs[p].(state := SLEEPING, chan := Event(e), place := Plain));
    case WaitSleep(_) =>
      var x := s.procs[p].(state := SLEEPING, chan := Slot(p), place := InWait);
      assert HasChild(s.procs, p) by {
        var q :| 0 <= q < |s.procs| && ChildOf(s.procs, p, q);
      }
      LeaveKeepsInv(s, c, p, x);
    case WaitForSleep(_, pid) =>
      LeaveKeepsInv(s, c, p, s.procs[p].(state := SLEEPING, chan := Slot(p), place := InWaitFor(pid)));
  }

  lemma TableStepKeepsInv(s: State, step: Step)
    requires Inv(s) && Next(s, step).Some?
    requires step.WakeEvent? || step.KillPid? || step.WaitReap? || step.WaitForReap?
    ensures Inv(Next(s, step).value)
  {
    hide GoodProcs, NoneStranded, MakersDiffer, GoodCpus;
    match step
    case WakeEvent(e) => MildKeepsInv(s, Wakeup(s.procs, Event(e)));
    case KillPid(q) => MildKeepsInv(s, Next(s, step).value.procs);
    case WaitReap(c, q) => ReapStepKeepsInv(s, c, q);
    case WaitForReap(c, _, q) => ReapStepKeepsInv(s, c, q);
  }

  lemma ForkStepKeepsInv(s: State, step: Step)
    requires Inv(s) && Next(s, step).Some?
    requires step.ForkStack? || step.ForkCopy? || step.ForkFail? || step.ForkDone?
    ensures Inv(Next(s, step).value)
  {
    hide GoodProcs, NoneStranded, MakersDiffer, GoodCpus;
    var c := step.c;
    var p, np := s.cpus[c].p, Making(s, c).value;
    EmbryoIs(s, c, np);
    match step
    case ForkStack(_) => EmbryoKeepsInv(s, np, s.procs[np].(kstack := true));
    case ForkCopy(_) => EmbryoKeepsInv(s, np, s.procs[np].(pgdir := true));
    case ForkFail(_) => ForkEndKeepsInv(s, c, np, s.procs[np].(state := UNUSED, kstack := false));
    case ForkDone(_) => ForkEndKeepsInv(s, c, np,
        s.procs[np].(state := RUNNABLE, parent := Some(p), chan := Nothing, place := Plain));
  }

  lemma StepKeepsInv(s: State, step: Step)
    requires Inv(s) && Next(s, step).Some?
    ensures Inv(Next(s, step).value)
  {
    hide Inv;
    match step
    case Switch(c) => SwitchKeepsInv(s, c);
    case ForkStart(c, np) => ForkStartKeepsInv(s, c, np);
    case Exit(c) => ExitKeepsInv(s, c);
    case WakeEvent(_) => TableStepKeepsInv(s, step);
    case KillPid(_) => TableStepKeepsInv(s, step);
    case ForkStack(_) => ForkStepKeepsInv(s, step);
    case ForkCopy(_) => ForkStepKeepsInv(s, step);
    case ForkFail(_) => ForkStepKeepsInv(s, step);
    case ForkDone(_) => ForkStepKeepsInv(s, step);
    case WaitReap(_, _) => TableStepKeepsInv(s, step);
    case WaitForReap(_, _, _) => TableStepKeepsInv(s, step);
    case Yield(_) => LeaveStepKeepsInv(s, step);
    case SleepOn(_, _) => LeaveStepKeepsInv(s, step);
    case WaitSleep(_) => LeaveStepKeepsInv(s, step);
    case WaitForSleep(_, _) => LeaveStepKeepsInv(s, step);
    case _ => CpuStepKeepsInv(s, step);
  }

  /** After userinit: init is runnable, every other slot is unused, all CPUs idle. */
  ghost predicate Boot(s: State)
  {
    && s.init < |s.procs| && s.lock.None? && s.nextpid == 2
    && (forall c :: 0 <= c < |s.cpus| ==> s.cpus[c] == Loop)
    && (forall p :: 0 <= p < |s.procs| && p != s.init ==>
          s.procs[p] == Proc(UNUSED, 0, None, Nothing, false, false, false, Plain, None, None))
    && s.procs[s.init] == Proc(RUNNABLE, 1, None, Nothing, false, true, true, Plain, None, None)
  }

  /** A run: the steps in order, each of them possible when it is taken. */
  function Exec(s: State, steps: seq<Step>): Option<State>
    decreases |steps|
  {
    if steps == [] then Some(s)
    else match Exec(s, steps[..|steps| - 1])
      case None => None
      case Some(u) => Next(u, steps[|steps| - 1])
  }

  ghost predicate Reachable(t: State) {
    exists s, steps :: Boot(s) && Exec(s, steps) == Some(t)
  }

  lemma {:induction false} RunKeepsInv(s: State, steps: seq<Step>)
    requires Boot(s) && Exec(s, steps).Some?
    ensures Inv(Exec(s, steps).value)
    decreases |steps|
  {
    if steps != [] {
      RunKeepsInv(s, steps[..|steps| - 1]);
      StepKeepsInv(Exec(s, steps[..|steps| - 1]).value, steps[|steps| - 1]);
    }
  }

  lemma ReachableIsGood(t: State)
    requires Reachable(t)
    ensures Inv(t)
  {
    var s, steps :| Boot(s) && Exec(s, steps) == Some(t);
    RunKeepsInv(s, steps);
  }

  /** Exit and wait: in every reachable state a process asleep in wait has a child and
      no zombie child, and one asleep in waitForProcess has no zombie child of that
      pid. */
  lemma WaitersNotStranded(t: State, p: nat)
    requires Reachable(t) && p < |t.procs| && t.procs[p].state == SLEEPING
    ensures t.procs[p].place.InWait? ==> HasChild(t.procs, p)
    ensures t.procs[p].place.InWait? ==> forall q: nat :: ChildOf(t.procs, p, q) ==> t.procs[q].state != ZOMBIE
    ensures t.procs[p].place.InWaitFor? ==>
              forall q: nat :: ChildOf(t.procs, p, q) && t.procs[q].pid == t.procs[p].place.pid ==>
                  t.procs[q].state != ZOMBIE
  {
    ReachableIsGood(t);
    assert NotStranded(t, p, t.procs[p]);
  }

  /** Each running process is current on exactly one CPU. */
  lemma RunningOnOneCpu(t: State, p: nat)
    requires Reachable(t) && p < |t.procs| && t.procs[p].state == RUNNING
    ensures exists c :: 0 <= c < |t.cpus| && Current(t.cpus[c]) == Some(p) &&
              forall d :: 0 <= d < |t.cpus| && Current(t.cpus[d]) == Some(p) ==> d == c
  {
    ReachableIsGood(t);
    assert GoodProc(t, p, t.procs[p]);
    var c := t.procs[p].cpu.value;
    forall d | 0 <= d < |t.cpus| && Current(t.cpus[d]) == Some(p) ensures d == c {
      assert GoodCpu(t, d, t.cpus[d]);
    }
  }

  predicate Reaps(step: Step, q: nat) {
    (step.WaitReap? || step.WaitForReap?) && step.q == q
  }

  /** The step undoes the fork that is filling slot q. */
  predicate Undoes(s: State, step: Step, q: nat) {
    step.ForkFail? && Forking(s, step.c, q)
  }

  /** A kernel stack is given back only when a zombie is reaped, or when the fork that is
      filling the slot is undone, and no CPU is on it then. */
  lemma StackGoesOnce(t: State, step: Step, q: nat)
    requires Reachable(t) && Next(t, step).Some? && q < |t.procs| == |Next(t, step).value.procs|
    requires t.procs[q].kstack && !Next(t, step).value.procs[q].kstack
    ensures (Reaps(step, q) && t.procs[q].state == ZOMBIE) || (Undoes(t, step, q) && t.procs[q].state == EMBRYO)
    ensures forall c :: 0 <= c < |t.cpus| ==> Current(t.cpus[c]) != Some(q)
  {
    hide Inv;
    ReachableIsGood(t);
    ResourcesGo(t, step, q);
    if Reaps(step, q) {
      ZombieUnused(t, step, q);
    } else {
      EmbryoIs(t, step.c, q);
    }
  }

  /** A page table is given back only when a zombie is reaped, together with the stack. */
  lemma PageTableGoesOnce(t: State, step: Step, q: nat)
    requires Reachable(t) && Next(t, step).Some? && q < |t.procs| == |Next(t, step).value.procs|
    requires t.procs[q].pgdir && !Next(t, step).value.procs[q].pgdir
    ensures Reaps(step, q) && t.procs[q].state == ZOMBIE && t.procs[q].kstack && !Next(t, step).value.procs[q].kstack
    ensures forall c :: 0 <= c < |t.cpus| ==> Current(t.cpus[c]) != Some(q)
  {
    hide Inv;
    ReachableIsGood(t);
    ResourcesGo(t, step, q);
    ZombieUnused(t, step, q);
  }

  lemma ZombieUnused(t: State, step: Step, q: nat)
    requires Inv(t) && Next(t, step).Some? && Reaps(step, q)
    ensures q < |t.procs| && t.procs[q].state == ZOMBIE && t.procs[q].kstack
    ensures forall c :: 0 <= c < |t.cpus| ==> Current(t.cpus[c]) != Some(q)
  {
    hide GoodProcs, NoneStranded, MakersDiffer;
    ReapStepKeepsInv(t, step.c, q);
    forall c | 0 <= c < |t.cpus| ensures Current(t.cpus[c]) != Some(q) {
      assert GoodCpu(t, c, t.cpus[c]);
    }
  }

  /** What each step does to the stack and the page table of a slot. */
  lemma ResourcesGo(s: State, step: Step, q: nat)
    requires Next(s, step).Some? && q < |s.procs| == |Next(s, step).value.procs|
    ensures s.procs[q].kstack && !Next(s, step).value.procs[q].kstack ==> Reaps(step, q) || Undoes(s, step, q)
    ensures s.procs[q].pgdir && !Next(s, step).value.procs[q].pgdir ==> Reaps(step, q)
    ensures Reaps(step, q) ==> !Next(s, step).value.procs[q].kstack && !Next(s, step).value.procs[q].pgdir
  {
    hide ExitState, NoChild, NoZombie, NoneDead, NoSuch, Wakeup, FirstDead, FirstZombie;
    if step.Exit? {
      ExitKeepsStack(s, step.c, q);
    } else if step.WakeEvent? {
      WakeupKeepsStack(s.procs, Event(step.e), q);
    }
  }

  lemma WakeupKeepsStack(procs: seq<Proc>, ch: Chan, q: nat)
    requires q < |procs|
    ensures |Wakeup(procs, ch)| == |procs|
    ensures Wakeup(procs, ch)[q].kstack == procs[q].kstack && Wakeup(procs, ch)[q].pgdir == procs[q].pgdir
  {}

  lemma ExitKeepsStack(s: State, c: nat, q: nat)
    requires Outside(s, c) && q < |s.procs|
    ensures |ExitState(s, c).procs| == |s.procs|
    ensures ExitState(s, c).procs[q].kstack == s.procs[q].kstack && ExitState(s, c).procs[q].pgdir == s.procs[q].pgdir
  {
    var woken := ParentWoken(s.procs, s.cpus[c].p);
    assert woken[q].kstack == s.procs[q].kstack && woken[q].pgdir == s.procs[q].pgdir;
  }

  // ---------------------------------------------------------------------------
  // waitForProcess on somebody else's child

  /** exit wakes a process that waits for the exiting one exactly when it is the
      parent, or init being handed a zombie: any other waiter sleeps on although its
      target is a zombie now. */
  lemma ExitWakesParentOnly(s: State, c: nat, w: nat)
    requires Inv(s) && Outside(s, c) && s.cpus[c].p != s.init && s.procs[s.cpus[c].p].making.None?
    requires w < |s.procs| && s.procs[w].state == SLEEPING && s.procs[w].place == InWaitFor(s.procs[s.cpus[c].p].pid)
    ensures var p, t := s.cpus[c].p, ExitState(s, c);
            && t.procs[p].state == ZOMBIE && t.procs[p].pid == s.procs[p].pid
            && (t.procs[w].state == SLEEPING <==>
                  s.procs[p].parent != Some(w) && !(w == s.init && ZombieChild(ParentWoken(s.procs, p), p)))
  {
    hide Inv, ZombieChild;
    var p := s.cpus[c].p;
    WaiterAndRunner(s, c, w);
    var woken := ParentWoken(s.procs, p);
    AdoptedProcs(woken, p, s.init);
    assert AdoptedProc(woken[p], Adopted(woken, p, s.init)[p], p, s.init);
  }

  lemma WaiterAndRunner(s: State, c: nat, w: nat)
    requires Inv(s) && Outside(s, c) && w < |s.procs| && Waits(s.procs[w])
    ensures s.procs[w].chan == Slot(w) && s.procs[s.cpus[c].p].state == RUNNING && s.init < |s.procs|
  {}

  /** One CPU and three slots, the first of them init's. */
  function Machine(a: Proc, b: Proc, d: Proc, cpu: Cpu, nextpid: int): State {
    State([a, b, d], [cpu], if HasLock(cpu) then Some(0) else None, nextpid, 0)
  }

  lemma MachineSet(a: Proc, b: Proc, d: Proc, cpu: Cpu, nextpid: int, x: Proc, m: Cpu)
    ensures Set(Machine(a, b, d, cpu, nextpid), 0, x) == Machine(x, b, d, cpu, nextpid)
    ensures Set(Machine(a, b, d, cpu, nextpid), 1, x) == Machine(a, x, d, cpu, nextpid)
    ensures Set(Machine(a, b, d, cpu, nextpid), 2, x) == Machine(a, b, x, cpu, nextpid)
    ensures SetCpu(Machine(a, b, d, cpu, nextpid), 0, m) == Machine(a, b, d, m, nextpid)
  {
    assert [a, b, d][0 := x] == [x, b, d] && [a, b, d][1 := x] == [a, x, d] && [a, b, d][2 := x] == [a, b, x];
    assert [cpu][0 := m] == [m];
  }

  lemma StepsOn(t: State, step: Step, u: State)
    requires Reachable(t) && Next(t, step) == Some(u)
    ensures Reachable(u)
  {
    hide Next;
    var s, steps :| Boot(s) && Exec(s, steps) == Some(t);
    assert (steps + [step])[..|steps|] == steps;
    assert Exec(s, steps + [step]) == Some(u);
  }

  function Free(): Proc {
    Proc(UNUSED, 0, None, Nothing, false, false, false, Plain, None, None)
  }

  function Ready(pid: int, parent: Option<nat>): Proc {
    Proc(RUNNABLE, pid, parent, Nothing, false, true, true, Plain, None, None)
  }

  function Running(pid: int, parent: Option<nat>): Proc {
    Ready(pid, parent).(state := RUNNING, cpu := Some(0))
  }

  /** From boot to init, running. */
  lemma InitRuns()
    ensures Reachable(Machine(Running(1, None), Free(), Free(), In(0), 2))
  {
    var s := Machine(Ready(1, None), Free(), Free(), Loop, 2);
    assert Boot(s) && Exec(s, []) == Some(s);
    MachineSet(Ready(1, None), Free(), Free(), Loop, 2, Free(), Scan);
    StepsOn(s, Step.Lock(0), Machine(Ready(1, None), Free(), Free(), Scan, 2));
    MachineSet(Ready(1, None), Free(), Free(), Scan, 2, Running(1, None), Resumed(0));
    MachineSet(Running(1, None), Free(), Free(), Scan, 2, Free(), Resumed(0));
    StepsOn(Machine(Ready(1, None), Free(), Free(), Scan, 2), Dispatch(0, 0),
        Machine(Running(1, None), Free(), Free(), Resumed(0), 2));
    MachineSet(Running(1, None), Free(), Free(), Resumed(0), 2, Free(), In(0));
    StepsOn(Machine(Running(1, None), Free(), Free(), Resumed(0), 2), Return(0),
        Machine(Running(1, None), Free(), Free(), In(0), 2));
  }

  /** A whole fork of init into slot np. */
  lemma Forks(s: State, np: nat)
    requires Reachable(s) && s.cpus == [In(0)] && s.lock == None && np < |s.procs| && s.procs[np] == Free()
    requires np != 0 && s.procs[0].making == None
    ensures Reachable(Set(s, np, Ready(s.nextpid, Some(0))).(nextpid := s.nextpid + 1))
  {
    hide Reachable, MakersDiffer;
    var embryo := Free().(state := EMBRYO, pid := s.nextpid);
    var forking := Set(Set(s, 0, s.procs[0].(making := Some(np))), np, embryo).(nextpid := s.nextpid + 1);
    StepsOn(s, ForkStart(0, np), forking);
    MakesReady(forking, np, embryo);
    var done := Set(s, np, Ready(s.nextpid, Some(0))).(nextpid := s.nextpid + 1);
    var again := Set(Set(forking, np, Ready(s.nextpid, Some(0))), 0, forking.procs[0].(making := None));
    assert again.procs == done.procs;
    assert again == done;
  }

  lemma MakesReady(s: State, np: nat, embryo: Proc)
    requires Reachable(s) && s.cpus == [In(0)] && s.lock == None && np < |s.procs| && s.procs[np] == embryo
    requires embryo == Free().(state := EMBRYO, pid := embryo.pid) && np != 0 && s.procs[0].making == Some(np)
    ensures Reachable(Set(Set(s, np, Ready(embryo.pid, Some(0))), 0, s.procs[0].(making := None)))
  {
    hide Reachable;
    var stacked := Set(s, np, embryo.(kstack := true));
    StepsOn(s, ForkStack(0), stacked);
    var full := Set(stacked, np, embryo.(kstack := true, pgdir := true));
    StepsOn(stacked, ForkCopy(0), full);
    var done := Set(Set(s, np, Ready(embryo.pid, Some(0))), 0, s.procs[0].(making := None));
    assert full.procs[0 := s.procs[0].(making := None)][np := Ready(embryo.pid, Some(0))] == done.procs;
    StepsOn(full, ForkDone(0), done);
  }

  /** init (slot 0) and a process in slot 1 that sleeps in waitForProcess(3), while
      init's child 3 (slot 2) runs. */
  function StrandedStart(): State {
    Machine(Ready(1, None), Ready(2, Some(0)).(state := SLEEPING, chan := Slot(1), place := InWaitFor(3)),
        Running(3, Some(0)), In(2), 4)
  }

  /** init gives up the CPU to its first child. */
  lemma FirstChildRuns()
    ensures Reachable(Machine(Ready(1, None), Running(2, Some(0)), Ready(3, Some(0)), In(1), 4))
  {
    hide Reachable;
    InitRuns();
    var b, d := Ready(2, Some(0)), Ready(3, Some(0));
    Forks(Machine(Running(1, None), Free(), Free(), In(0), 2), 1);
    MachineSet(Running(1, None), Free(), Free(), In(0), 2, b, In(0));
    Forks(Machine(Running(1, None), b, Free(), In(0), 3), 2);
    MachineSet(Running(1, None), b, Free(), In(0), 3, d, In(0));
    Yields(b, d);
  }

  lemma Yields(b: Proc, d: Proc)
    requires b == Ready(2, Some(0)) && d == Ready(3, Some(0))
    requires Reachable(Machine(Running(1, None), b, d, In(0), 4))
    ensures Reachable(Machine(Ready(1, None), Running(2, Some(0)), d, In(1), 4))
  {
    hide Reachable;
    var yielding := Running(1, None).(state := RUNNABLE);
    MachineSet(Running(1, None), b, d, In(0), 4, yielding, In(0));
    MachineSet(yielding, b, d, In(0), 4, b, Leaving(0));
    StepsOn(Machine(Running(1, None), b, d, In(0), 4), Yield(0), Machine(yielding, b, d, Leaving(0), 4));
    MachineSet(yielding, b, d, Leaving(0), 4, Ready(1, None), Scan);
    MachineSet(Ready(1, None), b, d, Leaving(0), 4, b, Scan);
    StepsOn(Machine(yielding, b, d, Leaving(0), 4), Switch(0), Machine(Ready(1, None), b, d, Scan, 4));
    MachineSet(Ready(1, None), b, d, Scan, 4, Running(2, Some(0)), Scan);
    MachineSet(Ready(1, None), Running(2, Some(0)), d, Scan, 4, b, Resumed(1));
    StepsOn(Machine(Ready(1, None), b, d, Scan, 4), Dispatch(0, 1),
        Machine(Ready(1, None), Running(2, Some(0)), d, Resumed(1), 4));
    MachineSet(Ready(1, None), Running(2, Some(0)), d, Resumed(1), 4, b, In(1));
    StepsOn(Machine(Ready(1, None), Running(2, Some(0)), d, Resumed(1), 4), Return(0),
        Machine(Ready(1, None), Running(2, Some(0)), d, In(1), 4));
  }

  lemma StartIsReachable()
    ensures Reachable(StrandedStart())
  {
    hide Reachable;
    FirstChildRuns();
    var a, b, d := Ready(1, None), Running(2, Some(0)), Ready(3, Some(0));
    var leaving := b.(state := SLEEPING, chan := Slot(1), place := InWaitFor(3));
    MachineSet(a, b, d, In(1), 4, leaving, In(1));
    MachineSet(a, leaving, d, In(1), 4, a, Leaving(1));
    FirstChildWaits();
    StepsOn(Machine(a, b, d, In(1), 4), WaitForSleep(0, 3), Machine(a, leaving, d, Leaving(1), 4));
    var asleep := leaving.(cpu := None);
    MachineSet(a, leaving, d, Leaving(1), 4, asleep, Leaving(1));
    MachineSet(a, asleep, d, Leaving(1), 4, a, Scan);
    StepsOn(Machine(a, leaving, d, Leaving(1), 4), Switch(0), Machine(a, asleep, d, Scan, 4));
    MachineSet(a, asleep, d, Scan, 4, Running(3, Some(0)), Scan);
    MachineSet(a, asleep, Running(3, Some(0)), Scan, 4, a, Resumed(2));
    StepsOn(Machine(a, asleep, d, Scan, 4), Dispatch(0, 2), Machine(a, asleep, Running(3, Some(0)), Resumed(2), 4));
    MachineSet(a, asleep, Running(3, Some(0)), Resumed(2), 4, a, In(2));
    StepsOn(Machine(a, asleep, Running(3, Some(0)), Resumed(2), 4), Return(0), StrandedStart());
  }

  lemma FirstChildWaits()
    ensures var procs := [Ready(1, None), Running(2, Some(0)), Ready(3, Some(0))];
            !NoSuch(procs, 3) && NoneDead(procs, 3)
  {
    assert [Ready(1, None), Running(2, Some(0)), Ready(3, Some(0))][2].pid == 3;
  }

  lemma StrandedExit(s: State)
    requires s == StrandedStart() && Inv(s)
    ensures Next(s, Exit(0)) == Some(ExitState(s, 0))
    ensures var t := ExitState(s, 0);
            |t.procs| == 3 && t.procs[1].state == SLEEPING && t.procs[1].place == InWaitFor(3) &&
                t.procs[2].state == ZOMBIE && t.procs[2].pid == 3
  {
    hide Inv;
    ExitWakesParentOnly(s, 0, 1);
    AdoptedProcs(ParentWoken(s.procs, 2), 2, 0);
    assert AdoptedProc(ParentWoken(s.procs, 2)[1], Adopted(ParentWoken(s.procs, 2), 2, 0)[1], 2, 0);
  }

  /** When the child exits, slot 1 is left asleep, waiting for a zombie. */
  lemma StrandedNonParent()
    ensures var s := StrandedStart();
            Reachable(s) && Next(s, Exit(0)).Some? &&
            var t := Next(s, Exit(0)).value;
            Reachable(t) && |t.procs| == 3 &&
            t.procs[1].state == SLEEPING && t.procs[1].place == InWaitFor(3) && t.procs[2].state == ZOMBIE &&
                t.procs[2].pid == 3
  {
    hide Inv, Reachable, Next;
    var s := StrandedStart();
    StartIsReachable();
    ReachableIsGood(s);
    StrandedExit(s);
    StepsOn(s, Exit(0), ExitState(s, 0));
  }

  // ---------------------------------------------------------------------------
  // waitForProcess on nobody

  /** Slots have this pid, but none of them is in use. */
  predicate NoTarget(procs: seq<Proc>, pid: int) {
    !NoSuch(procs, pid) && forall q | 0 <= q < |procs| :: procs[q].pid == pid ==> procs[q].state == UNUSED
  }

  /** A process to come or that is there has this pid. */
  predicate HasTarget(procs: seq<Proc>, pid: int) {
    exists q | 0 <= q < |procs| :: procs[q].pid == pid && (Live(procs[q]) || procs[q].state == EMBRYO)
  }

  /** waitForProcess goes to sleep without a process to wait for exactly when all slots with
      its pid are unused: it does not look at the state of a slot. */
  lemma SleepsForTarget(t: State, c: nat, pid: int)
    requires MayEnter(t, c, InWaitFor(pid)) && !t.procs[Current(t.cpus[c]).value].killed
    ensures Next(t, WaitForSleep(c, pid)).Some? && !HasTarget(t.procs, pid) <==> NoTarget(t.procs, pid)
  {
    if NoTarget(t.procs, pid) {
      assert NoneDead(t.procs, pid);
    }
    if !NoSuch(t.procs, pid) && NoneDead(t.procs, pid) && !HasTarget(t.procs, pid) {
      forall q | 0 <= q < |t.procs| && t.procs[q].pid == pid ensures t.procs[q].state == UNUSED {}
    }
  }

  /** Unused slots have pid 0. */
  ghost predicate PidsCleared(s: State) {
    forall q :: 0 <= q < |s.procs| && s.procs[q].state == UNUSED ==> s.procs[q].pid == 0
  }

  /** Only a failed fork leaves a pid in an unused slot. */
  lemma StepClearsPids(s: State, step: Step, q: nat)
    requires Next(s, step).Some? && !step.ForkFail? && PidsCleared(s) && q < |s.procs| == |Next(s, step).value.procs|
    ensures Next(s, step).value.procs[q].state == UNUSED ==> Next(s, step).value.procs[q].pid == 0
  {
    hide ExitState, NoChild, NoZombie, NoneDead, NoSuch, Wakeup, FirstDead, FirstZombie;
    if step.Exit? {
      ExitKeepsPid(s, step.c, q);
    } else if step.WakeEvent? {
      WakeupKeepsPid(s.procs, Event(step.e), q);
    }
  }

  lemma WakeupKeepsPid(procs: seq<Proc>, ch: Chan, q: nat)
    requires q < |procs|
    ensures |Wakeup(procs, ch)| == |procs| && Wakeup(procs, ch)[q].pid == procs[q].pid
    ensures Wakeup(procs, ch)[q].state == UNUSED ==> procs[q].state == UNUSED
  {}

  lemma ExitKeepsPid(s: State, c: nat, q: nat)
    requires Outside(s, c) && q < |s.procs|
    ensures |ExitState(s, c).procs| == |s.procs| && ExitState(s, c).procs[q].pid == s.procs[q].pid
    ensures ExitState(s, c).procs[q].state == UNUSED ==> s.procs[q].state == UNUSED
  {
    var woken := ParentWoken(s.procs, s.cpus[c].p);
    assert woken[q].pid == s.procs[q].pid && (woken[q].state == UNUSED ==> s.procs[q].state == UNUSED);
  }

  lemma SameSlots(s: State, step: Step)
    requires Next(s, step).Some?
    ensures |Next(s, step).value.procs| == |s.procs|
  {
    hide ExitState, NoChild, NoZombie, NoneDead, NoSuch;
    if step.Exit? {
      ExitKeepsPid(s, step.c, s.cpus[step.c].p);
    }
  }

  lemma {:induction false} RunClearsPids(s: State, steps: seq<Step>)
    requires Boot(s) && Exec(s, steps).Some? && forall i :: 0 <= i < |steps| ==> !steps[i].ForkFail?
    ensures PidsCleared(Exec(s, steps).value)
    decreases |steps|
  {
    hide Next;
    if steps != [] {
      var n := |steps| - 1;
      RunClearsPids(s, steps[..n]);
      var u := Exec(s, steps[..n]).value;
      SameSlots(u, steps[n]);
      forall q | 0 <= q < |u.procs|
        ensures Exec(s, steps).value.procs[q].state == UNUSED ==> Exec(s, steps).value.procs[q].pid == 0 {
        StepClearsPids(u, steps[n], q);
      }
    }
  }

  /** After a run in which no fork has failed, waitForProcess of any pid but 0 sleeps for a
      process. */
  lemma TargetIsThere(s: State, steps: seq<Step>, c: nat, pid: int)
    requires Boot(s) && Exec(s, steps).Some? && (forall i :: 0 <= i < |steps| ==> !steps[i].ForkFail?) && pid != 0
    requires Next(Exec(s, steps).value, WaitForSleep(c, pid)).Some?
    ensures HasTarget(Exec(s, steps).value.procs, pid)
  {
    RunClearsPids(s, steps);
    var t := Exec(s, steps).value;
    SleepsForTarget(t, c, pid);
  }

  /** Pid 0 is that of every slot not yet used: init may wait for it forever. */
  lemma SleepsForZero()
    ensures var s := Machine(Running(1, None), Free(), Free(), In(0), 2);
            Reachable(s) && Next(s, WaitForSleep(0, 0)).Some? && !HasTarget(s.procs, 0)
  {
    hide Reachable, NoSuch;
    InitRuns();
    var s := Machine(Running(1, None), Free(), Free(), In(0), 2);
    HasPid(s.procs, 1, 0);
    SleepsForTarget(s, 0, 0);
  }

  /** The first fork finds no memory. */
  lemma ForkFails()
    ensures Reachable(Machine(Running(1, None), Free().(pid := 2), Free(), In(0), 3))
  {
    hide Reachable;
    InitRuns();
    var me, forker, embryo := Running(1, None), Running(1, None).(making := Some(1)),
        Free().(state := EMBRYO, pid := 2);
    MachineSet(me, Free(), Free(), In(0), 2, forker, In(0));
    MachineSet(forker, Free(), Free(), In(0), 2, embryo, In(0));
    StepsOn(Machine(me, Free(), Free(), In(0), 2), ForkStart(0, 1), Machine(forker, embryo, Free(), In(0), 3));
    MachineSet(forker, embryo, Free(), In(0), 3, me, In(0));
    MachineSet(me, embryo, Free(), In(0), 3, Free().(pid := 2), In(0));
    StepsOn(Machine(forker, embryo, Free(), In(0), 3), ForkFail(0), Machine(me, Free().(pid := 2), Free(), In(0), 3));
  }

  /** Its pid stays behind, and can be waited for. */
  lemma SleepsForStale()
    ensures var s := Machine(Running(1, None), Free().(pid := 2), Free(), In(0), 3);
            Reachable(s) && Next(s, WaitForSleep(0, 2)).Some? && !HasTarget(s.procs, 2)
  {
    hide Reachable, NoSuch;
    ForkFails();
    var s := Machine(Running(1, None), Free().(pid := 2), Free(), In(0), 3);
    HasPid(s.procs, 1, 2);
    SleepsForTarget(s, 0, 2);
  }

  lemma HasPid(procs: seq<Proc>, q: nat, pid: int)
    requires q < |procs| && procs[q].pid == pid
    ensures !NoSuch(procs, pid)
  {}
}
