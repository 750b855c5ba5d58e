/** Sleep locks over sleep and wakeup, in every interleaving.  A step is what one
    process does between two operations on the spinlocks lk->lk and ptable.lock. */
module SleepLock {
  import opened Options

  /** Where a process is in acquiresleep (with sleep inside it) and releasesleep. */
  datatype PC =
    | Idle                 // not using the lock
    | Acquire              // acquiresleep: acquire(&lk->lk)
    | Test                 // holding lk: while (lk->locked)
    | SleepEnter           // holding lk, in sleep: acquire(&ptable.lock)
    | SleepSwap            // holding both: release(lk)
    | SleepCommit          // holding ptable.lock: chan = lk, state = SLEEPING, sched()
    | Asleep               // SLEEPING on lk
    | Runnable             // woken, waiting for a CPU
    | Resume               // switched to with ptable.lock held: chan = 0, release it
    | Reacquire            // end of sleep: acquire(lk)
    | Take                 // holding lk: locked = 1, pid = myproc()->pid
    | Leave                // holding lk: release(&lk->lk), acquiresleep returns
    | Holder               // holding the sleep lock
    | Release              // releasesleep: acquire(&lk->lk)
    | Clear                // holding lk: locked = 0, pid = 0
    | WakeEnter            // holding lk, in wakeup: acquire(&ptable.lock)
    | Wake                 // holding both: wakeup1(lk)
    | WakeLeave            // holding both: release(&ptable.lock)
    | Finish               // holding lk: release(&lk->lk), releasesleep returns

  /** Who holds ptable.lock: nobody, a process of the model, or a scheduler or some
      process outside of it. */
  datatype PtHolder = Free | Proc(p: nat) | Other

  datatype State = State(lk: Option<nat>, pt: PtHolder, locked: bool, pid: nat, pc: map<nat, PC>)

  datatype Step =
    | Run(p: nat)          // process p takes its next step
    | TakePt               // a scheduler, or an outside process, takes ptable.lock
    | DropPt               // and gives it up
    | Dispatch(p: nat)     // a scheduler switches to p and hands ptable.lock over
    | Kill(p: nat)         // kill makes a sleeping process runnable

  predicate HoldsLk(c: PC) {
    c in {Test, SleepEnter, SleepSwap, Take, Leave, Clear, WakeEnter, Wake, WakeLeave, Finish}
  }

  predicate HoldsPt(c: PC) {
    c in {SleepSwap, SleepCommit, Resume, Wake, WakeLeave}
  }

  /** The process has the sleep lock. */
  predicate Owns(c: PC) {
    c in {Leave, Holder, Release, Clear}
  }

  function WakeAll(pc: map<nat, PC>): (r: map<nat, PC>)
    ensures r.Keys == pc.Keys
    ensures forall p :: p in pc ==> r[p] == if pc[p] == Asleep then Runnable else pc[p]
  {
    map p | p in pc :: if pc[p] == Asleep then Runnable else pc[p]
  }

  /** One step of process p; None when it must wait for a spinlock or a CPU. */
  function RunStep(s: State, p: nat): Option<State>
    requires p in s.pc
  {
    match s.pc[p]
    case Idle => Some(Go(s, p, Acquire))
    case Acquire => if s.lk.None? then Some(Go(s.(lk := Some(p)), p, Test)) else None
    case Test => Some(Go(s, p, if s.locked then SleepEnter else Take))
    case SleepEnter => if s.pt.Free? then Some(Go(s.(pt := Proc(p)), p, SleepSwap)) else None
    case SleepSwap => Some(Go(s.(lk := None), p, SleepCommit))
    case SleepCommit => Some(Go(s.(pt := Other), p, Asleep))
    case Asleep => None
    case Runnable => None
    case Resume => Some(Go(s.(pt := Free), p, Reacquire))
    case Reacquire => if s.lk.None? then Some(Go(s.(lk := Some(p)), p, Test)) else None
    case Take => Some(Go(s.(locked := true, pid := p), p, Leave))
    case Leave => Some(Go(s.(lk := None), p, Holder))
    case Holder => Some(Go(s, p, Release))
    case Release => if s.lk.None? then Some(Go(s.(lk := Some(p)), p, Clear)) else None
    case Clear => Some(Go(s.(locked := false, pid := 0), p, WakeEnter))
    case WakeEnter => if s.pt.Free? then Some(Go(s.(pt := Proc(p)), p, Wake)) else None
    case Wake => Some(Go(s.(pc := WakeAll(s.pc)), p, WakeLeave))
    case WakeLeave => Some(Go(s.(pt := Free), p, Finish))
    case Finish => Some(Go(s.(lk := None), p, Idle))
  }

  function Go(s: State, p: nat, c: PC): State {
    s.(pc := s.pc[p := c])
  }

  function Next(s: State, step: Step): Option<State> {
    match step
    case Run(p) => if p in s.pc then RunStep(s, p) else None
    case TakePt => if s.pt.Free? then Some(s.(pt := Other)) else None
    case DropPt => if s.pt.Other? then Some(s.(pt := Free)) else None
    case Dispatch(p) =>
      if s.pt.Other? && p in s.pc && s.pc[p] == Runnable then Some(Go(s.(pt := Proc(p)), p, Resume)) else None
    case Kill(p) =>
      if s.pt.Free? && p in s.pc && s.pc[p] == Asleep then Some(Go(s, p, Runnable)) else None
  }

  /** holdingsleep by process p, whose pid is p. */
  predicate HoldingSleep(s: State, p: nat) {
    s.locked && s.pid == p
  }

  // ---------------------------------------------------------------------------
  // The invariant

  /** Somebody has cleared `locked` and is on the way to wakeup1, still holding lk. */
  ghost predicate WakeupPending(s: State) {
    s.lk.Some? && s.lk.value in s.pc && (s.pc[s.lk.value] == WakeEnter || s.pc[s.lk.value] == Wake)
  }

  ghost predicate GoodProc(s: State, p: nat, c: PC) {
    && p != 0
    && (HoldsLk(c) <==> s.lk == Some(p))
    && (HoldsPt(c) <==> s.pt == Proc(p))
    && (Owns(c) <==> s.locked && s.pid == p)
    && (c == Take ==> !s.locked)
    && (c == SleepEnter || c == SleepSwap ==> s.locked)
    && (c == SleepCommit || c == Asleep ==> s.locked || WakeupPending(s))
  }

  ghost predicate Inv(s: State) {
    && (forall p :: p in s.pc ==> GoodProc(s, p, s.pc[p]))
    && (s.lk.Some? ==> s.lk.value in s.pc)
    && (s.pt.Proc? ==> s.pt.p in s.pc)
    && (if s.locked then s.pid in s.pc else s.pid == 0)
  }

  ghost predicate Init(s: State) {
    && s.lk.None? && s.pt.Free? && !s.locked && s.pid == 0
    && forall p :: p in s.pc ==> p != 0 && s.pc[p] == Idle
  }

  /** The steps of acquiresleep outside of sleep, and the holder's own. */
  lemma AcquiringKeepsInv(s: State, p: nat)
    requires Inv(s) && p in s.pc && RunStep(s, p).Some?
    requires s.pc[p] in {Idle, Acquire, Test, Take, Leave, Holder}
    ensures Inv(RunStep(s, p).value)
  {
    var t := RunStep(s, p).value;
    assert GoodProc(s, p, s.pc[p]);
    forall q | q in t.pc ensures GoodProc(t, q, t.pc[q]) {
      assert GoodProc(s, q, s.pc[q]);
    }
  }

  lemma SleepingKeepsInv(s: State, p: nat)
    requires Inv(s) && p in s.pc && RunStep(s, p).Some?
    requires s.pc[p] in {SleepEnter, SleepSwap, SleepCommit, Resume, Reacquire}
    ensures Inv(RunStep(s, p).value)
  {
    var t := RunStep(s, p).value;
    assert GoodProc(s, p, s.pc[p]);
    forall q | q in t.pc ensures GoodProc(t, q, t.pc[q]) {
      assert GoodProc(s, q, s.pc[q]);
    }
  }

  lemma ReleasingKeepsInv(s: State, p: nat)
    requires Inv(s) && p in s.pc && RunStep(s, p).Some?
    requires s.pc[p] in {Release, Clear, WakeEnter}
    ensures Inv(RunStep(s, p).value)
  {
    var t := RunStep(s, p).value;
    assert GoodProc(s, p, s.pc[p]);
    forall q | q in t.pc ensures GoodProc(t, q, t.pc[q]) {
      assert GoodProc(s, q, s.pc[q]);
    }
  }

  lemma WakingKeepsInv(s: State, p: nat)
    requires Inv(s) && p in s.pc && RunStep(s, p).Some?
    requires s.pc[p] in {Wake, WakeLeave, Finish}
    ensures Inv(RunStep(s, p).value)
  {
    var t := RunStep(s, p).value;
    assert GoodProc(s, p, s.pc[p]);
    forall q | q in t.pc ensures GoodProc(t, q, t.pc[q]) {
      assert GoodProc(s, q, s.pc[q]);
    }
  }

  lemma StepKeepsInv(s: State, step: Step)
    requires Inv(s) && Next(s, step).Some?
    ensures Inv(Next(s, step).value)
  {
    var t := Next(s, step).value;
    if step.Run? {
      hide Inv;
      if s.pc[step.p] in {Idle, Acquire, Test, Take, Leave, Holder} {
        AcquiringKeepsInv(s, step.p);
      } else if s.pc[step.p] in {SleepEnter, SleepSwap, SleepCommit, Resume, Reacquire} {
        SleepingKeepsInv(s, step.p);
      } else if s.pc[step.p] in {Release, Clear, WakeEnter} {
        ReleasingKeepsInv(s, step.p);
      } else {
        WakingKeepsInv(s, step.p);
      }
    } else {
      forall q | q in t.pc ensures GoodProc(t, q, t.pc[q]) {
        assert GoodProc(s, q, s.pc[q]);
      }
    }
  }

  /** A run: each state follows from the one before by an enabled step. */
  ghost predicate IsRun(run: seq<State>) {
    && run != [] && Init(run[0])
    && forall i, j :: 0 <= i < j < |run| && j == i + 1 ==> exists step :: Next(run[i], step) == Some(run[j])
  }

  lemma {:induction false} RunsKeepInv(run: seq<State>, i: nat)
    requires IsRun(run) && i < |run|
    ensures Inv(run[i])
  {
    if i > 0 {
      RunsKeepInv(run, i - 1);
      var step :| Next(run[i - 1], step) == Some(run[i]);
      StepKeepsInv(run[i - 1], step);
    }
  }

  /** In every interleaving at most one process holds the lock, and holdingsleep says
      which one. */
  lemma MutualExclusion(run: seq<State>, i: nat, p: nat, q: nat)
    requires IsRun(run) && i < |run| && p in run[i].pc && q in run[i].pc
    ensures run[i].pc[p] == Holder && run[i].pc[q] == Holder ==> p == q
    ensures run[i].pc[p] == Holder ==> HoldingSleep(run[i], p)
    ensures HoldingSleep(run[i], p) ==> Owns(run[i].pc[p])
  {
    RunsKeepInv(run, i);
    assert GoodProc(run[i], p, run[i].pc[p]) && GoodProc(run[i], q, run[i].pc[q]);
  }

  /** No wakeup is lost: whenever neither spinlock is held, no process sleeps on a
      lock that is free. */
  lemma NoLostWakeup(run: seq<State>, i: nat, p: nat)
    requires IsRun(run) && i < |run| && p in run[i].pc
    requires run[i].lk.None? && run[i].pt.Free?
    ensures run[i].pc[p] == Asleep ==> run[i].locked && run[i].pid in run[i].pc && Owns(run[i].pc[run[i].pid])
  {
    RunsKeepInv(run, i);
    assert GoodProc(run[i], p, run[i].pc[p]);
    if run[i].pid in run[i].pc {
      assert GoodProc(run[i], run[i].pid, run[i].pc[run[i].pid]);
    }
  }

  // ---------------------------------------------------------------------------
  // What the two calls do

  predicate InAcquire(c: PC) {
    || c.Acquire? || c.Test? || c.SleepEnter? || c.SleepSwap? || c.SleepCommit? || c.Asleep? || c.Runnable?
    || c.Resume? || c.Reacquire? || c.Take? || c.Leave?
  }

  predicate InRelease(c: PC) {
    c.Release? || c.Clear? || c.WakeEnter? || c.Wake? || c.WakeLeave? || c.Finish?
  }

  /** Others move a process only when they wake it or switch to it. */
  lemma MovedByOthers(s: State, step: Step, p: nat)
    requires Next(s, step).Some? && p in s.pc && step != Run(p)
    ensures var t := Next(s, step).value;
            && p in t.pc
            && (t.pc[p] == s.pc[p] || (s.pc[p] == Asleep && t.pc[p] == Runnable)
                || (s.pc[p] == Runnable && t.pc[p] == Resume))
  {}

  /** How a process enters and leaves the two calls. */
  lemma StepReturns(s: State, step: Step, p: nat)
    requires Next(s, step).Some? && p in s.pc
    ensures var t := Next(s, step).value;
            && p in t.pc
            && (InAcquire(s.pc[p]) && !InAcquire(t.pc[p]) ==> t.pc[p] == Holder)
            && (InRelease(s.pc[p]) && !InRelease(t.pc[p]) ==> t.pc[p] == Idle)
            && (s.pc[p] == Holder && t.pc[p] != Holder ==> InRelease(t.pc[p]))
            && (s.pc[p] == Idle && t.pc[p] != Idle ==> InAcquire(t.pc[p]))
            && (s.pc[p] != Acquire && t.pc[p] == Acquire ==> s.pc[p] == Idle)
  {
    if step != Run(p) {
      hide Next;
      MovedByOthers(s, step, p);
    }
  }

  /** acquiresleep returns with the lock, and releasesleep without it. */
  lemma CallsReturn(run: seq<State>, i: nat, p: nat)
    requires IsRun(run) && i + 1 < |run| && p in run[i].pc
    ensures p in run[i + 1].pc
    ensures InAcquire(run[i].pc[p]) && !InAcquire(run[i + 1].pc[p]) ==>
              run[i + 1].pc[p] == Holder && HoldingSleep(run[i + 1], p)
    ensures InRelease(run[i].pc[p]) && !InRelease(run[i + 1].pc[p]) ==>
              run[i + 1].pc[p] == Idle && !HoldingSleep(run[i + 1], p)
    ensures run[i].pc[p] == Holder && run[i + 1].pc[p] != Holder ==> InRelease(run[i + 1].pc[p])
    ensures run[i].pc[p] == Idle && run[i + 1].pc[p] != Idle ==> InAcquire(run[i + 1].pc[p])
    ensures run[i].pc[p] != Acquire && run[i + 1].pc[p] == Acquire ==> run[i].pc[p] == Idle
  {
    hide Next, InAcquire, InRelease;
    RunsKeepInv(run, i + 1);
    var step :| Next(run[i], step) == Some(run[i + 1]);
    StepReturns(run[i], step, p);
    assert GoodProc(run[i + 1], p, run[i + 1].pc[p]);
  }

  /** The state after some steps, if all are enabled. */
  function Exec(s: State, steps: seq<Step>): (t: Option<State>)
    ensures t.Some? ==> t.value.pc.Keys == s.pc.Keys
    decreases |steps|
  {
    if steps == [] then Some(s)
    else if Next(s, steps[0]).None? then None
    else Exec(Next(s, steps[0]).value, steps[1..])
  }

  lemma {:induction false} ExecJoin(s: State, a: seq<Step>, b: seq<Step>)
    requires Exec(s, a).Some?
    ensures Exec(s, a + b) == Exec(Exec(s, a).value, b)
    decreases |a|
  {
    if a == [] {
      assert a + b == b;
    } else {
      assert (a + b)[0] == a[0] && (a + b)[1..] == a[1..] + b;
      ExecJoin(Next(s, a[0]).value, a[1..], b);
    }
  }

  lemma {:induction false} ExecKeepsInv(s: State, steps: seq<Step>)
    requires Inv(s) && Exec(s, steps).Some?
    ensures Inv(Exec(s, steps).value)
    decreases |steps|
  {
    if steps != [] {
      StepKeepsInv(s, steps[0]);
      ExecKeepsInv(Next(s, steps[0]).value, steps[1..]);
    }
  }

  /** With the lock free and nobody in the way, a process acquires it by its own steps. */
  lemma AcquiresAlone(s: State, p: nat) returns (steps: seq<Step>)
    requires p in s.pc && s.pc[p] == Acquire && s.lk.None? && !s.locked
    ensures forall k :: 0 <= k < |steps| ==> steps[k] == Run(p)
    ensures var t := Exec(s, steps); t.Some? && t.value.pc[p] == Holder && HoldingSleep(t.value, p)
    ensures Exec(s, steps).value.lk.None?
    ensures forall q :: q in s.pc && q != p ==> Exec(s, steps).value.pc[q] == s.pc[q]
  {
    var s1 := Next(s, Run(p)).value;
    var s2 := Next(s1, Run(p)).value;
    var s3 := Next(s2, Run(p)).value;
    var s4 := Next(s3, Run(p)).value;
    assert Exec(s3, [Run(p)]) == Some(s4);
    assert Exec(s2, [Run(p), Run(p)]) == Some(s4) by { assert [Run(p), Run(p)][1..] == [Run(p)]; }
    assert Exec(s1, [Run(p), Run(p), Run(p)]) == Some(s4) by {
      assert [Run(p), Run(p), Run(p)][1..] == [Run(p), Run(p)];
    }
    steps := [Run(p), Run(p), Run(p), Run(p)];
    assert steps[1..] == [Run(p), Run(p), Run(p)];
  }

  lemma One(s: State, step: Step)
    ensures Exec(s, [step]) == Next(s, step)
  {}

  lemma Two(s: State, a: Step, b: Step, t: State)
    requires Next(s, a).Some? && Next(Next(s, a).value, b) == Some(t)
    ensures Exec(s, [a, b]) == Some(t)
  {
    assert [a, b][1..] == [b];
    assert Exec(Next(s, a).value, [b]) == Some(t);
  }

  /** With the lock held, it goes to sleep instead, with both spinlocks given up, ptable.lock to
      the scheduler. */
  lemma SleepsAlone(s: State, p: nat) returns (steps: seq<Step>)
    requires p in s.pc && s.pc[p] == Acquire && s.lk.None? && s.pt.Free? && s.locked
    ensures forall k :: 0 <= k < |steps| ==> steps[k] == Run(p)
    ensures Exec(s, steps) == Some(s.(pt := Other, pc := s.pc[p := Asleep]))
  {
    var r := Run(p);
    var s1 := Next(s, r).value;
    var s2 := Next(s1, r).value;
    var s3 := Next(s2, r).value;
    var s4 := Next(s3, r).value;
    var t := s.(pt := Other, pc := s.pc[p := Asleep]);
    assert Next(s4, r).value.pc == t.pc;
    assert Next(s4, r) == Some(t);
    Two(s, r, r, s2);
    Two(s2, r, r, s4);
    ExecJoin(s, [r, r], [r, r]);
    One(s4, r);
    ExecJoin(s, [r, r] + [r, r], [r]);
    steps := [r, r] + [r, r] + [r];
  }

  /** A sleeper is woken by a releasesleep that holds lk, or by kill, and by nothing else. */
  lemma WokenBy(s: State, step: Step, p: nat)
    requires Inv(s) && Next(s, step).Some? && p in s.pc && s.pc[p] == Asleep
    ensures s.pt.Free? ==> Next(s, Kill(p)).Some? && Next(s, Kill(p)).value.pc == s.pc[p := Runnable]
    ensures var t := Next(s, step).value;
            && p in t.pc
            && (t.pc[p] != Asleep ==>
                  && t.pc[p] == Runnable
                  && (step == Kill(p) ||
                      (step.Run? && s.lk == Some(step.p) && step.p in s.pc && InRelease(s.pc[step.p]))))
  {
    if step.Run? {
      assert GoodProc(s, step.p, s.pc[step.p]);
    }
  }

  // ---------------------------------------------------------------------------
  // No deadlock: from every state of every run, every process can get the lock

  /** How far a process is from being idle.  A test of a held lock leads to sleep. */
  function Rank(c: PC, locked: bool): nat {
    match c
    case Idle => 0
    case Finish => 1
    case WakeLeave => 2
    case Wake => 3
    case WakeEnter => 4
    case Clear => 5
    case Release => 6
    case Holder => 7
    case Leave => 8
    case Take => 9
    case Test => if locked then 20 else 10
    case Acquire => 11
    case Reacquire => 11
    case Resume => 12
    case Runnable => 13
    case Asleep => 14
    case SleepCommit => 16
    case SleepSwap => 17
    case SleepEnter => 18
  }

  ghost function Total(pc: map<nat, PC>, locked: bool, ps: set<nat>): nat
    requires ps <= pc.Keys
  {
    if ps == {} then 0 else var p :| p in ps; Rank(pc[p], locked) + Total(pc, locked, ps - {p})
  }

  ghost function Distance(s: State): nat {
    Total(s.pc, s.locked, s.pc.Keys) + if s.pt.Other? then 1 else 0
  }

  lemma {:induction false} TotalWith(pc: map<nat, PC>, locked: bool, ps: set<nat>, p: nat)
    requires ps <= pc.Keys && p in ps
    ensures Total(pc, locked, ps) == Rank(pc[p], locked) + Total(pc, locked, ps - {p})
    decreases ps
  {
    var q :| q in ps && Total(pc, locked, ps) == Rank(pc[q], locked) + Total(pc, locked, ps - {q});
    if q != p {
      TotalWith(pc, locked, ps - {q}, p);
      TotalWith(pc, locked, ps - {p}, q);
      assert ps - {p} - {q} == ps - {q} - {p};
    }
  }

  /** Processes that come no further from idle keep the total from growing. */
  lemma {:induction false} TotalLess(pc: map<nat, PC>, locked: bool, qc: map<nat, PC>, held: bool, ps: set<nat>)
    requires ps <= pc.Keys && ps <= qc.Keys
    requires forall q :: q in ps ==> Rank(qc[q], held) <= Rank(pc[q], locked)
    ensures Total(qc, held, ps) <= Total(pc, locked, ps)
    decreases ps
  {
    if ps != {} {
      var q :| q in ps && Total(pc, locked, ps) == Rank(pc[q], locked) + Total(pc, locked, ps - {q});
      TotalWith(qc, held, ps, q);
      TotalLess(pc, locked, qc, held, ps - {q});
    }
  }

  /** So does a step that brings p nearer. */
  lemma Nearer(s: State, t: State, p: nat, n: nat)
    requires p in s.pc && t.pc.Keys == s.pc.Keys
    requires Rank(t.pc[p], t.locked) + n <= Rank(s.pc[p], s.locked)
    requires forall q :: q in s.pc && q != p ==> Rank(t.pc[q], t.locked) <= Rank(s.pc[q], s.locked)
    ensures Total(t.pc, t.locked, t.pc.Keys) + n <= Total(s.pc, s.locked, s.pc.Keys)
  {
    TotalWith(s.pc, s.locked, s.pc.Keys, p);
    TotalWith(t.pc, t.locked, t.pc.Keys, p);
    TotalLess(s.pc, s.locked, t.pc, t.locked, s.pc.Keys - {p});
  }

  lemma OwnRank(s: State, p: nat)
    requires p in s.pc && s.pc[p] != Idle && RunStep(s, p).Some?
    requires s.locked ==> s.pc[p] != Acquire && s.pc[p] != Reacquire
    requires s.pc[p] == Take ==> !s.locked
    ensures var t := RunStep(s, p).value;
            && t.pc.Keys == s.pc.Keys
            && Rank(t.pc[p], t.locked) + (if t.pt.Other? && !s.pt.Other? then 2 else 1) <= Rank(s.pc[p], s.locked)
  {}

  lemma OthersRank(s: State, p: nat, q: nat)
    requires Inv(s) && p in s.pc && q in s.pc && q != p && RunStep(s, p).Some?
    ensures var t := RunStep(s, p).value; q in t.pc && Rank(t.pc[q], t.locked) <= Rank(s.pc[q], s.locked)
  {
    hide Rank;
    assert GoodProc(s, p, s.pc[p]) && GoodProc(s, q, s.pc[q]);
    var t := RunStep(s, p).value;
    if s.pc[p] == Take {
      RankIs(s.pc[q]);
    } else if s.pc[p] == Clear {
      RankIs(s.pc[q]);
    } else if s.pc[p] == Wake {
      RankIs(s.pc[q]);
    } else {
      assert t.pc[q] == s.pc[q] && t.locked == s.locked;
    }
  }

  lemma RankIs(c: PC)
    ensures Rank(c, false) <= Rank(c, true) && (c != Test ==> Rank(c, true) == Rank(c, false))
    ensures forall l :: Rank(Runnable, l) <= Rank(Asleep, l)
  {}

  /** A step of a process in a call, or of the holder, brings it nearer, unless it is to test a
      lock that is held. */
  lemma RunNearer(s: State, p: nat)
    requires Inv(s) && p in s.pc && s.pc[p] != Idle && RunStep(s, p).Some?
    requires s.locked ==> s.pc[p] != Acquire && s.pc[p] != Reacquire
    ensures Distance(RunStep(s, p).value) < Distance(s)
  {
    var t := RunStep(s, p).value;
    assert GoodProc(s, p, s.pc[p]);
    hide Inv, RunStep, Rank;
    OwnRank(s, p);
    forall q | q in s.pc && q != p ensures Rank(t.pc[q], t.locked) <= Rank(s.pc[q], s.locked) {
      OthersRank(s, p, q);
    }
    Nearer(s, t, p, if t.pt.Other? && !s.pt.Other? then 2 else 1);
  }

  /** Who holds a spinlock can go on, once whoever holds ptable.lock has. */
  lemma UnblockNearer(s: State, p: nat) returns (step: Step)
    requires Inv(s) && p in s.pc && (s.lk == Some(p) || s.pt == Proc(p))
    ensures Next(s, step).Some? && Distance(Next(s, step).value) < Distance(s)
  {
    assert GoodProc(s, p, s.pc[p]);
    if RunStep(s, p).Some? {
      step := Run(p);
      RunNearer(s, p);
    } else if s.pt.Other? {
      step := DropPt;
    } else {
      assert GoodProc(s, s.pt.p, s.pc[s.pt.p]);
      step := Run(s.pt.p);
      RunNearer(s, s.pt.p);
    }
  }

  /** A process that was woken is switched to. */
  lemma DispatchNearer(s: State, p: nat) returns (steps: seq<Step>)
    requires Inv(s) && p in s.pc && s.pc[p] == Runnable && !s.pt.Proc?
    ensures Exec(s, steps).Some? && Distance(Exec(s, steps).value) < Distance(s)
  {
    var u := s.(pt := Other);
    var t := Next(u, Dispatch(p)).value;
    Nearer(s, t, p, 1);
    One(u, Dispatch(p));
    if s.pt.Other? {
      steps := [Dispatch(p)];
      assert u == s;
    } else {
      steps := [TakePt, Dispatch(p)];
      assert Next(s, TakePt) == Some(u) && steps[1..] == [Dispatch(p)];
    }
  }

  lemma StepNearer(s: State) returns (steps: seq<Step>)
    requires Inv(s) && !Init(s)
    ensures Exec(s, steps).Some? && Distance(Exec(s, steps).value) < Distance(s)
  {
    hide Distance, Exec;
    if s.lk.Some? || s.pt.Proc? {
      var step := UnblockNearer(s, if s.lk.Some? then s.lk.value else s.pt.p);
      One(s, step);
      steps := [step];
    } else if s.locked {
      assert GoodProc(s, s.pid, s.pc[s.pid]);
      One(s, Run(s.pid));
      RunNearer(s, s.pid);
      steps := [Run(s.pid)];
    } else if p :| p in s.pc && s.pc[p] != Idle {
      assert GoodProc(s, p, s.pc[p]);
      if s.pc[p] == Runnable {
        steps := DispatchNearer(s, p);
      } else {
        One(s, Run(p));
        RunNearer(s, p);
        steps := [Run(p)];
      }
    } else {
      assert s.pt.Other?;
      One(s, DropPt);
      steps := [DropPt];
      DropNearer(s);
    }
  }

  lemma DropNearer(s: State)
    requires s.pt.Other?
    ensures Next(s, DropPt).Some? && Distance(Next(s, DropPt).value) < Distance(s)
  {}

  /** Every state can be brought back to the initial one. */
  lemma {:induction false} CanSettle(s: State) returns (steps: seq<Step>)
    requires Inv(s)
    ensures Exec(s, steps).Some? && Init(Exec(s, steps).value)
    decreases Distance(s)
  {
    hide Inv, Init, Distance;
    steps := [];
    if !Init(s) {
      var first := StepNearer(s);
      ExecKeepsInv(s, first);
      var rest := CanSettle(Exec(s, first).value);
      ExecJoin(s, first, rest);
      steps := first + rest;
    }
  }

  /** No deadlock: at every point of every run every process can still get the lock. */
  lemma CanAcquire(run: seq<State>, i: nat, p: nat) returns (steps: seq<Step>)
    requires IsRun(run) && i < |run| && p in run[i].pc
    ensures var t := Exec(run[i], steps); t.Some? && t.value.pc[p] == Holder && HoldingSleep(t.value, p)
  {
    hide Exec;
    RunsKeepInv(run, i);
    var back := CanSettle(run[i]);
    var s := Exec(run[i], back).value;
    One(s, Run(p));
    var t := Exec(s, [Run(p)]).value;
    var own := AcquiresAlone(t, p);
    ExecJoin(s, [Run(p)], own);
    ExecJoin(run[i], back, [Run(p)] + own);
    steps := back + ([Run(p)] + own);
  }
}
