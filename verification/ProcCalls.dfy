/** What the calls of proc.c leave, in every run: each lemma is about the step that decides the outcome of a
    call, from a state that some run reaches. */
module ProcCalls {
  import opened Common
  import opened ProcMachine
  import opened ProcInvariant
  import opened ProcTheorems

  /** After the run CPU `c` is about to take the next step of process `p`, at `pc`. */
  ghost predicate About(s: State, init: nat, run: seq<Event>, c: nat, p: nat, pc: Pc) {
    && Booted(s, init) && ValidRun(s, init, run)
    && var t := Last(s, init, run);
       On(t, c, p) && t.cpus[c].pc == pc && Enabled(t, init, c, Step)
  }

  ghost function Next(s: State, init: nat, run: seq<Event>, c: nat): State
    requires Enabled(Last(s, init, run), init, c, Step)
  {
    Do(Last(s, init, run), init, c, Step)
  }

  /** Only entry `q` of the table may differ. */
  ghost predicate OnlyEntry(t: seq<Proc>, u: seq<Proc>, q: nat) {
    q < |t| == |u| && forall j :: 0 <= j < |t| && j != q ==> u[j] == t[j]
  }

  ghost predicate HasChild(t: seq<Proc>, p: nat) {
    exists j :: 0 <= j < |t| && t[j].parent == Some(p)
  }

  lemma Reached(s: State, init: nat, run: seq<Event>, c: nat, p: nat, pc: Pc)
    requires About(s, init, run, c, p, pc)
    ensures var t := Last(s, init, run);
            && Inv(t, init) && p < |t.procs| && PcOk(t.procs, init, pc, p) && HeldOk(t.cpus[c]) && LocksOk(t)
            && PidsOk(t) && TableOk(t.procs, init)
  {
    hide Booted, ValidRun, LocksOk, PidsOk, TableOk, PcOk, HeldOk, Exclusive, WaitsOk;
    RunKeeps(s, init, run);
    CurrentState(Last(s, init, run), init, c, p);
  }

  // ----- wait -----

  /** At the end of its scan wait gives up, with nothing changed, exactly if the process has no children or was
      killed; otherwise it goes to sleep on its own address, still under the lock. */
  lemma WaitExactly(s: State, init: nat, run: seq<Event>, c: nat, p: nat, i: nat, havekids: bool)
    requires About(s, init, run, c, p, WaitScan(i, havekids)) && i >= |Last(s, init, run).procs|
    ensures var t, u := Last(s, init, run), Next(s, init, run, c);
            && p < |t.procs| && c < |u.cpus| && u.reaped == t.reaped && Holding(u, c, PTABLE)
            && (u.cpus[c].pc == Release <==> !HasChild(t.procs, p) || t.procs[p].killed)
            && (u.cpus[c].pc == Release ==> u.procs == t.procs)
            && (u.cpus[c].pc != Release ==>
                  && u.cpus[c].pc == Sched(AtWait) && OnlyEntry(t.procs, u.procs, p)
                  && AsleepInWait(u.procs, p))
  {
    hide Booted, ValidRun, PidsOk, TableOk;
    Reached(s, init, run, c, p, WaitScan(i, havekids));
    var t := Last(s, init, run).procs;
    assert ChildBelow(t, i, p) <==> HasChild(t, p) by {
      if HasChild(t, p) {
        var j :| 0 <= j < |t| && t[j].parent == Some(p);
        assert j < i;
      }
    }
  }

  /** During the scan it stops at a zombie child, which it returns and clears, and passes by any other entry. */
  lemma WaitScans(s: State, init: nat, run: seq<Event>, c: nat, p: nat, i: nat, havekids: bool)
    requires About(s, init, run, c, p, WaitScan(i, havekids)) && i < |Last(s, init, run).procs|
    ensures var t, u := Last(s, init, run), Next(s, init, run, c);
            && c < |u.cpus|
            && (if HasZombie(t.procs, i, p) then
                  && u.cpus[c].pc == Release && u.reaped == t.reaped + {t.procs[i].pid}
                  && t.procs[i].pid !in t.reaped && OnlyEntry(t.procs, u.procs, i)
                  && u.procs[i].state == UNUSED && u.procs[i].parent == None && u.procs[i].pid == 0
                  && !u.procs[i].killed
                else u.procs == t.procs && u.reaped == t.reaped && u.cpus[c].pc.WaitScan? && u.cpus[c].pc.i == i + 1)
  {
    hide Booted, ValidRun, TableOk, LocksOk;
    Reached(s, init, run, c, p, WaitScan(i, havekids));
  }

  // ----- exit -----

  /** A child met in exit's loop becomes init's, which is woken for a zombie. */
  lemma ExitPassesOn(s: State, init: nat, run: seq<Event>, c: nat, p: nat, i: nat)
    requires About(s, init, run, c, p, ExitAdopt(i)) && i < |Last(s, init, run).procs|
    ensures var t, u := Last(s, init, run).procs, Next(s, init, run, c).procs;
            && |u| == |t|
            && u[i].parent == (if t[i].parent == Some(p) then Some(init) else t[i].parent)
            && (forall j :: 0 <= j < |t| && j != i ==> u[j].parent == t[j].parent)
            && (forall j :: 0 <= j < |t| ==>
                  && u[j] == t[j].(parent := u[j].parent, state := u[j].state)
                  && u[j].state == if HasZombie(t, i, p) && t[j].state == SLEEPING && t[j].chan == OfProc(init)
                                   then RUNNABLE else t[j].state)
            && (HasZombie(t, i, p) ==> !AsleepInWait(u, init))
  {
    hide Booted, ValidRun, TableOk, LocksOk, PidsOk;
    Reached(s, init, run, c, p, ExitAdopt(i));
  }

  /** At the end of exit the process is a zombie for its parent to find, and has no children. */
  lemma ExitEnds(s: State, init: nat, run: seq<Event>, c: nat, p: nat, i: nat)
    requires About(s, init, run, c, p, ExitAdopt(i)) && i >= |Last(s, init, run).procs|
    ensures var t, u := Last(s, init, run), Next(s, init, run, c);
            && OnlyEntry(t.procs, u.procs, p) && u.procs[p].state == ZOMBIE && u.procs[p].parent == t.procs[p].parent
            && u.procs[p].pid == t.procs[p].pid && u.exited == t.exited + {t.procs[p].pid}
            && !HasChild(u.procs, p) && t.procs[p].parent.Some? && !AsleepInWait(u.procs, t.procs[p].parent.value)
            && c < |u.cpus| && u.cpus[c].pc == Sched(AtZombie)
  {
    hide Booted, ValidRun, LocksOk, PidsOk;
    Reached(s, init, run, c, p, ExitAdopt(i));
    assert ProcOk(Last(s, init, run).procs, init, p);
  }

  // ----- kill -----

  /** kill marks the first entry with the pid and makes it runnable if it sleeps; nothing else changes. */
  lemma KillMarks(s: State, init: nat, run: seq<Event>, c: nat, p: nat, pid: int, q: nat)
    requires About(s, init, run, c, p, KillSet(pid))
    requires var t := Last(s, init, run).procs;
             q < |t| && t[q].pid == pid && forall j :: 0 <= j < q ==> t[j].pid != pid
    ensures var t, u := Last(s, init, run).procs, Next(s, init, run, c).procs;
            && OnlyEntry(t, u, q) && u[q].killed && u[q].pid == pid && u[q].parent == t[q].parent
            && u[q].state == if t[q].state == SLEEPING then RUNNABLE else t[q].state
  {
    var t := Last(s, init, run);
    assert HasPid(t, q, pid);
    assert forall x: nat :: HasPid(t, x, pid) ==> x == q;
  }

  lemma KillMisses(s: State, init: nat, run: seq<Event>, c: nat, p: nat, pid: int)
    requires About(s, init, run, c, p, KillSet(pid))
    requires forall j :: 0 <= j < |Last(s, init, run).procs| ==> Last(s, init, run).procs[j].pid != pid
    ensures Next(s, init, run, c).procs == Last(s, init, run).procs
  {
    assert forall x: nat :: !HasPid(Last(s, init, run), x, pid);
  }

  // ----- fork -----

  /** fork takes the first unused entry, with a pid that no process has or had, and fails exactly without one. */
  lemma ForkTakes(s: State, init: nat, run: seq<Event>, c: nat, p: nat, q: nat)
    requires About(s, init, run, c, p, ForkFind)
    requires var t := Last(s, init, run).procs;
             q < |t| && t[q].state == UNUSED && forall j :: 0 <= j < q ==> t[j].state != UNUSED
    ensures var t, u := Last(s, init, run), Next(s, init, run, c);
            && OnlyEntry(t.procs, u.procs, q) && u.procs[q].state == EMBRYO
            && c < |u.cpus| && u.cpus[c].pc == ForkGot(q)
            && u.procs[q].pid < u.nextpid && u.procs[q].pid !in t.exited + t.reaped
            && (forall j :: 0 <= j < |t.procs| && t.procs[j].state != UNUSED ==> t.procs[j].pid < u.procs[q].pid)
  {
    hide Booted, ValidRun, TableOk, LocksOk;
    Reached(s, init, run, c, p, ForkFind);
    var t := Last(s, init, run);
    assert FirstUnused(t, q);
    assert forall x: nat :: FirstUnused(t, x) ==> x == q;
  }

  lemma ForkFails(s: State, init: nat, run: seq<Event>, c: nat, p: nat)
    requires About(s, init, run, c, p, ForkFind)
    requires forall j :: 0 <= j < |Last(s, init, run).procs| ==> Last(s, init, run).procs[j].state != UNUSED
    ensures var t, u := Last(s, init, run), Next(s, init, run, c);
            u.procs == t.procs && u.nextpid == t.nextpid && c < |u.cpus| && u.cpus[c].pc == Release
  {
    assert forall x: nat :: !FirstUnused(Last(s, init, run), x);
  }

  /** When fork returns, the child is runnable, is the caller's, and will start in forkret. */
  lemma ForkMakes(s: State, init: nat, run: seq<Event>, c: nat, p: nat, q: nat)
    requires About(s, init, run, c, p, ForkReady(q))
    ensures var t, u := Last(s, init, run).procs, Next(s, init, run, c).procs;
            && q != p && OnlyEntry(t, u, q) && u[q].state == RUNNABLE && u[q].parent == Some(p)
            && u[q].resume == AtForkret && u[q].pid == t[q].pid > 0
            && c < |Next(s, init, run, c).cpus| && Next(s, init, run, c).cpus[c].pc == Kernel
  {
    hide Booted, ValidRun, TableOk, LocksOk;
    Reached(s, init, run, c, p, ForkReady(q));
  }

  // ----- yield, sleep and wakeup -----

  lemma YieldIsRunnable(s: State, init: nat, run: seq<Event>, c: nat, p: nat)
    requires About(s, init, run, c, p, YieldSet)
    ensures var t, u := Last(s, init, run), Next(s, init, run, c);
            && OnlyEntry(t.procs, u.procs, p) && u.procs[p].state == RUNNABLE && c < |u.cpus|
            && u.cpus[c].pc == Sched(AtYield) && Holding(u, c, PTABLE)
  {
    hide Booted, ValidRun, TableOk, PidsOk;
    Reached(s, init, run, c, p, YieldSet);
  }

  /** sleep gives up its lock only under the table lock, and then sleeps on its channel. */
  lemma SleepSleeps(s: State, init: nat, run: seq<Event>, c: nat, p: nat, chan: Chan, lk: nat)
    requires About(s, init, run, c, p, SleepSet(chan, lk))
    ensures var t, u := Last(s, init, run), Next(s, init, run, c);
            && OnlyEntry(t.procs, u.procs, p) && u.procs[p].state == SLEEPING && u.procs[p].chan == chan
            && c < |u.cpus| && u.cpus[c].pc == Sched(AtSleep(lk)) && Holding(u, c, PTABLE) && !Holding(u, c, lk)
  {
    hide Booted, ValidRun, TableOk, PidsOk;
    Reached(s, init, run, c, p, SleepSet(chan, lk));
  }

  /** When sleep returns, its lock is held again and no other, and the process is on no channel. */
  lemma SleepReturns(s: State, init: nat, run: seq<Event>, c: nat, p: nat, lk: nat)
    requires About(s, init, run, c, p, SleepReacquire(lk))
    ensures var u := Next(s, init, run, c);
            && c < |u.cpus| && u.cpus[c].pc == Kernel && Holding(u, c, lk) && u.cpus[c].held == {lk}
            && u.procs == Last(s, init, run).procs
  {
    hide Booted, ValidRun, TableOk, PidsOk;
    Reached(s, init, run, c, p, SleepReacquire(lk));
  }

  lemma SleepClears(s: State, init: nat, run: seq<Event>, c: nat, p: nat, lk: nat)
    requires About(s, init, run, c, p, SleepBack(lk))
    ensures var t, u := Last(s, init, run), Next(s, init, run, c);
            && OnlyEntry(t.procs, u.procs, p) && u.procs[p].chan == NoChan && u.procs[p].state == RUNNING
            && c < |u.cpus| && u.cpus[c].pc == SleepRelease(lk)
  {
    hide Booted, ValidRun, TableOk, PidsOk;
    Reached(s, init, run, c, p, SleepBack(lk));
  }

  /** wakeup makes runnable exactly those asleep on its channel. */
  lemma WakeupWakes(s: State, init: nat, run: seq<Event>, c: nat, p: nat, chan: Chan)
    requires About(s, init, run, c, p, WakeSet(chan))
    ensures var t, u := Last(s, init, run).procs, Next(s, init, run, c).procs;
            && |u| == |t|
            && forall q :: 0 <= q < |t| ==>
                 u[q] == if t[q].state == SLEEPING && t[q].chan == chan then t[q].(state := RUNNABLE) else t[q]
  {
  }

  // ----- The scheduler -----

  /** A process goes on where it stopped: after fork in forkret, after yield, in sleep or in wait. */
  lemma GoesOn(s: State, init: nat, run: seq<Event>, c: nat, p: nat)
    requires Booted(s, init) && ValidRun(s, init, run)
    requires var t := Last(s, init, run);
             c < |t.cpus| && t.cpus[c].pc == Picked && t.cpus[c].proc == Some(p) && Enabled(t, init, c, Step)
    ensures var t, u := Last(s, init, run), Next(s, init, run, c);
            && p < |t.procs| && c < |u.cpus| && u.procs == t.procs && u.cpus[c].proc == Some(p)
            && t.procs[p].resume != AtZombie
            && (t.procs[p].resume == AtForkret ==> u.cpus[c].pc == ForkretRelease)
            && (t.procs[p].resume == AtYield ==> u.cpus[c].pc == YieldBack)
            && (t.procs[p].resume.AtSleep? ==> u.cpus[c].pc == SleepBack(t.procs[p].resume.lk))
            && (t.procs[p].resume == AtWait ==> u.cpus[c].pc == WaitBack)
  {
    hide Booted, ValidRun, LocksOk, PidsOk, Exclusive;
    RunKeeps(s, init, run);
    SwitchKeeps(Last(s, init, run), init, c);
  }

  /** sched records where the process stopped. */
  lemma StopsThere(s: State, init: nat, run: seq<Event>, c: nat, p: nat, r: Resume)
    requires About(s, init, run, c, p, Sched(r))
    ensures var t, u := Last(s, init, run), Next(s, init, run, c);
            && OnlyEntry(t.procs, u.procs, p) && u.procs[p] == t.procs[p].(resume := r)
            && c < |u.cpus| && u.cpus[c].pc == Back
  {
    hide Booted, ValidRun, TableOk, PidsOk, LocksOk;
    Reached(s, init, run, c, p, Sched(r));
  }

  // ----- Entering and leaving -----

  /** Each call takes the table lock and starts at its first point, with its own arguments. */
  lemma CallsEnter(s: State, init: nat, run: seq<Event>, c: nat, p: nat, a: Act)
    requires Booted(s, init) && ValidRun(s, init, run) && On(Last(s, init, run), c, p)
    requires Enabled(Last(s, init, run), init, c, a) && Last(s, init, run).cpus[c].pc == Kernel
    requires !a.Acquire? && !a.Drop?
    ensures var t, u := Last(s, init, run), Do(Last(s, init, run), init, c, a);
            && c < |u.cpus| && u.procs == t.procs && u.cpus[c].proc == Some(p)
            && Holding(u, c, PTABLE) && u.cpus[c].held == t.cpus[c].held + {PTABLE}
            && (forall id, lk :: a == CallSleep(id, lk) ==> u.cpus[c].pc == SleepDrop(Other(id), lk))
            && (forall id :: a == CallWakeup(id) ==> u.cpus[c].pc == WakeSet(Other(id)))
            && (forall pid :: a == CallKill(pid) ==> u.cpus[c].pc == KillSet(pid))
            && (a == CallYield ==> u.cpus[c].pc == YieldSet) && (a == CallExit ==> u.cpus[c].pc == ExitWake)
            && (a == CallWait ==> u.cpus[c].pc == WaitScan(0, false)) && (a == CallFork ==> u.cpus[c].pc == ForkFind)
  {
  }

  /** At their last points the calls give up the table lock, and only that. */
  lemma CallsLeave(s: State, init: nat, run: seq<Event>, c: nat, p: nat, pc: Pc)
    requires About(s, init, run, c, p, pc) && (pc == Release || pc == YieldBack || pc == ForkretRelease)
    ensures var t, u := Last(s, init, run), Next(s, init, run, c);
            && c < |u.cpus| && u.procs == t.procs && u.cpus[c].pc == Kernel
            && PTABLE in t.cpus[c].held && u.cpus[c].held == t.cpus[c].held - {PTABLE} && PTABLE !in u.owner
  {
    hide Booted, ValidRun, TableOk, PidsOk;
    Reached(s, init, run, c, p, pc);
  }

  /** sleep gives up its own lock and keeps the table's. */
  lemma SleepDrops(s: State, init: nat, run: seq<Event>, c: nat, p: nat, chan: Chan, lk: nat)
    requires About(s, init, run, c, p, SleepDrop(chan, lk))
    ensures var t, u := Last(s, init, run), Next(s, init, run, c);
            && c < |u.cpus| && u.procs == t.procs && u.cpus[c].pc == SleepSet(chan, lk)
            && Holding(t, c, lk) && lk !in u.owner && Holding(u, c, PTABLE)
  {
    hide Booted, ValidRun, TableOk, PidsOk;
    Reached(s, init, run, c, p, SleepDrop(chan, lk));
  }

  /** A fork that runs out of memory gives its entry back. */
  lemma ForkUndoes(s: State, init: nat, run: seq<Event>, c: nat, p: nat, q: nat)
    requires Booted(s, init) && ValidRun(s, init, run) && On(Last(s, init, run), c, p)
    requires Last(s, init, run).cpus[c].pc == ForkInit(q) && Enabled(Last(s, init, run), init, c, ForkFail)
    ensures var t, u := Last(s, init, run), Do(Last(s, init, run), init, c, ForkFail);
            && OnlyEntry(t.procs, u.procs, q) && u.procs[q].state == UNUSED && u.procs[q].parent == None
            && c < |u.cpus| && u.cpus[c].pc == Kernel
  {
    hide Booted, ValidRun, LocksOk, PidsOk, Exclusive, TableOk, WaitsOk;
    RunKeeps(s, init, run);
    CurrentState(Last(s, init, run), init, c, p);
  }
}
