/** What the hypotheses about the log's size and the operations' budgets are worth: for every layout
    they exclude, and for every budget, a run that does not keep the promise. */
module LogSharp {
  import opened Common
  import opened LogDisk
  import opened LogMachine
  import opened LogInvariant
  import opened LogTheorems
  import opened LogBudget
  import opened LogSerial

  // ----- Runs, built step by step -----

  /** A run of operations within both budgets that has committed nothing. */
  ghost predicate Run(c: Layout, s0: State, steps: seq<Step>) {
    && ValidRun(c, s0, steps) && BudgetedRun(c, s0, steps) && CallBudgetedRun(c, s0, steps)
    && HistoryOf(c, s0, steps).committed == []
  }

  predicate MayTake(c: Layout, s: State, step: Step) {
    Budgeted(s, step) && CallBudgeted(s, step) && !CommitPoint(s, step)
  }

  lemma RunAppend(c: Layout, s0: State, steps: seq<Step>, step: Step)
    requires Run(c, s0, steps)
    requires Enabled(c, Last(c, s0, steps), step) && MayTake(c, Last(c, s0, steps), step)
    ensures Run(c, s0, steps + [step])
    ensures Last(c, s0, steps + [step]) == Do(c, Last(c, s0, steps), step)
  {
    hide Do, Enabled, Budgeted, CallBudgeted, BudgetedRun, CallBudgetedRun, CommitPoint;
    assert (steps + [step])[..|steps|] == steps;
    BudgetAppend(c, s0, steps, step);
    CallAppend(c, s0, steps, step);
  }

  lemma BudgetAppend(c: Layout, s0: State, steps: seq<Step>, step: Step)
    requires BudgetedRun(c, s0, steps) && Budgeted(Last(c, s0, steps), step)
    ensures BudgetedRun(c, s0, steps + [step])
  {
    hide Last, Budgeted;
    var all := steps + [step];
    assert all[..|steps|] == steps;
    forall i | 0 <= i < |all| ensures Budgeted(Last(c, s0, all[..i]), all[i]) {
      assert i < |steps| ==> all[..i] == steps[..i];
    }
  }

  lemma CallAppend(c: Layout, s0: State, steps: seq<Step>, step: Step)
    requires CallBudgetedRun(c, s0, steps) && CallBudgeted(Last(c, s0, steps), step)
    ensures CallBudgetedRun(c, s0, steps + [step])
  {
    hide Last, CallBudgeted;
    var all := steps + [step];
    assert all[..|steps|] == steps;
    forall i | 0 <= i < |all| ensures CallBudgeted(Last(c, s0, all[..i]), all[i]) {
      assert i < |steps| ==> all[..i] == steps[..i];
    }
  }

  // ----- Two open operations, one of them renewed once, fill the log -----

  /** Home block `i`, counted from the end of the log area. */
  function Nth(c: Layout, i: nat): int { c.start + c.size + i }

  /** Which process logs block `k`: process 1 ten in a first operation and nine in a second, process 0 nine,
      and then each one more. */
  function Owner(k: nat): nat { if k < 19 || k == 29 then 1 else 0 }

  /** How many of the first `k` blocks the open operation of process `p` has logged. */
  function Share(k: nat, p: nat): nat {
    if p == 0 then (if k <= 19 then 0 else if k <= 29 then k - 19 else 10)
    else (if k < 10 then k else if k <= 19 then k - 10 else if k <= 29 then 9 else 10)
  }

  ghost predicate Quiet(c: Layout, s: State) {
    && WfDisk(c, s.disk) && Entries(s.disk[c.start]) == []
    && s.phase == Running && !s.panicked && !s.committing
    && (forall b :: b in s.cache ==> s.cache[b].holder.None? && !s.cache[b].changed)
  }

  /** Two operations are open, which have logged `x0` and `x1` blocks, and the log has the first `k` home
      blocks. */
  ghost predicate FilledBy(c: Layout, s: State, k: nat, x0: nat, x1: nat) {
    && Quiet(c, s) && s.outstanding == 2 && 2 <= |s.procs|
    && s.lh == seq(k, i requires 0 <= i => Nth(c, i))
    && s.procs[0] == Inside(x0, x0, None) && s.procs[1] == Inside(x1, x1, None)
    && (forall p :: 2 <= p < |s.procs| ==> s.procs[p] == Outside)
  }

  ghost predicate Filled(c: Layout, s: State, k: nat) {
    FilledBy(c, s, k, Share(k, 0), Share(k, 1))
  }

  predicate Roomy(c: Layout, k: nat) { WfLayout(c) && Nth(c, k) < c.nblocks }

  /** Block `k` goes through bread, log_write and brelse. */
  lemma FillState(c: Layout, s: State, k: nat)
    requires Roomy(c, k) && k < c.size - 1 && k < LOGSIZE && Filled(c, s, k)
    ensures var p, b := Owner(k), Nth(c, k);
            var s1 := Do(c, s, Acquire(p, b));
            var s2 := Do(c, s1, CheckLog(p, b));
            var s3 := Do(c, s2, Absorb(p));
            && Enabled(c, s, Acquire(p, b)) && MayTake(c, s, Acquire(p, b))
            && Enabled(c, s1, CheckLog(p, b)) && MayTake(c, s1, CheckLog(p, b))
            && Enabled(c, s2, Absorb(p)) && MayTake(c, s2, Absorb(p))
            && Enabled(c, s3, Release(p, b)) && MayTake(c, s3, Release(p, b))
            && FilledBy(c, Do(c, s3, Release(p, b)), k + 1, Share(k, 0) + 1 - p, Share(k, 1) + p)
  {
    hide WfDisk, Entries, Share, Owner, CommitPoint;
    var p, b := Owner(k), Nth(c, k);
    ShareStep(k);
    var s1 := Do(c, s, Acquire(p, b));
    var s2 := Do(c, s1, CheckLog(p, b));
    var s3 := Do(c, s2, Absorb(p));
    NoCommit(s);
    NoCommit(s1);
    NoCommit(s2);
    NoCommit(s3);
    assert b !in s.lh;
    assert s3.lh == s.lh + [b];
    assert s3.lh == seq(k + 1, i requires 0 <= i => Nth(c, i));
  }

  lemma NoCommit(s: State)
    requires s.phase.Running?
    ensures forall step :: !CommitPoint(s, step)
  {
  }

  lemma ShareStep(k: nat)
    requires k < LOGSIZE
    ensures Owner(k) < 2 && Share(k, Owner(k)) < MAXOPBLOCKS
    ensures k != 9 ==> Share(k + 1, 0) == Share(k, 0) + 1 - Owner(k) && Share(k + 1, 1) == Share(k, 1) + Owner(k)
  {
  }

  /** Process 1 ends its operation, which is not the last, and begins another. */
  lemma Renewed(c: Layout, s: State)
    requires FilledBy(c, s, 10, 0, 10)
    ensures var s1 := Do(c, s, EndOp(1));
            && Enabled(c, s, EndOp(1)) && MayTake(c, s, EndOp(1))
            && Enabled(c, s1, BeginOp(1)) && MayTake(c, s1, BeginOp(1))
            && Filled(c, Do(c, s1, BeginOp(1)), 10)
  {
    hide WfDisk, Entries;
  }

  lemma FillOne(c: Layout, s0: State, steps: seq<Step>, k: nat) returns (more: seq<Step>)
    requires Roomy(c, k) && k < c.size - 1 && k < LOGSIZE
    requires Run(c, s0, steps) && Filled(c, Last(c, s0, steps), k)
    ensures Run(c, s0, more) && Filled(c, Last(c, s0, more), k + 1)
  {
    hide Do, Enabled, FilledBy, Run, Budgeted, CallBudgeted, MayTake;
    var p, b := Owner(k), Nth(c, k);
    FillState(c, Last(c, s0, steps), k);
    more := steps;
    RunAppend(c, s0, more, Acquire(p, b));
    more := more + [Acquire(p, b)];
    RunAppend(c, s0, more, CheckLog(p, b));
    more := more + [CheckLog(p, b)];
    RunAppend(c, s0, more, Absorb(p));
    more := more + [Absorb(p)];
    RunAppend(c, s0, more, Release(p, b));
    more := more + [Release(p, b)];
    ShareStep(k);
    if k == 9 {
      Renewed(c, Last(c, s0, more));
      RunAppend(c, s0, more, EndOp(1));
      more := more + [EndOp(1)];
      RunAppend(c, s0, more, BeginOp(1));
      more := more + [BeginOp(1)];
    }
  }

  lemma FillMany(c: Layout, s0: State, steps: seq<Step>, k: nat, n: nat) returns (more: seq<Step>)
    requires k <= n <= c.size - 1 && n <= LOGSIZE && (n > 0 ==> Roomy(c, n - 1))
    requires Run(c, s0, steps) && Filled(c, Last(c, s0, steps), k)
    ensures Run(c, s0, more) && Filled(c, Last(c, s0, more), n)
    decreases n - k
  {
    hide Filled, Run;
    more := steps;
    if k < n {
      more := FillOne(c, s0, steps, k);
      more := FillMany(c, s0, more, k + 1, n);
    }
  }

  /** Recovery is over and the first `p` processes have opened an operation. */
  ghost predicate Opened(c: Layout, s: State, p: nat) {
    && Quiet(c, s) && s.outstanding == p && s.lh == [] && 2 <= |s.procs|
    && (forall q :: 0 <= q < |s.procs| ==> s.procs[q] == if q < p then Inside(0, 0, None) else Outside)
  }

  lemma OpenOne(c: Layout, s: State, p: nat)
    requires Opened(c, s, p) && p < 2
    ensures Enabled(c, s, BeginOp(p)) && Opened(c, Do(c, s, BeginOp(p)), p + 1)
  {
  }

  /** A boot image with nothing to recover. */
  ghost predicate CleanBoot(c: Layout, s: State) {
    Boot(c, s) && Entries(s.disk[c.start]) == []
  }

  lemma BootEmpty(c: Layout, s: State)
    requires CleanBoot(c, s) && 2 <= |s.procs|
    ensures Enabled(c, s, LogStep) && MayTake(c, s, LogStep)
    ensures Enabled(c, Do(c, s, LogStep), LogStep) && MayTake(c, Do(c, s, LogStep), LogStep)
    ensures Opened(c, Do(c, Do(c, s, LogStep), LogStep), 0)
  {
    HeaderRoundTrip(View(s, c.start), []);
    HeaderErase(c, s.disk, PutEntries(View(s, c.start), []));
  }

  lemma OpenTwo(c: Layout, s0: State) returns (steps: seq<Step>)
    requires CleanBoot(c, s0) && 2 <= |s0.procs|
    ensures Run(c, s0, steps) && Filled(c, Last(c, s0, steps), 0)
  {
    hide Do, Enabled, Budgeted, CallBudgeted, Quiet;
    BootEmpty(c, s0);
    RunAppend(c, s0, [], LogStep);
    RunAppend(c, s0, [LogStep], LogStep);
    steps := [LogStep] + [LogStep];
    for p := 0 to 2
      invariant Run(c, s0, steps) && Opened(c, Last(c, s0, steps), p)
    {
      OpenOne(c, Last(c, s0, steps), p);
      BeginMayBeTaken(c, Last(c, s0, steps), p);
      RunAppend(c, s0, steps, BeginOp(p));
      steps := steps + [BeginOp(p)];
    }
    assert Last(c, s0, steps).lh == seq(0, i requires 0 <= i => Nth(c, i));
  }

  lemma BeginMayBeTaken(c: Layout, s: State, p: nat)
    ensures MayTake(c, s, BeginOp(p))
  {
  }

  // ----- A log of at most LOGSIZE blocks: the panic -----

  lemma OneTooMany(c: Layout, s: State)
    requires 1 <= c.size <= LOGSIZE && Roomy(c, c.size - 1) && Filled(c, s, c.size - 1)
    ensures var p, b := Owner(c.size - 1), Nth(c, c.size - 1);
            var s1 := Do(c, s, Acquire(p, b));
            && Enabled(c, s, Acquire(p, b)) && MayTake(c, s, Acquire(p, b))
            && Enabled(c, s1, CheckLog(p, b)) && MayTake(c, s1, CheckLog(p, b))
            && Do(c, s1, CheckLog(p, b)).panicked
  {
    ShareStep(c.size - 1);
  }

  /** With `log.size <= LOGSIZE`, the size that mkfs writes, operations of two processes that keep
      to their budgets do reach the panic in `log_write`. */
  lemma ReservationIsSharp(c: Layout, s0: State) returns (steps: seq<Step>)
    requires CleanBoot(c, s0) && 2 <= |s0.procs| && c.size <= LOGSIZE && c.start + 2 * c.size <= c.nblocks
    ensures ValidRun(c, s0, steps) && CallBudgetedRun(c, s0, steps) && Last(c, s0, steps).panicked
  {
    hide Do, Enabled, Filled, MayTake;
    steps := OpenTwo(c, s0);
    steps := FillMany(c, s0, steps, 0, c.size - 1);
    OneTooMany(c, Last(c, s0, steps));
    var p, b := Owner(c.size - 1), Nth(c, c.size - 1);
    RunAppend(c, s0, steps, Acquire(p, b));
    steps := steps + [Acquire(p, b)];
    RunAppend(c, s0, steps, CheckLog(p, b));
    steps := steps + [CheckLog(p, b)];
  }

  // ----- A longer log: the panic on a block that is there already -----

  lemma FullAgain(c: Layout, s: State)
    requires Roomy(c, 0) && Filled(c, s, LOGSIZE)
    ensures var b := Nth(c, 0);
            var s1 := Do(c, s, Acquire(0, b));
            && Enabled(c, s, Acquire(0, b)) && MayTake(c, s, Acquire(0, b))
            && Enabled(c, s1, CheckLog(0, b)) && Budgeted(s1, CheckLog(0, b)) && b in s1.lh
            && Do(c, s1, CheckLog(0, b)).panicked
  {
    assert s.lh[0] == Nth(c, 0);
  }

  /** In a log longer than LOGSIZE, operations that add no more than MAXOPBLOCKS blocks each can still
      reach the panic: the size is tested before the block is looked for. */
  lemma FullLogPanics(c: Layout, s0: State) returns (steps: seq<Step>)
    requires CleanBoot(c, s0) && 2 <= |s0.procs| && c.size > LOGSIZE && c.start + c.size + LOGSIZE <= c.nblocks
    ensures ValidRun(c, s0, steps) && BudgetedRun(c, s0, steps) && Last(c, s0, steps).panicked
  {
    hide Do, Enabled, Filled, MayTake, Budgeted;
    steps := OpenTwo(c, s0);
    steps := FillMany(c, s0, steps, 0, LOGSIZE);
    FullAgain(c, Last(c, s0, steps));
    var b := Nth(c, 0);
    RunAppend(c, s0, steps, Acquire(0, b));
    steps := steps + [Acquire(0, b)];
    var all := steps + [CheckLog(0, b)];
    assert all[..|steps|] == steps;
    BudgetedMore(c, s0, all);
    steps := all;
  }

  // ----- A log of 2 to LOGSIZE blocks: a crash is not atomic -----

  /** The two blocks that complete the list beyond the log area. */
  ghost predicate Racing(c: Layout, s: State, x: Block) {
    && WfDisk(c, s.disk) && Entries(s.disk[c.start]) == []
    && s.phase == Running && !s.panicked && !s.committing && s.outstanding == 2 && 2 <= |s.procs|
    && 2 <= c.size && s.lh == seq(c.size - 2, i requires 0 <= i => Nth(c, i))
    && (forall b :: b in s.cache ==>
          s.cache[b].holder ==
          (if b == Nth(c, c.size - 2) then Some(0) else if b == Nth(c, c.size - 1) then Some(1) else None))
    && (forall b :: b in s.cache && b != Nth(c, c.size - 1) ==> !s.cache[b].changed)
    && Nth(c, c.size - 2) in s.cache && Nth(c, c.size - 1) in s.cache && s.cache[Nth(c, c.size - 1)].data == x
    && (forall p: nat :: p < 2 ==> s.procs[p].Inside? && s.procs[p].checked == Some(Nth(c, c.size - 2 + p)))
    && (forall p :: 2 <= p < |s.procs| ==> s.procs[p] == Outside)
  }

  lemma RaceStarts(c: Layout, s: State, x: Block)
    requires 2 <= c.size <= LOGSIZE && Roomy(c, c.size - 1) && Filled(c, s, c.size - 2)
    ensures var b1, b2 := Nth(c, c.size - 2), Nth(c, c.size - 1);
            var s1 := Do(c, s, Acquire(0, b1));
            var s2 := Do(c, s1, Acquire(1, b2));
            var s3 := Do(c, s2, Modify(1, b2, x));
            var s4 := Do(c, s3, CheckLog(0, b1));
            && Enabled(c, s, Acquire(0, b1)) && MayTake(c, s, Acquire(0, b1))
            && Enabled(c, s1, Acquire(1, b2)) && MayTake(c, s1, Acquire(1, b2))
            && Enabled(c, s2, Modify(1, b2, x)) && MayTake(c, s2, Modify(1, b2, x))
            && Enabled(c, s3, CheckLog(0, b1)) && MayTake(c, s3, CheckLog(0, b1))
            && Enabled(c, s4, CheckLog(1, b2)) && MayTake(c, s4, CheckLog(1, b2))
            && Racing(c, Do(c, s4, CheckLog(1, b2)), x)
  {
    hide WfDisk, Entries;
    assert Nth(c, c.size - 2) !in s.lh && Nth(c, c.size - 1) !in s.lh;
  }

  /** The list is one block longer than the log has room for, and no buffer is held. */
  ghost predicate Overfull(c: Layout, s: State, x: Block) {
    && WfDisk(c, s.disk) && Entries(s.disk[c.start]) == [] && !s.panicked
    && 2 <= c.size && s.lh == seq(c.size, i requires 0 <= i => Nth(c, i))
    && (forall b :: b in s.cache ==> s.cache[b].holder.None? && !s.cache[b].changed)
    && Nth(c, c.size - 1) in s.cache && s.cache[Nth(c, c.size - 1)].data == x
  }

  lemma RaceEnds(c: Layout, s: State, x: Block)
    requires Racing(c, s, x)
    ensures var b1, b2 := Nth(c, c.size - 2), Nth(c, c.size - 1);
            var s1 := Do(c, s, Absorb(0));
            var s2 := Do(c, s1, Absorb(1));
            var s3 := Do(c, s2, Release(0, b1));
            var s4 := Do(c, s3, Release(1, b2));
            && Enabled(c, s, Absorb(0)) && MayTake(c, s, Absorb(0))
            && Enabled(c, s1, Absorb(1)) && MayTake(c, s1, Absorb(1))
            && Enabled(c, s2, Release(0, b1)) && MayTake(c, s2, Release(0, b1))
            && Enabled(c, s3, Release(1, b2)) && MayTake(c, s3, Release(1, b2))
            && Overfull(c, s4, x) && Ending(s4, 0)
  {
    hide WfDisk, Entries;
    var s1 := Do(c, s, Absorb(0));
    var s2 := Do(c, s1, Absorb(1));
    assert Nth(c, c.size - 2) !in s.lh;
    assert s1.lh == seq(c.size - 1, i requires 0 <= i => Nth(c, i));
    assert Nth(c, c.size - 1) !in s1.lh;
    assert s2.lh == seq(c.size, i requires 0 <= i => Nth(c, i));
  }

  /** The first `p` of two operations have ended. */
  ghost predicate Ending(s: State, p: nat) {
    && p <= 2 <= |s.procs| && s.outstanding == 2 - p
    && (if p < 2 then s.phase == Running && !s.committing else s.phase == WritingLog(0))
    && (forall q :: 0 <= q < |s.procs| ==>
          if p <= q < 2 then s.procs[q].Inside? && s.procs[q].checked.None? else s.procs[q] == Outside)
  }

  lemma EndOne(c: Layout, s: State, x: Block, p: nat)
    requires Overfull(c, s, x) && Ending(s, p) && p < 2
    ensures Enabled(c, s, EndOp(p)) && MayTake(c, s, EndOp(p))
    ensures Overfull(c, Do(c, s, EndOp(p)), x) && Ending(Do(c, s, EndOp(p)), p + 1)
  {
    hide WfDisk, Entries;
  }

  /** write_log copies block `t`: into the log area, or onto the first block behind it. */
  lemma CopyOne(c: Layout, s: State, x: Block, t: nat)
    requires Overfull(c, s, x) && s.phase == WritingLog(t) && t < c.size && Roomy(c, c.size - 1)
    ensures var s' := Do(c, s, LogStep);
            && Enabled(c, s, LogStep) && MayTake(c, s, LogStep)
            && (t < c.size - 1 ==> Overfull(c, s', x) && s'.phase == WritingLog(t + 1))
            && (t == c.size - 1 ==>
                  WfDisk(c, s'.disk) && Entries(s'.disk[c.start]) == [] && s'.disk[Nth(c, 0)] == x && !s'.panicked)
  {
    assert s.lh[t] == Nth(c, t);
    if t < c.size - 1 {
      UnnamedLogWrite(c, s.disk, t, View(s, s.lh[t]));
    }
  }

  lemma CopyAll(c: Layout, s0: State, steps: seq<Step>, x: Block, t: nat) returns (more: seq<Step>)
    requires Run(c, s0, steps) && t < c.size && Roomy(c, c.size - 1)
    requires Overfull(c, Last(c, s0, steps), x) && Last(c, s0, steps).phase == WritingLog(t)
    ensures Run(c, s0, more)
    ensures var s := Last(c, s0, more);
            WfDisk(c, s.disk) && Entries(s.disk[c.start]) == [] && s.disk[Nth(c, 0)] == x && !s.panicked
    decreases c.size - t
  {
    hide Do, Enabled, MayTake, Run, Overfull, Entries;
    CopyOne(c, Last(c, s0, steps), x, t);
    RunAppend(c, s0, steps, LogStep);
    more := steps + [LogStep];
    if t < c.size - 1 {
      more := CopyAll(c, s0, more, x, t + 1);
    }
  }

  lemma Race(c: Layout, s0: State, steps: seq<Step>, x: Block) returns (more: seq<Step>)
    requires 2 <= c.size <= LOGSIZE && Roomy(c, c.size - 1)
    requires Run(c, s0, steps) && Filled(c, Last(c, s0, steps), c.size - 2)
    ensures Run(c, s0, more) && Overfull(c, Last(c, s0, more), x) && Ending(Last(c, s0, more), 0)
  {
    hide Do, Enabled, MayTake, Run, Overfull, Ending, Filled, Racing;
    var b1, b2 := Nth(c, c.size - 2), Nth(c, c.size - 1);
    RaceStarts(c, Last(c, s0, steps), x);
    more := steps;
    RunAppend(c, s0, more, Acquire(0, b1));
    more := more + [Acquire(0, b1)];
    RunAppend(c, s0, more, Acquire(1, b2));
    more := more + [Acquire(1, b2)];
    RunAppend(c, s0, more, Modify(1, b2, x));
    more := more + [Modify(1, b2, x)];
    RunAppend(c, s0, more, CheckLog(0, b1));
    more := more + [CheckLog(0, b1)];
    RunAppend(c, s0, more, CheckLog(1, b2));
    more := more + [CheckLog(1, b2)];
    more := FinishRace(c, s0, more, x);
  }

  lemma FinishRace(c: Layout, s0: State, steps: seq<Step>, x: Block) returns (more: seq<Step>)
    requires Run(c, s0, steps) && Racing(c, Last(c, s0, steps), x)
    ensures Run(c, s0, more) && Overfull(c, Last(c, s0, more), x) && Ending(Last(c, s0, more), 0)
  {
    var b1, b2 := Nth(c, c.size - 2), Nth(c, c.size - 1);
    RaceEnds(c, Last(c, s0, steps), x);
    hide Do, Enabled, MayTake, Run, Overfull, Ending, Racing;
    more := steps;
    RunAppend(c, s0, more, Absorb(0));
    more := more + [Absorb(0)];
    RunAppend(c, s0, more, Absorb(1));
    more := more + [Absorb(1)];
    RunAppend(c, s0, more, Release(0, b1));
    more := more + [Release(0, b1)];
    RunAppend(c, s0, more, Release(1, b2));
    more := more + [Release(1, b2)];
  }

  /** In a log of 2 to LOGSIZE blocks, operations within both budgets can change a home block before
      anything is committed: two of them pass the unlocked size test together, and write_log then runs
      past the end of the log. */
  lemma SmallLogNotAtomic(c: Layout, s0: State, x: Block) returns (steps: seq<Step>)
    requires CleanBoot(c, s0) && 2 <= |s0.procs| && 2 <= c.size <= LOGSIZE && c.start + 2 * c.size <= c.nblocks
    requires x != s0.disk[Nth(c, 0)]
    ensures ValidRun(c, s0, steps) && BudgetedRun(c, s0, steps) && CallBudgetedRun(c, s0, steps)
    ensures !Last(c, s0, steps).panicked && !Atomic(c, s0, steps)
  {
    hide Do, Enabled, MayTake, Overfull, Ending, Filled;
    steps := OpenTwo(c, s0);
    steps := FillMany(c, s0, steps, 0, c.size - 2);
    steps := Race(c, s0, steps, x);
    for p := 0 to 2
      invariant Run(c, s0, steps) && Overfull(c, Last(c, s0, steps), x) && Ending(Last(c, s0, steps), p)
    {
      EndOne(c, Last(c, s0, steps), x, p);
      RunAppend(c, s0, steps, EndOp(p));
      steps := steps + [EndOp(p)];
    }
    EndedWrites(Last(c, s0, steps));
    steps := CopyAll(c, s0, steps, x, 0);
    NotAtomic(c, s0, steps, x);
  }

  lemma EndedWrites(s: State)
    requires Ending(s, 2)
    ensures s.phase == WritingLog(0)
  {
  }

  lemma NotAtomic(c: Layout, s0: State, steps: seq<Step>, x: Block)
    requires CleanBoot(c, s0) && Run(c, s0, steps) && IsHome(c, Nth(c, 0)) && x != s0.disk[Nth(c, 0)]
    requires var s := Last(c, s0, steps);
             WfDisk(c, s.disk) && Entries(s.disk[c.start]) == [] && s.disk[Nth(c, 0)] == x
    ensures !Atomic(c, s0, steps)
  {
    EmptyHeader(c, s0.disk);
    EmptyHeader(c, Last(c, s0, steps).disk);
    var b := Nth(c, 0);
    assert HomeBlocks(c, s0.disk)[b] == s0.disk[b] && HomeBlocks(c, Last(c, s0, steps).disk)[b] == x;
  }

  /** Crash atomicity of budgeted runs, exactly: it holds for every such run if and only if the log is
      longer than LOGSIZE or has room for the header only, or there is only one process. */
  lemma AtomicExactly(c: Layout, s0: State)
    requires CleanBoot(c, s0) && c.start + 2 * c.size <= c.nblocks
    ensures SafeLayout(c) || |s0.procs| <= 1 <==>
            forall steps :: ValidRun(c, s0, steps) && BudgetedRun(c, s0, steps) ==> Atomic(c, s0, steps)
  {
    hide Atomic, ValidRun, BudgetedRun, CleanBoot;
    assert Boot(c, s0) && WfLayout(c) by { CleanIs(c, s0); }
    if SafeLayout(c) || |s0.procs| <= 1 {
      forall steps | ValidRun(c, s0, steps) && BudgetedRun(c, s0, steps) ensures Atomic(c, s0, steps) {
        if SafeLayout(c) {
          CrashAtomicity(c, s0, steps);
        } else {
          SingleFits(c, s0, steps);
          FittingAtomicity(c, s0, steps);
        }
      }
    } else {
      var x := Different(s0.disk[Nth(c, 0)]);
      var steps := SmallLogNotAtomic(c, s0, x);
      assert ValidRun(c, s0, steps) && BudgetedRun(c, s0, steps) && !Atomic(c, s0, steps);
    }
  }

  lemma CleanIs(c: Layout, s0: State)
    requires CleanBoot(c, s0)
    ensures Boot(c, s0) && WfLayout(c) && |s0.disk| == c.nblocks
  {
  }

  function Different(x: Block): (y: Block)
    ensures y != x
  {
    x[0 := x[0] + 1]
  }
}
