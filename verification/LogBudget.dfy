/** Operations that keep to the budget of `begin_op`: the log then never outgrows its area, if it is
    longer than LOGSIZE, and the layouts for which crash atomicity holds. */
module LogBudget {
  import opened Common
  import opened LogDisk
  import opened LogMachine
  import opened LogInvariant
  import opened LogTheorems

  /** A caller keeps within the budget that `begin_op` assumes: MAXOPBLOCKS blocks, a block that is in
      the log already being free. */
  predicate Budgeted(s: State, step: Step) {
    step.CheckLog? && step.p < |s.procs| && s.procs[step.p].Inside? ==>
      s.procs[step.p].spent < MAXOPBLOCKS || step.b in s.lh
  }

  /** The stricter budget of MAXOPBLOCKS calls. */
  predicate CallBudgeted(s: State, step: Step) {
    step.CheckLog? && step.p < |s.procs| && s.procs[step.p].Inside? ==>
      s.procs[step.p].calls < MAXOPBLOCKS
  }

  ghost predicate BudgetedRun(c: Layout, s: State, steps: seq<Step>) {
    forall k :: 0 <= k < |steps| ==> Budgeted(Last(c, s, steps[..k]), steps[k])
  }

  ghost predicate CallBudgetedRun(c: Layout, s: State, steps: seq<Step>) {
    forall k :: 0 <= k < |steps| ==> CallBudgeted(Last(c, s, steps[..k]), steps[k])
  }

  // ----- The log has room for every open operation -----

  ghost predicate Within(s: State) {
    && (forall p :: 0 <= p < |s.procs| && s.procs[p].Inside? ==>
          && s.procs[p].spent <= MAXOPBLOCKS && s.procs[p].spent <= s.procs[p].calls
          && (s.procs[p].checked.Some? ==> s.procs[p].spent < MAXOPBLOCKS || s.procs[p].checked.value in s.lh))
    && |s.lh| + Unspent(s.procs) <= LOGSIZE
  }

  /** Nothing is ever logged when the area has room for the header only. */
  ghost predicate Unlogged(s: State) {
    s.lh == [] && forall p :: 0 <= p < |s.procs| && s.procs[p].Inside? ==> s.procs[p].checked.None?
  }

  lemma WithinFits(c: Layout, s: State)
    requires Within(s)
    ensures |s.lh| <= LOGSIZE && 0 <= Unspent(s.procs)
    ensures c.size > LOGSIZE ==> Fits(c, s.lh)
  {
    UnspentAtMost(s.procs);
  }

  /** What an operation may still add is room in the log. */
  lemma RoomFor(s: State, p: nat)
    requires Within(s) && p < |s.procs| && s.procs[p].Inside?
    ensures |s.lh| + MAXOPBLOCKS - s.procs[p].spent <= LOGSIZE
  {
    UnspentAtLeast(s.procs, p);
  }

  lemma OpWithin(c: Layout, s: State, step: Step)
    requires Inv(c, s) && Enabled(c, s, step) && Budgeted(s, step) && Within(s)
    requires step.BeginOp? || step.EndOp? || step.CheckLog?
    ensures Within(Do(c, s, step))
  {
    hide Durable, CacheOk, Shape, PhaseOk;
    UnspentAtMost(s.procs);
    match step
    case BeginOp(p) => UpdateProc(s.procs, p, Inside(0, 0, None));
    case EndOp(p) => UpdateProc(s.procs, p, Outside);
    case CheckLog(p, b) => UpdateProc(s.procs, p, s.procs[p].(checked := Some(b)));
  }

  lemma AbsorbWithin(c: Layout, s: State, p: nat)
    requires Enabled(c, s, Absorb(p)) && Within(s)
    ensures Within(Do(c, s, Absorb(p)))
  {
    RoomFor(s, p);
    UpdateProc(s.procs, p, Charged(s.procs[p], s.procs[p].checked.value in s.lh));
  }

  lemma LogStepWithin(c: Layout, s: State)
    requires Inv(c, s) && Enabled(c, s, LogStep) && Within(s)
    ensures Within(Do(c, s, LogStep))
  {
    hide Durable, CacheOk, PhaseOk;
    NoneInside(s.procs);
    HeaderFits(c, s);
  }

  lemma StepWithin(c: Layout, s: State, step: Step)
    requires Inv(c, s) && Enabled(c, s, step) && Budgeted(s, step) && Within(s)
    ensures Within(Do(c, s, step))
  {
    match step
    case BeginOp(p) => OpWithin(c, s, step);
    case EndOp(p) => OpWithin(c, s, step);
    case CheckLog(p, b) => OpWithin(c, s, step);
    case Absorb(p) => AbsorbWithin(c, s, p);
    case Crash => NoneInside(Do(c, s, step).procs);
    case LogStep => LogStepWithin(c, s);
    case _ =>
  }

  lemma HeaderFits(c: Layout, s: State)
    requires Inv(c, s)
    ensures |Entries(View(s, c.start))| <= LOGSIZE
  {
  }

  lemma StepUnlogged(c: Layout, s: State, step: Step)
    requires Inv(c, s) && Enabled(c, s, step) && c.size == 1 && Unlogged(s)
    ensures Unlogged(Do(c, s, step))
  {
  }

  // ----- Every run -----

  lemma BudgetedPrefix(c: Layout, s0: State, steps: seq<Step>)
    requires steps != [] && BudgetedRun(c, s0, steps)
    ensures var k := |steps| - 1;
            BudgetedRun(c, s0, steps[..k]) && Budgeted(Last(c, s0, steps[..k]), steps[k])
  {
    var k := |steps| - 1;
    forall i | 0 <= i < k ensures Budgeted(Last(c, s0, steps[..k][..i]), steps[..k][i]) {
      assert steps[..k][..i] == steps[..i];
    }
  }

  lemma FittingMore(c: Layout, s0: State, steps: seq<Step>)
    requires steps != []
    requires FittingRun(c, s0, steps[..|steps| - 1]) && Fits(c, Last(c, s0, steps).lh)
    ensures FittingRun(c, s0, steps)
  {
    var k := |steps| - 1;
    assert steps[..|steps|] == steps;
    forall i | 0 <= i <= |steps| ensures Fits(c, Last(c, s0, steps[..i]).lh) {
      assert i <= k ==> steps[..k][..i] == steps[..i];
    }
  }

  /** In a log longer than LOGSIZE, operations that keep to their budgets always fit. */
  lemma {:induction false} BudgetedFits(c: Layout, s0: State, steps: seq<Step>)
    requires c.size > LOGSIZE && Boot(c, s0) && ValidRun(c, s0, steps) && BudgetedRun(c, s0, steps)
    ensures FittingRun(c, s0, steps) && Within(Last(c, s0, steps))
  {
    hide BudgetedRun, FittingRun, Within;
    if steps == [] {
      BootFits(c, s0);
    } else {
      var k := |steps| - 1;
      BudgetedPrefix(c, s0, steps);
      BudgetedFits(c, s0, steps[..k]);
      TracksRun(c, s0, steps[..k]);
      StepWithin(c, Last(c, s0, steps[..k]), steps[k]);
      WithinFits(c, Last(c, s0, steps));
      FittingMore(c, s0, steps);
    }
  }

  /** In a log with room for the header only, nothing is ever logged. */
  lemma {:induction false} HeaderOnlyFits(c: Layout, s0: State, steps: seq<Step>)
    requires c.size == 1 && Boot(c, s0) && ValidRun(c, s0, steps)
    ensures FittingRun(c, s0, steps) && Unlogged(Last(c, s0, steps))
  {
    hide FittingRun;
    if steps == [] {
      BootFits(c, s0);
    } else {
      var k := |steps| - 1;
      HeaderOnlyFits(c, s0, steps[..k]);
      TracksRun(c, s0, steps[..k]);
      StepUnlogged(c, Last(c, s0, steps[..k]), steps[k]);
      FittingMore(c, s0, steps);
    }
  }

  lemma BootFits(c: Layout, s0: State)
    requires Boot(c, s0)
    ensures FittingRun(c, s0, []) && Within(s0) && Unlogged(s0)
  {
    NoneInside(s0.procs);
  }

  // ----- The layouts for which a crash is atomic -----

  /** A log longer than LOGSIZE, or one in which every `log_write` panics. */
  predicate SafeLayout(c: Layout) { c.size > LOGSIZE || c.size == 1 }

  lemma SafeFits(c: Layout, s0: State, steps: seq<Step>)
    requires SafeLayout(c) && Boot(c, s0) && ValidRun(c, s0, steps) && BudgetedRun(c, s0, steps)
    ensures FittingRun(c, s0, steps)
  {
    if c.size == 1 {
      HeaderOnlyFits(c, s0, steps);
    } else {
      BudgetedFits(c, s0, steps);
    }
  }

  /** Crash atomicity of operations that keep to their budgets. */
  lemma CrashAtomicity(c: Layout, s0: State, steps: seq<Step>)
    requires SafeLayout(c) && Boot(c, s0) && ValidRun(c, s0, steps) && BudgetedRun(c, s0, steps)
    ensures Atomic(c, s0, steps)
  {
    SafeFits(c, s0, steps);
    FittingAtomicity(c, s0, steps);
  }

  // ----- The panics of log_write -----

  /** In every interleaving the log has room for what every open operation may still add, and a call
      panics exactly when the log is full, even if its block is there already. */
  lemma Reservation(c: Layout, s0: State, steps: seq<Step>)
    requires c.size > LOGSIZE && Boot(c, s0) && ValidRun(c, s0, steps) && BudgetedRun(c, s0, steps)
    ensures var s := Last(c, s0, steps);
            && |s.lh| + Unspent(s.procs) <= LOGSIZE && 0 <= Unspent(s.procs)
            && (forall p: nat, b :: Enabled(c, s, CheckLog(p, b)) ==>
                  (Do(c, s, CheckLog(p, b)).panicked <==> |s.lh| == LOGSIZE))
  {
    hide ValidRun, BudgetedRun, FittingRun, Do, Enabled, Within, Inv;
    BudgetedFits(c, s0, steps);
    TracksRun(c, s0, steps);
    var s := Last(c, s0, steps);
    WithinFits(c, s);
    WithinSum(s);
    forall p: nat, b | Enabled(c, s, CheckLog(p, b))
      ensures Do(c, s, CheckLog(p, b)).panicked <==> |s.lh| == LOGSIZE
    {
      PanicsWhenFull(c, s, p, b);
    }
  }

  lemma WithinSum(s: State)
    requires Within(s)
    ensures |s.lh| + Unspent(s.procs) <= LOGSIZE
  {
  }

  lemma PanicsWhenFull(c: Layout, s: State, p: nat, b: int)
    requires c.size > LOGSIZE && Inv(c, s) && |s.lh| <= LOGSIZE && Enabled(c, s, CheckLog(p, b))
    ensures Do(c, s, CheckLog(p, b)).panicked <==> |s.lh| == LOGSIZE
  {
    hide CacheOk, PhaseOk;
    NoneInside(s.procs);
  }

  lemma StepPanic(c: Layout, s: State, step: Step)
    requires c.size > LOGSIZE && Inv(c, s) && Within(s) && Enabled(c, s, step) && CallBudgeted(s, step) && !s.panicked
    ensures Budgeted(s, step) && !Do(c, s, step).panicked
  {
    hide CacheOk;
    NoneInside(s.procs);
    if step.CheckLog? {
      RoomFor(s, step.p);
    }
  }

  /** Operations of at most MAXOPBLOCKS calls never meet a panic. */
  lemma {:induction false} NoPanic(c: Layout, s0: State, steps: seq<Step>)
    requires c.size > LOGSIZE && Boot(c, s0) && ValidRun(c, s0, steps) && CallBudgetedRun(c, s0, steps)
    ensures BudgetedRun(c, s0, steps) && !Last(c, s0, steps).panicked
  {
    hide Do, Enabled, Within, Inv, BudgetedRun, CallBudgetedRun, FittingRun;
    if steps == [] {
      NothingDone(c, s0);
    } else {
      var k := |steps| - 1;
      CallBudgetedPrefix(c, s0, steps);
      NoPanic(c, s0, steps[..k]);
      BudgetedFits(c, s0, steps[..k]);
      TracksRun(c, s0, steps[..k]);
      StepPanic(c, Last(c, s0, steps[..k]), steps[k]);
      BudgetedMore(c, s0, steps);
    }
  }

  lemma NothingDone(c: Layout, s0: State)
    ensures BudgetedRun(c, s0, []) && CallBudgetedRun(c, s0, [])
  {
  }

  lemma CallBudgetedPrefix(c: Layout, s0: State, steps: seq<Step>)
    requires steps != [] && CallBudgetedRun(c, s0, steps)
    ensures var k := |steps| - 1;
            CallBudgetedRun(c, s0, steps[..k]) && CallBudgeted(Last(c, s0, steps[..k]), steps[k])
  {
    var k := |steps| - 1;
    forall i | 0 <= i < k ensures CallBudgeted(Last(c, s0, steps[..k][..i]), steps[..k][i]) {
      assert steps[..k][..i] == steps[..i];
    }
  }

  lemma BudgetedMore(c: Layout, s0: State, steps: seq<Step>)
    requires steps != []
    requires var k := |steps| - 1;
             BudgetedRun(c, s0, steps[..k]) && Budgeted(Last(c, s0, steps[..k]), steps[k])
    ensures BudgetedRun(c, s0, steps)
  {
    var k := |steps| - 1;
    forall i | 0 <= i < |steps| ensures Budgeted(Last(c, s0, steps[..i]), steps[i]) {
      assert i < k ==> steps[..k][..i] == steps[..i] && steps[..k][i] == steps[i];
    }
  }
}
