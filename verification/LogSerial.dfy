/** When one call of log_write is under way at a time, its unlocked size test is enough: the list of logged
    blocks fits every log, without any budget. */
module LogSerial {
  import opened Common
  import opened LogDisk
  import opened LogMachine
  import opened LogInvariant
  import opened LogTheorems
  import opened LogBudget

  /** A process between the size test of log_write and its lock. */
  predicate Checked(s: State, p: nat) {
    p < |s.procs| && s.procs[p].Inside? && s.procs[p].checked.Some?
  }

  /** At most one process is there. */
  ghost predicate Alone(s: State) {
    forall p: nat, q: nat :: Checked(s, p) && Checked(s, q) ==> p == q
  }

  ghost predicate SerialRun(c: Layout, s: State, steps: seq<Step>) {
    forall k :: 0 <= k <= |steps| ==> Alone(Last(c, s, steps[..k]))
  }

  /** The list fits, and with one block more while somebody is there. */
  ghost predicate Room(c: Layout, s: State) {
    Fits(c, s.lh) && forall p: nat :: Checked(s, p) ==> !TooBig(c, s)
  }

  lemma RoomStep(c: Layout, s: State, step: Step)
    requires Inv(c, s) && Room(c, s) && Alone(s) && Enabled(c, s, step)
    ensures Room(c, Do(c, s, step))
  {
    hide CacheOk, Durable;
    NoneInside(s.procs);
    match step
    case Absorb(p) => AbsorbRoom(c, s, p);
    case LogStep => LogStepRoom(c, s);
    case CheckLog(p, b) => CheckRoom(c, s, p, b);
    case EndOp(p) => EndRoom(c, s, p);
    case _ =>
      assert forall q: nat :: Checked(Do(c, s, step), q) ==> Checked(s, q);
  }

  lemma AbsorbRoom(c: Layout, s: State, p: nat)
    requires Room(c, s) && Alone(s) && Enabled(c, s, Absorb(p))
    ensures Room(c, Do(c, s, Absorb(p)))
  {
    var s' := Do(c, s, Absorb(p));
    assert Checked(s, p);
    assert forall q: nat :: Checked(s', q) ==> Checked(s, q) && q != p;
  }

  lemma LogStepRoom(c: Layout, s: State)
    requires Inv(c, s) && Room(c, s) && Enabled(c, s, LogStep)
    ensures Room(c, Do(c, s, LogStep))
  {
    hide CacheOk, Durable;
    NoneInside(s.procs);
  }

  lemma CheckRoom(c: Layout, s: State, p: nat, b: int)
    requires Room(c, s) && Enabled(c, s, CheckLog(p, b))
    ensures Room(c, Do(c, s, CheckLog(p, b)))
  {
    var s' := Do(c, s, CheckLog(p, b));
    assert TooBig(c, s) || s.outstanding < 1 ==> s'.procs == s.procs;
    assert s'.procs == s.procs ==> forall q: nat :: Checked(s', q) ==> Checked(s, q);
  }

  lemma EndRoom(c: Layout, s: State, p: nat)
    requires Room(c, s) && Enabled(c, s, EndOp(p))
    ensures Room(c, Do(c, s, EndOp(p)))
  {
    assert forall q: nat :: Checked(Do(c, s, EndOp(p)), q) ==> Checked(s, q);
  }

  lemma SerialPrefix(c: Layout, s0: State, steps: seq<Step>)
    requires steps != [] && SerialRun(c, s0, steps)
    ensures SerialRun(c, s0, steps[..|steps| - 1]) && Alone(Last(c, s0, steps[..|steps| - 1]))
  {
    var k := |steps| - 1;
    forall i | 0 <= i <= k ensures Alone(Last(c, s0, steps[..k][..i])) {
      assert steps[..k][..i] == steps[..i];
    }
  }

  /** Calls one at a time never outgrow the log, whatever its size. */
  lemma {:induction false} SerialFits(c: Layout, s0: State, steps: seq<Step>)
    requires Boot(c, s0) && ValidRun(c, s0, steps) && SerialRun(c, s0, steps)
    ensures FittingRun(c, s0, steps) && Room(c, Last(c, s0, steps))
  {
    hide FittingRun, SerialRun, Alone, Room, Do, Enabled;
    if steps == [] {
      BootFits(c, s0);
      BootRoom(c, s0);
    } else {
      var k := |steps| - 1;
      SerialPrefix(c, s0, steps);
      SerialFits(c, s0, steps[..k]);
      TracksRun(c, s0, steps[..k]);
      RoomStep(c, Last(c, s0, steps[..k]), steps[k]);
      RoomFits(c, Last(c, s0, steps));
      FittingMore(c, s0, steps);
    }
  }

  lemma BootRoom(c: Layout, s0: State)
    requires Boot(c, s0)
    ensures Room(c, s0)
  {
  }

  lemma RoomFits(c: Layout, s: State)
    requires Room(c, s)
    ensures Fits(c, s.lh)
  {
  }

  /** So crashes are atomic. */
  lemma SerialAtomicity(c: Layout, s0: State, steps: seq<Step>)
    requires Boot(c, s0) && ValidRun(c, s0, steps) && SerialRun(c, s0, steps)
    ensures Atomic(c, s0, steps)
  {
    SerialFits(c, s0, steps);
    FittingAtomicity(c, s0, steps);
  }

  // ----- One process, or one operation at a time -----

  lemma {:induction false} ProcsStay(c: Layout, s0: State, steps: seq<Step>)
    requires ValidRun(c, s0, steps)
    ensures |Last(c, s0, steps).procs| == |s0.procs|
  {
    if steps != [] {
      ProcsStay(c, s0, steps[..|steps| - 1]);
    }
  }

  lemma {:induction false} RunPrefix(c: Layout, s0: State, steps: seq<Step>, k: nat)
    requires ValidRun(c, s0, steps) && k <= |steps|
    ensures ValidRun(c, s0, steps[..k])
  {
    if k == |steps| {
      assert steps[..k] == steps;
    } else {
      var n := |steps| - 1;
      RunPrefix(c, s0, steps[..n], k);
      assert steps[..n][..k] == steps[..k];
    }
  }

  /** A single process is always alone. */
  lemma SingleFits(c: Layout, s0: State, steps: seq<Step>)
    requires Boot(c, s0) && ValidRun(c, s0, steps) && |s0.procs| <= 1
    ensures FittingRun(c, s0, steps)
  {
    forall k | 0 <= k <= |steps| ensures Alone(Last(c, s0, steps[..k])) {
      RunPrefix(c, s0, steps, k);
      ProcsStay(c, s0, steps[..k]);
    }
    SerialFits(c, s0, steps);
  }

  /** In no state of the run are two operations open. */
  ghost predicate OneAtATime(c: Layout, s: State, steps: seq<Step>) {
    forall k :: 0 <= k <= |steps| ==> Last(c, s, steps[..k]).outstanding <= 1
  }

  lemma {:induction false} TwoInside(procs: seq<Op>, p: nat, q: nat)
    requires p < q < |procs| && procs[p].Inside? && procs[q].Inside?
    ensures Count(procs) >= 2
  {
    var k := |procs| - 1;
    if q < k {
      TwoInside(procs[..k], p, q);
    } else {
      NoneInside(procs[..k]);
      assert procs[..k][p].Inside?;
    }
  }

  /** Operations one at a time are calls one at a time. */
  lemma OneAtATimeFits(c: Layout, s0: State, steps: seq<Step>)
    requires Boot(c, s0) && ValidRun(c, s0, steps) && OneAtATime(c, s0, steps)
    ensures FittingRun(c, s0, steps)
  {
    hide Do, Enabled, FittingRun;
    forall k | 0 <= k <= |steps| ensures Alone(Last(c, s0, steps[..k])) {
      RunPrefix(c, s0, steps, k);
      CountedRun(c, s0, steps[..k]);
      CountedAlone(Last(c, s0, steps[..k]));
    }
    SerialFits(c, s0, steps);
  }

  lemma CountedAlone(s: State)
    requires Counted(s) && s.outstanding <= 1
    ensures Alone(s)
  {
    forall p: nat, q: nat | Checked(s, p) && Checked(s, q) ensures p == q {
      if p < q {
        TwoInside(s.procs, p, q);
      } else if q < p {
        TwoInside(s.procs, q, p);
      }
    }
  }
}
