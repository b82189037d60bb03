/** File system operations carried by the log: after a crash the disk holds the file system as it
    was after some number of whole operations. */
module FsTransaction {
  import opened Common
  import opened LogDisk
  import opened LogMachine
  import opened LogTheorems
  import opened LogSerial
  import opened FsDisk
  import Fs
  import FsImage
  import FileCode

  // ----- The writes of one operation -----

  /** What `writes` leave in block `b`. */
  ghost function LastWrite(writes: seq<Event>, b: int): Option<Block> {
    if writes == [] then None
    else
      var k := |writes| - 1;
      if writes[k].Wrote? && writes[k].b == b then Some(writes[k].data) else LastWrite(writes[..k], b)
  }

  lemma {:induction false} ReplayAt(m: map<int, Block>, writes: seq<Event>, b: int)
    ensures b in Replay(m, writes) <==> b in m || LastWrite(writes, b).Some?
    ensures b in Replay(m, writes) ==>
              Replay(m, writes)[b] == if LastWrite(writes, b).Some? then LastWrite(writes, b).value else m[b]
  {
    if writes != [] {
      ReplayAt(m, writes[..|writes| - 1], b);
    }
  }

  lemma {:induction false} ReplayConcat(m: map<int, Block>, a: seq<Event>, b: seq<Event>)
    ensures Replay(m, a + b) == Replay(Replay(m, a), b)
  {
    if b == [] {
      assert a + b == a;
    } else {
      var k := |b| - 1;
      ReplayConcat(m, a, b[..k]);
      assert (a + b)[..|a + b| - 1] == a + b[..k];
    }
  }

  /** An operation of process `p` that logs `logged` and after which the disk is to store `after`. */
  datatype Operation = Operation(p: nat, writes: seq<Event>, logged: set<int>, after: Fs.Stored)

  /** Only writes of `p`. */
  ghost predicate WritesOf(p: nat, writes: seq<Event>) {
    forall k :: 0 <= k < |writes| ==> writes[k].Wrote? && writes[k].p == p
  }

  /** The operation leaves each block it logs as `after` has it, and writes no other. */
  ghost predicate Carries(c: Layout, sb: FsImage.Super, op: Operation)
    requires AllTyped(op.after.dinodes)
  {
    && WritesOf(op.p, op.writes)
    && (forall b :: b in op.logged ==> IsHome(c, b) && LastWrite(op.writes, b) == Some(DiskBlock(sb, op.after, b)))
    && (forall b :: b !in op.logged ==> LastWrite(op.writes, b) == None)
  }

  /** Since only logged blocks differ, the disk stores `after` when the operation is done. */
  lemma CarriedOut(c: Layout, sb: FsImage.Super, d: Fs.Stored, op: Operation)
    requires AllTyped(d.dinodes) && AllTyped(op.after.dinodes) && Carries(c, sb, op)
    requires Fs.Covered(sb, d, op.after, op.logged)
    ensures Replay(Encoded(c, sb, d), op.writes) == Encoded(c, sb, op.after)
  {
    hide DiskBlock, Fs.Covered;
    var m, m' := Replay(Encoded(c, sb, d), op.writes), Encoded(c, sb, op.after);
    forall b ensures b in m <==> b in m' {
      ReplayAt(Encoded(c, sb, d), op.writes, b);
    }
    forall b | b in m ensures m[b] == m'[b] {
      ReplayAt(Encoded(c, sb, d), op.writes, b);
      if b !in op.logged {
        OnlyLoggedChange(sb, d, op.after, op.logged, b);
      }
    }
  }

  // ----- A sequence of operations -----

  ghost function EventsOf(op: Operation): seq<Event> {
    Opened(op) + [Ended(op.p)]
  }

  ghost function Opened(op: Operation): seq<Event> {
    [Began(op.p)] + op.writes
  }

  ghost function Events(ops: seq<Operation>): seq<Event> {
    if ops == [] then [] else Events(ops[..|ops| - 1]) + EventsOf(ops[|ops| - 1])
  }

  /** What the disk is to store after `ops`. */
  function After(d: Fs.Stored, ops: seq<Operation>): Fs.Stored {
    if ops == [] then d else ops[|ops| - 1].after
  }

  /** Each operation carries the file system from where the one before it left off. */
  ghost predicate Proper(c: Layout, sb: FsImage.Super, d: Fs.Stored, ops: seq<Operation>) {
    if ops == [] then AllTyped(d.dinodes)
    else
      var k := |ops| - 1;
      && Proper(c, sb, d, ops[..k])
      && AllTyped(ops[k].after.dinodes) && Carries(c, sb, ops[k])
      && Fs.Covered(sb, After(d, ops[..k]), ops[k].after, ops[k].logged)
  }

  lemma {:induction false} ProperPrefix(c: Layout, sb: FsImage.Super, d: Fs.Stored, ops: seq<Operation>, k: nat)
    requires Proper(c, sb, d, ops) && k <= |ops|
    ensures Proper(c, sb, d, ops[..k]) && AllTyped(After(d, ops[..k]).dinodes)
  {
    if k == |ops| {
      assert ops[..k] == ops;
    } else {
      var n := |ops| - 1;
      ProperPrefix(c, sb, d, ops[..n], k);
      assert ops[..n][..k] == ops[..k];
    }
  }

  lemma ReplayOpened(m: map<int, Block>, op: Operation)
    ensures Replay(m, EventsOf(op)) == Replay(m, op.writes)
  {
    ReplayConcat(m, [Began(op.p)], op.writes);
    assert EventsOf(op)[..|EventsOf(op)| - 1] == Opened(op);
    assert Replay(m, [Began(op.p)]) == Replay(m, []);
  }

  lemma {:induction false} OperationsDone(c: Layout, sb: FsImage.Super, d: Fs.Stored, ops: seq<Operation>)
    requires Proper(c, sb, d, ops)
    ensures AllTyped(d.dinodes) && AllTyped(After(d, ops).dinodes)
    ensures Replay(Encoded(c, sb, d), Events(ops)) == Encoded(c, sb, After(d, ops))
  {
    if ops != [] {
      var k := |ops| - 1;
      OperationsDone(c, sb, d, ops[..k]);
      var m := Encoded(c, sb, d);
      ReplayConcat(m, Events(ops[..k]), EventsOf(ops[k]));
      ReplayOpened(Replay(m, Events(ops[..k])), ops[k]);
      CarriedOut(c, sb, After(d, ops[..k]), ops[k]);
    }
  }

  // ----- Whole operations at the front of a history -----

  /** What has happened: whole operations, one after the other, and then perhaps part of another. */
  ghost predicate Script(events: seq<Event>, ops: seq<Operation>, part: seq<Event>) {
    && (forall k :: 0 <= k < |ops| ==> WritesOf(ops[k].p, ops[k].writes))
    && (part == [] || (part[0].Began? && WritesOf(part[0].p, part[1..])))
    && events == Events(ops) + part
  }

  lemma {:induction false} StillOpen(events: seq<Event>, p: nat, writes: seq<Event>)
    requires WritesOf(p, writes)
    ensures p in OpenOps(events + [Began(p)] + writes)
  {
    var all := events + [Began(p)] + writes;
    if writes == [] {
      assert all[..|all| - 1] == events;
    } else {
      var k := |writes| - 1;
      StillOpen(events, p, writes[..k]);
      assert all[..|all| - 1] == events + [Began(p)] + writes[..k];
    }
  }

  /** No operation is open after the first `n` events only if they are whole operations. */
  lemma {:induction false} WholeFront(events: seq<Event>, ops: seq<Operation>, part: seq<Event>, n: nat)
    returns (k: nat)
    requires Script(events, ops, part) && n <= |events| && OpenOps(events[..n]) == {}
    ensures k <= |ops| && events[..n] == Events(ops[..k])
    decreases |ops|, |part|
  {
    var done := Events(ops);
    if n > |done| {
      var j := n - |done|;
      assert events[..n] == done + [Began(part[0].p)] + part[1..][..j - 1];
      StillOpen(done, part[0].p, part[1..][..j - 1]);
      assert false;
    } else if part != [] {
      assert done + [] == done && done[..n] == events[..n];
      k := WholeFront(done, ops, [], n);
    } else if n == |done| {
      k := |ops|;
      assert ops[..k] == ops && events[..n] == done;
    } else {
      var front, op := ops[..|ops| - 1], ops[|ops| - 1];
      var open := Events(front) + Opened(op);
      assert events == open + [Ended(op.p)];
      assert open[..n] == events[..n] && Opened(op)[1..] == op.writes;
      k := WholeFront(open, front, Opened(op), n);
      assert front[..k] == ops[..k];
    }
  }

  // ----- Crashes -----

  /** What recovery makes of the disk is the file system `d`. */
  ghost predicate Recovers(c: Layout, sb: FsImage.Super, disk: Disk, d: Fs.Stored) {
    WfDisk(c, disk) && AllTyped(d.dinodes) && Durable(c, disk) == Encoded(c, sb, d)
  }

  /** A run from a disk that stores `d` in which `ops` have been carried out and perhaps part of another. */
  ghost predicate Performs(c: Layout, s0: State, steps: seq<Step>, sb: FsImage.Super, d: Fs.Stored,
                           ops: seq<Operation>, part: seq<Event>) {
    && Boot(c, s0) && ValidRun(c, s0, steps) && Proper(c, sb, d, ops) && Recovers(c, sb, s0.disk, d)
    && var h := HistoryOf(c, s0, steps); Script(h.committed + h.pending, ops, part)
  }

  /** Whatever the interleaving of disk writes and crashes, recovery gives back the file system as
      it was after some number of whole operations. */
  lemma CrashConsistency(c: Layout, s0: State, steps: seq<Step>, sb: FsImage.Super, d: Fs.Stored,
                         ops: seq<Operation>, part: seq<Event>)
    requires Performs(c, s0, steps, sb, d, ops, part) && FittingRun(c, s0, steps)
    ensures exists k :: 0 <= k <= |ops| && Recovers(c, sb, Last(c, s0, steps).disk, After(d, ops[..k]))
  {
    hide Proper, Durable, Encoded, ValidRun, FittingRun;
    FittingAtomicity(c, s0, steps);
    var h := HistoryOf(c, s0, steps);
    var events, n := h.committed + h.pending, |h.committed|;
    assert events[..n] == h.committed;
    var k := WholeFront(events, ops, part, n);
    ProperPrefix(c, sb, d, ops, k);
    OperationsDone(c, sb, d, ops[..k]);
    assert Recovers(c, sb, Last(c, s0, steps).disk, After(d, ops[..k]));
  }

  /** With one operation open at a time nothing need be assumed about the log: not its size, and no budget. */
  lemma SerialConsistency(c: Layout, s0: State, steps: seq<Step>, sb: FsImage.Super, d: Fs.Stored,
                          ops: seq<Operation>, part: seq<Event>)
    requires Performs(c, s0, steps, sb, d, ops, part) && OneAtATime(c, s0, steps)
    ensures exists k :: 0 <= k <= |ops| && Recovers(c, sb, Last(c, s0, steps).disk, After(d, ops[..k]))
  {
    OneAtATimeFits(c, s0, steps);
    CrashConsistency(c, s0, steps, sb, d, ops, part);
  }

  // ----- A crash during filewrite -----

  /** The operations are the chunks of a write, with what filewrite logged and left on the disk. */
  ghost predicate Chunks(c: Layout, sb: FsImage.Super, ops: seq<Operation>, trail: seq<Fs.Stored>,
                         logs: seq<set<int>>, i: nat, off: nat, src: seq<byte>) {
    && FileCode.Trail(sb, trail, logs, i, off, src) && |ops| == |logs|
    && (forall k :: 0 <= k < |trail| ==> AllTyped(trail[k].dinodes))
    && (forall k :: 0 <= k < |ops| ==>
          ops[k].logged == logs[k] && ops[k].after == trail[k + 1] && Carries(c, sb, ops[k]))
  }

  /** A run in which the chunks are written one after the other. */
  ghost predicate Writes(c: Layout, s0: State, steps: seq<Step>, sb: FsImage.Super, ops: seq<Operation>,
                         part: seq<Event>, trail: seq<Fs.Stored>, logs: seq<set<int>>, i: nat, off: nat,
                         src: seq<byte>) {
    && Boot(c, s0) && ValidRun(c, s0, steps) && Chunks(c, sb, ops, trail, logs, i, off, src)
    && Recovers(c, sb, s0.disk, trail[0])
    && var h := HistoryOf(c, s0, steps); Script(h.committed + h.pending, ops, part)
  }

  /** Recovery finds the first `k` chunks of `src` in the file and nothing else changed. */
  ghost predicate Leaves(c: Layout, sb: FsImage.Super, disk: Disk, trail: seq<Fs.Stored>, k: nat, i: nat, off: nat,
                         src: seq<byte>) {
    && k < |trail| && Recovers(c, sb, disk, trail[k])
    && FileCode.Written(sb, FileCode.Stands(trail[0]), FileCode.Stands(trail[k]), i, off,
                        src[..Min(k * Fs.CHUNK, |src|)])
  }

  /** A crash during filewrite leaves a whole number of chunks in the file. */
  lemma FileWriteCrash(c: Layout, s0: State, steps: seq<Step>, sb: FsImage.Super, ops: seq<Operation>,
                       part: seq<Event>, trail: seq<Fs.Stored>, logs: seq<set<int>>, i: nat, off: nat, src: seq<byte>)
    requires Writes(c, s0, steps, sb, ops, part, trail, logs, i, off, src) && FittingRun(c, s0, steps)
    ensures exists k: nat :: Leaves(c, sb, Last(c, s0, steps).disk, trail, k, i, off, src)
  {
    hide FileCode.Written, Durable, Encoded, ValidRun, FittingRun, Script, Carries, Recovers;
    ProperTrail(c, sb, ops, trail, logs, i, off, src, |ops|);
    assert ops[..|ops|] == ops;
    CrashConsistency(c, s0, steps, sb, trail[0], ops, part);
    var k :| 0 <= k <= |ops| && Recovers(c, sb, Last(c, s0, steps).disk, After(trail[0], ops[..k]));
    assert k > 0 ==> ops[..k][k - 1] == ops[k - 1];
    assert After(trail[0], ops[..k]) == trail[k];
    assert Leaves(c, sb, Last(c, s0, steps).disk, trail, k, i, off, src);
  }

  /** So it does for every log, mkfs's included, when one operation is open at a time, although full chunks
      exceed the reservation. */
  lemma FileWriteCrashAlone(c: Layout, s0: State, steps: seq<Step>, sb: FsImage.Super, ops: seq<Operation>,
                            part: seq<Event>, trail: seq<Fs.Stored>, logs: seq<set<int>>, i: nat, off: nat,
                            src: seq<byte>)
    requires Writes(c, s0, steps, sb, ops, part, trail, logs, i, off, src) && OneAtATime(c, s0, steps)
    ensures exists k: nat :: Leaves(c, sb, Last(c, s0, steps).disk, trail, k, i, off, src)
  {
    OneAtATimeFits(c, s0, steps);
    FileWriteCrash(c, s0, steps, sb, ops, part, trail, logs, i, off, src);
  }

  lemma {:induction false} ProperTrail(c: Layout, sb: FsImage.Super, ops: seq<Operation>, trail: seq<Fs.Stored>,
                                       logs: seq<set<int>>, i: nat, off: nat, src: seq<byte>, n: nat)
    requires Chunks(c, sb, ops, trail, logs, i, off, src) && n <= |ops|
    ensures Proper(c, sb, trail[0], ops[..n])
  {
    hide FileCode.Written, Carries, Fs.Covered;
    if n > 0 {
      ProperTrail(c, sb, ops, trail, logs, i, off, src, n - 1);
      assert ops[..n][..n - 1] == ops[..n - 1];
      assert FileCode.LinkedBy(sb, trail, n - 1, logs[n - 1]);
      assert n > 1 ==> ops[..n - 1][n - 2] == ops[n - 2];
      assert After(trail[0], ops[..n - 1]) == trail[n - 1];
    }
  }
}
