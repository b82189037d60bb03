/** The code of log.c: the in-memory header is an array updated in place, blocks are copied
    in loops, and every disk write is one step of the transition system, so that a crash
    between any two of them is covered by its theorems. */
module LogCode {
  import opened Common
  import opened LogDisk
  import opened LogMachine
  import opened LogInvariant
  import opened LogBudget

  // ----- Consecutive writes of the committing process -----

  /** The state after `k` steps of the committing or recovering process. */
  function After(c: Layout, s: State, k: nat): State {
    if k == 0 then s else Do(c, After(c, s, k - 1), LogStep)
  }

  /** None of the first `k` steps has to wait. */
  ghost predicate Unhindered(c: Layout, s: State, k: nat) {
    forall i :: 0 <= i < k ==> Enabled(c, After(c, s, i), LogStep)
  }

  lemma {:induction false} AfterAfter(c: Layout, s: State, j: nat, k: nat)
    requires Unhindered(c, s, j) && Unhindered(c, After(c, s, j), k)
    ensures After(c, After(c, s, j), k) == After(c, s, j + k)
    ensures Unhindered(c, s, j + k)
  {
    hide Do, Enabled;
    if k > 0 {
      AfterAfter(c, s, j, k - 1);
      assert Enabled(c, After(c, After(c, s, j), k - 1), LogStep);
    }
  }

  /** What a commit or a recovery under way will leave on the home blocks. */
  ghost function Outcome(c: Layout, s: State): map<int, Block>
    requires Shape(c, s)
  {
    if s.phase.WritingLog? then Current(c, s) else Durable(c, s.disk)
  }

  lemma OutcomeStep(c: Layout, s: State)
    requires Inv(c, s) && Enabled(c, s, LogStep)
    ensures Inv(c, Do(c, s, LogStep)) && Shape(c, s) && Shape(c, Do(c, s, LogStep))
    ensures Outcome(c, Do(c, s, LogStep)) == Outcome(c, s)
  {
    StepKeeps(c, s, LogStep);
  }

  /** Every write keeps the outcome, so a crash after any of them does as well. */
  lemma {:induction false} OutcomeKept(c: Layout, s: State, k: nat)
    requires Inv(c, s) && Unhindered(c, s, k)
    ensures Inv(c, After(c, s, k))
    ensures Shape(c, s) && Shape(c, After(c, s, k))
    ensures !s.phase.Finishing? && !s.phase.Running? ==>
              Outcome(c, After(c, s, k)) == Outcome(c, s)
  {
    hide Do, OpsOk, CacheOk, PhaseOk, Shape, Outcome, Enabled;
    if k > 0 {
      OutcomeKept(c, s, k - 1);
      assert Enabled(c, After(c, s, k - 1), LogStep);
      OutcomeStep(c, After(c, s, k - 1));
    }
  }

  /** A commit that has finished, or a recovery that has, left its outcome at home. */
  lemma OutcomeAtHome(c: Layout, s: State, k: nat)
    requires Inv(c, s) && Unhindered(c, s, k)
    requires !s.phase.Running? && !s.phase.Finishing?
    requires After(c, s, k).phase.Running? || After(c, s, k).phase.Finishing?
    ensures WfDisk(c, After(c, s, k).disk)
    ensures HomeBlocks(c, After(c, s, k).disk) == Outcome(c, s)
  {
    OutcomeKept(c, s, k);
    EmptyHeader(c, After(c, s, k).disk);
  }

  /** With nothing logged, the home blocks are already what operations see. */
  lemma NothingLogged(c: Layout, s: State)
    requires Inv(c, s) && s.phase.Finishing?
    ensures HomeBlocks(c, s.disk) == Current(c, s)
  {
    NoneInside(s.procs);
    forall b | IsHome(c, b) ensures View(s, b) == s.disk[b] {
      assert b in s.cache ==> BufOk(c, s, b);
    }
  }

  lemma EndIsStep(c: Layout, s: State, p: nat)
    requires Inv(c, s) && Enabled(c, s, Step.EndOp(p))
    ensures var s' := Do(c, s, Step.EndOp(p));
            && Inv(c, s') && Current(c, s') == Current(c, s) && s'.lh == s.lh
            && (s'.outstanding == 0 ==> s'.phase == if |s.lh| > 0 then WritingLog(0) else Finishing)
            && (s'.outstanding != 0 ==> s'.phase == Running)
  {
    StepKeeps(c, s, Step.EndOp(p));
    NoneInside(s.procs);
  }

  /** What the second half of `log_write` may rely on. */
  lemma CheckedFits(c: Layout, s: State, p: nat)
    requires Inv(c, s) && Within(s) && p < |s.procs| && s.procs[p].Inside? && s.procs[p].checked.Some?
    ensures |s.lh| < LOGSIZE || s.procs[p].checked.value in s.lh
    ensures s.procs[p].checked.value in s.cache
  {
    RoomFor(s, p);
  }

  class Log {
    const c: Layout
    var disk: Disk
    var cache: map<int, Buf>
    var n: int
    const block: array<int>
    var outstanding: int
    var committing: bool

    // Ghosts of control state: where the committing process and the operations stand.
    ghost var phase: Phase
    ghost var procs: seq<Op>

    ghost predicate Valid()
      reads this
    {
      block.Length == LOGSIZE && 0 <= n <= LOGSIZE
    }

    ghost function Abs(): State
      requires Valid()
      reads this, block
    {
      State(disk, cache, block[..n], outstanding, committing, phase, procs, false)
    }

    /** Nobody holds the buffer of a logged block; commit waits for such a holder. */
    ghost predicate LogUnheld()
      requires Valid()
      reads this, block
    {
      forall i :: 0 <= i < n && block[i] in cache ==> cache[block[i]].holder.None?
    }

    /** Switching the machine on: memory is empty, the disk is as it was found. */
    constructor (c: Layout, disk: Disk, ghost nprocs: nat)
      requires WfDisk(c, disk)
      ensures Valid() && fresh(block) && this.c == c && |procs| == nprocs
      ensures Boot(c, Abs()) && this.disk == disk
    {
      this.c, this.disk, cache, n, outstanding, committing := c, disk, map[], 0, 0, false;
      block := new int[LOGSIZE];
      phase := ReadingHead;
      procs := seq(nprocs, i => Outside);
    }

    // ----- Blocks through the cache -----

    function Read(b: int): Block
      reads this
    {
      if b in cache then cache[b].data else Get(disk, b)
    }

    /** Overwrite a block in the cache and on the disk. */
    method Write(b: int, x: Block)
      modifies this`disk, this`cache
      ensures disk == Put(old(disk), b, x)
      ensures cache == old(cache)[b := Buf(x, false, None, false)]
    {
      cache := cache[b := Buf(x, false, None, false)];
      if 0 <= b < |disk| {
        disk := disk[b := x];
      }
    }

    // ----- Commit -----

    method WriteLogBlock(tail: nat)
      requires Valid() && LogUnheld() && phase == WritingLog(tail) && tail < n
      modifies this`disk, this`cache, this`phase
      ensures LogUnheld() && phase == WritingLog(tail + 1)
      ensures Abs() == Do(c, old(Abs()), LogStep)
    {
      assert Abs().lh[tail] == block[tail];
      var from := Read(block[tail]);
      Write(c.start + 1 + tail, from);
      phase := WritingLog(tail + 1);
    }

    /** Copy the logged blocks from the cache to the log. */
    method WriteLog() returns (ghost k: nat)
      requires Valid() && LogUnheld() && phase == WritingLog(0)
      modifies this`disk, this`cache, this`phase
      ensures LogUnheld() && phase == WritingLog(n)
      ensures Unhindered(c, old(Abs()), k) && Abs() == After(c, old(Abs()), k)
    {
      hide Do;
      var tail := 0;
      while tail < n
        invariant 0 <= tail <= n
        invariant LogUnheld() && phase == WritingLog(tail)
        invariant Unhindered(c, old(Abs()), tail) && Abs() == After(c, old(Abs()), tail)
      {
        WriteLogBlock(tail);
        tail := tail + 1;
      }
      k := tail;
    }

    /** The header block with the in-memory count and entries written over it. */
    method HeaderImage(h: Block) returns (hb: Block)
      requires Valid()
      ensures hb == PutEntries(h, block[..n])
    {
      hb := h[0 := n];
      var i := 0;
      while i < n
        invariant 0 <= i <= n
        invariant hb == [n] + block[..i] + h[1 + i..]
      {
        hb := hb[1 + i := block[i]];
        i := i + 1;
      }
    }

    method WriteHeader()
      requires Valid()
      modifies this`disk, this`cache
      ensures Abs() == WriteHead(c, old(Abs()), block[..n])
    {
      var hb := HeaderImage(Read(c.start));
      Write(c.start, hb);
    }

    method InstallBlock(tail: nat)
      requires Valid() && LogUnheld() && tail < n
      requires phase == Installing(tail) || phase == Reinstalling(tail)
      modifies this`disk, this`cache, this`phase
      ensures LogUnheld()
      ensures phase == if old(phase).Installing? then Installing(tail + 1) else Reinstalling(tail + 1)
      ensures Abs() == Do(c, old(Abs()), LogStep)
    {
      assert Abs().lh[tail] == block[tail];
      var lbuf := Read(c.start + 1 + tail);
      Write(block[tail], lbuf);
      phase := if phase.Installing? then Installing(tail + 1) else Reinstalling(tail + 1);
    }

    /** Copy the log to the home locations, in a commit or in recovery. */
    method InstallTrans() returns (ghost k: nat)
      requires Valid() && LogUnheld() && (phase == Installing(0) || phase == Reinstalling(0))
      modifies this`disk, this`cache, this`phase
      ensures LogUnheld()
      ensures phase == if old(phase).Installing? then Installing(n) else Reinstalling(n)
      ensures Unhindered(c, old(Abs()), k) && Abs() == After(c, old(Abs()), k)
    {
      hide Do;
      var tail := 0;
      while tail < n
        invariant 0 <= tail <= n
        invariant LogUnheld()
        invariant phase == if old(phase).Installing? then Installing(tail) else Reinstalling(tail)
        invariant Unhindered(c, old(Abs()), tail) && Abs() == After(c, old(Abs()), tail)
      {
        InstallBlock(tail);
        tail := tail + 1;
      }
      k := tail;
    }

    /** Erase the transaction: count zero in memory, then on disk. */
    method Erase()
      requires Valid() && LogUnheld() && (phase == Installing(n) || phase == Reinstalling(n))
      modifies this`disk, this`cache, this`n, this`phase
      ensures Valid() && LogUnheld() && n == 0
      ensures phase == if old(phase).Installing? then Finishing else Running
      ensures Abs() == Do(c, old(Abs()), LogStep)
    {
      n := 0;
      assert block[..0] == [];
      WriteHeader();
      phase := if phase.Installing? then Finishing else Running;
    }

    /** Write the header of a complete log: the commit point. */
    method CommitHeader()
      requires Valid() && LogUnheld() && phase == WritingLog(n)
      modifies this`disk, this`cache, this`phase
      ensures LogUnheld() && phase == Installing(0)
      ensures Abs() == Do(c, old(Abs()), LogStep)
    {
      WriteHeader();
      phase := Installing(0);
    }

    /** The four stages of a commit, as one stretch of steps. */
    method CommitLogged() returns (ghost k: nat)
      requires Valid() && LogUnheld() && phase == WritingLog(0)
      modifies this`disk, this`cache, this`n, this`phase
      ensures Valid() && LogUnheld() && n == 0 && phase == Finishing
      ensures Unhindered(c, old(Abs()), k) && Abs() == After(c, old(Abs()), k)
    {
      hide Do;
      ghost var s := Abs();
      k := WriteLog();
      CommitHeader();
      k := k + 1;
      ghost var j := InstallTrans();
      AfterAfter(c, s, k, j);
      Erase();
      k := k + j + 1;
    }

    /** Every disk write of a commit is a step, and afterwards the home blocks on the disk
        hold what the committed operations saw. */
    method Commit() returns (ghost k: nat)
      requires Valid() && LogUnheld() && Inv(c, Abs())
      requires phase == if n > 0 then WritingLog(0) else Finishing
      modifies this`disk, this`cache, this`n, this`phase
      ensures Valid() && LogUnheld() && n == 0 && phase == Finishing
      ensures Unhindered(c, old(Abs()), k) && Abs() == After(c, old(Abs()), k)
      ensures WfDisk(c, disk) && HomeBlocks(c, disk) == old(Current(c, Abs()))
    {
      ghost var s := Abs();
      k := 0;
      if n > 0 {
        k := CommitLogged();
        OutcomeAtHome(c, s, k);
      } else {
        NothingLogged(c, s);
      }
    }

    // ----- Recovery -----

    /** Copy count and entries of a header block into the in-memory header. */
    method CopyEntries(h: Block)
      requires block.Length == LOGSIZE && CountOk(h)
      modifies this`n, block
      ensures n == h[0] && block[..n] == Entries(h)
    {
      n := h[0];
      var i := 0;
      while i < n
        invariant 0 <= i <= n
        invariant forall k :: 0 <= k < i ==> block[k] == h[1 + k]
        modifies block
      {
        block[i] := h[1 + i];
        i := i + 1;
      }
    }

    /** Read the header from disk into the in-memory header. */
    method ReadHead()
      requires Valid() && phase == ReadingHead && CountOk(Read(c.start))
      modifies this`n, block, this`phase
      ensures Valid() && phase == Reinstalling(0)
      ensures Abs() == Do(c, old(Abs()), LogStep)
    {
      var h := Read(c.start);
      CopyEntries(h);
      phase := Reinstalling(0);
    }

    method RecoverLogged() returns (ghost k: nat)
      requires Valid() && cache == map[] && phase == ReadingHead && CountOk(Read(c.start))
      modifies this`disk, this`cache, this`n, block, this`phase
      ensures Valid() && LogUnheld() && phase == Running && n == 0
      ensures Unhindered(c, old(Abs()), k) && Abs() == After(c, old(Abs()), k)
    {
      hide Do;
      ghost var s := Abs();
      ReadHead();
      ghost var j := InstallTrans();
      assert After(c, s, 1) == Do(c, s, LogStep) by { assert After(c, s, 0) == s; }
      AfterAfter(c, s, 1, j);
      Erase();
      k := 1 + j + 1;
    }

    /** Every disk write of a recovery is a step, and afterwards the home blocks are what the
        disk image meant before. */
    method RecoverFromLog() returns (ghost k: nat)
      requires Valid() && phase == ReadingHead && Inv(c, Abs())
      modifies this`disk, this`cache, this`n, block, this`phase
      ensures Valid() && LogUnheld() && phase == Running && n == 0
      ensures Unhindered(c, old(Abs()), k) && Abs() == After(c, old(Abs()), k)
      ensures WfDisk(c, disk) && HomeBlocks(c, disk) == old(Durable(c, disk))
    {
      ghost var s := Abs();
      k := RecoverLogged();
      OutcomeAtHome(c, s, k);
    }

    // ----- Operations -----

    /** One turn of `begin_op`'s loop under the lock: admitted, or left asleep. */
    method BeginOp(ghost p: nat) returns (admitted: bool)
      requires Valid() && Inv(c, Abs()) && p < |procs| && procs[p].Outside? && Up(Abs())
      modifies this`outstanding, this`procs
      ensures admitted <==> old(Enabled(c, Abs(), Step.BeginOp(p)))
      ensures admitted <==> !old(committing) && old(n) + (old(outstanding) + 1) * 10 <= 30
      ensures Abs() == if admitted then Do(c, old(Abs()), Step.BeginOp(p)) else old(Abs())
    {
      admitted := !committing && n + (outstanding + 1) * MAXOPBLOCKS <= LOGSIZE;
      if admitted {
        outstanding := outstanding + 1;
        procs := procs[p := Inside(0, 0, None)];
      }
    }

    /** The first half of `end_op`: the last operation out commits, and never finds another
        commit under way. */
    method EndOp(ghost p: nat) returns (doCommit: bool)
      requires Valid() && Inv(c, Abs()) && Enabled(c, Abs(), Step.EndOp(p))
      modifies this`outstanding, this`committing, this`phase, this`procs
      ensures !old(committing)
      ensures doCommit <==> outstanding == 0
      ensures doCommit <==> committing
      ensures Abs() == Do(c, old(Abs()), Step.EndOp(p))
    {
      NoneInside(procs);
      outstanding := outstanding - 1;
      procs := procs[p := Outside];
      doCommit := false;
      if outstanding == 0 {
        doCommit := true;
        committing := true;
        phase := if n > 0 then WritingLog(0) else Finishing;
      }
    }

    /** All of `end_op`: if it is the last operation out, the commit it runs leaves on the home blocks what
        operations saw, and the next operation may begin. */
    method FinishOp(ghost p: nat) returns (ghost k: nat)
      requires Valid() && LogUnheld() && Inv(c, Abs()) && Enabled(c, Abs(), Step.EndOp(p))
      modifies this`disk, this`cache, this`n, this`outstanding, this`committing, this`phase, this`procs
      ensures Valid() && !committing && phase == Running
      ensures Inv(c, Do(c, old(Abs()), Step.EndOp(p)))
      ensures Unhindered(c, Do(c, old(Abs()), Step.EndOp(p)), k)
      ensures Abs() == After(c, Do(c, old(Abs()), Step.EndOp(p)), k)
      ensures outstanding > 0 ==> k == 0
      ensures outstanding == 0 ==>
                n == 0 && WfDisk(c, disk) && HomeBlocks(c, disk) == old(Current(c, Abs()))
    {
      hide Do, Inv;
      ghost var s := Abs();
      EndIsStep(c, s, p);
      var doCommit := EndOp(p);
      k := 0;
      if doCommit {
        k := Commit();
        Reopen();
        k := k + 1;
      }
    }

    /** The end of `end_op`: the log is open for operations again. */
    method Reopen()
      requires Valid() && phase == Finishing
      modifies this`committing, this`phase
      ensures !committing && phase == Running && Abs() == Do(c, old(Abs()), LogStep)
    {
      committing := false;
      phase := Running;
    }

    /** Add a block number to the in-memory header, unless it is there already. */
    method AddBlock(b: int)
      requires block.Length == LOGSIZE && 0 <= n <= LOGSIZE && (n < LOGSIZE || b in block[..n])
      modifies this`n, block
      ensures 0 <= n <= LOGSIZE
      ensures block[..n] == if b in old(block[..n]) then old(block[..n]) else old(block[..n]) + [b]
    {
      var i := 0;
      while i < n && block[i] != b
        invariant 0 <= i <= n
        invariant b !in block[..i]
      {
        i := i + 1;
      }
      assert i < n ==> block[..n][i] == b;
      assert i == n ==> block[..i] == block[..n];
      block[i] := b;
      if i == n {
        n := n + 1;
      }
    }

    /** The locked half of `log_write`: the block joins the transaction once, and is pinned. */
    method LogWrite(ghost p: nat, b: int)
      requires Valid() && Inv(c, Abs()) && Within(Abs())
      requires p < |procs| && procs[p].Inside? && procs[p].checked == Some(b)
      modifies this`n, block, this`cache, this`procs
      ensures Valid()
      ensures Abs() == Do(c, old(Abs()), Absorb(p))
    {
      hide Inv, Unhindered, After;
      CheckedFits(c, Abs(), p);
      AddBlock(b);
      cache := cache[b := cache[b].(dirty := true, changed := false)];
      procs := procs[p := Charged(procs[p], b in old(block[..n]))];
    }
  }
}
