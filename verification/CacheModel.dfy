/** The block cache over a disk, seen as one map from block numbers to contents. */
module CacheModel {
  type Data = seq<char>

  /** Device of the disk; buffers that were never used are keyed (0, 0). */
  const ROOTDEV: nat := 1

  datatype Buf = Buf(dev: nat, blockno: nat, refcnt: nat, valid: bool, dirty: bool, data: Data, locked: bool)

  predicate Keyed(bufs: seq<Buf>, i: nat, dev: nat, blockno: nat) {
    i < |bufs| && bufs[i].dev == dev && bufs[i].blockno == blockno
  }

  predicate Caches(bufs: seq<Buf>, i: nat, n: nat) {
    Keyed(bufs, i, ROOTDEV, n) && bufs[i].valid
  }

  /** At most one buffer per block. */
  ghost predicate Keys(bufs: seq<Buf>) {
    forall i: nat, j: nat, dev: nat, n: nat :: dev != 0 && Keyed(bufs, i, dev, n) && Keyed(bufs, j, dev, n) ==> i == j
  }

  /** The contents of block `n`: those of its buffer if it has a valid one, else those on disk. */
  ghost function View(bufs: seq<Buf>, disk: seq<Data>, n: nat): Data
    requires n < |disk|
  {
    if exists i: nat :: Caches(bufs, i, n) then
      var i: nat :| Caches(bufs, i, n);
      bufs[i].data
    else disk[n]
  }

  /** A buffer's flags.  `touched` are the buffers changed since they were last read, marked or written. */
  predicate BufOk(bufs: seq<Buf>, disk: seq<Data>, touched: set<nat>, i: nat)
    requires i < |bufs|
  {
    var b := bufs[i];
    && (b.valid ==> b.dev == ROOTDEV && b.blockno < |disk|)
    && (b.dirty ==> b.valid)
    && (b.locked ==> 0 < b.refcnt)
    && (i in touched ==> b.locked && b.valid)
    && (b.valid && !b.dirty && i !in touched ==> b.data == disk[b.blockno])
  }

  ghost predicate Consistent(bufs: seq<Buf>, disk: seq<Data>, touched: set<nat>) {
    Keys(bufs) && forall i: nat :: i < |bufs| ==> BufOk(bufs, disk, touched, i)
  }

  // ----- The view through an update -----

  lemma ViewIs(bufs: seq<Buf>, disk: seq<Data>, n: nat, i: nat)
    requires Keys(bufs) && Caches(bufs, i, n) && n < |disk|
    ensures View(bufs, disk, n) == bufs[i].data
  {
  }

  lemma ViewMisses(bufs: seq<Buf>, disk: seq<Data>, n: nat)
    requires n < |disk| && forall i: nat :: !Caches(bufs, i, n)
    ensures View(bufs, disk, n) == disk[n]
  {
  }

  /** Buffer `b` becomes `x`, which keeps its key and its contents if it has any. */
  lemma SameView(bufs: seq<Buf>, disk: seq<Data>, b: nat, x: Buf, n: nat)
    requires b < |bufs| && Keys(bufs) && n < |disk|
    requires x.dev == bufs[b].dev && x.blockno == bufs[b].blockno && x.valid == bufs[b].valid && x.data == bufs[b].data
    ensures Keys(bufs[b := x]) && View(bufs[b := x], disk, n) == View(bufs, disk, n)
  {
    var bs := bufs[b := x];
    SameKeys(bufs, b, x);
    assert forall i: nat :: Caches(bs, i, n) <==> Caches(bufs, i, n);
    if exists i: nat :: Caches(bufs, i, n) {
      var i: nat :| Caches(bufs, i, n);
      ViewIs(bufs, disk, n, i);
      ViewIs(bs, disk, n, i);
    }
  }

  lemma SameKeys(bufs: seq<Buf>, b: nat, x: Buf)
    requires b < |bufs| && Keys(bufs) && x.dev == bufs[b].dev && x.blockno == bufs[b].blockno
    ensures Keys(bufs[b := x])
  {
    var bs := bufs[b := x];
    assert forall i: nat, dev: nat, n: nat :: Keyed(bs, i, dev, n) <==> Keyed(bufs, i, dev, n);
  }

  /** Buffer `b` now holds `x.data` for its block, and the disk may have been given the same. */
  lemma NewView(bufs: seq<Buf>, disk: seq<Data>, b: nat, x: Buf, disk1: seq<Data>, n: nat)
    requires b < |bufs| && Keys(bufs) && n < |disk| == |disk1|
    requires x.dev == bufs[b].dev == ROOTDEV && x.blockno == bufs[b].blockno && x.valid
    requires forall k :: 0 <= k < |disk| && k != x.blockno ==> disk1[k] == disk[k]
    ensures Keys(bufs[b := x])
    ensures View(bufs[b := x], disk1, n) == if n == x.blockno then x.data else View(bufs, disk, n)
  {
    var bs := bufs[b := x];
    SameKeys(bufs, b, x);
    if n == x.blockno {
      assert Caches(bs, b, n);
      ViewIs(bs, disk1, n, b);
    } else {
      assert forall i: nat :: Caches(bs, i, n) <==> Caches(bufs, i, n);
      if exists i: nat :: Caches(bufs, i, n) {
        var i: nat :| Caches(bufs, i, n);
        ViewIs(bufs, disk, n, i);
        ViewIs(bs, disk1, n, i);
      }
    }
  }

  lemma RecycledKeys(bufs: seq<Buf>, b: nat, x: Buf)
    requires Keys(bufs) && b < |bufs| && x.dev != 0 && forall i: nat :: !Keyed(bufs, i, x.dev, x.blockno)
    ensures Keys(bufs[b := x])
  {
    var bs := bufs[b := x];
    forall i: nat, dev: nat, m: nat | Keyed(bs, i, dev, m)
      ensures if i == b then dev == x.dev && m == x.blockno else Keyed(bufs, i, dev, m)
    {
    }
  }

  /** A clean buffer is given to a block that has none. */
  lemma RecycledView(bufs: seq<Buf>, disk: seq<Data>, touched: set<nat>, b: nat, x: Buf, n: nat)
    requires Consistent(bufs, disk, touched) && b < |bufs| && n < |disk| && !x.valid
    requires !bufs[b].dirty && bufs[b].refcnt == 0
    requires x.dev != 0 && forall i: nat :: !Keyed(bufs, i, x.dev, x.blockno)
    ensures Keys(bufs[b := x]) && View(bufs[b := x], disk, n) == View(bufs, disk, n)
  {
    var bs := bufs[b := x];
    assert BufOk(bufs, disk, touched, b);
    RecycledKeys(bufs, b, x);
    if Caches(bufs, b, n) {
      ViewIs(bufs, disk, n, b);
      forall i: nat ensures !Caches(bs, i, n) {
        assert Caches(bs, i, n) ==> Keyed(bufs, i, ROOTDEV, n) && i != b;
      }
      ViewMisses(bs, disk, n);
    } else {
      assert forall i: nat :: Caches(bs, i, n) <==> Caches(bufs, i, n);
      if exists i: nat :: Caches(bufs, i, n) {
        var i: nat :| Caches(bufs, i, n);
        ViewIs(bufs, disk, n, i);
        ViewIs(bs, disk, n, i);
      }
    }
  }

  /** Filling a buffer from disk shows what was there. */
  lemma FilledView(bufs: seq<Buf>, disk: seq<Data>, b: nat, n: nat)
    requires b < |bufs| && Keys(bufs) && bufs[b].dev == ROOTDEV && !bufs[b].valid && bufs[b].blockno < |disk|
    requires n < |disk|
    ensures var x := bufs[b].(data := disk[bufs[b].blockno], valid := true);
            Keys(bufs[b := x]) && View(bufs[b := x], disk, n) == View(bufs, disk, n)
  {
    var x := bufs[b].(data := disk[bufs[b].blockno], valid := true);
    NewView(bufs, disk, b, x, disk, n);
    if n == x.blockno {
      forall i: nat ensures !Caches(bufs, i, n) {
        assert Keyed(bufs, b, ROOTDEV, n);
      }
      ViewMisses(bufs, disk, n);
    }
  }

  /** One buffer changes; the others stay as they are. */
  lemma BufsOk(bufs: seq<Buf>, disk: seq<Data>, touched: set<nat>, b: nat, x: Buf, touched1: set<nat>)
    requires Consistent(bufs, disk, touched) && b < |bufs| && Keys(bufs[b := x])
    requires touched1 - {b} == touched - {b} && BufOk(bufs[b := x], disk, touched1, b)
    ensures Consistent(bufs[b := x], disk, touched1)
  {
    var bs := bufs[b := x];
    forall i: nat | i < |bs| ensures BufOk(bs, disk, touched1, i) {
      assert BufOk(bufs, disk, touched, i);
      assert i != b ==> (i in touched1 <==> i in touched1 - {b}) && (i in touched <==> i in touched - {b});
    }
  }
}
