/** bio.c and the memory disk: buffers in a list by recency of release. */
module CacheCode {
  import opened Common
  import opened CacheList
  import opened CacheModel

  const NBUF: nat := 30
  const HEAD: nat := NBUF

  // ----- The list as an order of release -----

  /** The head of the list and then every buffer, each once. */
  ghost predicate AllBuffers(ring: seq<nat>) {
    && 0 < |ring| && ring[0] == HEAD && NoRepeat(ring)
    && (forall i :: 0 < i < |ring| ==> ring[i] < NBUF)
    && (forall b: nat :: b < NBUF ==> b in ring)
  }

  /** In order of release, the latest first. */
  ghost predicate ByRelease(ring: seq<nat>, stamp: seq<nat>, clock: nat) {
    && |stamp| == NBUF && (forall b :: 0 <= b < NBUF ==> stamp[b] < clock)
    && (forall i, j :: 0 < i < j < |ring| ==> ring[i] < NBUF && ring[j] < NBUF && stamp[ring[i]] > stamp[ring[j]])
  }

  function Moved(ring: seq<nat>, k: nat): seq<nat>
    requires 0 < k < |ring|
  {
    Pushed(Without(ring, k), ring[k])
  }

  lemma MovedAll(ring: seq<nat>, k: nat)
    requires AllBuffers(ring) && 0 < k < |ring|
    ensures ring[k] !in Without(ring, k) && AllBuffers(Moved(ring, k))
  {
    var w := Without(ring, k);
    assert forall i :: 0 <= i < |w| ==> w[i] == ring[if i < k then i else i + 1];
    assert NoRepeat(w);
    PushNoRepeat(w, ring[k]);
    var m := Moved(ring, k);
    forall b: nat | b < NBUF ensures b in m {
      var i := IndexOf(ring, b);
      assert m[if i == k then 1 else if i < k then i + 1 else i] == b;
    }
    assert forall i :: 2 <= i < |m| ==> m[i] == w[i - 1];
  }

  lemma MovedByRelease(ring: seq<nat>, stamp: seq<nat>, clock: nat, k: nat)
    requires AllBuffers(ring) && ByRelease(ring, stamp, clock) && 0 < k < |ring|
    ensures ring[k] < |stamp| == NBUF && ByRelease(Moved(ring, k), stamp[ring[k] := clock], clock + 1)
  {
    var m := Moved(ring, k);
    assert m[0] == ring[0] && m[1] == ring[k];
    assert forall i :: 2 <= i < |m| ==> m[i] == ring[if i <= k then i - 1 else i];
  }

  predicate Reusable(b: Buf) { b.refcnt == 0 && !b.dirty }

  /** A locked buffer, one that another process has locked, or a panic. */
  datatype Read = Got(b: nat) | Asleep(b: nat) | ReadPanic

  datatype Done = Ok | NotLocked | NothingToDo | NotDiskOne | OutOfRange

  lemma Position(ring: seq<nat>, b: nat) returns (k: nat)
    requires AllBuffers(ring) && b < NBUF
    ensures 0 < k < |ring| && ring[k] == b && Without(ring, k)[0] == HEAD
  {
    k := IndexOf(ring, b);
  }

  lemma OthersLinked(next: seq<nat>, prev: seq<nat>, ring: seq<nat>, k: nat)
    requires Linked(next, prev, ring) && 0 < k < |ring|
    ensures ring[k] < |next| && next[ring[k]] != ring[k] && prev[ring[k]] != ring[k]
  {
    assert LinkAt(next, prev, ring, k) && LinkAt(next, prev, ring, k - 1);
  }

  // ----- Each operation on the buffers and the disk -----

  ghost predicate SameContents(bufs: seq<Buf>, disk: seq<Data>, bufs1: seq<Buf>, disk1: seq<Data>) {
    |disk1| == |disk| && forall n: nat :: n < |disk| ==> View(bufs1, disk1, n) == View(bufs, disk, n)
  }

  lemma BufAt(bufs: seq<Buf>, disk: seq<Data>, touched: set<nat>, b: nat)
    requires Consistent(bufs, disk, touched) && b < |bufs|
    ensures BufOk(bufs, disk, touched, b)
  {
  }

  lemma AllAt(bufs: seq<Buf>, disk: seq<Data>, touched: set<nat>)
    requires Consistent(bufs, disk, touched)
    ensures forall b :: 0 <= b < |bufs| && bufs[b].locked ==> 0 < bufs[b].refcnt
  {
    forall b | 0 <= b < |bufs| && bufs[b].locked ensures 0 < bufs[b].refcnt {
      assert BufOk(bufs, disk, touched, b);
    }
  }

  /** `x` differs from the buffer only in its count, its lock and, to be set, its dirty flag. */
  lemma MetaOk(bufs: seq<Buf>, disk: seq<Data>, touched: set<nat>, b: nat, x: Buf, touched1: set<nat>)
    requires Consistent(bufs, disk, touched) && b < |bufs|
    requires x.dev == bufs[b].dev && x.blockno == bufs[b].blockno && x.valid == bufs[b].valid && x.data == bufs[b].data
    requires touched1 - {b} == touched - {b} && (x.locked ==> 0 < x.refcnt) && (b in touched1 ==> x.locked && x.valid)
    requires (x.dirty == bufs[b].dirty && (b in touched ==> b in touched1)) || (x.dirty && x.valid)
    ensures Consistent(bufs[b := x], disk, touched1) && SameContents(bufs, disk, bufs[b := x], disk)
  {
    hide View;
    BufAt(bufs, disk, touched, b);
    SameKeys(bufs, b, x);
    BufsOk(bufs, disk, touched, b, x, touched1);
    forall n: nat | n < |disk| ensures View(bufs[b := x], disk, n) == View(bufs, disk, n) {
      SameView(bufs, disk, b, x, n);
    }
  }

  lemma RecycleOk(bufs: seq<Buf>, disk: seq<Data>, touched: set<nat>, b: nat, x: Buf)
    requires Consistent(bufs, disk, touched) && b < |bufs| && Reusable(bufs[b])
    requires x == Buf(x.dev, x.blockno, 1, false, false, bufs[b].data, bufs[b].locked)
    requires x.dev != 0 && forall i: nat :: !Keyed(bufs, i, x.dev, x.blockno)
    ensures Consistent(bufs[b := x], disk, touched) && SameContents(bufs, disk, bufs[b := x], disk)
  {
    hide View;
    BufAt(bufs, disk, touched, b);
    RecycledKeys(bufs, b, x);
    BufsOk(bufs, disk, touched, b, x, touched);
    forall n: nat | n < |disk| ensures View(bufs[b := x], disk, n) == View(bufs, disk, n) {
      RecycledView(bufs, disk, touched, b, x, n);
    }
  }

  /** The dirty buffer goes to disk. */
  lemma FlushOk(bufs: seq<Buf>, disk: seq<Data>, touched: set<nat>, b: nat)
    requires Consistent(bufs, disk, touched) && b < |bufs| && bufs[b].dirty
    ensures bufs[b].valid && bufs[b].dev == ROOTDEV && bufs[b].blockno < |disk|
    ensures var disk1 := disk[bufs[b].blockno := bufs[b].data]; var bs := bufs[b := bufs[b].(dirty := false)];
            Consistent(bs, disk1, touched - {b}) && SameContents(bufs, disk, bs, disk1)
  {
    hide View;
    BufAt(bufs, disk, touched, b);
    var x := bufs[b].(dirty := false);
    var disk1 := disk[x.blockno := x.data];
    var bs := bufs[b := x];
    SameKeys(bufs, b, x);
    forall i: nat | i < |bs| ensures BufOk(bs, disk1, touched - {b}, i) {
      BufAt(bufs, disk, touched, i);
      assert i != b && bufs[i].valid ==> !(Keyed(bufs, i, ROOTDEV, x.blockno) && Keyed(bufs, b, ROOTDEV, x.blockno));
    }
    forall n: nat | n < |disk| ensures View(bs, disk1, n) == View(bufs, disk, n) {
      NewView(bufs, disk, b, x, disk1, n);
      if n == x.blockno {
        ViewIs(bufs, disk, n, b);
      }
    }
  }

  lemma FillOk(bufs: seq<Buf>, disk: seq<Data>, touched: set<nat>, b: nat)
    requires Consistent(bufs, disk, touched) && b < |bufs| && !bufs[b].valid
    requires bufs[b].dev == ROOTDEV && bufs[b].blockno < |disk|
    ensures var bs := bufs[b := bufs[b].(valid := true, data := disk[bufs[b].blockno])];
            Consistent(bs, disk, touched) && SameContents(bufs, disk, bs, disk)
  {
    hide View;
    BufAt(bufs, disk, touched, b);
    var x := bufs[b].(valid := true, data := disk[bufs[b].blockno]);
    SameKeys(bufs, b, x);
    BufsOk(bufs, disk, touched, b, x, touched);
    forall n: nat | n < |disk| ensures View(bufs[b := x], disk, n) == View(bufs, disk, n) {
      FilledView(bufs, disk, b, n);
    }
  }

  lemma StoreOk(bufs: seq<Buf>, disk: seq<Data>, touched: set<nat>, b: nat, data: Data)
    requires Consistent(bufs, disk, touched) && b < |bufs| && bufs[b].locked && bufs[b].valid
    ensures bufs[b].blockno < |disk|
    ensures var bs := bufs[b := bufs[b].(data := data)];
            && Consistent(bs, disk, touched + {b})
            && View(bs, disk, bufs[b].blockno) == data
            && forall n: nat :: n < |disk| && n != bufs[b].blockno ==> View(bs, disk, n) == View(bufs, disk, n)
  {
    hide View;
    BufAt(bufs, disk, touched, b);
    var x := bufs[b].(data := data);
    SameKeys(bufs, b, x);
    BufsOk(bufs, disk, touched, b, x, touched + {b});
    NewView(bufs, disk, b, x, disk, x.blockno);
    forall n: nat | n < |disk| && n != x.blockno ensures View(bufs[b := x], disk, n) == View(bufs, disk, n) {
      NewView(bufs, disk, b, x, disk, n);
    }
  }

  lemma ReleasedView(bufs: seq<Buf>, disk: seq<Data>, touched: set<nat>, b: nat, x: Buf)
    requires Consistent(bufs, disk, touched) && b < |bufs|
    requires x.dev == bufs[b].dev && x.blockno == bufs[b].blockno && x.valid == bufs[b].valid && x.data == bufs[b].data
    ensures SameContents(bufs, disk, bufs[b := x], disk)
  {
    hide View;
    forall n: nat | n < |disk| ensures View(bufs[b := x], disk, n) == View(bufs, disk, n) {
      SameView(bufs, disk, b, x, n);
    }
  }

  lemma OnlyBuffer(bufs: seq<Buf>, disk: seq<Data>, touched: set<nat>, b: nat, dev: nat, blockno: nat)
    requires Consistent(bufs, disk, touched) && b < |bufs| && dev != 0
    ensures Keyed(bufs, b, dev, blockno) ==>
              ((exists i: nat :: Keyed(bufs, i, dev, blockno) && bufs[i].locked) <==> bufs[b].locked)
  {
  }

  lemma ValidShows(bufs: seq<Buf>, disk: seq<Data>, touched: set<nat>, b: nat)
    requires Consistent(bufs, disk, touched) && b < |bufs| && bufs[b].valid
    ensures bufs[b].dev == ROOTDEV && bufs[b].blockno < |disk|
    ensures bufs[b].data == View(bufs, disk, bufs[b].blockno)
  {
    BufAt(bufs, disk, touched, b);
    ViewIs(bufs, disk, bufs[b].blockno, b);
  }

  lemma InitialOk(bufs: seq<Buf>, disk: seq<Data>)
    requires forall i :: 0 <= i < |bufs| ==> bufs[i] == Buf(0, 0, 0, false, false, [], false)
    ensures Consistent(bufs, disk, {}) && forall n: nat :: n < |disk| ==> View(bufs, disk, n) == disk[n]
  {
    forall n: nat | n < |disk| ensures View(bufs, disk, n) == disk[n] {
      ViewMisses(bufs, disk, n);
    }
  }

  class Cache {
    var bufs: seq<Buf>
    var next: seq<nat>
    var prev: seq<nat>
    var disk: seq<Data>
    ghost var ring: seq<nat>
    ghost var stamp: seq<nat>            // when each buffer was last released
    ghost var clock: nat
    ghost var touched: set<nat>

    ghost predicate ListOk()
      reads this`next, this`prev, this`ring, this`stamp, this`clock
    {
      |next| == NBUF + 1 && Linked(next, prev, ring) && AllBuffers(ring) && ByRelease(ring, stamp, clock)
    }

    ghost predicate Valid()
      reads this
    {
      |bufs| == NBUF && ListOk() && Consistent(bufs, disk, touched)
    }

    /** Contents of block `n`. */
    ghost function Contents(n: nat): Data
      requires n < |disk|
      reads this
    {
      View(bufs, disk, n)
    }

    /** binit, over a given disk and buffers in their initial state. */
    constructor (image: seq<Data>)
      ensures Valid() && disk == image && forall n: nat :: n < |disk| ==> Contents(n) == image[n]
    {
      bufs := seq(NBUF, _ => Buf(0, 0, 0, false, false, [], false));
      disk := image;
      touched := {};
      clock := NBUF;
      stamp := seq(NBUF, b => b);
      var nx: seq<nat>, pv: seq<nat> := seq(NBUF + 1, _ => HEAD), seq(NBUF + 1, _ => HEAD);
      ghost var r := [HEAD];
      var b := 0;
      assert LinkAt(nx, pv, r, 0);
      while b < NBUF
        invariant b <= NBUF && |nx| == |pv| == NBUF + 1 && Linked(nx, pv, r) && |r| == b + 1 && r[0] == HEAD
        invariant forall i :: 0 < i <= b ==> r[i] == b - i
      {
        assert b !in r;
        PushLinked(nx, pv, r, b);
        var h := nx[HEAD];
        nx, pv := nx[b := h], pv[b := HEAD];
        pv := pv[h := b];
        nx := nx[HEAD := b];
        r := Pushed(r, b);
        b := b + 1;
      }
      next, prev, ring := nx, pv, r;
      forall c: nat | c < NBUF ensures c in r {
        assert r[NBUF - c] == c;
      }
      new;
      InitialOk(bufs, disk);
    }

    /** The buffer of a block, if it has one. */
    method Find(dev: nat, blockno: nat) returns (r: Option<nat>)
      requires Valid()
      ensures r.Some? ==> Keyed(bufs, r.value, dev, blockno)
      ensures r.None? ==> forall i: nat :: !Keyed(bufs, i, dev, blockno)
    {
      hide Consistent, ByRelease;
      ghost var k := 0;
      assert LinkAt(next, prev, ring, 0);
      var b := next[HEAD];
      while b != HEAD
        invariant k < |ring| && b == Succ(ring, k)
        invariant forall i :: 0 < i <= k ==> !Keyed(bufs, ring[i], dev, blockno)
        decreases |ring| - k
      {
        k := k + 1;
        assert LinkAt(next, prev, ring, k);
        if bufs[b].dev == dev && bufs[b].blockno == blockno {
          return Some(b);
        }
        b := next[b];
      }
      forall i: nat ensures !Keyed(bufs, i, dev, blockno) {
        if i < NBUF {
          var j := IndexOf(ring, i);
        }
      }
      r := None;
    }

    /** The buffer to recycle: of the clean ones that nobody refers to, the one released longest ago. */
    method Oldest() returns (r: Option<nat>)
      requires Valid()
      ensures r.Some? ==> r.value < NBUF && Reusable(bufs[r.value]) && |stamp| == NBUF
      ensures r.Some? ==> forall c: nat :: c < NBUF && Reusable(bufs[c]) ==> stamp[r.value] <= stamp[c]
      ensures r.None? ==> forall c: nat :: c < NBUF ==> !Reusable(bufs[c])
    {
      hide Consistent;
      ghost var k := |ring| - 1;
      assert LinkAt(next, prev, ring, k);
      var b := prev[HEAD];
      while b != HEAD
        invariant 0 <= k < |ring| && b == ring[k]
        invariant forall i :: k < i < |ring| ==> !Reusable(bufs[ring[i]])
        decreases k
      {
        if bufs[b].refcnt == 0 && !bufs[b].dirty {
          forall c: nat | c < NBUF && Reusable(bufs[c]) ensures stamp[b] <= stamp[c] {
            var j := IndexOf(ring, c);
          }
          return Some(b);
        }
        assert LinkAt(next, prev, ring, k - 1);
        b := prev[b];
        k := k - 1;
      }
      forall c: nat | c < NBUF ensures !Reusable(bufs[c]) {
        var j := IndexOf(ring, c);
      }
      r := None;
    }

    /** bget up to the sleep lock; None is the panic. */
    method Bget(dev: nat, blockno: nat) returns (r: Option<nat>)
      requires Valid() && dev != 0
      modifies this`bufs
      ensures Valid() && forall n: nat :: n < |disk| ==> Contents(n) == old(Contents(n))
      ensures (exists i: nat :: Keyed(old(bufs), i, dev, blockno)) ==>
                r.Some? && Keyed(old(bufs), r.value, dev, blockno) &&
                bufs == old(bufs)[r.value := old(bufs[r.value]).(refcnt := old(bufs[r.value]).refcnt + 1)]
      ensures !(exists i: nat :: Keyed(old(bufs), i, dev, blockno)) && r.Some? ==>
                && r.value < NBUF == |stamp| && Reusable(old(bufs)[r.value])
                && (forall c: nat :: c < NBUF && Reusable(old(bufs)[c]) ==> stamp[r.value] <= stamp[c])
                && var x := old(bufs[r.value]);
                   bufs == old(bufs)[r.value := Buf(dev, blockno, 1, false, false, x.data, x.locked)]
      ensures r.None? <==> !(exists i: nat :: Keyed(old(bufs), i, dev, blockno)) &&
                           (forall c: nat :: c < NBUF ==> !Reusable(old(bufs)[c]))
    {
      hide ListOk, View;
      r := Find(dev, blockno);
      if r.Some? {
        var b := r.value;
        var x := bufs[b].(refcnt := bufs[b].refcnt + 1);
        BufAt(bufs, disk, touched, b);
        MetaOk(bufs, disk, touched, b, x, touched);
        bufs := bufs[b := x];
        return;
      }
      r := Oldest();
      if r.Some? {
        var b := r.value;
        var x := bufs[b].(dev := dev, blockno := blockno, valid := false, dirty := false, refcnt := 1);
        RecycleOk(bufs, disk, touched, b, x);
        bufs := bufs[b := x];
      }
    }

    /** One turn of acquiresleep's loop: the lock is taken, or the caller goes to sleep. */
    method Lock(b: nat) returns (ok: bool)
      requires Valid() && b < NBUF && 0 < bufs[b].refcnt
      modifies this`bufs
      ensures Valid() && bufs == old(bufs)[b := old(bufs[b]).(locked := true)] && (ok <==> !old(bufs[b]).locked)
      ensures forall n: nat :: n < |disk| ==> Contents(n) == old(Contents(n))
    {
      if bufs[b].locked {
        assert bufs[b].(locked := true) == bufs[b];
        return false;
      }
      var x := bufs[b].(locked := true);
      BufAt(bufs, disk, touched, b);
      MetaOk(bufs, disk, touched, b, x, touched);
      bufs := bufs[b := x];
      ok := true;
    }

    /** iderw on the memory disk; anything but Ok is a panic. */
    method Iderw(b: nat) returns (d: Done)
      requires Valid() && b < NBUF
      modifies this`bufs, this`disk, this`touched
      ensures Valid() && |disk| == |old(disk)|
      ensures d != Ok ==> bufs == old(bufs) && disk == old(disk) && touched == old(touched)
      ensures d == Ok <==> var x := old(bufs[b]);
                           x.locked && !(x.valid && !x.dirty) && x.dev == ROOTDEV && x.blockno < |disk|
      ensures d == Ok && !old(bufs[b]).dirty ==>
                && disk == old(disk) && touched == old(touched)
                && bufs == old(bufs)[b := old(bufs[b]).(valid := true, data := disk[old(bufs[b]).blockno])]
      ensures d == Ok && old(bufs[b]).dirty ==>
                && disk == old(disk)[old(bufs[b]).blockno := old(bufs[b]).data] && touched == old(touched) - {b}
                && bufs == old(bufs)[b := old(bufs[b]).(dirty := false)]
      ensures forall n: nat :: n < |disk| ==> Contents(n) == old(Contents(n))
    {
      hide ListOk, View;
      var x := bufs[b];
      if !x.locked {
        return NotLocked;
      }
      if x.valid && !x.dirty {
        return NothingToDo;
      }
      if x.dev != ROOTDEV {
        return NotDiskOne;
      }
      if x.blockno >= |disk| {
        return OutOfRange;
      }
      if x.dirty {
        FlushOk(bufs, disk, touched, b);
        disk := disk[x.blockno := x.data];
        bufs := bufs[b := x.(dirty := false)];
        touched := touched - {b};
      } else {
        FillOk(bufs, disk, touched, b);
        bufs := bufs[b := x.(valid := true, data := disk[x.blockno])];
      }
      d := Ok;
    }

    /** The rest of bread once the lock is held; false is a panic. */
    method Fill(b: nat) returns (ok: bool)
      requires Valid() && b < NBUF && bufs[b].locked
      modifies this`bufs, this`disk, this`touched
      ensures Valid() && disk == old(disk) && |bufs| == |old(bufs)|
      ensures forall n: nat :: n < |disk| ==> Contents(n) == old(Contents(n))
      ensures bufs[b].locked && bufs[b].dev == old(bufs[b]).dev && bufs[b].blockno == old(bufs[b]).blockno
      ensures ok <==> bufs[b].dev == ROOTDEV && bufs[b].blockno < |disk|
      ensures ok ==> bufs[b].valid && bufs[b].data == Contents(bufs[b].blockno)
    {
      hide ListOk, View;
      BufAt(bufs, disk, touched, b);
      if !bufs[b].valid {
        var d := Iderw(b);
        if d != Ok {
          return false;
        }
      }
      ValidShows(bufs, disk, touched, b);
      ok := true;
    }

    /** bread.  The buffer shows the block's contents, or another process holds it and the caller, now counted
        among its users, sleeps.  No block's contents change. */
    method Bread(dev: nat, blockno: nat) returns (r: Read)
      requires Valid() && dev != 0
      modifies this
      ensures Valid() && |disk| == |old(disk)| && disk == old(disk)
      ensures forall n: nat :: n < |disk| ==> Contents(n) == old(Contents(n))
      ensures r.Got? ==>
                && Keyed(bufs, r.b, ROOTDEV, blockno) && dev == ROOTDEV && blockno < |disk|
                && bufs[r.b].locked && bufs[r.b].valid && bufs[r.b].data == Contents(blockno)
      ensures r.Asleep? <==> exists i: nat :: Keyed(old(bufs), i, dev, blockno) && old(bufs)[i].locked
      ensures r.Asleep? ==>
                && Keyed(old(bufs), r.b, dev, blockno)
                && bufs == old(bufs)[r.b := old(bufs[r.b]).(refcnt := old(bufs[r.b]).refcnt + 1)]
      ensures r.ReadPanic? <==>
                && !(exists i: nat :: Keyed(old(bufs), i, dev, blockno) && old(bufs)[i].locked)
                && (|| dev != ROOTDEV || blockno >= |disk|
                    || (!(exists i: nat :: Keyed(old(bufs), i, dev, blockno)) &&
                        (forall c: nat :: c < NBUF ==> !Reusable(old(bufs)[c]))))
    {
      hide ListOk, View;
      AllAt(bufs, disk, touched);
      var found := Bget(dev, blockno);
      if found.None? {
        return ReadPanic;
      }
      var b := found.value;
      OnlyBuffer(old(bufs), old(disk), old(touched), b, dev, blockno);
      var locked := Lock(b);
      if !locked {
        return Asleep(b);
      }
      var filled := Fill(b);
      r := if filled then Got(b) else ReadPanic;
    }

    /** A process that slept in bread is woken: it tries the lock again, then goes on as bread does. */
    method Woken(b: nat) returns (r: Read)
      requires Valid() && b < NBUF && 0 < bufs[b].refcnt
      modifies this
      ensures Valid() && |disk| == |old(disk)| && disk == old(disk)
      ensures forall n: nat :: n < |disk| ==> Contents(n) == old(Contents(n))
      ensures r.Asleep? <==> old(bufs[b]).locked
      ensures r.Asleep? ==> r.b == b && bufs == old(bufs)
      ensures r.Got? ==>
                && r.b == b && Keyed(bufs, b, ROOTDEV, old(bufs[b]).blockno) && bufs[b].blockno < |disk|
                && bufs[b].locked && bufs[b].valid && bufs[b].data == Contents(bufs[b].blockno)
      ensures r.ReadPanic? <==>
                !old(bufs[b]).locked && (old(bufs[b]).dev != ROOTDEV || old(bufs[b]).blockno >= |disk|)
    {
      hide ListOk, View;
      var locked := Lock(b);
      if !locked {
        assert old(bufs)[b := old(bufs[b]).(locked := true)] == old(bufs);
        return Asleep(b);
      }
      var filled := Fill(b);
      r := if filled then Got(b) else ReadPanic;
    }

    /** A process that holds the buffer stores into it. */
    method Store(b: nat, data: Data)
      requires Valid() && b < NBUF && bufs[b].locked && bufs[b].valid
      modifies this`bufs, this`touched
      ensures Valid() && bufs == old(bufs)[b := old(bufs[b]).(data := data)] && touched == old(touched) + {b}
      ensures bufs[b].blockno < |disk| && Contents(bufs[b].blockno) == data
      ensures forall n: nat :: n < |disk| && n != bufs[b].blockno ==> Contents(n) == old(Contents(n))
    {
      hide ListOk, View;
      StoreOk(bufs, disk, touched, b, data);
      bufs := bufs[b := bufs[b].(data := data)];
      touched := touched + {b};
    }

    /** log_write's mark: the buffer is pinned until it is written. */
    method MarkDirty(b: nat)
      requires Valid() && b < NBUF && bufs[b].locked && bufs[b].valid
      modifies this`bufs, this`touched
      ensures Valid() && bufs == old(bufs)[b := old(bufs[b]).(dirty := true)] && touched == old(touched) - {b}
      ensures forall n: nat :: n < |disk| ==> Contents(n) == old(Contents(n))
    {
      hide ListOk, View;
      BufAt(bufs, disk, touched, b);
      MetaOk(bufs, disk, touched, b, bufs[b].(dirty := true), touched - {b});
      bufs := bufs[b := bufs[b].(dirty := true)];
      touched := touched - {b};
    }

    /** bwrite of a valid buffer: its contents reach the disk. */
    method Bwrite(b: nat) returns (d: Done)
      requires Valid() && b < NBUF && bufs[b].valid
      modifies this`bufs, this`disk, this`touched
      ensures Valid() && |disk| == |old(disk)| && (d == Ok <==> old(bufs[b]).locked)
      ensures d == Ok ==> bufs[b].blockno < |disk| && disk == old(disk)[bufs[b].blockno := bufs[b].data]
      ensures d == Ok ==> !bufs[b].dirty && b !in touched
      ensures d == Ok ==> bufs == old(bufs)[b := old(bufs[b]).(dirty := false)]
      ensures d != Ok ==> bufs == old(bufs) && disk == old(disk)
      ensures forall n: nat :: n < |disk| ==> Contents(n) == old(Contents(n))
    {
      hide ListOk, View;
      if !bufs[b].locked {
        return NotLocked;
      }
      BufAt(bufs, disk, touched, b);
      MarkDirty(b);
      d := Iderw(b);
    }

    /** brelse; false is the panic.  A buffer nobody waits for becomes the most recently released.  What the
        cache keeps is kept if the buffer was not changed since it was last marked or written. */
    method Brelse(b: nat) returns (ok: bool)
      requires Valid() && b < NBUF
      modifies this`bufs, this`next, this`prev, this`ring, this`stamp, this`clock
      ensures ok <==> old(bufs[b]).locked
      ensures !ok ==> unchanged(this)
      ensures ok ==>
                && 0 < old(bufs[b]).refcnt && ListOk() && (b !in touched ==> Valid())
                && bufs == old(bufs)[b := old(bufs[b]).(locked := false, refcnt := old(bufs[b]).refcnt - 1)]
                && if bufs[b].refcnt == 0 then
                     |old(stamp)| == NBUF && stamp == old(stamp)[b := old(clock)] && clock == old(clock) + 1
                   else stamp == old(stamp) && clock == old(clock) && ring == old(ring)
      ensures forall n: nat :: n < |disk| ==> Contents(n) == old(Contents(n))
    {
      if !bufs[b].locked {
        return false;
      }
      Unlist(b);
      ok := true;
    }

    /** The releasing itself. */
    method Unlist(b: nat)
      requires Valid() && b < NBUF && bufs[b].locked
      modifies this`bufs, this`next, this`prev, this`ring, this`stamp, this`clock
      ensures 0 < old(bufs[b]).refcnt && ListOk() && (b !in touched ==> Valid())
      ensures bufs == old(bufs)[b := old(bufs[b]).(locked := false, refcnt := old(bufs[b]).refcnt - 1)]
      ensures if bufs[b].refcnt == 0 then
                |old(stamp)| == NBUF && stamp == old(stamp)[b := old(clock)] && clock == old(clock) + 1
              else stamp == old(stamp) && clock == old(clock) && ring == old(ring)
      ensures forall n: nat :: n < |disk| ==> Contents(n) == old(Contents(n))
    {
      hide Consistent, View, AllBuffers, ByRelease, Linked;
      BufAt(bufs, disk, touched, b);
      var x := bufs[b].(locked := false, refcnt := bufs[b].refcnt - 1);
      if b !in touched {
        MetaOk(bufs, disk, touched, b, x, touched);
      }
      ReleasedView(bufs, disk, touched, b, x);
      bufs := bufs[b := x];
      if bufs[b].refcnt == 0 {
        ghost var k := Position(ring, b);
        Unlinked(next, prev, ring, k);
        OthersLinked(next, prev, ring, k);
        MovedAll(ring, k);
        MovedByRelease(ring, stamp, clock, k);
        prev := prev[next[b] := prev[b]];
        next := next[prev[b] := next[b]];
        PushLinked(next, prev, Without(ring, k), b);
        next := next[b := next[HEAD]];
        prev := prev[b := HEAD];
        prev := prev[next[HEAD] := b];
        next := next[HEAD := b];
        ring := Moved(ring, k);
        stamp := stamp[b := clock];
        clock := clock + 1;
      }
    }
  }
}
