/** The inode branch of fileread and filewrite in file.c: an open file's offset, and writes cut
    into chunks that each fit in one log transaction. */
module FileCode {
  import opened Common
  import opened FsImage
  import opened FsNeed
  import opened Fs

  /** Consecutive splices are one splice. */
  lemma SpliceSplice(s: seq<byte>, off: nat, a: seq<byte>, b: seq<byte>)
    requires off <= |s|
    ensures off + |a| <= |Splice(s, off, a)|
    ensures Splice(Splice(s, off, a), off + |a|, b) == Splice(s, off, a + b)
  {
  }

  /** The other files, and file `i` with `data` spliced in at `off`. */
  ghost predicate Spliced(sb: Super, g: Image, g': Image, i: nat, off: nat, data: seq<byte>) {
    && Shape(sb, g) && Shape(sb, g') && i < |g.inodes| == |g'.inodes|
    && (forall j :: 0 <= j < |g.inodes| ==>
          g.inodes[j].size <= MAXFILE * BSIZE && g'.inodes[j].size <= MAXFILE * BSIZE)
    && off <= g.inodes[i].size
    && (forall j :: 0 <= j < |g.inodes| && j != i ==>
          g'.inodes[j] == g.inodes[j] && Content(sb, g', j) == Content(sb, g, j))
    && Content(sb, g', i) == Splice(Content(sb, g, i), off, data)
    && g'.inodes[i].typ == g.inodes[i].typ
  }

  lemma SplicedTwice(sb: Super, g: Image, m: Image, g': Image, i: nat, off: nat, a: seq<byte>, b: seq<byte>)
    requires Spliced(sb, g, m, i, off, a) && Spliced(sb, m, g', i, off + |a|, b)
    ensures Spliced(sb, g, g', i, off, a + b)
  {
    hide Content;
    SpliceSplice(Content(sb, g, i), off, a, b);
    forall j | 0 <= j < |g.inodes| && j != i
      ensures g'.inodes[j] == g.inodes[j] && Content(sb, g', j) == Content(sb, g, j)
    {
      assert m.inodes[j] == g.inodes[j] && Content(sb, m, j) == Content(sb, g, j);
    }
  }

  /** The same, or nothing when there is nothing to write: then `off` may lie anywhere. */
  ghost predicate Written(sb: Super, g: Image, g': Image, i: nat, off: nat, data: seq<byte>) {
    if data == [] then g' == g else Spliced(sb, g, g', i, off, data)
  }

  lemma WrittenNothing(sb: Super, g: Image, i: nat, off: nat)
    ensures Written(sb, g, g, i, off, [])
  {
  }

  lemma WrittenMore(sb: Super, g: Image, m: Image, g': Image, i: nat, off: nat, a: seq<byte>, b: seq<byte>)
    requires Written(sb, g, m, i, off, a) && Spliced(sb, m, g', i, off + |a|, b)
    ensures b != [] ==> Written(sb, g, g', i, off, a + b)
    ensures i < |g.inodes| == |m.inodes| == |g'.inodes| && off <= g.inodes[i].size
    ensures g'.inodes[i].typ == m.inodes[i].typ && off + |a + b| <= g'.inodes[i].size
  {
    hide Content;
    if a == [] {
      assert a + b == b;
    } else {
      SplicedTwice(sb, g, m, g', i, off, a, b);
    }
    SpliceSize(Content(sb, m, i), off + |a|, b);
  }

  // ----- How many blocks the transactions of a write log -----

  /** A transaction that writes `n` bytes at `off` logs every data block it touches.  With a single
      bitmap block there are at most three others: that one, the indirect block and the inode's. */
  predicate Logs(sb: Super, off: nat, n: nat, size: nat) {
    && Touched(off, n) <= size <= LOGSIZE
    && (sb.size <= BPB ==> size <= Touched(off, n) + 3)
  }

  /** The transactions of a write of `n` bytes from `off` on; one per chunk, with the blocks each logs. */
  predicate Transactions(sb: Super, off: nat, n: nat, logs: seq<set<int>>) {
    forall k :: 0 <= k < |logs| ==>
      k * CHUNK < n && Logs(sb, off + k * CHUNK, Min(CHUNK, n - k * CHUNK), |logs[k]|)
  }

  lemma ChunkTouches(off: nat, n: nat)
    ensures n <= CHUNK ==> Touched(off, n) <= 14
    ensures n >= CHUNK ==> Touched(off, n) >= 13
  {
  }

  /** The reservation of MAXOPBLOCKS blocks is exceeded by every transaction that touches more than
      that many data blocks, so by every full chunk, and kept by every one that touches at most
      seven if there is one bitmap block. */
  lemma ReservationBroken(sb: Super, off: nat, n: nat, size: nat)
    requires Logs(sb, off, n, size)
    ensures Touched(off, n) > MAXOPBLOCKS ==> size > MAXOPBLOCKS
    ensures n >= CHUNK ==> size > MAXOPBLOCKS
    ensures Touched(off, n) + 3 <= MAXOPBLOCKS && sb.size <= BPB ==> size <= MAXOPBLOCKS
  {
    ChunkTouches(off, n);
  }

  /** So every full chunk of a write exceeds it. */
  lemma FullChunksBreak(sb: Super, off: nat, n: nat, logs: seq<set<int>>, k: nat)
    requires Transactions(sb, off, n, logs) && k < |logs| && (k + 1) * CHUNK <= n
    ensures |logs[k]| > MAXOPBLOCKS
  {
    ReservationBroken(sb, off + k * CHUNK, Min(CHUNK, n - k * CHUNK), |logs[k]|);
  }

  lemma NoTransactions(sb: Super, off: nat, n: nat)
    ensures Transactions(sb, off, n, [])
  {
  }

  lemma OneTransaction(sb: Super, off: nat, n: nat, logs: seq<set<int>>, more: set<int>)
    requires Transactions(sb, off, n, logs) && |logs| * CHUNK < n
    requires Logs(sb, off + |logs| * CHUNK, Min(CHUNK, n - |logs| * CHUNK), |more|)
    ensures Transactions(sb, off, n, logs + [more])
  {
    hide Logs;
  }

  // ----- What is on the disk after each transaction -----

  /** The image that a disk stands for when every inode has reached it. */
  function Stands(d: Stored): Image { Image(d.bitmap, d.blocks, d.dinodes) }

  /** After `k` transactions the first `k` chunks of `src` are in the file, and each has changed
      only blocks that it logged. */
  ghost predicate Trail(sb: Super, trail: seq<Stored>, logs: seq<set<int>>, i: nat, off: nat, src: seq<byte>) {
    && |trail| == |logs| + 1
    && (forall k :: 0 <= k < |logs| ==> LinkedBy(sb, trail, k, logs[k]))
    && (forall k :: 0 <= k < |trail| ==>
          Written(sb, Stands(trail[0]), Stands(trail[k]), i, off, src[..Min(k * CHUNK, |src|)]))
  }

  ghost predicate LinkedBy(sb: Super, trail: seq<Stored>, k: nat, logged: set<int>)
    requires k + 1 < |trail|
  {
    Covered(sb, trail[k], trail[k + 1], logged)
  }

  lemma TrailStart(sb: Super, d: Stored, i: nat, off: nat, src: seq<byte>)
    ensures Trail(sb, [d], [], i, off, src)
  {
    assert src[..0] == [];
  }

  lemma TrailMore(sb: Super, trail: seq<Stored>, logs: seq<set<int>>, i: nat, off: nat, src: seq<byte>,
                  d: Stored, more: set<int>, to: nat)
    requires Trail(sb, trail, logs, i, off, src)
    requires |logs| * CHUNK < to == Min((|logs| + 1) * CHUNK, |src|)
    requires Covered(sb, trail[|logs|], d, more)
    requires Spliced(sb, Stands(trail[|logs|]), Stands(d), i, off + |logs| * CHUNK, src[|logs| * CHUNK..to])
    ensures Trail(sb, trail + [d], logs + [more], i, off, src)
  {
    hide Covered, Spliced, Written;
    var n, trail' := |logs|, trail + [d];
    forall k | 0 <= k <= n ensures LinkedBy(sb, trail', k, (logs + [more])[k]) {
      assert k < n ==> LinkedBy(sb, trail, k, logs[k]);
    }
    WrittenMore(sb, Stands(trail[0]), Stands(trail[n]), Stands(d), i, off, src[..n * CHUNK], src[n * CHUNK..to]);
    assert src[..n * CHUNK] + src[n * CHUNK..to] == src[..to];
  }

  // ----- Where a write stops -----

  /** There is room for `n` bytes at `off` of file `i`: in the file, and among the free blocks. */
  ghost predicate HasRoom(sb: Super, g: Image, i: nat, off: nat, n: nat) {
    && Shape(sb, g) && i < |g.inodes|
    && off + n <= MAXFILE * BSIZE && ByteNeed(sb, g, i, off, n) <= FreeBits(g.bitmap, sb.size)
  }

  /** Where chunk `k` of `n` bytes ends. */
  function ChunkEnd(n: nat, k: nat): nat { Min((k + 1) * CHUNK, n) }

  /** Chunk `k` is the first without room, because the file would be too long. */
  ghost predicate TooLong(sb: Super, g: Image, i: nat, off: nat, n: nat, k: nat) {
    k * CHUNK < n && HasRoom(sb, g, i, off, k * CHUNK) && off + ChunkEnd(n, k) > MAXFILE * BSIZE
  }

  /** Chunk `k` is the first without room, because there are too few free blocks. */
  ghost predicate TooFull(sb: Super, g: Image, i: nat, off: nat, n: nat, k: nat) {
    && k * CHUNK < n && HasRoom(sb, g, i, off, k * CHUNK) && off + ChunkEnd(n, k) <= MAXFILE * BSIZE
    && !HasRoom(sb, g, i, off, ChunkEnd(n, k))
  }

  /** What a write of `n` bytes, which are some, to a file that is not a device comes to. */
  ghost predicate Outcome(sb: Super, g: Image, i: nat, off: nat, n: nat, r: Ret)
    requires i < |g.inodes|
  {
    && r != Device
    && (r == Error <==> off > g.inodes[i].size || exists k: nat :: TooLong(sb, g, i, off, n, k))
    && (r == Panic <==> off <= g.inodes[i].size && exists k: nat :: TooFull(sb, g, i, off, n, k))
    && (r.Done? <==> off <= g.inodes[i].size && HasRoom(sb, g, i, off, n))
  }

  lemma RoomForLess(sb: Super, g: Image, i: nat, off: nat, n: nat, n': nat)
    requires HasRoom(sb, g, i, off, n') && n <= n'
    ensures HasRoom(sb, g, i, off, n)
  {
    hide FreeBits, Need;
    TouchedGrows(off, n, n');
    TouchedBound(off, n');
    NeedGrows(sb, g, i, off / BSIZE, Touched(off, n), Touched(off, n'));
  }

  /** At most one chunk is the first without room. */
  lemma StopsOnce(sb: Super, g: Image, i: nat, off: nat, n: nat, j: nat, k: nat)
    requires j * CHUNK < n && HasRoom(sb, g, i, off, j * CHUNK) && !HasRoom(sb, g, i, off, ChunkEnd(n, j))
    requires k * CHUNK < n && HasRoom(sb, g, i, off, k * CHUNK) && !HasRoom(sb, g, i, off, ChunkEnd(n, k))
    ensures j == k
  {
    hide HasRoom;
    if j < k {
      RoomForLess(sb, g, i, off, ChunkEnd(n, j), k * CHUNK);
    } else if k < j {
      RoomForLess(sb, g, i, off, ChunkEnd(n, k), j * CHUNK);
    }
  }

  lemma NoRoomWhereStopped(sb: Super, g: Image, i: nat, off: nat, n: nat, k: nat)
    requires TooLong(sb, g, i, off, n, k) || TooFull(sb, g, i, off, n, k)
    ensures k * CHUNK < n && HasRoom(sb, g, i, off, k * CHUNK) && !HasRoom(sb, g, i, off, ChunkEnd(n, k))
    ensures !HasRoom(sb, g, i, off, n)
  {
    hide ByteNeed, FreeBits;
    if HasRoom(sb, g, i, off, n) {
      RoomForLess(sb, g, i, off, ChunkEnd(n, k), n);
    }
  }

  lemma DoneOutcome(sb: Super, g: Image, m: Image, i: nat, off: nat, n: nat)
    requires Supplied(sb, g, m, i, off, n) && off <= g.inodes[i].size
    ensures Outcome(sb, g, i, off, n, Done(n))
  {
    hide Need, FreeBits, MappedTo, Touched, TooLong, TooFull;
    assert HasRoom(sb, g, i, off, n);
    forall k: nat ensures !TooLong(sb, g, i, off, n, k) && !TooFull(sb, g, i, off, n, k) {
      if TooLong(sb, g, i, off, n, k) || TooFull(sb, g, i, off, n, k) {
        NoRoomWhereStopped(sb, g, i, off, n, k);
      }
    }
  }

  lemma PastEndOutcome(sb: Super, g: Image, i: nat, off: nat, n: nat)
    requires i < |g.inodes| && off > g.inodes[i].size
    ensures Outcome(sb, g, i, off, n, Error)
  {
  }

  lemma LongOutcome(sb: Super, g: Image, i: nat, off: nat, n: nat, k: nat)
    requires i < |g.inodes| && off <= g.inodes[i].size && TooLong(sb, g, i, off, n, k)
    ensures Outcome(sb, g, i, off, n, Error)
  {
    NoRoomWhereStopped(sb, g, i, off, n, k);
    forall j: nat ensures !TooFull(sb, g, i, off, n, j) {
      if TooFull(sb, g, i, off, n, j) {
        NoRoomWhereStopped(sb, g, i, off, n, j);
        StopsOnce(sb, g, i, off, n, j, k);
      }
    }
  }

  lemma FullOutcome(sb: Super, g: Image, i: nat, off: nat, n: nat, k: nat)
    requires i < |g.inodes| && off <= g.inodes[i].size && TooFull(sb, g, i, off, n, k)
    ensures Outcome(sb, g, i, off, n, Panic)
  {
    NoRoomWhereStopped(sb, g, i, off, n, k);
    forall j: nat ensures !TooLong(sb, g, i, off, n, j) {
      if TooLong(sb, g, i, off, n, j) {
        NoRoomWhereStopped(sb, g, i, off, n, j);
        StopsOnce(sb, g, i, off, n, j, k);
      }
    }
  }

  /** The chunk from `done` on was not written, for the reason that writei gives at image `m`. */
  lemma StoppedOutcome(sb: Super, g: Image, m: Image, i: nat, off: nat, n: nat, k: nat, r: Ret)
    requires Shape(sb, m) && i < |g.inodes| == |m.inodes| && k * CHUNK < n
    requires off <= MAXFILE * BSIZE ==> Supplied(sb, g, m, i, off, k * CHUNK)
    requires k == 0 ==> m == g
    requires k > 0 ==> off <= g.inodes[i].size <= MAXFILE * BSIZE && off + k * CHUNK <= m.inodes[i].size
    requires g.inodes[i].size <= MAXFILE * BSIZE
    requires var o, len := off + k * CHUNK, ChunkEnd(n, k) - k * CHUNK;
             || (r == Error && (o > m.inodes[i].size || o + len > MAXFILE * BSIZE))
             || (r == Panic && o <= m.inodes[i].size && o + len <= MAXFILE * BSIZE &&
                 FreeBits(m.bitmap, sb.size) < ByteNeed(sb, m, i, o, len))
    ensures Outcome(sb, g, i, off, n, r)
  {
    hide Need, FreeBits, MappedTo, Touched, Outcome;
    var len := ChunkEnd(n, k) - k * CHUNK;
    if off > g.inodes[i].size {
      PastEndOutcome(sb, g, i, off, n);
    } else if r == Error {
      LongOutcome(sb, g, i, off, n, k);
    } else {
      ByteNeedMore(sb, g, m, i, off, k * CHUNK, len);
      FullOutcome(sb, g, i, off, n, k);
    }
  }

  // ----- What holds between two chunks -----

  /** `i` bytes of `src` have been written, in as many transactions as `logs` has entries, which took image
      `g` to `m`; the disk holds `d`. */
  ghost predicate SoFar(sb: Super, g: Image, m: Image, d: Stored, synced: bool, ip: nat, off: nat, src: seq<byte>,
                        i: nat, logs: seq<set<int>>, trail: seq<Stored>) {
    && Shape(sb, m) && ip < |g.inodes| == |m.inodes| && g.inodes[ip].size <= MAXFILE * BSIZE
    && i <= |src| && i <= |logs| * CHUNK < i + CHUNK && (i < |src| ==> i == |logs| * CHUNK)
    && Written(sb, g, m, ip, off, src[..i])
    && (i > 0 ==> off <= g.inodes[ip].size && off + i <= m.inodes[ip].size)
    && m.inodes[ip].typ == g.inodes[ip].typ && (i > 0 ==> m.inodes[ip].typ != T_DEV)
    && (off <= MAXFILE * BSIZE ==> Supplied(sb, g, m, ip, off, i))
    && Transactions(sb, off, |src|, logs)
    && |trail| == |logs| + 1 && trail[|logs|] == d
    && (synced ==> Trail(sb, trail, logs, ip, off, src))
  }

  lemma SoFarNothing(sb: Super, g: Image, d: Stored, synced: bool, ip: nat, off: nat, src: seq<byte>)
    requires Shape(sb, g) && ip < |g.inodes| && g.inodes[ip].size <= MAXFILE * BSIZE
    ensures SoFar(sb, g, g, d, synced, ip, off, src, 0, [], [d])
  {
    assert src[..0] == [];
    WrittenNothing(sb, g, ip, off);
    NoTransactions(sb, off, |src|);
    TrailStart(sb, d, ip, off, src);
    if off <= MAXFILE * BSIZE { SuppliedNothing(sb, g, ip, off); }
  }

  lemma SoFarMore(sb: Super, g: Image, m: Image, m': Image, d: Stored, d': Stored, synced: bool, ip: nat, off: nat,
                  src: seq<byte>, i: nat, n: nat, logs: seq<set<int>>, trail: seq<Stored>, more: set<int>)
    requires SoFar(sb, g, m, d, synced, ip, off, src, i, logs, trail) && i < |src| && n == Min(CHUNK, |src| - i)
    requires m.inodes[ip].typ != T_DEV && Shape(sb, m') && Spliced(sb, m, m', ip, off + i, src[i..i + n])
    requires Logs(sb, off + i, n, |more|) && Covered(sb, d, d', more) && Supplied(sb, m, m', ip, off + i, n)
    requires synced ==> Stands(d) == m && Stands(d') == m'
    ensures SoFar(sb, g, m', d', synced, ip, off, src, i + n, logs + [more], trail + [d'])
  {
    hide Spliced, Covered, Logs, Supplied, Written, Trail, Transactions;
    assert src[..i] + src[i..i + n] == src[..i + n];
    WrittenMore(sb, g, m, m', ip, off, src[..i], src[i..i + n]);
    OneTransaction(sb, off, |src|, logs, more);
    SuppliedMore(sb, g, m, m', ip, off, i, n);
    if synced {
      TrailMore(sb, trail, logs, ip, off, src, d', more, i + n);
    }
  }

  /** Nothing is written yet, or some is. */
  lemma SoFarMeans(sb: Super, g: Image, m: Image, d: Stored, synced: bool, ip: nat, off: nat, src: seq<byte>,
                   i: nat, logs: seq<set<int>>, trail: seq<Stored>)
    requires SoFar(sb, g, m, d, synced, ip, off, src, i, logs, trail)
    ensures ip < |g.inodes| == |m.inodes| && m.inodes[ip].typ == g.inodes[ip].typ
    ensures i <= |src| && i <= |logs| * CHUNK < i + CHUNK && (i < |src| ==> i == |logs| * CHUNK)
    ensures Written(sb, g, m, ip, off, src[..i]) && Transactions(sb, off, |src|, logs)
    ensures i == 0 ==> m == g
    ensures i > 0 ==> off <= g.inodes[ip].size && off + i <= m.inodes[ip].size && m.inodes[ip].typ != T_DEV
    ensures |trail| == |logs| + 1 && trail[|logs|] == d && (synced ==> Trail(sb, trail, logs, ip, off, src))
  {
    if i == 0 { assert src[..0] == []; }
  }

  lemma AllDone(sb: Super, g: Image, m: Image, d: Stored, synced: bool, ip: nat, off: nat, src: seq<byte>,
                logs: seq<set<int>>, trail: seq<Stored>)
    requires SoFar(sb, g, m, d, synced, ip, off, src, |src|, logs, trail) && src != []
    ensures Outcome(sb, g, ip, off, |src|, Done(|src|))
  {
    hide Spliced, Supplied, Written, Trail, Transactions, Outcome;
    DoneOutcome(sb, g, m, ip, off, |src|);
  }

  /** The next chunk was not written, for the reason that writei gives at image `m`. */
  lemma Stopped(sb: Super, g: Image, m: Image, d: Stored, synced: bool, ip: nat, off: nat, src: seq<byte>,
                i: nat, logs: seq<set<int>>, trail: seq<Stored>, n: nat, r: Ret)
    requires SoFar(sb, g, m, d, synced, ip, off, src, i, logs, trail) && i < |src| && n == Min(CHUNK, |src| - i)
    requires || (r == Error && (off + i > m.inodes[ip].size || off + i + n > MAXFILE * BSIZE))
             || (r == Panic && off + i <= m.inodes[ip].size && off + i + n <= MAXFILE * BSIZE &&
                 FreeBits(m.bitmap, sb.size) < ByteNeed(sb, m, ip, off + i, n))
    ensures Outcome(sb, g, ip, off, |src|, r)
  {
    hide Spliced, Supplied, Trail, Transactions, Outcome, FreeBits, ByteNeed;
    StoppedOutcome(sb, g, m, ip, off, |src|, |logs|, r);
  }

  class File {
    const fs: FileSys
    const ip: nat
    const readable: bool
    const writable: bool
    var off: nat

    constructor (fs: FileSys, ip: nat, readable: bool, writable: bool)
      ensures this.fs == fs && this.ip == ip && this.readable == readable && this.writable == writable && off == 0
    {
      this.fs, this.ip, this.readable, this.writable, off := fs, ip, readable, writable, 0;
    }

    ghost predicate Valid()
      reads this, fs
    {
      fs.Valid() && ip < |fs.inodes| && off < UINT
    }

    lemma SizeBound()
      requires Valid()
      ensures fs.inodes[ip].size <= MAXFILE * BSIZE
    {
      assert NoHoles(fs.sb, fs.Img(), ip);
    }

    /** Read at the offset and move it past what was read. */
    method FileRead(n: nat) returns (r: Ret, dst: seq<byte>)
      requires Valid() && n < UINT / 2
      modifies fs, this`off
      ensures unchanged(fs) && Valid()
      ensures r == if !readable then Error
                   else if fs.inodes[ip].typ == T_DEV then Device
                   else if old(off) > fs.inodes[ip].size || old(off) + n >= UINT then Error
                   else Done(Min(n, fs.inodes[ip].size - old(off)))
      ensures NoHoles(fs.sb, fs.Img(), ip)
      ensures dst == if r.Done? then Content(fs.sb, fs.Img(), ip)[old(off)..old(off) + r.n] else []
      ensures off == old(off) + if r.Done? then r.n else 0
    {
      hide Content, Owned, Ref;
      dst := [];
      assert NoHoles(fs.sb, fs.Img(), ip);
      if !readable { return Error, []; }
      r, dst := fs.Readi(ip, off, n);
      if r.Done? {
        off := off + r.n;
      }
    }

    /** One chunk: a transaction of its own. */
    method WriteChunk(src: seq<byte>) returns (r: Ret)
      requires Valid() && |src| <= CHUNK
      modifies fs, this`off
      ensures r.Done? || r == Error ==> Valid()
      ensures r.Done? ==> r.n == |src| && off == old(off) + |src|
      ensures r.Done? ==> Spliced(fs.sb, old(fs.Img()), fs.Img(), ip, old(off), src)
      ensures r.Done? ==> Logs(fs.sb, old(off), |src|, |fs.logged|) && (fs.sb.size <= BPB ==> |fs.logged| <= 17)
      ensures Covered(fs.sb, old(fs.OnDisk()), fs.OnDisk(), fs.logged)
      ensures r.Done? && old(fs.inodes == fs.dinodes) ==> fs.inodes == fs.dinodes
      ensures r == Device <==> old(fs.inodes[ip].typ) == T_DEV
      ensures r == Panic ==> Shape(fs.sb, fs.Img()) && fs.Full()
      ensures r == Panic <==> (
                && old(fs.inodes[ip].typ) != T_DEV && old(off) <= old(fs.inodes[ip].size)
                && old(off) + |src| <= MAXFILE * BSIZE
                && old(fs.Free()) < old(ByteNeed(fs.sb, fs.Img(), ip, off, |src|)))
      ensures r.Done? ==> Supplied(fs.sb, old(fs.Img()), fs.Img(), ip, old(off), |src|)
      ensures r == Device || r == Error ==>
                fs.Img() == old(fs.Img()) && fs.dinodes == old(fs.dinodes) && fs.own == old(fs.own) && off == old(off)
      ensures r == Error <==> (
                && old(fs.inodes[ip].typ) != T_DEV
                && (old(off) > old(fs.inodes[ip].size) || old(off) + |src| > MAXFILE * BSIZE))
    {
      hide Owned, Ref, Content, Covered, AllLogged, Need, FreeBits, Supplied;
      fs.logged := {};
      r := fs.Writei(ip, off, src);
      assert fs.logged - {} == fs.logged;
      if r.Done? {
        assert NoHoles(fs.sb, fs.Img(), ip);
        LoggedAtLeast(fs.sb, fs.Img(), fs.own, ip, off / BSIZE, Touched(off, |src|), fs.logged);
        ChunkTouches(off, |src|);
        off := off + r.n;
      }
    }

    /** All of `src`, chunk by chunk.  Afterwards `done` bytes of it are in the file and the offset
        has moved past them: all of them, or as many whole chunks as fit before an error.  Every
        chunk is a transaction: `logs` has the blocks that each logged, and `trail` what was on the
        disk after each, starting with what was there before the first. */
    method FileWrite(src: seq<byte>)
      returns (r: Ret, ghost done: nat, ghost logs: seq<set<int>>, ghost trail: seq<Stored>)
      requires Valid() && |src| < UINT / 2
      modifies fs, this`off
      ensures !writable ==> r == Error && done == 0
      ensures r == Device <==> writable && src != [] && old(fs.inodes[ip].typ) == T_DEV
      ensures r == Device ==> done == 0 && fs.Img() == old(fs.Img()) && off == old(off)
      ensures r == Panic ==> Shape(fs.sb, fs.Img()) && fs.Full()
      ensures done <= |logs| * CHUNK < done + CHUNK && Transactions(fs.sb, old(off), |src|, logs)
      ensures old(fs.inodes == fs.dinodes) ==>
                && Trail(fs.sb, trail, logs, ip, old(off), src) && trail[0] == old(fs.OnDisk())
                && (r.Done? || r == Error ==> trail[|logs|] == fs.OnDisk() && fs.inodes == fs.dinodes)
      ensures done <= |src| && (r.Done? ==> r.n == |src| == done)
      ensures (r == Error && writable) || r == Panic ==> done < |src| && done == |logs| * CHUNK
      ensures r.Done? || r == Error ==> Valid() && off == old(off) + done
      ensures r.Done? || r == Error ==> Written(fs.sb, old(fs.Img()), fs.Img(), ip, old(off), src[..done])
      ensures writable && src != [] && old(fs.inodes[ip].typ) != T_DEV ==>
                Outcome(fs.sb, old(fs.Img()), ip, old(off), |src|, r)
      ensures r == Error && writable ==>
                || old(off) > old(fs.inodes[ip].size)
                || old(off) + done + Min(CHUNK, |src| - done) > MAXFILE * BSIZE
    {
      hide NoHoles, Content, Owned, Spliced, Written, Ref, Covered, Logs, Transactions, Touched, Splice, Trail, Need,
           FreeBits, Bit, FileSys.Full, IsData, Supplied, Outcome, SoFar;
      done, logs, trail := 0, [], [fs.OnDisk()];
      ghost var g, synced := fs.Img(), fs.inodes == fs.dinodes;
      SizeBound();
      SoFarNothing(fs.sb, g, fs.OnDisk(), synced, ip, off, src);
      SoFarMeans(fs.sb, g, g, fs.OnDisk(), synced, ip, off, src, 0, logs, trail);
      if !writable { return Error, 0, logs, trail; }
      var i := 0;
      while i < |src|
        invariant 0 <= i <= |src| && i == done
        invariant Valid() && off == old(off) + i && (synced ==> fs.inodes == fs.dinodes)
        invariant SoFar(fs.sb, g, fs.Img(), fs.OnDisk(), synced, ip, old(off), src, i, logs, trail)
        invariant |trail| > 0 && trail[0] == old(fs.OnDisk())
      {
        var n1 := |src| - i;
        if n1 > CHUNK { n1 := CHUNK; }
        ghost var m, d := fs.Img(), fs.OnDisk();
        SoFarMeans(fs.sb, g, m, d, synced, ip, old(off), src, i, logs, trail);
        r := WriteChunk(src[i..i + n1]);
        if r == Error || r == Panic || r == Device {
          if r != Device { Stopped(fs.sb, g, m, d, synced, ip, old(off), src, i, logs, trail, n1, r); }
          return;
        }
        SoFarMore(fs.sb, g, m, fs.Img(), d, fs.OnDisk(), synced, ip, old(off), src, i, n1, logs, trail, fs.logged);
        logs, trail := logs + [fs.logged], trail + [fs.OnDisk()];
        i, done := i + n1, done + n1;
      }
      SoFarMeans(fs.sb, g, fs.Img(), fs.OnDisk(), synced, ip, old(off), src, i, logs, trail);
      if i > 0 { AllDone(fs.sb, g, fs.Img(), fs.OnDisk(), synced, ip, old(off), src, logs, trail); }
      r := Done(i);
    }
  }
}
