/** The code of fs.c that keeps file content: block allocator, block map, truncation, reading
    and writing.  Calls to `log_write` are recorded in `logged`. */
module Fs {
  import opened Common
  import opened FsImage
  import opened FsNeed

  const T_DEV: int := 3
  /** What filewrite hands to writei in one transaction. */
  const CHUNK: nat := (LOGSIZE - 1 - 1 - 2) / 2 * 512
  const UINT: nat := 0x1_0000_0000

  /** What a call returns: a byte count, -1, the device driver's answer, or no return at all. */
  datatype Ret = Done(n: nat) | Error | Device | Panic

  // ----- Files as byte sequences -----

  ghost function ByteAt(sb: Super, g: Image, i: nat, p: nat): byte
    requires Shape(sb, g) && i < |g.inodes| && p < MAXFILE * BSIZE
  {
    FileBlock(sb, g, i, p / BSIZE)[p % BSIZE]
  }

  ghost function Content(sb: Super, g: Image, i: nat): (s: seq<byte>)
    requires Shape(sb, g) && i < |g.inodes| && g.inodes[i].size <= MAXFILE * BSIZE
    ensures |s| == g.inodes[i].size
  {
    seq(g.inodes[i].size, p requires 0 <= p < g.inodes[i].size => ByteAt(sb, g, i, p))
  }

  /** Bytes `data` written over `s` from `off`, which lies in or at the end of `s`. */
  function Splice(s: seq<byte>, off: nat, data: seq<byte>): seq<byte>
    requires off <= |s|
  {
    s[..off] + data + if off + |data| < |s| then s[off + |data|..] else []
  }

  /** A block with `data` copied into it at `o`. */
  function Overlay(b: Block, o: nat, data: seq<byte>): Block
    requires o + |data| <= BSIZE
  {
    b[..o] + data + b[o + |data|..]
  }

  /** From `g` to `g'`, `data` has been written to file `i` from `off`: those bytes of that file
      change and no others, blocks starting among them are mapped, and no block is lost. */
  ghost predicate Wrote(sb: Super, g: Image, g': Image, i: nat, off: nat, data: seq<byte>)
    requires Shape(sb, g) && Shape(sb, g') && i < |g.inodes|
  {
    && |g'.inodes| == |g.inodes|
    && (forall j :: 0 <= j < |g.inodes| && j != i ==> g'.inodes[j] == g.inodes[j])
    && g'.inodes[i].(addrs := g.inodes[i].addrs) == g.inodes[i]
    && (forall s :: IsSlot(g, s) && Ref(sb, g, s) != 0 ==> Ref(sb, g', s) == Ref(sb, g, s))
    && (forall j, p :: 0 <= j < |g.inodes| && 0 <= p < MAXFILE * BSIZE ==>
          ByteAt(sb, g', j, p) ==
          if j == i && off <= p < off + |data| then data[p - off] else ByteAt(sb, g, j, p))
    && (forall bn :: 0 <= bn < MAXFILE && off <= bn * BSIZE < off + |data| ==>
          Ref(sb, g', Slot(i, DataSlot(bn))) != 0)
  }

  lemma WroteNothing(sb: Super, g: Image, i: nat, off: nat)
    requires Shape(sb, g) && i < |g.inodes|
    ensures Wrote(sb, g, g, i, off, [])
  {
  }

  lemma WroteRefs(sb: Super, g: Image, g': Image, i: nat, off: nat, data: seq<byte>)
    requires Shape(sb, g) && Shape(sb, g') && i < |g.inodes| && Wrote(sb, g, g', i, off, data)
    ensures |g'.inodes| == |g.inodes|
    ensures forall s :: IsSlot(g, s) && Ref(sb, g, s) != 0 ==> Ref(sb, g', s) == Ref(sb, g, s)
  {
  }

  lemma WroteMore(sb: Super, g: Image, m: Image, g': Image, i: nat, off: nat, a: seq<byte>, b: seq<byte>)
    requires Shape(sb, g) && Shape(sb, m) && Shape(sb, g') && i < |g.inodes| && |m.inodes| == |g.inodes|
    requires Wrote(sb, g, m, i, off, a) && Wrote(sb, m, g', i, off + |a|, b)
    ensures Wrote(sb, g, g', i, off, a + b)
  {
    hide ByteAt, Ref;
    forall s | IsSlot(g, s) && Ref(sb, g, s) != 0 ensures Ref(sb, g', s) == Ref(sb, g, s) {
      assert Ref(sb, m, s) == Ref(sb, g, s);
    }
    forall j, p | 0 <= j < |g.inodes| && 0 <= p < MAXFILE * BSIZE
      ensures ByteAt(sb, g', j, p) ==
              if j == i && off <= p < off + |a + b| then (a + b)[p - off] else ByteAt(sb, g, j, p)
    {
      assert ByteAt(sb, m, j, p) == if j == i && off <= p < off + |a| then a[p - off] else ByteAt(sb, g, j, p);
    }
    forall bn | 0 <= bn < MAXFILE && off <= bn * BSIZE < off + |a + b|
      ensures Ref(sb, g', Slot(i, DataSlot(bn))) != 0
    {
      if bn * BSIZE < off + |a| {
        assert Ref(sb, m, Slot(i, DataSlot(bn))) != 0;
        assert IsSlot(m, Slot(i, DataSlot(bn)));
      }
    }
  }

  /** One block of a file replaced, after it was mapped, by the same block with `data` in it. */
  lemma WrotePiece(sb: Super, g: Image, m: Image, own: map<int, Slot>, i: nat, off: nat, data: seq<byte>)
    requires Shape(sb, g) && Consistent(sb, m, own) && i < |g.inodes|
    requires Grown(sb, g, m, i)
    requires off + |data| <= MAXFILE * BSIZE && off % BSIZE + |data| <= BSIZE && |data| > 0
    requires Ref(sb, m, Slot(i, DataSlot(off / BSIZE))) != 0
    ensures var a, o := Ref(sb, m, Slot(i, DataSlot(off / BSIZE))), off % BSIZE;
            && IsData(sb, a)
            && var g' := m.(blocks := m.blocks[a := Overlay(m.blocks[a], o, data)]);
            && Consistent(sb, g', own)
            && Wrote(sb, g, g', i, off, data)
            && Ref(sb, g', Slot(i, DataSlot(off / BSIZE))) == a
            && (forall s :: IsSlot(m, s) ==> Ref(sb, g', s) == Ref(sb, m, s))
  {
    var bn, o := off / BSIZE, off % BSIZE;
    var a := Ref(sb, m, Slot(i, DataSlot(bn)));
    assert IsSlot(m, Slot(i, DataSlot(bn)));
    assert OwnedBy(sb, m, own[a], a);
    var x := Overlay(m.blocks[a], o, data);
    WriteDataKeeps(sb, m, own, i, bn, x);
    var g' := m.(blocks := m.blocks[a := x]);
    forall j, p | 0 <= j < |g.inodes| && 0 <= p < MAXFILE * BSIZE
      ensures ByteAt(sb, g', j, p) ==
              if j == i && off <= p < off + |data| then data[p - off] else ByteAt(sb, g, j, p)
    {
      PieceByte(sb, g, m, g', i, off, data, x, j, p);
    }
    forall cn | 0 <= cn < MAXFILE && off <= cn * BSIZE < off + |data|
      ensures Ref(sb, g', Slot(i, DataSlot(cn))) != 0
    {
      assert cn == bn;
    }
  }

  lemma PieceByte(sb: Super, g: Image, m: Image, g': Image, i: nat, off: nat, data: seq<byte>, x: Block, j: nat, p: nat)
    requires Shape(sb, g) && Shape(sb, m) && Shape(sb, g')
    requires i < |g.inodes| == |m.inodes| == |g'.inodes| && j < |g.inodes| && p < MAXFILE * BSIZE
    requires off + |data| <= MAXFILE * BSIZE && off % BSIZE + |data| <= BSIZE && |data| > 0
    requires FileBlock(sb, m, j, p / BSIZE) == FileBlock(sb, g, j, p / BSIZE)
    requires x == Overlay(FileBlock(sb, m, i, off / BSIZE), off % BSIZE, data)
    requires FileBlock(sb, g', j, p / BSIZE) ==
             if j == i && p / BSIZE == off / BSIZE then x else FileBlock(sb, m, j, p / BSIZE)
    ensures ByteAt(sb, g', j, p) ==
            if j == i && off <= p < off + |data| then data[p - off] else ByteAt(sb, g, j, p)
  {
    hide FileBlock;
    assert off == off / BSIZE * BSIZE + off % BSIZE;
    assert p == p / BSIZE * BSIZE + p % BSIZE;
  }

  function WithSize(g: Image, i: nat, size: nat): Image
    requires i < |g.inodes|
  {
    g.(inodes := g.inodes[i := g.inodes[i].(size := size)])
  }

  /** After the bytes are written and the size updated, the file is the old one with `data`
      spliced in, every other file is what it was, and no file has holes. */
  lemma WroteContent(sb: Super, g: Image, m: Image, own: map<int, Slot>, i: nat, off: nat, data: seq<byte>)
    requires Shape(sb, g) && Consistent(sb, m, own) && i < |g.inodes|
    requires Wrote(sb, g, m, i, off, data)
    requires forall j :: 0 <= j < |g.inodes| ==> NoHoles(sb, g, j)
    requires off <= g.inodes[i].size && off + |data| <= MAXFILE * BSIZE
    ensures var g' := WithSize(m, i, Max(g.inodes[i].size, off + |data|));
            && Consistent(sb, g', own)
            && (forall j :: 0 <= j < |g.inodes| ==>
                  && NoHoles(sb, g', j)
                  && Content(sb, g', j) ==
                     if j == i then Splice(Content(sb, g, i), off, data) else Content(sb, g, j))
  {
    var g' := WithSize(m, i, Max(g.inodes[i].size, off + |data|));
    forall s | IsSlot(g, s) ensures Ref(sb, g', s) == Ref(sb, m, s) {}
    WithSizeOwned(sb, m, own, i, g'.inodes[i].size);
    forall j | 0 <= j < |g.inodes|
      ensures NoHoles(sb, g', j)
      ensures Content(sb, g', j) == if j == i then Splice(Content(sb, g, i), off, data) else Content(sb, g, j)
    {
      assert NoHoles(sb, g, j) && NoHoles(sb, g, i);
      WroteNoHoles(sb, g, m, i, off, data, j);
      WroteBytes(sb, g, m, i, off, data, j);
    }
  }

  lemma WithSizeOwned(sb: Super, m: Image, own: map<int, Slot>, i: nat, size: nat)
    requires Consistent(sb, m, own) && i < |m.inodes|
    ensures Consistent(sb, WithSize(m, i, size), own)
  {
    var g' := WithSize(m, i, size);
    forall s | IsSlot(m, s) ensures Ref(sb, g', s) == Ref(sb, m, s) {}
    forall b | b in own ensures OwnedBy(sb, g', own[b], b) { assert OwnedBy(sb, m, own[b], b); }
  }

  lemma WroteNoHoles(sb: Super, g: Image, m: Image, i: nat, off: nat, data: seq<byte>, j: nat)
    requires Shape(sb, g) && Shape(sb, m) && i < |g.inodes| && j < |g.inodes|
    requires Wrote(sb, g, m, i, off, data) && NoHoles(sb, g, j)
    requires off <= g.inodes[i].size && off + |data| <= MAXFILE * BSIZE
    ensures var g' := WithSize(m, i, Max(g.inodes[i].size, off + |data|)); Shape(sb, g') && NoHoles(sb, g', j)
  {
    var g' := WithSize(m, i, Max(g.inodes[i].size, off + |data|));
    forall bn | 0 <= bn < MAXFILE && bn * BSIZE < g'.inodes[j].size
      ensures Ref(sb, g', Slot(j, DataSlot(bn))) != 0
    {
      var s := Slot(j, DataSlot(bn));
      assert IsSlot(g, s);
      assert Ref(sb, g', s) == Ref(sb, m, s);
      if bn * BSIZE < g.inodes[j].size {
        assert Ref(sb, g, s) != 0;
      }
    }
  }

  lemma WroteBytes(sb: Super, g: Image, m: Image, i: nat, off: nat, data: seq<byte>, j: nat)
    requires Shape(sb, g) && Shape(sb, m) && i < |g.inodes| && j < |g.inodes|
    requires Wrote(sb, g, m, i, off, data) && g.inodes[j].size <= MAXFILE * BSIZE
    requires off <= g.inodes[i].size <= MAXFILE * BSIZE && off + |data| <= MAXFILE * BSIZE
    ensures var g' := WithSize(m, i, Max(g.inodes[i].size, off + |data|));
            && Shape(sb, g')
            && Content(sb, g', j) == if j == i then Splice(Content(sb, g, i), off, data) else Content(sb, g, j)
  {
    var g' := WithSize(m, i, Max(g.inodes[i].size, off + |data|));
    hide ByteAt, Ref, FileBlock, Word, Splice;
    var want := if j == i then Splice(Content(sb, g, i), off, data) else Content(sb, g, j);
    SpliceSize(Content(sb, g, i), off, data);
    forall p | 0 <= p < g'.inodes[j].size ensures Content(sb, g', j)[p] == want[p] {
      SameByte(sb, m, i, g'.inodes[i].size, j, p);
      assert ByteAt(sb, m, j, p) ==
             if j == i && off <= p < off + |data| then data[p - off] else ByteAt(sb, g, j, p);
      if j == i {
        SpliceAt(Content(sb, g, i), off, data, p);
      }
    }
  }

  lemma SpliceSize(s: seq<byte>, off: nat, data: seq<byte>)
    requires off <= |s|
    ensures |Splice(s, off, data)| == Max(|s|, off + |data|)
  {
  }

  lemma SpliceAt(s: seq<byte>, off: nat, data: seq<byte>, p: nat)
    requires off <= |s| && p < Max(|s|, off + |data|)
    ensures |Splice(s, off, data)| == Max(|s|, off + |data|)
    ensures Splice(s, off, data)[p] == if off <= p < off + |data| then data[p - off] else s[p]
  {
  }

  lemma SameByte(sb: Super, m: Image, i: nat, size: nat, j: nat, p: nat)
    requires Shape(sb, m) && i < |m.inodes| && j < |m.inodes| && p < MAXFILE * BSIZE
    ensures Shape(sb, WithSize(m, i, size)) && ByteAt(sb, WithSize(m, i, size), j, p) == ByteAt(sb, m, j, p)
  {
  }

  /** A stretch of a file within one block is that stretch of the block. */
  lemma BlockSlice(sb: Super, g: Image, i: nat, off: nat, m: nat)
    requires Shape(sb, g) && i < |g.inodes| && g.inodes[i].size <= MAXFILE * BSIZE
    requires off % BSIZE + m <= BSIZE && off + m <= g.inodes[i].size && m > 0
    ensures Content(sb, g, i)[off..off + m]
            == FileBlock(sb, g, i, off / BSIZE)[off % BSIZE..off % BSIZE + m]
  {
    hide FileBlock;
    var x := Content(sb, g, i)[off..off + m];
    var y := FileBlock(sb, g, i, off / BSIZE)[off % BSIZE..off % BSIZE + m];
    forall q | 0 <= q < m ensures x[q] == y[q] {
      assert (off + q) / BSIZE == off / BSIZE && (off + q) % BSIZE == off % BSIZE + q;
    }
  }

  lemma WroteInodes(sb: Super, g: Image, m: Image, i: nat, off: nat, data: seq<byte>)
    requires Shape(sb, g) && Shape(sb, m) && i < |g.inodes| && Wrote(sb, g, m, i, off, data)
    ensures |m.inodes| == |g.inodes| && m.inodes[i].(addrs := g.inodes[i].addrs) == g.inodes[i]
    ensures forall j :: 0 <= j < |g.inodes| && j != i ==> m.inodes[j] == g.inodes[j]
  {
  }

  lemma SubsetCard(a: set<int>, b: set<int>)
    requires a <= b
    ensures |a| <= |b|
  {
    assert b == a + (b - a);
  }

  /** After truncation of inode `i`, every other file is what it was. */
  lemma TruncOthers(sb: Super, g: Image, g': Image, own: map<int, Slot>, own': map<int, Slot>, i: nat)
    requires Consistent(sb, g, own) && Consistent(sb, g', own') && i < |g.inodes|
    requires g'.blocks == g.blocks && |g'.inodes| == |g.inodes| && g'.inodes[i].size == 0
    requires forall j :: 0 <= j < |g.inodes| ==> NoHoles(sb, g, j)
    requires forall j :: 0 <= j < |g.inodes| && j != i ==> g'.inodes[j] == g.inodes[j]
    ensures forall j :: 0 <= j < |g.inodes| ==> NoHoles(sb, g', j)
    ensures forall j :: 0 <= j < |g.inodes| && j != i ==>
              NoHoles(sb, g, j) && Content(sb, g', j) == Content(sb, g, j)
  {
    forall j | 0 <= j < |g.inodes| && j != i
      ensures NoHoles(sb, g', j) && Content(sb, g', j) == Content(sb, g, j)
    {
      assert NoHoles(sb, g, j);
      SameInode(sb, g, g', j);
    }
  }

  /** A file depends only on its inode and the blocks. */
  lemma SameInode(sb: Super, g: Image, g': Image, j: nat)
    requires Shape(sb, g) && Shape(sb, g') && j < |g.inodes| == |g'.inodes|
    requires g'.blocks == g.blocks && g'.inodes[j] == g.inodes[j] && NoHoles(sb, g, j)
    ensures NoHoles(sb, g', j) && Content(sb, g', j) == Content(sb, g, j)
  {
    forall k | 0 <= k < NSLOTS ensures Ref(sb, g', Slot(j, k)) == Ref(sb, g, Slot(j, k)) {}
    forall p | 0 <= p < g.inodes[j].size ensures ByteAt(sb, g', j, p) == ByteAt(sb, g, j, p) {
      assert Ref(sb, g', Slot(j, DataSlot(p / BSIZE))) == Ref(sb, g, Slot(j, DataSlot(p / BSIZE)));
    }
    forall bn | 0 <= bn < MAXFILE && bn * BSIZE < g'.inodes[j].size
      ensures Ref(sb, g', Slot(j, DataSlot(bn))) != 0
    {
      assert Ref(sb, g, Slot(j, DataSlot(bn))) != 0;
    }
  }

  // ----- Counting the blocks that one call to writei logs -----

  /** After `t` pieces and `tot` of `n` bytes: the blocks logged since `base` are the data blocks
      `touched`, the bitmap blocks `maps` and, once it is used, the indirect block `ind`.  There is
      at most one bitmap block per piece, none for a first piece that does not start a block, and
      one more if the indirect block is new.  All pieces but the last end at a block boundary. */
  ghost predicate Counted(base: set<int>, logged: set<int>, touched: set<int>, maps: set<int>, t: nat,
                          off: nat, tot: nat, n: nat, ind0: int, ind: int) {
    && (tot == 0 <==> t == 0)
    && logged <= base + touched + maps + Through(off, tot, ind)
    && (Through(off, tot, ind) != {} ==> ind != 0)
    && (ind0 != 0 ==> ind == ind0)
    && |touched| <= t
    && |maps| <= t - (if off % BSIZE != 0 && t > 0 then 1 else 0) + (if ind0 == 0 && ind != 0 then 1 else 0)
    && (t > 0 ==> (t - 1) * BSIZE < off % BSIZE + n)
    && (0 < tot < n ==> off + tot == (off / BSIZE + t) * BSIZE)
  }

  ghost function Through(off: nat, tot: nat, ind: int): set<int> {
    if tot > 0 && off + tot > NDIRECT * BSIZE then {ind} else {}
  }

  lemma NoneCounted(base: set<int>, off: nat, n: nat, ind: int)
    ensures Counted(base, base, {}, {}, 0, off, 0, n, ind, ind) && Touched(off, 0) == 0
  {
  }

  lemma PieceFits(pos: nat, left: nat)
    requires left > 0
    ensures var len := Min(left, BSIZE - pos % BSIZE); len > 0 && pos % BSIZE + len <= BSIZE
  {
  }

  lemma CountStep(base: set<int>, logged: set<int>, logged': set<int>, touched: set<int>, maps: set<int>,
                  addr: int, more: set<int>, t: nat, off: nat, tot: nat, n: nat, ind0: int, ind: int, ind': int)
    requires Counted(base, logged, touched, maps, t, off, tot, n, ind0, ind) && tot < n
    requires logged' <= logged + more + {addr} + if (off + tot) / BSIZE < NDIRECT then {} else {ind'}
    requires |more| <= if (off + tot) / BSIZE < NDIRECT || ind != 0 then 1 else 2
    requires tot == 0 && off % BSIZE != 0 ==> more == {}
    requires (off + tot) / BSIZE >= NDIRECT ==> ind' != 0
    requires ind != 0 ==> ind' == ind
    ensures var len := Min(n - tot, BSIZE - (off + tot) % BSIZE);
            Counted(base, logged', touched + {addr}, maps + more, t + 1, off, tot + len, n, ind0, ind')
  {
    var len := Min(n - tot, BSIZE - (off + tot) % BSIZE);
    PieceArith(off, tot, n, t);
    assert |maps + more| <= |maps| + |more|;
    assert |touched + {addr}| <= |touched| + 1;
    assert Through(off, tot, ind) <= Through(off, tot + len, ind');
  }

  /** The piece that starts at byte `tot` is in block number `t` of the stretch. */
  lemma NextTouched(base: set<int>, logged: set<int>, touched: set<int>, maps: set<int>, t: nat,
                    off: nat, tot: nat, n: nat, ind0: int, ind: int)
    requires Counted(base, logged, touched, maps, t, off, tot, n, ind0, ind) && tot < n && off + n <= MAXFILE * BSIZE
    ensures var len := Min(n - tot, BSIZE - (off + tot) % BSIZE);
            && (off + tot) / BSIZE == off / BSIZE + t && off / BSIZE + t < MAXFILE
            && Touched(off, tot + len) == t + 1
  {
    PieceArith(off, tot, n, t);
  }

  lemma PieceArith(off: nat, tot: nat, n: nat, t: nat)
    requires tot < n && (tot == 0 <==> t == 0)
    requires tot > 0 ==> off + tot == (off / BSIZE + t) * BSIZE
    ensures var len := Min(n - tot, BSIZE - (off + tot) % BSIZE);
            && len > 0
            && (tot + len < n ==> off + tot + len == (off / BSIZE + t + 1) * BSIZE)
            && t * BSIZE < off % BSIZE + n
            && (off + tot + len > NDIRECT * BSIZE <==> (off + tot) / BSIZE >= NDIRECT)
  {
  }

  // ----- Which disk block a bit or an inode lives in -----

  function BBlock(sb: Super, b: nat): int { b / BPB + sb.bmapstart }

  function IBlock(sb: Super, i: nat): int { i / IPB + sb.inodestart }

  // ----- Every block that changes is logged -----

  /** What is on the disk, as far as transactions write it. */
  datatype Stored = Stored(bitmap: seq<bv8>, blocks: seq<Block>, dinodes: seq<Inode>)

  /** From `d` to `d'` no disk block has changed that is not among `logged`. */
  ghost predicate Covered(sb: Super, d: Stored, d': Stored, logged: set<int>) {
    && |d'.bitmap| == |d.bitmap| && |d'.blocks| == |d.blocks| && |d'.dinodes| == |d.dinodes|
    && (forall y :: 0 <= y < |d.bitmap| && d'.bitmap[y] != d.bitmap[y] ==> y / BSIZE + sb.bmapstart in logged)
    && (forall b :: 0 <= b < |d.blocks| && d'.blocks[b] != d.blocks[b] ==> b in logged)
    && (forall i :: 0 <= i < |d.dinodes| && d'.dinodes[i] != d.dinodes[i] ==> i / IPB + sb.inodestart in logged)
  }

  lemma CoveredNothing(sb: Super, d: Stored, logged: set<int>)
    ensures Covered(sb, d, d, logged)
  {
  }

  lemma CoveredMore(sb: Super, a: Stored, b: Stored, c: Stored, first: set<int>, all: set<int>)
    requires Covered(sb, a, b, first) && Covered(sb, b, c, all) && first <= all
    ensures Covered(sb, a, c, all)
  {
  }

  lemma CoveredBit(sb: Super, d: Stored, b: nat, bitmap: seq<bv8>, logged: set<int>)
    requires b < 8 * |d.bitmap| && (bitmap == SetBit(d.bitmap, b) || bitmap == ClearBit(d.bitmap, b))
    requires BBlock(sb, b) in logged
    ensures Covered(sb, d, d.(bitmap := bitmap), logged)
  {
    hide WithBit, WithoutBit;
    assert b / 8 / BSIZE == b / BPB;
  }

  lemma CoveredBlock(sb: Super, d: Stored, b: nat, x: Block, logged: set<int>)
    requires b < |d.blocks| && b in logged
    ensures Covered(sb, d, d.(blocks := d.blocks[b := x]), logged)
  {
  }

  // ----- The data blocks under a stretch of a file -----

  /** The disk blocks of blocks `bn .. bn + k` of a file. */
  ghost function Refs(sb: Super, g: Image, i: nat, bn: nat, k: nat): set<int>
    requires Shape(sb, g) && i < |g.inodes| && bn + k <= MAXFILE
  {
    if k == 0 then {} else Refs(sb, g, i, bn, k - 1) + {Ref(sb, g, Slot(i, DataSlot(bn + k - 1)))}
  }

  /** All of them are mapped and logged. */
  ghost predicate AllLogged(sb: Super, g: Image, i: nat, bn: nat, k: nat, logged: set<int>)
    requires Shape(sb, g) && i < |g.inodes| && bn + k <= MAXFILE
  {
    forall j :: bn <= j < bn + k ==>
      Ref(sb, g, Slot(i, DataSlot(j))) != 0 && Ref(sb, g, Slot(i, DataSlot(j))) in logged
  }

  lemma NoneLogged(sb: Super, g: Image, i: nat, bn: nat, logged: set<int>)
    requires Shape(sb, g) && i < |g.inodes| && bn <= MAXFILE
    ensures AllLogged(sb, g, i, bn, 0, logged)
  {
  }

  lemma SuppliedSized(sb: Super, g: Image, m: Image, i: nat, off: nat, n: nat, size: nat)
    requires Supplied(sb, g, m, i, off, n) && Shape(sb, WithSize(m, i, size))
    ensures Supplied(sb, g, WithSize(m, i, size), i, off, n)
  {
    hide Need, FreeBits;
    var m' := WithSize(m, i, size);
    forall cn | 0 <= cn < MAXFILE ensures Unmapped(sb, m', i, cn) <==> Unmapped(sb, m, i, cn) {}
  }

  lemma LoggedSized(sb: Super, g: Image, i: nat, size: nat, bn: nat, k: nat, before: set<int>, logged: set<int>)
    requires Shape(sb, g) && i < |g.inodes| && bn + k <= MAXFILE && AllLogged(sb, g, i, bn, k, before)
    requires before <= logged
    requires Shape(sb, WithSize(g, i, size))
    ensures AllLogged(sb, WithSize(g, i, size), i, bn, k, logged)
  {
    forall j | bn <= j < bn + k
      ensures Ref(sb, WithSize(g, i, size), Slot(i, DataSlot(j))) == Ref(sb, g, Slot(i, DataSlot(j)))
    {
    }
  }

  /** One block more is written, and the earlier ones are still mapped to the same disk blocks. */
  lemma LoggedMore(sb: Super, m: Image, m': Image, i: nat, bn: nat, k: nat, before: set<int>, logged: set<int>,
                   addr: int)
    requires Shape(sb, m) && Shape(sb, m') && i < |m.inodes| == |m'.inodes| && bn + k < MAXFILE && before <= logged
    requires AllLogged(sb, m, i, bn, k, before) && addr in logged
    requires addr == Ref(sb, m', Slot(i, DataSlot(bn + k))) != 0
    requires forall s :: IsSlot(m, s) && Ref(sb, m, s) != 0 ==> Ref(sb, m', s) == Ref(sb, m, s)
    ensures AllLogged(sb, m', i, bn, k + 1, logged)
  {
    hide Ref;
    forall j | bn <= j < bn + k + 1
      ensures Ref(sb, m', Slot(i, DataSlot(j))) != 0 && Ref(sb, m', Slot(i, DataSlot(j))) in logged
    {
      assert j < bn + k ==> IsSlot(m, Slot(i, DataSlot(j)));
    }
  }

  /** Blocks of a file are different disk blocks, so as many are logged. */
  lemma {:induction false} RefsCount(sb: Super, g: Image, own: map<int, Slot>, i: nat, bn: nat, k: nat,
                                     logged: set<int>)
    requires Consistent(sb, g, own) && i < |g.inodes| && bn + k <= MAXFILE && AllLogged(sb, g, i, bn, k, logged)
    ensures |Refs(sb, g, i, bn, k)| == k && Refs(sb, g, i, bn, k) <= logged
    ensures forall x :: x in Refs(sb, g, i, bn, k) ==> x in own && bn <= BlockOf(own[x]) < bn + k
  {
    hide Ref, Bit, Word;
    if k > 0 {
      RefsCount(sb, g, own, i, bn, k - 1, logged);
      var s := Slot(i, DataSlot(bn + k - 1));
      assert IsSlot(g, s) && Ref(sb, g, s) in own && own[Ref(sb, g, s)] == s;
      assert BlockOf(s) == bn + k - 1;
    }
  }

  /** The block of its file that a data slot holds. */
  function BlockOf(s: Slot): int { if s.k < NDIRECT then s.k else s.k - 1 }

  lemma LoggedAtLeast(sb: Super, g: Image, own: map<int, Slot>, i: nat, bn: nat, k: nat, logged: set<int>)
    requires Consistent(sb, g, own) && i < |g.inodes| && bn + k <= MAXFILE && AllLogged(sb, g, i, bn, k, logged)
    ensures k <= |logged|
  {
    RefsCount(sb, g, own, i, bn, k, logged);
    SubsetCard(Refs(sb, g, i, bn, k), logged);
  }

  class FileSys {
    const sb: Super
    var bitmap: seq<bv8>
    var blocks: seq<Block>
    var inodes: seq<Inode>     // in-core, as ilock presents them
    var dinodes: seq<Inode>    // on disk
    ghost var own: map<int, Slot>
    ghost var logged: set<int>

    ghost function Img(): Image
      reads this
    {
      Image(bitmap, blocks, inodes)
    }

    ghost function OnDisk(): Stored
      reads this
    {
      Stored(bitmap, blocks, dinodes)
    }

    ghost predicate Valid()
      reads this
    {
      && Consistent(sb, Img(), own)
      && |dinodes| == |inodes|
      && forall i :: 0 <= i < |inodes| ==> NoHoles(sb, Img(), i)
    }

    ghost predicate Full()
      requires Shape(sb, Img())
      reads this
    {
      forall x :: 0 <= x < sb.size ==> Bit(bitmap, x)
    }

    ghost function Free(): nat
      requires Shape(sb, Img())
      reads this
    {
      FreeBits(bitmap, sb.size)
    }

    // ----- The block allocator -----

    /** Take the first free block, marked and zeroed; -1 stands for the panic when there is none. */
    method Balloc() returns (r: int)
      requires Shape(sb, Img())
      modifies this`bitmap, this`blocks, this`logged
      ensures r == -1 ==> unchanged(this) && Full()
      ensures r != -1 ==>
                && 0 <= r < sb.size && !old(Bit(bitmap, r))
                && (forall x :: 0 <= x < r ==> old(Bit(bitmap, x)))
                && Img() == Allocated(old(Img()), r)
                && logged == old(logged) + {BBlock(sb, r), r}
      ensures r == -1 <==> old(Free()) == 0
      ensures r != -1 ==> Shape(sb, Img()) && Free() == old(Free()) - 1
      ensures old(logged) <= logged && Covered(sb, old(OnDisk()), OnDisk(), logged)
    {
      var b := 0;
      while b < sb.size
        invariant 0 <= b
        invariant unchanged(this)
        invariant forall x :: 0 <= x < b && x < sb.size ==> Bit(bitmap, x)
      {
        var bi := 0;
        while bi < BPB && b + bi < sb.size
          invariant 0 <= bi <= BPB
          invariant unchanged(this)
          invariant forall x :: 0 <= x < b + bi && x < sb.size ==> Bit(bitmap, x)
        {
          if !Bit(bitmap, b + bi) {
            r := b + bi;
            ghost var d := OnDisk();
            FreeAfterSet(bitmap, r, sb.size);
            bitmap := SetBit(bitmap, r);
            logged := logged + {BBlock(sb, r)};
            CoveredBit(sb, d, r, bitmap, logged);
            ghost var e := OnDisk();
            blocks := blocks[r := ZeroBlock()];
            logged := logged + {r};
            CoveredBlock(sb, e, r, ZeroBlock(), logged);
            CoveredMore(sb, d, e, OnDisk(), old(logged) + {BBlock(sb, r)}, logged);
            return;
          }
          bi := bi + 1;
        }
        b := b + BPB;
      }
      NoneLeft(bitmap, sb.size);
      r := -1;
    }

    /** Clear the bit of a block; false stands for the panic on a block that is free. */
    method Bfree(b: int) returns (ok: bool)
      requires Shape(sb, Img()) && 0 <= b < sb.size
      modifies this`bitmap, this`logged
      ensures ok <==> old(Bit(bitmap, b))
      ensures ok ==> bitmap == ClearBit(old(bitmap), b) && logged == old(logged) + {BBlock(sb, b)}
      ensures old(logged) <= logged && Covered(sb, old(OnDisk()), OnDisk(), logged)
      ensures sb.size <= BPB ==> logged <= old(logged) + {sb.bmapstart}
      ensures !ok ==> unchanged(this)
    {
      if !Bit(bitmap, b) {
        return false;
      }
      ghost var d := OnDisk();
      bitmap := ClearBit(bitmap, b);
      logged := logged + {BBlock(sb, b)};
      CoveredBit(sb, d, b, bitmap, logged);
      return true;
    }

    /** Copy a modified in-core inode to disk. */
    method Iupdate(i: nat)
      requires i < |inodes| == |dinodes|
      modifies this`dinodes, this`logged
      ensures dinodes == old(dinodes)[i := inodes[i]]
      ensures logged == old(logged) + {IBlock(sb, i)} && Covered(sb, old(OnDisk()), OnDisk(), logged)
    {
      dinodes := dinodes[i := inodes[i]];
      logged := logged + {IBlock(sb, i)};
    }

    // ----- The block map -----

    /** The bitmap blocks of the disk. */
    ghost predicate BitmapBlocks(maps: set<int>)
    {
      forall m :: m in maps ==> exists b :: 0 <= b < sb.size && m == BBlock(sb, b)
    }

    /** The address in place `k` of inode `i`, allocating a block if it is zero. */
    method MapAddr(i: nat, k: nat) returns (addr: int, ghost maps: set<int>)
      requires Consistent(sb, Img(), own) && i < |inodes| && k <= NDIRECT
      modifies this`bitmap, this`blocks, this`inodes, this`own, this`logged
      ensures Consistent(sb, Img(), own) && Grown(sb, old(Img()), Img(), i)
      ensures old(inodes[i].addrs[k]) != 0 || addr == -1 ==> unchanged(this) && maps == {}
      ensures addr == -1 || addr == inodes[i].addrs[k] != 0
      ensures addr == -1 ==> Full()
      ensures addr == -1 <==> old(inodes[i].addrs[k]) == 0 && old(Free()) == 0
      ensures Free() == old(Free()) - if old(inodes[i].addrs[k]) == 0 && addr != -1 then 1 else 0
      ensures OtherRefs(sb, old(Img()), Img(), Slot(i, k))
      ensures logged <= old(logged) + maps + {addr} && |maps| <= 1 && BitmapBlocks(maps)
      ensures old(logged) <= logged && Covered(sb, old(OnDisk()), OnDisk(), logged)
    {
      hide Covered, Full, Word, SetBit, FreeBits, Bit;
      maps := {};
      CoveredNothing(sb, OnDisk(), logged);
      addr := inodes[i].addrs[k];
      if addr == 0 {
        addr := Balloc();
        if addr == -1 { return; }
        ghost var g := old(Img());
        AllocateKeeps(sb, g, own, {}, addr);
        LinkAddr(sb, Img(), own, {addr}, i, k, addr);
        assert {} + {addr} == {addr} && {addr} - {addr} == {};
        forall s | IsSlot(g, s)
          ensures Ref(sb, WithAddr(Img(), i, k, addr), s) == if s == Slot(i, k) then addr else Ref(sb, g, s)
        {
          RefWithAddr(sb, Img(), i, k, addr, s);
        }
        inodes := inodes[i := inodes[i].(addrs := inodes[i].addrs[k := addr])];
        own := own[addr := Slot(i, k)];
        maps := {BBlock(sb, addr)};
      } else {
        assert Ref(sb, Img(), Slot(i, k)) == addr;
      }
    }

    /** The address in word `j` of the indirect block of inode `i`, allocating a block if it is zero. */
    method MapEntry(i: nat, j: nat) returns (addr: int, ghost maps: set<int>)
      requires Consistent(sb, Img(), own) && i < |inodes| && j < NINDIRECT
      requires inodes[i].addrs[NDIRECT] != 0
      modifies this`bitmap, this`blocks, this`own, this`logged
      ensures Consistent(sb, Img(), own) && Grown(sb, old(Img()), Img(), i)
      ensures old(Ref(sb, Img(), Slot(i, NDIRECT + 1 + j))) != 0 || addr == -1 ==> unchanged(this) && maps == {}
      ensures addr == -1 || addr == Ref(sb, Img(), Slot(i, NDIRECT + 1 + j)) != 0
      ensures addr == -1 ==> Full()
      ensures addr == -1 <==> old(Ref(sb, Img(), Slot(i, NDIRECT + 1 + j))) == 0 && old(Free()) == 0
      ensures Free() == old(Free()) - if old(Ref(sb, Img(), Slot(i, NDIRECT + 1 + j))) == 0 && addr != -1 then 1 else 0
      ensures OtherRefs(sb, old(Img()), Img(), Slot(i, NDIRECT + 1 + j))
      ensures logged <= old(logged) + maps + {addr, inodes[i].addrs[NDIRECT]} && |maps| <= 1 && BitmapBlocks(maps)
      ensures old(logged) <= logged && Covered(sb, old(OnDisk()), OnDisk(), logged)
    {
      hide Covered, Full, SetBit, SetWord, FreeBits, FileBlock, Bit;
      maps := {};
      CoveredNothing(sb, OnDisk(), logged);
      var a := inodes[i].addrs[NDIRECT];
      addr := Word(blocks[a], j);
      assert addr == Ref(sb, Img(), Slot(i, NDIRECT + 1 + j));
      if addr == 0 {
        addr := Balloc();
        if addr == -1 { return; }
        ghost var g := old(Img());
        ghost var t := Slot(i, NDIRECT + 1 + j);
        AllocateKeeps(sb, g, own, {}, addr);
        LinkEntry(sb, Img(), own, {addr}, i, j, addr);
        assert {} + {addr} == {addr} && {addr} - {addr} == {};
        forall s | IsSlot(g, s)
          ensures Ref(sb, WithEntry(Img(), a, j, addr), s) == if s == t then addr else Ref(sb, g, s)
        {
          RefWithEntry(sb, Img(), own, {addr}, i, j, addr, s);
        }
        ghost var e, was := OnDisk(), logged;
        blocks := blocks[a := SetWord(blocks[a], j, addr)];
        logged := logged + {a};
        CoveredBlock(sb, e, a, SetWord(e.blocks[a], j, addr), logged);
        CoveredMore(sb, old(OnDisk()), e, OnDisk(), was, logged);
        own := own[addr := t];
        maps := {BBlock(sb, addr)};
      }
    }

    method MapIndirect(i: nat, j: nat) returns (addr: int, ghost maps: set<int>)
      requires Consistent(sb, Img(), own) && i < |inodes| && j < NINDIRECT
      modifies this`bitmap, this`blocks, this`inodes, this`own, this`logged
      ensures Consistent(sb, Img(), own) && Grown(sb, old(Img()), Img(), i)
      ensures old(Ref(sb, Img(), Slot(i, NDIRECT + 1 + j))) != 0 ==> unchanged(this) && maps == {} && addr != -1
      ensures addr != -1 ==> addr == Ref(sb, Img(), Slot(i, NDIRECT + 1 + j)) != 0
      ensures addr == -1 ==> Full()
      ensures addr == -1 <==> old(Free()) < old(BlockNeed(sb, Img(), i, NDIRECT + j))
      ensures addr != -1 ==>
                && Free() + old(BlockNeed(sb, Img(), i, NDIRECT + j)) == old(Free())
                && OnlyMapped(sb, old(Img()), Img(), i, NDIRECT + j)
      ensures logged <= old(logged) + maps + {addr, inodes[i].addrs[NDIRECT]} && BitmapBlocks(maps)
      ensures |maps| <= if old(inodes[i].addrs[NDIRECT]) != 0 then 1 else 2
      ensures old(logged) <= logged && Covered(sb, old(OnDisk()), OnDisk(), logged)
    {
      hide FileBlock, SameFiles, Word, Bit, Owned, BitmapBlocks, Full, Covered;
      assert Shape(sb, Img());
      ghost var g := Img();
      assert Ref(sb, g, Slot(i, NDIRECT + 1 + j)) != 0 ==> inodes[i].addrs[NDIRECT] != 0;
      addr, maps := MapAddr(i, NDIRECT);
      if addr == -1 { return; }
      ghost var m, e, was := Img(), OnDisk(), logged;
      ghost var more;
      addr, more := MapEntry(i, j);
      CoveredMore(sb, old(OnDisk()), e, OnDisk(), was, logged);
      GrownTrans(sb, g, m, Img(), i);
      MappedIndirect(sb, g, m, Img(), i, j);
      BothBitmapBlocks(maps, more);
      maps := maps + more;
    }

    lemma NoBitmapBlocks()
      ensures BitmapBlocks({})
    {
    }

    lemma BothBitmapBlocks(a: set<int>, b: set<int>)
      requires BitmapBlocks(a) && BitmapBlocks(b)
      ensures BitmapBlocks(a + b)
    {
    }

    /** The indirect block through which block `bn` is reached, if any. */
    ghost function Indirect(i: nat, bn: nat): set<int>
      requires i < |inodes| && |inodes[i].addrs| == NDIRECT + 1
      reads this
    {
      if bn < NDIRECT then {} else {inodes[i].addrs[NDIRECT]}
    }

    /** The disk block of block `bn` of inode `i`, allocating what is missing; -1 stands for a
        panic.  No file changes, and nothing at all changes when the block is mapped. */
    method Bmap(i: nat, bn: nat) returns (addr: int, ghost maps: set<int>)
      requires Consistent(sb, Img(), own) && i < |inodes|
      modifies this`bitmap, this`blocks, this`inodes, this`own, this`logged
      ensures Consistent(sb, Img(), own) && Grown(sb, old(Img()), Img(), i)
      ensures bn >= MAXFILE ==> addr == -1
      ensures bn < MAXFILE && old(Ref(sb, Img(), Slot(i, DataSlot(bn)))) != 0 ==>
                unchanged(this) && maps == {} && addr != -1
      ensures addr != -1 ==> addr == Ref(sb, Img(), Slot(i, DataSlot(bn))) != 0
      ensures addr == -1 && bn < MAXFILE ==> Full()
      ensures bn < MAXFILE ==> (addr == -1 <==> old(Free()) < old(BlockNeed(sb, Img(), i, bn)))
      ensures addr != -1 ==>
                && Free() + old(BlockNeed(sb, Img(), i, bn)) == old(Free())
                && OnlyMapped(sb, old(Img()), Img(), i, bn)
      ensures logged <= old(logged) + maps + {addr} + Indirect(i, bn) && BitmapBlocks(maps)
      ensures |maps| <= if bn < NDIRECT || old(inodes[i].addrs[NDIRECT]) != 0 then 1 else 2
      ensures old(logged) <= logged && Covered(sb, old(OnDisk()), OnDisk(), logged)
    {
      hide FileBlock, SameFiles, Word, Bit, Owned, BitmapBlocks, Full, Covered;
      maps := {};
      NoBitmapBlocks();
      CoveredNothing(sb, OnDisk(), logged);
      GrownNothing(sb, Img(), i);
      if bn < NDIRECT {
        ghost var g := Img();
        addr, maps := MapAddr(i, bn);
        MappedDirect(sb, g, Img(), i, bn);
        return;
      }
      if bn - NDIRECT < NINDIRECT {
        addr, maps := MapIndirect(i, bn - NDIRECT);
        return;
      }
      addr := -1;
    }

    // ----- Reading -----

    /** Bytes `off .. off + m`, which lie in one block below the size of the file. */
    method ReadBlock(i: nat, off: nat, m: nat) returns (piece: seq<byte>)
      requires Consistent(sb, Img(), own) && i < |inodes| && NoHoles(sb, Img(), i)
      requires m > 0 && off % BSIZE + m <= BSIZE && off + m <= inodes[i].size
      modifies this`bitmap, this`blocks, this`inodes, this`own, this`logged
      ensures unchanged(this)
      ensures piece == Content(sb, Img(), i)[off..off + m]
    {
      ghost var bn := off / BSIZE;
      assert bn < MAXFILE && bn * BSIZE < inodes[i].size;
      assert Ref(sb, Img(), Slot(i, DataSlot(bn))) != 0;
      var addr, _ := Bmap(i, off / BSIZE);
      assert IsSlot(Img(), Slot(i, DataSlot(bn)));
      assert OwnedBy(sb, Img(), own[addr], addr);
      piece := blocks[addr][off % BSIZE..off % BSIZE + m];
      BlockSlice(sb, Img(), i, off, m);
    }

    /** Read up to `n` bytes from `off`: the slice of the file, and nothing changes. */
    method Readi(i: nat, off: nat, n: nat) returns (r: Ret, dst: seq<byte>)
      requires Valid() && i < |inodes| && off < UINT && n < UINT
      modifies this`bitmap, this`blocks, this`inodes, this`own, this`logged
      ensures unchanged(this)
      ensures r == if inodes[i].typ == T_DEV then Device
                   else if off > inodes[i].size || off + n >= UINT then Error
                   else Done(Min(n, inodes[i].size - off))
      ensures NoHoles(sb, Img(), i)
      ensures dst == if r.Done? then Content(sb, Img(), i)[off..off + r.n] else []
    {
      hide Ref, FileBlock, ByteAt, Owned, Word, Bit, Content, Covered, DataSlot;
      dst := [];
      if inodes[i].typ == T_DEV { return Device, []; }
      assert NoHoles(sb, Img(), i);
      if off > inodes[i].size || (off + n) % UINT < off { return Error, []; }
      var want := n;
      if off + n > inodes[i].size { want := inodes[i].size - off; }
      var tot, o := 0, off;
      ghost var all := Content(sb, Img(), i);
      while tot < want
        invariant 0 <= tot <= want && o == off + tot
        invariant unchanged(this)
        invariant dst == all[off..o]
      {
        PieceFits(o, want - tot);
        var m := Min(want - tot, BSIZE - o % BSIZE);
        var piece := ReadBlock(i, o, m);
        assert all[off..o] + all[o..o + m] == all[off..o + m];
        dst := dst + piece;
        tot, o := tot + m, o + m;
      }
      r := Done(want);
    }

    // ----- Writing -----

    /** Copy one piece, which lies in one block, into the file. */
    method WriteBlock(i: nat, off: nat, data: seq<byte>) returns (ok: bool, ghost addr: int, ghost maps: set<int>)
      requires Consistent(sb, Img(), own) && i < |inodes|
      requires |data| > 0 && off % BSIZE + |data| <= BSIZE && off + |data| <= MAXFILE * BSIZE
      modifies this`bitmap, this`blocks, this`inodes, this`own, this`logged
      ensures Consistent(sb, Img(), own)
      ensures ok ==> Wrote(sb, old(Img()), Img(), i, off, data)
      ensures !ok ==> Full()
      ensures old(Ref(sb, Img(), Slot(i, DataSlot(off / BSIZE)))) != 0 ==>
                ok && maps == {} && inodes == old(inodes)
      ensures ok ==> addr == Ref(sb, Img(), Slot(i, DataSlot(off / BSIZE))) != 0
      ensures ok ==> logged <= old(logged) + maps + {addr} + Indirect(i, off / BSIZE) && BitmapBlocks(maps)
      ensures ok ==> |maps| <= if off < NDIRECT * BSIZE || old(inodes[i].addrs[NDIRECT]) != 0 then 1 else 2
      ensures ok ==> addr in logged
      ensures ok <==> old(BlockNeed(sb, Img(), i, off / BSIZE)) <= old(Free())
      ensures ok ==>
                && |inodes| == old(|inodes|) && Free() + old(BlockNeed(sb, Img(), i, off / BSIZE)) == old(Free())
                && OnlyMapped(sb, old(Img()), Img(), i, off / BSIZE)
      ensures old(logged) <= logged && Covered(sb, old(OnDisk()), OnDisk(), logged)
    {
      ghost var g := Img();
      var a;
      a, maps := Bmap(i, off / BSIZE);
      addr := a;
      if a == -1 { return false, addr, maps; }
      ghost var m := Img();
      WrotePiece(sb, g, m, own, i, off, data);
      ghost var e, was := OnDisk(), logged;
      blocks := blocks[a := Overlay(blocks[a], off % BSIZE, data)];
      logged := logged + {a};
      MappedStill(sb, g, m, Img(), i, off / BSIZE);
      CoveredBlock(sb, e, a, blocks[a], logged);
      CoveredMore(sb, old(OnDisk()), e, OnDisk(), was, logged);
      ok := true;
    }

    /** One turn of the copying loop, `g` being the image before the first. */
    method WriteNext(ghost g: Image, i: nat, off: nat, src: seq<byte>, tot: nat, len: nat)
      returns (ok: bool, ghost addr: int, ghost maps: set<int>)
      requires Shape(sb, g) && Consistent(sb, Img(), own) && i < |inodes| == |g.inodes| && NoHoles(sb, g, i)
      requires off <= g.inodes[i].size && off + |src| <= MAXFILE * BSIZE && tot + len <= |src|
      requires Wrote(sb, g, Img(), i, off, src[..tot]) && len > 0 && (off + tot) % BSIZE + len <= BSIZE
      modifies this`bitmap, this`blocks, this`inodes, this`own, this`logged
      ensures Consistent(sb, Img(), own)
      ensures ok ==> |inodes| == |g.inodes| && Wrote(sb, g, Img(), i, off, src[..tot + len])
      ensures !ok ==> Full()
      ensures off + |src| <= g.inodes[i].size ==> ok && inodes == old(inodes)
      ensures tot == 0 && off % BSIZE != 0 ==> maps == {}
      ensures ok ==> logged <= old(logged) + maps + {addr} + Indirect(i, (off + tot) / BSIZE) && BitmapBlocks(maps)
      ensures ok ==> |maps| <= if (off + tot) / BSIZE < NDIRECT || old(inodes[i].addrs[NDIRECT]) != 0 then 1 else 2
      ensures ok && (off + tot) / BSIZE >= NDIRECT ==> inodes[i].addrs[NDIRECT] != 0
      ensures ok && old(inodes[i].addrs[NDIRECT]) != 0 ==> inodes[i].addrs[NDIRECT] == old(inodes[i].addrs[NDIRECT])
      ensures ok ==> addr == Ref(sb, Img(), Slot(i, DataSlot((off + tot) / BSIZE))) != 0 && addr in logged
      ensures ok <==> old(BlockNeed(sb, Img(), i, (off + tot) / BSIZE)) <= old(Free())
      ensures ok ==>
                && |inodes| == old(|inodes|)
                && Free() + old(BlockNeed(sb, Img(), i, (off + tot) / BSIZE)) == old(Free())
                && OnlyMapped(sb, old(Img()), Img(), i, (off + tot) / BSIZE)
      ensures ok ==> forall s :: IsSlot(old(Img()), s) && Ref(sb, old(Img()), s) != 0 ==>
                       Ref(sb, Img(), s) == Ref(sb, old(Img()), s)
      ensures old(logged) <= logged && Covered(sb, old(OnDisk()), OnDisk(), logged)
    {
      hide FileBlock, ByteAt, Owned, Word, Bit, BitmapBlocks, Ref, Wrote, Full, Covered;
      ghost var m := Img();
      var piece := src[tot..tot + len];
      FirstMapped(g, m, i, off, src[..tot], tot, |src|);
      ok, addr, maps := WriteBlock(i, off + tot, piece);
      if !ok { return; }
      WroteMore(sb, g, m, Img(), i, off, src[..tot], piece);
      WroteRefs(sb, m, Img(), i, off + tot, piece);
      assert src[..tot] + piece == src[..tot + len];
      KeepsIndirect(m, Img(), i, off + tot, piece);
      ReachedThrough(Img(), i, (off + tot) / BSIZE);
    }

    lemma ReachedThrough(g: Image, i: nat, bn: nat)
      requires Shape(sb, g) && i < |g.inodes| && bn < MAXFILE
      ensures bn >= NDIRECT && Ref(sb, g, Slot(i, DataSlot(bn))) != 0 ==> g.inodes[i].addrs[NDIRECT] != 0
    {
    }

    /** With no holes, a piece below the old size, and a first piece that does not start a block,
        find their block mapped. */
    lemma FirstMapped(g: Image, m: Image, i: nat, off: nat, data: seq<byte>, tot: nat, n: nat)
      requires Shape(sb, g) && Shape(sb, m) && i < |g.inodes| && |m.inodes| == |g.inodes| && NoHoles(sb, g, i)
      requires off <= g.inodes[i].size && tot < n && off + n <= MAXFILE * BSIZE
      requires Wrote(sb, g, m, i, off, data)
      ensures off + n <= g.inodes[i].size || (tot == 0 && off % BSIZE != 0) ==>
                Ref(sb, m, Slot(i, DataSlot((off + tot) / BSIZE))) != 0
    {
      var bn := (off + tot) / BSIZE;
      assert IsSlot(g, Slot(i, DataSlot(bn)));
      if off + n <= g.inodes[i].size || (tot == 0 && off % BSIZE != 0) {
        assert bn < MAXFILE && bn * BSIZE < g.inodes[i].size;
      }
    }

    lemma KeepsIndirect(m: Image, g': Image, i: nat, off: nat, piece: seq<byte>)
      requires Shape(sb, m) && Shape(sb, g') && i < |m.inodes| && Wrote(sb, m, g', i, off, piece)
      ensures |g'.inodes| == |m.inodes|
      ensures m.inodes[i].addrs[NDIRECT] != 0 ==> g'.inodes[i].addrs[NDIRECT] == m.inodes[i].addrs[NDIRECT]
    {
      var s := Slot(i, NDIRECT);
      assert IsSlot(m, s);
      assert Ref(sb, m, s) == m.inodes[i].addrs[NDIRECT] && Ref(sb, g', s) == g'.inodes[i].addrs[NDIRECT];
    }

    /** After `tot` of `n` bytes the image is `m`: which blocks have been logged and mapped, and how
        many taken, since the image was `g` and `base` were logged. */
    ghost predicate Tally(g: Image, m: Image, i: nat, off: nat, tot: nat, n: nat, base: set<int>, logged: set<int>,
                          touched: set<int>, maps: set<int>, t: nat)
      requires Shape(sb, g) && Shape(sb, m) && i < |g.inodes| == |m.inodes| && off + n <= MAXFILE * BSIZE
    {
      var bn := off / BSIZE;
      && BitmapBlocks(maps)
      && Counted(base, logged, touched, maps, t, off, tot, n, g.inodes[i].addrs[NDIRECT], m.inodes[i].addrs[NDIRECT])
      && t == Touched(off, tot) && bn + t <= MAXFILE && AllLogged(sb, m, i, bn, t, logged)
      && MappedTo(sb, g, m, i, bn, t)
      && FreeBits(m.bitmap, sb.size) + Need(sb, g, i, bn, t) == FreeBits(g.bitmap, sb.size)
    }

    lemma TallyNothing(g: Image, i: nat, off: nat, n: nat, base: set<int>)
      requires Shape(sb, g) && i < |g.inodes| && off + n <= MAXFILE * BSIZE
      ensures Tally(g, g, i, off, 0, n, base, base, {}, {}, 0)
    {
      NoBitmapBlocks();
      NoneCounted(base, off, n, g.inodes[i].addrs[NDIRECT]);
      NoneLogged(sb, g, i, off / BSIZE, base);
      MappedNone(sb, g, i, off / BSIZE);
    }

    /** What the next piece needs comes on top. */
    lemma TallyNeed(g: Image, m: Image, i: nat, off: nat, tot: nat, n: nat, base: set<int>, logged: set<int>,
                    touched: set<int>, maps: set<int>, t: nat)
      requires Shape(sb, g) && Shape(sb, m) && i < |g.inodes| == |m.inodes| && off + n <= MAXFILE * BSIZE && tot < n
      requires Tally(g, m, i, off, tot, n, base, logged, touched, maps, t)
      ensures var bn := off / BSIZE;
              && (off + tot) / BSIZE == bn + t < MAXFILE && t + 1 <= Touched(off, n) && bn + Touched(off, n) <= MAXFILE
              && FreeBits(m.bitmap, sb.size) + Need(sb, g, i, bn, t + 1) ==
                 FreeBits(g.bitmap, sb.size) + BlockNeed(sb, m, i, bn + t)
              && Need(sb, g, i, bn, t + 1) <= Need(sb, g, i, bn, Touched(off, n))
    {
      hide Need, MappedTo, BlockNeed, AllLogged, FreeBits, BitmapBlocks;
      var ind0, ind := g.inodes[i].addrs[NDIRECT], m.inodes[i].addrs[NDIRECT];
      NextTouched(base, logged, touched, maps, t, off, tot, n, ind0, ind);
      TouchedGrows(off, tot + Min(n - tot, BSIZE - (off + tot) % BSIZE), n);
      TouchedBound(off, n);
      NeedMore(sb, g, m, i, off / BSIZE, t);
      NeedGrows(sb, g, i, off / BSIZE, t + 1, Touched(off, n));
    }

    lemma TallyMore(g: Image, m: Image, m': Image, i: nat, off: nat, tot: nat, n: nat, base: set<int>,
                    logged: set<int>, logged': set<int>, touched: set<int>, maps: set<int>, t: nat,
                    addr: int, more: set<int>)
      requires Shape(sb, g) && Shape(sb, m) && Shape(sb, m') && i < |g.inodes| == |m.inodes| == |m'.inodes|
      requires off + n <= MAXFILE * BSIZE && tot < n && logged <= logged' && BitmapBlocks(more)
      requires Tally(g, m, i, off, tot, n, base, logged, touched, maps, t)
      requires var bn, ind, ind' := (off + tot) / BSIZE, m.inodes[i].addrs[NDIRECT], m'.inodes[i].addrs[NDIRECT];
               && logged' <= logged + more + {addr} + (if bn < NDIRECT then {} else {ind'}) && bn < MAXFILE
               && |more| <= (if bn < NDIRECT || ind != 0 then 1 else 2) && (tot == 0 && off % BSIZE != 0 ==> more == {})
               && (bn >= NDIRECT ==> ind' != 0) && (ind != 0 ==> ind' == ind)
               && addr == Ref(sb, m', Slot(i, DataSlot(bn))) != 0 && addr in logged'
               && OnlyMapped(sb, m, m', i, bn)
               && FreeBits(m'.bitmap, sb.size) + BlockNeed(sb, m, i, bn) == FreeBits(m.bitmap, sb.size)
      requires forall s :: IsSlot(m, s) && Ref(sb, m, s) != 0 ==> Ref(sb, m', s) == Ref(sb, m, s)
      ensures Tally(g, m', i, off, tot + Min(n - tot, BSIZE - (off + tot) % BSIZE), n, base, logged',
                    touched + {addr}, maps + more, t + 1)
    {
      hide Need, MappedTo, BlockNeed, AllLogged, FreeBits, BitmapBlocks, OnlyMapped, Counted, Ref, Touched;
      var bn, ind0, ind := off / BSIZE, g.inodes[i].addrs[NDIRECT], m.inodes[i].addrs[NDIRECT];
      NextTouched(base, logged, touched, maps, t, off, tot, n, ind0, ind);
      NeedMore(sb, g, m, i, bn, t);
      MappedMore(sb, g, m, m', i, bn, t);
      BothBitmapBlocks(maps, more);
      LoggedMore(sb, m, m', i, bn, t, logged, logged', addr);
      CountStep(base, logged, logged', touched, maps, addr, more, t, off, tot, n, ind0, ind,
                m'.inodes[i].addrs[NDIRECT]);
    }

    /** The copying loop of writei.  It stops exactly when there are not enough free blocks.
        `touched` collects the data blocks written and `maps` the bitmap blocks changed on the way;
        `t` counts the pieces. */
    method WriteBlocks(i: nat, off: nat, src: seq<byte>)
      returns (ok: bool, ghost touched: set<int>, ghost maps: set<int>, ghost t: nat)
      requires Consistent(sb, Img(), own) && i < |inodes| && NoHoles(sb, Img(), i)
      requires off <= inodes[i].size && off + |src| <= MAXFILE * BSIZE
      modifies this`bitmap, this`blocks, this`inodes, this`own, this`logged
      ensures Consistent(sb, Img(), own)
      ensures ok ==> |inodes| == old(|inodes|) && Wrote(sb, old(Img()), Img(), i, off, src)
      ensures !ok ==> Full()
      ensures off + |src| <= old(inodes[i].size) ==> ok && inodes == old(inodes)
      ensures ok ==> Tally(old(Img()), Img(), i, off, |src|, |src|, old(logged), logged, touched, maps, t)
      ensures ok <==> old(ByteNeed(sb, Img(), i, off, |src|)) <= old(Free())
      ensures old(logged) <= logged && Covered(sb, old(OnDisk()), OnDisk(), logged)
    {
      hide FileBlock, ByteAt, Owned, Word, Bit, BitmapBlocks, Ref, Wrote, Full, Covered, DataSlot, Touched, NoHoles,
           IsSlot, Need, OnlyMapped, BlockNeed, Tally;
      touched, maps, t := {}, {}, 0;
      ghost var g := Img();
      var tot := 0;
      WroteNothing(sb, g, i, off);
      TallyNothing(g, i, off, |src|, logged);
      CoveredNothing(sb, OnDisk(), logged);
      TouchedBound(off, |src|);
      assert src[..0] == [];
      while tot < |src|
        invariant 0 <= tot <= |src|
        invariant Consistent(sb, Img(), own) && |inodes| == |g.inodes| && Wrote(sb, g, Img(), i, off, src[..tot])
        invariant off + |src| <= g.inodes[i].size ==> inodes == g.inodes
        invariant Tally(g, Img(), i, off, tot, |src|, old(logged), logged, touched, maps, t)
        invariant old(logged) <= logged && Covered(sb, old(OnDisk()), OnDisk(), logged)
      {
        ghost var before, e, m := logged, OnDisk(), Img();
        PieceFits(off + tot, |src| - tot);
        var len := Min(|src| - tot, BSIZE - (off + tot) % BSIZE);
        TallyNeed(g, m, i, off, tot, |src|, old(logged), before, touched, maps, t);
        var done;
        ghost var addr, more;
        done, addr, more := WriteNext(g, i, off, src, tot, len);
        CoveredMore(sb, old(OnDisk()), e, OnDisk(), before, logged);
        if !done { return false, touched, maps, t; }
        TallyMore(g, m, Img(), i, off, tot, |src|, old(logged), before, logged, touched, maps, t, addr, more);
        touched, maps, t := touched + {addr}, maps + more, t + 1;
        tot := tot + len;
      }
      TallyTaken(g, Img(), i, off, |src|, old(logged), logged, touched, maps, t);
      assert src[..tot] == src;
      ok := true;
    }

    /** The blocks missing at the start are gone from the free ones at the end. */
    lemma TallyTaken(g: Image, m: Image, i: nat, off: nat, n: nat, base: set<int>, logged: set<int>,
                     touched: set<int>, maps: set<int>, t: nat)
      requires Shape(sb, g) && Shape(sb, m) && i < |g.inodes| == |m.inodes| && off + n <= MAXFILE * BSIZE
      requires Tally(g, m, i, off, n, n, base, logged, touched, maps, t)
      ensures t == Touched(off, n) && off / BSIZE + t <= MAXFILE && AllLogged(sb, m, i, off / BSIZE, t, logged)
      ensures FreeBits(m.bitmap, sb.size) + Need(sb, g, i, off / BSIZE, t) == FreeBits(g.bitmap, sb.size)
    {
    }

    lemma TallySupplied(g: Image, m: Image, i: nat, off: nat, n: nat, base: set<int>, logged: set<int>,
                        touched: set<int>, maps: set<int>, t: nat)
      requires Shape(sb, g) && Shape(sb, m) && i < |g.inodes| == |m.inodes| && off + n <= MAXFILE * BSIZE
      requires Tally(g, m, i, off, n, n, base, logged, touched, maps, t)
      ensures Supplied(sb, g, m, i, off, n)
    {
      hide Need, MappedTo, FreeBits, BitmapBlocks, Counted;
      TouchedBound(off, n);
      if n > 0 {
        assert Ref(sb, m, Slot(i, DataSlot((off + n - 1) / BSIZE))) != 0;
      }
    }

    /** Beside the data blocks: one bitmap block if there is no other, the indirect block, the inode. */
    lemma AddedBound(g: Image, m: Image, i: nat, off: nat, n: nat, base: set<int>, logged: set<int>,
                     touched: set<int>, maps: set<int>, t: nat, added: set<int>)
      requires Shape(sb, g) && Shape(sb, m) && i < |g.inodes| == |m.inodes| && off + n <= MAXFILE * BSIZE
      requires Tally(g, m, i, off, n, n, base, logged, touched, maps, t)
      requires added <= logged - base + {IBlock(sb, i)}
      ensures n <= CHUNK ==> |added| <= LOGSIZE
      ensures sb.size <= BPB ==> |added| <= Touched(off, n) + 3
    {
      hide Need, MappedTo, AllLogged, FreeBits, Ref;
      var ind := m.inodes[i].addrs[NDIRECT];
      var all := touched + maps + {ind} + {IBlock(sb, i)};
      SubsetCard(added, all);
      assert |all| <= |touched| + |maps| + 2;
      if sb.size <= BPB {
        assert maps <= {sb.bmapstart} by {
          forall m | m in maps ensures m == sb.bmapstart {
            var b :| 0 <= b < sb.size && m == BBlock(sb, b);
            assert b / BPB == 0;
          }
        }
        SubsetCard(maps, {sb.bmapstart});
      }
    }

    /** Give an inode a new size and copy it to disk. */
    method SetSize(i: nat, size: nat)
      requires i < |inodes| == |dinodes|
      modifies this`inodes, this`dinodes, this`logged
      ensures inodes == old(inodes)[i := old(inodes[i]).(size := size)] && dinodes == old(dinodes)[i := inodes[i]]
      ensures logged == old(logged) + {IBlock(sb, i)} && Covered(sb, old(OnDisk()), OnDisk(), logged)
    {
      inodes := inodes[i := inodes[i].(size := size)];
      Iupdate(i);
    }

    /** Write bytes at `off`, which may not lie past the end: the file becomes the old one with the
        bytes spliced in, every other file is untouched, the inode reaches the disk, and a chunk of
        filewrite's size fits in the log. */
    method Writei(i: nat, off: nat, src: seq<byte>) returns (r: Ret)
      requires Valid() && i < |inodes| && off < UINT && |src| < UINT
      modifies this
      ensures r == Device <==> old(inodes[i].typ) == T_DEV
      ensures old(inodes[i].typ) != T_DEV ==>
                (r == Error <==> off > old(inodes[i].size) || off + |src| > MAXFILE * BSIZE)
      ensures r == Device || r == Error ==> unchanged(this)
      ensures r == Panic ==> Shape(sb, Img()) && Full() && off + |src| > old(inodes[i].size)
      ensures old(inodes[i].typ) != T_DEV && off <= old(inodes[i].size) && off + |src| <= MAXFILE * BSIZE ==>
                (r == Panic <==> old(Free()) < old(ByteNeed(sb, Img(), i, off, |src|)))
      ensures r.Done? ==> r.n == |src| && Valid() && |inodes| == old(|inodes|)
      ensures r.Done? ==> inodes[i].typ == old(inodes[i].typ) && inodes[i].nlink == old(inodes[i].nlink)
      ensures r.Done? ==> forall j :: 0 <= j < |inodes| ==>
                && (j != i ==> inodes[j] == old(inodes[j]))
                && NoHoles(sb, Img(), j) && NoHoles(sb, old(Img()), j)
                && Content(sb, Img(), j) == (
                     if j == i then Splice(Content(sb, old(Img()), i), off, src) else Content(sb, old(Img()), j))
      ensures r.Done? && old(inodes == dinodes) ==> inodes == dinodes
      ensures r.Done? && |src| <= CHUNK ==> |logged - old(logged)| <= LOGSIZE
      ensures r.Done? && sb.size <= BPB ==> |logged - old(logged)| <= Touched(off, |src|) + 3
      ensures r.Done? ==>
                && off / BSIZE + Touched(off, |src|) <= MAXFILE
                && AllLogged(sb, Img(), i, off / BSIZE, Touched(off, |src|), logged)
      ensures r.Done? ==> Supplied(sb, old(Img()), Img(), i, off, |src|)
      ensures old(logged) <= logged && Covered(sb, old(OnDisk()), OnDisk(), logged)
    {
      hide FileBlock, ByteAt, Owned, Word, Bit, BitmapBlocks, Ref, Wrote, Full, Counted, Covered, AllLogged,
           DataSlot, Splice, Content, Need, FreeBits, Tally, Supplied, ByteNeed, Touched;
      CoveredNothing(sb, OnDisk(), logged);
      if inodes[i].typ == T_DEV { return Device; }
      assert NoHoles(sb, Img(), i);
      if off > inodes[i].size || (off + |src|) % UINT < off { return Error; }
      if off + |src| > MAXFILE * BSIZE { return Error; }
      ghost var g := Img();
      var ok;
      ghost var touched, maps, t;
      ok, touched, maps, t := WriteBlocks(i, off, src);
      if !ok { return Panic; }
      ghost var mid, d, m := logged, OnDisk(), Img();
      TallyTaken(g, m, i, off, |src|, old(logged), mid, touched, maps, t);
      TallySupplied(g, m, i, off, |src|, old(logged), mid, touched, maps, t);
      WroteInodes(sb, g, Img(), i, off, src);
      WroteContent(sb, g, Img(), own, i, off, src);
      if |src| > 0 && off + |src| > inodes[i].size {
        SetSize(i, off + |src|);
        CoveredMore(sb, old(OnDisk()), d, OnDisk(), mid, logged);
        SuppliedSized(sb, g, m, i, off, |src|, off + |src|);
        LoggedSized(sb, m, i, off + |src|, off / BSIZE, t, mid, logged);
      } else {
        assert WithSize(Img(), i, inodes[i].size) == Img();
      }
      AddedBound(g, m, i, off, |src|, old(logged), mid, touched, maps, t, logged - old(logged));
      r := Done(|src|);
    }

    // ----- Truncation -----

    /** What remains after blocks of inode `i` are freed: `own` has lost only blocks of `i`. */
    ghost predicate Losing(own0: map<int, Slot>, i: nat)
      reads this
    {
      && (forall b :: b in own ==> b in own0 && own[b] == own0[b])
      && (forall b :: b in own0 && own0[b].i != i ==> b in own)
    }

    method TruncDirect(i: nat) returns (ok: bool)
      requires Consistent(sb, Img(), own) && i < |inodes|
      modifies this`bitmap, this`inodes, this`own, this`logged
      ensures ok && Consistent(sb, Img(), own) && Losing(old(own), i) && |inodes| == old(|inodes|)
      ensures |inodes[i].addrs| == NDIRECT + 1
      ensures inodes == old(inodes)[i := old(inodes[i]).(addrs := inodes[i].addrs)]
      ensures forall k :: 0 <= k < NDIRECT ==> inodes[i].addrs[k] == 0
      ensures inodes[i].addrs[NDIRECT] == old(inodes[i].addrs[NDIRECT])
      ensures old(logged) <= logged && Covered(sb, old(OnDisk()), OnDisk(), logged)
      ensures sb.size <= BPB ==> logged <= old(logged) + {sb.bmapstart}
    {
      hide Word, Bit, ClearBit, Ref, Covered;
      CoveredNothing(sb, OnDisk(), logged);
      var k := 0;
      while k < NDIRECT
        invariant 0 <= k <= NDIRECT
        invariant Consistent(sb, Img(), own) && Losing(old(own), i) && |inodes| == old(|inodes|)
        invariant inodes == old(inodes)[i := old(inodes[i]).(addrs := inodes[i].addrs)]
        invariant forall q :: 0 <= q < k ==> inodes[i].addrs[q] == 0
        invariant inodes[i].addrs[NDIRECT] == old(inodes[i].addrs[NDIRECT])
        invariant old(logged) <= logged && Covered(sb, old(OnDisk()), OnDisk(), logged)
        invariant sb.size <= BPB ==> logged <= old(logged) + {sb.bmapstart}
      {
        var a := inodes[i].addrs[k];
        if a != 0 {
          FreeAddr(sb, Img(), own, i, k);
          ghost var g, e, was := Img(), OnDisk(), logged;
          ok := Bfree(a);
          CoveredMore(sb, old(OnDisk()), e, OnDisk(), was, logged);
          inodes := inodes[i := inodes[i].(addrs := inodes[i].addrs[k := 0])];
          own := own - {a};
          assert Img() == WithAddr(g.(bitmap := ClearBit(g.bitmap, a)), i, k, 0);
        }
        k := k + 1;
      }
      ok := true;
    }

    /** One turn of the loop over the indirect block. */
    method TruncEntry(i: nat, j: nat) returns (ok: bool)
      requires i < |inodes| && j < NINDIRECT && Owned(sb, Img(), own, Entries(i, j), {})
      requires inodes[i].addrs[NDIRECT] != 0
      modifies this`bitmap, this`own, this`logged
      ensures ok && Owned(sb, Img(), own, Entries(i, j + 1), {}) && Losing(old(own), i)
      ensures old(logged) <= logged && Covered(sb, old(OnDisk()), OnDisk(), logged)
      ensures sb.size <= BPB ==> logged <= old(logged) + {sb.bmapstart}
    {
      hide Bit, ClearBit, Covered;
      ghost var g, s := Img(), Slot(i, NDIRECT + 1 + j);
      MoreEntries(i, j);
      FreeEntry(sb, g, own, Entries(i, j), s);
      CoveredNothing(sb, OnDisk(), logged);
      var r := Word(blocks[inodes[i].addrs[NDIRECT]], j);
      assert r == Ref(sb, g, s);
      ok := true;
      if r != 0 {
        ok := Bfree(r);
        own := own - {r};
        assert Img() == g.(bitmap := ClearBit(g.bitmap, r));
      }
    }

    method TruncIndirect(i: nat) returns (ok: bool)
      requires Consistent(sb, Img(), own) && i < |inodes| && inodes[i].addrs[NDIRECT] != 0
      modifies this`bitmap, this`inodes, this`own, this`logged
      ensures ok && Consistent(sb, Img(), own) && Losing(old(own), i)
      ensures inodes == old(inodes)[i := old(inodes[i]).(addrs := old(inodes[i]).addrs[NDIRECT := 0])]
      ensures old(logged) <= logged && Covered(sb, old(OnDisk()), OnDisk(), logged)
      ensures sb.size <= BPB ==> logged <= old(logged) + {sb.bmapstart}
    {
      hide Bit, ClearBit, Covered;
      CoveredNothing(sb, OnDisk(), logged);
      var a := inodes[i].addrs[NDIRECT];
      var j := 0;
      assert Entries(i, 0) == {};
      while j < NINDIRECT
        invariant 0 <= j <= NINDIRECT
        invariant Owned(sb, Img(), own, Entries(i, j), {}) && Losing(old(own), i)
        invariant inodes == old(inodes) && blocks == old(blocks)
        invariant old(logged) <= logged && Covered(sb, old(OnDisk()), OnDisk(), logged)
        invariant sb.size <= BPB ==> logged <= old(logged) + {sb.bmapstart}
      {
        ghost var e, was := OnDisk(), logged;
        ok := TruncEntry(i, j);
        CoveredMore(sb, old(OnDisk()), e, OnDisk(), was, logged);
        j := j + 1;
      }
      FreeIndirect(sb, Img(), own, i);
      ghost var g, e, was := Img(), OnDisk(), logged;
      ok := Bfree(a);
      CoveredMore(sb, old(OnDisk()), e, OnDisk(), was, logged);
      inodes := inodes[i := inodes[i].(addrs := inodes[i].addrs[NDIRECT := 0])];
      own := own - {a};
      assert Img() == WithAddr(g.(bitmap := ClearBit(g.bitmap, a)), i, NDIRECT, 0);
    }

    /** Discard the content of an inode.  The panic on freeing a free block is not reached; exactly
        the blocks of the inode are freed; nothing else is touched; the inode reaches the disk; and if there
        is one bitmap block, only that and the inode's are logged. */
    method Itrunc(i: nat) returns (ok: bool)
      requires Valid() && i < |inodes|
      modifies this`bitmap, this`inodes, this`own, this`logged, this`dinodes
      ensures ok && Valid()
      ensures inodes == old(inodes)[i := old(inodes[i]).(size := 0, addrs := seq(NDIRECT + 1, k => 0))]
      ensures dinodes == old(dinodes)[i := inodes[i]]
      ensures forall b :: b in own <==> old(b in own && own[b].i != i)
      ensures forall b :: IsData(sb, b) ==>
                (Bit(bitmap, b) <==> old(Bit(bitmap, b)) && !old(b in own && own[b].i == i))
      ensures forall j :: 0 <= j < |inodes| && j != i ==>
                && NoHoles(sb, Img(), j) && NoHoles(sb, old(Img()), j)
                && Content(sb, Img(), j) == Content(sb, old(Img()), j)
      ensures old(logged) <= logged && Covered(sb, old(OnDisk()), OnDisk(), logged)
      ensures sb.size <= BPB ==> logged <= old(logged) + {sb.bmapstart, IBlock(sb, i)}
    {
      hide Word, Covered, ByteAt, FileBlock, Content;
      ok := TruncDirect(i);
      ghost var e, was := OnDisk(), logged;
      if inodes[i].addrs[NDIRECT] != 0 {
        ok := TruncIndirect(i);
        assert Losing(old(own), i);
        CoveredMore(sb, old(OnDisk()), e, OnDisk(), was, logged);
      }
      e, was := OnDisk(), logged;
      assert inodes[i].addrs == seq(NDIRECT + 1, k => 0);
      NothingOwned(sb, Img(), own, i);
      WithSizeOwned(sb, Img(), own, i, 0);
      SetSize(i, 0);
      CoveredMore(sb, old(OnDisk()), e, OnDisk(), was, logged);
      TruncOthers(sb, old(Img()), Img(), old(own), own, i);
    }
  }
}
