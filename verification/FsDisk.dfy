/** The file system as it lies on the disk that the logging layer writes: every home block is a
    block of inodes, a block of the free map, or a plain block. */
module FsDisk {
  import opened Common
  import opened FsImage
  import opened Fs
  import opened Dinode
  import Log = LogDisk

  // ----- Blocks -----

  /** The words in which the logging layer counts a block. */
  function Words(x: Block): Log.Block {
    seq(Log.WORDS, j requires 0 <= j < Log.WORDS => Word(x, j))
  }

  predicate AllTyped(ds: seq<Inode>) {
    forall i :: 0 <= i < |ds| ==> Typed(ds[i])
  }

  /** The block of inodes `k * IPB ..`; a place past the last inode is zero. */
  function InodeBlock(ds: seq<Inode>, k: nat): Block
    requires AllTyped(ds)
  {
    seq(BSIZE, q requires 0 <= q < BSIZE => InodeByte(ds, k * IPB + q / DINODE, q % DINODE))
  }

  function InodeByte(ds: seq<Inode>, i: nat, q: nat): byte
    requires q < DINODE && AllTyped(ds)
  {
    if i < |ds| then Bytes(ds[i])[q] else 0
  }

  /** Block `k` of the free map. */
  function MapBlock(bits: seq<bv8>, k: nat): Block {
    seq(BSIZE, q requires 0 <= q < BSIZE => MapByte(bits, k, q))
  }

  function MapByte(bits: seq<bv8>, k: nat, q: nat): byte {
    if k * BSIZE + q < |bits| then AsByte(bits[k * BSIZE + q]) else 0
  }

  function AsByte(x: bv8): byte { x as int as byte }

  // ----- Regions -----

  predicate InInodes(sb: Super, d: Stored, b: int) {
    sb.inodestart <= b && (b - sb.inodestart) * IPB < |d.dinodes|
  }

  predicate InMap(sb: Super, d: Stored, b: int) {
    sb.bmapstart <= b && (b - sb.bmapstart) * BSIZE < |d.bitmap|
  }

  /** What disk block `b` holds. */
  ghost function DiskBlock(sb: Super, d: Stored, b: nat): Log.Block
    requires AllTyped(d.dinodes)
  {
    if InInodes(sb, d, b) then Words(InodeBlock(d.dinodes, b - sb.inodestart))
    else if InMap(sb, d, b) then Words(MapBlock(d.bitmap, b - sb.bmapstart))
    else if b < |d.blocks| then Words(d.blocks[b])
    else Words(ZeroBlock())
  }

  /** The home blocks of a disk that stores `d`. */
  ghost function Encoded(c: Log.Layout, sb: Super, d: Stored): map<int, Log.Block>
    requires AllTyped(d.dinodes)
  {
    map b | 0 <= b < c.nblocks && Log.IsHome(c, b) :: DiskBlock(sb, d, b)
  }

  // ----- Only logged blocks change -----

  lemma SameInodeBlock(sb: Super, d: Stored, d': Stored, logged: set<int>, k: nat)
    requires AllTyped(d.dinodes) && AllTyped(d'.dinodes) && Covered(sb, d, d', logged) && k + sb.inodestart !in logged
    ensures InodeBlock(d'.dinodes, k) == InodeBlock(d.dinodes, k)
  {
    hide Bytes;
    forall q | 0 <= q < BSIZE
      ensures InodeByte(d'.dinodes, k * IPB + q / DINODE, q % DINODE) ==
              InodeByte(d.dinodes, k * IPB + q / DINODE, q % DINODE)
    {
      var i := k * IPB + q / DINODE;
      assert i / IPB == k;
    }
  }

  lemma SameMapBlock(sb: Super, d: Stored, d': Stored, logged: set<int>, k: nat)
    requires Covered(sb, d, d', logged) && k + sb.bmapstart !in logged
    ensures MapBlock(d'.bitmap, k) == MapBlock(d.bitmap, k)
  {
    forall q | 0 <= q < BSIZE ensures MapByte(d'.bitmap, k, q) == MapByte(d.bitmap, k, q) {
      assert (k * BSIZE + q) / BSIZE == k;
    }
  }

  /** What an operation does not log, it does not change on the disk. */
  lemma OnlyLoggedChange(sb: Super, d: Stored, d': Stored, logged: set<int>, b: nat)
    requires AllTyped(d.dinodes) && AllTyped(d'.dinodes) && Covered(sb, d, d', logged) && b !in logged
    ensures DiskBlock(sb, d', b) == DiskBlock(sb, d, b)
  {
    hide InodeBlock, MapBlock, Words;
    if InInodes(sb, d, b) {
      SameInodeBlock(sb, d, d', logged, b - sb.inodestart);
    } else if InMap(sb, d, b) {
      SameMapBlock(sb, d, d', logged, b - sb.bmapstart);
    }
  }

  // ----- The disk determines what is stored -----

  /** The disk has room for every block of inodes and of the free map, outside the log and apart
      from each other and from the data. */
  ghost predicate Separate(c: Log.Layout, sb: Super, d: Stored) {
    && c.nblocks == sb.size == |d.blocks|
    && (forall i :: 0 <= i < |d.dinodes| ==>
          var b := IBlock(sb, i); Log.IsHome(c, b) && !InMap(sb, d, b) && b < sb.datastart)
    && (forall y :: 0 <= y < |d.bitmap| ==>
          var b := y / BSIZE + sb.bmapstart; Log.IsHome(c, b) && !InInodes(sb, d, b) && b < sb.datastart)
    && (forall b :: IsData(sb, b) ==> Log.IsHome(c, b) && !InInodes(sb, d, b) && !InMap(sb, d, b))
  }

  lemma WordsDiffer(x: Block, y: Block, q: nat)
    requires q < BSIZE && Words(x) == Words(y)
    ensures x[q] == y[q]
  {
    var j := q / 4;
    assert Words(x)[j] == Word(x, j) && Words(y)[j] == Word(y, j);
    SameWord(x, y, j);
    assert q == 4 * j || q == 4 * j + 1 || q == 4 * j + 2 || q == 4 * j + 3;
  }

  lemma SameWord(x: Block, y: Block, j: nat)
    requires j < NINDIRECT && Word(x, j) == Word(y, j)
    ensures x[4 * j] == y[4 * j] && x[4 * j + 1] == y[4 * j + 1]
    ensures x[4 * j + 2] == y[4 * j + 2] && x[4 * j + 3] == y[4 * j + 3]
  {
    Digits(x[4 * j], x[4 * j + 1], x[4 * j + 2], x[4 * j + 3], y[4 * j], y[4 * j + 1], y[4 * j + 2], y[4 * j + 3]);
  }

  lemma Digits(a: byte, b: byte, c: byte, d: byte, a': byte, b': byte, c': byte, d': byte)
    requires a as int + 256 * b as int + 65536 * c as int + 16777216 * d as int ==
             a' as int + 256 * b' as int + 65536 * c' as int + 16777216 * d' as int
    ensures a == a' && b == b' && c == c' && d == d'
  {
  }

  /** Words of a block determine it. */
  lemma WordsInjective(x: Block, y: Block)
    requires Words(x) == Words(y)
    ensures x == y
  {
    forall q | 0 <= q < BSIZE ensures x[q] == y[q] { WordsDiffer(x, y, q); }
  }

  /** ilock finds inode `i` in its block. */
  lemma LoadsInode(ds: seq<Inode>, i: nat)
    requires i < |ds| && AllTyped(ds)
    ensures Loads(InodeBlock(ds, i / IPB), i) == ds[i]
  {
    hide Bytes, InodeAt;
    var x, o := InodeBlock(ds, i / IPB), Offset(i);
    forall q | 0 <= q < DINODE ensures x[o + q] == Bytes(ds[i])[q] {
      assert (o + q) / DINODE == i % IPB && (o + q) % DINODE == q;
      assert i / IPB * IPB + i % IPB == i;
    }
    assert x[o..o + DINODE] == Bytes(ds[i]);
    BytesBack(ds[i], x, o);
  }

  /** iupdate of inode `i`, on its block, gives the block of the inodes with that one replaced. */
  lemma StoresInode(ds: seq<Inode>, i: nat, ino: Inode)
    requires i < |ds| && Typed(ino) && AllTyped(ds)
    ensures AllTyped(ds[i := ino])
    ensures InodeBlock(ds[i := ino], i / IPB) == Stores(InodeBlock(ds, i / IPB), i, ino)
  {
    hide Bytes;
    var x, y := InodeBlock(ds[i := ino], i / IPB), Stores(InodeBlock(ds, i / IPB), i, ino);
    forall q | 0 <= q < BSIZE ensures x[q] == y[q] {
      var j := i / IPB * IPB + q / DINODE;
      assert i / IPB * IPB + i % IPB == i;
      assert j == i <==> Offset(i) <= q < Offset(i) + DINODE;
    }
  }

  lemma ByteBack(x: bv8, y: bv8)
    requires AsByte(x) == AsByte(y)
    ensures x == y
  {
    assert x as int as bv8 == x && y as int as bv8 == y;
  }

  /** Two images of the same shape on equal disks have the same inodes, free map and data blocks. */
  lemma EncodedInjective(c: Log.Layout, sb: Super, d: Stored, d': Stored)
    requires AllTyped(d.dinodes) && AllTyped(d'.dinodes) && Separate(c, sb, d) && Separate(c, sb, d')
    requires |d'.dinodes| == |d.dinodes| && |d'.bitmap| == |d.bitmap|
    requires Encoded(c, sb, d) == Encoded(c, sb, d')
    ensures d'.dinodes == d.dinodes && d'.bitmap == d.bitmap
    ensures forall b :: IsData(sb, b) ==> d'.blocks[b] == d.blocks[b]
  {
    hide InodeBlock, MapBlock, Words;
    forall i | 0 <= i < |d.dinodes| ensures d'.dinodes[i] == d.dinodes[i] {
      SameStoredInode(c, sb, d, d', i);
    }
    forall y | 0 <= y < |d.bitmap| ensures d'.bitmap[y] == d.bitmap[y] {
      SameStoredByte(c, sb, d, d', y);
    }
    forall b | IsData(sb, b) ensures d'.blocks[b] == d.blocks[b] {
      assert Encoded(c, sb, d)[b] == Encoded(c, sb, d')[b];
      WordsInjective(d.blocks[b], d'.blocks[b]);
    }
  }

  lemma SameStoredInode(c: Log.Layout, sb: Super, d: Stored, d': Stored, i: nat)
    requires AllTyped(d.dinodes) && AllTyped(d'.dinodes) && Separate(c, sb, d)
    requires i < |d'.dinodes| == |d.dinodes| && Encoded(c, sb, d) == Encoded(c, sb, d')
    ensures d'.dinodes[i] == d.dinodes[i]
  {
    hide InodeBlock, MapBlock, Words;
    var b := IBlock(sb, i);
    assert Encoded(c, sb, d)[b] == Encoded(c, sb, d')[b];
    assert (b - sb.inodestart) * IPB <= i;
    WordsInjective(InodeBlock(d.dinodes, i / IPB), InodeBlock(d'.dinodes, i / IPB));
    LoadsInode(d.dinodes, i);
    LoadsInode(d'.dinodes, i);
  }

  lemma SameStoredByte(c: Log.Layout, sb: Super, d: Stored, d': Stored, y: nat)
    requires AllTyped(d.dinodes) && AllTyped(d'.dinodes) && Separate(c, sb, d)
    requires |d'.dinodes| == |d.dinodes| && y < |d'.bitmap| == |d.bitmap| && Encoded(c, sb, d) == Encoded(c, sb, d')
    ensures d'.bitmap[y] == d.bitmap[y]
  {
    hide InodeBlock, Words, AsByte;
    var k := y / BSIZE;
    var b := k + sb.bmapstart;
    assert Encoded(c, sb, d)[b] == Encoded(c, sb, d')[b];
    assert k * BSIZE <= y;
    WordsInjective(MapBlock(d.bitmap, k), MapBlock(d'.bitmap, k));
    assert MapBlock(d.bitmap, k)[y % BSIZE] == AsByte(d.bitmap[y]);
    assert MapBlock(d'.bitmap, k)[y % BSIZE] == AsByte(d'.bitmap[y]);
    ByteBack(d.bitmap[y], d'.bitmap[y]);
  }
}
