/** The file system image: bitmap, data blocks and inodes, which block belongs to which slot
    of which inode, and the flat file that an inode stands for. */
module FsImage {
  import opened Common

  const BSIZE: nat := 512
  const NDIRECT: nat := 12
  const NINDIRECT: nat := 128
  const MAXFILE: nat := NDIRECT + NINDIRECT
  const BPB: nat := 8 * BSIZE
  const IPB: nat := 8

  type Block = b: seq<byte> | |b| == BSIZE witness seq(BSIZE, i => 0)

  function ZeroBlock(): Block { seq(BSIZE, i => 0) }

  // ----- Words in an indirect block -----

  function Word(b: Block, j: nat): int
    requires j < NINDIRECT
  {
    b[4 * j] as int + 256 * b[4 * j + 1] as int + 65536 * b[4 * j + 2] as int + 16777216 * b[4 * j + 3] as int
  }

  function SetWord(b: Block, j: nat, v: int): Block
    requires j < NINDIRECT && 0 <= v < 0x1_0000_0000
  {
    b[4 * j := (v % 256) as byte]
     [4 * j + 1 := (v / 256 % 256) as byte]
     [4 * j + 2 := (v / 65536 % 256) as byte]
     [4 * j + 3 := (v / 16777216 % 256) as byte]
  }

  lemma FourBytes(v: int)
    requires 0 <= v < 0x1_0000_0000
    ensures v == v % 256 + 256 * (v / 256 % 256) + 65536 * (v / 65536 % 256) + 16777216 * (v / 16777216 % 256)
  {
    var a := v / 256;
    var b := a / 256;
    assert v / 65536 == b && v / 16777216 == b / 256;
    assert a == 256 * b + a % 256 && b == 256 * (b / 256) + b % 256;
  }

  lemma WordAfterSet(b: Block, j: nat, v: int, k: nat)
    requires j < NINDIRECT && k < NINDIRECT && 0 <= v < 0x1_0000_0000
    ensures Word(SetWord(b, j, v), k) == if k == j then v else Word(b, k)
  {
    FourBytes(v);
    var c := SetWord(b, j, v);
    assert k != j ==>
             && c[4 * k] == b[4 * k] && c[4 * k + 1] == b[4 * k + 1]
             && c[4 * k + 2] == b[4 * k + 2] && c[4 * k + 3] == b[4 * k + 3];
  }

  // ----- Bits of the free map -----

  function Mask(k: nat): bv8
    requires k < 8
  {
    match k case 0 => 1 case 1 => 2 case 2 => 4 case 3 => 8
            case 4 => 16 case 5 => 32 case 6 => 64 case 7 => 128
  }

  predicate HasBit(x: bv8, k: nat)
    requires k < 8
  {
    x & Mask(k) != 0
  }

  function WithBit(x: bv8, k: nat): bv8
    requires k < 8
  {
    x | Mask(k)
  }

  function WithoutBit(x: bv8, k: nat): bv8
    requires k < 8
  {
    x & !Mask(k)
  }

  predicate Bit(m: seq<bv8>, b: nat)
    requires b < 8 * |m|
  {
    HasBit(m[b / 8], b % 8)
  }

  function SetBit(m: seq<bv8>, b: nat): seq<bv8>
    requires b < 8 * |m|
  {
    m[b / 8 := WithBit(m[b / 8], b % 8)]
  }

  function ClearBit(m: seq<bv8>, b: nat): seq<bv8>
    requires b < 8 * |m|
  {
    m[b / 8 := WithoutBit(m[b / 8], b % 8)]
  }

  lemma OrThenAnd(x: bv8, p: bv8, q: bv8)
    ensures p & q == 0 ==> (x | p) & q == x & q
    ensures p == q && q != 0 ==> (x | p) & q != 0
  {
  }

  lemma AndNotThenAnd(x: bv8, p: bv8, q: bv8)
    ensures p & q == 0 ==> (x & !p) & q == x & q
    ensures p == q ==> (x & !p) & q == 0
  {
  }

  lemma MaskOr(x: bv8, j: nat, k: nat)
    requires j < 8 && k < 8
    ensures HasBit(WithBit(x, j), k) <==> j == k || HasBit(x, k)
  {
    hide Mask;
    MaskDistinct(j, k);
    OrThenAnd(x, Mask(j), Mask(k));
  }

  lemma MaskAndNot(x: bv8, j: nat, k: nat)
    requires j < 8 && k < 8
    ensures HasBit(WithoutBit(x, j), k) <==> j != k && HasBit(x, k)
  {
    hide Mask;
    MaskDistinct(j, k);
    AndNotThenAnd(x, Mask(j), Mask(k));
  }

  lemma MaskDistinct(j: nat, k: nat)
    requires j < 8 && k < 8
    ensures Mask(j) & Mask(k) == if j == k then Mask(k) else 0
    ensures Mask(k) != 0
  {
  }

  lemma BitAfterSet(m: seq<bv8>, b: nat, x: nat)
    requires b < 8 * |m| && x < 8 * |m|
    ensures Bit(SetBit(m, b), x) <==> x == b || Bit(m, x)
  {
    hide HasBit, WithBit;
    MaskOr(m[b / 8], b % 8, x % 8);
  }

  lemma BitAfterClear(m: seq<bv8>, b: nat, x: nat)
    requires b < 8 * |m| && x < 8 * |m|
    ensures Bit(ClearBit(m, b), x) <==> x != b && Bit(m, x)
  {
    hide HasBit, WithoutBit;
    MaskAndNot(m[b / 8], b % 8, x % 8);
  }

  // ----- The image -----

  /** The superblock's fields, with the first data block. */
  datatype Super = Super(size: nat, ninodes: nat, inodestart: nat, bmapstart: nat, datastart: nat)

  datatype Inode = Inode(typ: int, major: int, minor: int, nlink: int, size: nat, addrs: seq<int>)

  datatype Image = Image(bitmap: seq<bv8>, blocks: seq<Block>, inodes: seq<Inode>)

  /** A place that can hold a block number: 0..11 the direct addresses of inode `i`, 12 its
      indirect address, 13.. the words of its indirect block. */
  datatype Slot = Slot(i: nat, k: nat)

  const NSLOTS: nat := NDIRECT + 1 + NINDIRECT

  predicate IsData(sb: Super, b: int) {
    sb.datastart <= b < sb.size
  }

  ghost predicate Shape(sb: Super, g: Image) {
    && 1 <= sb.datastart && sb.size < 0x1_0000_0000
    && |g.blocks| == sb.size && sb.size <= 8 * |g.bitmap|
    && forall i :: 0 <= i < |g.inodes| ==> InodeOk(sb, g.inodes[i])
  }

  ghost predicate InodeOk(sb: Super, ino: Inode) {
    && |ino.addrs| == NDIRECT + 1
    && (ino.addrs[NDIRECT] == 0 || IsData(sb, ino.addrs[NDIRECT]))
  }

  predicate IsSlot(g: Image, s: Slot) {
    s.i < |g.inodes| && s.k < NSLOTS
  }

  ghost function Ref(sb: Super, g: Image, s: Slot): int
    requires Shape(sb, g) && IsSlot(g, s)
  {
    if s.k <= NDIRECT then g.inodes[s.i].addrs[s.k]
    else if g.inodes[s.i].addrs[NDIRECT] == 0 then 0
    else Word(g.blocks[g.inodes[s.i].addrs[NDIRECT]], s.k - NDIRECT - 1)
  }

  /** `own` is the inverse of the references, and the bitmap is its domain.  Slots in `dead`
      are about to be cleared and own nothing any more; blocks in `loose` are allocated and
      about to be given to a slot. */
  ghost predicate Owned(sb: Super, g: Image, own: map<int, Slot>, dead: set<Slot>, loose: set<int>) {
    && Shape(sb, g)
    && (forall s :: IsSlot(g, s) && s !in dead && Ref(sb, g, s) != 0 ==>
          Ref(sb, g, s) in own && own[Ref(sb, g, s)] == s)
    && (forall b :: b in own ==> OwnedBy(sb, g, own[b], b) && own[b] !in dead && b !in loose)
    && (forall b :: 0 <= b < sb.size ==>
          (Bit(g.bitmap, b) <==> b < sb.datastart || b in own || b in loose))
  }

  ghost predicate OwnedBy(sb: Super, g: Image, s: Slot, b: int)
    requires Shape(sb, g)
  {
    IsData(sb, b) && IsSlot(g, s) && Ref(sb, g, s) == b
  }

  /** Between operations. */
  ghost predicate Consistent(sb: Super, g: Image, own: map<int, Slot>) {
    Shape(sb, g) && Owned(sb, g, own, {}, {})
  }

  /** Each block is referenced by at most one slot, and its bit is set exactly when it is. */
  lemma ConsistentMeans(sb: Super, g: Image, own: map<int, Slot>)
    requires Consistent(sb, g, own)
    ensures forall s, t :: IsSlot(g, s) && IsSlot(g, t) && s != t && Ref(sb, g, s) != 0 ==>
              Ref(sb, g, s) != Ref(sb, g, t)
    ensures forall b :: IsData(sb, b) ==>
              (Bit(g.bitmap, b) <==> exists s :: IsSlot(g, s) && Ref(sb, g, s) == b)
  {
    forall b | IsData(sb, b)
      ensures Bit(g.bitmap, b) <==> exists s :: IsSlot(g, s) && Ref(sb, g, s) == b
    {
      if b in own {
        assert OwnedBy(sb, g, own[b], b);
      }
    }
  }

  // ----- The file an inode stands for -----

  /** The slot of block `bn` of a file. */
  function DataSlot(bn: nat): nat { if bn < NDIRECT then bn else bn + 1 }

  ghost function FileBlock(sb: Super, g: Image, i: nat, bn: nat): Block
    requires Shape(sb, g) && i < |g.inodes| && bn < MAXFILE
  {
    var r := Ref(sb, g, Slot(i, DataSlot(bn)));
    if IsData(sb, r) then g.blocks[r] else ZeroBlock()
  }

  ghost predicate SameFiles(sb: Super, g: Image, g': Image)
    requires Shape(sb, g) && Shape(sb, g') && |g.inodes| == |g'.inodes|
  {
    forall i, bn :: 0 <= i < |g.inodes| && 0 <= bn < MAXFILE ==>
      FileBlock(sb, g', i, bn) == FileBlock(sb, g, i, bn)
  }

  /** Every block below the size is mapped. */
  ghost predicate NoHoles(sb: Super, g: Image, i: nat)
    requires Shape(sb, g) && i < |g.inodes|
  {
    && g.inodes[i].size <= MAXFILE * BSIZE
    && forall bn :: 0 <= bn < MAXFILE && bn * BSIZE < g.inodes[i].size ==>
         Ref(sb, g, Slot(i, DataSlot(bn))) != 0
  }

  // ----- Changing one thing -----

  /** An indirect address in use is an owned block. */
  lemma IndirectOwned(sb: Super, g: Image, own: map<int, Slot>, loose: set<int>, i: nat)
    requires Owned(sb, g, own, {}, loose) && i < |g.inodes| && g.inodes[i].addrs[NDIRECT] != 0
    ensures var a := g.inodes[i].addrs[NDIRECT]; a in own && own[a] == Slot(i, NDIRECT)
  {
    assert Ref(sb, g, Slot(i, NDIRECT)) == g.inodes[i].addrs[NDIRECT];
  }

  ghost function Allocated(g: Image, b: nat): Image
    requires b < |g.blocks| && b < 8 * |g.bitmap|
  {
    g.(bitmap := SetBit(g.bitmap, b), blocks := g.blocks[b := ZeroBlock()])
  }

  /** Marking a free block and zeroing it changes no reference and no file. */
  lemma AllocateKeeps(sb: Super, g: Image, own: map<int, Slot>, loose: set<int>, b: nat)
    requires Owned(sb, g, own, {}, loose) && b < sb.size && !Bit(g.bitmap, b)
    ensures IsData(sb, b) && b !in own && b !in loose
    ensures Owned(sb, Allocated(g, b), own, {}, loose + {b})
    ensures SameFiles(sb, g, Allocated(g, b))
    ensures forall s :: IsSlot(g, s) ==> Ref(sb, Allocated(g, b), s) == Ref(sb, g, s)
  {
    var g' := Allocated(g, b);
    forall s | IsSlot(g, s) ensures Ref(sb, g', s) == Ref(sb, g, s) {
      if g.inodes[s.i].addrs[NDIRECT] != 0 { IndirectOwned(sb, g, own, loose, s.i); }
    }
    forall x | x in own ensures OwnedBy(sb, g', own[x], x) { assert OwnedBy(sb, g, own[x], x); }
    forall x | 0 <= x < sb.size
      ensures Bit(g'.bitmap, x) <==> x < sb.datastart || x in own || x in loose + {b}
    {
      BitAfterSet(g.bitmap, b, x);
    }
    forall i, bn | 0 <= i < |g.inodes| && 0 <= bn < MAXFILE
      ensures FileBlock(sb, g', i, bn) == FileBlock(sb, g, i, bn)
    {
      assert IsSlot(g, Slot(i, DataSlot(bn)));
    }
  }

  function WithAddr(g: Image, i: nat, k: nat, b: int): Image
    requires i < |g.inodes| && k < |g.inodes[i].addrs|
  {
    g.(inodes := g.inodes[i := g.inodes[i].(addrs := g.inodes[i].addrs[k := b])])
  }

  lemma ZeroWord(j: nat)
    requires j < NINDIRECT
    ensures Word(ZeroBlock(), j) == 0
  {
  }

  lemma RefWithAddr(sb: Super, g: Image, i: nat, k: nat, b: int, s: Slot)
    requires Shape(sb, g) && i < |g.inodes| && k <= NDIRECT && IsData(sb, b)
    requires g.inodes[i].addrs[k] == 0 && g.blocks[b] == ZeroBlock() && IsSlot(g, s)
    ensures Shape(sb, WithAddr(g, i, k, b))
    ensures Ref(sb, WithAddr(g, i, k, b), s) == if s == Slot(i, k) then b else Ref(sb, g, s)
  {
    if s.i == i && k == NDIRECT && s.k > NDIRECT { ZeroWord(s.k - NDIRECT - 1); }
  }

  /** Storing a loose block in an empty address of an inode. */
  lemma LinkAddr(sb: Super, g: Image, own: map<int, Slot>, loose: set<int>, i: nat, k: nat, b: int)
    requires Owned(sb, g, own, {}, loose) && i < |g.inodes| && k <= NDIRECT
    requires b in loose && IsData(sb, b) && g.blocks[b] == ZeroBlock() && g.inodes[i].addrs[k] == 0
    ensures Owned(sb, WithAddr(g, i, k, b), own[b := Slot(i, k)], {}, loose - {b})
    ensures SameFiles(sb, g, WithAddr(g, i, k, b))
  {
    var g', own' := WithAddr(g, i, k, b), own[b := Slot(i, k)];
    forall s | IsSlot(g, s) ensures Ref(sb, g', s) == if s == Slot(i, k) then b else Ref(sb, g, s) {
      RefWithAddr(sb, g, i, k, b, s);
    }
    LinkedOwned(sb, g, g', own, loose, Slot(i, k), b);
    forall j, bn | 0 <= j < |g.inodes| && 0 <= bn < MAXFILE
      ensures FileBlock(sb, g', j, bn) == FileBlock(sb, g, j, bn)
    {
      assert IsSlot(g, Slot(j, DataSlot(bn)));
    }
  }

  /** What linking a loose block to one empty slot means for ownership. */
  lemma LinkedOwned(sb: Super, g: Image, g': Image, own: map<int, Slot>, loose: set<int>, t: Slot, b: int)
    requires Owned(sb, g, own, {}, loose) && b in loose && IsData(sb, b)
    requires Shape(sb, g') && |g'.inodes| == |g.inodes| && g'.bitmap == g.bitmap
    requires IsSlot(g, t) && Ref(sb, g, t) == 0
    requires forall s :: IsSlot(g, s) ==> Ref(sb, g', s) == if s == t then b else Ref(sb, g, s)
    ensures Owned(sb, g', own[b := t], {}, loose - {b})
  {
    var own' := own[b := t];
    forall x | x in own' ensures OwnedBy(sb, g', own'[x], x) {
      assert x != b ==> OwnedBy(sb, g, own[x], x);
    }
  }

  function WithEntry(g: Image, a: int, j: nat, b: int): Image
    requires 0 <= a < |g.blocks| && j < NINDIRECT && 0 <= b < 0x1_0000_0000
  {
    g.(blocks := g.blocks[a := SetWord(g.blocks[a], j, b)])
  }

  /** Storing a loose block in an empty word of an indirect block. */
  lemma LinkEntry(sb: Super, g: Image, own: map<int, Slot>, loose: set<int>, i: nat, j: nat, b: int)
    requires Owned(sb, g, own, {}, loose) && i < |g.inodes| && j < NINDIRECT
    requires b in loose && IsData(sb, b) && g.blocks[b] == ZeroBlock()
    requires g.inodes[i].addrs[NDIRECT] != 0 && Ref(sb, g, Slot(i, NDIRECT + 1 + j)) == 0
    ensures var g' := WithEntry(g, g.inodes[i].addrs[NDIRECT], j, b);
            && Owned(sb, g', own[b := Slot(i, NDIRECT + 1 + j)], {}, loose - {b})
            && SameFiles(sb, g, g')
  {
    var a := g.inodes[i].addrs[NDIRECT];
    var g', t := WithEntry(g, a, j, b), Slot(i, NDIRECT + 1 + j);
    IndirectOwned(sb, g, own, loose, i);
    forall s | IsSlot(g, s) ensures Ref(sb, g', s) == if s == t then b else Ref(sb, g, s) {
      RefWithEntry(sb, g, own, loose, i, j, b, s);
    }
    LinkedOwned(sb, g, g', own, loose, t, b);
    forall k, bn | 0 <= k < |g.inodes| && 0 <= bn < MAXFILE
      ensures FileBlock(sb, g', k, bn) == FileBlock(sb, g, k, bn)
    {
      var s := Slot(k, DataSlot(bn));
      assert IsSlot(g, s);
      assert Ref(sb, g, s) != 0 ==> own[Ref(sb, g, s)] == s;
    }
  }

  lemma RefWithEntry(sb: Super, g: Image, own: map<int, Slot>, loose: set<int>, i: nat, j: nat, b: int, s: Slot)
    requires Owned(sb, g, own, {}, loose) && i < |g.inodes| && j < NINDIRECT && IsData(sb, b)
    requires g.inodes[i].addrs[NDIRECT] != 0 && IsSlot(g, s)
    ensures var g' := WithEntry(g, g.inodes[i].addrs[NDIRECT], j, b);
            && Shape(sb, g')
            && Ref(sb, g', s) == if s == Slot(i, NDIRECT + 1 + j) then b else Ref(sb, g, s)
  {
    var a := g.inodes[i].addrs[NDIRECT];
    IndirectOwned(sb, g, own, loose, i);
    if s.k > NDIRECT && g.inodes[s.i].addrs[NDIRECT] != 0 {
      IndirectOwned(sb, g, own, loose, s.i);
      if s.i == i { WordAfterSet(g.blocks[a], j, b, s.k - NDIRECT - 1); }
    }
  }

  /** Overwriting a block owned by a data slot changes that block of that file only. */
  lemma WriteDataKeeps(sb: Super, g: Image, own: map<int, Slot>, i: nat, bn: nat, x: Block)
    requires Consistent(sb, g, own) && i < |g.inodes| && bn < MAXFILE
    requires Ref(sb, g, Slot(i, DataSlot(bn))) != 0
    ensures var a := Ref(sb, g, Slot(i, DataSlot(bn)));
            var g' := g.(blocks := g.blocks[a := x]);
            && IsData(sb, a) && Consistent(sb, g', own)
            && (forall s :: IsSlot(g, s) ==> Ref(sb, g', s) == Ref(sb, g, s))
            && (forall j, cn :: 0 <= j < |g.inodes| && 0 <= cn < MAXFILE ==>
                  FileBlock(sb, g', j, cn) == if j == i && cn == bn then x else FileBlock(sb, g, j, cn))
  {
    var a := Ref(sb, g, Slot(i, DataSlot(bn)));
    var g' := g.(blocks := g.blocks[a := x]);
    assert OwnedBy(sb, g, own[a], a);
    forall s | IsSlot(g, s) ensures Ref(sb, g', s) == Ref(sb, g, s) {
      if g.inodes[s.i].addrs[NDIRECT] != 0 { IndirectOwned(sb, g, own, {}, s.i); }
    }
    forall y | y in own ensures OwnedBy(sb, g', own[y], y) { assert OwnedBy(sb, g, own[y], y); }
    forall j, cn | 0 <= j < |g.inodes| && 0 <= cn < MAXFILE
      ensures FileBlock(sb, g', j, cn) == if j == i && cn == bn then x else FileBlock(sb, g, j, cn)
    {
      var s := Slot(j, DataSlot(cn));
      assert IsSlot(g, s);
      assert Ref(sb, g, s) != 0 ==> own[Ref(sb, g, s)] == s;
    }
  }

  /** From `g` to `g'` inode `i` has gained blocks and nothing else has changed in any file. */
  ghost predicate Grown(sb: Super, g: Image, g': Image, i: nat)
    requires Shape(sb, g) && Shape(sb, g') && i < |g.inodes|
  {
    && |g'.inodes| == |g.inodes|
    && (forall j :: 0 <= j < |g.inodes| && j != i ==> g'.inodes[j] == g.inodes[j])
    && g'.inodes[i].(addrs := g.inodes[i].addrs) == g.inodes[i]
    && (forall s :: IsSlot(g, s) && Ref(sb, g, s) != 0 ==> Ref(sb, g', s) == Ref(sb, g, s))
    && SameFiles(sb, g, g')
  }

  lemma GrownNothing(sb: Super, g: Image, i: nat)
    requires Shape(sb, g) && i < |g.inodes|
    ensures Grown(sb, g, g, i)
  {
  }

  lemma GrownTrans(sb: Super, g: Image, m: Image, g': Image, i: nat)
    requires Shape(sb, g) && Shape(sb, m) && Shape(sb, g') && i < |g.inodes| && |m.inodes| == |g.inodes|
    requires Grown(sb, g, m, i) && Grown(sb, m, g', i)
    ensures Grown(sb, g, g', i)
  {
    forall s | IsSlot(g, s) && Ref(sb, g, s) != 0 ensures Ref(sb, g', s) == Ref(sb, g, s) {
      assert Ref(sb, m, s) == Ref(sb, g, s);
    }
    forall j, bn | 0 <= j < |g.inodes| && 0 <= bn < MAXFILE
      ensures FileBlock(sb, g', j, bn) == FileBlock(sb, g, j, bn)
    {
      assert FileBlock(sb, m, j, bn) == FileBlock(sb, g, j, bn);
    }
  }

  // ----- Freeing -----

  /** Clearing the bit of the block in direct address `k` and zeroing the address. */
  lemma FreeAddr(sb: Super, g: Image, own: map<int, Slot>, i: nat, k: nat)
    requires Consistent(sb, g, own) && i < |g.inodes| && k < NDIRECT && g.inodes[i].addrs[k] != 0
    ensures var a := g.inodes[i].addrs[k];
            && a in own && own[a] == Slot(i, k) && IsData(sb, a) && Bit(g.bitmap, a)
            && Consistent(sb, WithAddr(g.(bitmap := ClearBit(g.bitmap, a)), i, k, 0), own - {a})
  {
    var a := g.inodes[i].addrs[k];
    assert Ref(sb, g, Slot(i, k)) == a;
    assert OwnedBy(sb, g, own[a], a);
    var g', own' := WithAddr(g.(bitmap := ClearBit(g.bitmap, a)), i, k, 0), own - {a};
    forall s | IsSlot(g, s) ensures Ref(sb, g', s) == if s == Slot(i, k) then 0 else Ref(sb, g, s) {}
    forall b | b in own' ensures OwnedBy(sb, g', own'[b], b) { assert OwnedBy(sb, g, own[b], b); }
    forall b | 0 <= b < sb.size ensures Bit(g'.bitmap, b) <==> b < sb.datastart || b in own' {
      BitAfterClear(g.bitmap, a, b);
    }
  }

  /** Clearing the bit of the block in one word of the indirect block, which becomes dead. */
  lemma FreeEntry(sb: Super, g: Image, own: map<int, Slot>, dead: set<Slot>, s: Slot)
    requires Owned(sb, g, own, dead, {}) && IsSlot(g, s) && s !in dead
    ensures var r := Ref(sb, g, s);
            if r == 0 then Owned(sb, g, own, dead + {s}, {})
            else
              && r in own && own[r] == s && IsData(sb, r) && Bit(g.bitmap, r)
              && Owned(sb, g.(bitmap := ClearBit(g.bitmap, r)), own - {r}, dead + {s}, {})
  {
    var r := Ref(sb, g, s);
    if r == 0 {
      forall b | b in own ensures own[b] != s { assert OwnedBy(sb, g, own[b], b); }
    } else {
      assert OwnedBy(sb, g, own[r], r);
      var g', own' := g.(bitmap := ClearBit(g.bitmap, r)), own - {r};
      forall t | IsSlot(g, t) ensures Ref(sb, g', t) == Ref(sb, g, t) {}
      forall b | b in own' ensures OwnedBy(sb, g', own'[b], b) && own'[b] !in dead + {s} {
        assert OwnedBy(sb, g, own[b], b);
      }
      forall b | 0 <= b < sb.size ensures Bit(g'.bitmap, b) <==> b < sb.datastart || b in own' {
        BitAfterClear(g.bitmap, r, b);
      }
    }
  }

  /** The first `j` words of the indirect block of inode `i`. */
  ghost function Entries(i: nat, j: nat): set<Slot> {
    set k: nat | NDIRECT < k < NDIRECT + 1 + j :: Slot(i, k)
  }

  lemma MoreEntries(i: nat, j: nat)
    ensures Slot(i, NDIRECT + 1 + j) !in Entries(i, j)
    ensures Entries(i, j) + {Slot(i, NDIRECT + 1 + j)} == Entries(i, j + 1)
  {
    forall s ensures s in Entries(i, j) <==> s == Slot(i, s.k) && NDIRECT < s.k < NDIRECT + 1 + j {}
  }

  /** With all words dead, freeing the indirect block clears them at once. */
  lemma FreeIndirect(sb: Super, g: Image, own: map<int, Slot>, i: nat)
    requires Owned(sb, g, own, Entries(i, NINDIRECT), {}) && i < |g.inodes| && g.inodes[i].addrs[NDIRECT] != 0
    ensures var a := g.inodes[i].addrs[NDIRECT];
            && a in own && own[a] == Slot(i, NDIRECT) && IsData(sb, a) && Bit(g.bitmap, a)
            && Consistent(sb, WithAddr(g.(bitmap := ClearBit(g.bitmap, a)), i, NDIRECT, 0), own - {a})
  {
    var a := g.inodes[i].addrs[NDIRECT];
    var dead := Entries(i, NINDIRECT);
    assert Ref(sb, g, Slot(i, NDIRECT)) == a && Slot(i, NDIRECT) !in dead;
    assert OwnedBy(sb, g, own[a], a);
    var g', own' := WithAddr(g.(bitmap := ClearBit(g.bitmap, a)), i, NDIRECT, 0), own - {a};
    forall s | IsSlot(g, s) ensures Ref(sb, g', s) == if s.i == i && s.k >= NDIRECT then 0 else Ref(sb, g, s) {}
    forall s | IsSlot(g, s) && s.i == i && s.k > NDIRECT ensures s in dead {
      assert s == Slot(i, s.k);
    }
    forall b | b in own' ensures OwnedBy(sb, g', own'[b], b) { assert OwnedBy(sb, g, own[b], b); }
    forall b | 0 <= b < sb.size ensures Bit(g'.bitmap, b) <==> b < sb.datastart || b in own' {
      BitAfterClear(g.bitmap, a, b);
    }
  }

  /** An inode whose addresses are all zero owns nothing. */
  lemma NothingOwned(sb: Super, g: Image, own: map<int, Slot>, i: nat)
    requires Consistent(sb, g, own) && i < |g.inodes|
    requires forall k :: 0 <= k <= NDIRECT ==> g.inodes[i].addrs[k] == 0
    ensures forall b :: b in own ==> own[b].i != i
  {
    forall b | b in own ensures own[b].i != i { assert OwnedBy(sb, g, own[b], b); }
  }
}
