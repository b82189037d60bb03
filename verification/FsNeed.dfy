/** How many free blocks there are, and how many a stretch of a file needs before it is all mapped. */
module FsNeed {
  import opened FsImage

  // ----- Free blocks -----

  /** The clear bits among the first `n`. */
  ghost function FreeBits(bits: seq<bv8>, n: nat): nat
    requires n <= 8 * |bits|
  {
    if n == 0 then 0 else FreeBits(bits, n - 1) + if Bit(bits, n - 1) then 0 else 1
  }

  lemma {:induction false} FreeAfterSet(bits: seq<bv8>, b: nat, n: nat)
    requires b < 8 * |bits| && n <= 8 * |bits| && !Bit(bits, b)
    ensures FreeBits(SetBit(bits, b), n) == FreeBits(bits, n) - if b < n then 1 else 0
  {
    hide Bit, SetBit;
    SetBitSize(bits, b);
    if n > 0 {
      FreeAfterSet(bits, b, n - 1);
      BitAfterSet(bits, b, n - 1);
    }
  }

  lemma SetBitSize(bits: seq<bv8>, b: nat)
    requires b < 8 * |bits|
    ensures |SetBit(bits, b)| == |bits|
  {
  }

  lemma {:induction false} NoneLeft(bits: seq<bv8>, n: nat)
    requires n <= 8 * |bits|
    ensures FreeBits(bits, n) == 0 <==> forall x :: 0 <= x < n ==> Bit(bits, x)
  {
    hide Bit;
    if n > 0 {
      NoneLeft(bits, n - 1);
    }
  }

  // ----- Blocks that are missing -----

  ghost predicate Unmapped(sb: Super, g: Image, i: nat, bn: nat)
    requires Shape(sb, g) && i < |g.inodes| && bn < MAXFILE
  {
    Ref(sb, g, Slot(i, DataSlot(bn))) == 0
  }

  ghost predicate NoIndirect(sb: Super, g: Image, i: nat)
    requires Shape(sb, g) && i < |g.inodes|
  {
    g.inodes[i].addrs[NDIRECT] == 0
  }

  /** What mapping block `bn` of a file takes: the block, and the indirect block on the way to it. */
  ghost function BlockNeed(sb: Super, g: Image, i: nat, bn: nat): nat
    requires Shape(sb, g) && i < |g.inodes| && bn < MAXFILE
  {
    (if Unmapped(sb, g, i, bn) then 1 else 0) + (if bn >= NDIRECT && NoIndirect(sb, g, i) then 1 else 0)
  }

  ghost function Lacking(sb: Super, g: Image, i: nat, bn: nat, k: nat): nat
    requires Shape(sb, g) && i < |g.inodes| && bn + k <= MAXFILE
  {
    if k == 0 then 0 else Lacking(sb, g, i, bn, k - 1) + if Unmapped(sb, g, i, bn + k - 1) then 1 else 0
  }

  /** What mapping blocks `bn .. bn + k` of a file takes. */
  ghost function Need(sb: Super, g: Image, i: nat, bn: nat, k: nat): nat
    requires Shape(sb, g) && i < |g.inodes| && bn + k <= MAXFILE
  {
    Lacking(sb, g, i, bn, k) + if k > 0 && bn + k > NDIRECT && NoIndirect(sb, g, i) then 1 else 0
  }

  lemma {:induction false} NeedGrows(sb: Super, g: Image, i: nat, bn: nat, k: nat, n: nat)
    requires Shape(sb, g) && i < |g.inodes| && bn + n <= MAXFILE && k <= n
    ensures Need(sb, g, i, bn, k) <= Need(sb, g, i, bn, n)
    decreases n
  {
    hide Unmapped, NoIndirect;
    if k < n {
      NeedGrows(sb, g, i, bn, k, n - 1);
    }
  }

  // ----- Mapping block after block -----

  /** From `g` to `g'` at most block `bn` of file `i` was mapped. */
  ghost predicate OnlyMapped(sb: Super, g: Image, g': Image, i: nat, bn: nat)
    requires Shape(sb, g) && Shape(sb, g') && i < |g.inodes| == |g'.inodes| && bn < MAXFILE
  {
    && (forall cn :: 0 <= cn < MAXFILE && cn != bn ==> (Unmapped(sb, g', i, cn) <==> Unmapped(sb, g, i, cn)))
    && (bn < NDIRECT ==> (NoIndirect(sb, g', i) <==> NoIndirect(sb, g, i)))
    && (bn >= NDIRECT ==> !NoIndirect(sb, g', i))
    && (!NoIndirect(sb, g, i) ==> !NoIndirect(sb, g', i))
  }

  /** From `g` to `g'` blocks `bn .. bn + k` of file `i` were mapped as far as they were not, and no others. */
  ghost predicate MappedTo(sb: Super, g: Image, g': Image, i: nat, bn: nat, k: nat)
    requires Shape(sb, g) && Shape(sb, g') && i < |g.inodes| == |g'.inodes| && bn + k <= MAXFILE
  {
    && (forall cn :: bn + k <= cn < MAXFILE ==> (Unmapped(sb, g', i, cn) <==> Unmapped(sb, g, i, cn)))
    && (NoIndirect(sb, g', i) <==> NoIndirect(sb, g, i) && !(k > 0 && bn + k > NDIRECT))
  }

  lemma MappedNone(sb: Super, g: Image, i: nat, bn: nat)
    requires Shape(sb, g) && i < |g.inodes| && bn <= MAXFILE
    ensures MappedTo(sb, g, g, i, bn, 0) && Need(sb, g, i, bn, 0) == 0
  {
  }

  lemma MappedMore(sb: Super, g: Image, m: Image, g': Image, i: nat, bn: nat, k: nat)
    requires Shape(sb, g) && Shape(sb, m) && Shape(sb, g') && i < |g.inodes| == |m.inodes| == |g'.inodes|
    requires bn + k < MAXFILE && MappedTo(sb, g, m, i, bn, k) && OnlyMapped(sb, m, g', i, bn + k)
    ensures MappedTo(sb, g, g', i, bn, k + 1)
  {
    hide Unmapped, NoIndirect;
  }

  lemma NeedMore(sb: Super, g: Image, m: Image, i: nat, bn: nat, k: nat)
    requires Shape(sb, g) && Shape(sb, m) && i < |g.inodes| == |m.inodes|
    requires bn + k < MAXFILE && MappedTo(sb, g, m, i, bn, k)
    ensures Need(sb, g, i, bn, k + 1) == Need(sb, g, i, bn, k) + BlockNeed(sb, m, i, bn + k)
  {
    hide Unmapped, NoIndirect;
  }

  // ----- From references to missing blocks -----

  /** Only slot `t` refers to another block than before. */
  ghost predicate OtherRefs(sb: Super, g: Image, g': Image, t: Slot)
    requires Shape(sb, g) && Shape(sb, g') && |g.inodes| == |g'.inodes|
  {
    forall s :: IsSlot(g, s) && s != t ==> Ref(sb, g', s) == Ref(sb, g, s)
  }

  lemma MappedDirect(sb: Super, g: Image, g': Image, i: nat, bn: nat)
    requires Shape(sb, g) && Shape(sb, g') && i < |g.inodes| == |g'.inodes| && bn < NDIRECT
    requires OtherRefs(sb, g, g', Slot(i, bn))
    ensures OnlyMapped(sb, g, g', i, bn)
  {
    IndirectRef(sb, g, i);
    IndirectRef(sb, g', i);
    forall cn | 0 <= cn < MAXFILE && cn != bn ensures Unmapped(sb, g', i, cn) <==> Unmapped(sb, g, i, cn) {
      assert IsSlot(g, Slot(i, DataSlot(cn)));
    }
  }

  lemma MappedIndirect(sb: Super, g: Image, m: Image, g': Image, i: nat, j: nat)
    requires Shape(sb, g) && Shape(sb, m) && Shape(sb, g') && i < |g.inodes| == |m.inodes| == |g'.inodes|
    requires j < NINDIRECT && !NoIndirect(sb, m, i)
    requires OtherRefs(sb, g, m, Slot(i, NDIRECT)) && OtherRefs(sb, m, g', Slot(i, NDIRECT + 1 + j))
    ensures OnlyMapped(sb, g, g', i, NDIRECT + j)
    ensures Unmapped(sb, m, i, NDIRECT + j) <==> Unmapped(sb, g, i, NDIRECT + j)
  {
    IndirectRef(sb, m, i);
    IndirectRef(sb, g', i);
    assert IsSlot(g, Slot(i, DataSlot(NDIRECT + j)));
    forall cn | 0 <= cn < MAXFILE && cn != NDIRECT + j ensures Unmapped(sb, g', i, cn) <==> Unmapped(sb, g, i, cn) {
      assert IsSlot(g, Slot(i, DataSlot(cn)));
      assert Ref(sb, m, Slot(i, DataSlot(cn))) == Ref(sb, g, Slot(i, DataSlot(cn)));
    }
  }

  lemma IndirectRef(sb: Super, g: Image, i: nat)
    requires Shape(sb, g) && i < |g.inodes|
    ensures IsSlot(g, Slot(i, NDIRECT)) && (NoIndirect(sb, g, i) <==> Ref(sb, g, Slot(i, NDIRECT)) == 0)
  {
  }

  /** Writing into data blocks maps nothing. */
  lemma MappedStill(sb: Super, g: Image, m: Image, g': Image, i: nat, bn: nat)
    requires Shape(sb, g) && Shape(sb, m) && Shape(sb, g') && i < |g.inodes| == |m.inodes| == |g'.inodes|
    requires bn < MAXFILE
    requires OnlyMapped(sb, g, m, i, bn) && g'.inodes == m.inodes
    requires forall s :: IsSlot(m, s) ==> Ref(sb, g', s) == Ref(sb, m, s)
    ensures OnlyMapped(sb, g, g', i, bn)
  {
    forall cn | 0 <= cn < MAXFILE ensures Unmapped(sb, g', i, cn) <==> Unmapped(sb, m, i, cn) {
      assert IsSlot(m, Slot(i, DataSlot(cn)));
    }
  }

  // ----- Stretches of bytes, one after the other -----

  /** How many blocks bytes `off .. off + n` of a file lie in. */
  function Touched(off: nat, n: nat): nat {
    if n == 0 then 0 else (off + n - 1) / BSIZE - off / BSIZE + 1
  }

  lemma TouchedBound(off: nat, n: nat)
    requires off + n <= MAXFILE * BSIZE
    ensures off / BSIZE + Touched(off, n) <= MAXFILE
    ensures n > 0 ==> (off + n - 1) / BSIZE == off / BSIZE + Touched(off, n) - 1 < MAXFILE
  {
  }

  lemma TouchedGrows(off: nat, n: nat, n': nat)
    requires n <= n'
    ensures Touched(off, n) <= Touched(off, n')
  {
  }

  /** What the blocks under bytes `off .. off + n` of a file take. */
  ghost function ByteNeed(sb: Super, g: Image, i: nat, off: nat, n: nat): nat
    requires Shape(sb, g) && i < |g.inodes| && off + n <= MAXFILE * BSIZE
  {
    TouchedBound(off, n);
    Need(sb, g, i, off / BSIZE, Touched(off, n))
  }

  /** From `g` to `m` those blocks were mapped and no others, and as many were taken from the free ones. */
  ghost predicate Supplied(sb: Super, g: Image, m: Image, i: nat, off: nat, n: nat) {
    && Shape(sb, g) && Shape(sb, m) && i < |g.inodes| == |m.inodes| && off + n <= MAXFILE * BSIZE
    && off / BSIZE + Touched(off, n) <= MAXFILE && MappedTo(sb, g, m, i, off / BSIZE, Touched(off, n))
    && FreeBits(m.bitmap, sb.size) + Need(sb, g, i, off / BSIZE, Touched(off, n)) == FreeBits(g.bitmap, sb.size)
    && (n > 0 ==> (off + n - 1) / BSIZE < MAXFILE && !Unmapped(sb, m, i, (off + n - 1) / BSIZE))
  }

  lemma SuppliedNothing(sb: Super, g: Image, i: nat, off: nat)
    requires Shape(sb, g) && i < |g.inodes| && off <= MAXFILE * BSIZE
    ensures Supplied(sb, g, g, i, off, 0)
  {
    MappedNone(sb, g, i, off / BSIZE);
  }

  lemma {:induction false} LackingSplit(sb: Super, g: Image, m: Image, i: nat, bn: nat, a: nat, b: nat)
    requires Shape(sb, g) && Shape(sb, m) && i < |g.inodes| == |m.inodes| && bn + a + b <= MAXFILE
    requires MappedTo(sb, g, m, i, bn, a)
    ensures Lacking(sb, g, i, bn, a + b) == Lacking(sb, g, i, bn, a) + Lacking(sb, m, i, bn + a, b)
  {
    hide Unmapped, NoIndirect;
    if b > 0 {
      LackingSplit(sb, g, m, i, bn, a, b - 1);
    }
  }

  lemma NeedSplit(sb: Super, g: Image, m: Image, i: nat, bn: nat, a: nat, b: nat)
    requires Shape(sb, g) && Shape(sb, m) && i < |g.inodes| == |m.inodes| && bn + a + b <= MAXFILE
    requires MappedTo(sb, g, m, i, bn, a)
    ensures Need(sb, g, i, bn, a + b) == Need(sb, g, i, bn, a) + Need(sb, m, i, bn + a, b)
  {
    hide Unmapped, NoIndirect, Lacking;
    LackingSplit(sb, g, m, i, bn, a, b);
  }

  lemma MappedSplit(sb: Super, g: Image, m: Image, m': Image, i: nat, bn: nat, a: nat, b: nat)
    requires Shape(sb, g) && Shape(sb, m) && Shape(sb, m') && i < |g.inodes| == |m.inodes| == |m'.inodes|
    requires bn + a + b <= MAXFILE && MappedTo(sb, g, m, i, bn, a) && MappedTo(sb, m, m', i, bn + a, b)
    ensures MappedTo(sb, g, m', i, bn, a + b)
  {
    hide Unmapped, NoIndirect;
  }

  lemma {:induction false} LackingOverlap(sb: Super, m: Image, i: nat, bn: nat, b: nat)
    requires Shape(sb, m) && i < |m.inodes| && bn + b < MAXFILE && !Unmapped(sb, m, i, bn)
    ensures Lacking(sb, m, i, bn, b + 1) == Lacking(sb, m, i, bn + 1, b)
  {
    hide Unmapped, NoIndirect;
    if b > 0 {
      LackingOverlap(sb, m, i, bn, b - 1);
    } else {
      assert Lacking(sb, m, i, bn, 0) == 0;
    }
  }

  /** A first block that is mapped does not matter. */
  lemma Overlap(sb: Super, m: Image, m': Image, i: nat, bn: nat, b: nat)
    requires Shape(sb, m) && Shape(sb, m') && i < |m.inodes| == |m'.inodes| && bn + b < MAXFILE
    requires !Unmapped(sb, m, i, bn)
    ensures Need(sb, m, i, bn, b + 1) == Need(sb, m, i, bn + 1, b)
    ensures MappedTo(sb, m, m', i, bn, b + 1) ==> MappedTo(sb, m, m', i, bn + 1, b)
  {
    hide Lacking;
    LackingOverlap(sb, m, i, bn, b);
    assert bn >= NDIRECT ==> !NoIndirect(sb, m, i);
  }

  /** Where the next stretch starts: at a new block, or at the last one of the stretch before. */
  lemma NextStretch(off: nat, n: nat, n': nat)
    requires n > 0 && n' > 0
    ensures var bn, t := off / BSIZE, Touched(off, n);
            if (off + n) % BSIZE == 0 then
              (off + n) / BSIZE == bn + t && Touched(off, n + n') == t + Touched(off + n, n')
            else (off + n) / BSIZE == bn + t - 1 == (off + n - 1) / BSIZE &&
                 Touched(off, n + n') == t + Touched(off + n, n') - 1
  {
  }

  /** What two stretches need, the second after the first is mapped, they need together. */
  lemma ByteNeedMore(sb: Super, g: Image, m: Image, i: nat, off: nat, n: nat, n': nat)
    requires Supplied(sb, g, m, i, off, n) && off + n + n' <= MAXFILE * BSIZE && n' > 0
    ensures ByteNeed(sb, g, i, off, n + n') == ByteNeed(sb, g, i, off, n) + ByteNeed(sb, m, i, off + n, n')
  {
    hide Need, MappedTo, Unmapped, FreeBits, Touched;
    TouchedBound(off, n + n');
    TouchedBound(off + n, n');
    if n == 0 {
      NoStretch(off);
      NeedSplit(sb, g, m, i, off / BSIZE, 0, Touched(off, n'));
    } else {
      NextStretch(off, n, n');
      var bn, t, t' := off / BSIZE, Touched(off, n), Touched(off + n, n');
      if (off + n) % BSIZE == 0 {
        NeedSplit(sb, g, m, i, bn, t, t');
      } else {
        SomeStretch(off + n, n');
        Overlap(sb, m, m, i, bn + t - 1, t' - 1);
        NeedSplit(sb, g, m, i, bn, t, t' - 1);
      }
    }
  }

  lemma NoStretch(off: nat)
    ensures Touched(off, 0) == 0
  {
  }

  lemma SomeStretch(off: nat, n: nat)
    requires n > 0
    ensures Touched(off, n) > 0
  {
  }

  lemma SuppliedMore(sb: Super, g: Image, m: Image, m': Image, i: nat, off: nat, n: nat, n': nat)
    requires Supplied(sb, g, m, i, off, n) && Supplied(sb, m, m', i, off + n, n') && n' > 0
    ensures Supplied(sb, g, m', i, off, n + n')
  {
    hide Need, MappedTo, Unmapped, FreeBits, Touched, Shape;
    ByteNeedMore(sb, g, m, i, off, n, n');
    TouchedBound(off, n + n');
    var bn, t, t' := off / BSIZE, Touched(off, n), Touched(off + n, n');
    if n == 0 {
      NoStretch(off);
      MappedSplit(sb, g, m, m', i, bn, 0, t');
    } else {
      NextStretch(off, n, n');
      if (off + n) % BSIZE == 0 {
        MappedSplit(sb, g, m, m', i, bn, t, t');
      } else {
        SomeStretch(off + n, n');
        Overlap(sb, m, m', i, bn + t - 1, t' - 1);
        MappedSplit(sb, g, m, m', i, bn, t, t' - 1);
      }
    }
  }
}
