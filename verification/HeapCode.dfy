/** malloc and free: a circular list of headers, searched from where the last search ended. */
module HeapCode {
  import opened Common
  import opened HeapModel

  /** Units for a request: rounded up, and one for the header. */
  function UnitsFor(nbytes: nat): nat { (nbytes + 15) / 16 + 1 }

  /** What morecore asks for: the least number of units that is neither below the request nor below 4096. */
  function AtLeastCore(nu: nat): (r: nat)
    ensures 4096 <= r && nu <= r && (r == 4096 || r == nu)
  {
    if nu < 4096 then 4096 else nu
  }

  /** A block of `n` units has room for `nbytes` bytes behind its header, and one unit less would not. */
  predicate JustHolds(n: nat, nbytes: nat) {
    16 * (n - 1) >= nbytes && 16 * (n - 2) < nbytes
  }

  lemma UnitsHold(nbytes: nat)
    ensures JustHolds(UnitsFor(nbytes), nbytes)
  {
  }

  /** Each of the bytes from the address returned on lies in a unit of the block at `a`, not in its header. */
  ghost predicate BytesIn(use: Use, a: nat, nbytes: nat) {
    forall b: nat :: 16 * (a + 1) <= b < 16 * (a + 1) + nbytes ==>
      b / 16 != a && b / 16 in use && use[b / 16] == Some(a)
  }

  lemma TakenHolds(use: Use, a: nat, n: nat, nbytes: nat)
    requires JustHolds(n, nbytes) && FreeRun(use, a, n)
    ensures BytesIn(Taken(use, a, n), a, nbytes)
  {
    forall b: nat | 16 * (a + 1) <= b < 16 * (a + 1) + nbytes
      ensures b / 16 != a && b / 16 in Taken(use, a, n) && Taken(use, a, n)[b / 16] == Some(a)
    {
      UnitOf(a, n, nbytes, b);
    }
  }

  lemma UnitOf(a: nat, n: nat, nbytes: nat, b: nat)
    requires JustHolds(n, nbytes) && 16 * (a + 1) <= b < 16 * (a + 1) + nbytes
    ensures a < b / 16 < a + n
  {
  }

  function SetSize(hdr: map<nat, Header>, a: nat, n: nat): map<nat, Header> {
    hdr[a := Header(if a in hdr then hdr[a].ptr else 0, n)]
  }

  // ----- Where the search loops end -----

  lemma Ascending(blocks: seq<Run>, i: nat, j: nat)
    requires Sorted(blocks) && i < |blocks| && j < |blocks|
    ensures i < j ==> blocks[i].start < blocks[j].start
    ensures i != j ==> blocks[i].start != blocks[j].start
  {
    if i < j {
      Apart(blocks, i, j);
    } else if j < i {
      Apart(blocks, j, i);
    }
  }

  /** free's loop stops at block `j` exactly when it is the one the freed block follows. */
  lemma StopsAt(blocks: seq<Run>, k: nat, a: nat, j: nat)
    requires Sorted(blocks) && Below(blocks, k, a) && BASE < a && j < |blocks|
    ensures var p, q := blocks[j].start, Next(blocks, j);
            (a > p && a < q) || (p >= q && (a > p || a < q)) <==> j == k
  {
    Ascending(blocks, 0, j);
    Ascending(blocks, j, k);
    Ascending(blocks, k, j);
    if j + 1 < |blocks| {
      Ascending(blocks, j, j + 1);
      Ascending(blocks, j + 1, k);
      Ascending(blocks, k, j + 1);
    }
    if k + 1 < |blocks| {
      Ascending(blocks, k + 1, j);
    }
  }

  // ----- The list after free -----

  function FreedHdr(hdr: map<nat, Header>, p: nat, bp: nat): map<nat, Header>
    requires p in hdr && bp in hdr && hdr[p].ptr in hdr
  {
    var q := hdr[p].ptr;
    var hdr := if bp + hdr[bp].size == q then hdr[bp := Header(hdr[q].ptr, hdr[bp].size + hdr[q].size)]
               else hdr[bp := Header(q, hdr[bp].size)];
    if p + hdr[p].size == bp then hdr[p := Header(hdr[bp].ptr, hdr[p].size + hdr[bp].size)]
    else hdr[p := Header(bp, hdr[p].size)]
  }

  lemma NextLinked(hdr: map<nat, Header>, blocks: seq<Run>, i: nat)
    requires Sorted(blocks) && Linked(hdr, blocks) && i < |blocks|
    ensures LinkAt(hdr, blocks, i) && Next(blocks, i) in hdr
  {
    assert LinkAt(hdr, blocks, i);
    if i + 1 < |blocks| {
      assert LinkAt(hdr, blocks, i + 1);
    } else {
      assert LinkAt(hdr, blocks, 0);
    }
  }

  /** Headers of other blocks are not written. */
  lemma KeptHdr(hdr: map<nat, Header>, blocks: seq<Run>, k: nat, r: Run, i: nat)
    requires Sorted(blocks) && Linked(hdr, blocks) && Fits(blocks, k, r) && i < |blocks| && i != k
    requires r.start in hdr
    ensures LinkAt(hdr, blocks, k) && hdr[blocks[k].start].ptr in hdr
    ensures var h := FreedHdr(hdr, blocks[k].start, r.start);
            && blocks[i].start in h
            && (blocks[i].start != r.start ==> h[blocks[i].start] == Header(Next(blocks, i), blocks[i].size))
    ensures blocks[i].start != r.start
  {
    NextLinked(hdr, blocks, k);
    NextLinked(hdr, blocks, i);
    Ascending(blocks, i, k);
    if i < k {
      Ascending(blocks, i, k);
    } else {
      Ascending(blocks, k + 1, i);
    }
  }

  lemma FreedLinked(hdr: map<nat, Header>, blocks: seq<Run>, k: nat, r: Run)
    requires Sorted(blocks) && Linked(hdr, blocks) && Fits(blocks, k, r)
    requires r.start in hdr && hdr[r.start].size == r.size
    ensures blocks[k].start in hdr && hdr[blocks[k].start].ptr in hdr
    ensures Linked(FreedHdr(hdr, blocks[k].start, r.start), Freed(blocks, k, r))
  {
    NextLinked(hdr, blocks, k);
    var h := FreedHdr(hdr, blocks[k].start, r.start);
    var bs := Freed(blocks, k, r);
    forall i: nat | i < |bs| ensures LinkAt(h, bs, i) {
      FreedLinkAt(hdr, blocks, k, r, i);
    }
  }

  lemma FreedLinkAt(hdr: map<nat, Header>, blocks: seq<Run>, k: nat, r: Run, i: nat)
    requires Sorted(blocks) && Linked(hdr, blocks) && Fits(blocks, k, r)
    requires r.start in hdr && hdr[r.start].size == r.size && i < |Freed(blocks, k, r)|
    requires blocks[k].start in hdr && hdr[blocks[k].start].ptr in hdr
    ensures LinkAt(FreedHdr(hdr, blocks[k].start, r.start), Freed(blocks, k, r), i)
  {
    hide Linked, Sorted, LinkAt, Freed, FreedHdr;
    var down := blocks[k].start + blocks[k].size == r.start;
    if k <= i <= (if down then k else k + 1) {
      FreedLinkHere(hdr, blocks, k, r, i);
    } else {
      FreedLinkBeside(hdr, blocks, k, r, i);
    }
  }

  /** The freed block and the one before it, or the block both become. */
  lemma FreedLinkHere(hdr: map<nat, Header>, blocks: seq<Run>, k: nat, r: Run, i: nat)
    requires Sorted(blocks) && Linked(hdr, blocks) && Fits(blocks, k, r)
    requires r.start in hdr && hdr[r.start].size == r.size && i < |Freed(blocks, k, r)|
    requires blocks[k].start in hdr && hdr[blocks[k].start].ptr in hdr
    requires k <= i <= (if blocks[k].start + blocks[k].size == r.start then k else k + 1)
    ensures LinkAt(FreedHdr(hdr, blocks[k].start, r.start), Freed(blocks, k, r), i)
  {
    hide Linked, Sorted, Freed;
    NextLinked(hdr, blocks, k);
    FreedShape(blocks, k, r);
    if k + 1 < |blocks| {
      NextLinked(hdr, blocks, k + 1);
    }
  }

  lemma FreedLinkBeside(hdr: map<nat, Header>, blocks: seq<Run>, k: nat, r: Run, i: nat)
    requires Sorted(blocks) && Linked(hdr, blocks) && Fits(blocks, k, r)
    requires r.start in hdr && hdr[r.start].size == r.size && i < |Freed(blocks, k, r)|
    requires blocks[k].start in hdr && hdr[blocks[k].start].ptr in hdr
    requires !(k <= i <= (if blocks[k].start + blocks[k].size == r.start then k else k + 1))
    ensures LinkAt(FreedHdr(hdr, blocks[k].start, r.start), Freed(blocks, k, r), i)
  {
    hide Linked, Sorted, Freed, FreedHdr;
    var up := k + 1 < |blocks| && r.start + r.size == blocks[k + 1].start;
    var down := blocks[k].start + blocks[k].size == r.start;
    FreedShape(blocks, k, r);
    KeptHdr(hdr, blocks, k, r, if i < k then i else i - (if down then 0 else 1) + (if up then 1 else 0));
  }

  /** The blocks of the list after free. */
  lemma FreedShape(blocks: seq<Run>, k: nat, r: Run)
    requires Fits(blocks, k, r)
    ensures var up := k + 1 < |blocks| && r.start + r.size == blocks[k + 1].start;
            var down := blocks[k].start + blocks[k].size == r.start;
            var n := if up then r.size + blocks[k + 1].size else r.size;
            var bs := Freed(blocks, k, r);
            && |bs| == |blocks| + (if down then 0 else 1) - (if up then 1 else 0)
            && (forall i :: 0 <= i < k ==> bs[i] == blocks[i])
            && (if down then bs[k] == Run(blocks[k].start, blocks[k].size + n)
                else bs[k] == blocks[k] && bs[k + 1] == Run(r.start, n))
            && (forall i :: (if down then k else k + 1) < i < |bs| ==>
                  bs[i] == blocks[i - (if down then 0 else 1) + (if up then 1 else 0)])
  {
  }

  // ----- The list after malloc -----

  function CarvedHdr(hdr: map<nat, Header>, prevp: nat, p: nat, n: nat): map<nat, Header>
    requires p in hdr && prevp in hdr && n <= hdr[p].size
  {
    if hdr[p].size == n then hdr[prevp := Header(hdr[p].ptr, hdr[prevp].size)]
    else SetSize(SetSize(hdr, p, hdr[p].size - n), p + (hdr[p].size - n), n)
  }

  lemma CarvedLinked(hdr: map<nat, Header>, blocks: seq<Run>, i: nat, n: nat)
    requires Sorted(blocks) && Linked(hdr, blocks) && 0 < i < |blocks| && 0 < n <= blocks[i].size
    ensures LinkAt(hdr, blocks, i) && LinkAt(hdr, blocks, i - 1)
    ensures Linked(CarvedHdr(hdr, blocks[i - 1].start, blocks[i].start, n), Carved(blocks, i, n))
  {
    assert LinkAt(hdr, blocks, i) && LinkAt(hdr, blocks, i - 1);
    var h := CarvedHdr(hdr, blocks[i - 1].start, blocks[i].start, n);
    var bs := Carved(blocks, i, n);
    forall j: nat | j < |bs| ensures LinkAt(h, bs, j) {
      CarvedLinkAt(hdr, blocks, i, n, j);
    }
  }

  lemma CarvedLinkAt(hdr: map<nat, Header>, blocks: seq<Run>, i: nat, n: nat, j: nat)
    requires Sorted(blocks) && Linked(hdr, blocks) && 0 < i < |blocks| && 0 < n <= blocks[i].size
    requires LinkAt(hdr, blocks, i) && LinkAt(hdr, blocks, i - 1) && j < |Carved(blocks, i, n)|
    ensures LinkAt(CarvedHdr(hdr, blocks[i - 1].start, blocks[i].start, n), Carved(blocks, i, n), j)
  {
    var bs := Carved(blocks, i, n);
    var k := if n == blocks[i].size && i <= j then j + 1 else j;
    assert LinkAt(hdr, blocks, k);
    Ascending(blocks, k, i);
    Ascending(blocks, k, i - 1);
    if k < i {
      Apart(blocks, k, i);
    } else if i < k {
      Apart(blocks, i, k);
    }
    if n == blocks[i].size {
      assert bs[j] == blocks[k];
      assert j + 1 < |bs| ==> bs[j + 1] == blocks[if j + 1 < i then j + 1 else j + 2];
    }
  }

  /** No block among those the search has passed is large enough. */
  ghost predicate Seen(blocks: seq<Run>, f: nat, j: nat, wrapped: bool, n: nat) {
    forall i :: 0 <= i < |blocks| && (if wrapped then f < i || i <= j else f < i <= j) ==> blocks[i].size < n
  }

  function NextIndex(blocks: seq<Run>, j: nat): nat { if j + 1 < |blocks| then j + 1 else 0 }

  /** The headers of the live blocks hold their sizes. */
  ghost predicate Sized(hdr: map<nat, Header>, live: map<nat, nat>) {
    forall a :: a in live ==> a in hdr && hdr[a].size == live[a]
  }

  lemma FreedOk(hdr: map<nat, Header>, blocks: seq<Run>, live: map<nat, nat>, use: Use, k: nat, bp: nat)
    requires Linked(hdr, blocks) && Sorted(blocks) && Partition(blocks, live, use) && Sized(hdr, live)
    requires bp in live && Below(blocks, k, bp)
    ensures bp in hdr && blocks[k].start in hdr && hdr[blocks[k].start].ptr in hdr
    ensures var h := FreedHdr(hdr, blocks[k].start, bp); var bs := Freed(blocks, k, Run(bp, live[bp]));
            && Linked(h, bs) && Sorted(bs) && Partition(bs, live - {bp}, Given(use, bp)) && Sized(h, live - {bp})
            && k < |bs| && bs[k].start == blocks[k].start
  {
    hide Linked, Sorted, Partition, Freed, Given, LinkAt, Next, Fits;
    var r := Run(bp, live[bp]);
    FitsIn(blocks, live, use, k, bp);
    FreedLinked(hdr, blocks, k, r);
    FreedSorted(blocks, k, r);
    FreedPartition(blocks, live, use, k, bp);
    FreedKeeps(blocks, k, r);
    var h := FreedHdr(hdr, blocks[k].start, bp);
    forall a | a in live && a != bp ensures a in h && h[a].size == live[a] {
      NotAStart(blocks, live, use, a);
    }
  }

  lemma CarvedOk(hdr: map<nat, Header>, blocks: seq<Run>, live: map<nat, nat>, use: Use, i: nat, n: nat)
    requires Linked(hdr, blocks) && Sorted(blocks) && Partition(blocks, live, use) && Sized(hdr, live)
    requires 0 < i < |blocks| && 0 < n <= blocks[i].size
    ensures blocks[i].start in hdr && blocks[i - 1].start in hdr && hdr[blocks[i].start].size == blocks[i].size
    ensures var a := blocks[i].start + blocks[i].size - n;
            var h := CarvedHdr(hdr, blocks[i - 1].start, blocks[i].start, n); var bs := Carved(blocks, i, n);
            && a !in live && FreeRun(use, a, n)
            && Linked(h, bs) && Sorted(bs) && Partition(bs, live[a := n], Taken(use, a, n)) && Sized(h, live[a := n])
            && i - 1 < |bs| && bs[i - 1].start == blocks[i - 1].start && 0 < bs[i - 1].start
  {
    hide Linked, Sorted, Partition, Taken, Carved, FreeRun;
    CarvedLinked(hdr, blocks, i, n);
    CarvedSorted(blocks, i, n);
    CarvedPartition(blocks, live, use, i, n);
    CarvedRun(blocks, live, use, i, n);
    NonNull(blocks, i - 1);
    CarvedKeeps(blocks, i, n);
    var h := CarvedHdr(hdr, blocks[i - 1].start, blocks[i].start, n);
    forall b | b in live ensures b in h && h[b].size == live[b] {
      NotAStart(blocks, live, use, b);
    }
  }

  class Heap {
    var freep: nat                       // 0 until the first malloc
    var hdr: map<nat, Header>
    ghost var blocks: seq<Run>           // the free list from base on
    ghost var live: map<nat, nat>        // the allocated blocks and their sizes
    ghost var use: Use

    ghost predicate OnList(p: nat)
      reads this
    {
      exists j :: 0 <= j < |blocks| && blocks[j].start == p
    }

    ghost predicate Valid()
      reads this
    {
      && Sorted(blocks) && Partition(blocks, live, use) && Sized(hdr, live)
      && (if freep == 0 then use == map[] && blocks == [Run(BASE, 0)] else Linked(hdr, blocks) && OnList(freep))
    }

    constructor ()
      ensures Valid() && live == map[] && use == map[]
    {
      freep := 0;
      hdr := map[];
      blocks := [Run(BASE, 0)];
      live := map[];
      use := map[];
    }

    /** free's loop: the block of the list that the freed block follows. */
    method FindPlace(bp: nat) returns (p: nat, ghost k: nat)
      requires Valid() && freep != 0 && bp in live
      ensures k < |blocks| && Below(blocks, k, bp) && p == blocks[k].start && 0 < p
    {
      hide Linked, Sorted, Partition, LinkAt, Next, Below;
      NotAStart(blocks, live, use, bp);
      k := Place(blocks, bp);
      p := freep;
      ghost var j: nat := IndexOnList(p);
      NextOnList(hdr, blocks, j);
      StopsAt(blocks, k, bp, j);
      while !(bp > p && bp < hdr[p].ptr)
        invariant j < |blocks| && p == blocks[j].start && p in hdr && hdr[p].ptr == Next(blocks, j)
        invariant (bp > p && bp < hdr[p].ptr) || (p >= hdr[p].ptr && (bp > p || bp < hdr[p].ptr)) <==> j == k
        decreases if j <= k then k - j else k + |blocks| - j
      {
        if p >= hdr[p].ptr && (bp > p || bp < hdr[p].ptr) {
          break;
        }
        NextIs(blocks, j);
        p := hdr[p].ptr;
        j := NextIndex(blocks, j);
        NextOnList(hdr, blocks, j);
        StopsAt(blocks, k, bp, j);
      }
      NonNull(blocks, k);
    }

    /** free: the block's units become free and nothing else changes; the list stays one ordered cycle
        in which no two blocks touch. */
    method Free(ap: nat)
      requires Valid() && 0 < ap && ap - 1 in live
      modifies this
      ensures Valid() && freep != 0
      ensures live == old(live) - {ap - 1} && use == Given(old(use), ap - 1)
    {
      hide Linked, Sorted, Partition, Freed, Given, FreedHdr, LinkAt, Next, Below, Heap.OnList;
      var bp := ap - 1;
      assert freep != 0 by { LiveNotEmpty(blocks, live, use, bp); }
      ghost var k;
      var p;
      p, k := FindPlace(bp);
      FreedOk(hdr, blocks, live, use, k, bp);
      ghost var r, h := Run(bp, live[bp]), FreedHdr(hdr, p, bp);
      FreedHdrIs(hdr, p, bp);
      var q := hdr[p].ptr;
      if bp + hdr[bp].size == q {
        hdr := hdr[bp := Header(hdr[q].ptr, hdr[bp].size + hdr[q].size)];
      } else {
        hdr := hdr[bp := Header(q, hdr[bp].size)];
      }
      if p + hdr[p].size == bp {
        hdr := hdr[p := Header(hdr[bp].ptr, hdr[p].size + hdr[bp].size)];
      } else {
        hdr := hdr[p := Header(bp, hdr[p].size)];
      }
      assert hdr == h;
      freep := p;
      blocks := Freed(blocks, k, r);
      live := live - {bp};
      use := Given(use, bp);
      assert OnList(freep) by { OnListAt(k); }
    }

    /** morecore, given what sbrk returns: None, or the address of new memory. */
    method MoreCore(nu: nat, grant: Option<nat>) returns (p: nat)
      requires Valid() && freep != 0 && 0 < nu
      requires grant.Some? ==> BASE < grant.value && forall u :: u in use ==> u < grant.value
      modifies this
      ensures Valid() && live == old(live)
      ensures grant.None? ==> p == 0 && use == old(use) && blocks == old(blocks)
      ensures grant.Some? ==> p == freep && p != 0 && use == Granted(old(use), grant.value, AtLeastCore(nu))
    {
      hide Linked, Sorted, Partition, Taken, Given, Granted;
      var n := if nu < 4096 then 4096 else nu;
      match grant
      case None => p := 0;
      case Some(hp) =>
        GrantedPartition(blocks, live, use, hp, n);
        NotOnList(blocks, live, use, hp);
        hdr := SetSize(hdr, hp, n);
        SetSizeLinked(old(hdr), blocks, hp, n);
        live := live[hp := n];
        use := Taken(Granted(use, hp, n), hp, n);
        Free(hp + 1);
        assert live == old(live);
        p := freep;
    }

    /** The two ways malloc takes `n` units off block `i`, whose predecessor is `prevp`. */
    method Carve(prevp: nat, p: nat, n: nat, ghost i: nat) returns (ap: nat)
      requires Valid() && freep != 0 && 0 < i < |blocks| && 0 < n <= blocks[i].size
      requires prevp == blocks[i - 1].start && p == blocks[i].start
      modifies this
      ensures Valid() && 0 < ap && ap - 1 !in old(live) && FreeRun(old(use), ap - 1, n)
      ensures live == old(live)[ap - 1 := n] && use == Taken(old(use), ap - 1, n)
    {
      hide Linked, Sorted, Partition, Taken, Carved, CarvedHdr, FreeRun, Sized, Heap.OnList;
      CarvedOk(hdr, blocks, live, use, i, n);
      CarvedHdrIs(hdr, prevp, p, n);
      ghost var h := CarvedHdr(hdr, prevp, p, n);
      ap := p;
      if hdr[p].size == n {
        hdr := hdr[prevp := Header(hdr[p].ptr, hdr[prevp].size)];
      } else {
        hdr := SetSize(hdr, p, hdr[p].size - n);
        ap := p + hdr[p].size;
        hdr := SetSize(hdr, ap, n);
      }
      assert hdr == h;
      freep := prevp;
      blocks := Carved(blocks, i, n);
      live := live[ap := n];
      use := Taken(use, ap, n);
      assert OnList(freep) by { OnListAt(i - 1); }
      ap := ap + 1;
    }

    lemma OnListAt(i: nat)
      requires i < |blocks|
      ensures OnList(blocks[i].start)
    {
    }

    /** malloc.  It fails exactly when no run of units long enough is free and sbrk fails; it asks sbrk only
        when none is; and it takes units that are free and no others. */
    method Malloc(nbytes: nat, grant: Option<nat>) returns (ap: nat, grew: bool)
      requires Valid()
      requires grant.Some? ==> BASE < grant.value && forall u :: u in use ==> u < grant.value
      modifies this
      ensures Valid()
      ensures var n := UnitsFor(nbytes); var fits := exists a: nat :: FreeRun(old(use), a, n);
              && (grew <==> !fits && grant.Some?)
              && (ap == 0 <==> !fits && grant.None?)
              && (ap == 0 ==> live == old(live) && use == old(use))
              && (ap != 0 ==>
                    var use0 := if grew then Granted(old(use), grant.value, AtLeastCore(n)) else old(use);
                    && FreeRun(use0, ap - 1, n) && ap - 1 !in old(live)
                    && live == old(live)[ap - 1 := n] && use == Taken(use0, ap - 1, n))
      ensures ap != 0 ==> ap - 1 in live && JustHolds(live[ap - 1], nbytes) && BytesIn(use, ap - 1, nbytes)
    {
      hide Linked, Sorted, Partition, Taken, Granted, FreeRun, Seen, LinkAt, Next, HasFit, UnitsFor, AtLeastCore,
           Heap.OnList, JustHolds, BytesIn;
      var n := UnitsFor(nbytes);
      assert 0 < n by { UnitsPositive(nbytes); }
      UnitsHold(nbytes);
      FitsIffFree(blocks, live, use, n);
      var prevp := freep;
      if prevp == 0 {
        hdr := hdr[BASE := Header(BASE, 0)];
        freep := BASE;
        prevp := BASE;
        FirstLinked(hdr, blocks);
        NoUseNoLive(blocks, live, use);
        assert OnList(freep) by { OnListAt(0); }
      }
      ghost var f: nat := IndexOnList(freep);
      ghost var j: nat, wrapped := f, false;
      SeenNone(blocks, f, n);
      grew := false;
      NextOnList(hdr, blocks, j);
      var p := hdr[prevp].ptr;
      while true
        invariant Valid() && freep != 0 && live == old(live)
        invariant grew ==> grant.Some?
        invariant use == if grew then Granted(old(use), grant.value, AtLeastCore(n)) else old(use)
        invariant f < |blocks| && freep == blocks[f].start && j < |blocks| && prevp == blocks[j].start
        invariant p == Next(blocks, j) && Seen(blocks, f, j, wrapped, n) && (if wrapped then j < f else f <= j)
        invariant grew ==> !HasFit(old(blocks), n)
        invariant grew ==> HasFit(blocks, n)
        invariant !grew ==> blocks == old(blocks)
        decreases !grew, if wrapped then f - j else |blocks| - j + f + 1
      {
        ghost var i := NextIndex(blocks, j);
        NextIs(blocks, j);
        NextOnList(hdr, blocks, i);
        if hdr[p].size >= n {
          NotBase(blocks, i, n);
          ghost var before := use;
          ap := Carve(prevp, p, n, i);
          TakenHolds(before, ap - 1, n, nbytes);
          return;
        }
        if p == freep {
          SeenAll(blocks, f, j, wrapped, n);
          grew := grant.Some?;
          p := MoreCore(n, grant);
          if p == 0 {
            return 0, false;
          }
          GrantFits(blocks, live, use, old(use), grant.value, n);
          f := IndexOnList(freep);
          j, wrapped := f, false;
          SeenNone(blocks, f, n);
        } else {
          SeenMore(blocks, f, j, wrapped, n);
          wrapped := wrapped || i == 0;
          j := i;
        }
        NextOnList(hdr, blocks, j);
        prevp := p;
        p := hdr[p].ptr;
      }
    }

    ghost function IndexOnList(p: nat): (j: nat)
      requires OnList(p)
      reads this
      ensures j < |blocks| && blocks[j].start == p
    {
      var j: nat :| j < |blocks| && blocks[j].start == p;
      j
    }
  }

  lemma CarvedRun(blocks: seq<Run>, live: map<nat, nat>, use: Use, i: nat, n: nat)
    requires Partition(blocks, live, use) && i < |blocks| && n <= blocks[i].size
    ensures FreeRun(use, blocks[i].start + blocks[i].size - n, n)
  {
    forall u: nat | blocks[i].start <= u < blocks[i].start + blocks[i].size ensures InFree(blocks, u) {
      HasFree(blocks, i, u);
    }
  }

  lemma CarvedHdrIs(hdr: map<nat, Header>, prevp: nat, p: nat, n: nat)
    requires p in hdr && prevp in hdr && n <= hdr[p].size
    ensures CarvedHdr(hdr, prevp, p, n) ==
            if hdr[p].size == n then hdr[prevp := Header(hdr[p].ptr, hdr[prevp].size)]
            else SetSize(SetSize(hdr, p, hdr[p].size - n), p + (hdr[p].size - n), n)
  {
  }

  lemma CarvedKeeps(blocks: seq<Run>, i: nat, n: nat)
    requires 0 < i < |blocks| && n <= blocks[i].size
    ensures i - 1 < |Carved(blocks, i, n)| && Carved(blocks, i, n)[i - 1].start == blocks[i - 1].start
  {
  }

  lemma FirstLinked(hdr: map<nat, Header>, blocks: seq<Run>)
    requires blocks == [Run(BASE, 0)] && BASE in hdr && hdr[BASE] == Header(BASE, 0)
    ensures Linked(hdr, blocks)
  {
  }

  lemma NextOnList(hdr: map<nat, Header>, blocks: seq<Run>, i: nat)
    requires Sorted(blocks) && Linked(hdr, blocks) && i < |blocks|
    ensures blocks[i].start in hdr && hdr[blocks[i].start] == Header(Next(blocks, i), blocks[i].size)
  {
    NextLinked(hdr, blocks, i);
  }

  lemma NextIs(blocks: seq<Run>, j: nat)
    requires Sorted(blocks) && j < |blocks|
    ensures NextIndex(blocks, j) < |blocks| && Next(blocks, j) == blocks[NextIndex(blocks, j)].start
  {
  }

  lemma NotBase(blocks: seq<Run>, i: nat, n: nat)
    requires Sorted(blocks) && i < |blocks| && n <= blocks[i].size && 0 < n
    ensures 0 < i
  {
  }

  lemma SeenNone(blocks: seq<Run>, f: nat, n: nat)
    ensures Seen(blocks, f, f, false, n)
  {
  }

  lemma SeenMore(blocks: seq<Run>, f: nat, j: nat, wrapped: bool, n: nat)
    requires j < |blocks| && f < |blocks| && Seen(blocks, f, j, wrapped, n) && (if wrapped then j < f else f <= j)
    requires var i := NextIndex(blocks, j); blocks[i].size < n && i != f
    ensures var i := NextIndex(blocks, j); var w := wrapped || i == 0;
            Seen(blocks, f, i, w, n) && (if w then i < f else f <= i)
  {
  }

  /** Back at the start of the search, every block has been looked at. */
  lemma SeenAll(blocks: seq<Run>, f: nat, j: nat, wrapped: bool, n: nat)
    requires Sorted(blocks) && j < |blocks| && f < |blocks| && Seen(blocks, f, j, wrapped, n)
    requires if wrapped then j < f else f <= j
    requires var i := NextIndex(blocks, j); blocks[i].size < n && blocks[i].start == blocks[f].start
    ensures !HasFit(blocks, n)
  {
    Ascending(blocks, f, NextIndex(blocks, j));
  }

  lemma GrantFits(blocks: seq<Run>, live: map<nat, nat>, use: Use, use0: Use, a: nat, n: nat)
    requires Sorted(blocks) && Partition(blocks, live, use) && 0 < n
    requires use == Granted(use0, a, AtLeastCore(n)) && forall u :: u in use0 ==> u < a
    ensures HasFit(blocks, n)
  {
    assert FreeRun(use, a, n);
    FitsIffFree(blocks, live, use, n);
  }

  lemma UnitsPositive(nbytes: nat)
    ensures 0 < UnitsFor(nbytes)
  {
  }

  lemma NonNull(blocks: seq<Run>, i: nat)
    requires Sorted(blocks) && i < |blocks|
    ensures 0 < blocks[i].start
  {
    Ascending(blocks, 0, i);
  }

  lemma NoUseNoLive(blocks: seq<Run>, live: map<nat, nat>, use: Use)
    requires Partition(blocks, live, use) && use == map[]
    ensures live == map[]
  {
    assert forall a :: a in live ==> a in use;
  }

  lemma LiveNotEmpty(blocks: seq<Run>, live: map<nat, nat>, use: Use, a: nat)
    requires Partition(blocks, live, use) && a in live
    ensures use != map[]
  {
    assert a in use;
  }

  lemma FreedHdrIs(hdr: map<nat, Header>, p: nat, bp: nat)
    requires p in hdr && bp in hdr && hdr[p].ptr in hdr
    ensures var q := hdr[p].ptr;
            var hdr1 := if bp + hdr[bp].size == q then hdr[bp := Header(hdr[q].ptr, hdr[bp].size + hdr[q].size)]
                        else hdr[bp := Header(q, hdr[bp].size)];
            var h := FreedHdr(hdr, p, bp);
            && h == if p + hdr1[p].size == bp then hdr1[p := Header(hdr1[bp].ptr, hdr1[p].size + hdr1[bp].size)]
                    else hdr1[p := Header(bp, hdr1[p].size)]
  {
  }

  lemma FreedKeeps(blocks: seq<Run>, k: nat, r: Run)
    requires Fits(blocks, k, r)
    ensures k < |Freed(blocks, k, r)| && Freed(blocks, k, r)[k].start == blocks[k].start
  {
    FreedShape(blocks, k, r);
  }

  /** New memory is no block of the list. */
  lemma NotOnList(blocks: seq<Run>, live: map<nat, nat>, use: Use, a: nat)
    requires Sorted(blocks) && Partition(blocks, live, use) && BASE < a && forall u :: u in use ==> u < a
    ensures forall i :: 0 <= i < |blocks| ==> blocks[i].start != a
  {
    forall i | 0 <= i < |blocks| ensures blocks[i].start != a {
      HasFree(blocks, i, blocks[i].start);
      assert Row(blocks, i);
    }
  }

  lemma SetSizeLinked(hdr: map<nat, Header>, blocks: seq<Run>, a: nat, n: nat)
    requires Linked(hdr, blocks) && forall i :: 0 <= i < |blocks| ==> blocks[i].start != a
    ensures Linked(SetSize(hdr, a, n), blocks)
  {
    forall i: nat | i < |blocks| ensures LinkAt(SetSize(hdr, a, n), blocks, i) {
      assert LinkAt(hdr, blocks, i);
    }
  }
}
