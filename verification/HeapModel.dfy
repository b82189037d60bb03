/** The user-level heap as disjoint runs of units: what a free list and a set of live blocks stand for.
    A unit is sizeof(Header) bytes and addresses count units. */
module HeapModel {
  import opened Common

  datatype Header = Header(ptr: nat, size: nat)

  datatype Run = Run(start: nat, size: nat) {
    predicate Has(u: nat) { start <= u < start + size }
  }

  /** The address of the static header `base`, below the heap. */
  const BASE: nat := 1

  /** What each unit obtained from sbrk is used for: None if free, Some(a) in the live block at `a`. */
  type Use = map<nat, Option<nat>>

  // ----- The free list -----

  function Next(blocks: seq<Run>, i: nat): nat
    requires i < |blocks|
  {
    if i + 1 < |blocks| then blocks[i + 1].start else BASE
  }

  predicate LinkAt(hdr: map<nat, Header>, blocks: seq<Run>, i: nat)
    requires i < |blocks|
  {
    blocks[i].start in hdr && hdr[blocks[i].start] == Header(Next(blocks, i), blocks[i].size)
  }

  /** The headers form one cycle through the blocks. */
  ghost predicate Linked(hdr: map<nat, Header>, blocks: seq<Run>) {
    forall i: nat :: i < |blocks| ==> LinkAt(hdr, blocks, i)
  }

  predicate Touch(blocks: seq<Run>, i: nat) {
    i + 1 < |blocks| && blocks[i].start + blocks[i].size == blocks[i + 1].start
  }

  predicate Row(blocks: seq<Run>, i: nat)
    requires i < |blocks|
  {
    && (0 < i ==> 0 < blocks[i].size)
    && (i + 1 < |blocks| ==>
          blocks[i].start < blocks[i + 1].start && blocks[i].start + blocks[i].size <= blocks[i + 1].start)
  }

  /** In address order, starting at base. */
  ghost predicate Ordered(blocks: seq<Run>) {
    |blocks| > 0 && blocks[0] == Run(BASE, 0) && forall i: nat :: i < |blocks| ==> Row(blocks, i)
  }

  /** In address order, and no two blocks touch. */
  ghost predicate Sorted(blocks: seq<Run>) {
    Ordered(blocks) && forall i: nat :: !Touch(blocks, i)
  }

  lemma {:induction false} Apart(blocks: seq<Run>, i: nat, j: nat)
    requires Sorted(blocks) && i < j < |blocks|
    ensures blocks[i].start + blocks[i].size < blocks[j].start
    decreases j
  {
    assert Row(blocks, j - 1) && !Touch(blocks, j - 1);
    if i < j - 1 {
      Apart(blocks, i, j - 1);
    }
  }

  ghost predicate InFree(blocks: seq<Run>, u: nat) {
    exists i :: 0 <= i < |blocks| && blocks[i].Has(u)
  }

  /** `use` records exactly the free blocks and the live ones; so all of them are disjoint and every
      unit is in one. */
  ghost predicate Partition(blocks: seq<Run>, live: map<nat, nat>, use: Use) {
    && (forall u: nat :: InFree(blocks, u) ==> u in use && use[u] == None)
    && (forall u :: u in use && use[u] == None ==> InFree(blocks, u))
    && (forall a, u :: a in live && a <= u < a + live[a] ==> u in use && use[u] == Some(a))
    && (forall u :: u in use && use[u].Some? ==>
          use[u].value in live && use[u].value <= u < use[u].value + live[use[u].value])
    && (forall a :: a in live ==> 0 < live[a])
    && (forall u :: u in use ==> BASE < u)
  }

  // ----- What free, malloc and sbrk do to the use of units -----

  function Given(use: Use, a: nat): Use {
    map u | u in use :: if use[u] == Some(a) then None else use[u]
  }

  function Taken(use: Use, a: nat, n: nat): Use {
    map u | u in use :: if a <= u < a + n then Some(a) else use[u]
  }

  function Units(a: nat, n: nat): (s: set<nat>)
    ensures forall u :: u in s <==> a <= u < a + n
  {
    if n == 0 then {} else Units(a, n - 1) + {a + n - 1}
  }

  function Granted(use: Use, a: nat, n: nat): Use {
    map u | u in use.Keys + Units(a, n) :: if u in use then use[u] else None
  }

  // ----- Insertion and merging -----

  /** The last block that starts below `a`. */
  ghost predicate Below(blocks: seq<Run>, k: nat, a: nat) {
    k < |blocks| && blocks[k].start < a && (k + 1 < |blocks| ==> a < blocks[k + 1].start)
  }

  lemma {:induction false} Place(blocks: seq<Run>, a: nat) returns (k: nat)
    requires Sorted(blocks) && BASE < a && (forall i :: 0 <= i < |blocks| ==> blocks[i].start != a)
    ensures Below(blocks, k, a)
  {
    k := 0;
    while k + 1 < |blocks| && blocks[k + 1].start < a
      invariant k < |blocks| && blocks[k].start < a
    {
      k := k + 1;
    }
  }

  function Inserted(blocks: seq<Run>, k: nat, r: Run): seq<Run>
    requires k < |blocks|
  {
    blocks[..k + 1] + [r] + blocks[k + 1..]
  }

  function Merged(blocks: seq<Run>, i: nat): seq<Run>
    requires i + 1 < |blocks|
  {
    blocks[..i] + [Run(blocks[i].start, blocks[i].size + blocks[i + 1].size)] + blocks[i + 2..]
  }

  function Removed(blocks: seq<Run>, i: nat): seq<Run>
    requires i < |blocks|
  {
    blocks[..i] + blocks[i + 1..]
  }

  lemma InsertFree(blocks: seq<Run>, k: nat, r: Run, u: nat)
    requires k < |blocks|
    ensures InFree(Inserted(blocks, k, r), u) <==> InFree(blocks, u) || r.Has(u)
  {
    var bs := Inserted(blocks, k, r);
    assert bs[k + 1] == r;
    if InFree(blocks, u) {
      var i :| 0 <= i < |blocks| && blocks[i].Has(u);
      assert bs[if i <= k then i else i + 1] == blocks[i];
    }
    if InFree(bs, u) {
      var i :| 0 <= i < |bs| && bs[i].Has(u);
      assert i <= k ==> bs[i] == blocks[i];
      assert i > k + 1 ==> bs[i] == blocks[i - 1];
    }
  }

  lemma MergeFree(blocks: seq<Run>, k: nat, u: nat)
    requires Touch(blocks, k)
    ensures InFree(Merged(blocks, k), u) <==> InFree(blocks, u)
  {
    var bs := Merged(blocks, k);
    assert bs[k] == Run(blocks[k].start, blocks[k].size + blocks[k + 1].size);
    if InFree(blocks, u) {
      var i :| 0 <= i < |blocks| && blocks[i].Has(u);
      assert i < k ==> bs[i] == blocks[i];
      assert i > k + 1 ==> bs[i - 1] == blocks[i];
      assert i == k || i == k + 1 ==> bs[k].Has(u);
    }
    if InFree(bs, u) {
      var i :| 0 <= i < |bs| && bs[i].Has(u);
      assert i < k ==> bs[i] == blocks[i];
      assert i > k ==> bs[i] == blocks[i + 1];
      assert i == k ==> blocks[k].Has(u) || blocks[k + 1].Has(u);
    }
  }

  /** free's new list: the block goes after block `k` and is joined to its neighbours where they touch. */
  function Freed(blocks: seq<Run>, k: nat, r: Run): seq<Run>
    requires k < |blocks|
  {
    var bs := Inserted(blocks, k, r);
    var bs := if Touch(bs, k + 1) then Merged(bs, k + 1) else bs;
    if Touch(bs, k) then Merged(bs, k) else bs
  }

  lemma FreedFree(blocks: seq<Run>, k: nat, r: Run, u: nat)
    requires k < |blocks|
    ensures InFree(Freed(blocks, k, r), u) <==> InFree(blocks, u) || r.Has(u)
  {
    hide InFree, Inserted, Merged;
    assert |Inserted(blocks, k, r)| == |blocks| + 1 by { InsertedSize(blocks, k, r); }
    InsertFree(blocks, k, r, u);
    var bs := Inserted(blocks, k, r);
    if Touch(bs, k + 1) {
      MergeFree(bs, k + 1, u);
    }
    var cs := if Touch(bs, k + 1) then Merged(bs, k + 1) else bs;
    if Touch(cs, k) {
      MergeFree(cs, k, u);
    }
  }

  lemma InsertedSize(blocks: seq<Run>, k: nat, r: Run)
    requires k < |blocks|
    ensures |Inserted(blocks, k, r)| == |blocks| + 1
  {
  }

  /** The block lies between its neighbours, touching at most. */
  ghost predicate Fits(blocks: seq<Run>, k: nat, r: Run) {
    && Below(blocks, k, r.start) && 0 < r.size && BASE < r.start
    && blocks[k].start + blocks[k].size <= r.start
    && (k + 1 < |blocks| ==> r.start + r.size <= blocks[k + 1].start)
  }

  lemma InsertedOrdered(blocks: seq<Run>, k: nat, r: Run)
    requires Sorted(blocks) && Fits(blocks, k, r)
    ensures var bs := Inserted(blocks, k, r);
            && Ordered(bs) && |bs| == |blocks| + 1 && bs[k + 1] == r
            && (forall i: nat :: Touch(bs, i) ==> i == k || i == k + 1)
            && !Touch(bs, 0)
  {
    var bs := Inserted(blocks, k, r);
    forall i: nat | i < |bs| ensures Row(bs, i) && (Touch(bs, i) ==> i == k || i == k + 1) {
      var j := if i <= k then i else i - 1;
      assert Row(blocks, j) && !Touch(blocks, j);
      assert i != k + 1 ==> bs[i] == blocks[j];
      assert i + 1 < |bs| && i != k ==> bs[i + 1] == blocks[if i < k then i + 1 else i];
      assert bs[k + 1] == r;
    }
  }

  function Origin(i: nat, k: nat): nat { if i < k then i else i + 1 }

  /** Joining the touching blocks `k` and `k + 1` removes that place where two blocks touch and no other. */
  lemma MergedOrdered(blocks: seq<Run>, k: nat)
    requires Ordered(blocks) && Touch(blocks, k) && 0 < k
    ensures var bs := Merged(blocks, k);
            && Ordered(bs) && |bs| == |blocks| - 1
            && (forall i: nat :: Touch(bs, i) ==> Touch(blocks, Origin(i, k)))
  {
    var bs := Merged(blocks, k);
    forall i: nat | i < |bs| ensures Row(bs, i) {
      MergedRow(blocks, k, i);
    }
    forall i: nat | Touch(bs, i) ensures Touch(blocks, Origin(i, k)) {
      MergedRow(blocks, k, i);
    }
  }

  lemma MergedRow(blocks: seq<Run>, k: nat, i: nat)
    requires Ordered(blocks) && Touch(blocks, k) && 0 < k
    ensures var bs := Merged(blocks, k);
            && (i < |bs| ==> Row(bs, i))
            && (Touch(bs, i) ==> Touch(blocks, Origin(i, k)))
  {
    var bs := Merged(blocks, k);
    if i < |bs| {
      var j := if i < k then i else i + 1;
      assert Row(blocks, j) && Row(blocks, k) && Row(blocks, k + 1);
      assert i != k ==> bs[i] == blocks[j];
      assert bs[k] == Run(blocks[k].start, blocks[k].size + blocks[k + 1].size);
      assert i + 1 < |bs| && i + 1 != k ==> bs[i + 1] == blocks[j + 1];
    }
  }

  lemma FreedSorted(blocks: seq<Run>, k: nat, r: Run)
    requires Sorted(blocks) && Fits(blocks, k, r)
    ensures Sorted(Freed(blocks, k, r))
  {
    hide Ordered, Inserted, Merged;
    InsertedOrdered(blocks, k, r);
    var bs := Inserted(blocks, k, r);
    if Touch(bs, k + 1) {
      MergedOrdered(bs, k + 1);
    }
    var cs := if Touch(bs, k + 1) then Merged(bs, k + 1) else bs;
    if Touch(cs, k) {
      assert k < k + 1;
      MergedOrdered(cs, k);
    }
  }

  // ----- The partition through an operation -----

  lemma HasFree(blocks: seq<Run>, i: nat, u: nat)
    requires i < |blocks|
    ensures blocks[i].Has(u) ==> InFree(blocks, u)
  {
  }

  lemma FitsIn(blocks: seq<Run>, live: map<nat, nat>, use: Use, k: nat, a: nat)
    requires Sorted(blocks) && Partition(blocks, live, use) && a in live && Below(blocks, k, a)
    ensures Fits(blocks, k, Run(a, live[a]))
  {
    HasFree(blocks, k, a);
    assert use[a] == Some(a);
    if k + 1 < |blocks| {
      HasFree(blocks, k + 1, blocks[k + 1].start);
      assert Row(blocks, k + 1);
    }
  }

  lemma NotAStart(blocks: seq<Run>, live: map<nat, nat>, use: Use, a: nat)
    requires Sorted(blocks) && Partition(blocks, live, use) && a in live
    ensures BASE < a && forall i :: 0 <= i < |blocks| ==> blocks[i].start != a
  {
    assert use[a] == Some(a);
    forall i | 0 <= i < |blocks| ensures blocks[i].start != a {
      HasFree(blocks, i, blocks[i].start);
      assert Row(blocks, i);
    }
  }

  lemma FreedPartition(blocks: seq<Run>, live: map<nat, nat>, use: Use, k: nat, a: nat)
    requires Sorted(blocks) && Partition(blocks, live, use) && a in live && Below(blocks, k, a)
    ensures Partition(Freed(blocks, k, Run(a, live[a])), live - {a}, Given(use, a))
  {
    hide Sorted, InFree, Freed;
    var r := Run(a, live[a]);
    var bs := Freed(blocks, k, r);
    forall u: nat ensures InFree(bs, u) <==> InFree(blocks, u) || r.Has(u) {
      FreedFree(blocks, k, r, u);
    }
    forall b, u | b in live && b != a && b <= u < b + live[b] ensures u in use && use[u] == Some(b) {}
  }

  // ----- A maximal run of free units is a block -----

  /** `n` consecutive units from `a` are all free. */
  ghost predicate FreeRun(use: Use, a: nat, n: nat) {
    forall u :: a <= u < a + n ==> u in use && use[u] == None
  }

  lemma {:induction false} RunInBlock(blocks: seq<Run>, live: map<nat, nat>, use: Use, a: nat, n: nat)
    returns (i: nat)
    requires Sorted(blocks) && Partition(blocks, live, use) && FreeRun(use, a, n) && 0 < n
    ensures i < |blocks| && blocks[i].start <= a && a + n <= blocks[i].start + blocks[i].size
    decreases n
  {
    if n == 1 {
      assert use[a] == None;
      assert InFree(blocks, a);
      i :| 0 <= i < |blocks| && blocks[i].Has(a);
    } else {
      i := RunInBlock(blocks, live, use, a, n - 1);
      var u := a + n - 1;
      assert use[u] == None;
      assert InFree(blocks, u);
      var j :| 0 <= j < |blocks| && blocks[j].Has(u);
      assert blocks[i].Has(u - 1);
      if i < j {
        Apart(blocks, i, j);
      } else if j < i {
        Apart(blocks, j, i);
      }
    }
  }

  ghost predicate HasFit(blocks: seq<Run>, n: nat) {
    exists i :: 0 <= i < |blocks| && n <= blocks[i].size
  }

  /** Some block is large enough exactly when so many consecutive units are free: coalescing loses none. */
  lemma FitsIffFree(blocks: seq<Run>, live: map<nat, nat>, use: Use, n: nat)
    requires Sorted(blocks) && Partition(blocks, live, use) && 0 < n
    ensures HasFit(blocks, n) <==> (exists a: nat :: FreeRun(use, a, n))
  {
    if HasFit(blocks, n) {
      var i :| 0 <= i < |blocks| && n <= blocks[i].size;
      var a := blocks[i].start;
      forall u: nat | a <= u < a + n ensures u in use && use[u] == None {
        assert blocks[i].Has(u);
        assert InFree(blocks, u);
      }
      assert FreeRun(use, a, n);
    }
    if exists a: nat :: FreeRun(use, a, n) {
      var a: nat :| FreeRun(use, a, n);
      var i := RunInBlock(blocks, live, use, a, n);
      assert n <= blocks[i].size;
    }
  }

  // ----- Taking a block -----

  function Shrunk(blocks: seq<Run>, i: nat, n: nat): seq<Run>
    requires i < |blocks| && n < blocks[i].size
  {
    blocks[i := Run(blocks[i].start, blocks[i].size - n)]
  }

  /** malloc's new list: the last `n` units of block `i` go, and the block with them if it is used up. */
  function Carved(blocks: seq<Run>, i: nat, n: nat): seq<Run>
    requires i < |blocks| && n <= blocks[i].size
  {
    if n == blocks[i].size then Removed(blocks, i) else Shrunk(blocks, i, n)
  }

  lemma CarvedSorted(blocks: seq<Run>, i: nat, n: nat)
    requires Sorted(blocks) && 0 < i < |blocks| && 0 < n <= blocks[i].size
    ensures Sorted(Carved(blocks, i, n))
  {
    var bs := Carved(blocks, i, n);
    forall j: nat | j < |bs| ensures Row(bs, j) && !Touch(bs, j) {
      var k := if n == blocks[i].size && i <= j then j + 1 else j;
      assert Row(blocks, k) && !Touch(blocks, k);
      assert Row(blocks, i) && Row(blocks, i - 1) && !Touch(blocks, i) && !Touch(blocks, i - 1);
      if n == blocks[i].size {
        assert bs[j] == blocks[k];
        assert j + 1 < |bs| ==> bs[j + 1] == blocks[if j + 1 < i then j + 1 else j + 2];
      }
    }
  }

  lemma CarvedFree(blocks: seq<Run>, i: nat, n: nat, u: nat)
    requires Sorted(blocks) && 0 < i < |blocks| && 0 < n <= blocks[i].size
    ensures var a := blocks[i].start + blocks[i].size - n;
            InFree(Carved(blocks, i, n), u) <==> InFree(blocks, u) && !(a <= u < a + n)
  {
    if n == blocks[i].size {
      RemovedFree(blocks, i, u);
    } else {
      ShrunkFree(blocks, i, n, u);
    }
  }

  /** A unit of another block is not one of block `i`. */
  lemma Elsewhere(blocks: seq<Run>, i: nat, j: nat, u: nat)
    requires Sorted(blocks) && i < |blocks| && j < |blocks| && i != j && blocks[j].Has(u)
    ensures !blocks[i].Has(u)
  {
    if i < j {
      Apart(blocks, i, j);
    } else {
      Apart(blocks, j, i);
    }
  }

  lemma RemovedFree(blocks: seq<Run>, i: nat, u: nat)
    requires Sorted(blocks) && i < |blocks|
    ensures InFree(Removed(blocks, i), u) <==> InFree(blocks, u) && !blocks[i].Has(u)
  {
    var bs := Removed(blocks, i);
    if InFree(blocks, u) && !blocks[i].Has(u) {
      var j :| 0 <= j < |blocks| && blocks[j].Has(u);
      assert bs[if j < i then j else j - 1] == blocks[j];
    }
    if InFree(bs, u) {
      var j :| 0 <= j < |bs| && bs[j].Has(u);
      var k := if j < i then j else j + 1;
      assert bs[j] == blocks[k];
      Elsewhere(blocks, i, k, u);
    }
  }

  lemma ShrunkFree(blocks: seq<Run>, i: nat, n: nat, u: nat)
    requires Sorted(blocks) && i < |blocks| && n < blocks[i].size
    ensures var a := blocks[i].start + blocks[i].size - n;
            InFree(Shrunk(blocks, i, n), u) <==> InFree(blocks, u) && !(a <= u < a + n)
  {
    var bs := Shrunk(blocks, i, n);
    var a := blocks[i].start + blocks[i].size - n;
    if InFree(blocks, u) && !(a <= u < a + n) {
      var j :| 0 <= j < |blocks| && blocks[j].Has(u);
      assert bs[j].Has(u);
    }
    if InFree(bs, u) {
      var j :| 0 <= j < |bs| && bs[j].Has(u);
      assert blocks[j].Has(u);
      if j != i {
        Elsewhere(blocks, i, j, u);
      }
    }
  }

  lemma CarvedPartition(blocks: seq<Run>, live: map<nat, nat>, use: Use, i: nat, n: nat)
    requires Sorted(blocks) && Partition(blocks, live, use) && 0 < i < |blocks| && 0 < n <= blocks[i].size
    ensures var a := blocks[i].start + blocks[i].size - n;
            a !in live && Partition(Carved(blocks, i, n), live[a := n], Taken(use, a, n))
  {
    hide InFree, Carved, Partition, Taken;
    var a := blocks[i].start + blocks[i].size - n;
    var bs := Carved(blocks, i, n);
    forall u: nat | a <= u < a + n ensures u in use && use[u] == None {
      assert InFree(blocks, u) by { HasFree(blocks, i, u); }
      FreeUse(blocks, live, use, u);
    }
    forall u: nat ensures InFree(bs, u) <==> InFree(blocks, u) && !(a <= u < a + n) {
      CarvedFree(blocks, i, n, u);
    }
    TakenPartition(blocks, bs, live, use, a, n);
  }

  lemma FreeUse(blocks: seq<Run>, live: map<nat, nat>, use: Use, u: nat)
    requires Partition(blocks, live, use) && InFree(blocks, u)
    ensures u in use && use[u] == None
  {
  }

  /** Free units become a live block. */
  lemma TakenPartition(blocks: seq<Run>, bs: seq<Run>, live: map<nat, nat>, use: Use, a: nat, n: nat)
    requires Partition(blocks, live, use) && 0 < n
    requires forall u: nat :: a <= u < a + n ==> u in use && use[u] == None
    requires forall u: nat :: InFree(bs, u) <==> InFree(blocks, u) && !(a <= u < a + n)
    ensures a !in live && Partition(bs, live[a := n], Taken(use, a, n))
  {
    hide InFree;
    assert use[a] == None;
    var live1, use1 := live[a := n], Taken(use, a, n);
    forall b, u | b in live1 && b <= u < b + live1[b] ensures u in use1 && use1[u] == Some(b) {
      assert b != a ==> use[u] == Some(b);
    }
  }

  // ----- New memory -----

  lemma GrantTaken(use: Use, a: nat, n: nat)
    requires forall u :: u in use ==> u < a && use[u] != Some(a)
    ensures var use1 := Taken(Granted(use, a, n), a, n);
            && (forall u :: u in use1 <==> u in use || a <= u < a + n)
            && (forall u :: u in use1 ==> use1[u] == if u < a then use[u] else Some(a))
    ensures Given(Taken(Granted(use, a, n), a, n), a) == Granted(use, a, n)
  {
  }

  lemma GrantedPartition(blocks: seq<Run>, live: map<nat, nat>, use: Use, a: nat, n: nat)
    requires Partition(blocks, live, use) && 0 < n && BASE < a && forall u :: u in use ==> u < a
    ensures a !in live
    ensures Partition(blocks, live[a := n], Taken(Granted(use, a, n), a, n))
    ensures Given(Taken(Granted(use, a, n), a, n), a) == Granted(use, a, n)
  {
    hide InFree, Taken, Granted, Given;
    assert a !in live by {
      assert a in live ==> a in use;
    }
    GrantTaken(use, a, n);
    var live1, use1 := live[a := n], Taken(Granted(use, a, n), a, n);
    forall b, u | b in live1 && b <= u < b + live1[b] ensures u in use1 && use1[u] == Some(b) {
      assert b != a ==> u in use && use[u] == Some(b);
    }
  }
}
