/** What operations on page tables do to memory, the free list and the flat page maps, stated on
    snapshots, with the lemmas that compose them. */
module VmSnap {
  import opened VmTree

  // ----- Addresses -----

  /** User addresses: above 2^47 the index macros alias. */
  const USERTOP: nat := NPAGES * PGSIZE

  const KERNBASE: nat := 0xFFFF_8000_0000_0000

  function PMX(va: nat): nat { va / 0x80_0000_0000 % 512 }
  function PDPX(va: nat): nat { va / 0x4000_0000 % 512 }
  function PDX(va: nat): nat { va / 0x20_0000 % 512 }
  function PTX(va: nat): nat { va / 0x1000 % 512 }

  /** The least multiple of the page size that is not below `a`. */
  function RoundUp(a: nat): (b: nat)
    ensures b % PGSIZE == 0 && a <= b < a + PGSIZE
  {
    (a + PGSIZE - 1) / PGSIZE * PGSIZE
  }

  /** The index macros spell the page number of an address. */
  lemma IndexSpell(va: nat)
    requires va < USERTOP
    ensures var v := va / PGSIZE;
            && v < NPAGES && PMX(va) < 256
            && PMX(va) * 512 + PDPX(va) == v / 512 / 512
            && v / 512 / 512 * 512 + PDX(va) == v / 512
            && PTX(va) == v % 512
  {
  }

  // ----- Snapshots -----

  /** Memory, free list (head first) and the nodes of all trees. */
  datatype Snap = Snap(mem: seq<Frame>, free: seq<nat>, node: map<nat, Node>, at: map<Node, nat>)

  ghost predicate FreeOk(r: Range, s: Snap) {
    && (forall k :: 0 <= k < |s.free| ==> IsFrame(r, s.free[k]) && s.free[k] !in s.node)
    && (forall j, k :: 0 <= j < k < |s.free| ==> s.free[j] != s.free[k])
  }

  ghost predicate Ok(r: Range, s: Snap) {
    0 < r.lo && r.hi <= |s.mem| && Forest(r, s.mem, s.node, s.at, {}) && FreeOk(r, s)
  }

  ghost function FreeSet(s: Snap): set<nat> { set f | f in s.free }

  /** The frames that the allocator and the trees account for. */
  ghost function Frames(s: Snap): set<nat> { FreeSet(s) + s.node.Keys }

  ghost function Pte(s: Snap, root: nat, v: nat): nat { PteOf(s.mem, s.at, root, v) }

  ghost predicate SameMap(s: Snap, s': Snap) {
    forall root, v :: Pte(s', root, v) == Pte(s, root, v)
  }

  /** Page tables may have been added; no translation, no user page and no frame outside the
      allocator and the trees has changed, and no frame is lost. */
  ghost predicate Grew(s: Snap, s': Snap) {
    && |s'.mem| == |s.mem|
    && (forall f :: f in s.node ==> f in s'.node && s'.node[f] == s.node[f])
    && (forall f :: f in s'.node && f !in s.node ==> s'.node[f].level >= 1)
    && (forall f :: f in s.node && s.node[f].level == 0 && f < |s.mem| ==> s'.mem[f] == s.mem[f])
    && (forall f: nat :: f !in Frames(s) && f < |s.mem| ==> s'.mem[f] == s.mem[f])
    && Frames(s') == Frames(s)
    && SameMap(s, s')
  }

  lemma GrewTrans(a: Snap, b: Snap, c: Snap)
    requires Grew(a, b) && Grew(b, c)
    ensures Grew(a, c)
  {
    hide Frames, Pte;
    forall root, v ensures Pte(c, root, v) == Pte(a, root, v) {
      assert Pte(b, root, v) == Pte(a, root, v);
    }
  }

  /** What looking one level down from entry `i` of table `t` does, returning table `c` or 0. */
  ghost predicate Stepped(s: Snap, s': Snap, t: nat, i: nat, alloc: bool, c: nat) {
    && Grew(s, s')
    && t in s.node && s.node[t].level >= 1
    && (c == 0 ==> s' == s && Child(s.node[t], i) !in s.at && (alloc ==> s.free == []))
    && (c != 0 ==> c in s'.node && s'.node[c] == Child(s.node[t], i))
    && (!alloc ==> s' == s)
    && (Child(s.node[t], i) in s.at ==> s' == s)
  }

  /** What a walk to the page table of page `v` does, returning table `t` or 0. */
  ghost predicate Walked(s: Snap, s': Snap, root: nat, v: nat, alloc: bool, t: nat) {
    && Grew(s, s')
    && (t != 0 ==> t in s'.node && s'.node[t] == Node(root, 1, v / 512))
    && (t == 0 ==> Node(root, 1, v / 512) !in s'.at && (alloc ==> s'.free == []))
    && (!alloc ==> s' == s)
    && (Node(root, 1, v / 512) in s.at ==> s' == s)
  }

  /** From `s` to `s'`, pages `v0 .. v0 + k` of `root` have been mapped to frames `f0 .. f0 + k`, which
      belonged to nobody; no other translation, no user byte and no other stray frame has changed. */
  ghost predicate Mapped(s: Snap, s': Snap, root: nat, v0: nat, f0: nat, k: nat, perm: nat)
    requires perm < PGSIZE
  {
    && |s'.mem| == |s.mem|
    && (forall f :: f in s.node ==> f in s'.node && s'.node[f] == s.node[f])
    && (forall f :: f in s.node && s.node[f].level == 0 && f < |s.mem| ==> s'.mem[f] == s.mem[f])
    && (forall f: nat :: f !in Frames(s) && f < |s.mem| ==> s'.mem[f] == s.mem[f])
    && Frames(s') == Frames(s) + Run(f0, k)
    && (forall f :: f in s'.node && s'.node[f].level == 0 && f !in s.node ==> f0 <= f < f0 + k)
    && (forall f: nat :: f0 <= f < f0 + k ==> f in s'.node && s'.node[f] == Node(root, 0, v0 + f - f0))
    && (forall x: nat, v: nat :: Pte(s', x, v) ==
          if x == root && v0 <= v < v0 + k then Entry(f0 + v - v0, perm) else Pte(s, x, v))
  }

  ghost function Run(f0: nat, k: nat): set<nat> {
    if k == 0 then {} else Run(f0, k - 1) + {f0 + k - 1}
  }

  /** From `s` to `s'`, the pages `lo .. hi` of `root` that were mapped have been unmapped and their
      frames freed; nothing else that is mapped or stray has changed, and no frame is lost. */
  ghost predicate Unmapped(s: Snap, s': Snap, root: nat, lo: nat, hi: nat) {
    && |s'.mem| == |s.mem|
    && (forall f :: f in s'.node <==> f in s.node && !Within(s.node[f], root, lo, hi))
    && (forall f :: f in s'.node ==> s'.node[f] == s.node[f])
    && (forall f :: f in s'.node && s'.node[f].level == 0 && f < |s.mem| ==> s'.mem[f] == s.mem[f])
    && (forall f: nat :: f !in Frames(s) && f < |s.mem| ==> s'.mem[f] == s.mem[f])
    && Frames(s') == Frames(s)
    && (forall x: nat, v: nat :: Pte(s', x, v) == if x == root && lo <= v < hi then 0 else Pte(s, x, v))
  }

  /** From `s` to `s'`, pages `lo .. hi` of `root` have been mapped writable to frames taken from the
      free list and zeroed; nothing else that is mapped or stray has changed, and no frame is lost. */
  ghost predicate Alloced(s: Snap, s': Snap, root: nat, lo: nat, hi: nat) {
    && |s'.mem| == |s.mem|
    && (forall f :: f in s.node ==> f in s'.node && s'.node[f] == s.node[f])
    && (forall f :: f in s'.node && s'.node[f].level == 0 && f !in s.node ==> Within(s'.node[f], root, lo, hi))
    && (forall f :: f in s.node && s.node[f].level == 0 && f < |s.mem| ==> s'.mem[f] == s.mem[f])
    && (forall f: nat :: f !in Frames(s) && f < |s.mem| ==> s'.mem[f] == s.mem[f])
    && Frames(s') == Frames(s)
    && (forall x: nat, v: nat :: !(x == root && lo <= v < hi) ==> Pte(s', x, v) == Pte(s, x, v))
    && (forall v: nat :: lo <= v < hi ==> FreshPage(s, s', root, v))
  }

  ghost predicate FreshPage(s: Snap, s': Snap, root: nat, v: nat) {
    var n := Node(root, 0, v);
    n in s'.at &&
    var f := s'.at[n];
    && Pte(s', root, v) == Entry(f, PTE_W + PTE_U)
    && f !in s.node && f in FreeSet(s) && f in s'.node && s'.node[f] == n
    && f < |s'.mem| && s'.mem[f] == ZeroPage()
  }

  predicate Within(n: Node, root: nat, lo: nat, hi: nat) {
    n.level == 0 && n.root == root && lo <= n.prefix < hi
  }

  ghost predicate IsRoot(s: Snap, root: nat) {
    root in s.node && s.node[root] == Node(root, 4, 0)
  }

  /** Frame `f` comes off the head of the free list and is filled with `x`. */
  ghost predicate Taken(s: Snap, s1: Snap, f: nat, x: Frame) {
    && s.free != [] && f == s.free[0] && f < |s.mem|
    && s1 == s.(free := s.free[1..], mem := s.mem[f := x])
  }

  lemma TakenOk(r: Range, s: Snap, s1: Snap, f: nat, x: Frame)
    requires Ok(r, s) && Taken(s, s1, f, x)
    ensures Ok(r, s1) && SameMap(s, s1)
    ensures IsFrame(r, f) && f !in s.node && f !in Frames(s1) && Frames(s1) + {f} == Frames(s) && f in FreeSet(s)
    ensures s1.mem[f] == x
  {
    hide Forest, PteOf;
    assert s.free == [f] + s.free[1..];
    var s' := s.(free := s.free[1..]);
    assert Ok(r, s');
    Blank(r, s', f, x);
    forall root, v ensures Pte(s1, root, v) == Pte(s, root, v) {
      assert Pte(s', root, v) == Pte(s, root, v);
    }
  }

  lemma StillFree(s0: Snap, s: Snap, root: nat, lo: nat, v: nat)
    requires Alloced(s0, s, root, lo, v)
    ensures Pte(s, root, v) == Pte(s0, root, v)
  {
    hide Pte;
  }

  /** A frame in use before the range was touched is not in the range. */
  lemma NotWithin(r: Range, s0: Snap, root: nat, lo: nat, hi: nat, f: nat)
    requires Ok(r, s0) && f in s0.node
    requires forall w: nat :: lo <= w < hi ==> Pte(s0, root, w) == 0
    ensures !Within(s0.node[f], root, lo, hi)
  {
    hide UpOk, DownOk, PteOf, NodeOk;
    PteNode(r, s0.mem, s0.node, s0.at, s0.node[f].root, s0.node[f].prefix);
    InverseAt(r, s0.mem, s0.node, s0.at, {}, f);
    assert s0.node[f].level == 0 ==> Pte(s0, s0.node[f].root, s0.node[f].prefix) != 0;
  }

  /** Unmapping the range after allocating part of it restores every translation. */
  lemma UndoAlloc(r: Range, s0: Snap, s: Snap, s': Snap, root: nat, lo: nat, v: nat, hi: nat)
    requires Ok(r, s0) && lo <= v <= hi && Alloced(s0, s, root, lo, v) && Unmapped(s, s', root, lo, hi)
    requires forall w: nat :: lo <= w < hi ==> Pte(s0, root, w) == 0
    ensures Grew(s0, s')
  {
    hide Pte, Frames, Ok, FreshPage;
    forall f | f in s0.node ensures f in s'.node && s'.node[f] == s0.node[f] {
      NotWithin(r, s0, root, lo, hi, f);
    }
    forall x: nat, w: nat ensures Pte(s', x, w) == Pte(s0, x, w) {
      assert !(x == root && lo <= w < hi) ==> Pte(s, x, w) == Pte(s0, x, w);
    }
  }

  lemma TakenStillOut(r: Range, s: Snap, s1: Snap, s2: Snap, s3: Snap, root: nat, v: nat, f: nat, lo: nat, hi: nat)
    requires Ok(r, s) && Taken(s, s1, f, ZeroPage())
    requires Mapped(s1, s2, root, v, f, 0, PTE_W + PTE_U) && Unmapped(s2, s3, root, lo, hi)
    ensures f !in Frames(s3) && IsFrame(r, f)
  {
    hide Pte, Ok;
    TakenOk(r, s, s1, f, ZeroPage());
    assert Run(f, 0) == {};
  }

  lemma GiveBack(r: Range, s3: Snap, s4: Snap, f: nat)
    requires Ok(r, s3) && f !in Frames(s3) && IsFrame(r, f) && f < |s3.mem|
    requires s4 == s3.(free := [f] + s3.free, mem := s3.mem[f := Junk])
    ensures Ok(r, s4) && SameMap(s3, s4) && Frames(s4) == Frames(s3) + {f}
  {
    hide Forest, PteOf;
    Blank(r, s3, f, Junk);
    var s' := s3.(mem := s3.mem[f := Junk]);
    forall root, v ensures Pte(s4, root, v) == Pte(s3, root, v) {
      assert Pte(s', root, v) == Pte(s3, root, v);
    }
  }

  /** The same when a frame was taken but could not be mapped, and is given back at the end. */
  lemma UndoTaken(r: Range, s0: Snap, s: Snap, s1: Snap, s2: Snap, s3: Snap, s4: Snap,
                  root: nat, lo: nat, v: nat, hi: nat, f: nat)
    requires Ok(r, s0) && Ok(r, s) && lo <= v <= hi && Alloced(s0, s, root, lo, v) && Taken(s, s1, f, ZeroPage())
    requires Mapped(s1, s2, root, v, f, 0, PTE_W + PTE_U) && Unmapped(s2, s3, root, lo, hi)
    requires f < |s3.mem| && s4 == s3.(free := [f] + s3.free, mem := s3.mem[f := Junk])
    requires SameMap(s3, s4) && Frames(s4) == Frames(s3) + {f}
    requires forall w: nat :: lo <= w < hi ==> Pte(s0, root, w) == 0
    ensures Grew(s0, s4)
  {
    hide Pte, Ok, FreshPage, Entry, Frames, Alloced, Mapped, Unmapped;
    TakenOk(r, s, s1, f, ZeroPage());
    assert Run(f, 0) == {};
    UndoTakenMem(s0, s, s1, s2, s3, s4, root, lo, v, hi, f);
    forall g | g in s0.node ensures g in s4.node && s4.node[g] == s0.node[g] {
      NotWithin(r, s0, root, lo, hi, g);
      UndoTakenNode(s0, s, s1, s2, s3, root, lo, v, hi, f, g);
    }
    forall g | g in s4.node && g !in s0.node ensures s4.node[g].level >= 1 {
      UndoTakenNode(s0, s, s1, s2, s3, root, lo, v, hi, f, g);
    }
    forall x: nat, w: nat ensures Pte(s4, x, w) == Pte(s0, x, w) {
      UndoTakenPte(s0, s, s1, s2, s3, s4, root, lo, v, hi, f, x, w);
    }
  }

  lemma UndoTakenNode(s0: Snap, s: Snap, s1: Snap, s2: Snap, s3: Snap,
                      root: nat, lo: nat, v: nat, hi: nat, f: nat, g: nat)
    requires lo <= v <= hi && Alloced(s0, s, root, lo, v) && Taken(s, s1, f, ZeroPage())
    requires Mapped(s1, s2, root, v, f, 0, PTE_W + PTE_U) && Unmapped(s2, s3, root, lo, hi)
    ensures g in s0.node && !Within(s0.node[g], root, lo, hi) ==> g in s3.node && s3.node[g] == s0.node[g]
    ensures g in s3.node && g !in s0.node ==> s3.node[g].level >= 1
  {
    hide Pte, Frames, FreshPage, Entry;
  }

  lemma UndoTakenMem(s0: Snap, s: Snap, s1: Snap, s2: Snap, s3: Snap, s4: Snap,
                     root: nat, lo: nat, v: nat, hi: nat, f: nat)
    requires Alloced(s0, s, root, lo, v) && Taken(s, s1, f, ZeroPage()) && f !in s.node
    requires Mapped(s1, s2, root, v, f, 0, PTE_W + PTE_U) && Unmapped(s2, s3, root, lo, hi)
    requires f < |s3.mem| && s4 == s3.(free := [f] + s3.free, mem := s3.mem[f := Junk])
    requires Frames(s1) + {f} == Frames(s) && Frames(s4) == Frames(s3) + {f} && Run(f, 0) == {}
    ensures |s4.mem| == |s0.mem| && Frames(s4) == Frames(s0)
    ensures forall g :: g in s0.node && s0.node[g].level == 0 && g < |s0.mem| && g in s3.node ==> s4.mem[g] == s0.mem[g]
    ensures forall g: nat :: g !in Frames(s0) && g < |s0.mem| ==> s4.mem[g] == s0.mem[g]
  {
    hide Pte, Frames, FreshPage, Entry;
  }

  lemma UndoTakenPte(s0: Snap, s: Snap, s1: Snap, s2: Snap, s3: Snap, s4: Snap,
                     root: nat, lo: nat, v: nat, hi: nat, f: nat, x: nat, w: nat)
    requires lo <= v <= hi && Alloced(s0, s, root, lo, v) && SameMap(s, s1)
    requires Mapped(s1, s2, root, v, f, 0, PTE_W + PTE_U) && Unmapped(s2, s3, root, lo, hi) && SameMap(s3, s4)
    requires forall w: nat :: lo <= w < hi ==> Pte(s0, root, w) == 0
    ensures Pte(s4, x, w) == Pte(s0, x, w)
  {
    hide Pte, Frames, FreshPage, Entry;
    assert Pte(s1, x, w) == Pte(s, x, w);
  }

  lemma TakenMapped(r: Range, s: Snap, s1: Snap, s2: Snap, root: nat, v: nat, f: nat)
    requires Ok(r, s) && Ok(r, s2) && Taken(s, s1, f, ZeroPage()) && Mapped(s1, s2, root, v, f, 1, PTE_W + PTE_U)
    ensures Alloced(s, s2, root, v, v + 1)
  {
    hide Pte, Entry, Ok;
    TakenOk(r, s, s1, f, ZeroPage());
    assert Run(f, 1) == Run(f, 0) + {f} == {f};
    forall x: nat, w: nat | !(x == root && v <= w < v + 1) ensures Pte(s2, x, w) == Pte(s, x, w) {
      assert Pte(s1, x, w) == Pte(s, x, w);
    }
    assert s2.node[f] == Node(root, 0, v);
    NodeAt(r, s2, f);
    assert Pte(s2, root, v) == Entry(f + v - v, PTE_W + PTE_U);
  }

  lemma NodeAt(r: Range, s: Snap, f: nat)
    requires Ok(r, s) && f in s.node
    ensures s.node[f] in s.at && s.at[s.node[f]] == f
  {
  }

  function PagesUpTo(a: nat): (n: nat)
    ensures (n - 1) * PGSIZE < a <= n * PGSIZE
  {
    (a + PGSIZE - 1) / PGSIZE
  }

  lemma AllocedNone(s: Snap, root: nat, lo: nat)
    ensures Alloced(s, s, root, lo, lo)
  {
  }

  lemma AllocedNoneGrew(s: Snap, s': Snap, root: nat, lo: nat)
    requires Alloced(s, s', root, lo, lo)
    ensures Grew(s, s')
  {
    hide Pte, Frames;
  }

  lemma AllocedMore(r: Range, a: Snap, b: Snap, c: Snap, root: nat, lo: nat, v: nat)
    requires Ok(r, c) && lo <= v && Alloced(a, b, root, lo, v) && Alloced(b, c, root, v, v + 1)
    ensures Alloced(a, c, root, lo, v + 1)
  {
    hide Pte, Ok, FreshPage;
    forall w: nat | lo <= w < v + 1 ensures FreshPage(a, c, root, w) {
      if w < v {
        FreshEarlier(r, a, b, c, root, v, w);
      } else {
        FreshLater(a, b, c, root, lo, v);
      }
    }
    forall x: nat, w: nat | !(x == root && lo <= w < v + 1) ensures Pte(c, x, w) == Pte(a, x, w) {
      assert Pte(b, x, w) == Pte(a, x, w);
    }
  }

  lemma FreshEarlier(r: Range, a: Snap, b: Snap, c: Snap, root: nat, v: nat, w: nat)
    requires Ok(r, c) && FreshPage(a, b, root, w) && w < v && Alloced(b, c, root, v, v + 1)
    ensures FreshPage(a, c, root, w)
  {
    hide Pte, Ok, Frames;
    NodeAt(r, c, b.at[Node(root, 0, w)]);
  }

  lemma FreshLater(a: Snap, b: Snap, c: Snap, root: nat, lo: nat, v: nat)
    requires Alloced(a, b, root, lo, v) && FreshPage(b, c, root, v)
    ensures FreshPage(a, c, root, v)
  {
    hide Pte;
    assert c.at[Node(root, 0, v)] in Frames(b);
  }

  lemma UnmappedNone(s: Snap, root: nat, lo: nat)
    ensures Unmapped(s, s, root, lo, lo)
  {
  }

  lemma UnmappedMore(a: Snap, b: Snap, c: Snap, root: nat, lo: nat, v: nat)
    requires lo <= v && Unmapped(a, b, root, lo, v) && Unmapped(b, c, root, v, v + 1)
    ensures Unmapped(a, c, root, lo, v + 1)
  {
    hide Frames, Pte;
    forall x: nat, w: nat ensures Pte(c, x, w) == if x == root && lo <= w < v + 1 then 0 else Pte(a, x, w) {
      assert Pte(b, x, w) == if x == root && lo <= w < v then 0 else Pte(a, x, w);
    }
  }

  lemma NoTable(r: Range, s: Snap, root: nat, v: nat)
    ensures Node(root, 1, v / 512) !in s.at ==> Pte(s, root, v) == 0
  {
  }

  lemma NoPage(r: Range, s: Snap, root: nat, v: nat)
    requires Ok(r, s) && Pte(s, root, v) == 0
    ensures Unmapped(s, s, root, v, v + 1)
  {
    hide UpOk, DownOk, NodeOk, FreeOk, PteOf;
    PteNode(r, s.mem, s.node, s.at, root, v);
  }

  /** A present entry of a page table points to a page. */
  lemma PageFrame(r: Range, s: Snap, root: nat, v: nat, t: nat)
    requires t in s.node && s.node[t] == Node(root, 1, v / 512) && IsTable(s.mem, t)
    requires Present(s.mem[t].e[v % 512]) && Ok(r, s)
    ensures var f := Target(s.mem[t].e[v % 512]);
            && f != t && IsFrame(r, f) && f in s.node && s.node[f] == Node(root, 0, v)
            && Node(root, 0, v) in s.at && s.at[Node(root, 0, v)] == f
  {
    hide UpOk, DownOk, FreeOk, Target, Present;
    assert DownOk(s.mem, s.node, Slot(t, v % 512));
    PageDown(s.mem, s.node, root, v, t);
  }

  /** Unmapping a page and freeing its frame. */
  lemma OldPage(r: Range, s: Snap, root: nat, v: nat, t: nat, f: nat, s': Snap)
    requires t in s.node && s.node[t] == Node(root, 1, v / 512) && IsTable(s.mem, t) && f != t && f < |s.mem|
    requires Present(s.mem[t].e[v % 512]) && f == Target(s.mem[t].e[v % 512])
    requires f in s.node && s.node[f] == Node(root, 0, v)
    requires s'.mem == SetEntry(s.mem[f := Junk], t, v % 512, 0) && s'.free == [f] + s.free
    requires s'.node == s.node - {f} && s'.at == s.at - {Node(root, 0, v)}
    requires Ok(r, s)
    ensures Ok(r, s') && Unmapped(s, s', root, v, v + 1)
  {
    hide UpOk, DownOk, Present, Target, PteOf, NodeOk;
    OldOk(r, s, root, v, t, f, s');
    assert Frames(s') == Frames(s);
    forall g | g in s.node ensures g in s'.node <==> !Within(s.node[g], root, v, v + 1) {
      InverseAt(r, s.mem, s.node, s.at, {}, g);
      InverseAt(r, s.mem, s.node, s.at, {}, f);
    }
    forall x: nat, w: nat ensures Pte(s', x, w) == if x == root && v <= w < v + 1 then 0 else Pte(s, x, w) {
      OldPte(r, s, root, v, t, f, s', x, w);
    }
  }

  lemma OldOk(r: Range, s: Snap, root: nat, v: nat, t: nat, f: nat, s': Snap)
    requires t in s.node && s.node[t] == Node(root, 1, v / 512) && IsTable(s.mem, t) && f != t && f < |s.mem|
    requires Present(s.mem[t].e[v % 512]) && f == Target(s.mem[t].e[v % 512])
    requires f in s.node && s.node[f] == Node(root, 0, v)
    requires s'.mem == SetEntry(s.mem[f := Junk], t, v % 512, 0) && s'.free == [f] + s.free
    requires s'.node == s.node - {f} && s'.at == s.at - {Node(root, 0, v)}
    requires Ok(r, s)
    ensures Ok(r, s')
  {
    hide UpOk, DownOk, Present, Target, NodeOk;
    assert NodeOk(r, s.mem, f, s.node[f]);
    NodeInRange(r, s.mem, f, s.node[f]);
    Drop(r, s.mem, s.node, s.at, {}, f);
    InverseAt(r, s.mem, s.node, s.at, {}, t);
    assert SlotOf(s.node, s.at, f) == Slot(t, v % 512);
    assert {} + {Slot(t, v % 512)} == {Slot(t, v % 512)};
    ClearDead(r, s.mem[f := Junk], s'.node, s'.at, t, v % 512);
  }

  lemma NodeInRange(r: Range, mem: seq<Frame>, f: nat, n: Node)
    requires NodeOk(r, mem, f, n)
    ensures IsFrame(r, f)
  {
  }

  lemma OldPte(r: Range, s: Snap, root: nat, v: nat, t: nat, f: nat, s': Snap, x: nat, w: nat)
    requires t in s.node && s.node[t] == Node(root, 1, v / 512) && IsTable(s.mem, t) && f != t && f < |s.mem|
    requires f in s.node && s.node[f] == Node(root, 0, v)
    requires s'.mem == SetEntry(s.mem[f := Junk], t, v % 512, 0)
    requires s'.at == s.at - {Node(root, 0, v)}
    requires Ok(r, s)
    ensures Pte(s', x, w) == if x == root && v <= w < v + 1 then 0 else Pte(s, x, w)
  {
    hide UpOk, DownOk, Target, NodeOk, FreeOk;
    var m := Node(x, 1, w / 512);
    InverseAt(r, s.mem, s.node, s.at, {}, t);
    assert m in s.at ==> s.node[s.at[m]] == m;
    assert w == w / 512 * 512 + w % 512 && v == v / 512 * 512 + v % 512;
  }

  lemma {:induction false} RunIn(f0: nat, k: nat, f: nat)
    ensures f in Run(f0, k) <==> f0 <= f < f0 + k
  {
    if k > 0 { RunIn(f0, k - 1, f); }
  }

  lemma NoneMapped(s: Snap, s': Snap, root: nat, v: nat, f: nat, perm: nat)
    requires perm < PGSIZE && Mapped(s, s', root, v, f, 0, perm)
    ensures Pte(s', root, v) == Pte(s, root, v)
  {
  }

  lemma MappedNone(s: Snap, root: nat, v0: nat, f0: nat, perm: nat)
    requires perm < PGSIZE
    ensures Mapped(s, s, root, v0, f0, 0, perm)
  {
  }

  /** A frame beyond those mapped so far is still nobody's, with the same content. */
  lemma StillStray(s: Snap, s': Snap, root: nat, v0: nat, f0: nat, k: nat, perm: nat, f: nat)
    requires perm < PGSIZE && Mapped(s, s', root, v0, f0, k, perm) && f !in Frames(s) && f >= f0 + k && f < |s.mem|
    ensures f !in Frames(s') && s'.mem[f] == s.mem[f] && |s'.mem| == |s.mem|
  {
    RunIn(f0, k, f);
  }

  lemma MappedGrew(a: Snap, b: Snap, c: Snap, root: nat, v0: nat, f0: nat, k: nat, perm: nat)
    requires perm < PGSIZE && Mapped(a, b, root, v0, f0, k, perm) && Grew(b, c)
    ensures Mapped(a, c, root, v0, f0, k, perm)
  {
    hide Pte, Entry;
    forall f: nat | f !in Frames(a) && f < |a.mem| ensures c.mem[f] == a.mem[f] { RunIn(f0, k, f); }
    forall x: nat, v: nat
      ensures Pte(c, x, v) == if x == root && v0 <= v < v0 + k then Entry(f0 + v - v0, perm) else Pte(a, x, v)
    {
      assert Pte(c, x, v) == Pte(b, x, v);
    }
  }

  lemma MappedMore(a: Snap, b: Snap, c: Snap, root: nat, v0: nat, f0: nat, k: nat, perm: nat)
    requires perm < PGSIZE && Mapped(a, b, root, v0, f0, k, perm) && Mapped(b, c, root, v0 + k, f0 + k, 1, perm)
    ensures Mapped(a, c, root, v0, f0, k + 1, perm)
  {
    hide Pte, Entry;
    forall f: nat | f !in Frames(a) && f < |a.mem| ensures c.mem[f] == a.mem[f] { RunIn(f0, k, f); }
    assert Run(f0 + k, 1) == Run(f0 + k, 0) + {f0 + k};
    assert Frames(c) == Frames(a) + Run(f0, k + 1);
    forall x: nat, v: nat
      ensures Pte(c, x, v) == if x == root && v0 <= v < v0 + (k + 1) then Entry(f0 + v - v0, perm) else Pte(a, x, v)
    {
      assert Pte(c, x, v) ==
             if x == root && v0 + k <= v < v0 + k + 1 then Entry(f0 + k + v - (v0 + k), perm) else Pte(b, x, v);
      assert f0 + k + v - (v0 + k) == f0 + v - v0;
    }
  }

  datatype MapRet = Mapped1 | NoMemory | Remap

  /** The entry found in a page table is the one of the flat map. */
  lemma TableEntry(r: Range, s: Snap, root: nat, v: nat, t: nat)
    requires Ok(r, s) && t in s.node && s.node[t] == Node(root, 1, v / 512)
    ensures IsTable(s.mem, t) && Node(root, 1, v / 512) in s.at && s.at[Node(root, 1, v / 512)] == t
    ensures var e := s.mem[t].e[v % 512];
            (Pte(s, root, v) != 0 <==> Present(e)) && (Present(e) ==> Pte(s, root, v) == e)
  {
    hide UpOk, DownOk, FreeOk;
    NodeIsTable(r, s.mem, t, s.node[t]);
  }

  lemma GrewLoose(r: Range, s: Snap, s': Snap, f: nat)
    requires Grew(s, s') && f !in Frames(s) && f < |s.mem|
    ensures f !in s'.node && f !in s'.free && s'.mem[f] == s.mem[f]
  {
    assert f !in Frames(s');
  }

  /** Hanging a stray frame as page `v`. */
  lemma NewPage(r: Range, s: Snap, root: nat, v: nat, t: nat, f: nat, perm: nat, s': Snap)
    requires t in s.node && s.node[t] == Node(root, 1, v / 512) && IsTable(s.mem, t) && perm < PGSIZE
    requires !Present(s.mem[t].e[v % 512]) && f < |s.mem|
    requires f !in s.node && f !in s.free && IsFrame(r, f) && s.mem[f].Data? && |s.mem[f].bytes| == PGSIZE
    requires s'.free == s.free
    requires s'.node == s.node[f := Node(root, 0, v)] && s'.at == s.at[Node(root, 0, v) := f]
    requires s'.mem == SetEntry(s.mem, t, v % 512, Entry(f, perm))
    requires Ok(r, s)
    ensures Ok(r, s') && Mapped(s, s', root, v, f, 1, perm)
  {
    hide UpOk, DownOk, PteOf, Present, Target, Entry, NodeOk;
    assert v / 512 * 512 + v % 512 == v;
    assert Child(s.node[t], v % 512) == Node(root, 0, v);
    Attach(r, s.mem, s.node, s.at, t, v % 512, f, perm);
    AbsentChild(r, s.mem, s.node, s.at, t, v % 512);
    assert Run(f, 1) == Run(f, 0) + {f} == {f};
    assert Frames(s') == Frames(s) + {f};
    forall x: nat, w: nat
      ensures Pte(s', x, w) == if x == root && v <= w < v + 1 then Entry(f + w - v, perm) else Pte(s, x, w)
    {
      AttachPte(r, s.mem, s.node, s.at, t, v % 512, f, perm, x, w);
    }
  }

  lemma GrewMapped(a: Snap, b: Snap, c: Snap, root: nat, v: nat, f: nat, perm: nat)
    requires perm < PGSIZE && Grew(a, b) && Mapped(b, c, root, v, f, 1, perm)
    ensures Mapped(a, c, root, v, f, 1, perm)
  {
    hide Frames, Pte, Entry;
    forall x: nat, w: nat
      ensures Pte(c, x, w) == if x == root && v <= w < v + 1 then Entry(f + w - v, perm) else Pte(a, x, w)
    {
      assert Pte(b, x, w) == Pte(a, x, w);
    }
  }

  /** A page table has page directories above it. */
  lemma Ancestors(r: Range, s: Snap, root: nat, p: nat)
    requires Ok(r, s) && Node(root, 1, p) in s.at
    ensures Node(root, 2, p / 512) in s.at && Node(root, 3, p / 512 / 512) in s.at
  {
    hide DownOk, NodeOk, FreeOk;
    var a, b := Node(root, 1, p), Node(root, 2, p / 512);
    assert UpOk(s.mem, s.at, {}, s.at[a], a);
    assert UpOk(s.mem, s.at, {}, s.at[b], b);
  }

  /** A frame from the head of the free list, zeroed and hung as a table. */
  lemma NewTable(r: Range, s: Snap, t: nat, i: nat, c: nat, s': Snap)
    requires IsEntry(s.node, Slot(t, i)) && s.node[t].level >= 2 && IsTable(s.mem, t)
    requires !Present(s.mem[t].e[i]) && s.free != [] && c == s.free[0] && c < |s.mem|
    requires c !in s.node && IsFrame(r, c) && c !in s.free[1..]
    requires s'.free == s.free[1..]
    requires s'.node == s.node[c := Child(s.node[t], i)] && s'.at == s.at[Child(s.node[t], i) := c]
    requires s'.mem == SetEntry(s.mem[c := ZeroTable()], t, i, Entry(c, PTE_W + PTE_U))
    requires Ok(r, s)
    ensures Ok(r, s') && Grew(s, s') && Child(s.node[t], i) !in s.at
  {
    hide UpOk, DownOk, PteOf, Present, Target, Entry, NodeOk;
    AbsentChild(r, s.mem, s.node, s.at, t, i);
    var m := s.mem[c := ZeroTable()];
    Blank(r, s, c, ZeroTable());
    Attach(r, m, s.node, s.at, t, i, c, PTE_W + PTE_U);
    assert s.free == [c] + s.free[1..];
    assert FreeSet(s') + {c} == FreeSet(s);
    AttachedGrew(r, s, m, t, i, c, s');
  }

  lemma GrewSelf(s: Snap)
    ensures Grew(s, s)
  {
  }

  lemma PresentChild(r: Range, mem: seq<Frame>, node: map<nat, Node>, at: map<Node, nat>, t: nat, i: nat)
    requires Forest(r, mem, node, at, {}) && IsEntry(node, Slot(t, i)) && IsTable(mem, t) && Present(mem[t].e[i])
    ensures var c := Target(mem[t].e[i]);
            0 < c < |mem| && c in node && node[c] == Child(node[t], i) && NodeOk(r, mem, c, node[c])
  {
    hide UpOk;
    assert DownOk(mem, node, Slot(t, i));
  }

  lemma BlankMap(r: Range, s: Snap, c: nat, x: Frame)
    requires Ok(r, s) && c !in s.node && c < |s.mem|
    ensures SameMap(s, s.(mem := s.mem[c := x]))
  {
    hide Present, Target, UpOk, DownOk, FreeOk;
  }

  /** Writing a frame that no tree uses. */
  lemma Blank(r: Range, s: Snap, c: nat, x: Frame)
    requires Ok(r, s) && c !in s.node && c < |s.mem|
    ensures Ok(r, s.(mem := s.mem[c := x]))
    ensures SameMap(s, s.(mem := s.mem[c := x]))
  {
    hide Forest, Pte;
    BlankForest(r, s, c, x);
    BlankMap(r, s, c, x);
  }

  lemma BlankForest(r: Range, s: Snap, c: nat, x: Frame)
    requires Ok(r, s) && c !in s.node && c < |s.mem|
    ensures Forest(r, s.mem[c := x], s.node, s.at, {})
  {
    hide UpOk, DownOk, NodeOk, FreeOk;
    var mem' := s.mem[c := x];
    forall f | f in s.node ensures NodeOk(r, mem', f, s.node[f]) { BlankNode(r, s, c, x, f); }
    forall f | f in s.node && s.node[f].level < 4 ensures UpOk(mem', s.at, {}, f, s.node[f]) {
      BlankUp(r, s, c, x, f);
    }
    forall q | IsEntry(s.node, q) && IsTable(mem', q.t) ensures DownOk(mem', s.node, q) {
      BlankDown(r, s, c, x, q);
    }
  }

  lemma BlankNode(r: Range, s: Snap, c: nat, x: Frame, f: nat)
    requires Ok(r, s) && c !in s.node && c < |s.mem| && f in s.node
    ensures NodeOk(r, s.mem[c := x], f, s.node[f])
  {
    hide UpOk, DownOk, FreeOk;
    assert NodeOk(r, s.mem, f, s.node[f]);
  }

  lemma BlankUp(r: Range, s: Snap, c: nat, x: Frame, f: nat)
    requires Ok(r, s) && c !in s.node && c < |s.mem| && f in s.node && s.node[f].level < 4
    ensures UpOk(s.mem[c := x], s.at, {}, f, s.node[f])
  {
    hide DownOk, NodeOk, FreeOk, Present, Target;
    assert UpOk(s.mem, s.at, {}, f, s.node[f]);
  }

  lemma BlankDown(r: Range, s: Snap, c: nat, x: Frame, q: Slot)
    requires Ok(r, s) && c !in s.node && c < |s.mem| && IsEntry(s.node, q) && IsTable(s.mem[c := x], q.t)
    ensures DownOk(s.mem[c := x], s.node, q)
  {
    hide UpOk, NodeOk, FreeOk, Present, Target;
    assert DownOk(s.mem, s.node, q);
  }

  lemma AttachedGrew(r: Range, s: Snap, m: seq<Frame>, t: nat, i: nat, c: nat, s': Snap)
    requires Ok(r, s) && IsEntry(s.node, Slot(t, i)) && s.node[t].level >= 2 && IsTable(s.mem, t)
    requires c in s.free && c !in s.node && c < |s.mem| && m == s.mem[c := ZeroTable()]
    requires s'.node == s.node[c := Child(s.node[t], i)]
    requires exists e :: s'.mem == m[t := Table(e)]
    requires FreeSet(s') + {c} == FreeSet(s)
    requires SameMap(s.(mem := m), s') && SameMap(s, s.(mem := m))
    ensures Grew(s, s')
  {
    hide UpOk, DownOk, Pte;
    forall root, v ensures Pte(s', root, v) == Pte(s, root, v) {
      assert Pte(s.(mem := m), root, v) == Pte(s, root, v);
    }
    assert Frames(s') == Frames(s);
  }
}
