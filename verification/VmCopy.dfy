/** Copying an address space, and writing into one. */
module VmCopy {
  import opened Common
  import opened VmTree
  import opened VmSnap
  import opened VmFree

  // ----- A new, empty address space -----

  /** A root whose lower half is empty; entry 256 is the kernel's. */
  function EmptyRoot(kernel: nat): Frame { Table(seq(NPDENTRIES, i => 0)[NPDENTRIES / 2 := kernel]) }

  lemma NewRoot(r: Range, s: Snap, root: nat, kernel: nat, s': Snap)
    requires Ok(r, s) && s.free != [] && root == s.free[0] && root < |s.mem|
    requires s' == Snap(s.mem[root := EmptyRoot(kernel)], s.free[1..], s.node[root := Node(root, 4, 0)],
                        s.at[Node(root, 4, 0) := root])
    ensures Ok(r, s') && IsRoot(s', root) && Grew(s, s') && root !in s.node && root in FreeSet(s)
  {
    hide PteOf, Forest, Present, Target;
    var s1 := s.(free := s.free[1..], mem := s.mem[root := EmptyRoot(kernel)]);
    TakenOk(r, s, s1, root, EmptyRoot(kernel));
    RootForest(r, s1, root, kernel, s');
    assert Frames(s') == Frames(s);
    forall x: nat, v: nat ensures Pte(s', x, v) == Pte(s, x, v) {
      assert Pte(s1, x, v) == Pte(s, x, v);
      RootPte(s1, s', root, x, v);
    }
  }

  lemma RootPte(s: Snap, s': Snap, root: nat, x: nat, v: nat)
    requires s'.mem == s.mem && s'.at == s.at[Node(root, 4, 0) := root]
    ensures Pte(s', x, v) == Pte(s, x, v)
  {
  }

  lemma RootForest(r: Range, s: Snap, root: nat, kernel: nat, s': Snap)
    requires Ok(r, s) && IsFrame(r, root) && root !in s.node && root !in s.free && root < |s.mem|
    requires s.mem[root] == EmptyRoot(kernel)
    requires s' == s.(node := s.node[root := Node(root, 4, 0)], at := s.at[Node(root, 4, 0) := root])
    ensures Ok(r, s') && Node(root, 4, 0) !in s.at
  {
    hide UpOk, DownOk, NodeOk, Target;
    var n := Node(root, 4, 0);
    RootUnused(r, s, root);
    forall f | f in s'.node ensures NodeOk(r, s'.mem, f, s'.node[f]) {
      if f == root { RootNodeOk(r, s.mem, root, kernel); }
    }
    forall q | IsEntry(s'.node, q) && IsTable(s'.mem, q.t) ensures DownOk(s'.mem, s'.node, q) {
      if q.t == root {
        RootDown(s'.mem, s'.node, q, kernel);
      } else {
        assert DownOk(s.mem, s.node, q);
        DownElsewhere(s.mem, s.node, q, root, n);
      }
    }
    forall f | f in s'.node && s'.node[f].level < 4 ensures UpOk(s'.mem, s'.at, {}, f, s'.node[f]) {
      assert UpOk(s.mem, s.at, {}, f, s.node[f]);
      UpElsewhere(s.mem, s.at, f, s.node[f], n, root);
    }
  }

  lemma RootUnused(r: Range, s: Snap, root: nat)
    requires Ok(r, s) && root !in s.node
    ensures Node(root, 4, 0) !in s.at
  {
    hide UpOk, DownOk, FreeOk;
  }

  lemma RootNodeOk(r: Range, mem: seq<Frame>, root: nat, kernel: nat)
    requires IsFrame(r, root) && r.hi <= |mem| && mem[root] == EmptyRoot(kernel)
    ensures NodeOk(r, mem, root, Node(root, 4, 0))
  {
  }

  lemma RootDown(mem: seq<Frame>, node: map<nat, Node>, q: Slot, kernel: nat)
    requires IsEntry(node, q) && q.t < |mem| && mem[q.t] == EmptyRoot(kernel) && node[q.t].level == 4
    ensures DownOk(mem, node, q)
  {
    assert mem[q.t].e[q.i] == 0;
  }

  lemma DownElsewhere(mem: seq<Frame>, node: map<nat, Node>, q: Slot, c: nat, n: Node)
    requires IsEntry(node, q) && IsTable(mem, q.t) && DownOk(mem, node, q) && c !in node
    ensures DownOk(mem, node[c := n], q)
  {
  }

  lemma UpElsewhere(mem: seq<Frame>, at: map<Node, nat>, f: nat, n: Node, m: Node, c: nat)
    requires UpOk(mem, at, {}, f, n) && m !in at
    ensures UpOk(mem, at[m := c], {}, f, n)
  {
  }

  // ----- Copying -----

  /** Page `v` of `d` in `s'` is a copy, in a frame of its own, of page `v` of `root` in `s`. */
  ghost predicate CopiedPage(s: Snap, s': Snap, root: nat, d: nat, v: nat) {
    var n, e := Node(d, 0, v), Pte(s, root, v);
    && e != 0 && n in s'.at
    && var f := s'.at[n];
    && Pte(s', d, v) == Entry(f, Flags(e))
    && f !in s.node && f in s'.node && s'.node[f] == n
    && f < |s'.mem| && Target(e) < |s.mem| && s'.mem[f] == s.mem[Target(e)]
  }

  /** From `s` to `s'`, pages `lo .. hi` of `root` have been copied to `d`; nothing else that is mapped or
      stray has changed, and no frame is lost. */
  ghost predicate Copied(s: Snap, s': Snap, root: nat, d: nat, lo: nat, hi: nat) {
    && |s'.mem| == |s.mem|
    && (forall f :: f in s.node ==> f in s'.node && s'.node[f] == s.node[f])
    && (forall f :: f in s'.node && s'.node[f].level == 0 && f !in s.node ==> Within(s'.node[f], d, lo, hi))
    && (forall f :: f in s.node && s.node[f].level == 0 && f < |s.mem| ==> s'.mem[f] == s.mem[f])
    && (forall f: nat :: f !in Frames(s) && f < |s.mem| ==> s'.mem[f] == s.mem[f])
    && Frames(s') == Frames(s)
    && (forall x: nat, v: nat :: !(x == d && lo <= v < hi) ==> Pte(s', x, v) == Pte(s, x, v))
    && (forall v: nat :: lo <= v < hi ==> CopiedPage(s, s', root, d, v))
  }

  lemma CopiedNone(s: Snap, root: nat, d: nat, lo: nat)
    ensures Copied(s, s, root, d, lo, lo)
  {
  }

  /** One page: a frame filled with the parent's bytes and mapped with the parent's flags. */
  lemma CopyStep(r: Range, s: Snap, s1: Snap, s2: Snap, root: nat, d: nat, v: nat, f: nat)
    requires Ok(r, s) && Ok(r, s2) && root != d && Pte(s, root, v) != 0 && Target(Pte(s, root, v)) < |s.mem|
    requires Taken(s, s1, f, s.mem[Target(Pte(s, root, v))])
    requires Mapped(s1, s2, d, v, f, 1, Flags(Pte(s, root, v)))
    ensures Copied(s, s2, root, d, v, v + 1)
  {
    hide Pte, Entry, Ok, Target, Flags;
    var e := Pte(s, root, v);
    TakenOk(r, s, s1, f, s.mem[Target(e)]);
    assert Run(f, 1) == Run(f, 0) + {f} == {f};
    forall x: nat, w: nat | !(x == d && v <= w < v + 1) ensures Pte(s2, x, w) == Pte(s, x, w) {
      assert Pte(s1, x, w) == Pte(s, x, w);
    }
    assert s2.node[f] == Node(d, 0, v);
    NodeAt(r, s2, f);
    assert Pte(s2, d, v) == Entry(f + v - v, Flags(e));
  }

  lemma CopiedMore(r: Range, a: Snap, b: Snap, c: Snap, root: nat, d: nat, lo: nat, v: nat)
    requires Ok(r, a) && Ok(r, c) && lo <= v && root != d
    requires Copied(a, b, root, d, lo, v) && Copied(b, c, root, d, v, v + 1)
    ensures Copied(a, c, root, d, lo, v + 1)
  {
    hide Pte, Ok, CopiedPage;
    forall w: nat | lo <= w < v + 1 ensures CopiedPage(a, c, root, d, w) {
      if w < v {
        CopiedEarlier(r, a, b, c, root, d, v, w);
      } else {
        CopiedLater(r, a, b, c, root, d, lo, v);
      }
    }
    forall x: nat, w: nat | !(x == d && lo <= w < v + 1) ensures Pte(c, x, w) == Pte(a, x, w) {
      assert Pte(b, x, w) == Pte(a, x, w);
    }
  }

  lemma CopiedEarlier(r: Range, a: Snap, b: Snap, c: Snap, root: nat, d: nat, v: nat, w: nat)
    requires Ok(r, c) && w < v && CopiedPage(a, b, root, d, w) && Copied(b, c, root, d, v, v + 1)
    ensures CopiedPage(a, c, root, d, w)
  {
    hide Pte, Ok, Frames, Entry, Flags, Target;
    NodeAt(r, c, b.at[Node(d, 0, w)]);
  }

  lemma CopiedLater(r: Range, a: Snap, b: Snap, c: Snap, root: nat, d: nat, lo: nat, v: nat)
    requires Ok(r, a) && root != d && Copied(a, b, root, d, lo, v) && CopiedPage(b, c, root, d, v)
    ensures CopiedPage(a, c, root, d, v)
  {
    hide Pte, Ok, Entry, Flags, Target, Frames;
    assert Pte(b, root, v) == Pte(a, root, v);
    MappedFrame(r, a, root, v);
  }

  /** A mapped page has a frame of user data. */
  lemma MappedFrame(r: Range, s: Snap, root: nat, v: nat)
    requires Ok(r, s) && Pte(s, root, v) != 0
    ensures var f := Target(Pte(s, root, v));
            && f in s.node && s.node[f] == Node(root, 0, v) && f < |s.mem|
            && s.mem[f].Data? && |s.mem[f].bytes| == PGSIZE
  {
    hide UpOk, DownOk, PteOf, FreeOk;
    PteNode(r, s.mem, s.node, s.at, root, v);
    var f := s.at[Node(root, 0, v)];
    assert NodeOk(r, s.mem, f, s.node[f]);
  }

  /** Setting up the new root first makes no difference to what is copied. */
  lemma GrewCopied(r: Range, a: Snap, b: Snap, c: Snap, root: nat, d: nat, lo: nat, hi: nat)
    requires Ok(r, a) && root != d && Grew(a, b) && Copied(b, c, root, d, lo, hi)
    ensures Copied(a, c, root, d, lo, hi)
  {
    hide Pte, Ok, CopiedPage, Frames;
    forall v: nat | lo <= v < hi ensures CopiedPage(a, c, root, d, v) {
      assert Pte(b, root, v) == Pte(a, root, v);
      GrewCopiedPage(r, a, b, c, root, d, v);
    }
    forall x: nat, v: nat | !(x == d && lo <= v < hi) ensures Pte(c, x, v) == Pte(a, x, v) {
      assert Pte(b, x, v) == Pte(a, x, v);
    }
  }

  lemma GrewCopiedPage(r: Range, a: Snap, b: Snap, c: Snap, root: nat, d: nat, v: nat)
    requires Ok(r, a) && Grew(a, b) && CopiedPage(b, c, root, d, v) && Pte(b, root, v) == Pte(a, root, v)
    ensures CopiedPage(a, c, root, d, v)
  {
    hide Pte, Ok, Entry, Flags, Target, Frames;
    MappedFrame(r, a, root, v);
  }

  /** A frame that is not a root has no address space. */
  lemma NoTree(r: Range, s: Snap, d: nat, v: nat)
    requires Ok(r, s) && d !in s.node
    ensures Pte(s, d, v) == 0
  {
    hide UpOk, DownOk, PteOf, FreeOk;
    PteNode(r, s.mem, s.node, s.at, d, v);
    var n := Node(d, 0, v);
    if n in s.at {
      AncestorAt(r, s.mem, s.node, s.at, {}, n, 4);
      TopIsRoot(r, s, Node(d, 4, Up(v, 4)));
    }
  }

  /** A new root has no tables yet. */
  lemma RootAlone(r: Range, s: Snap, s1: Snap, d: nat)
    requires Ok(r, s) && d !in s.node && s1.at == s.at[Node(d, 4, 0) := d]
    ensures forall x: Node :: x in s1.at && x.root == d ==> x.level >= 4
  {
    forall x: Node | x in s.at ensures x.root != d {
      NodeHasRoot(r, s, x);
    }
  }

  lemma NodeHasRoot(r: Range, s: Snap, x: Node)
    requires Ok(r, s) && x in s.at
    ensures x.root in s.node
  {
    hide UpOk, DownOk, FreeOk;
    assert NodeOk(r, s.mem, s.at[x], s.node[s.at[x]]);
    AncestorAt(r, s.mem, s.node, s.at, {}, x, 4 - x.level);
    TopIsRoot(r, s, Node(x.root, 4, Up(x.prefix, 4 - x.level)));
  }

  lemma TopIsRoot(r: Range, s: Snap, top: Node)
    requires Ok(r, s) && top in s.at && top.level == 4
    ensures top.root in s.node
  {
    hide UpOk, DownOk, FreeOk;
    assert NodeOk(r, s.mem, s.at[top], s.node[s.at[top]]);
  }

  /** A copy that runs out of memory and is torn down leaves every translation as it was. */
  lemma UndoCopy(r: Range, a: Snap, b: Snap, m: Snap, s: Snap, s': Snap, root: nat, d: nat, v: nat)
    requires Ok(r, a) && d !in a.node && Grew(a, b) && Copied(b, m, root, d, 1, v) && SameMap(m, s)
    requires forall x: nat, w: nat :: Pte(s', x, w) == if x == d then 0 else Pte(s, x, w)
    ensures SameMap(a, s')
  {
    hide Pte, Ok, CopiedPage, Frames;
    forall x: nat, w: nat ensures Pte(s', x, w) == Pte(a, x, w) {
      if x == d {
        NoTree(r, a, d, w);
      } else {
        assert Pte(b, x, w) == Pte(a, x, w);
        assert Pte(m, x, w) == Pte(b, x, w);
        assert Pte(s, x, w) == Pte(m, x, w);
      }
    }
  }

  // ----- Writing user bytes -----

  /** The byte at user address `a`; zero where nothing is mapped. */
  ghost function UserByte(s: Snap, root: nat, a: nat): byte {
    var e := Pte(s, root, a / PGSIZE);
    if e != 0 && Target(e) < |s.mem| && s.mem[Target(e)].Data? && a % PGSIZE < |s.mem[Target(e)].bytes|
    then s.mem[Target(e)].bytes[a % PGSIZE] else 0
  }

  /** From `s` to `s'`, `data` has been written to address space `root` at `va`: those user bytes change and
      no other byte of any address space, and no translation. */
  ghost predicate Poked(s: Snap, s': Snap, root: nat, va: nat, data: seq<byte>) {
    && s'.free == s.free && s'.node == s.node && s'.at == s.at && |s'.mem| == |s.mem|
    && SameMap(s, s')
    && (forall f: nat :: f < |s.mem| && !(f in s.node && s.node[f].level == 0 && s.node[f].root == root) ==>
          s'.mem[f] == s.mem[f])
    && (forall x: nat, a: nat :: UserByte(s', x, a) ==
          if x == root && va <= a < va + |data| then data[a - va] else UserByte(s, x, a))
  }

  lemma PokedNothing(s: Snap, root: nat, va: nat)
    ensures Poked(s, s, root, va, [])
  {
  }

  lemma PokedMore(a: Snap, b: Snap, c: Snap, root: nat, va: nat, x: seq<byte>, y: seq<byte>)
    requires Poked(a, b, root, va, x) && Poked(b, c, root, va + |x|, y)
    ensures Poked(a, c, root, va, x + y)
  {
    hide UserByte, Pte;
    forall root: nat, v: nat ensures Pte(c, root, v) == Pte(a, root, v) { assert Pte(b, root, v) == Pte(a, root, v); }
    forall z: nat, p: nat ensures UserByte(c, z, p) ==
          if z == root && va <= p < va + |x + y| then (x + y)[p - va] else UserByte(a, z, p)
    {
      assert UserByte(b, z, p) == if z == root && va <= p < va + |x| then x[p - va] else UserByte(a, z, p);
    }
  }

  /** Writing within one mapped page. */
  lemma PokePage(r: Range, s: Snap, root: nat, va: nat, data: seq<byte>, s': Snap)
    requires Pte(s, root, va / PGSIZE) != 0 && va % PGSIZE + |data| <= PGSIZE && Ok(r, s)
    requires var f := Target(Pte(s, root, va / PGSIZE));
             && f < |s.mem| && s.mem[f].Data? && |s.mem[f].bytes| == PGSIZE
             && var b := s.mem[f].bytes;
             s' == s.(mem := s.mem[f := Data(b[..va % PGSIZE] + data + b[va % PGSIZE + |data|..])])
    ensures Ok(r, s') && Poked(s, s', root, va, data)
  {
    hide Forest, FreeOk, PteOf, Target;
    var f := Target(Pte(s, root, va / PGSIZE));
    MappedFrame(r, s, root, va / PGSIZE);
    PageOverwritten(r, s, f, s');
    forall x: nat, a: nat ensures UserByte(s', x, a) ==
          if x == root && va <= a < va + |data| then data[a - va] else UserByte(s, x, a)
    {
      PokedByte(r, s, root, va, data, s', f, x, a);
    }
  }

  lemma PageOverwritten(r: Range, s: Snap, f: nat, s': Snap)
    requires Ok(r, s) && f in s.node && s.node[f].level == 0 && f < |s.mem|
    requires |s'.mem| == |s.mem| && s'.mem[f].Data? && |s'.mem[f].bytes| == PGSIZE
    requires s' == s.(mem := s.mem[f := s'.mem[f]])
    ensures Ok(r, s') && SameMap(s, s')
  {
    hide Present, Target, UpOk, DownOk, NodeOk, PteOf;
    var mem' := s'.mem;
    PageIsData(r, s.mem, f, s.node[f]);
    forall g | g in s.node && s.node[g].level < 4 ensures UpOk(mem', s.at, {}, g, s.node[g]) {
      OverwrittenUp(s.mem, f, mem', s.at, g, s.node[g]);
    }
    forall q | IsEntry(s.node, q) && IsTable(mem', q.t) ensures DownOk(mem', s.node, q) {
      OverwrittenDown(s.mem, f, mem', s.node, q);
    }
    forall g | g in s.node ensures NodeOk(r, mem', g, s.node[g]) {
      OverwrittenNode(r, s.mem, f, mem', g, s.node[g]);
    }
    forall root, v ensures Pte(s', root, v) == Pte(s, root, v) { OverwrittenPte(s, f, s', root, v); }
  }

  lemma PageIsData(r: Range, mem: seq<Frame>, f: nat, n: Node)
    requires NodeOk(r, mem, f, n) && n.level == 0
    ensures f < |mem| && mem[f].Data?
  {
  }

  lemma OverwrittenUp(mem: seq<Frame>, f: nat, mem': seq<Frame>, at: map<Node, nat>, g: nat, n: Node)
    requires f < |mem| == |mem'| && mem[f].Data? && mem'[f].Data? && mem' == mem[f := mem'[f]]
    requires UpOk(mem, at, {}, g, n)
    ensures UpOk(mem', at, {}, g, n)
  {
  }

  lemma OverwrittenDown(mem: seq<Frame>, f: nat, mem': seq<Frame>, node: map<nat, Node>, q: Slot)
    requires f < |mem| == |mem'| && mem[f].Data? && mem'[f].Data? && mem' == mem[f := mem'[f]]
    requires IsEntry(node, q) && IsTable(mem, q.t) && DownOk(mem, node, q)
    ensures DownOk(mem', node, q)
  {
  }

  lemma OverwrittenNode(r: Range, mem: seq<Frame>, f: nat, mem': seq<Frame>, g: nat, n: Node)
    requires f < |mem| == |mem'| && mem[f].Data? && mem'[f].Data? && |mem'[f].bytes| == PGSIZE
    requires mem' == mem[f := mem'[f]] && NodeOk(r, mem, g, n)
    ensures NodeOk(r, mem', g, n)
  {
  }

  lemma OverwrittenPte(s: Snap, f: nat, s': Snap, root: nat, v: nat)
    requires f < |s.mem| == |s'.mem| && s.mem[f].Data? && s'.mem[f].Data? && s' == s.(mem := s.mem[f := s'.mem[f]])
    ensures Pte(s', root, v) == Pte(s, root, v)
  {
  }

  lemma PokedByte(r: Range, s: Snap, root: nat, va: nat, data: seq<byte>, s': Snap, f: nat, x: nat, a: nat)
    requires Ok(r, s) && Pte(s, root, va / PGSIZE) != 0 && va % PGSIZE + |data| <= PGSIZE
    requires f == Target(Pte(s, root, va / PGSIZE)) && f in s.node && s.node[f] == Node(root, 0, va / PGSIZE)
    requires f < |s.mem| && s.mem[f].Data? && |s.mem[f].bytes| == PGSIZE
    requires var b := s.mem[f].bytes;
             s' == s.(mem := s.mem[f := Data(b[..va % PGSIZE] + data + b[va % PGSIZE + |data|..])])
    requires SameMap(s, s')
    ensures UserByte(s', x, a) == if x == root && va <= a < va + |data| then data[a - va] else UserByte(s, x, a)
  {
    hide Ok, Pte, Target;
    assert Pte(s', x, a / PGSIZE) == Pte(s, x, a / PGSIZE);
    assert a == a / PGSIZE * PGSIZE + a % PGSIZE && va == va / PGSIZE * PGSIZE + va % PGSIZE;
    if Pte(s, x, a / PGSIZE) != 0 { MappedFrame(r, s, x, a / PGSIZE); }
  }

  /** The frame behind an entry that is present and marked for the user, else 0. */
  function UserFrame(e: nat): nat {
    if Present(e) && e / PTE_U % 2 == 1 then Target(e) else 0
  }

  lemma UnmappedUser()
    ensures UserFrame(0) == 0
  {
  }

  lemma UserMapped(r: Range, s: Snap, root: nat, v: nat)
    requires Ok(r, s) && UserFrame(Pte(s, root, v)) != 0
    ensures var f := UserFrame(Pte(s, root, v));
            && Pte(s, root, v) != 0 && f == Target(Pte(s, root, v)) && f < |s.mem|
            && s.mem[f].Data? && |s.mem[f].bytes| == PGSIZE
  {
    hide Ok, Pte, Target;
    MappedFrame(r, s, root, v);
  }

  lemma PokedPte(s: Snap, s': Snap, root: nat, va: nat, data: seq<byte>, v: nat)
    requires Poked(s, s', root, va, data)
    ensures Pte(s', root, v) == Pte(s, root, v)
  {
    hide Pte, UserByte;
  }

  lemma PokedTables(s: Snap, s': Snap, root: nat, va: nat, data: seq<byte>)
    requires Poked(s, s', root, va, data)
    ensures s'.at == s.at
  {
  }

  lemma PokedRoot(s: Snap, s': Snap, root: nat, va: nat, data: seq<byte>)
    requires Poked(s, s', root, va, data) && IsRoot(s, root)
    ensures IsRoot(s', root)
  {
  }

  lemma RootStays(s: Snap, s': Snap, root: nat)
    requires Grew(s, s') && IsRoot(s, root)
    ensures IsRoot(s', root)
  {
    hide Pte, Frames;
  }

  lemma RootsStay(s: Snap, s': Snap, root: nat, d: nat, v: nat)
    requires Copied(s, s', root, d, v, v + 1) && IsRoot(s, root) && IsRoot(s, d)
    ensures IsRoot(s', root) && IsRoot(s', d)
  {
    hide Pte, Frames, CopiedPage;
  }

  lemma SourceStays(s0: Snap, s1: Snap, s: Snap, root: nat, d: nat, v: nat)
    requires Grew(s0, s1) && Copied(s1, s, root, d, 1, v) && root != d
    ensures Pte(s, root, v) == Pte(s0, root, v) && Pte(s, d, v) == Pte(s0, d, v)
  {
    hide Pte, Frames, CopiedPage;
    assert Pte(s1, root, v) == Pte(s0, root, v);
    assert Pte(s1, d, v) == Pte(s0, d, v);
  }

  lemma FramesKept(s0: Snap, s1: Snap, s: Snap, root: nat, d: nat, v: nat)
    requires Grew(s0, s1) && Copied(s1, s, root, d, 1, v)
    ensures Frames(s) == Frames(s0)
  {
    hide Pte, Frames, CopiedPage;
  }

  lemma SameSelf(s: Snap)
    ensures SameMap(s, s)
  {
  }

  lemma MappedRoots(s1: Snap, s2: Snap, d: nat, v: nat, f: nat, k: nat, perm: nat, root: nat)
    requires perm < PGSIZE && Mapped(s1, s2, d, v, f, k, perm)
    ensures IsRoot(s1, root) ==> IsRoot(s2, root)
    ensures k == 0 ==> Pte(s2, d, v) == Pte(s1, d, v)
  {
    hide Pte, Frames, Entry;
  }

  lemma NotMapped(s: Snap, s1: Snap, s2: Snap, d: nat, v: nat, f: nat, perm: nat)
    requires perm < PGSIZE && Mapped(s1, s2, d, v, f, 0, perm) && SameMap(s, s1) && Frames(s1) + {f} == Frames(s)
    ensures SameMap(s, s2) && Frames(s2) + {f} == Frames(s) && Frames(s2) == Frames(s1)
  {
    hide Pte, Frames, Entry;
    assert Run(f, 0) == {};
    forall x: nat, w: nat ensures Pte(s2, x, w) == Pte(s, x, w) {
      assert Pte(s1, x, w) == Pte(s, x, w);
    }
  }
}
