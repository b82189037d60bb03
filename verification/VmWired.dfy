/** What the upper levels of every address space hold: the kernel's entry in each root, and open entries on the
    way to every page table.  So the walk that the processor makes agrees with the flat page maps. */
module VmWired {
  import opened Common
  import opened VmTree
  import opened VmSnap
  import opened VmFree
  import opened VmCopy

  /** The upper half of a root: the kernel's entry, and nothing else. */
  predicate TopOk(kernel: nat, e: seq<nat>) {
    |e| == NPDENTRIES && e[NPDENTRIES / 2] == kernel && forall k :: NPDENTRIES / 2 < k < NPDENTRIES ==> e[k] == 0
  }

  ghost predicate RootWired(kernel: nat, mem: seq<Frame>, f: nat, n: Node) {
    n.level == 4 && IsTable(mem, f) ==> TopOk(kernel, mem[f].e)
  }

  /** The entry above a table is writable and for the user. */
  ghost predicate TableWired(mem: seq<Frame>, at: map<Node, nat>, f: nat, n: Node) {
    1 <= n.level <= 3 ==>
      var p := Node(n.root, n.level + 1, n.prefix / NPDENTRIES);
      p in at && IsTable(mem, at[p]) ==> mem[at[p]].e[n.prefix % NPDENTRIES] == Entry(f, PTE_W + PTE_U)
  }

  ghost predicate Wired(kernel: nat, mem: seq<Frame>, node: map<nat, Node>, at: map<Node, nat>) {
    forall f :: f in node ==> RootWired(kernel, mem, f, node[f]) && TableWired(mem, at, f, node[f])
  }

  /** Nothing that touches only pages, page tables at the lowest level, and frames outside the trees, or that
      gives frames back, changes this. */
  lemma WiredKept(r: Range, kernel: nat, s: Snap, s': Snap, dead: set<Slot>)
    requires Wired(kernel, s.mem, s.node, s.at) && OkExcept(r, s', dead)
    requires forall f :: f in s'.node && s'.node[f].level >= 1 ==> f in s.node && s.node[f] == s'.node[f]
    requires forall n :: n in s'.at && n.level >= 2 ==> n in s.at && s.at[n] == s'.at[n]
    requires |s'.mem| == |s.mem|
    requires forall f :: f in s'.node && s'.node[f].level >= 2 && f < |s.mem| ==> s'.mem[f] == s.mem[f]
    ensures Wired(kernel, s'.mem, s'.node, s'.at)
  {
    hide UpOk, DownOk, NodeOk, FreeOk, TopOk, Entry;
    forall f | f in s'.node
      ensures RootWired(kernel, s'.mem, f, s'.node[f]) && TableWired(s'.mem, s'.at, f, s'.node[f])
    {
      assert s'.node[f].level >= 1 ==> RootWired(kernel, s.mem, f, s.node[f]) && TableWired(s.mem, s.at, f, s.node[f]);
    }
  }

  /** A page is added, or a frame at the lowest levels changes. */
  lemma LowChange(r: Range, kernel: nat, s: Snap, t: nat, x: Frame, f: nat, n: Node, s': Snap)
    requires Ok(r, s') && Wired(kernel, s.mem, s.node, s.at) && t in s.node && s.node[t].level <= 1 && t < |s.mem|
    requires s'.mem == s.mem[t := x] && n.level == 0 && f !in s.node
    requires (s'.node == s.node && s'.at == s.at) || (s'.node == s.node[f := n] && s'.at == s.at[n := f])
    ensures Wired(kernel, s'.mem, s'.node, s'.at)
  {
    hide Forest, FreeOk, Wired;
    WiredKept(r, kernel, s, s', {});
  }

  lemma DataChange(r: Range, kernel: nat, s: Snap, f: nat, x: Frame, s': Snap)
    requires Ok(r, s') && Wired(kernel, s.mem, s.node, s.at) && f in s.node && s.node[f].level == 0 && f < |s.mem|
    requires s' == s.(mem := s.mem[f := x])
    ensures Wired(kernel, s'.mem, s'.node, s'.at)
  {
    hide Forest, FreeOk, Wired;
    WiredKept(r, kernel, s, s', {});
  }

  /** A new table under an entry. */
  lemma TableAdded(r: Range, kernel: nat, s: Snap, t: nat, i: nat, c: nat, s': Snap)
    requires Ok(r, s) && Wired(kernel, s.mem, s.node, s.at)
    requires IsEntry(s.node, Slot(t, i)) && s.node[t].level >= 2 && IsTable(s.mem, t)
    requires c !in s.node && c < |s.mem| && Child(s.node[t], i) !in s.at && c != t && i < NPDENTRIES
    requires s'.node == s.node[c := Child(s.node[t], i)] && s'.at == s.at[Child(s.node[t], i) := c]
    requires s'.mem == SetEntry(s.mem[c := ZeroTable()], t, i, Entry(c, PTE_W + PTE_U))
    ensures Wired(kernel, s'.mem, s'.node, s'.at)
  {
    hide UpOk, DownOk, FreeOk, Entry;
    var n := Child(s.node[t], i);
    ChildPrefix(s.node[t], i);
    assert NodeOk(r, s.mem, t, s.node[t]);
    forall f | f in s'.node
      ensures RootWired(kernel, s'.mem, f, s'.node[f]) && TableWired(s'.mem, s'.at, f, s'.node[f])
    {
      if f != c {
        assert RootWired(kernel, s.mem, f, s.node[f]) && TableWired(s.mem, s.at, f, s.node[f]);
        AddedBeside(r, s, t, i, c, f);
      }
    }
  }

  lemma AddedBeside(r: Range, s: Snap, t: nat, i: nat, c: nat, f: nat)
    requires Ok(r, s) && IsEntry(s.node, Slot(t, i)) && c !in s.node && Child(s.node[t], i) !in s.at && f in s.node
    ensures var p := Node(s.node[f].root, s.node[f].level + 1, s.node[f].prefix / NPDENTRIES);
            && (p in s.at ==> s.at[p] != c)
            && (p in s.at && s.at[p] == t ==> s.node[f].prefix % NPDENTRIES != i)
            && (s.node[f].level < 4 ==> p in s.at)
  {
    hide DownOk, FreeOk, NodeOk, UpOk;
    var n := s.node[f];
    if n.level < 4 { AboveIs(r, s, n); }
    assert n.prefix == n.prefix / NPDENTRIES * NPDENTRIES + n.prefix % NPDENTRIES;
  }

  /** A new root. */
  lemma RootAdded(r: Range, kernel: nat, s: Snap, root: nat, s': Snap)
    requires Ok(r, s) && Wired(kernel, s.mem, s.node, s.at) && root !in s.node && root < |s.mem|
    requires s'.mem == s.mem[root := EmptyRoot(kernel)] && s'.node == s.node[root := Node(root, 4, 0)]
    requires s'.at == s.at[Node(root, 4, 0) := root]
    ensures Wired(kernel, s'.mem, s'.node, s'.at)
  {
    hide Forest, FreeOk, Entry, TopOk, EmptyRoot;
    RootFrame(kernel, s'.mem, root);
    NoSuchRoot(r, s, root);
    forall f | f in s'.node
      ensures RootWired(kernel, s'.mem, f, s'.node[f]) && TableWired(s'.mem, s'.at, f, s'.node[f])
    {
      if f != root {
        var n := s.node[f];
        assert RootWired(kernel, s.mem, f, n) && TableWired(s.mem, s.at, f, n);
        if n.level < 4 { Hangs(r, s, f); }
      }
    }
  }

  lemma NoSuchRoot(r: Range, s: Snap, root: nat)
    requires Ok(r, s) && root !in s.node
    ensures Node(root, 4, 0) !in s.at
  {
    hide UpOk, DownOk, FreeOk;
  }

  lemma OutsideTrees(s: Snap, f: nat)
    requires f !in Frames(s)
    ensures f !in s.node
  {
  }

  /** A root as setupkvm makes it: the kernel's entry in place 256, and every other entry 0. */
  lemma RootFrame(kernel: nat, mem: seq<Frame>, root: nat)
    requires root < |mem| && mem[root] == EmptyRoot(kernel)
    ensures IsTable(mem, root) && TopOk(kernel, mem[root].e)
    ensures forall k :: 0 <= k < NPDENTRIES && k != 256 ==> mem[root].e[k] == 0
    ensures mem[root].e[256] == kernel
  {
  }

  lemma Hangs(r: Range, s: Snap, f: nat)
    requires Ok(r, s) && f in s.node && s.node[f].level < 4
    ensures var p := Node(s.node[f].root, s.node[f].level + 1, s.node[f].prefix / NPDENTRIES);
            p in s.at && s.at[p] in s.node
  {
    hide DownOk, NodeOk, FreeOk;
    assert UpOk(s.mem, s.at, {}, f, s.node[f]);
  }

  // ----- The processor's walk -----

  predicate Open(e: nat) { Present(e) && e / PTE_W % 2 == 1 && e / PTE_U % 2 == 1 }

  /** One level: the table that an entry leads to, if the user may pass. */
  function Down(mem: seq<Frame>, t: Option<nat>, i: nat): Option<nat> {
    if t.Some? && i < NPDENTRIES && IsTable(mem, t.value) && Open(mem[t.value].e[i])
    then Some(Target(mem[t.value].e[i])) else None
  }

  /** The entry of page `v` that the processor finds from `root` on; 0 if it finds none. */
  function Walk(mem: seq<Frame>, root: nat, v: nat): nat {
    var pdpt := Down(mem, Some(root), v / 512 / 512 / 512);
    var pd := Down(mem, pdpt, v / 512 / 512 % 512);
    var pt := Down(mem, pd, v / 512 % 512);
    if pt.Some? && IsTable(mem, pt.value) && Present(mem[pt.value].e[v % 512]) then mem[pt.value].e[v % 512] else 0
  }

  lemma OpenEntry(f: nat)
    ensures var e := Entry(f, PTE_W + PTE_U); Open(e) && Target(e) == f
  {
    EntryParts(f, PTE_W + PTE_U);
    UserBits(f);
  }

  lemma UserBits(f: nat)
    ensures (f * 4096 + 7) / 2 % 2 == 1 && (f * 4096 + 7) / 4 % 2 == 1
  {
    var h, q := f * 2048 + 3, f * 1024 + 1;
    Halved(f * 4096 + 7, h);
    Halved(h, q);
    Halved(q, f * 512);
    Quartered(f * 4096 + 7);
  }

  lemma Halved(n: nat, h: nat)
    requires n == 2 * h + 1
    ensures n / 2 == h && n % 2 == 1
  {
  }

  lemma Quartered(n: nat)
    ensures n / 4 == n / 2 / 2
  {
  }

  /** From a table the walk reaches the table of the child, if there is one, and else nothing. */
  lemma DownIs(r: Range, kernel: nat, s: Snap, t: nat, i: nat)
    requires Ok(r, s) && Wired(kernel, s.mem, s.node, s.at)
    requires IsEntry(s.node, Slot(t, i)) && s.node[t].level >= 2
    ensures var n := Child(s.node[t], i);
            Down(s.mem, Some(t), i) == if n in s.at then Some(s.at[n]) else None
  {
    hide Forest, FreeOk, Present, Entry, Target, Wired, Open;
    var n := Child(s.node[t], i);
    ChildPrefix(s.node[t], i);
    TableAt(r, s, t);
    if n in s.at {
      WiredAt(r, kernel, s, n);
      OpenEntry(s.at[n]);
    } else {
      NotPresent(r, s, t, i);
      OpenIsPresent(s.mem[t].e[i]);
    }
  }

  lemma OpenIsPresent(e: nat)
    ensures Open(e) ==> Present(e)
  {
  }

  lemma TableAt(r: Range, s: Snap, t: nat)
    requires Ok(r, s) && t in s.node && 1 <= s.node[t].level
    ensures IsTable(s.mem, t) && s.node[t] in s.at && s.at[s.node[t]] == t && s.node[t].level <= 4
  {
    hide UpOk, DownOk, FreeOk;
    assert NodeOk(r, s.mem, t, s.node[t]);
  }

  lemma NotPresent(r: Range, s: Snap, t: nat, i: nat)
    requires Ok(r, s) && IsEntry(s.node, Slot(t, i)) && Child(s.node[t], i) !in s.at && IsTable(s.mem, t)
    ensures i < NPDENTRIES && !Present(s.mem[t].e[i])
  {
    hide UpOk, FreeOk, NodeOk, Present, Target;
    assert DownOk(s.mem, s.node, Slot(t, i));
  }

  lemma WiredAt(r: Range, kernel: nat, s: Snap, n: Node)
    requires Ok(r, s) && Wired(kernel, s.mem, s.node, s.at) && n in s.at && 1 <= n.level <= 3
    ensures var p := Node(n.root, n.level + 1, n.prefix / NPDENTRIES);
            && p in s.at && IsTable(s.mem, s.at[p])
            && s.mem[s.at[p]].e[n.prefix % NPDENTRIES] == Entry(s.at[n], PTE_W + PTE_U)
  {
    hide DownOk, NodeOk, FreeOk, Entry, Present, Target, RootWired;
    assert UpOk(s.mem, s.at, {}, s.at[n], n);
    assert TableWired(s.mem, s.at, s.at[n], n);
  }

  lemma AboveIs(r: Range, s: Snap, n: Node)
    requires Ok(r, s) && n in s.at && n.level < 4
    ensures Node(n.root, n.level + 1, n.prefix / NPDENTRIES) in s.at
  {
    assert UpOk(s.mem, s.at, {}, s.at[n], n);
  }

  lemma PageIndexes(v: nat)
    requires v < NPAGES
    ensures v / 512 / 512 / 512 < 256 && v / 512 / 512 == v / 512 / 512 / 512 * 512 + v / 512 / 512 % 512
    ensures v / 512 == v / 512 / 512 * 512 + v / 512 % 512
  {
  }

  /** The processor's walk from the root finds exactly the entry of the flat page map. */
  lemma WalkIsPte(r: Range, kernel: nat, s: Snap, root: nat, v: nat)
    requires Ok(r, s) && Wired(kernel, s.mem, s.node, s.at) && IsRoot(s, root) && v < NPAGES
    ensures Walk(s.mem, root, v) == Pte(s, root, v)
  {
    hide Forest, FreeOk, Wired, Down, Present;
    PageIndexes(v);
    var a, b, c := v / 512 / 512 / 512, v / 512 / 512, v / 512;
    RootIs(r, s, root);
    DownIs(r, kernel, s, root, a);
    if Node(root, 3, a) in s.at {
      NodeIs(r, s, Node(root, 3, a));
      DownIs(r, kernel, s, s.at[Node(root, 3, a)], b % 512);
      if Node(root, 2, b) in s.at {
        NodeIs(r, s, Node(root, 2, b));
        DownIs(r, kernel, s, s.at[Node(root, 2, b)], c % 512);
      } else {
        NoneBelow(r, s, Node(root, 1, c));
        NothingDown(s.mem, c % 512);
      }
    } else {
      NoneBelow(r, s, Node(root, 2, b));
      NoneBelow(r, s, Node(root, 1, c));
      NothingDown(s.mem, b % 512);
      NothingDown(s.mem, c % 512);
    }
  }

  lemma NothingDown(mem: seq<Frame>, i: nat)
    ensures Down(mem, None, i) == None
  {
  }

  lemma RootIs(r: Range, s: Snap, root: nat)
    requires Ok(r, s) && IsRoot(s, root)
    ensures Node(root, 4, 0) in s.at && s.at[Node(root, 4, 0)] == root
  {
  }

  lemma NodeIs(r: Range, s: Snap, n: Node)
    requires Ok(r, s) && n in s.at
    ensures s.at[n] in s.node && s.node[s.at[n]] == n
  {
  }

  lemma NoneBelow(r: Range, s: Snap, n: Node)
    requires Ok(r, s) && n.level < 4 && Node(n.root, n.level + 1, n.prefix / NPDENTRIES) !in s.at
    ensures n !in s.at
  {
    if n in s.at { AboveIs(r, s, n); }
  }

  /** A user access to page `v` is allowed: the walk finds an entry, and its bit 2 is set.  Exactly then uva2ka
      finds the frame. */
  lemma UserAccess(r: Range, kernel: nat, s: Snap, root: nat, v: nat)
    requires Ok(r, s) && Wired(kernel, s.mem, s.node, s.at) && IsRoot(s, root) && v < NPAGES
    ensures var e := Walk(s.mem, root, v);
            UserFrame(Pte(s, root, v)) == if e % 2 == 1 && e / 4 % 2 == 1 then e / 4096 else 0
  {
    WalkIsPte(r, kernel, s, root, v);
  }

  /** The user may read and write the bytes from `lo` up to `hi`, and they are zero. */
  ghost predicate ZeroMemory(s: Snap, root: nat, lo: nat, hi: nat) {
    forall a: nat :: lo <= a < hi ==> Open(Walk(s.mem, root, a / PGSIZE)) && UserByte(s, root, a) == 0
  }

  /** Pages that allocuvm added are such memory. */
  lemma NewMemory(r: Range, kernel: nat, s: Snap, s': Snap, root: nat, lo: nat, hi: nat, a: nat)
    requires Ok(r, s') && Wired(kernel, s'.mem, s'.node, s'.at) && IsRoot(s', root) && Alloced(s, s', root, lo, hi)
    requires lo <= a / PGSIZE < hi && a / PGSIZE < NPAGES
    ensures Open(Walk(s'.mem, root, a / PGSIZE)) && UserByte(s', root, a) == 0
  {
    hide Ok, Wired, Walk, Open, Entry, Target, Frames;
    assert FreshPage(s, s', root, a / PGSIZE);
    var f := s'.at[Node(root, 0, a / PGSIZE)];
    WalkIsPte(r, kernel, s', root, a / PGSIZE);
    OpenEntry(f);
  }

  lemma NewPages(r: Range, kernel: nat, s: Snap, s': Snap, root: nat, oldsz: nat, newsz: nat)
    requires Ok(r, s') && Wired(kernel, s'.mem, s'.node, s'.at) && IsRoot(s', root) && newsz <= USERTOP
    requires Alloced(s, s', root, PagesUpTo(oldsz), PagesUpTo(newsz))
    ensures ZeroMemory(s', root, RoundUp(oldsz), newsz)
  {
    hide Ok, Wired, Walk, Open, UserByte, Alloced, IsRoot;
    forall a: nat | RoundUp(oldsz) <= a < newsz
      ensures Open(Walk(s'.mem, root, a / PGSIZE)) && UserByte(s', root, a) == 0
    {
      PageWithin(oldsz, newsz, a);
      NewMemory(r, kernel, s, s', root, PagesUpTo(oldsz), PagesUpTo(newsz), a);
    }
  }

  lemma PageWithin(oldsz: nat, newsz: nat, a: nat)
    requires RoundUp(oldsz) <= a < newsz <= USERTOP
    ensures PagesUpTo(oldsz) <= a / PGSIZE < PagesUpTo(newsz) && a / PGSIZE < NPAGES
  {
  }

  /** From `lo` up to `hi`, address space `d` in `s'` holds the bytes that `root` holds in `s`, and the processor
      finds the same permissions. */
  ghost predicate SameMemory(s: Snap, s': Snap, root: nat, d: nat, lo: nat, hi: nat) {
    forall a: nat :: lo <= a < hi ==>
      && UserByte(s', d, a) == UserByte(s, root, a)
      && Walk(s'.mem, d, a / PGSIZE) % PGSIZE == Walk(s.mem, root, a / PGSIZE) % PGSIZE
  }

  lemma CopiedByte(r: Range, kernel: nat, s: Snap, s': Snap, root: nat, d: nat, lo: nat, hi: nat, a: nat)
    requires Ok(r, s) && Wired(kernel, s.mem, s.node, s.at) && IsRoot(s, root)
    requires Ok(r, s') && Wired(kernel, s'.mem, s'.node, s'.at) && IsRoot(s', d)
    requires Copied(s, s', root, d, lo, hi) && lo <= a / PGSIZE < hi && a / PGSIZE < NPAGES
    ensures UserByte(s', d, a) == UserByte(s, root, a)
    ensures Walk(s'.mem, d, a / PGSIZE) % PGSIZE == Walk(s.mem, root, a / PGSIZE) % PGSIZE
  {
    hide Ok, Wired, Walk, Pte, Entry, Target, Frames, Present;
    var v := a / PGSIZE;
    var e := Pte(s, root, v);
    assert CopiedPage(s, s', root, d, v);
    WalkIsPte(r, kernel, s, root, v);
    WalkIsPte(r, kernel, s', d, v);
    FoundIsPresent(s.mem, root, v);
    EntryParts(s'.at[Node(d, 0, v)], Flags(e));
    OddFlags(e);
  }

  lemma FoundIsPresent(mem: seq<Frame>, root: nat, v: nat)
    ensures Walk(mem, root, v) != 0 ==> Present(Walk(mem, root, v))
  {
    hide Down, Present;
  }

  lemma OddFlags(e: nat)
    ensures Present(e) ==> Flags(e) % 2 == 1
  {
  }

  /** The pages that copyuvm copied. */
  lemma CopiedMemory(r: Range, kernel: nat, s: Snap, s': Snap, root: nat, d: nat, sz: nat)
    requires Ok(r, s) && Wired(kernel, s.mem, s.node, s.at) && IsRoot(s, root) && sz <= USERTOP
    requires Ok(r, s') && Wired(kernel, s'.mem, s'.node, s'.at) && IsRoot(s', d)
    requires Copied(s, s', root, d, 1, Max(1, PagesUpTo(sz)))
    ensures SameMemory(s, s', root, d, PGSIZE, sz)
  {
    hide Ok, Wired, Walk, UserByte, Copied, IsRoot;
    forall a: nat | PGSIZE <= a < sz
      ensures UserByte(s', d, a) == UserByte(s, root, a)
      ensures Walk(s'.mem, d, a / PGSIZE) % PGSIZE == Walk(s.mem, root, a / PGSIZE) % PGSIZE
    {
      PageWithin(PGSIZE, sz, a);
      CopiedByte(r, kernel, s, s', root, d, 1, Max(1, PagesUpTo(sz)), a);
    }
  }
}
