/** The code of kalloc.c and vm.c that builds and tears down page tables. */
module Vm {
  import opened Common
  import opened VmTree
  import opened VmSnap
  import opened VmFree
  import opened VmCopy
  import opened VmCount
  import opened VmWired

  class Machine {
    const r: Range
    const kernel: nat          // the entry for the kernel's half of every address space
    var mem: seq<Frame>
    var free: seq<nat>
    ghost var node: map<nat, Node>
    ghost var at: map<Node, nat>

    ghost function S(): Snap
      reads this
    {
      Snap(mem, free, node, at)
    }

    ghost predicate Valid()
      reads this
    {
      Ok(r, S()) && Wired(kernel, mem, node, at)
    }

    // ----- The frame allocator -----

    /** Take the first frame of the free list, 0 when it is empty. */
    method Kalloc() returns (f: nat)
      requires Valid()
      modifies this`free
      ensures old(free) == [] ==> f == 0 && free == []
      ensures old(free) != [] ==> f == old(free)[0] != 0 && free == old(free)[1..]
      ensures Valid() && (f != 0 ==> IsFrame(r, f) && f !in node && f !in free)
      ensures f != 0 ==> FreeSet(S()) + {f} == old(FreeSet(S()))
    {
      hide Forest, Wired;
      if free == [] { return 0; }
      f := free[0];
      free := free[1..];
      assert old(free) == [f] + free;
    }

    /** Put a frame on the free list; false stands for the panic on a bad address. */
    method Kfree(f: nat) returns (ok: bool)
      requires r.hi <= |mem|
      modifies this`mem, this`free
      ensures ok <==> IsFrame(r, f)
      ensures ok ==> mem == old(mem)[f := Junk] && free == [f] + old(free)
      ensures !ok ==> unchanged(this)
    {
      if !(0 < r.lo <= f < r.hi) { return false; }
      mem := mem[f := Junk];
      free := [f] + free;
      return true;
    }

    // ----- Walking -----

    /** One level down: the table that entry `i` of table `t` points to, allocated if `alloc`. */
    method Next(t: nat, i: nat, alloc: bool) returns (c: nat)
      requires Valid() && IsEntry(node, Slot(t, i)) && node[t].level >= 2
      modifies this
      ensures Valid() && Stepped(old(S()), S(), t, i, alloc, c)
      ensures c == 0 ==> at == old(at) && free == old(free)
      ensures c != 0 ==> at == old(at)[old(Child(node[t], i)) := c]
      ensures c != 0 ==> |free| + (if old(Child(node[t], i) in at) then 0 else 1) == old(|free|)
    {
      hide UpOk, DownOk, PteOf, Present, Target, Entry, FreeOk, Frames, Wired;
      NodeIsTable(r, mem, t, node[t]);
      var e := mem[t].e[i];
      GrewSelf(S());
      if Present(e) {
        c := Target(e);
        PresentChild(r, mem, node, at, t, i);
        return;
      }
      AbsentChild(r, mem, node, at, t, i);
      if !alloc { return 0; }
      ghost var s := S();
      c := Kalloc();
      if c == 0 { return; }
      mem := mem[c := ZeroTable()];
      mem := mem[t := Table(mem[t].e[i := Entry(c, PTE_W + PTE_U)])];
      node, at := node[c := Child(node[t], i)], at[Child(node[t], i) := c];
      NewTable(r, s, t, i, c, S());
      TableAdded(r, kernel, s, t, i, c, S());
    }

    /** Walk to the page table of `va`, allocating missing tables if `alloc`; 0 when there is none. */
    method WalkPgdir(root: nat, va: nat, alloc: bool) returns (t: nat)
      requires Valid() && IsRoot(S(), root) && va < USERTOP
      modifies this
      ensures Valid() && Walked(old(S()), S(), root, va / PGSIZE, alloc, t)
      ensures alloc ==> (t == 0 <==> old(|free|) < Missing(old(S()), root, va / PGSIZE, 1))
      ensures alloc && t != 0 ==>
                && |free| + Missing(old(S()), root, va / PGSIZE, 1) == old(|free|)
                && Tabled(old(S()), S(), root, va / PGSIZE, 1)
    {
      hide Ok, Pte, Frames, Wired, FreeSet;
      IndexSpell(va);
      ghost var s0, v := S(), va / PGSIZE;
      assert Node(root, 1, v / 512) in at ==>
               Node(root, 2, v / 512 / 512) in at && Node(root, 3, v / 512 / 512 / 512) in at by {
        if Node(root, 1, v / 512) in at { Ancestors(r, s0, root, v / 512); }
      }
      t := Next(root, PMX(va), alloc);
      if t == 0 { return; }
      ghost var s1 := S();
      assert node[t] == Node(root, 3, v / 512 / 512 / 512);
      assert Node(root, 1, v / 512) in at ==> Node(root, 2, v / 512 / 512) in at by {
        if Node(root, 1, v / 512) in at { Ancestors(r, s1, root, v / 512); }
      }
      t := Next(t, PDPX(va), alloc);
      GrewTrans(s0, s1, S());
      if t == 0 { return; }
      ghost var s2 := S();
      assert node[t] == Node(root, 2, v / 512 / 512);
      t := Next(t, PDX(va), alloc);
      GrewTrans(s0, s2, S());
    }

    // ----- Mapping -----

    /** Map one page of `root` to frame `f`. */
    method MapPage(root: nat, va: nat, f: nat, perm: nat) returns (ret: MapRet)
      requires Valid() && IsRoot(S(), root) && va < USERTOP && perm < PGSIZE
      requires IsFrame(r, f) && f !in Frames(S()) && mem[f].Data? && |mem[f].bytes| == PGSIZE
      modifies this
      ensures Valid() && IsRoot(S(), root)
      ensures ret == Mapped1 ==> Mapped(old(S()), S(), root, va / PGSIZE, f, 1, perm)
      ensures ret == NoMemory ==> Grew(old(S()), S()) && free == []
      ensures ret == NoMemory <==> old(|free|) < Missing(old(S()), root, va / PGSIZE, 1)
      ensures ret != NoMemory ==>
                && |free| + Missing(old(S()), root, va / PGSIZE, 1) == old(|free|)
                && Tabled(old(S()), S(), root, va / PGSIZE, 1)
      ensures ret == Remap ==> Grew(old(S()), S()) && Pte(S(), root, va / PGSIZE) != 0
      ensures ret == Mapped1 ==> Pte(old(S()), root, va / PGSIZE) == 0
    {
      hide Forest, FreeOk, Pte, Frames, Present, Entry, Wired;
      ghost var s0, v := S(), va / PGSIZE;
      var t := WalkPgdir(root, va, true);
      if t == 0 { return NoMemory; }
      ghost var s := S();
      IndexSpell(va);
      TableEntry(r, s, root, v, t);
      if Present(mem[t].e[PTX(va)]) { return Remap; }
      GrewLoose(r, s0, s, f);
      mem := mem[t := Table(mem[t].e[PTX(va) := Entry(f, perm)])];
      node, at := node[f := Node(root, 0, v)], at[Node(root, 0, v) := f];
      NewPage(r, s, root, v, t, f, perm, S());
      LowChange(r, kernel, s, t, mem[t], f, Node(root, 0, v), S());
      GrewMapped(s0, s, S(), root, v, f, perm);
      return Mapped1;
    }

    /** Frames that belong to nobody and hold user data. */
    ghost predicate Stray(f0: nat, n: nat)
      reads this
    {
      forall f :: f0 <= f < f0 + n ==>
        IsFrame(r, f) && f < |mem| && f !in Frames(S()) && mem[f].Data? && |mem[f].bytes| == PGSIZE
    }

    /** Map the pages that hold `va .. va + size` to consecutive frames from `pa`; `k` of them are
        mapped when the call returns. */
    method MapPages(root: nat, va: nat, size: nat, pa: nat, perm: nat) returns (ret: MapRet, ghost k: nat)
      requires Valid() && IsRoot(S(), root) && 1 <= size && va + size <= USERTOP && perm < PGSIZE
      requires pa % PGSIZE == 0 && Stray(pa / PGSIZE, (va + size - 1) / PGSIZE - va / PGSIZE + 1)
      modifies this
      ensures Valid() && IsRoot(S(), root)
      ensures Mapped(old(S()), S(), root, va / PGSIZE, pa / PGSIZE, k, perm)
      ensures ret == Mapped1 ==> k == (va + size - 1) / PGSIZE - va / PGSIZE + 1
      ensures ret != Mapped1 ==> k < (va + size - 1) / PGSIZE - va / PGSIZE + 1
      ensures ret == NoMemory ==>
                && free == [] && Missing(old(S()), root, va / PGSIZE, k) <= old(|free|)
                && old(|free|) < Missing(old(S()), root, va / PGSIZE, k + 1)
      ensures ret == Mapped1 ==>
                && |free| + Missing(old(S()), root, va / PGSIZE, k) == old(|free|)
                && Tabled(old(S()), S(), root, va / PGSIZE, k)
      ensures ret == Remap ==> Pte(S(), root, va / PGSIZE + k) != 0
    {
      hide Forest, FreeOk, Pte, Frames, Present, Entry, Mapped, Grew, Missing, Tabled, TableNodes, Wired;
      var a, last, f := va / PGSIZE * PGSIZE, (va + size - 1) / PGSIZE * PGSIZE, pa / PGSIZE;
      ghost var s0 := S();
      k := 0;
      MappedNone(s0, root, va / PGSIZE, pa / PGSIZE, perm);
      TabledNone(s0, root, va / PGSIZE);
      while true
        invariant Valid() && IsRoot(S(), root)
        invariant a == va / PGSIZE * PGSIZE + k * PGSIZE <= last && f == pa / PGSIZE + k
        invariant Mapped(s0, S(), root, va / PGSIZE, pa / PGSIZE, k, perm)
        invariant |free| + Missing(s0, root, va / PGSIZE, k) == |s0.free| && Tabled(s0, S(), root, va / PGSIZE, k)
        decreases last - a
      {
        ghost var s := S();
        assert a / PGSIZE == va / PGSIZE + k;
        StillStray(s0, s, root, va / PGSIZE, pa / PGSIZE, k, perm, f);
        MissingMore(s0, s, root, va / PGSIZE, k);
        ret := MapPage(root, a, f, perm);
        if ret != Mapped1 {
          MappedGrew(s0, s, S(), root, va / PGSIZE, pa / PGSIZE, k, perm);
          return;
        }
        MappedMore(s0, s, S(), root, va / PGSIZE, pa / PGSIZE, k, perm);
        TabledMore(s0, s, S(), root, va / PGSIZE, k);
        k := k + 1;
        if a == last { return; }
        a, f := a + PGSIZE, f + 1;
      }
    }

    // ----- Shrinking -----

    /** Unmap one page and free its frame, if it is mapped; false stands for the panic on frame 0. */
    method UnmapPage(root: nat, va: nat) returns (ok: bool)
      requires Valid() && IsRoot(S(), root) && va < USERTOP
      modifies this
      ensures ok && Valid() && IsRoot(S(), root)
      ensures Unmapped(old(S()), S(), root, va / PGSIZE, va / PGSIZE + 1)
    {
      hide Forest, FreeOk, Pte, Frames, Present, Target, Entry, Unmapped, Wired;
      ghost var s, v := S(), va / PGSIZE;
      var t := WalkPgdir(root, va, false);
      IndexSpell(va);
      if t != 0 {
        TableEntry(r, s, root, v, t);
        if Present(mem[t].e[PTX(va)]) {
          var f := Target(mem[t].e[PTX(va)]);
          PageFrame(r, s, root, v, t);
          if f == 0 { return false; }
          ok := Kfree(f);
          mem := mem[t := Table(mem[t].e[PTX(va) := 0])];
          node, at := node - {f}, at - {Node(root, 0, v)};
          OldPage(r, s, root, v, t, f, S());
          WiredKept(r, kernel, s, S(), {});
          return true;
        }
      }
      NoTable(r, s, root, v);
      NoPage(r, s, root, v);
      ok := true;
    }

    /** Bring the size of a process down from `oldsz` to `newsz`: exactly the pages in between go,
        and their frames are free again. */
    method DeallocUvm(root: nat, oldsz: nat, newsz: nat) returns (sz: nat)
      requires Valid() && IsRoot(S(), root) && oldsz <= USERTOP
      modifies this
      ensures Valid() && IsRoot(S(), root)
      ensures sz == if newsz >= oldsz then oldsz else newsz
      ensures newsz >= oldsz ==> unchanged(this)
      ensures newsz < oldsz ==> Unmapped(old(S()), S(), root, PagesUpTo(newsz), Max(PagesUpTo(newsz), PagesUpTo(oldsz)))
    {
      hide Forest, FreeOk, Pte, Frames, Unmapped, IsRoot, Wired;
      if newsz >= oldsz { return oldsz; }
      ghost var s0 := S();
      var a := RoundUp(newsz);
      UnmappedNone(s0, root, PagesUpTo(newsz));
      while a < oldsz
        invariant Valid() && IsRoot(S(), root)
        invariant a % PGSIZE == 0 && PagesUpTo(newsz) <= a / PGSIZE <= Max(PagesUpTo(newsz), PagesUpTo(oldsz))
        invariant Unmapped(s0, S(), root, PagesUpTo(newsz), a / PGSIZE)
      {
        ghost var s := S();
        var ok := UnmapPage(root, a);
        UnmappedMore(s0, s, S(), root, PagesUpTo(newsz), a / PGSIZE);
        a := a + PGSIZE;
      }
      return newsz;
    }

    // ----- Growing -----

    /** Grow a process from `oldsz` to `newsz`.  On success exactly the pages in between are new,
        writable and zero.  When memory runs out, every translation is what it was. */
    method AllocUvm(root: nat, oldsz: nat, newsz: nat) returns (sz: nat)
      requires Valid() && IsRoot(S(), root) && oldsz <= USERTOP && (newsz <= USERTOP || newsz >= KERNBASE)
      requires forall v: nat :: PagesUpTo(oldsz) <= v < PagesUpTo(newsz) ==> Pte(S(), root, v) == 0
      modifies this
      ensures Valid() && IsRoot(S(), root)
      ensures newsz >= KERNBASE ==> sz == 0 && unchanged(this)
      ensures newsz < KERNBASE && newsz < oldsz ==> sz == oldsz && unchanged(this)
      ensures newsz < KERNBASE && newsz >= oldsz ==> sz == newsz || sz == 0
      ensures oldsz <= newsz < KERNBASE && sz == newsz != 0 ==>
                && Alloced(old(S()), S(), root, PagesUpTo(oldsz), PagesUpTo(newsz))
                && ZeroMemory(S(), root, RoundUp(oldsz), newsz)
      ensures oldsz <= newsz < KERNBASE && sz == 0 ==> Grew(old(S()), S())
      ensures oldsz <= newsz < KERNBASE ==>
                (sz == newsz <==>
                 Needed(old(S()), root, PagesUpTo(oldsz), PagesUpTo(newsz) - PagesUpTo(oldsz)) <= old(|free|))
    {
      hide Forest, FreeOk, Pte, Frames, Entry, Alloced, Unmapped, Grew, Missing, Tabled, TableNodes, Needed, Wired,
           ZeroMemory;
      if newsz >= KERNBASE { return 0; }
      if newsz < oldsz { return oldsz; }
      ghost var s0, lo, hi := S(), PagesUpTo(oldsz), PagesUpTo(newsz);
      var a := RoundUp(oldsz);
      AllocedNone(s0, root, lo);
      TabledNone(s0, root, lo);
      NeededIs(s0, root, lo, 0);
      while a < newsz
        invariant Valid() && IsRoot(S(), root)
        invariant a % PGSIZE == 0 && lo <= a / PGSIZE <= hi
        invariant Alloced(s0, S(), root, lo, a / PGSIZE) && Tabled(s0, S(), root, lo, a / PGSIZE - lo)
        invariant |free| + Needed(s0, root, lo, a / PGSIZE - lo) == |s0.free|
      {
        ghost var s, v := S(), a / PGSIZE;
        MissingMore(s0, s, root, lo, v - lo);
        NeededIs(s0, root, lo, v - lo);
        NeededIs(s0, root, lo, v - lo + 1);
        NeededIs(s0, root, lo, hi - lo);
        var grown := GrowPage(root, a, newsz, oldsz, s0);
        if !grown {
          MissingGrows(s0, root, lo, v - lo + 1, hi - lo);
          return 0;
        }
        AllocedMore(r, s0, s, S(), root, lo, v);
        TabledMore(s0, s, S(), root, lo, v - lo);
        a := a + PGSIZE;
      }
      assert a / PGSIZE == hi;
      NewPages(r, kernel, s0, S(), root, oldsz, newsz);
      if newsz == 0 { AllocedNoneGrew(s0, S(), root, lo); }
      return newsz;
    }

    /** One turn of the loop: a zeroed frame for the page at `a`, or everything undone. */
    method GrowPage(root: nat, a: nat, newsz: nat, oldsz: nat, ghost s0: Snap) returns (ok: bool)
      requires Valid() && IsRoot(S(), root) && oldsz <= newsz <= USERTOP && a % PGSIZE == 0 && a < newsz
      requires PagesUpTo(oldsz) <= a / PGSIZE
      requires forall v: nat :: PagesUpTo(oldsz) <= v < PagesUpTo(newsz) ==> Pte(s0, root, v) == 0
      requires Alloced(s0, S(), root, PagesUpTo(oldsz), a / PGSIZE) && Ok(r, s0)
      modifies this
      ensures Valid() && IsRoot(S(), root)
      ensures ok ==> Alloced(old(S()), S(), root, a / PGSIZE, a / PGSIZE + 1)
      ensures ok ==> |free| + 1 + Missing(old(S()), root, a / PGSIZE, 1) == old(|free|)
      ensures ok ==> Tabled(old(S()), S(), root, a / PGSIZE, 1)
      ensures !ok ==> Grew(s0, S()) && old(|free|) < 1 + Missing(old(S()), root, a / PGSIZE, 1)
    {
      hide Forest, FreeOk, Pte, Frames, Entry, Alloced, Unmapped, Grew, Mapped, Missing, Tabled, TableNodes, Wired;
      ghost var s, v, lo, hi := S(), a / PGSIZE, PagesUpTo(oldsz), PagesUpTo(newsz);
      StillFree(s0, s, root, lo, v);
      var f := Kalloc();
      if f == 0 {
        var _ := DeallocUvm(root, newsz, oldsz);
        UndoAlloc(r, s0, s, S(), root, lo, v, hi);
        return false;
      }
      mem := mem[f := ZeroPage()];
      ghost var s1 := S();
      TakenOk(r, s, s1, f, ZeroPage());
      WiredKept(r, kernel, s, s1, {});
      SameTables(s, s1, root, v);
      assert (a + PGSIZE - 1) / PGSIZE - a / PGSIZE + 1 == 1 && f * PGSIZE / PGSIZE == f;
      var ret, k := MapPages(root, a, PGSIZE, f * PGSIZE, PTE_W + PTE_U);
      ghost var s2 := S();
      if ret != Mapped1 {
        assert Pte(s1, root, v) == Pte(s, root, v) == 0;
        NoneMapped(s1, s2, root, v, f, PTE_W + PTE_U);
        var _ := DeallocUvm(root, newsz, oldsz);
        ghost var s3 := S();
        TakenStillOut(r, s, s1, s2, s3, root, v, f, lo, hi);
        var _ := Kfree(f);
        GiveBack(r, s3, S(), f);
        OutsideTrees(s3, f);
        WiredKept(r, kernel, s3, S(), {});
        UndoTaken(r, s0, s, s1, s2, s3, S(), root, lo, v, hi, f);
        return false;
      }
      TakenMapped(r, s, s1, s2, root, v, f);
      SameTabled(s, s1, s2, root, v);
      return true;
    }

    // ----- Tearing down -----

    /** Free everything under the first `n` entries of table `c`. */
    method FreeChildren(c: nat, level: nat, n: nat, ghost dead: set<Slot>) returns (ghost dead': set<Slot>)
      requires c in node && node[c].level == level && 1 <= level <= 4 && n == Width(level) && IsTable(mem, c)
      requires forall q :: q in dead ==> q.t != c && q.t !in UnderFirstSet(S(), node[c], n)
      requires OkExcept(r, S(), dead) && Wired(kernel, mem, node, at)
      modifies this
      ensures OkExcept(r, S(), dead') && Wired(kernel, mem, node, at)
      ensures Freed(old(S()), S(), old(UnderFirstSet(S(), node[c], n)))
      ensures old(c in node) && DeadOk(old(S()), c, n, dead, dead') && Seen(mem, c, n, dead')
      ensures c in node && node[c] == old(node[c])
      decreases level, 0
    {
      hide Forest, FreeOk, Present, Target, UnderFirst, Under, Freed, DeadOk, Seen, FreeSet, Wired;
      ghost var s0, m := S(), node[c];
      dead' := dead;
      NoneDone(r, s0, c, dead);
      var i := 0;
      while i < n
        invariant 0 <= i <= n
        invariant OkExcept(r, S(), dead') && Wired(kernel, mem, node, at) && Freed(s0, S(), UnderFirstSet(s0, m, i))
        invariant DeadOk(s0, c, i, dead, dead') && Seen(mem, c, i, dead')
        invariant c in node && node[c] == m
      {
        ghost var s, d := S(), dead';
        ChildReady(s0, s, c, i, n, dead, d);
        SeenTable(mem, c, i, d);
        var e := mem[c].e[i];
        if Present(e) {
          LiveChild(r, s, d, c, i);
          dead' := FreeUnder(Target(e), level - 1, d);
        } else {
          NothingUnder(r, s, d, c, i);
          NothingFreed(r, s, d);
        }
        ChildDone(s0, s, S(), c, i, dead, d, dead');
        StillThere(s0, s, S(), c, i);
        SeenMore(s.mem, mem, c, i, d, dead');
        i := i + 1;
      }
    }

    /** Free table or page `c` and everything under it.  `dead` are the entries that already point to
        freed frames. */
    method FreeUnder(c: nat, level: nat, ghost dead: set<Slot>) returns (ghost dead': set<Slot>)
      requires c in node && node[c].level == level <= 3
      requires forall q :: q in dead ==> q.t !in UnderSet(S(), node[c])
      requires OkExcept(r, S(), dead) && Wired(kernel, mem, node, at)
      modifies this
      ensures OkExcept(r, S(), dead') && Wired(kernel, mem, node, at)
      ensures Freed(old(S()), S(), old(UnderSet(S(), node[c])))
      ensures old(SlotOf(node, at, c)) in dead'
      ensures forall q :: q in dead' ==>
                q in dead || q == old(SlotOf(node, at, c)) || q.t in old(UnderSet(S(), node[c]))
      ensures dead <= dead'
      decreases level, 1
    {
      hide Forest, FreeOk, Present, Target, UnderFirst, Under, Freed, DeadOk, Seen, FreeSet, Wired;
      ghost var s0, m := S(), node[c];
      UnderReady(r, s0, dead, c);
      dead' := dead;
      if level > 0 {
        dead' := FreeChildren(c, level, NPDENTRIES, dead);
      } else {
        NothingFreed(r, s0, dead);
      }
      ghost var s1 := S();
      LeafReady(r, s0, s1, c, dead, dead');
      var _ := Kfree(c);
      node, at := node - {c}, at - {m};
      DropFrame(r, s1, dead', c, S());
      WiredKept(r, kernel, s1, S(), dead' + {SlotOf(s1.node, s1.at, c)});
      AllFreed(r, s0, s1, S(), c, dead, dead');
      dead' := dead' + {SlotOf(s1.node, s1.at, c)};
    }

    /** Free an address space: every page and every table of its lower half, and the root, each once,
        and nothing else; the kernel's tables in the upper half are not touched. */
    method FreeVm(root: nat)
      requires Valid() && IsRoot(S(), root)
      modifies this
      ensures Valid() && Freed(old(S()), S(), old(TreeSet(S(), root)))
      ensures Frames(S()) == old(Frames(S()))
      ensures forall x: nat, v: nat :: Pte(S(), x, v) == if x == root then 0 else old(Pte(S(), x, v))
    {
      hide Forest, FreeOk, Present, UnderFirst, Under, Freed, DeadOk, Seen, FreeSet, Frames, Pte, Wired;
      ghost var s0 := S();
      OkIsOkExcept(r, s0, root);
      ghost var dead := FreeChildren(root, 4, NPDENTRIES / 2, {});
      ghost var s1 := S();
      RootReady(r, s0, s1, root, dead);
      var _ := Kfree(root);
      node, at := node - {root}, at - {Node(root, 4, 0)};
      DropFrame(r, s1, dead, root, S());
      WiredKept(r, kernel, s1, S(), dead + {SlotOf(s1.node, s1.at, root)});
      TreeFreed(r, s0, s1, S(), root, dead);
      FreedMaps(r, s0, S(), root);
    }

    // ----- Copying -----

    /** A new address space that maps nothing but the kernel; 0 stands for the store through a null
        pointer when no frame is free. */
    method SetupKvm() returns (root: nat)
      requires Valid()
      modifies this
      ensures root == 0 <==> old(free) == []
      ensures root == 0 ==> S() == old(S())
      ensures root != 0 ==> Valid() && IsRoot(S(), root) && Grew(old(S()), S()) && old(root !in node)
      ensures root != 0 ==> |free| + 1 == old(|free|) && at == old(at)[Node(root, 4, 0) := root]
      ensures root != 0 ==>
                && IsTable(mem, root) && mem[root].e[256] == kernel
                && forall k :: 0 <= k < NPDENTRIES && k != 256 ==> mem[root].e[k] == 0
    {
      hide Forest, FreeOk, Pte, Frames, FreeSet, Grew, Wired;
      ghost var s := S();
      root := Kalloc();
      if root == 0 { return; }
      mem := mem[root := EmptyRoot(kernel)];
      node, at := node[root := Node(root, 4, 0)], at[Node(root, 4, 0) := root];
      NewRoot(r, s, root, kernel, S());
      RootAdded(r, kernel, s, root, S());
      RootFrame(kernel, mem, root);
    }

    /** Copy pages 1 up to `sz` of an address space into a new one, `d`.  `missing` stands for the panic
        on a page of the parent that is not mapped, which is met exactly if memory lasts that far, and
        `fault` for the store through a null pointer when no frame is free.  0 is returned exactly when
        memory runs out; then a frame is lost if it ran out between the frame of a page and the last of its
        tables, and otherwise none is. */
    method CopyUvm(root: nat, sz: nat)
      returns (d: nat, missing: bool, fault: bool, ghost leaked: set<nat>)
      requires Valid() && IsRoot(S(), root) && sz < 0x1_0000_0000
      modifies this
      ensures fault <==> old(free) == []
      ensures !missing && !fault ==> Valid()
      ensures !missing && d != 0 ==>
                && old(d !in node) && IsRoot(S(), d)
                && Copied(old(S()), S(), root, d, 1, Max(1, PagesUpTo(sz)))
                && SameMemory(old(S()), S(), root, d, PGSIZE, sz)
      ensures missing <==> old(MeetsHole(S(), root, PagesUpTo(sz), |free|))
      ensures missing ==>
                && Valid() && old(d !in node) && IsRoot(S(), d)
                && exists v: nat :: FirstHole(old(S()), root, v, PagesUpTo(sz)) && Copied(old(S()), S(), root, d, 1, v)
      ensures !missing && !fault ==>
                (d != 0 <==> 1 + FreshNeed(Max(1, PagesUpTo(sz)) - 1) <= old(|free|))
      ensures !missing && !fault && d == 0 ==>
                && SameMap(old(S()), S())
                && Frames(S()) + leaked == old(Frames(S())) && leaked !! Frames(S()) && |leaked| <= 1
                && (leaked != {} <==> RunsOutMidway(old(|free|) - 1, Max(1, PagesUpTo(sz)) - 1))
    {
      hide Forest, FreeOk, Pte, Frames, FreeSet, Grew, Copied, Mapped, Target, Flags, Freed, Missing, TableNodes,
           RunsOutMidway, FreshNeed, Tabled, FirstHole, MeetsHole, NoHoles, Wired, SameMemory;
      ghost var s0, pages := S(), Max(1, PagesUpTo(sz)) - 1;
      leaked, missing, fault := {}, false, false;
      d := SetupKvm();
      NoHolesYet(s0, root);
      if d == 0 { NoMemoryForHole(s0, root, 0, PagesUpTo(sz), 0); return 0, false, true, leaked; }
      ghost var s1 := S();
      RootStays(s0, s1, root);
      RootAlone(r, s0, s1, d);
      var i := PGSIZE;
      CopiedNone(s1, root, d, 1);
      TabledNone(s1, d, 1);
      FreshNone();
      while i < sz
        invariant Valid() && IsRoot(S(), root) && IsRoot(S(), d)
        invariant i % PGSIZE == 0 && 1 <= i / PGSIZE <= pages + 1
        invariant Copied(s1, S(), root, d, 1, i / PGSIZE) && Tabled(s1, S(), d, 1, i / PGSIZE - 1)
        invariant |free| + 1 + FreshNeed(i / PGSIZE - 1) == |s0.free| && NoHoles(s0, root, i / PGSIZE)
      {
        ghost var s, v := S(), i / PGSIZE;
        SourceStays(s0, s1, s, root, d, v);
        NoTree(r, s0, d, v);
        FreshStep(s1, s, d, v);
        var found, copied;
        found, copied, leaked := CopyPage(root, d, i);
        if !found {
          HoleMet(s0, root, v, PagesUpTo(sz), |s0.free|);
          GrewCopied(r, s0, s1, S(), root, d, 1, v);
          return d, true, false, leaked;
        }
        NoHolesMore(s0, root, v);
        if !copied {
          ghost var s2 := S();
          NeedGrows(v, pages);
          NoMemoryForHole(s0, root, v, PagesUpTo(sz), |s0.free|);
          MidwayExactly(|s0.free| - 1, v - 1, pages);
          FreeVm(d);
          UndoCopy(r, s0, s1, s, s2, S(), root, d, v);
          FramesKept(s0, s1, s, root, d, v);
          return 0, false, false, leaked;
        }
        CopiedMore(r, s1, s, S(), root, d, 1, v);
        TabledMore(s1, s, S(), d, 1, v - 1);
        RootsStay(s, S(), root, d, v);
        i := i + PGSIZE;
      }
      NoHoleAtAll(s0, root, i / PGSIZE, PagesUpTo(sz), |s0.free|);
      GrewCopied(r, s0, s1, S(), root, d, 1, i / PGSIZE);
      CopiedMemory(r, kernel, s0, S(), root, d, sz);
    }

    /** Copy the page at `va`. */
    method CopyPage(root: nat, d: nat, va: nat) returns (found: bool, copied: bool, ghost leaked: set<nat>)
      requires Valid() && IsRoot(S(), root) && IsRoot(S(), d) && root != d && va % PGSIZE == 0 && va + PGSIZE <= USERTOP
      requires Pte(S(), d, va / PGSIZE) == 0
      modifies this
      ensures found <==> old(Pte(S(), root, va / PGSIZE)) != 0
      ensures Valid() && IsRoot(S(), root) && IsRoot(S(), d)
      ensures !found ==> S() == old(S())
      ensures found && copied ==> Copied(old(S()), S(), root, d, va / PGSIZE, va / PGSIZE + 1)
      ensures found && copied ==> |free| + 1 + Missing(old(S()), d, va / PGSIZE, 1) == old(|free|)
      ensures found && copied ==> Tabled(old(S()), S(), d, va / PGSIZE, 1)
      ensures found && !copied ==>
                SameMap(old(S()), S()) && Frames(S()) + leaked == old(Frames(S())) && leaked !! Frames(S())
      ensures found && !copied ==>
                && old(|free|) < 1 + Missing(old(S()), d, va / PGSIZE, 1)
                && leaked == if old(free) == [] then {} else {old(free)[0]}
    {
      hide Forest, FreeOk, Pte, Frames, FreeSet, Grew, Copied, Mapped, Target, Flags, Present, Missing, Tabled,
           TableNodes, Wired;
      ghost var s, v := S(), va / PGSIZE;
      leaked, found, copied := {}, false, false;
      IndexSpell(va);
      var t := WalkPgdir(root, va, false);
      if t == 0 { NoTable(r, s, root, v); return; }
      TableEntry(r, s, root, v, t);
      var e := mem[t].e[PTX(va)];
      if !Present(e) { return; }
      found := true;
      MappedFrame(r, s, root, v);
      SameSelf(s);
      var f := Kalloc();
      if f == 0 { return; }
      mem := mem[f := mem[Target(e)]];
      ghost var s1 := S();
      TakenOk(r, s, s1, f, s.mem[Target(e)]);
      WiredKept(r, kernel, s, s1, {});
      SameTables(s, s1, d, v);
      assert Pte(s1, d, v) == Pte(s, d, v);
      assert (va + PGSIZE - 1) / PGSIZE - va / PGSIZE + 1 == 1 && f * PGSIZE / PGSIZE == f;
      var ret, k := MapPages(d, va, PGSIZE, f * PGSIZE, Flags(e));
      ghost var s2 := S();
      MappedRoots(s1, s2, d, v, f, k, Flags(e), root);
      if ret != Mapped1 {
        leaked := {f};
        NotMapped(s, s1, s2, d, v, f, Flags(e));
        return;
      }
      CopyStep(r, s, s1, s2, root, d, v, f);
      SameTabled(s, s1, s2, d, v);
      copied := true;
    }

    // ----- Writing into an address space -----

    /** The frame of a user page: 0 when it is not mapped for the user; `fault` stands for the null
        dereference when there is no page table. */
    method Uva2ka(root: nat, va: nat) returns (f: nat, fault: bool)
      requires Valid() && IsRoot(S(), root) && va < USERTOP
      modifies this
      ensures S() == old(S())
      ensures fault <==> Node(root, 1, va / PGSIZE / NPDENTRIES) !in at
      ensures fault ==> Pte(S(), root, va / PGSIZE) == 0
      ensures !fault ==> f == UserFrame(Pte(S(), root, va / PGSIZE))
    {
      hide Forest, FreeOk, Frames, Grew, Pte, Present, Target, Wired;
      ghost var s := S();
      IndexSpell(va);
      var t := WalkPgdir(root, va, false);
      if t == 0 { NoTable(r, s, root, va / PGSIZE); return 0, true; }
      TableEntry(r, s, root, va / PGSIZE, t);
      var e := mem[t].e[PTX(va)];
      if !Present(e) { return 0, false; }
      if e / PTE_U % 2 == 0 { return 0, false; }
      return Target(e), false;
    }

    /** Copy bytes to user address `va`.  It succeeds exactly when every page touched is mapped for the
        user.  What is written, in any case, is one flat write of the bytes before the first page that is
        not; `fault` stands for the null dereference when that has no page table. */
    method CopyOut(root: nat, va: nat, data: seq<byte>) returns (ok: bool, fault: bool, ghost done: nat)
      requires Valid() && IsRoot(S(), root) && va + |data| <= USERTOP
      modifies this
      ensures Valid() && done <= |data| && Poked(old(S()), S(), root, va, data[..done])
      ensures ok ==> !fault && done == |data| && Poked(old(S()), S(), root, va, data)
      ensures !ok ==>
                && done < |data| && (done > 0 ==> (va + done) % PGSIZE == 0)
                && old(UserFrame(Pte(S(), root, (va + done) / PGSIZE))) == 0
                && (forall a: nat :: va <= a < va + done ==> old(UserFrame(Pte(S(), root, a / PGSIZE))) != 0)
                && (fault <==> old(Node(root, 1, (va + done) / PGSIZE / NPDENTRIES) !in at))
      ensures ok && !fault <==> forall a: nat :: va <= a < va + |data| ==>
                old(UserFrame(Pte(S(), root, a / PGSIZE))) != 0
    {
      hide Forest, FreeOk, Frames, Grew, Pte, UserFrame, Poked, Target, Wired;
      ghost var s0 := S();
      var copied, a := 0, va;
      done := 0;
      PokedNothing(s0, root, va);
      assert data[..0] == [];
      fault := false;
      while copied < |data|
        invariant 0 <= copied <= |data| && a == va + copied && done == copied
        invariant Valid() && IsRoot(S(), root)
        invariant Poked(s0, S(), root, va, data[..done])
        invariant forall x: nat :: va <= x < va + done ==> UserFrame(Pte(s0, root, x / PGSIZE)) != 0
        invariant 0 < done < |data| ==> a % PGSIZE == 0
      {
        ghost var s := S();
        PokedPte(s0, s, root, va, data[..done], a / PGSIZE);
        PokedTables(s0, s, root, va, data[..done]);
        var f;
        f, fault := Uva2ka(root, a / PGSIZE * PGSIZE);
        assert a / PGSIZE * PGSIZE / PGSIZE == a / PGSIZE;
        if fault { UnmappedUser(); return false, true, done; }
        if f == 0 { return false, false, done; }
        UserMapped(r, s, root, a / PGSIZE);
        var n := PGSIZE - a % PGSIZE;
        if n > |data| - copied { n := |data| - copied; }
        var b := mem[f].bytes;
        mem := mem[f := Data(b[..a % PGSIZE] + data[copied..copied + n] + b[a % PGSIZE + n..])];
        MappedFrame(r, s, root, a / PGSIZE);
        PokePage(r, s, root, a, data[copied..copied + n], S());
        DataChange(r, kernel, s, f, mem[f], S());
        PokedMore(s0, s, S(), root, va, data[..done], data[copied..copied + n]);
        assert data[..done] + data[copied..copied + n] == data[..done + n];
        PokedRoot(s, S(), root, a, data[copied..copied + n]);
        assert forall x: nat :: a <= x < a + n ==> x / PGSIZE == a / PGSIZE;
        copied, a, done := copied + n, a + n, done + n;
      }
      assert data[..done] == data;
      ok := true;
    }
  }
}
