/** Tearing down a tree: which frames lie under a table, and what freeing them leaves. */
module VmFree {
  import opened VmTree
  import opened VmSnap

  /** The prefix `k` levels up. */
  ghost function Up(p: nat, k: nat): nat {
    if k == 0 then p else Up(p, k - 1) / NPDENTRIES
  }

  /** Frame with node `n` lies under, or is, the frame with node `m`. */
  ghost predicate Under(n: Node, m: Node) {
    n.root == m.root && n.level <= m.level && Up(n.prefix, m.level - n.level) == m.prefix
  }

  /** It lies under one of the first `i` entries of the table with node `m`. */
  ghost predicate UnderFirst(n: Node, m: Node, i: nat) {
    && n.root == m.root && n.level < m.level
    && m.prefix * NPDENTRIES <= Up(n.prefix, m.level - 1 - n.level) < m.prefix * NPDENTRIES + i
  }

  lemma UnderNone(n: Node, m: Node)
    ensures !UnderFirst(n, m, 0)
  {
  }

  lemma UnderNext(n: Node, m: Node, i: nat)
    requires m.level >= 1
    ensures UnderFirst(n, m, i + 1) <==> UnderFirst(n, m, i) || Under(n, Child(m, i))
  {
  }

  lemma UnderAll(n: Node, m: Node)
    requires m.level >= 1
    ensures Under(n, m) <==> UnderFirst(n, m, NPDENTRIES) || n == m
  {
    if n.level < m.level {
      var q := Up(n.prefix, m.level - 1 - n.level);
      assert Up(n.prefix, m.level - n.level) == q / NPDENTRIES;
    }
  }

  /** A table's own frames: not under another child of the same parent, and not the parent. */
  lemma NotUnderChild(m: Node, i: nat)
    requires m.level >= 1
    ensures !Under(m, Child(m, i))
  {
  }

  /** Everything in a tree has an ancestor at every level up to the root. */
  lemma {:induction false} AncestorAt(r: Range, mem: seq<Frame>, node: map<nat, Node>, at: map<Node, nat>,
                                      dead: set<Slot>, n: Node, k: nat)
    requires Forest(r, mem, node, at, dead) && n in at && n.level + k <= 4
    ensures Node(n.root, n.level + k, Up(n.prefix, k)) in at
  {
    hide Forest;
    if k > 0 {
      AncestorAt(r, mem, node, at, dead, n, k - 1);
      ParentAt(r, mem, node, at, dead, Node(n.root, n.level + k - 1, Up(n.prefix, k - 1)));
    }
  }

  lemma ParentAt(r: Range, mem: seq<Frame>, node: map<nat, Node>, at: map<Node, nat>, dead: set<Slot>, m: Node)
    requires Forest(r, mem, node, at, dead) && m in at && m.level < 4
    ensures Node(m.root, m.level + 1, m.prefix / NPDENTRIES) in at
  {
    hide NodeOk, DownOk, Present, Target;
    assert UpOk(mem, at, dead, at[m], m);
  }

  /** The tree of a root is what lies under it, and that is under its lower half. */
  lemma UnderRoot(r: Range, mem: seq<Frame>, node: map<nat, Node>, at: map<Node, nat>, dead: set<Slot>, root: nat,
                  f: nat)
    requires Forest(r, mem, node, at, dead) && f in node
    ensures node[f].root == root <==> UnderFirst(node[f], Node(root, 4, 0), Width(4)) || node[f] == Node(root, 4, 0)
  {
    hide DownOk;
    var n := node[f];
    assert NodeOk(r, mem, f, n);
    if n.root == root {
      if n.level < 4 {
        AncestorAt(r, mem, node, at, dead, n, 3 - n.level);
        var m := Node(root, 3, Up(n.prefix, 3 - n.level));
        assert UpOk(mem, at, dead, at[m], m);
        var top := Node(root, 4, m.prefix / NPDENTRIES);
        assert NodeOk(r, mem, at[top], top);
      } else {
        AncestorAt(r, mem, node, at, dead, n, 0);
      }
    }
  }

  // ----- Pruning -----

  ghost predicate OkExcept(r: Range, s: Snap, dead: set<Slot>) {
    0 < r.lo && r.hi <= |s.mem| && Forest(r, s.mem, s.node, s.at, dead) && FreeOk(r, s)
  }

  /** From `s` to `s'` the frames satisfying `gone` have left the trees for the free list, and no other
      frame has changed. */
  ghost predicate Freed(s: Snap, s': Snap, gone: set<nat>) {
    && |s'.mem| == |s.mem|
    && gone <= s.node.Keys
    && s'.node == s.node - gone
    && (forall n :: n in s'.at <==> n in s.at && s.at[n] !in gone)
    && (forall n :: n in s'.at ==> s'.at[n] == s.at[n])
    && (forall f: nat :: f !in gone && f < |s.mem| ==> s'.mem[f] == s.mem[f])
    && FreeSet(s') == FreeSet(s) + gone
  }

  ghost function UnderSet(s: Snap, m: Node): set<nat> {
    set f | f in s.node && Under(s.node[f], m)
  }

  ghost function UnderFirstSet(s: Snap, m: Node, i: nat): set<nat> {
    set f | f in s.node && UnderFirst(s.node[f], m, i)
  }

  lemma FreedNothing(s: Snap)
    requires forall n :: n in s.at ==> s.at[n] in s.node
    ensures Freed(s, s, {})
  {
  }

  lemma FreedMore(a: Snap, b: Snap, c: Snap, x: set<nat>, y: set<nat>)
    requires Freed(a, b, x) && Freed(b, c, y)
    ensures Freed(a, c, x + y)
  {
    assert c.node == a.node - (x + y);
  }

  /** Freeing the frames under child `i` after those under the first `i` children. */
  lemma FreedChild(a: Snap, b: Snap, c: Snap, m: Node, i: nat)
    requires m.level >= 1 && Freed(a, b, UnderFirstSet(a, m, i)) && Freed(b, c, UnderSet(b, Child(m, i)))
    ensures Freed(a, c, UnderFirstSet(a, m, i + 1))
  {
    hide UnderFirst, Under;
    var x, y := UnderFirstSet(a, m, i), UnderSet(b, Child(m, i));
    forall f ensures f in x + y <==> f in UnderFirstSet(a, m, i + 1) {
      if f in a.node { UnderNext(a.node[f], m, i); }
    }
    assert x + y == UnderFirstSet(a, m, i + 1);
    FreedMore(a, b, c, x, y);
  }

  /** With a child absent there is nothing under it. */
  lemma NothingUnder(r: Range, s: Snap, dead: set<Slot>, t: nat, i: nat)
    requires OkExcept(r, s, dead) && t in s.node && s.node[t].level >= 1 && IsTable(s.mem, t)
    requires i < Width(s.node[t].level)
    requires !Present(s.mem[t].e[i])
    ensures UnderSet(s, Child(s.node[t], i)) == {}
  {
    hide DownOk, FreeOk, Under;
    assert NodeOk(r, s.mem, t, s.node[t]);
    var m := Child(s.node[t], i);
    forall f | f in s.node ensures !Under(s.node[f], m) {
      NothingUnderAt(r, s, dead, t, i, f);
    }
  }

  lemma NothingUnderAt(r: Range, s: Snap, dead: set<Slot>, t: nat, i: nat, f: nat)
    requires OkExcept(r, s, dead) && t in s.node && s.node[t].level >= 1 && IsTable(s.mem, t)
    requires i < Width(s.node[t].level)
    requires !Present(s.mem[t].e[i]) && f in s.node && s.node[t].level <= 4
    ensures !Under(s.node[f], Child(s.node[t], i))
  {
    hide Forest, FreeOk, Present;
    var n, m := s.node[f], Child(s.node[t], i);
    NotAt(r, s, dead, t, i);
    LiveNodeAt(r, s, dead, f);
    if n.root == m.root && n.level <= m.level {
      AncestorAt(r, s.mem, s.node, s.at, dead, n, m.level - n.level);
    }
  }

  lemma NotAt(r: Range, s: Snap, dead: set<Slot>, t: nat, i: nat)
    requires OkExcept(r, s, dead) && t in s.node && s.node[t].level >= 1 && IsTable(s.mem, t)
    requires i < Width(s.node[t].level) && !Present(s.mem[t].e[i]) && s.node[t].level <= 4
    ensures Child(s.node[t], i) !in s.at
  {
    hide DownOk, NodeOk, FreeOk, Present, Target;
    var m := Child(s.node[t], i);
    ChildPrefix(s.node[t], i);
    LiveNodeAt(r, s, dead, t);
    assert m in s.at ==> UpOk(s.mem, s.at, dead, s.at[m], m);
  }

  lemma LiveNodeAt(r: Range, s: Snap, dead: set<Slot>, f: nat)
    requires OkExcept(r, s, dead) && f in s.node
    ensures s.node[f] in s.at && s.at[s.node[f]] == f
  {
    hide UpOk, DownOk, NodeOk, FreeOk;
  }

  /** Table or page `c`, with nothing left under it, goes to the free list. */
  lemma DropFrame(r: Range, s: Snap, dead: set<Slot>, c: nat, s': Snap)
    requires c in s.node && c < |s.mem| && (s.node[c].level >= 1 ==> IsTable(s.mem, c))
    requires Emptied(s.mem, s.node, dead, c)
    requires s' == Snap(s.mem[c := Junk], [c] + s.free, s.node - {c}, s.at - {s.node[c]})
    requires OkExcept(r, s, dead)
    ensures OkExcept(r, s', dead + {SlotOf(s.node, s.at, c)}) && Freed(s, s', {c})
  {
    hide UpOk, DownOk, Present;
    assert NodeOk(r, s.mem, c, s.node[c]);
    Drop(r, s.mem, s.node, s.at, dead, c);
    InverseAt(r, s.mem, s.node, s.at, dead, c);
    assert FreeSet(s') == FreeSet(s) + {c};
  }

  /** A live entry that is present leads to the child's frame, and the child hangs from it. */
  lemma LiveChild(r: Range, s: Snap, dead: set<Slot>, t: nat, i: nat)
    requires t in s.node && s.node[t].level >= 1 && IsTable(s.mem, t) && i < Width(s.node[t].level)
    requires Present(s.mem[t].e[i]) && Slot(t, i) !in dead && OkExcept(r, s, dead)
    ensures var c := Target(s.mem[t].e[i]);
            && c in s.node && s.node[c] == Child(s.node[t], i) && c < |s.mem|
            && SlotOf(s.node, s.at, c) == Slot(t, i)
  {
    hide UpOk, FreeOk, Present, Target;
    assert DownOk(s.mem, s.node, Slot(t, i));
    ChildPrefix(s.node[t], i);
    InverseAt(r, s.mem, s.node, s.at, dead, t);
    var c := Target(s.mem[t].e[i]);
    assert NodeOk(r, s.mem, c, s.node[c]);
  }

  /** Frames under all children, and the table itself: all that is under it. */
  lemma UnderSetAll(r: Range, s: Snap, c: nat)
    requires c in s.node && (forall f :: f in s.node ==> s.node[f] in s.at && s.at[s.node[f]] == f)
    ensures s.node[c].level >= 1 ==> UnderFirstSet(s, s.node[c], NPDENTRIES) + {c} == UnderSet(s, s.node[c])
    ensures s.node[c].level == 0 ==> UnderSet(s, s.node[c]) == {c}
    ensures c in UnderSet(s, s.node[c])
  {
    hide UnderFirst;
    var m := s.node[c];
    forall f | f in s.node
      ensures f in UnderSet(s, m) <==> f == c || (m.level >= 1 && UnderFirst(s.node[f], m, NPDENTRIES))
    {
      if m.level >= 1 { UnderAll(s.node[f], m); }
    }
  }

  /** Which entries may be dead while the first `i` children of table `c` are being freed. */
  ghost predicate DeadOk(s0: Snap, c: nat, i: nat, dead: set<Slot>, dead': set<Slot>)
    requires c in s0.node
  {
    && dead <= dead'
    && forall q :: q in dead' ==> q in dead || (q.t == c && q.i < i) || q.t in UnderFirstSet(s0, s0.node[c], i)
  }

  /** The entries seen so far point to freed frames or are absent. */
  ghost predicate Seen(mem: seq<Frame>, c: nat, i: nat, dead: set<Slot>) {
    IsTable(mem, c) && forall j :: 0 <= j < i && j < NPDENTRIES ==> Slot(c, j) in dead || !Present(mem[c].e[j])
  }

  /** Before child `i` is freed: no dead entry lies under it, and its own entry is live. */
  lemma ChildReady(s0: Snap, s: Snap, c: nat, i: nat, n: nat, dead: set<Slot>, dead': set<Slot>)
    requires c in s0.node && s0.node[c].level >= 1 && i < n
    requires DeadOk(s0, c, i, dead, dead') && Freed(s0, s, UnderFirstSet(s0, s0.node[c], i))
    requires forall q :: q in dead ==> q.t != c && q.t !in UnderFirstSet(s0, s0.node[c], n)
    ensures c in s.node && s.node[c] == s0.node[c] && Slot(c, i) !in dead'
    ensures c < |s0.mem| ==> c < |s.mem| && s.mem[c] == s0.mem[c]
    ensures forall q :: q in dead' ==> q.t !in UnderSet(s, Child(s0.node[c], i))
  {
    hide Under, UnderFirst;
    var m := s0.node[c];
    NotUnderFirstSelf(m, i);
    assert c !in UnderFirstSet(s0, m, i);
    NotUnderChild(m, i);
    forall q | q in dead' ensures q.t !in UnderSet(s, Child(m, i)) {
      if q.t in s.node {
        UnderNext(s.node[q.t], m, i);
        UnderWider(s.node[q.t], m, i + 1, n);
      }
    }
  }

  lemma NotUnderFirstSelf(m: Node, i: nat)
    ensures !UnderFirst(m, m, i)
  {
  }

  lemma UnderWider(f: Node, m: Node, i: nat, n: nat)
    requires i <= n
    ensures UnderFirst(f, m, i) ==> UnderFirst(f, m, n)
  {
  }

  /** After child `i` is freed. */
  lemma ChildDone(s0: Snap, s: Snap, s': Snap, c: nat, i: nat, dead: set<Slot>, dead': set<Slot>, dead'': set<Slot>)
    requires c in s0.node && s0.node[c].level >= 1
    requires DeadOk(s0, c, i, dead, dead') && Freed(s0, s, UnderFirstSet(s0, s0.node[c], i))
    requires Freed(s, s', UnderSet(s, Child(s0.node[c], i)))
    requires dead' <= dead''
    requires forall q :: q in dead'' ==>
               q in dead' || q == Slot(c, i) || q.t in UnderSet(s, Child(s0.node[c], i))
    ensures DeadOk(s0, c, i + 1, dead, dead'') && Freed(s0, s', UnderFirstSet(s0, s0.node[c], i + 1))
  {
    hide Under, UnderFirst;
    var m := s0.node[c];
    FreedChild(s0, s, s', m, i);
    forall q | q in dead'' ensures q in dead || (q.t == c && q.i < i + 1) || q.t in UnderFirstSet(s0, m, i + 1) {
      if q.t in s0.node {
        UnderNext(s0.node[q.t], m, i);
      }
    }
  }

  lemma SeenMore(mem: seq<Frame>, mem': seq<Frame>, c: nat, i: nat, dead: set<Slot>, dead': set<Slot>)
    requires Seen(mem, c, i, dead) && c < |mem'| && mem'[c] == mem[c] && dead <= dead'
    requires i < NPDENTRIES && (Slot(c, i) in dead' || !Present(mem[c].e[i]))
    ensures Seen(mem', c, i + 1, dead')
  {
  }

  lemma NoneDone(r: Range, s0: Snap, c: nat, dead: set<Slot>)
    requires c in s0.node && IsTable(s0.mem, c) && OkExcept(r, s0, dead)
    ensures Freed(s0, s0, UnderFirstSet(s0, s0.node[c], 0)) && DeadOk(s0, c, 0, dead, dead) && Seen(s0.mem, c, 0, dead)
  {
    hide UnderFirst, UpOk, DownOk, NodeOk;
    assert UnderFirstSet(s0, s0.node[c], 0) == {} by {
      forall f | f in s0.node ensures !UnderFirst(s0.node[f], s0.node[c], 0) { UnderNone(s0.node[f], s0.node[c]); }
    }
    FreedNothing(s0);
  }

  lemma SeenTable(mem: seq<Frame>, c: nat, i: nat, dead: set<Slot>)
    requires Seen(mem, c, i, dead)
    ensures IsTable(mem, c)
  {
  }

  lemma NothingFreed(r: Range, s: Snap, dead: set<Slot>)
    requires OkExcept(r, s, dead)
    ensures Freed(s, s, {})
  {
    hide UpOk, DownOk, NodeOk;
    FreedNothing(s);
  }

  lemma StillThere(s0: Snap, s: Snap, s': Snap, c: nat, i: nat)
    requires c in s.node && s.node[c].level >= 1 && c < |s.mem|
    requires Freed(s, s', UnderSet(s, Child(s.node[c], i)))
    ensures c in s'.node && s'.node[c] == s.node[c] && c < |s'.mem| && s'.mem[c] == s.mem[c]
  {
    hide Under;
    NotUnderChild(s.node[c], i);
  }

  lemma UnderReady(r: Range, s0: Snap, dead: set<Slot>, c: nat)
    requires c in s0.node && s0.node[c].level <= 3 && OkExcept(r, s0, dead)
    requires forall q :: q in dead ==> q.t !in UnderSet(s0, s0.node[c])
    ensures s0.node[c].level >= 1 ==> IsTable(s0.mem, c) && Width(s0.node[c].level) == NPDENTRIES
    ensures s0.node[c].level >= 1 ==>
              forall q :: q in dead ==> q.t != c && q.t !in UnderFirstSet(s0, s0.node[c], NPDENTRIES)
  {
    hide UpOk, DownOk, UnderFirst, Under, FreeOk;
    assert NodeOk(r, s0.mem, c, s0.node[c]);
    UnderSetAll(r, s0, c);
  }

  /** After the children are gone, the table can go. */
  lemma LeafReady(r: Range, s0: Snap, s1: Snap, c: nat, dead: set<Slot>, dead': set<Slot>)
    requires c in s0.node && s0.node[c].level <= 3 && OkExcept(r, s0, dead) && OkExcept(r, s1, dead')
    requires s0.node[c].level == 0 ==> s1 == s0
    requires s0.node[c].level >= 1 ==> c in s1.node && s1.node[c] == s0.node[c] && Seen(s1.mem, c, NPDENTRIES, dead')
    ensures c in s1.node && s1.node[c] == s0.node[c] && IsFrame(r, c) && c < |s1.mem|
    ensures s1.node[c].level >= 1 ==> IsTable(s1.mem, c)
    ensures Emptied(s1.mem, s1.node, dead', c)
  {
    hide UpOk, DownOk, FreeOk, Present;
    assert NodeOk(r, s0.mem, c, s0.node[c]);
    assert NodeOk(r, s1.mem, c, s1.node[c]);
  }

  lemma AllFreed(r: Range, s0: Snap, s1: Snap, s2: Snap, c: nat, dead: set<Slot>, dead': set<Slot>)
    requires c in s0.node && s0.node[c].level <= 3 && c in s1.node && s1.node[c] == s0.node[c]
    requires s0.node[c].level == 0 ==> s1 == s0 && dead' == dead
    requires s0.node[c].level >= 1 ==>
               Freed(s0, s1, UnderFirstSet(s0, s0.node[c], NPDENTRIES)) && DeadOk(s0, c, NPDENTRIES, dead, dead')
    requires Freed(s1, s2, {c}) && OkExcept(r, s0, dead) && OkExcept(r, s1, dead')
    ensures Freed(s0, s2, UnderSet(s0, s0.node[c]))
    ensures SlotOf(s1.node, s1.at, c) == SlotOf(s0.node, s0.at, c)
    ensures forall q :: q in dead' ==> q in dead || q.t in UnderSet(s0, s0.node[c])
    ensures dead <= dead'
  {
    hide UpOk, DownOk, FreeOk, UnderFirst, Under, NodeOk;
    UnderSetAll(r, s0, c);
    if s0.node[c].level >= 1 {
      FreedMore(s0, s1, s2, UnderFirstSet(s0, s0.node[c], NPDENTRIES), {c});
      SameSlot(r, s0, s1, dead, dead', c);
    }
  }

  /** The entry a table hangs from is the same after its children are gone. */
  lemma SameSlot(r: Range, s0: Snap, s1: Snap, dead: set<Slot>, dead': set<Slot>, c: nat)
    requires c in s0.node && s0.node[c].level <= 3 && c in s1.node && s1.node[c] == s0.node[c] && s0.node[c].level >= 1
    requires Freed(s0, s1, UnderFirstSet(s0, s0.node[c], NPDENTRIES)) && OkExcept(r, s0, dead) && OkExcept(r, s1, dead')
    ensures SlotOf(s1.node, s1.at, c) == SlotOf(s0.node, s0.at, c)
  {
    hide DownOk, NodeOk, FreeOk, UnderFirst;
    assert UpOk(s1.mem, s1.at, dead', c, s1.node[c]);
  }

  /** The frames of one address space. */
  ghost function TreeSet(s: Snap, root: nat): set<nat> {
    set f | f in s.node && s.node[f].root == root
  }

  lemma RootReady(r: Range, s0: Snap, s1: Snap, root: nat, dead: set<Slot>)
    requires IsRoot(s0, root) && root in s1.node && s1.node[root] == s0.node[root]
    requires Seen(s1.mem, root, Width(4), dead) && OkExcept(r, s1, dead)
    ensures IsFrame(r, root) && root < |s1.mem| && IsTable(s1.mem, root) && Emptied(s1.mem, s1.node, dead, root)
  {
    hide UpOk, DownOk, FreeOk, Present;
    assert NodeOk(r, s1.mem, root, s1.node[root]);
  }

  lemma OkIsOkExcept(r: Range, s: Snap, root: nat)
    requires Ok(r, s) && IsRoot(s, root)
    ensures OkExcept(r, s, {}) && IsTable(s.mem, root)
  {
    hide UpOk, DownOk, FreeOk;
    NodeIsTable(r, s.mem, root, s.node[root]);
  }

  /** All frames of the tree are gone, and with them every dead entry. */
  lemma TreeFreed(r: Range, s0: Snap, s1: Snap, s2: Snap, root: nat, dead: set<Slot>)
    requires Ok(r, s0) && IsRoot(s0, root) && root in s1.node && s1.node[root] == s0.node[root]
    requires Freed(s0, s1, UnderFirstSet(s0, s0.node[root], Width(4))) && DeadOk(s0, root, Width(4), {}, dead)
    requires Freed(s1, s2, {root}) && OkExcept(r, s1, dead) && OkExcept(r, s2, dead + {SlotOf(s1.node, s1.at, root)})
    ensures Freed(s0, s2, TreeSet(s0, root)) && Ok(r, s2)
  {
    hide UpOk, DownOk, FreeOk, UnderFirst, NodeOk;
    var x := UnderFirstSet(s0, s0.node[root], Width(4));
    forall f | f in s0.node ensures f in TreeSet(s0, root) <==> f in x + {root} {
      UnderRoot(r, s0.mem, s0.node, s0.at, {}, root, f);
      InverseAt(r, s0.mem, s0.node, s0.at, {}, f);
      InverseAt(r, s0.mem, s0.node, s0.at, {}, root);
    }
    assert TreeSet(s0, root) == x + {root};
    FreedMore(s0, s1, s2, x, {root});
    TopHasNoSlot(r, s1.mem, s1.node, s1.at, dead, root);
    NoFrameZero(r, s2, dead + {SlotOf(s1.node, s1.at, root)});
    DeadGone(r, s2.mem, s2.node, s2.at, dead + {SlotOf(s1.node, s1.at, root)});
  }

  lemma NoFrameZero(r: Range, s: Snap, dead: set<Slot>)
    requires OkExcept(r, s, dead)
    ensures 0 !in s.node
  {
    hide UpOk, DownOk, FreeOk;
  }

  /** After an address space is freed it maps nothing, and every other one is what it was. */
  lemma FreedMaps(r: Range, s: Snap, s': Snap, root: nat)
    requires Ok(r, s) && Ok(r, s') && Freed(s, s', TreeSet(s, root))
    ensures Frames(s') == Frames(s)
    ensures forall x: nat, v: nat :: Pte(s', x, v) == if x == root then 0 else Pte(s, x, v)
  {
    hide UpOk, DownOk, NodeOk, FreeOk, Present;
    assert Frames(s') == Frames(s);
    forall x: nat, v: nat ensures Pte(s', x, v) == if x == root then 0 else Pte(s, x, v) {
      var n := Node(x, 1, v / NPDENTRIES);
      assert n in s.at ==> s.node[s.at[n]] == n;
    }
  }
}
