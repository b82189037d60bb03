/** Page-table trees in physical memory.  Every frame of a tree has a node: the root it hangs
    from, its level (4 for a PML4, 3, 2, 1 for a page table, 0 for a user page) and its prefix, the
    number spelled by the indices on the way down.  For a user page that is its page number. */
module VmTree {
  import opened Common

  const PGSIZE: nat := 4096
  const NPDENTRIES: nat := 512
  const PTE_W: nat := 2
  const PTE_U: nat := 4

  // ----- Entries -----

  predicate Present(e: nat) { e % 2 == 1 }

  /** The frame an entry points to: PTE_ADDR, in pages. */
  function Target(e: nat): nat { e / PGSIZE }

  function Flags(e: nat): (x: nat)
    ensures x < PGSIZE
  {
    e % PGSIZE
  }

  /** An entry for a frame: address or-ed with flags, which fill the low twelve bits, and PTE_P. */
  function Entry(f: nat, flags: nat): nat
    requires flags < PGSIZE
  {
    f * PGSIZE + if flags % 2 == 1 then flags else flags + 1
  }

  lemma EntryParts(f: nat, flags: nat)
    requires flags < PGSIZE
    ensures var e := Entry(f, flags);
            && Present(e) && Target(e) == f
            && Flags(e) == if flags % 2 == 1 then flags else flags + 1
  {
    var low := if flags % 2 == 1 then flags else flags + 1;
    FrameAndLow(f, low);
    OddLow(f, low);
  }

  lemma FrameAndLow(f: nat, low: nat)
    requires low < PGSIZE
    ensures (f * PGSIZE + low) / PGSIZE == f && (f * PGSIZE + low) % PGSIZE == low
  {
  }

  lemma OddLow(f: nat, low: nat)
    requires low % 2 == 1
    ensures (f * PGSIZE + low) % 2 == 1
  {
    assert f * PGSIZE + low == 2 * (f * 2048) + low;
  }

  // ----- Memory -----

  /** What a frame holds: page-table entries, user bytes, or anything at all. */
  datatype Frame = Table(e: seq<nat>) | Data(bytes: seq<byte>) | Junk

  function ZeroTable(): Frame { Table(seq(NPDENTRIES, i => 0)) }

  function ZeroPage(): (x: Frame)
    ensures x.Data? && |x.bytes| == PGSIZE && forall i :: 0 <= i < PGSIZE ==> x.bytes[i] == 0
  {
    Data(seq(PGSIZE, i => 0))
  }

  /** The frames between the end of the kernel and PHYSTOP. */
  datatype Range = Range(lo: nat, hi: nat)

  predicate IsFrame(r: Range, f: nat) { 0 < r.lo <= f < r.hi }

  // ----- Trees -----

  datatype Node = Node(root: nat, level: nat, prefix: nat)

  /** Entry `i` of table `t`. */
  datatype Slot = Slot(t: nat, i: nat)

  /** Only the lower half of a root belongs to the process. */
  function Width(level: nat): nat { if level == 4 then NPDENTRIES / 2 else NPDENTRIES }

  predicate IsTable(mem: seq<Frame>, f: nat) {
    f < |mem| && mem[f].Table? && |mem[f].e| == NPDENTRIES
  }

  ghost predicate NodeOk(r: Range, mem: seq<Frame>, f: nat, n: Node) {
    && IsFrame(r, f) && r.hi <= |mem| && n.level <= 4
    && (n.level == 4 ==> n.root == f && n.prefix == 0)
    && (n.level >= 1 ==> IsTable(mem, f))
    && (n.level == 0 ==> mem[f].Data? && |mem[f].bytes| == PGSIZE)
  }

  /** A present entry points to the frame of the node below. */
  ghost predicate DownOk(mem: seq<Frame>, node: map<nat, Node>, s: Slot)
    requires s.t in node && IsTable(mem, s.t) && s.i < NPDENTRIES && node[s.t].level >= 1
  {
    Present(mem[s.t].e[s.i]) ==>
      var c := Target(mem[s.t].e[s.i]);
      c in node && node[c] == Node(node[s.t].root, node[s.t].level - 1, node[s.t].prefix * NPDENTRIES + s.i)
  }

  /** A frame below the root is pointed to by the entry its prefix names. */
  ghost predicate UpOk(mem: seq<Frame>, at: map<Node, nat>, dead: set<Slot>, f: nat, n: Node) {
    var p := Node(n.root, n.level + 1, n.prefix / NPDENTRIES);
    var i := n.prefix % NPDENTRIES;
    && i < Width(n.level + 1)
    && p in at && IsTable(mem, at[p]) && Slot(at[p], i) !in dead
    && Present(mem[at[p]].e[i]) && Target(mem[at[p]].e[i]) == f
  }

  /** `node` describes all frames of all trees, and `at` is its inverse.  Entries in `dead` point
      to frames that have been given back. */
  ghost predicate Forest(r: Range, mem: seq<Frame>, node: map<nat, Node>, at: map<Node, nat>, dead: set<Slot>) {
    && (forall f :: f in node ==> NodeOk(r, mem, f, node[f]) && node[f] in at && at[node[f]] == f)
    && (forall n :: n in at ==> at[n] in node && node[at[n]] == n)
    && (forall s :: IsEntry(node, s) && s !in dead && IsTable(mem, s.t) ==> DownOk(mem, node, s))
    && (forall f :: f in node && node[f].level < 4 ==> UpOk(mem, at, dead, f, node[f]))
  }

  ghost predicate IsEntry(node: map<nat, Node>, s: Slot) {
    s.t in node && node[s.t].level >= 1 && s.i < Width(node[s.t].level)
  }

  // ----- The flat page map -----

  /** The page-table entry of page `v` in the tree of `root`, 0 when the page is not mapped. */
  ghost function PteOf(mem: seq<Frame>, at: map<Node, nat>, root: nat, v: nat): nat {
    var n := Node(root, 1, v / NPDENTRIES);
    if n in at && IsTable(mem, at[n]) && Present(mem[at[n]].e[v % NPDENTRIES]) then mem[at[n]].e[v % NPDENTRIES]
    else 0
  }

  /** The number of user pages below 2^47. */
  const NPAGES: nat := 256 * 512 * 512 * 512

  // ----- Changing one entry -----

  function SetEntry(mem: seq<Frame>, t: nat, i: nat, e: nat): seq<Frame>
    requires IsTable(mem, t) && i < NPDENTRIES
  {
    mem[t := Table(mem[t].e[i := e])]
  }

  ghost function Child(n: Node, i: nat): Node
    requires n.level >= 1
  {
    Node(n.root, n.level - 1, n.prefix * NPDENTRIES + i)
  }

  /** An entry that is not present has no node below it. */
  lemma AbsentChild(r: Range, mem: seq<Frame>, node: map<nat, Node>, at: map<Node, nat>, t: nat, i: nat)
    requires Forest(r, mem, node, at, {}) && IsEntry(node, Slot(t, i)) && !Present(mem[t].e[i])
    ensures Child(node[t], i) !in at
  {
    ChildPrefix(node[t], i);
  }

  /** The parent and the index can be read off the prefix of a child. */
  lemma ChildPrefix(n: Node, i: nat)
    requires n.level >= 1 && i < NPDENTRIES
    ensures var c := Child(n, i);
            Node(c.root, c.level + 1, c.prefix / NPDENTRIES) == n && c.prefix % NPDENTRIES == i
  {
  }

  /** Hanging a fresh frame under an entry that is not present. */
  lemma Attach(r: Range, mem: seq<Frame>, node: map<nat, Node>, at: map<Node, nat>,
               t: nat, i: nat, c: nat, flags: nat)
    requires Forest(r, mem, node, at, {}) && IsEntry(node, Slot(t, i)) && !Present(mem[t].e[i])
    requires c !in node && IsFrame(r, c) && flags < PGSIZE
    requires node[t].level >= 2 ==> mem[c] == ZeroTable()
    requires node[t].level == 1 ==> mem[c].Data? && |mem[c].bytes| == PGSIZE
    ensures var n := Child(node[t], i);
            Forest(r, SetEntry(mem, t, i, Entry(c, flags)), node[c := n], at[n := c], {})
    ensures forall root, v :: PteOf(SetEntry(mem, t, i, Entry(c, flags)), at[Child(node[t], i) := c], root, v)
              == if root == node[t].root && node[t].level == 1 && v == node[t].prefix * NPDENTRIES + i
                 then Entry(c, flags) else PteOf(mem, at, root, v)
  {
    EntryParts(c, flags);
    AbsentChild(r, mem, node, at, t, i);
    var n := Child(node[t], i);
    var mem', node', at' := SetEntry(mem, t, i, Entry(c, flags)), node[c := n], at[n := c];
    AttachForest(r, mem, node, at, t, i, c, flags);
    forall root, v ensures PteOf(mem', at', root, v)
              == if root == node[t].root && node[t].level == 1 && v == node[t].prefix * NPDENTRIES + i
                 then Entry(c, flags) else PteOf(mem, at, root, v)
    {
      AttachPte(r, mem, node, at, t, i, c, flags, root, v);
    }
  }

  lemma AttachForest(r: Range, mem: seq<Frame>, node: map<nat, Node>, at: map<Node, nat>,
                     t: nat, i: nat, c: nat, flags: nat)
    requires Forest(r, mem, node, at, {}) && IsEntry(node, Slot(t, i)) && !Present(mem[t].e[i])
    requires Child(node[t], i) !in at
    requires c !in node && IsFrame(r, c) && flags < PGSIZE
    requires node[t].level >= 2 ==> mem[c] == ZeroTable()
    requires node[t].level == 1 ==> mem[c].Data? && |mem[c].bytes| == PGSIZE
    ensures var n := Child(node[t], i);
            Forest(r, SetEntry(mem, t, i, Entry(c, flags)), node[c := n], at[n := c], {})
  {
    hide Present, Target, Entry, UpOk, DownOk, NodeOk;
    EntryParts(c, flags);
    NodeIsTable(r, mem, t, node[t]);
    var n := Child(node[t], i);
    var mem', node', at' := SetEntry(mem, t, i, Entry(c, flags)), node[c := n], at[n := c];
    forall f | f in node' && node'[f].level < 4 ensures UpOk(mem', at', {}, f, node'[f]) {
      if f == c {
        AttachUp(mem', at', t, i, c, node[t]);
      } else {
        UpKept(mem, node, at, {}, at', t, i, Entry(c, flags), f);
      }
    }
    forall s | IsEntry(node', s) && IsTable(mem', s.t) ensures DownOk(mem', node', s) {
      if s.t == c {
        DownZero(mem', node', s);
      } else if s == Slot(t, i) {
        DownNew(mem', node', s, c);
      } else {
        DownKept(mem, node, s, t, i, Entry(c, flags), c, n);
      }
    }
    forall f | f in node' ensures NodeOk(r, mem', f, node'[f]) && node'[f] in at' && at'[node'[f]] == f {
      if f == c {
        NodeNew(r, mem', c, n);
      } else {
        NodeKept(r, mem, f, node[f], t, i, Entry(c, flags));
      }
    }
  }

  lemma NodeIsTable(r: Range, mem: seq<Frame>, t: nat, n: Node)
    requires NodeOk(r, mem, t, n) && n.level >= 1
    ensures IsTable(mem, t) && r.hi <= |mem| && n.level <= 4
  {
  }

  lemma NodeNew(r: Range, mem: seq<Frame>, c: nat, n: Node)
    requires IsFrame(r, c) && r.hi <= |mem| && n.level <= 3
    requires n.level >= 1 ==> mem[c] == ZeroTable()
    requires n.level == 0 ==> mem[c].Data? && |mem[c].bytes| == PGSIZE
    ensures NodeOk(r, mem, c, n)
  {
  }

  lemma NodeKept(r: Range, mem: seq<Frame>, f: nat, n: Node, t: nat, i: nat, e: nat)
    requires NodeOk(r, mem, f, n) && IsTable(mem, t) && i < NPDENTRIES
    ensures NodeOk(r, SetEntry(mem, t, i, e), f, n)
  {
  }

  lemma AttachUp(mem: seq<Frame>, at: map<Node, nat>, t: nat, i: nat, c: nat, n: Node)
    requires n.level >= 1 && i < Width(n.level) && n in at && at[n] == t && IsTable(mem, t)
    requires Present(mem[t].e[i]) && Target(mem[t].e[i]) == c
    ensures UpOk(mem, at, {}, c, Child(n, i))
  {
    ChildPrefix(n, i);
  }

  lemma DownZero(mem: seq<Frame>, node: map<nat, Node>, s: Slot)
    requires IsEntry(node, s) && s.t < |mem| && mem[s.t] == ZeroTable()
    ensures DownOk(mem, node, s)
  {
    ZeroAbsent(s.i);
  }

  lemma DownNew(mem: seq<Frame>, node: map<nat, Node>, s: Slot, c: nat)
    requires IsEntry(node, s) && IsTable(mem, s.t) && c in node
    requires Target(mem[s.t].e[s.i]) == c && node[c] == Child(node[s.t], s.i)
    ensures DownOk(mem, node, s)
  {
  }

  lemma DownKept(mem: seq<Frame>, node: map<nat, Node>, s: Slot, t: nat, i: nat, e: nat, c: nat, n: Node)
    requires IsEntry(node, s) && IsTable(mem, s.t) && DownOk(mem, node, s) && s != Slot(t, i)
    requires IsTable(mem, t) && i < NPDENTRIES && c !in node
    ensures DownOk(SetEntry(mem, t, i, e), node[c := n], s)
  {
  }

  lemma ZeroAbsent(i: nat)
    requires i < NPDENTRIES
    ensures !Present(ZeroTable().e[i])
  {
  }

  /** Changing an entry that does not point to `f` keeps what points to `f`. */
  lemma UpKept(mem: seq<Frame>, node: map<nat, Node>, at: map<Node, nat>, dead: set<Slot>, at': map<Node, nat>,
               t: nat, i: nat, e: nat, f: nat)
    requires f in node && UpOk(mem, at, dead, f, node[f])
    requires IsTable(mem, t) && i < NPDENTRIES && !Present(mem[t].e[i])
    requires forall n :: n in at ==> n in at' && at'[n] == at[n]
    ensures UpOk(SetEntry(mem, t, i, e), at', dead, f, node[f])
  {
  }

  lemma AttachPte(r: Range, mem: seq<Frame>, node: map<nat, Node>, at: map<Node, nat>,
                  t: nat, i: nat, c: nat, flags: nat, root: nat, v: nat)
    requires Forest(r, mem, node, at, {}) && IsEntry(node, Slot(t, i)) && !Present(mem[t].e[i])
    requires Child(node[t], i) !in at
    requires c !in node && IsFrame(r, c) && flags < PGSIZE
    requires node[t].level >= 2 ==> mem[c] == ZeroTable()
    ensures PteOf(SetEntry(mem, t, i, Entry(c, flags)), at[Child(node[t], i) := c], root, v)
              == if root == node[t].root && node[t].level == 1 && v == node[t].prefix * NPDENTRIES + i
                 then Entry(c, flags) else PteOf(mem, at, root, v)
  {
    hide UpOk, DownOk, Present, Entry;
    EntryParts(c, flags);
    ZeroAbsent(v % NPDENTRIES);
    NodeIsTable(r, mem, t, node[t]);
    var n := Child(node[t], i);
    var m := Node(root, 1, v / NPDENTRIES);
    assert v == v / NPDENTRIES * NPDENTRIES + v % NPDENTRIES;
    if m == n {
      assert node[t].level == 2;
    } else if m in at && at[m] == t {
      assert node[t] == m;
    }
  }

  // ----- Giving frames back -----

  /** Every entry of table `c` is dead or absent. */
  ghost predicate Emptied(mem: seq<Frame>, node: map<nat, Node>, dead: set<Slot>, c: nat)
    requires c in node && (node[c].level >= 1 ==> IsTable(mem, c))
  {
    node[c].level >= 1 ==>
      forall i :: 0 <= i < Width(node[c].level) ==> Slot(c, i) in dead || !Present(mem[c].e[i])
  }

  /** The entry that points to frame `c`. */
  ghost function SlotOf(node: map<nat, Node>, at: map<Node, nat>, c: nat): Slot
    requires c in node
  {
    var p := Node(node[c].root, node[c].level + 1, node[c].prefix / NPDENTRIES);
    Slot(if p in at then at[p] else 0, node[c].prefix % NPDENTRIES)
  }

  /** Giving back a frame with nothing below it leaves the entry that points to it dead. */
  lemma Drop(r: Range, mem: seq<Frame>, node: map<nat, Node>, at: map<Node, nat>, dead: set<Slot>, c: nat)
    requires Forest(r, mem, node, at, dead) && c in node && NodeOk(r, mem, c, node[c])
    requires Emptied(mem, node, dead, c)
    ensures Forest(r, mem[c := Junk], node - {c}, at - {node[c]}, dead + {SlotOf(node, at, c)})
  {
    hide Present, Target, UpOk, DownOk, NodeOk;
    FrameInMemory(r, mem, c, node[c]);
    var mem', node', at', dead' := mem[c := Junk], node - {c}, at - {node[c]}, dead + {SlotOf(node, at, c)};
    forall f | f in node' ensures NodeOk(r, mem', f, node'[f]) && node'[f] in at' && at'[node'[f]] == f {
      NodeElsewhere(r, mem, f, node[f], c);
    }
    forall s | IsEntry(node', s) && s !in dead' && IsTable(mem', s.t) ensures DownOk(mem', node', s) {
      assert DownOk(mem, node, s);
      DropDown(r, mem, node, at, dead, c, s);
    }
    forall f | f in node' && node'[f].level < 4 ensures UpOk(mem', at', dead', f, node'[f]) {
      DropUp(r, mem, node, at, dead, c, f);
    }
  }

  lemma FrameInMemory(r: Range, mem: seq<Frame>, f: nat, n: Node)
    requires NodeOk(r, mem, f, n)
    ensures 0 < f < |mem|
  {
  }

  lemma NodeElsewhere(r: Range, mem: seq<Frame>, f: nat, n: Node, c: nat)
    requires NodeOk(r, mem, f, n) && f != c && c < |mem|
    ensures NodeOk(r, mem[c := Junk], f, n)
  {
  }

  lemma DropDown(r: Range, mem: seq<Frame>, node: map<nat, Node>, at: map<Node, nat>, dead: set<Slot>, c: nat, s: Slot)
    requires Forest(r, mem, node, at, dead) && c in node && c < |mem|
    requires IsEntry(node, s) && s.t != c && s !in dead && s != SlotOf(node, at, c)
    requires IsTable(mem, s.t) && DownOk(mem, node, s)
    ensures DownOk(mem[c := Junk], node - {c}, s)
  {
    hide UpOk, NodeOk, Forest;
    ChildPrefix(node[s.t], s.i);
    InverseAt(r, mem, node, at, dead, s.t);
  }

  lemma InverseAt(r: Range, mem: seq<Frame>, node: map<nat, Node>, at: map<Node, nat>, dead: set<Slot>, f: nat)
    requires Forest(r, mem, node, at, dead) && f in node
    ensures node[f] in at && at[node[f]] == f
  {
  }

  lemma UpAt(r: Range, mem: seq<Frame>, node: map<nat, Node>, at: map<Node, nat>, dead: set<Slot>, f: nat)
    requires Forest(r, mem, node, at, dead) && f in node && node[f].level < 4
    ensures UpOk(mem, at, dead, f, node[f]) && SlotOf(node, at, f).t in node
    ensures node[SlotOf(node, at, f).t] == Node(node[f].root, node[f].level + 1, node[f].prefix / NPDENTRIES)
  {
  }

  lemma DropUp(r: Range, mem: seq<Frame>, node: map<nat, Node>, at: map<Node, nat>, dead: set<Slot>, c: nat, f: nat)
    requires Forest(r, mem, node, at, dead) && c in node && NodeOk(r, mem, c, node[c])
    requires Emptied(mem, node, dead, c) && f in node && f != c && node[f].level < 4
    ensures UpOk(mem[c := Junk], at - {node[c]}, dead + {SlotOf(node, at, c)}, f, node[f])
  {
    hide DownOk, Forest;
    SlotsDiffer(r, mem, node, at, dead, f, c);
    var s := SlotOf(node, at, f);
    UpAt(r, mem, node, at, dead, f);
    InverseAt(r, mem, node, at, dead, s.t);
    InverseAt(r, mem, node, at, dead, c);
    assert s !in dead && Present(mem[s.t].e[s.i]);
    assert s.t in node && node[s.t] == Node(node[f].root, node[f].level + 1, node[f].prefix / NPDENTRIES);
    assert s.t != c;
  }

  /** Different frames hang from different entries. */
  lemma SlotsDiffer(r: Range, mem: seq<Frame>, node: map<nat, Node>, at: map<Node, nat>, dead: set<Slot>, f: nat,
                    c: nat)
    requires Forest(r, mem, node, at, dead) && c in node && f in node && f != c && node[f].level < 4
    ensures SlotOf(node, at, f) != SlotOf(node, at, c)
  {
    hide DownOk, Present;
    assert UpOk(mem, at, dead, f, node[f]);
    if node[c].level < 4 {
      assert UpOk(mem, at, dead, c, node[c]);
    } else {
      TopHasNoSlot(r, mem, node, at, dead, c);
      assert NodeOk(r, mem, SlotOf(node, at, f).t, node[SlotOf(node, at, f).t]);
    }
  }

  lemma TopHasNoSlot(r: Range, mem: seq<Frame>, node: map<nat, Node>, at: map<Node, nat>, dead: set<Slot>, c: nat)
    requires Forest(r, mem, node, at, dead) && c in node && node[c].level >= 4
    ensures SlotOf(node, at, c).t == 0
  {
    hide DownOk, UpOk;
    var p := Node(node[c].root, node[c].level + 1, node[c].prefix / NPDENTRIES);
    assert p in at ==> NodeOk(r, mem, at[p], node[at[p]]);
  }

  /** When the tables with dead entries are gone, nothing is dead any more. */
  lemma DeadGone(r: Range, mem: seq<Frame>, node: map<nat, Node>, at: map<Node, nat>, dead: set<Slot>)
    requires Forest(r, mem, node, at, dead)
    requires forall s :: s in dead ==> s.t !in node
    ensures Forest(r, mem, node, at, {})
  {
    hide Present, Target, NodeOk, DownOk;
    forall f | f in node && node[f].level < 4 ensures UpOk(mem, at, {}, f, node[f]) {
      assert UpOk(mem, at, dead, f, node[f]);
    }
  }

  /** With the dead entry cleared, nothing is dead. */
  lemma ClearDead(r: Range, mem: seq<Frame>, node: map<nat, Node>, at: map<Node, nat>, t: nat, i: nat)
    requires Forest(r, mem, node, at, {Slot(t, i)}) && IsTable(mem, t) && i < NPDENTRIES
    ensures Forest(r, SetEntry(mem, t, i, 0), node, at, {})
  {
    hide Target, Present, UpOk, DownOk, NodeOk;
    var mem', dead := SetEntry(mem, t, i, 0), {Slot(t, i)};
    forall f | f in node && node[f].level < 4 ensures UpOk(mem', at, {}, f, node[f]) {
      ClearUp(mem, at, t, i, f, node[f]);
    }
    forall q | IsEntry(node, q) && IsTable(mem', q.t) ensures DownOk(mem', node, q) {
      ClearDown(mem, node, t, i, q);
    }
    forall f | f in node ensures NodeOk(r, mem', f, node[f]) { NodeKept(r, mem, f, node[f], t, i, 0); }
  }

  lemma ClearUp(mem: seq<Frame>, at: map<Node, nat>, t: nat, i: nat, f: nat, n: Node)
    requires UpOk(mem, at, {Slot(t, i)}, f, n) && IsTable(mem, t) && i < NPDENTRIES
    ensures UpOk(SetEntry(mem, t, i, 0), at, {}, f, n)
  {
  }

  lemma ClearDown(mem: seq<Frame>, node: map<nat, Node>, t: nat, i: nat, q: Slot)
    requires IsTable(mem, t) && i < NPDENTRIES && IsEntry(node, q) && IsTable(mem, q.t)
    requires q != Slot(t, i) ==> DownOk(mem, node, q)
    ensures DownOk(SetEntry(mem, t, i, 0), node, q)
  {
    hide Target;
  }

  /** The flat map is the set of page nodes: a page is mapped exactly when it has a node, and its
      entry points to the frame of that node. */
  lemma PteNode(r: Range, mem: seq<Frame>, node: map<nat, Node>, at: map<Node, nat>, root: nat, v: nat)
    requires Forest(r, mem, node, at, {})
    ensures var n, e := Node(root, 0, v), PteOf(mem, at, root, v);
            (n in at <==> e != 0) && (n in at ==> Present(e) && Target(e) == at[n])
  {
    hide NodeOk, UpOk, DownOk;
    var n, m := Node(root, 0, v), Node(root, 1, v / NPDENTRIES);
    if n in at {
      assert UpOk(mem, at, {}, at[n], n);
      PageUp(mem, at, root, v);
    } else if m in at && IsTable(mem, at[m]) {
      assert IsEntry(node, Slot(at[m], v % NPDENTRIES));
      PageDown(mem, node, root, v, at[m]);
    }
  }

  lemma PageUp(mem: seq<Frame>, at: map<Node, nat>, root: nat, v: nat)
    requires Node(root, 0, v) in at && UpOk(mem, at, {}, at[Node(root, 0, v)], Node(root, 0, v))
    ensures var e := PteOf(mem, at, root, v); e != 0 && Present(e) && Target(e) == at[Node(root, 0, v)]
  {
  }

  lemma PageDown(mem: seq<Frame>, node: map<nat, Node>, root: nat, v: nat, t: nat)
    requires t in node && node[t] == Node(root, 1, v / NPDENTRIES) && IsTable(mem, t)
    requires DownOk(mem, node, Slot(t, v % NPDENTRIES))
    ensures Present(mem[t].e[v % NPDENTRIES]) ==>
              var c := Target(mem[t].e[v % NPDENTRIES]); c in node && node[c] == Node(root, 0, v)
  {
    assert v / NPDENTRIES * NPDENTRIES + v % NPDENTRIES == v;
  }
}
