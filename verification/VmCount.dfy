/** How many frames mapping a range of pages takes: the tables on the way to them that are missing. */
module VmCount {
  import opened VmTree
  import opened VmSnap

  /** The tables between the root and page `v`. */
  ghost function PathNodes(root: nat, v: nat): set<Node> {
    {Node(root, 1, v / 512), Node(root, 2, v / 512 / 512), Node(root, 3, v / 512 / 512 / 512)}
  }

  /** The tables on the way to pages `v .. v + n`. */
  ghost function TableNodes(root: nat, v: nat, n: nat): set<Node> {
    if n == 0 then {} else TableNodes(root, v, n - 1) + PathNodes(root, v + n - 1)
  }

  /** How many tables on the way to page `v` are not among `k`. */
  ghost function Lacking(k: set<Node>, root: nat, v: nat): nat {
    (if Node(root, 1, v / 512) in k then 0 else 1) +
    (if Node(root, 2, v / 512 / 512) in k then 0 else 1) +
    (if Node(root, 3, v / 512 / 512 / 512) in k then 0 else 1)
  }

  /** How many tables are missing on the way to pages `v .. v + n`. */
  ghost function Missing(s: Snap, root: nat, v: nat, n: nat): nat {
    if n == 0 then 0
    else Missing(s, root, v, n - 1) + Lacking(s.at.Keys + TableNodes(root, v, n - 1), root, v + n - 1)
  }

  /** Frames for pages `v .. v + n` and the tables that are missing on the way to them. */
  ghost function Needed(s: Snap, root: nat, v: nat, n: nat): nat { n + Missing(s, root, v, n) }

  /** From `s` to `s'` the tables added are those on the way to pages `v .. v + n` of `root`. */
  ghost predicate Tabled(s: Snap, s': Snap, root: nat, v: nat, n: nat) {
    forall x: Node :: x.level >= 1 ==> (x in s'.at <==> x in s.at || x in TableNodes(root, v, n))
  }

  lemma {:induction false} TableLevels(root: nat, v: nat, n: nat)
    ensures forall x :: x in TableNodes(root, v, n) ==> x.root == root && 1 <= x.level <= 3
  {
    if n > 0 {
      TableLevels(root, v, n - 1);
    }
  }

  /** One page more. */
  lemma MissingMore(s: Snap, s': Snap, root: nat, v: nat, n: nat)
    requires Tabled(s, s', root, v, n)
    ensures Missing(s, root, v, n + 1) == Missing(s, root, v, n) + Missing(s', root, v + n, 1)
  {
    MissingOne(s', root, v + n);
  }

  lemma MissingOne(s: Snap, root: nat, v: nat)
    ensures Missing(s, root, v, 1) == Lacking(s.at.Keys, root, v)
  {
    assert Missing(s, root, v, 0) == 0;
    assert s.at.Keys + TableNodes(root, v, 0) == s.at.Keys;
  }

  lemma TabledMore(s: Snap, s': Snap, s'': Snap, root: nat, v: nat, n: nat)
    requires Tabled(s, s', root, v, n) && Tabled(s', s'', root, v + n, 1)
    ensures Tabled(s, s'', root, v, n + 1)
  {
    hide PathNodes;
    assert TableNodes(root, v + n, 1) == PathNodes(root, v + n) by { assert TableNodes(root, v + n, 0) == {}; }
  }

  lemma NeededIs(s: Snap, root: nat, v: nat, n: nat)
    ensures Needed(s, root, v, n) == n + Missing(s, root, v, n)
  {
  }

  lemma TabledNone(s: Snap, root: nat, v: nat)
    ensures Tabled(s, s, root, v, 0) && Missing(s, root, v, 0) == 0
  {
  }

  /** More pages never need fewer tables. */
  lemma {:induction false} MissingGrows(s: Snap, root: nat, v: nat, m: nat, n: nat)
    requires m <= n
    ensures Missing(s, root, v, m) <= Missing(s, root, v, n)
    decreases n
  {
    if m < n {
      MissingGrows(s, root, v, m, n - 1);
    }
  }

  lemma SameTables(s: Snap, s1: Snap, root: nat, v: nat)
    requires s1.at == s.at
    ensures Missing(s1, root, v, 1) == Missing(s, root, v, 1)
  {
    MissingOne(s, root, v);
    MissingOne(s1, root, v);
  }

  lemma SameTabled(s: Snap, s1: Snap, s2: Snap, root: nat, v: nat)
    requires s1.at == s.at && Tabled(s1, s2, root, v, 1)
    ensures Tabled(s, s2, root, v, 1)
  {
  }

  // ----- A new address space -----

  /** The tables for pages 1 to `n` of an empty address space. */
  function FreshTables(n: nat): nat {
    if n == 0 then 0 else 3 + n / 512 + n / 512 / 512 + n / 512 / 512 / 512
  }

  lemma NextIndex(n: nat)
    requires n > 0
    ensures (n - 1) / 512 == n / 512 || (n - 1) / 512 + 1 == n / 512
  {
  }

  /** From one page to the next every index stays or moves on by one. */
  lemma NextIndexes(n: nat)
    requires n > 0
    ensures (n - 1) / 512 == n / 512 || (n - 1) / 512 + 1 == n / 512
    ensures (n - 1) / 512 / 512 == n / 512 / 512 || (n - 1) / 512 / 512 + 1 == n / 512 / 512
    ensures (n - 1) / 512 / 512 / 512 == n / 512 / 512 / 512 || (n - 1) / 512 / 512 / 512 + 1 == n / 512 / 512 / 512
  {
    NextIndex(n);
    var a, b := (n - 1) / 512, n / 512;
    if a != b {
      NextIndex(b);
    }
    var c, d := a / 512, b / 512;
    if c != d {
      NextIndex(d);
    }
  }

  /** Which tables pages 1 to `n` need: at each level those up to the index of the last page. */
  lemma {:induction false} FreshMember(root: nat, n: nat, x: Node)
    requires n > 0
    ensures x in TableNodes(root, 1, n) <==>
            x.root == root &&
            ((x.level == 1 && x.prefix <= n / 512) || (x.level == 2 && x.prefix <= n / 512 / 512) ||
             (x.level == 3 && x.prefix <= n / 512 / 512 / 512))
  {
    if n == 1 {
      assert TableNodes(root, 1, 0) == {};
    } else {
      FreshMember(root, n - 1, x);
      NextIndexes(n);
    }
  }

  /** An address space with no tables of its own needs a fixed number of them. */
  lemma {:induction false} FreshMissing(s: Snap, root: nat, n: nat)
    requires forall x: Node :: x in s.at && x.root == root ==> x.level >= 4
    ensures Missing(s, root, 1, n) == FreshTables(n)
  {
    if n > 0 {
      FreshMissing(s, root, n - 1);
      FreshLacking(s, root, n);
    }
  }

  /** Page `n` needs a table at each level where its index is new. */
  lemma FreshLacking(s: Snap, root: nat, n: nat)
    requires n > 0 && forall x: Node :: x in s.at && x.root == root ==> x.level >= 4
    ensures Lacking(s.at.Keys + TableNodes(root, 1, n - 1), root, n) == FreshTables(n) - FreshTables(n - 1)
  {
    hide TableNodes;
    if n > 1 {
      FreshMember(root, n - 1, Node(root, 1, n / 512));
      FreshMember(root, n - 1, Node(root, 2, n / 512 / 512));
      FreshMember(root, n - 1, Node(root, 3, n / 512 / 512 / 512));
      NextIndexes(n);
    } else {
      NoTables(root);
    }
  }

  lemma NoTables(root: nat)
    ensures TableNodes(root, 1, 0) == {}
  {
  }

  /** Frames for `n` pages from page 1 of an empty address space. */
  function FreshNeed(n: nat): nat { n + FreshTables(n) }

  /** With `m` frames for `pages` pages, memory runs out between the frame of a page and its last table. */
  ghost predicate RunsOutMidway(m: nat, pages: nat) {
    exists k: nat :: k < pages && FreshNeed(k) < m < FreshNeed(k + 1)
  }

  /** At the first page: one frame for it, and not all of its three tables. */
  lemma FirstPageMidway(m: nat, pages: nat)
    requires 1 <= m <= 3 && 1 <= pages
    ensures RunsOutMidway(m, pages)
  {
    assert FreshNeed(0) == 0 && FreshNeed(1) == 4;
  }

  /** Enough memory never runs out midway, and needs grow. */
  lemma {:induction false} NeedGrows(k: nat, n: nat)
    requires k <= n
    ensures FreshNeed(k) + (n - k) <= FreshNeed(n)
    decreases n
  {
    if k < n {
      NeedGrows(k, n - 1);
      NextIndexes(n);
    }
  }

  lemma FreshNone()
    ensures FreshNeed(0) == 0
  {
  }

  /** Page `v` of a tree whose pages 1 up to `v` have their tables needs its own frame and what is missing. */
  lemma FreshStep(s: Snap, s': Snap, root: nat, v: nat)
    requires v >= 1 && Tabled(s, s', root, 1, v - 1)
    requires forall x: Node :: x in s.at && x.root == root ==> x.level >= 4
    ensures FreshNeed(v) == FreshNeed(v - 1) + 1 + Missing(s', root, v, 1)
  {
    hide Missing, Tabled, FreshTables;
    MissingMore(s, s', root, 1, v - 1);
    FreshMissing(s, root, v - 1);
    FreshMissing(s, root, v);
  }

  /** Memory that ran out at page `k + 1` ran out midway exactly if some was left for it. */
  lemma MidwayExactly(m: nat, k: nat, pages: nat)
    requires k < pages && FreshNeed(k) <= m < FreshNeed(k + 1)
    ensures RunsOutMidway(m, pages) <==> FreshNeed(k) < m
  {
    hide FreshNeed;
    if RunsOutMidway(m, pages) {
      var j: nat :| j < pages && FreshNeed(j) < m < FreshNeed(j + 1);
      if j < k {
        NeedGrows(j + 1, k);
      } else if k < j {
        NeedGrows(k + 1, j);
      }
    }
  }

  // ----- Holes in an address space -----

  /** Pages 1 up to `n` of `root` are mapped. */
  ghost predicate NoHoles(s: Snap, root: nat, n: nat) {
    forall v: nat :: 1 <= v < n ==> Pte(s, root, v) != 0
  }

  /** Page `v` is the first below `hi` that is not. */
  ghost predicate FirstHole(s: Snap, root: nat, v: nat, hi: nat) {
    1 <= v < hi && Pte(s, root, v) == 0 && NoHoles(s, root, v)
  }

  /** There is such a page, and `m` frames are enough for a copy of the pages before it. */
  ghost predicate MeetsHole(s: Snap, root: nat, hi: nat, m: nat) {
    exists v: nat :: FirstHole(s, root, v, hi) && 1 + FreshNeed(v - 1) <= m
  }

  lemma NoHolesYet(s: Snap, root: nat)
    ensures NoHoles(s, root, 1)
  {
  }

  lemma NoHolesMore(s: Snap, root: nat, v: nat)
    requires NoHoles(s, root, v) && Pte(s, root, v) != 0
    ensures NoHoles(s, root, v + 1)
  {
  }

  lemma HoleMet(s: Snap, root: nat, v: nat, hi: nat, m: nat)
    requires 1 <= v < hi && Pte(s, root, v) == 0 && NoHoles(s, root, v) && 1 + FreshNeed(v - 1) <= m
    ensures FirstHole(s, root, v, hi) && MeetsHole(s, root, hi, m)
  {
    assert FirstHole(s, root, v, hi);
  }

  lemma NoHoleAtAll(s: Snap, root: nat, n: nat, hi: nat, m: nat)
    requires NoHoles(s, root, n) && hi <= n
    ensures !MeetsHole(s, root, hi, m)
  {
  }

  /** Memory that does not last for pages 1 up to `v` does not last to a later hole. */
  lemma NoMemoryForHole(s: Snap, root: nat, v: nat, hi: nat, m: nat)
    requires NoHoles(s, root, v + 1) && m < 1 + FreshNeed(v)
    ensures !MeetsHole(s, root, hi, m)
  {
    hide FreshNeed, Pte;
    if MeetsHole(s, root, hi, m) {
      var w: nat :| FirstHole(s, root, w, hi) && 1 + FreshNeed(w - 1) <= m;
      assert w > v;
      NeedGrows(v, w - 1);
    }
  }
}
