/** Path names as sequences of elements, and what they lead to. */
module PathModel {
  import opened Common
  import opened DirModel

  const SLASH: byte := 47

  /** Directories by inode number. */
  type Tree = map<nat, map<Name, nat>>

  function SkipSlashes(path: seq<byte>, i: nat): (j: nat)
    requires i <= |path|
    ensures i <= j <= |path| && (j < |path| ==> path[j] != SLASH)
    ensures forall k :: i <= k < j ==> path[k] == SLASH
    decreases |path| - i
  {
    if i < |path| && path[i] == SLASH then SkipSlashes(path, i + 1) else i
  }

  function ElemEnd(path: seq<byte>, i: nat): (j: nat)
    requires i <= |path|
    ensures i <= j <= |path| && (j < |path| ==> path[j] == SLASH) && (i < |path| && path[i] != SLASH ==> i < j)
    ensures forall k :: i <= k < j ==> path[k] != SLASH
    decreases |path| - i
  {
    if i < |path| && path[i] != SLASH then ElemEnd(path, i + 1) else i
  }

  /** The elements of the path from position `i` on, each cut to DIRSIZ bytes. */
  function ElementsFrom(path: seq<byte>, i: nat): seq<Name>
    requires i <= |path|
    decreases |path| - i
  {
    var j := SkipSlashes(path, i);
    if j == |path| then [] else [Key(path[j..ElemEnd(path, j)])] + ElementsFrom(path, ElemEnd(path, j))
  }

  function Elements(path: seq<byte>): seq<Name> { ElementsFrom(path, 0) }

  // ----- Elements, independently: slashes separate them, and nothing else does -----

  lemma {:induction false} SkipFrom(path: seq<byte>, i: nat, j: nat)
    requires i <= j <= |path| && (forall k :: i <= k < j ==> path[k] == SLASH) && (j < |path| ==> path[j] != SLASH)
    ensures SkipSlashes(path, i) == j
    decreases j - i
  {
    if i < j {
      SkipFrom(path, i + 1, j);
    }
  }

  lemma {:induction false} EndFrom(path: seq<byte>, i: nat, j: nat)
    requires i <= j <= |path| && (forall k :: i <= k < j ==> path[k] != SLASH) && (j < |path| ==> path[j] == SLASH)
    ensures ElemEnd(path, i) == j
    decreases j - i
  {
    if i < j {
      EndFrom(path, i + 1, j);
    }
  }

  /** The first element lies at [j, e). */
  lemma ElementsStep(path: seq<byte>, i: nat, j: nat, e: nat)
    requires i <= j < e <= |path| && (forall k :: i <= k < j ==> path[k] == SLASH)
    requires (forall k :: j <= k < e ==> path[k] != SLASH) && (e < |path| ==> path[e] == SLASH)
    ensures ElementsFrom(path, i) == [Key(path[j..e])] + ElementsFrom(path, e)
  {
    hide Key;
    SkipFrom(path, i, j);
    EndFrom(path, j, e);
  }

  lemma ElementsNone(path: seq<byte>, i: nat)
    requires i <= |path| && forall k :: i <= k < |path| ==> path[k] == SLASH
    ensures ElementsFrom(path, i) == []
  {
    SkipFrom(path, i, |path|);
  }

  /** Elements from `i` on do not depend on what precedes. */
  lemma {:induction false} ElementsSuffix(pre: seq<byte>, path: seq<byte>, i: nat)
    requires i <= |path|
    ensures ElementsFrom(pre + path, |pre| + i) == ElementsFrom(path, i)
    decreases |path| - i
  {
    hide Key, ElementsFrom;
    var all := pre + path;
    var j := SkipSlashes(path, i);
    assert forall k :: 0 <= k < |path| ==> all[|pre| + k] == path[k];
    forall k | |pre| + i <= k < |pre| + j ensures all[k] == SLASH {
      assert all[|pre| + (k - |pre|)] == path[k - |pre|];
    }
    if j < |path| {
      var e := ElemEnd(path, j);
      forall k | |pre| + j <= k < |pre| + e ensures all[k] != SLASH {
        assert all[|pre| + (k - |pre|)] == path[k - |pre|];
      }
      assert all[|pre| + j..|pre| + e] == path[j..e];
      ElementsSuffix(pre, path, e);
      ElementsStep(path, i, j, e);
      ElementsStep(all, |pre| + i, |pre| + j, |pre| + e);
    } else {
      ElementsNone(path, i);
      ElementsNone(all, |pre| + i);
    }
  }

  lemma {:induction false} ElementsPrefix(a: seq<byte>, b: seq<byte>, i: nat)
    requires i <= |a|
    ensures ElementsFrom(a + [SLASH] + b, i) == ElementsFrom(a, i) + Elements(b)
    decreases |a| - i
  {
    hide Key, ElementsFrom;
    var path := a + [SLASH] + b;
    assert forall k :: 0 <= k < |a| ==> path[k] == a[k];
    assert path[|a|] == SLASH;
    var j := SkipSlashes(a, i);
    if j < |a| {
      var e := ElemEnd(a, j);
      assert path[j..e] == a[j..e];
      ElementsPrefix(a, b, e);
      ElementsStep(a, i, j, e);
      ElementsStep(path, i, j, e);
    } else {
      ElementsSuffix(a + [SLASH], b, 0);
      SlashSkipped(path, i, |a| + 1);
      ElementsNone(a, i);
    }
  }

  lemma {:induction false} SlashSkipped(path: seq<byte>, i: nat, j: nat)
    requires i <= j <= |path| && forall k :: i <= k < j ==> path[k] == SLASH
    ensures ElementsFrom(path, i) == ElementsFrom(path, j)
    decreases j - i
  {
    var e := SkipSlashes(path, j);
    SkipFrom(path, i, e);
  }

  /** A slash separates, a string without slashes is one element, and the empty string has none; these
      determine Elements. */
  lemma ElementsLaws(a: seq<byte>, b: seq<byte>)
    ensures Elements(a + [SLASH] + b) == Elements(a) + Elements(b)
    ensures SLASH !in a && a != [] ==> Elements(a) == [Key(a)]
    ensures Elements([]) == []
  {
    ElementsPrefix(a, b, 0);
    if SLASH !in a && a != [] {
      SkipFrom(a, 0, 0);
      EndFrom(a, 0, |a|);
      assert a[0..|a|] == a;
      assert ElementsFrom(a, |a|) == [];
    }
  }

  // ----- Walking -----

  /** Lookup folded over the elements. */
  function Walk(tree: Tree, t: nat, elems: seq<Name>): Option<nat>
    decreases |elems|
  {
    if elems == [] then Some(t)
    else if t in tree && elems[0] in tree[t] then Walk(tree, tree[t][elems[0]], elems[1..])
    else None
  }

  /** The directory that holds the last element, and that element. */
  function WalkParent(tree: Tree, t: nat, elems: seq<Name>): Option<(nat, Name)>
    decreases |elems|
  {
    if elems == [] || t !in tree then None
    else if |elems| == 1 then Some((t, elems[0]))
    else if elems[0] in tree[t] then WalkParent(tree, tree[t][elems[0]], elems[1..])
    else None
  }

  /** nameiparent walks all but the last element, to a directory. */
  lemma {:induction false} ParentIsPrefix(tree: Tree, t: nat, elems: seq<Name>)
    requires elems != []
    ensures var p := Walk(tree, t, elems[..|elems| - 1]);
            WalkParent(tree, t, elems) ==
            if p.Some? && p.value in tree then Some((p.value, elems[|elems| - 1])) else None
    decreases |elems|
  {
    if |elems| > 1 && t in tree && elems[0] in tree[t] {
      ParentIsPrefix(tree, tree[t][elems[0]], elems[1..]);
      assert elems[1..][..|elems| - 2] == elems[..|elems| - 1][1..];
    }
  }

  /** A path of two parts is walked part by part, one name is looked up in the directory, and the empty path
      stays; these determine Walk. */
  lemma {:induction false} WalkJoin(tree: Tree, t: nat, xs: seq<Name>, ys: seq<Name>)
    ensures Walk(tree, t, []) == Some(t)
    ensures forall name :: Walk(tree, t, [name]) ==
                           if t in tree && name in tree[t] then Some(tree[t][name]) else None
    ensures var m := Walk(tree, t, xs);
            Walk(tree, t, xs + ys) == if m.Some? then Walk(tree, m.value, ys) else None
    decreases |xs|
  {
    if xs == [] {
      assert xs + ys == ys;
    } else {
      assert (xs + ys)[1..] == xs[1..] + ys;
      if t in tree && xs[0] in tree[t] {
        WalkJoin(tree, tree[t][xs[0]], xs[1..], ys);
      }
    }
  }
}
