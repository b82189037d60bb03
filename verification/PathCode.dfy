/** skipelem, the in-memory inode table's reference counts, and namex. */
module PathCode {
  import opened Common
  import opened FsImage
  import opened Fs
  import opened DirModel
  import opened DirCode
  import opened PathModel

  const NINODE: nat := 50
  const ROOTINO: nat := 1

  // ----- Path elements -----

  /** skipelem from position `from`: the first element, and where the rest begins. */
  method SkipElem(path: seq<byte>, from: nat) returns (rest: Option<nat>, name: Name)
    requires from <= |path| && forall i :: 0 <= i < |path| ==> path[i] != 0
    ensures rest.None? <==> ElementsFrom(path, from) == []
    ensures rest.Some? ==>
              && from < rest.value <= |path| && (rest.value == |path| <==> ElementsFrom(path, rest.value) == [])
              && ElementsFrom(path, from) == [name] + ElementsFrom(path, rest.value) && Key(name) == name
  {
    hide Key, ElementsFrom;
    var p := from;
    while p < |path| && path[p] == SLASH
      invariant from <= p <= |path| && forall k :: from <= k < p ==> path[k] == SLASH
    {
      p := p + 1;
    }
    if p == |path| {
      ElementsNone(path, from);
      return None, [];
    }
    var s := p;
    while p < |path| && path[p] != SLASH
      invariant s <= p <= |path| && forall k :: s <= k < p ==> path[k] != SLASH
    {
      p := p + 1;
    }
    ElementsStep(path, from, s, p);
    var len := p - s;
    name := if len >= DIRSIZ then path[s..s + DIRSIZ] else path[s..p];
    ShortName(path, s, p);
    ShortName(path, s, s + |name|);
    assert path[s..s + |name|] == name;
    ghost var e := p;
    while p < |path| && path[p] == SLASH
      invariant e <= p <= |path| && forall k :: e <= k < p ==> path[k] == SLASH
    {
      p := p + 1;
    }
    SlashSkipped(path, e, p);
    ElementsAtEnd(path, p);
    rest := Some(p);
  }

  lemma ShortName(path: seq<byte>, s: nat, p: nat)
    requires s <= p <= |path| && forall i :: 0 <= i < |path| ==> path[i] != 0
    ensures Key(path[s..p]) == if p - s >= DIRSIZ then path[s..s + DIRSIZ] else path[s..p]
  {
    hide Key;
    var e := path[s..p];
    var n := if p - s >= DIRSIZ then DIRSIZ else p - s;
    LongKey(e, n);
    if n < DIRSIZ {
      KeyStops(e, n);
    }
    assert |Key(e)| == n;
    assert Key(e) == e[..n];
    assert e[..n] == path[s..s + n];
  }

  lemma ElementsAtEnd(path: seq<byte>, p: nat)
    requires p <= |path| && (p < |path| ==> path[p] != SLASH)
    ensures p == |path| <==> ElementsFrom(path, p) == []
  {
  }

  // ----- Reference counts -----

  datatype ISlot = ISlot(inum: nat, ref: nat, valid: bool)

  ghost predicate SlotsOk(slots: seq<ISlot>, ninodes: nat) {
    && |slots| == NINODE
    && (forall i :: 0 <= i < |slots| && slots[i].ref > 0 ==> slots[i].inum < ninodes)
    && (forall i, j :: 0 <= i < j < |slots| && slots[i].ref > 0 && slots[j].ref > 0 ==> slots[i].inum != slots[j].inum)
  }

  /** The same inodes are referenced as often. */
  ghost predicate Balanced(a: seq<ISlot>, b: seq<ISlot>) {
    |a| == |b| && forall j :: 0 <= j < |a| ==> b[j].ref == a[j].ref && (a[j].ref > 0 ==> b[j].inum == a[j].inum)
  }

  /** One more reference, through slot `ip`. */
  ghost predicate OneMore(a: seq<ISlot>, b: seq<ISlot>, ip: nat) {
    && ip < |a| == |b| && b[ip].ref == a[ip].ref + 1 && (a[ip].ref > 0 ==> b[ip].inum == a[ip].inum)
    && (forall j :: 0 <= j < |a| && j != ip ==> b[j].ref == a[j].ref && (a[j].ref > 0 ==> b[j].inum == a[j].inum))
  }

  ghost predicate TwoFree(a: seq<ISlot>) {
    exists i, j :: 0 <= i < j < |a| && a[i].ref == 0 && a[j].ref == 0
  }

  /** Taking a reference to the next inode and dropping the one in hand moves the extra reference. */
  lemma Handover(a: seq<ISlot>, b: seq<ISlot>, c: seq<ISlot>, d: seq<ISlot>, ip: nat, np: nat)
    requires OneMore(a, b, ip) && OneMore(b, c, np) && |d| == |c|
    requires d[ip].inum == c[ip].inum && d[ip].ref == c[ip].ref - 1
    requires forall j :: 0 <= j < |c| && j != ip ==> d[j] == c[j]
    ensures OneMore(a, d, np)
  {
  }

  /** An inode when its last reference and link are gone. */
  function Freed(ino: Inode): Inode {
    ino.(typ := 0, size := 0, addrs := seq(NDIRECT + 1, k => 0))
  }

  class Inodes {
    const fs: FileSys
    var slots: seq<ISlot>

    ghost predicate Valid()
      reads this, fs
    {
      fs.Valid() && SlotsOk(slots, |fs.inodes|)
    }

    constructor (fs: FileSys)
      requires fs.Valid()
      ensures this.fs == fs && Valid() && forall i :: 0 <= i < NINODE ==> slots[i].ref == 0
    {
      this.fs := fs;
      slots := seq(NINODE, _ => ISlot(0, 0, false));
    }

    /** iget; None is the panic. */
    method Iget(inum: nat) returns (r: Option<nat>)
      requires Valid() && inum < |fs.inodes|
      modifies this`slots
      ensures Valid()
      ensures r.Some? ==> OneMore(old(slots), slots, r.value) && slots[r.value].inum == inum
      ensures r.None? ==> slots == old(slots)
      ensures r.None? <==> forall i :: 0 <= i < NINODE ==> old(slots[i]).ref > 0 && old(slots[i]).inum != inum
    {
      var empty := None;
      for i := 0 to NINODE
        invariant slots == old(slots)
        invariant forall j :: 0 <= j < i ==> slots[j].ref == 0 || slots[j].inum != inum
        invariant empty.None? ==> forall j :: 0 <= j < i ==> slots[j].ref > 0
        invariant empty.Some? ==> 0 <= empty.value < i && slots[empty.value].ref == 0
      {
        if slots[i].ref > 0 && slots[i].inum == inum {
          slots := slots[i := slots[i].(ref := slots[i].ref + 1)];
          return Some(i);
        }
        if empty.None? && slots[i].ref == 0 {
          empty := Some(i);
        }
      }
      if empty.None? {
        return None;
      }
      slots := slots[empty.value := ISlot(inum, 1, false)];
      r := empty;
    }

    method Idup(ip: nat)
      requires Valid() && ip < NINODE && slots[ip].ref > 0
      modifies this`slots
      ensures Valid() && slots == old(slots)[ip := old(slots[ip]).(ref := old(slots[ip]).ref + 1)]
    {
      slots := slots[ip := slots[ip].(ref := slots[ip].ref + 1)];
    }

    /** ilock, as far as the table goes; false is the panic on an unreferenced slot or a free inode. */
    method Ilock(ip: nat) returns (ok: bool)
      requires Valid() && ip < NINODE
      modifies this`slots
      ensures Valid()
      ensures slots == if old(slots[ip]).ref > 0 then old(slots)[ip := old(slots[ip]).(valid := true)] else old(slots)
      ensures ok <==> old(slots[ip]).ref > 0 && (old(slots[ip]).valid || fs.inodes[slots[ip].inum].typ != 0)
    {
      if slots[ip].ref == 0 {
        return false;
      }
      ok := slots[ip].valid || fs.inodes[slots[ip].inum].typ != 0;
      slots := slots[ip := slots[ip].(valid := true)];
    }

    /** iput: one reference less; the last one to an inode without links frees its blocks and the inode. */
    method Iput(ip: nat)
      requires Valid() && ip < NINODE && slots[ip].ref > 0
      modifies this`slots, fs
      ensures Valid() && |slots| == |old(slots)|
      ensures slots[ip].ref == old(slots[ip]).ref - 1 && slots[ip].inum == old(slots[ip]).inum
      ensures forall j :: 0 <= j < NINODE && j != ip ==> slots[j] == old(slots[j])
      ensures var x := old(slots[ip]);
              if x.ref == 1 && x.valid && old(fs.inodes[x.inum].nlink) == 0 then
                && fs.inodes == old(fs.inodes)[x.inum := Freed(old(fs.inodes[x.inum]))]
                && fs.inodes[x.inum].typ == 0 && Bytes(fs, x.inum) == []
                && fs.dinodes == old(fs.dinodes)[x.inum := fs.inodes[x.inum]]
                && (forall b :: b in fs.own <==> old(b in fs.own && fs.own[b].i != x.inum))
                && (forall j :: 0 <= j < |fs.inodes| && j != x.inum ==> Bytes(fs, j) == old(Bytes(fs, j)))
              else unchanged(fs)
    {
      hide Owned, Ref, Content, NoHoles;
      var x := slots[ip];
      if x.ref == 1 && x.valid && fs.inodes[x.inum].nlink == 0 {
        var _ := fs.Itrunc(x.inum);
        TypeValid(fs.sb, fs.Img(), fs.own, x.inum, 0);
        fs.inodes := fs.inodes[x.inum := fs.inodes[x.inum].(typ := 0)];
        fs.Iupdate(x.inum);
        slots := slots[ip := slots[ip].(valid := false)];
      }
      slots := slots[ip := slots[ip].(ref := slots[ip].ref - 1)];
    }

    /** The reference in hand is not the last one to an inode without links. */
    ghost predicate Kept(ip: nat)
      requires Valid()
      reads this, fs
    {
      && ip < NINODE && slots[ip].ref > 0 && slots[ip].inum < |fs.inodes| && fs.inodes[slots[ip].inum].typ != 0
      && (fs.inodes[slots[ip].inum].nlink > 0 || slots[ip].ref > 1)
    }

    /** On a sound path the reference in hand is like that: an inode without links is one that the caller
        holds as well. */
    lemma KeptInHand(ip: nat, a: seq<ISlot>, elems: seq<Name>, parent: bool)
      requires Valid() && ip < NINODE && OneMore(a, slots, ip) && WalkOk(fs, a, slots[ip].inum, elems, parent)
      ensures Kept(ip)
    {
      hide Owned, Ref, Content, NoHoles;
      var t := slots[ip].inum;
      if fs.inodes[t].nlink <= 0 {
        var j :| 0 <= j < |a| && a[j].ref > 0 && a[j].inum == t;
        assert slots[j].ref > 0 && slots[j].inum == t;
      }
    }

    /** Dropping such a reference frees nothing. */
    method Drop(ip: nat, ghost a: seq<ISlot>)
      requires Valid() && Kept(ip) && OneMore(a, slots, ip)
      modifies this`slots, fs
      ensures Valid() && unchanged(fs) && Balanced(a, slots)
    {
      Iput(ip);
    }

    /** Where namex starts. */
    method Start(path: seq<byte>, cwd: nat) returns (r: Option<nat>)
      requires Valid() && cwd < NINODE && slots[cwd].ref > 0
      requires path != [] && path[0] == SLASH ==> ROOTINO < |fs.inodes|
      modifies this`slots
      ensures Valid() && (r.None? ==> !TwoFree(old(slots)))
      ensures r.Some? ==>
                && OneMore(old(slots), slots, r.value)
                && slots[r.value].inum == if path != [] && path[0] == SLASH then ROOTINO else old(slots[cwd]).inum
    {
      hide Owned, Ref, Content, NoHoles, TwoFree;
      if path != [] && path[0] == SLASH {
        r := Iget(ROOTINO);
        if r.None? {
          NoneFree(slots);
        }
      } else {
        Idup(cwd);
        r := Some(cwd);
      }
    }

    /** Exchange the reference in hand for one to the inode of an entry; None is iget's panic. */
    method Follow(ip: nat, inum: nat, ghost a: seq<ISlot>) returns (r: Option<nat>)
      requires Valid() && Kept(ip) && OneMore(a, slots, ip) && inum < |fs.inodes|
      modifies this`slots, fs
      ensures Valid() && unchanged(fs) && (r.None? ==> !TwoFree(a))
      ensures r.Some? ==> OneMore(a, slots, r.value) && slots[r.value].inum == inum
    {
      hide Owned, Ref, Content, NoHoles, TwoFree;
      ghost var b := slots;
      r := Iget(inum);
      if r.None? {
        StillFree(a, b, ip);
        return;
      }
      ghost var c := slots;
      Iput(ip);
      Handover(a, b, c, slots, ip, r.value);
    }

    /** One step of namex: from a locked directory to the inode of an entry.  `a` is the table before the
        reference to the directory was taken. */
    method Descend(ip: nat, name: Name, ghost a: seq<ISlot>) returns (d: Down)
      requires Valid() && Kept(ip) && fs.inodes[slots[ip].inum].typ == T_DIR && Key(name) == name
      requires OneMore(a, slots, ip) && EntryOk(fs, slots[ip].inum, name)
      modifies this`slots, fs
      ensures Valid() && unchanged(fs)
      ensures old(slots[ip]).inum in Dirs(fs)
      ensures d.Into? ==>
                && name in Dirs(fs)[old(slots[ip]).inum] && OneMore(a, slots, d.np)
                && slots[d.np].inum == Dirs(fs)[old(slots[ip]).inum][name]
      ensures d.Fails? ==> name !in Dirs(fs)[old(slots[ip]).inum] && Balanced(a, slots)
      ensures d.DownPanic? ==> !TwoFree(a)
    {
      hide Owned, Ref, Content, NoHoles, Dirs, MapOf, Bytes, TwoFree, SlotsOk, Balanced;
      DirAt(fs, slots[ip].inum);
      var l := DirLookup(fs, slots[ip].inum, name);
      if !l.Found? {
        Drop(ip, a);
        return Fails;
      }
      var g := Follow(ip, l.inum, a);
      d := if g.None? then DownPanic else Into(g.value);
    }

    /** One turn of namex's loop. */
    method Advance(path: seq<byte>, at: nat, parent: bool, ip: nat, ghost a: seq<ISlot>) returns (d: Turn, next: nat)
      requires Valid() && at <= |path| && forall i :: 0 <= i < |path| ==> path[i] != 0
      requires ip < NINODE && OneMore(a, slots, ip) && WalkOk(fs, a, slots[ip].inum, ElementsFrom(path, at), parent)
      modifies this`slots, fs
      ensures Valid() && unchanged(fs)
      ensures d == Answer(PathPanic) ==> !TwoFree(a)
      ensures d.Answer? && d.r != PathPanic ==>
                Resolved(d.r, a, slots, Want(Dirs(fs), old(slots[ip]).inum, ElementsFrom(path, at), parent), parent)
      ensures d.Goes? ==>
                && at < next <= |path| && OneMore(a, slots, d.np)
                && WalkOk(fs, a, slots[d.np].inum, ElementsFrom(path, next), parent)
                && Want(Dirs(fs), slots[d.np].inum, ElementsFrom(path, next), parent) ==
                   Want(Dirs(fs), old(slots[ip]).inum, ElementsFrom(path, at), parent)
    {
      hide Owned, Ref, Content, NoHoles, Dirs, ElementsFrom, Key, MapOf, Bytes, TwoFree, Want, SlotsOk, WalkOk, EntryOk;
      next := at;
      var rest, name := SkipElem(path, at);
      WantStep(Dirs(fs), slots[ip].inum, ElementsFrom(path, at), parent);
      KeptInHand(ip, a, ElementsFrom(path, at), parent);
      IsDir(fs, slots[ip].inum);
      if rest.None? {
        if parent {
          Drop(ip, a);
          return Answer(NoPath), next;
        }
        return Answer(Reached(ip, [])), next;
      }
      assert ElementsFrom(path, at)[1..] == ElementsFrom(path, rest.value);
      next := rest.value;
      var ok := Ilock(ip);
      WalkStep(fs, a, slots[ip].inum, ElementsFrom(path, at), parent);
      if fs.inodes[slots[ip].inum].typ != T_DIR {
        Drop(ip, a);
        return Answer(NoPath), next;
      }
      if parent && next == |path| {
        return Answer(Reached(ip, name)), next;
      }
      var down := Descend(ip, name, a);
      match down
      case DownPanic => d := Answer(PathPanic);
      case Fails => d := Answer(NoPath);
      case Into(np) => d := Goes(np);
    }

    /** namex from the root or from the inode in slot `cwd`.  The result is the fold of lookup over the path's
        elements; on success there is one more reference, to the result, on failure none; no inode is freed; and
        it panics only if fewer than two table slots are free. */
    method Namex(path: seq<byte>, parent: bool, cwd: nat) returns (r: Walked)
      requires Valid() && forall i :: 0 <= i < |path| ==> path[i] != 0
      requires cwd < NINODE && slots[cwd].ref > 0
      requires var t := if path != [] && path[0] == SLASH then ROOTINO else slots[cwd].inum;
               WalkOk(fs, slots, t, Elements(path), parent)
      modifies this`slots, fs
      ensures Valid() && unchanged(fs)
      ensures r == PathPanic ==> !TwoFree(old(slots))
      ensures r != PathPanic ==>
                var t := if path != [] && path[0] == SLASH then ROOTINO else old(slots[cwd]).inum;
                Resolved(r, old(slots), slots, Want(Dirs(fs), t, Elements(path), parent), parent)
    {
      hide Owned, Ref, Content, NoHoles, Dirs, ElementsFrom, Key, MapOf, Bytes, TwoFree, Want, Resolved, WalkOk;
      WalkStep(fs, slots, if path != [] && path[0] == SLASH then ROOTINO else slots[cwd].inum, Elements(path), parent);
      var first := Start(path, cwd);
      if first.None? {
        return PathPanic;
      }
      var ip := first.value;
      ghost var a, t0 := old(slots), slots[ip].inum;
      var at := 0;
      while true
        invariant Valid() && unchanged(fs) && at <= |path| && OneMore(a, slots, ip)
        invariant WalkOk(fs, a, slots[ip].inum, ElementsFrom(path, at), parent)
        invariant Want(Dirs(fs), slots[ip].inum, ElementsFrom(path, at), parent) ==
                  Want(Dirs(fs), t0, Elements(path), parent)
        decreases |path| - at
      {
        var d;
        d, at := Advance(path, at, parent, ip, a);
        match d
        case Answer(w) => return w;
        case Goes(np) => ip := np;
      }
    }
  }

  // ----- namex -----

  datatype Down = Into(np: nat) | Fails | DownPanic
  datatype Turn = Answer(r: Walked) | Goes(np: nat)
  datatype Walked = Reached(ip: nat, name: Name) | NoPath | PathPanic

  /** The directories of the file system. */
  ghost function Dirs(fs: FileSys): Tree
    requires fs.Valid()
    reads fs
  {
    map t: nat | t < |fs.inodes| && fs.inodes[t].typ == T_DIR :: DirMap(Bytes(fs, t))
  }

  ghost predicate Held(a: seq<ISlot>, t: nat) {
    exists j :: 0 <= j < |a| && a[j].ref > 0 && a[j].inum == t
  }

  /** The inodes that a path visits are in use, and have a link or are held by the caller; lookups in them
      find the entry or reach the end without meeting part of an entry. */
  ghost predicate WalkOk(fs: FileSys, a: seq<ISlot>, t: nat, elems: seq<Name>, parent: bool)
    requires fs.Valid()
    reads fs
    decreases |elems|
  {
    && t < |fs.inodes| && fs.inodes[t].typ != 0 && (fs.inodes[t].nlink > 0 || Held(a, t))
    && (fs.inodes[t].typ == T_DIR && elems != [] && !(parent && |elems| == 1) ==>
          && EntryOk(fs, t, elems[0])
          && (elems[0] in DirMap(Bytes(fs, t)) ==> WalkOk(fs, a, DirMap(Bytes(fs, t))[elems[0]], elems[1..], parent)))
  }

  ghost predicate EntryOk(fs: FileSys, t: nat, name: Name)
    requires fs.Valid() && t < |fs.inodes|
    reads fs
  {
    var m := DirMap(Bytes(fs, t));
    if name in m then m[name] < |fs.inodes| else |Bytes(fs, t)| % DIRENT == 0
  }

  lemma WalkStep(fs: FileSys, a: seq<ISlot>, t: nat, elems: seq<Name>, parent: bool)
    requires fs.Valid() && WalkOk(fs, a, t, elems, parent)
    ensures t < |fs.inodes| && fs.inodes[t].typ != 0
    ensures fs.inodes[t].typ == T_DIR && elems != [] && !(parent && |elems| == 1) ==>
              && EntryOk(fs, t, elems[0])
              && t in Dirs(fs) && (elems[0] in Dirs(fs)[t] ==> WalkOk(fs, a, Dirs(fs)[t][elems[0]], elems[1..], parent))
  {
  }

  /** What a path leads to: an inode, and for nameiparent the name to look up in it. */
  function Want(tree: Tree, t: nat, elems: seq<Name>, parent: bool): Option<(nat, Name)> {
    if parent then WalkParent(tree, t, elems)
    else match Walk(tree, t, elems) case Some(u) => Some((u, [])) case None => None
  }

  /** Whether namex's answer and its effect on the reference counts are right. */
  ghost predicate Resolved(r: Walked, a: seq<ISlot>, b: seq<ISlot>, want: Option<(nat, Name)>, parent: bool) {
    match want
    case Some(d) => r.Reached? && OneMore(a, b, r.ip) && b[r.ip].inum == d.0 && (parent ==> r.name == d.1)
    case None => r == NoPath && Balanced(a, b)
  }

  lemma DirAt(fs: FileSys, t: nat)
    requires fs.Valid() && t < |fs.inodes| && fs.inodes[t].typ == T_DIR
    ensures t in Dirs(fs) && Dirs(fs)[t] == DirMap(Bytes(fs, t))
  {
  }

  lemma IsDir(fs: FileSys, t: nat)
    requires fs.Valid() && t < |fs.inodes|
    ensures t in Dirs(fs) <==> fs.inodes[t].typ == T_DIR
  {
  }

  lemma NoneFree(a: seq<ISlot>)
    requires forall i :: 0 <= i < |a| ==> a[i].ref > 0
    ensures !TwoFree(a)
  {
  }

  lemma WantStep(tree: Tree, t: nat, elems: seq<Name>, parent: bool)
    ensures elems == [] ==> Want(tree, t, elems, parent) == if parent then None else Some((t, []))
    ensures elems != [] && t !in tree ==> Want(tree, t, elems, parent) == None
    ensures |elems| == 1 && t in tree && parent ==> Want(tree, t, elems, parent) == Some((t, elems[0]))
    ensures elems != [] && t in tree && !(parent && |elems| == 1) ==>
              Want(tree, t, elems, parent) ==
              if elems[0] in tree[t] then Want(tree, tree[t][elems[0]], elems[1..], parent) else None
  {
  }

  /** Some slot stays free while one more than before is in use. */
  lemma StillFree(a: seq<ISlot>, b: seq<ISlot>, ip: nat)
    requires OneMore(a, b, ip) && forall i :: 0 <= i < |b| ==> b[i].ref > 0
    ensures !TwoFree(a)
  {
  }

  lemma TypeValid(sb: Super, g: Image, own: map<int, Slot>, i: nat, typ: int)
    requires Consistent(sb, g, own) && i < |g.inodes|
    ensures var g' := g.(inodes := g.inodes[i := g.inodes[i].(typ := typ)]);
            && Consistent(sb, g', own)
            && forall j :: 0 <= j < |g.inodes| && NoHoles(sb, g, j) ==>
                 NoHoles(sb, g', j) && Content(sb, g', j) == Content(sb, g, j)
  {
    var g' := g.(inodes := g.inodes[i := g.inodes[i].(typ := typ)]);
    assert Shape(sb, g');
    forall s | IsSlot(g, s) ensures Ref(sb, g', s) == Ref(sb, g, s) {}
    forall b | b in own ensures OwnedBy(sb, g', own[b], b) { assert OwnedBy(sb, g, own[b], b); }
    forall j | 0 <= j < |g.inodes| && NoHoles(sb, g, j)
      ensures NoHoles(sb, g', j) && Content(sb, g', j) == Content(sb, g, j)
    {
      TypeContent(sb, g, g', j);
    }
  }

  lemma TypeContent(sb: Super, g: Image, g': Image, j: nat)
    requires Shape(sb, g) && Shape(sb, g') && j < |g.inodes| == |g'.inodes| && g'.blocks == g.blocks
    requires g'.inodes[j].addrs == g.inodes[j].addrs && g'.inodes[j].size == g.inodes[j].size && NoHoles(sb, g, j)
    ensures NoHoles(sb, g', j) && Content(sb, g', j) == Content(sb, g, j)
  {
    forall k: nat | IsSlot(g, Slot(j, k)) ensures Ref(sb, g', Slot(j, k)) == Ref(sb, g, Slot(j, k)) {}
    forall p: nat | p < g.inodes[j].size ensures ByteAt(sb, g', j, p) == ByteAt(sb, g, j, p) {}
  }
}
