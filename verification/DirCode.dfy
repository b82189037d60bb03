/** dirlookup and dirlink over the file content kept by readi and writei. */
module DirCode {
  import opened Common
  import opened FsImage
  import opened FsNeed
  import opened Fs
  import opened DirModel

  const T_DIR: int := 1

  datatype Lookup = Found(inum: nat, off: nat) | Absent | LookupPanic
  datatype Link = Linked | Exists | LinkPanic

  /** namecmp: strncmp to DIRSIZ characters answers zero exactly on equal names. */
  method NameCmp(s: seq<byte>, t: seq<byte>) returns (same: bool)
    ensures same <==> Key(s) == Key(t)
  {
    hide Key;
    var i := 0;
    while i < DIRSIZ && CharAt(s, i) != 0 && CharAt(s, i) == CharAt(t, i)
      invariant i <= DIRSIZ && forall j :: 0 <= j < i ==> CharAt(s, j) == CharAt(t, j) && CharAt(s, j) != 0
    {
      i := i + 1;
    }
    SameKey(s, t, i);
    same := i == DIRSIZ || CharAt(s, i) == CharAt(t, i);
  }

  /** strncpy of a name. */
  method StrNCpy(t: seq<byte>) returns (s: seq<byte>)
    ensures s == Padded(t)
  {
    hide Key, Padded;
    s := [];
    var i := 0;
    while i < DIRSIZ && CharAt(t, i) != 0
      invariant i <= DIRSIZ && |s| == i && forall j :: 0 <= j < i ==> s[j] == CharAt(t, j) && s[j] != 0
    {
      s := s + [CharAt(t, i)];
      i := i + 1;
    }
    LongKey(t, i);
    ghost var k := Key(t);
    if i < DIRSIZ {
      KeyStops(t, i);
    }
    assert |k| == i && s == k;
    while i < DIRSIZ
      invariant |k| <= i <= DIRSIZ && |s| == i && s[..|k|] == k && forall j :: |k| <= j < i ==> s[j] == 0
    {
      s := s + [0];
      i := i + 1;
    }
    PaddedIs(t, s);
  }

  lemma PaddedIs(t: seq<byte>, s: seq<byte>)
    requires var k := Key(t); |s| == DIRSIZ && s[..|k|] == k && forall j :: |k| <= j < DIRSIZ ==> s[j] == 0
    ensures s == Padded(t)
  {
    hide Key;
    var k := Key(t);
    assert s[|k|..] == seq(DIRSIZ - |k|, _ => 0);
    assert s == s[..|k|] + s[|k|..];
  }

  ghost function Bytes(fs: FileSys, i: nat): seq<byte>
    requires fs.Valid() && i < |fs.inodes|
    reads fs
  {
    assert NoHoles(fs.sb, fs.Img(), i);
    Content(fs.sb, fs.Img(), i)
  }

  /** What dirlookup answers, as a function of the directory's content. */
  ghost predicate Answers(r: Lookup, typ: int, c: seq<byte>, name: seq<byte>) {
    var m, k := DirMap(c), Key(name);
    if typ != T_DIR then r == LookupPanic
    else if k in m then
      && r.Found? && r.inum == m[k] && r.off % DIRENT == 0 && r.off / DIRENT < Count(c)
      && Names(Dirents(c)[r.off / DIRENT], k)
    else r == if |c| % DIRENT == 0 then Absent else LookupPanic
  }

  method DirLookup(fs: FileSys, dp: nat, name: seq<byte>) returns (r: Lookup)
    requires fs.Valid() && dp < |fs.inodes|
    modifies fs
    ensures unchanged(fs)
    ensures Answers(r, fs.inodes[dp].typ, Bytes(fs, dp), name)
  {
    hide Content, Owned, Ref, Key, DirentOf, EntryBytes, NoHoles, Consistent, Dirents, MapOf;
    if fs.inodes[dp].typ != T_DIR {
      return LookupPanic;
    }
    ghost var c := Bytes(fs, dp);
    SizeBound(fs, dp);
    var off := 0;
    ghost var i := 0;
    while off < fs.inodes[dp].size
      invariant unchanged(fs) && off == i * DIRENT && i <= Count(c)
      invariant forall j :: 0 <= j < i ==> !Names(Dirents(c)[j], Key(name))
    {
      var got, de := fs.Readi(dp, off, DIRENT);
      if got != Done(DIRENT) {
        ShortRead(c, i);
        NotNamed(Dirents(c), Key(name));
        return LookupPanic;
      }
      FullRead(c, i, de);
      var inum := de[0] as nat + 256 * (de[1] as nat);
      if inum != 0 {
        var same := NameCmp(name, de[2..]);
        if same {
          FirstNamed(Dirents(c), i, Key(name));
          return Found(inum, off);
        }
      }
      off := off + DIRENT;
      i := i + 1;
    }
    AllRead(c, i);
    NotNamed(Dirents(c), Key(name));
    r := Absent;
  }

  lemma SizeBound(fs: FileSys, i: nat)
    requires fs.Valid() && i < |fs.inodes|
    ensures |Bytes(fs, i)| == fs.inodes[i].size <= MAXFILE * BSIZE < UINT - DIRENT
  {
    assert NoHoles(fs.sb, fs.Img(), i);
  }

  lemma ShortRead(c: seq<byte>, i: nat)
    requires i <= Count(c) && |c| < i * DIRENT + DIRENT && i * DIRENT < |c|
    ensures i == Count(c) && |c| % DIRENT != 0
  {
  }

  lemma AllRead(c: seq<byte>, i: nat)
    requires i <= Count(c) && |c| <= i * DIRENT
    ensures i == Count(c) && |c| % DIRENT == 0
  {
  }

  lemma FullRead(c: seq<byte>, i: nat, de: seq<byte>)
    requires i * DIRENT + DIRENT <= |c| && de == c[i * DIRENT..i * DIRENT + DIRENT]
    ensures i < Count(c) && |de| == DIRENT
    ensures Dirents(c)[i] == Dirent(de[0] as nat + 256 * (de[1] as nat), Key(de[2..]))
    ensures i * DIRENT % DIRENT == 0 && i * DIRENT / DIRENT == i
  {
    hide Key;
    Units(c, i);
    assert de == EntryBytes(c, i);
  }

  lemma Units(c: seq<byte>, i: nat)
    requires i * DIRENT + DIRENT <= |c|
    ensures i < Count(c) && i * DIRENT % DIRENT == 0 && i * DIRENT / DIRENT == i
  {
  }

  /** The slot dirlink chooses: the first free one, or a new one at the end. */
  ghost predicate FirstFree(es: seq<Dirent>, i: nat) {
    i <= |es| && (i < |es| ==> es[i].inum == 0) && forall j :: 0 <= j < i ==> es[j].inum != 0
  }

  /** dirlink's search for a slot; false stands for the panic on part of an entry. */
  method FindFree(fs: FileSys, dp: nat) returns (ok: bool, off: nat, ghost i: nat)
    requires fs.Valid() && dp < |fs.inodes| && fs.inodes[dp].typ == T_DIR
    modifies fs
    ensures unchanged(fs)
    ensures FirstFree(Dirents(Bytes(fs, dp)), i) && off == i * DIRENT <= |Bytes(fs, dp)|
    ensures !ok <==> i == |Dirents(Bytes(fs, dp))| && |Bytes(fs, dp)| % DIRENT != 0
  {
    hide Content, Owned, Ref, Key, DirentOf, EntryBytes, NoHoles, Consistent, Dirents, MapOf;
    ghost var c := Bytes(fs, dp);
    SizeBound(fs, dp);
    off, i := 0, 0;
    while off < fs.inodes[dp].size
      invariant unchanged(fs) && off == i * DIRENT && i <= Count(c)
      invariant forall j :: 0 <= j < i ==> Dirents(c)[j].inum != 0
    {
      var got, de := fs.Readi(dp, off, DIRENT);
      if got != Done(DIRENT) {
        ShortRead(c, i);
        return false, off, i;
      }
      FullRead(c, i, de);
      if de[0] as nat + 256 * (de[1] as nat) == 0 {
        return true, off, i;
      }
      off := off + DIRENT;
      i := i + 1;
    }
    AllRead(c, i);
    ok := true;
  }

  /** A directory of whole entries can take one in its first free slot `i`: there the file is within its
      limit, and if the block is not mapped there are enough free blocks. */
  ghost predicate HasRoom(fs: FileSys, dp: nat, i: nat)
    requires fs.Valid() && dp < |fs.inodes|
    reads fs
  {
    && |Bytes(fs, dp)| % DIRENT == 0 && FirstFree(Dirents(Bytes(fs, dp)), i)
    && i * DIRENT + DIRENT <= MAXFILE * BSIZE
    && ByteNeed(fs.sb, fs.Img(), dp, i * DIRENT, DIRENT) <= fs.Free()
  }

  /** dirlink: a name that is there stays as it is and the call fails; otherwise the first free slot, or a new
      one, gets the name with the inode number cut to 16 bits, and no other file's content changes. */
  method DirLink(fs: FileSys, dp: nat, name: seq<byte>, inum: nat) returns (r: Link, ghost i: nat)
    requires fs.Valid() && dp < |fs.inodes|
    modifies fs
    ensures r == Exists <==> old(fs.inodes[dp].typ) == T_DIR && Key(name) in DirMap(old(Bytes(fs, dp)))
    ensures r == Exists ==> unchanged(fs)
    ensures r == Linked ==> fs.Valid() && |fs.inodes| == old(|fs.inodes|) && Key(name) !in DirMap(old(Bytes(fs, dp)))
    ensures r == Linked ==>
              var es := Dirents(old(Bytes(fs, dp)));
              FirstFree(es, i) && Dirents(Bytes(fs, dp)) == Placed(es, i, Dirent(inum % USHORT, Key(name)))
    ensures r == Linked ==>
              && DirMap(Bytes(fs, dp)) == With(DirMap(old(Bytes(fs, dp))), Dirent(inum % USHORT, Key(name)))
              && (NoTwins(Dirents(old(Bytes(fs, dp)))) ==> NoTwins(Dirents(Bytes(fs, dp))))
    ensures r == Linked ==> forall j :: 0 <= j < |fs.inodes| && j != dp ==> Bytes(fs, j) == old(Bytes(fs, j))
    ensures old(fs.inodes[dp].typ) == T_DIR && Key(name) !in DirMap(old(Bytes(fs, dp))) ==>
              |old(Bytes(fs, dp))| % DIRENT == 0 ==> FirstFree(Dirents(old(Bytes(fs, dp))), i)
    ensures r == LinkPanic <==>
            || old(fs.inodes[dp].typ) != T_DIR
            || (Key(name) !in DirMap(old(Bytes(fs, dp))) && !old(HasRoom(fs, dp, i)))
  {
    hide Content, Owned, Ref, Key, DirentOf, EntryBytes, NoHoles, MapOf, Dirents, Splice, FirstFree, Need, FreeBits,
         Covered, AllLogged;
    SizeBound(fs, dp);
    var l := DirLookup(fs, dp, name);
    if l.Found? {
      return Exists, 0;
    }
    if l.LookupPanic? {
      return LinkPanic, 0;
    }
    ghost var c := Bytes(fs, dp);
    var found, off;
    found, off, i := FindFree(fs, dp);
    if !found {
      return LinkPanic, i;
    }
    var padded := StrNCpy(name);
    var de := [(inum % 256) as byte, (inum / 256 % 256) as byte] + padded;
    assert de == MakeEntry(name, inum);
    FreeBound(c, i);
    SizeBound(fs, dp);
    var w := fs.Writei(dp, off, de);
    if w != Done(DIRENT) {
      return LinkPanic, i;
    }
    SpliceEntry(c, i, de);
    PlacedMap(Dirents(c), i, DirentOf(de));
    if NoTwins(Dirents(c)) {
      PlacedNoTwins(Dirents(c), i, DirentOf(de));
    }
    r := Linked;
  }

  lemma FreeBound(c: seq<byte>, i: nat)
    requires |c| % DIRENT == 0 && FirstFree(Dirents(c), i)
    ensures i <= Count(c) && i * DIRENT <= |c|
    ensures i < |Dirents(c)| ==> Dirents(c)[i].inum == 0
    ensures i <= |Dirents(c)|
  {
  }
}
