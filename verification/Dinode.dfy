/** Inodes as they lie on the disk: struct dinode, eight to a block, as iupdate stores its fields
    and ilock loads them. */
module Dinode {
  import opened Common
  import opened FsImage
  import opened Fs

  const DINODE: nat := 64

  /** A little-endian `short`, which is signed. */
  function Short(v: int): seq<byte> {
    [(v % 256) as byte, (v / 256 % 256) as byte]
  }

  function ShortAt(s: seq<byte>, o: nat): int
    requires o + 2 <= |s|
  {
    var u := s[o] as int + 256 * s[o + 1] as int;
    if u < 32768 then u else u - 65536
  }

  /** A little-endian `uint`. */
  function Uint(v: int): seq<byte> {
    [(v % 256) as byte, (v / 256 % 256) as byte, (v / 65536 % 256) as byte, (v / 16777216 % 256) as byte]
  }

  function UintAt(s: seq<byte>, o: nat): int
    requires o + 4 <= |s|
  {
    s[o] as int + 256 * s[o + 1] as int + 65536 * s[o + 2] as int + 16777216 * s[o + 3] as int
  }

  function Uints(vs: seq<int>): (s: seq<byte>)
    ensures |s| == 4 * |vs|
  {
    if vs == [] then [] else Uints(vs[..|vs| - 1]) + Uint(vs[|vs| - 1])
  }

  predicate IsShort(v: int) { -32768 <= v < 32768 }

  predicate IsUint(v: int) { 0 <= v < UINT }

  /** The fields have the ranges of their C types. */
  predicate Typed(ino: Inode) {
    && IsShort(ino.typ) && IsShort(ino.major) && IsShort(ino.minor) && IsShort(ino.nlink) && IsUint(ino.size)
    && |ino.addrs| == NDIRECT + 1 && forall k :: 0 <= k <= NDIRECT ==> IsUint(ino.addrs[k])
  }

  /** The bytes iupdate stores, field after field. */
  function Bytes(ino: Inode): (s: seq<byte>)
    requires |ino.addrs| == NDIRECT + 1
    ensures |s| == DINODE
  {
    Short(ino.typ) + Short(ino.major) + Short(ino.minor) + Short(ino.nlink) + Uint(ino.size) + Uints(ino.addrs)
  }

  /** The fields ilock loads, from byte `o` on. */
  function InodeAt(s: seq<byte>, o: nat): Inode
    requires o + DINODE <= |s|
  {
    var size := UintAt(s, o + 8);
    Inode(ShortAt(s, o), ShortAt(s, o + 2), ShortAt(s, o + 4), ShortAt(s, o + 6), size,
          seq(NDIRECT + 1, k requires 0 <= k <= NDIRECT => UintAt(s, o + 12 + 4 * k)))
  }

  lemma ShortBack(v: int, s: seq<byte>, o: nat)
    requires IsShort(v) && o + 2 <= |s| && s[o..o + 2] == Short(v)
    ensures ShortAt(s, o) == v
  {
    assert s[o] == s[o..o + 2][0] && s[o + 1] == s[o..o + 2][1];
  }

  lemma UintBack(v: int, s: seq<byte>, o: nat)
    requires IsUint(v) && o + 4 <= |s| && s[o..o + 4] == Uint(v)
    ensures UintAt(s, o) == v
  {
    FourBytes(v);
    assert s[o] == s[o..o + 4][0] && s[o + 1] == s[o..o + 4][1] && s[o + 2] == s[o..o + 4][2] &&
           s[o + 3] == s[o..o + 4][3];
  }

  lemma {:induction false} UintsAt(vs: seq<int>, k: nat)
    requires k < |vs|
    ensures Uints(vs)[4 * k..4 * k + 4] == Uint(vs[k])
  {
    var n := |vs| - 1;
    if k < n {
      UintsAt(vs[..n], k);
      assert Uints(vs)[4 * k..4 * k + 4] == Uints(vs[..n])[4 * k..4 * k + 4];
    }
  }

  /** What iupdate stores, ilock loads. */
  lemma BytesBack(ino: Inode, s: seq<byte>, o: nat)
    requires Typed(ino) && o + DINODE <= |s| && s[o..o + DINODE] == Bytes(ino)
    ensures InodeAt(s, o) == ino
  {
    hide Short, Uint, Uints, ShortAt, UintAt;
    var all := Bytes(ino);
    FieldAt(s, o, all, 0, 2); FieldAt(s, o, all, 2, 2); FieldAt(s, o, all, 4, 2); FieldAt(s, o, all, 6, 2);
    FieldAt(s, o, all, 8, 4);
    Fields(ino);
    ShortBack(ino.typ, s, o);
    ShortBack(ino.major, s, o + 2);
    ShortBack(ino.minor, s, o + 4);
    ShortBack(ino.nlink, s, o + 6);
    UintBack(ino.size, s, o + 8);
    forall k | 0 <= k <= NDIRECT ensures UintAt(s, o + 12 + 4 * k) == ino.addrs[k] {
      FieldAt(s, o, all, 12 + 4 * k, 4);
      AddrField(ino, k);
      UintBack(ino.addrs[k], s, o + 12 + 4 * k);
    }
  }

  lemma FieldAt(s: seq<byte>, o: nat, all: seq<byte>, a: nat, n: nat)
    requires o + |all| <= |s| && s[o..o + |all|] == all && a + n <= |all|
    ensures s[o + a..o + a + n] == all[a..a + n]
  {
    var x, y := s[o + a..o + a + n], all[a..a + n];
    forall q | 0 <= q < n ensures x[q] == y[q] {
      assert s[o..o + |all|][a + q] == s[o + a + q];
    }
  }

  lemma Fields(ino: Inode)
    requires |ino.addrs| == NDIRECT + 1
    ensures var all := Bytes(ino);
            && all[0..2] == Short(ino.typ) && all[2..4] == Short(ino.major) && all[4..6] == Short(ino.minor)
            && all[6..8] == Short(ino.nlink) && all[8..12] == Uint(ino.size)
  {
  }

  lemma AddrField(ino: Inode, k: nat)
    requires |ino.addrs| == NDIRECT + 1 && k <= NDIRECT
    ensures Bytes(ino)[12 + 4 * k..12 + 4 * k + 4] == Uint(ino.addrs[k])
  {
    UintsAt(ino.addrs, k);
    assert Bytes(ino)[12..] == Uints(ino.addrs);
  }

  // ----- A block of inodes -----

  /** Where inode `i` starts in its block. */
  function Offset(i: nat): (o: nat)
    ensures o + DINODE <= BSIZE
  {
    i % IPB * DINODE
  }

  /** iupdate on the block that holds inode `i`. */
  function Stores(x: Block, i: nat, ino: Inode): Block
    requires |ino.addrs| == NDIRECT + 1
  {
    Overlay(x, Offset(i), Bytes(ino))
  }

  /** ilock on the block that holds inode `i`. */
  function Loads(x: Block, i: nat): Inode {
    InodeAt(x, Offset(i))
  }

  /** iupdate of inode `i` is undone by ilock, and leaves the other inodes of the block alone. */
  lemma StoresLoads(x: Block, i: nat, ino: Inode, j: nat)
    requires Typed(ino)
    ensures Loads(Stores(x, i, ino), j) == if j % IPB == i % IPB then ino else Loads(x, j)
  {
    hide Bytes, ShortAt, UintAt;
    var y, o := Stores(x, i, ino), Offset(j);
    if j % IPB == i % IPB {
      assert y[o..o + DINODE] == Bytes(ino);
      BytesBack(ino, y, o);
    } else {
      SameBytes(x, y, o);
    }
  }

  lemma SameBytes(x: Block, y: Block, o: nat)
    requires o + DINODE <= BSIZE && forall q :: o <= q < o + DINODE ==> y[q] == x[q]
    ensures InodeAt(y, o) == InodeAt(x, o)
  {
    forall k | 0 <= k <= NDIRECT ensures UintAt(y, o + 12 + 4 * k) == UintAt(x, o + 12 + 4 * k) {}
  }
}
