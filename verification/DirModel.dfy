/** Directory files as finite maps from names to inode numbers. */
module DirModel {
  import opened Common
  import opened Fs

  const DIRSIZ: nat := 14
  const DIRENT: nat := 16                // sizeof(struct dirent)
  const USHORT: nat := 0x1_0000

  /** A file name as far as the file system tells names apart. */
  type Name = seq<byte>

  /** The character at `i` of a NUL-terminated string. */
  function CharAt(s: seq<byte>, i: nat): byte { if i < |s| then s[i] else 0 }

  /** The name a string stands for: what precedes the first NUL, cut to DIRSIZ bytes. */
  function Key(s: seq<byte>): (k: Name)
    ensures |k| <= DIRSIZ && forall i :: 0 <= i < |k| ==> k[i] == CharAt(s, i) && k[i] != 0
    ensures |k| < DIRSIZ ==> CharAt(s, |k|) == 0
  {
    KeyFrom(s, 0)
  }

  function KeyFrom(s: seq<byte>, i: nat): (k: Name)
    requires i <= DIRSIZ
    ensures |k| <= DIRSIZ - i && forall j :: 0 <= j < |k| ==> k[j] == CharAt(s, i + j) && k[j] != 0
    ensures |k| < DIRSIZ - i ==> CharAt(s, i + |k|) == 0
    decreases DIRSIZ - i
  {
    if i == DIRSIZ || CharAt(s, i) == 0 then [] else [CharAt(s, i)] + KeyFrom(s, i + 1)
  }

  /** Agreement up to DIRSIZ characters or a common NUL is equality of names. */
  lemma SameKey(s: seq<byte>, t: seq<byte>, n: nat)
    requires n <= DIRSIZ && forall i :: 0 <= i < n ==> CharAt(s, i) == CharAt(t, i) && CharAt(s, i) != 0
    requires n < DIRSIZ ==> CharAt(s, n) == 0 || CharAt(s, n) != CharAt(t, n)
    ensures Key(s) == Key(t) <==> n == DIRSIZ || CharAt(s, n) == CharAt(t, n)
  {
    hide KeyFrom;
    LongKey(s, n);
    LongKey(t, n);
    var k, l := Key(s), Key(t);
    if n == DIRSIZ || CharAt(s, n) == CharAt(t, n) {
      assert |k| == |l| == n;
      assert k == l;
    } else if |k| == |l| {
      assert |k| > n && k[n] == CharAt(s, n) && l[n] == CharAt(t, n);
    }
  }

  lemma LongKey(s: seq<byte>, n: nat)
    requires n <= DIRSIZ && forall i :: 0 <= i < n ==> CharAt(s, i) != 0
    ensures |Key(s)| >= n
  {
    var k := Key(s);
    assert |k| < DIRSIZ ==> CharAt(s, |k|) == 0;
  }

  lemma KeyStops(s: seq<byte>, n: nat)
    requires n < DIRSIZ && CharAt(s, n) == 0
    ensures |Key(s)| <= n
  {
    var k := Key(s);
    assert forall i: nat :: i < |k| ==> k[i] == CharAt(s, i);
  }

  // ----- Entries -----

  datatype Dirent = Dirent(inum: nat, name: Name)

  function DirentOf(e: seq<byte>): Dirent
    requires |e| == DIRENT
  {
    Dirent(e[0] as nat + 256 * (e[1] as nat), Key(e[2..]))
  }

  function Count(c: seq<byte>): nat { |c| / DIRENT }

  /** The bytes of the `i`-th entry of a directory file. */
  function EntryBytes(c: seq<byte>, i: nat): (e: seq<byte>)
    requires i < Count(c)
    ensures |e| == DIRENT
  {
    c[i * DIRENT..i * DIRENT + DIRENT]
  }

  function Dirents(c: seq<byte>): (es: seq<Dirent>)
    ensures |es| == Count(c) && forall i :: 0 <= i < |es| ==> es[i] == DirentOf(EntryBytes(c, i))
  {
    seq(Count(c), i requires 0 <= i < Count(c) => DirentOf(EntryBytes(c, i)))
  }

  predicate Names(e: Dirent, k: Name) { e.inum != 0 && e.name == k }

  /** The map that entries hold; the first of two entries for a name counts. */
  function MapOf(es: seq<Dirent>): map<Name, nat> {
    if es == [] then map[]
    else
      var m, e := MapOf(es[..|es| - 1]), es[|es| - 1];
      if e.inum != 0 && e.name !in m then m[e.name := e.inum] else m
  }

  function DirMap(c: seq<byte>): map<Name, nat> { MapOf(Dirents(c)) }

  /** Live entries have different names. */
  ghost predicate NoTwins(es: seq<Dirent>) {
    forall i, j :: 0 <= i < j < |es| && es[i].inum != 0 && es[j].inum != 0 ==> es[i].name != es[j].name
  }

  lemma {:induction false} NotNamed(es: seq<Dirent>, k: Name)
    ensures k !in MapOf(es) <==> forall i :: 0 <= i < |es| ==> !Names(es[i], k)
  {
    if es != [] {
      NotNamed(es[..|es| - 1], k);
    }
  }

  /** The first entry that has the name is the one the map holds. */
  lemma {:induction false} FirstNamed(es: seq<Dirent>, i: nat, k: Name)
    requires i < |es| && Names(es[i], k) && forall j :: 0 <= j < i ==> !Names(es[j], k)
    ensures k in MapOf(es) && MapOf(es)[k] == es[i].inum
  {
    var n := |es| - 1;
    if i < n {
      FirstNamed(es[..n], i, k);
    } else {
      NotNamed(es[..n], k);
    }
  }

  // ----- Writing an entry -----

  /** An entry replaces a free one, or goes to the end. */
  function Placed(es: seq<Dirent>, i: nat, e: Dirent): seq<Dirent>
    requires i <= |es|
  {
    if i < |es| then es[i := e] else es + [e]
  }

  function With(m: map<Name, nat>, e: Dirent): map<Name, nat> {
    if e.inum != 0 then m[e.name := e.inum] else m
  }

  /** A name that was not there is added, unless the stored inode number is zero. */
  lemma {:induction false} PlacedMap(es: seq<Dirent>, i: nat, e: Dirent)
    requires i <= |es| && (i < |es| ==> es[i].inum == 0) && e.name !in MapOf(es)
    ensures MapOf(Placed(es, i, e)) == With(MapOf(es), e)
  {
    var n, ds := |es| - 1, Placed(es, i, e);
    if i == |es| {
      assert ds[..|es|] == es;
    } else {
      NotNamed(es, e.name);
      NotNamed(es[..n], e.name);
      if i == n {
        assert ds[..n] == es[..n];
      } else {
        PlacedMap(es[..n], i, e);
        assert ds[..n] == Placed(es[..n], i, e);
        assert !Names(es[n], e.name);
      }
    }
  }

  lemma PlacedNoTwins(es: seq<Dirent>, i: nat, e: Dirent)
    requires i <= |es| && NoTwins(es) && e.name !in MapOf(es)
    ensures NoTwins(Placed(es, i, e))
  {
    NotNamed(es, e.name);
  }

  /** The name as dirlink stores it. */
  function Padded(s: seq<byte>): (p: seq<byte>)
    ensures |p| == DIRSIZ && Key(p) == Key(s)
  {
    var k := Key(s);
    var p := k + seq(DIRSIZ - |k|, _ => 0);
    PaddedKey(k, p);
    p
  }

  lemma PaddedKey(k: Name, p: seq<byte>)
    requires |k| <= DIRSIZ && (forall i :: 0 <= i < |k| ==> k[i] != 0) && p == k + seq(DIRSIZ - |k|, _ => 0)
    ensures Key(p) == k
  {
    var l := Key(p);
    assert forall i :: 0 <= i < |k| ==> CharAt(p, i) == k[i];
    assert |k| < DIRSIZ ==> CharAt(p, |k|) == 0;
    assert l == k;
  }

  /** The bytes that dirlink writes: a 16-bit inode number and the name. */
  function MakeEntry(s: seq<byte>, inum: nat): (e: seq<byte>)
    ensures |e| == DIRENT && DirentOf(e) == Dirent(inum % USHORT, Key(s))
  {
    hide Key;
    var e := [(inum % 256) as byte, (inum / 256 % 256) as byte] + Padded(s);
    assert e[2..] == Padded(s);
    TwoBytes(inum);
    e
  }

  lemma TwoBytes(n: nat)
    ensures n % 256 + 256 * (n / 256 % 256) == n % USHORT
  {
    var q := n / 256;
    var h := q / 256;
    var low := n % 256 + 256 * (q % 256);
    assert n == USHORT * h + low && 0 <= low < USHORT;
    Remainder(n, h, low);
  }

  lemma Remainder(n: nat, h: nat, low: nat)
    requires n == USHORT * h + low && low < USHORT
    ensures n % USHORT == low
  {
  }

  lemma SpliceEntry(c: seq<byte>, i: nat, e: seq<byte>)
    requires |c| % DIRENT == 0 && i <= Count(c) && |e| == DIRENT
    ensures i * DIRENT <= |c| && |Splice(c, i * DIRENT, e)| % DIRENT == 0
    ensures Dirents(Splice(c, i * DIRENT, e)) == Placed(Dirents(c), i, DirentOf(e))
  {
    hide DirentOf;
    var d := Splice(c, i * DIRENT, e);
    assert |c| == Count(c) * DIRENT;
    assert |d| == (if i < Count(c) then Count(c) else i + 1) * DIRENT;
    assert EntryBytes(d, i) == e;
    forall j: nat | j < Count(c) && j != i ensures EntryBytes(d, j) == EntryBytes(c, j) {
      SpliceOther(c, i, e, j);
    }
  }

  lemma SpliceOther(c: seq<byte>, i: nat, e: seq<byte>, j: nat)
    requires |c| % DIRENT == 0 && i <= Count(c) && |e| == DIRENT && j < Count(c) && j != i && i * DIRENT <= |c|
    ensures j < Count(Splice(c, i * DIRENT, e)) && EntryBytes(Splice(c, i * DIRENT, e), j) == EntryBytes(c, j)
  {
    var p, o := j * DIRENT, i * DIRENT;
    assert j < i ==> p + DIRENT <= o;
    assert j > i ==> p >= o + DIRENT;
    assert p + DIRENT <= |c|;
    SpliceKeeps(c, o, e, p);
  }

  lemma SpliceKeeps(c: seq<byte>, o: nat, e: seq<byte>, p: nat)
    requires o <= |c| && |e| == DIRENT && p + DIRENT <= |c| && (p + DIRENT <= o || o + DIRENT <= p)
    ensures |c| <= |Splice(c, o, e)| && Splice(c, o, e)[p..p + DIRENT] == c[p..p + DIRENT]
  {
    var d := Splice(c, o, e);
    assert d[p..p + DIRENT] == c[p..p + DIRENT];
  }
}
