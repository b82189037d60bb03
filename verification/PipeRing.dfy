/** The pipe's ring buffer, with 32-bit counters that only ever grow and wrap. */
module PipeRing {

  const PIPESIZE := 512
  const WRAP := 0x1_0000_0000

  datatype Ring = Ring(data: seq<char>, nread: nat, nwrite: nat)

  /** The number of buffered bytes, by the counters' own arithmetic. */
  function Occupancy(r: Ring): nat
    requires r.nread < WRAP
  {
    if r.nread <= r.nwrite then r.nwrite - r.nread else r.nwrite + WRAP - r.nread
  }

  predicate Ok(r: Ring) {
    |r.data| == PIPESIZE && r.nread < WRAP && r.nwrite < WRAP && Occupancy(r) <= PIPESIZE
  }

  predicate Full(r: Ring) { r.nwrite == (r.nread + PIPESIZE) % WRAP }
  predicate Empty(r: Ring) { r.nread == r.nwrite }

  /** The byte `k` places after the oldest. */
  function ByteAt(r: Ring, k: nat): char
    requires Ok(r)
  {
    r.data[(r.nread + k) % PIPESIZE]
  }

  /** The buffered bytes, oldest first. */
  function Contents(r: Ring): (s: seq<char>)
    requires Ok(r)
    ensures |s| == Occupancy(r) <= PIPESIZE
    ensures forall k :: 0 <= k < |s| ==> s[k] == ByteAt(r, k)
  {
    seq(Occupancy(r), k requires 0 <= k < Occupancy(r) => ByteAt(r, k))
  }

  function Put(r: Ring, b: char): (q: Ring)
    requires |r.data| == PIPESIZE
    ensures |q.data| == PIPESIZE
  {
    Ring(r.data[r.nwrite % PIPESIZE := b], r.nread, (r.nwrite + 1) % WRAP)
  }

  function Oldest(r: Ring): char
    requires |r.data| == PIPESIZE
  {
    r.data[r.nread % PIPESIZE]
  }

  function Get(r: Ring): Ring { r.(nread := (r.nread + 1) % WRAP) }

  // ----- What the counters mean -----

  lemma Cell(r: Ring, k: nat)
    requires Ok(r) && k <= Occupancy(r)
    ensures (r.nread + k) % PIPESIZE == r.nwrite % PIPESIZE <==>
              k == Occupancy(r) || (k == 0 && Occupancy(r) == PIPESIZE)
  {
  }

  lemma FullIs(r: Ring)
    requires Ok(r)
    ensures Full(r) <==> |Contents(r)| == PIPESIZE
    ensures Empty(r) <==> Contents(r) == []
  {
  }

  lemma PutContents(r: Ring, b: char)
    requires Ok(r) && !Full(r)
    ensures Ok(Put(r, b)) && Contents(Put(r, b)) == Contents(r) + [b]
  {
    var q := Put(r, b);
    assert Occupancy(q) == Occupancy(r) + 1;
    Cell(r, Occupancy(r));
    forall k: nat | k < Occupancy(r) ensures ByteAt(q, k) == ByteAt(r, k) {
      Cell(r, k);
    }
  }

  /** Wrapping at 2^32 does not disturb the place in the ring. */
  lemma NextCell(n: nat, k: nat)
    requires n < WRAP
    ensures ((n + 1) % WRAP + k) % PIPESIZE == (n + (k + 1)) % PIPESIZE
  {
    if n + 1 == WRAP {
      assert (WRAP + k) % PIPESIZE == k % PIPESIZE;
    }
  }

  lemma GetContents(r: Ring)
    requires Ok(r) && !Empty(r)
    ensures Ok(Get(r)) && Contents(r) == [Oldest(r)] + Contents(Get(r))
  {
    var q := Get(r);
    assert Occupancy(q) == Occupancy(r) - 1;
    forall k: nat | k < Occupancy(q) ensures ByteAt(q, k) == ByteAt(r, k + 1) {
      NextCell(r.nread, k);
    }
    assert ByteAt(r, 0) == Oldest(r);
    assert Contents(q) == Contents(r)[1..];
    assert Contents(r) == [Contents(r)[0]] + Contents(r)[1..];
  }

  // ----- Many bytes -----

  function PutAll(r: Ring, bytes: seq<char>): (q: Ring)
    requires |r.data| == PIPESIZE
    ensures |q.data| == PIPESIZE
    decreases |bytes|
  {
    if bytes == [] then r else Put(PutAll(r, bytes[..|bytes| - 1]), bytes[|bytes| - 1])
  }

  lemma PutNothing(r: Ring)
    requires |r.data| == PIPESIZE
    ensures PutAll(r, []) == r
  {
  }

  lemma PutAllMore(r: Ring, bytes: seq<char>, b: char)
    requires |r.data| == PIPESIZE
    ensures PutAll(r, bytes + [b]) == Put(PutAll(r, bytes), b)
  {
    assert (bytes + [b])[..|bytes|] == bytes;
  }

  function GetMany(r: Ring, n: nat): Ring {
    if n == 0 then r else Get(GetMany(r, n - 1))
  }
}
