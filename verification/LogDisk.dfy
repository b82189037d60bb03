/** The on-disk redo log: a header block naming home blocks, followed by their new
    contents, and the meaning of a disk image, which is what recovery makes of it. */
module LogDisk {
  import opened Common

  /** Words of `sizeof(int)` bytes in a block of BSIZE = 512 bytes. */
  const WORDS: nat := 128

  type Block = b: seq<int> | |b| == WORDS witness seq(WORDS, i => 0)
  type Disk = seq<Block>

  /** `log.start`, `log.size` and the number of blocks of the device. */
  datatype Layout = Layout(start: nat, size: nat, nblocks: nat)

  predicate WfLayout(c: Layout) {
    1 <= c.size && c.start + c.size <= c.nblocks
  }

  /** Blocks outside the log area. */
  predicate IsHome(c: Layout, b: int) {
    0 <= b < c.nblocks && !(c.start <= b < c.start + c.size)
  }

  // ----- The header block -----

  /** What `read_head` copies into memory. */
  function Entries(h: Block): seq<int> {
    if CountOk(h) then h[1..1 + h[0]] else []
  }

  /** What `write_head` leaves in the header block: entries past the count stay. */
  function PutEntries(h: Block, es: seq<int>): Block
    requires |es| <= LOGSIZE
  {
    [|es|] + es + h[1 + |es|..]
  }

  ghost predicate EntriesOk(c: Layout, es: seq<int>) {
    && |es| <= LOGSIZE && |es| < c.size
    && Distinct(es)
    && forall i :: 0 <= i < |es| ==> IsHome(c, es[i])
  }

  predicate CountOk(h: Block) {
    0 <= h[0] <= LOGSIZE
  }

  ghost predicate WfDisk(c: Layout, d: Disk) {
    && WfLayout(c)
    && |d| == c.nblocks
    && CountOk(d[c.start])
    && EntriesOk(c, Entries(d[c.start]))
  }

  /** Writing a header and reading it back loses nothing. */
  lemma HeaderRoundTrip(h: Block, es: seq<int>)
    requires |es| <= LOGSIZE
    ensures CountOk(PutEntries(h, es)) && Entries(PutEntries(h, es)) == es
  {
    assert PutEntries(h, es)[1..1 + |es|] == es;
  }

  // ----- The meaning of a disk image -----

  /** The content of home block `b` when the log holds new contents for blocks `es`. */
  ghost function LoggedBlock(c: Layout, d: Disk, es: seq<int>, b: int): Block
    requires WfDisk(c, d) && EntriesOk(c, es) && IsHome(c, b)
  {
    if b in es then d[c.start + 1 + IndexOf(es, b)] else d[b]
  }

  ghost function Logged(c: Layout, d: Disk, es: seq<int>): map<int, Block>
    requires WfDisk(c, d) && EntriesOk(c, es)
  {
    map b | 0 <= b < c.nblocks && IsHome(c, b) :: LoggedBlock(c, d, es, b)
  }

  /** What recovery makes of a disk: the log, as far as its header names blocks. */
  ghost function Durable(c: Layout, d: Disk): map<int, Block>
    requires WfDisk(c, d)
  {
    Logged(c, d, Entries(d[c.start]))
  }

  /** The home blocks as they stand on the disk. */
  ghost function HomeBlocks(c: Layout, d: Disk): map<int, Block>
    requires |d| == c.nblocks
  {
    map b | 0 <= b < c.nblocks && IsHome(c, b) :: d[b]
  }

  /** With an empty header the home blocks are the durable state. */
  lemma EmptyHeader(c: Layout, d: Disk)
    requires WfDisk(c, d) && Entries(d[c.start]) == []
    ensures Durable(c, d) == HomeBlocks(c, d)
  {
  }

  /** A write to a log block that the header does not name changes nothing durable. */
  lemma UnnamedLogWrite(c: Layout, d: Disk, i: nat, x: Block)
    requires WfDisk(c, d) && i + 1 < c.size
    requires |Entries(d[c.start])| <= i
    ensures WfDisk(c, d[c.start + 1 + i := x])
    ensures Durable(c, d[c.start + 1 + i := x]) == Durable(c, d)
  {
    var d', es := d[c.start + 1 + i := x], Entries(d[c.start]);
    forall b | IsHome(c, b) ensures LoggedBlock(c, d', es, b) == LoggedBlock(c, d, es, b) {}
  }

  /** Copying a named log block to its home changes nothing durable. */
  lemma HomeWrite(c: Layout, d: Disk, es: seq<int>, i: nat)
    requires WfDisk(c, d) && es == Entries(d[c.start]) && i < |es|
    ensures var d' := d[es[i] := d[c.start + 1 + i]];
            WfDisk(c, d') && Durable(c, d') == Durable(c, d)
  {
    var d' := d[es[i] := d[c.start + 1 + i]];
    forall b | IsHome(c, b) ensures LoggedBlock(c, d', es, b) == LoggedBlock(c, d, es, b) {}
  }

  /** Writing the header of a complete log makes the logged contents durable at once. */
  lemma HeaderWrite(c: Layout, d: Disk, h: Block, es: seq<int>)
    requires WfDisk(c, d) && EntriesOk(c, es) && CountOk(h) && Entries(h) == es
    ensures WfDisk(c, d[c.start := h])
    ensures Durable(c, d[c.start := h]) == Logged(c, d, es)
  {
    var d' := d[c.start := h];
    forall b | IsHome(c, b) ensures LoggedBlock(c, d', es, b) == LoggedBlock(c, d, es, b) {}
  }

  ghost predicate AtHome(c: Layout, d: Disk, es: seq<int>, i: int)
    requires WfDisk(c, d) && EntriesOk(c, es) && 0 <= i < |es|
  {
    d[es[i]] == d[c.start + 1 + i]
  }

  /** Clearing the header of a fully installed log changes nothing durable. */
  lemma HeaderErase(c: Layout, d: Disk, h: Block)
    requires WfDisk(c, d) && CountOk(h) && Entries(h) == []
    requires var es := Entries(d[c.start]);
             forall i :: 0 <= i < |es| ==> AtHome(c, d, es, i)
    ensures WfDisk(c, d[c.start := h])
    ensures Durable(c, d[c.start := h]) == Durable(c, d)
  {
    var d', es := d[c.start := h], Entries(d[c.start]);
    forall b | IsHome(c, b) ensures LoggedBlock(c, d', [], b) == LoggedBlock(c, d, es, b) {
      if b in es {
        assert AtHome(c, d, es, IndexOf(es, b));
      }
    }
  }
}
