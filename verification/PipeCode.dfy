/** What pipewrite and piperead do to the buffer while they hold the pipe's lock. */
module PipeCode {
  import opened PipeRing

  class Pipe {
    const data: array<char>
    var nread: nat
    var nwrite: nat

    ghost function State(): Ring
      reads this, data
    {
      Ring(data[..], nread, nwrite)
    }

    ghost predicate Valid()
      reads this, data
    {
      Ok(State())
    }

    constructor ()
      ensures Valid() && Contents(State()) == [] && fresh(data)
    {
      data := new char[PIPESIZE];
      nread := 0;
      nwrite := 0;
    }

    /** pipewrite's loop from byte `start` on: bytes go in at the end until all are in or the buffer is full. */
    method WriteSome(addr: seq<char>, start: nat) returns (i: nat)
      requires Valid() && start <= |addr|
      modifies this`nwrite, data
      ensures Valid() && start <= i <= |addr| && (i < |addr| ==> Full(State()))
      ensures Contents(State()) == old(Contents(State())) + addr[start..i]
      ensures State() == PutAll(old(State()), addr[start..i])
    {
      hide Contents, ByteAt, PutAll;
      i := start;
      assert State() == PutAll(State(), []) by { PutNothing(State()); }
      assert addr[start..i] == [];
      while i < |addr| && nwrite != (nread + PIPESIZE) % WRAP
        invariant Valid() && start <= i <= |addr|
        invariant Contents(State()) == old(Contents(State())) + addr[start..i]
        invariant State() == PutAll(old(State()), addr[start..i])
      {
        PutContents(State(), addr[i]);
        ghost var r := Put(State(), addr[i]);
        data[nwrite % PIPESIZE] := addr[i];
        nwrite := (nwrite + 1) % WRAP;
        assert State() == r;
        assert addr[start..i + 1] == addr[start..i] + [addr[i]];
        PutAllMore(old(State()), addr[start..i], addr[i]);
        i := i + 1;
      }
    }

    /** piperead's copying loop: up to `n` bytes come out at the front. */
    method ReadSome(n: nat) returns (got: seq<char>)
      requires Valid()
      modifies this`nread
      ensures Valid() && |got| <= n && (|got| < n ==> Empty(State()))
      ensures old(Contents(State())) == got + Contents(State()) && State() == GetMany(old(State()), |got|)
    {
      hide Contents, ByteAt;
      got := [];
      for i := 0 to n
        invariant Valid() && |got| == i && old(Contents(State())) == got + Contents(State())
        invariant State() == GetMany(old(State()), i)
      {
        if nread == nwrite {
          break;
        }
        GetContents(State());
        ghost var r := Get(State());
        assert got + ([Oldest(State())] + Contents(r)) == (got + [Oldest(State())]) + Contents(r);
        got := got + [data[nread % PIPESIZE]];
        nread := (nread + 1) % WRAP;
        assert State() == r;
      }
    }
  }
}
