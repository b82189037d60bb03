/** Shared constants, small datatypes and functions. */
module Common {

  const MAXOPBLOCKS: nat := 10
  const LOGSIZE: nat := 3 * MAXOPBLOCKS

  newtype byte = x: int | 0 <= x < 256

  datatype Option<+T> = None | Some(value: T)

  function Min(a: nat, b: nat): nat { if a < b then a else b }

  function Max(a: nat, b: nat): nat { if a < b then b else a }

  /** A position of `x` in `xs`. */
  ghost function IndexOf<T>(xs: seq<T>, x: T): (i: nat)
    requires x in xs
    ensures i < |xs| && xs[i] == x
  {
    var i :| 0 <= i < |xs| && xs[i] == x;
    i
  }

  /** No element occurs twice: the position of an element determines it. */
  ghost predicate Distinct<T>(xs: seq<T>) {
    forall i :: 0 <= i < |xs| ==> IndexOf(xs, xs[i]) == i
  }

  lemma DistinctAppend<T>(xs: seq<T>, x: T)
    requires Distinct(xs) && x !in xs
    ensures Distinct(xs + [x])
  {
    var ys := xs + [x];
    forall i | 0 <= i < |ys| ensures IndexOf(ys, ys[i]) == i {
      var k := IndexOf(ys, ys[i]);
      if i < |xs| && k < |xs| {
        assert IndexOf(xs, xs[i]) == i && IndexOf(xs, xs[k]) == k;
      }
    }
  }
}
