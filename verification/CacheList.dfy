/** The buffer cache's doubly linked list, as the order of its elements. */
module CacheList {

  /** The elements after the head, and the head first. */
  function Succ(ring: seq<nat>, i: nat): nat
    requires i < |ring|
  {
    if i + 1 < |ring| then ring[i + 1] else ring[0]
  }

  predicate LinkAt(next: seq<nat>, prev: seq<nat>, ring: seq<nat>, i: nat)
    requires i < |ring|
  {
    && ring[i] < |next| && Succ(ring, i) < |prev|
    && next[ring[i]] == Succ(ring, i) && prev[Succ(ring, i)] == ring[i]
  }

  ghost predicate NoRepeat(ring: seq<nat>) {
    forall i, j :: 0 <= i < j < |ring| ==> ring[i] != ring[j]
  }

  /** `next` runs through the ring and `prev` back. */
  ghost predicate Linked(next: seq<nat>, prev: seq<nat>, ring: seq<nat>) {
    0 < |ring| && |next| == |prev| && NoRepeat(ring) && forall i: nat :: i < |ring| ==> LinkAt(next, prev, ring, i)
  }

  // ----- Taking an element out -----

  function Without(ring: seq<nat>, k: nat): seq<nat>
    requires k < |ring|
  {
    ring[..k] + ring[k + 1..]
  }

  lemma Unlinked(next: seq<nat>, prev: seq<nat>, ring: seq<nat>, k: nat)
    requires Linked(next, prev, ring) && 0 < k < |ring|
    ensures ring[k] < |next| == |prev|
    ensures var b := ring[k];
            next[b] < |next| && prev[b] < |next| &&
            Linked(next[prev[b] := next[b]], prev[next[b] := prev[b]], Without(ring, k))
  {
    var b := ring[k];
    assert LinkAt(next, prev, ring, k) && LinkAt(next, prev, ring, k - 1);
    var next1, prev1, ring1 := next[prev[b] := next[b]], prev[next[b] := prev[b]], Without(ring, k);
    assert NoRepeat(ring1);
    forall i: nat | i < |ring1| ensures LinkAt(next1, prev1, ring1, i) {
      var j := if i < k then i else i + 1;
      assert LinkAt(next, prev, ring, j);
      assert ring1[i] == ring[j];
      assert i + 1 < |ring1| && i + 1 != k ==> Succ(ring1, i) == Succ(ring, j);
    }
  }

  // ----- Putting an element first -----

  function Pushed(ring: seq<nat>, b: nat): seq<nat>
    requires 0 < |ring|
  {
    [ring[0], b] + ring[1..]
  }

  function PushNext(next: seq<nat>, h: nat, b: nat): seq<nat>
    requires h < |next| && b < |next|
  {
    next[b := next[h]][h := b]
  }

  function PushPrev(next: seq<nat>, prev: seq<nat>, h: nat, b: nat): seq<nat>
    requires h < |next| && b < |prev| && next[h] < |prev|
  {
    prev[b := h][next[h] := b]
  }

  lemma PushLinked(next: seq<nat>, prev: seq<nat>, ring: seq<nat>, b: nat)
    requires Linked(next, prev, ring) && b < |next| && b !in ring
    ensures ring[0] < |next| && next[ring[0]] < |prev|
    ensures Linked(PushNext(next, ring[0], b), PushPrev(next, prev, ring[0], b), Pushed(ring, b))
  {
    assert LinkAt(next, prev, ring, 0);
    var h := ring[0];
    var next1, prev1, ring1 := PushNext(next, h, b), PushPrev(next, prev, h, b), Pushed(ring, b);
    PushNoRepeat(ring, b);
    forall i: nat | i < |ring1| ensures LinkAt(next1, prev1, ring1, i) {
      if i >= 2 {
        assert LinkAt(next, prev, ring, i - 1);
        assert ring1[i] == ring[i - 1];
      }
    }
  }

  lemma PushNoRepeat(ring: seq<nat>, b: nat)
    requires NoRepeat(ring) && 0 < |ring| && b !in ring
    ensures NoRepeat(Pushed(ring, b))
  {
    var r := Pushed(ring, b);
    assert forall i :: 2 <= i < |r| ==> r[i] == ring[i - 1];
  }
}
