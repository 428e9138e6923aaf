/** Value-level view of the model's shared vector of controls.

    Every actuator owns a contiguous block of slots in one vector of reals:
    the block starts at the actuator's control index and is as long as the
    actuator's number of controls. This module describes, as functions on
    sequences, what reading, overwriting, accumulating into and reserving
    such a block does to the whole vector, and proves how these operations
    interact. The classes in module Actuators are specified by these
    functions. */
module ControlSlots {

  /** Slot k lies in the block of length n that starts at start. */
  predicate InBlock(k: int, start: int, n: int) {
    start <= k < start + n
  }

  /** Two blocks share no slot. */
  predicate Disjoint(start1: int, n1: int, start2: int, n2: int) {
    start1 + n1 <= start2 || start2 + n2 <= start1
  }

  /** A vector of n zeros, as built by SimTK's Vector(n, 0.0). */
  function Zeros(n: nat): (r: seq<real>)
    ensures |r| == n
    ensures forall k :: 0 <= k < n ==> r[k] == 0.0
  {
    if n == 0 then [] else Zeros(n - 1) + [0.0]
  }

  /** Element-wise sum of two vectors of the same size (SimTK's `+=`). */
  function Plus(a: seq<real>, b: seq<real>): (r: seq<real>)
    requires |a| == |b|
    ensures |r| == |a|
    ensures forall k :: 0 <= k < |r| ==> r[k] == a[k] + b[k]
  {
    if a == [] then [] else [a[0] + b[0]] + Plus(a[1..], b[1..])
  }

  /** The vector v after assigning c to the block of |c| slots starting at
      start (SimTK's `v(start, |c|) = c`). */
  function Overwrite(v: seq<real>, start: nat, c: seq<real>): (r: seq<real>)
    requires start + |c| <= |v|
    ensures |r| == |v|
    ensures forall k :: 0 <= k < |v| && InBlock(k, start, |c|) ==> r[k] == c[k - start]
    ensures forall k :: 0 <= k < |v| && !InBlock(k, start, |c|) ==> r[k] == v[k]
  {
    v[..start] + c + v[start + |c|..]
  }

  /** The vector v after adding c, element by element, into the block of
      |c| slots starting at start (SimTK's `v(start, |c|) += c`). */
  function AddIn(v: seq<real>, start: nat, c: seq<real>): (r: seq<real>)
    requires start + |c| <= |v|
    ensures |r| == |v|
    ensures forall k :: 0 <= k < |v| && InBlock(k, start, |c|) ==> r[k] == v[k] + c[k - start]
    ensures forall k :: 0 <= k < |v| && !InBlock(k, start, |c|) ==> r[k] == v[k]
  {
    var block := v[start..start + |c|];
    assert forall k :: 0 <= k < |v| && InBlock(k, start, |c|) ==> block[k - start] == v[k];
    Overwrite(v, start, Plus(block, c))
  }

  /** Two vectors of the same length that agree everywhere are equal. */
  lemma SameAt(a: seq<real>, b: seq<real>)
    requires |a| == |b|
    requires forall k :: 0 <= k < |a| ==> a[k] == b[k]
    ensures a == b
  {
  }

  /** Reserving a block: after growing v by n slots of any content and
      zero-filling the new block, v is its old self followed by n zeros. */
  lemma ReserveZeroFilled(v: seq<real>, fill: seq<real>)
    ensures Overwrite(v + fill, |v|, Zeros(|fill|)) == v + Zeros(|fill|)
  {
  }

  /** Writing a block and reading it back gives what was written. */
  lemma OverwriteThenRead(v: seq<real>, start: nat, c: seq<real>)
    requires start + |c| <= |v|
    ensures Overwrite(v, start, c)[start..start + |c|] == c
  {
  }

  /** Writing one block leaves every disjoint block as it was. */
  lemma OverwriteKeepsOtherBlock(v: seq<real>, start: nat, c: seq<real>, other: nat, n: nat)
    requires start + |c| <= |v| && other + n <= |v|
    requires Disjoint(start, |c|, other, n)
    ensures Overwrite(v, start, c)[other..other + n] == v[other..other + n]
  {
  }

  /** Adding into one block leaves every disjoint block as it was. */
  lemma AddInKeepsOtherBlock(v: seq<real>, start: nat, c: seq<real>, other: nat, n: nat)
    requires start + |c| <= |v| && other + n <= |v|
    requires Disjoint(start, |c|, other, n)
    ensures AddIn(v, start, c)[other..other + n] == v[other..other + n]
  {
  }

  /** The last write to a block wins. */
  lemma OverwriteTwice(v: seq<real>, start: nat, a: seq<real>, b: seq<real>)
    requires start + |a| <= |v| && |a| == |b|
    ensures Overwrite(Overwrite(v, start, a), start, b) == Overwrite(v, start, b)
  {
  }

  /** Writing a block's own content back changes nothing. */
  lemma OverwriteWithOwnBlock(v: seq<real>, start: nat, n: nat)
    requires start + n <= |v|
    ensures Overwrite(v, start, v[start..start + n]) == v
  {
  }

  /** After adding c into a block, the block reads as its old content plus c. */
  lemma AddInThenRead(v: seq<real>, start: nat, c: seq<real>)
    requires start + |c| <= |v|
    ensures AddIn(v, start, c)[start..start + |c|] == Plus(v[start..start + |c|], c)
  {
  }

  /** Adding a zero vector into a block changes nothing. */
  lemma AddInZeros(v: seq<real>, start: nat, n: nat)
    requires start + n <= |v|
    ensures AddIn(v, start, Zeros(n)) == v
  {
  }

  /** Two contributions added one after the other into the same block are
      the same as their sum added once: accumulation does not depend on how
      the contributions are grouped. */
  lemma AddInTwice(v: seq<real>, start: nat, a: seq<real>, b: seq<real>)
    requires start + |a| <= |v| && |a| == |b|
    ensures AddIn(AddIn(v, start, a), start, b) == AddIn(v, start, Plus(a, b))
  {
    var mid := AddIn(v, start, a);
    var ab := Plus(a, b);
    var r1 := AddIn(mid, start, b);
    var r2 := AddIn(v, start, ab);
    forall k | 0 <= k < |v|
      ensures r1[k] == r2[k]
    {
      if InBlock(k, start, |a|) {
        assert ab[k - start] == a[k - start] + b[k - start];
      }
    }
    SameAt(r1, r2);
  }

  /** Adding into a block that holds only zeros is the same as writing it. */
  lemma AddInIntoZeroBlock(w: seq<real>, start: nat, c: seq<real>)
    requires start + |c| <= |w|
    requires forall k :: 0 <= k < |w| && InBlock(k, start, |c|) ==> w[k] == 0.0
    ensures AddIn(w, start, c) == Overwrite(w, start, c)
  {
  }

  /** Adding into a freshly zero-filled block is the same as writing it:
      an actuator that accumulates into a zeroed block of the controls
      ends up with exactly its own contribution there. */
  lemma AddInAfterZeroFill(v: seq<real>, start: nat, c: seq<real>)
    requires start + |c| <= |v|
    ensures AddIn(Overwrite(v, start, Zeros(|c|)), start, c) == Overwrite(v, start, c)
  {
    var zeros := Zeros(|c|);
    var z := Overwrite(v, start, zeros);
    forall k | 0 <= k < |z| && InBlock(k, start, |c|)
      ensures z[k] == 0.0
    {
      assert zeros[k - start] == 0.0;
    }
    AddInIntoZeroBlock(z, start, c);
    OverwriteTwice(v, start, zeros, c);
  }
}
