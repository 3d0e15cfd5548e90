/**
  Sequence helpers used by the zero-suppression model: stable selection by a
  boolean mask (the "push_back when the condition holds" loops of the source)
  and cutting a sequence into consecutive pieces at given positions.
*/
module Seqs {

  /** Every element is smaller than the next one. */
  predicate StrictlyIncreasing(s: seq<int>) {
    forall i, j :: 0 <= i < j < |s| ==> s[i] < s[j]
  }

  /** The elements of `xs` whose position is marked in `mask`, in their original order. */
  function Keep<T>(xs: seq<T>, mask: seq<bool>): (r: seq<T>)
    requires |xs| == |mask|
    ensures |r| <= |xs|
    decreases |xs|
  {
    if |xs| == 0 then []
    else Keep(xs[..|xs| - 1], mask[..|xs| - 1]) + (if mask[|xs| - 1] then [xs[|xs| - 1]] else [])
  }

  /** Appending an element above all others keeps a sequence strictly increasing. */
  lemma AppendAbove(s: seq<int>, x: int)
    requires StrictlyIncreasing(s)
    requires forall y :: y in s ==> y < x
    ensures StrictlyIncreasing(s + [x])
  {
    assert forall j :: 0 <= j < |s| ==> s[j] in s;
  }

  /** The marked positions of `mask`, in increasing order. */
  function TrueIndexes(mask: seq<bool>): (r: seq<int>)
    ensures StrictlyIncreasing(r)
    ensures forall i :: i in r <==> 0 <= i < |mask| && mask[i]
    decreases |mask|
  {
    if |mask| == 0 then []
    else
      var last := |mask| - 1;
      var front := TrueIndexes(mask[..last]);
      AppendAbove(front, last);
      if mask[last] then front + [last] else front
  }

  /** Extending the inputs by one element extends the selection by that element when it is marked. */
  lemma KeepSnoc<T>(xs: seq<T>, mask: seq<bool>, x: T, b: bool)
    requires |xs| == |mask|
    ensures Keep(xs + [x], mask + [b]) == Keep(xs, mask) + (if b then [x] else [])
  {
    assert (xs + [x])[..|xs|] == xs;
    assert (mask + [b])[..|mask|] == mask;
  }

  /**
    `Keep` is a stable selection: its k-th element is the element of `xs` at the
    k-th marked position, so it holds exactly the marked elements, in order.
  */
  lemma {:induction false} KeepIsStableSelection<T>(xs: seq<T>, mask: seq<bool>)
    requires |xs| == |mask|
    ensures |Keep(xs, mask)| == |TrueIndexes(mask)|
    ensures forall k :: 0 <= k < |Keep(xs, mask)| ==>
              0 <= TrueIndexes(mask)[k] < |xs| && Keep(xs, mask)[k] == xs[TrueIndexes(mask)[k]]
    decreases |xs|
  {
    if |xs| > 0 {
      var n := |xs| - 1;
      KeepIsStableSelection(xs[..n], mask[..n]);
      var idx := TrueIndexes(mask);
      assert idx == TrueIndexes(mask[..n]) + (if mask[n] then [n] else []);
      forall k | 0 <= k < |Keep(xs, mask)|
        ensures 0 <= idx[k] < |xs| && Keep(xs, mask)[k] == xs[idx[k]]
      {
        assert idx[k] in idx;
        if k < |Keep(xs[..n], mask[..n])| {
          assert TrueIndexes(mask[..n])[k] in TrueIndexes(mask[..n]);
        }
      }
    }
  }

  /** Two columns selected with the same mask stay aligned: they have the same length. */
  lemma KeepAligned<T, U>(xs: seq<T>, ys: seq<U>, mask: seq<bool>)
    requires |xs| == |mask| && |ys| == |mask|
    ensures |Keep(xs, mask)| == |Keep(ys, mask)|
  {
    KeepIsStableSelection(xs, mask);
    KeepIsStableSelection(ys, mask);
  }

  /** Nothing is kept exactly when no position is marked. */
  lemma KeepEmpty<T>(xs: seq<T>, mask: seq<bool>)
    requires |xs| == |mask|
    ensures Keep(xs, mask) == [] <==> forall i :: 0 <= i < |mask| ==> !mask[i]
  {
    KeepIsStableSelection(xs, mask);
    if Keep(xs, mask) != [] {
      assert TrueIndexes(mask)[0] in TrueIndexes(mask);
    } else {
      assert TrueIndexes(mask) == [];
    }
  }

  /** The concatenation of a sequence of sequences, in order. */
  function Flatten<T>(ss: seq<seq<T>>): seq<T>
    decreases |ss|
  {
    if |ss| == 0 then [] else Flatten(ss[..|ss| - 1]) + ss[|ss| - 1]
  }

  /** Cut positions: non-decreasing, inside `[0, n]`, at least one of them. */
  predicate CutsWithin(cuts: seq<int>, n: int) {
    && |cuts| >= 1
    && (forall i :: 0 <= i < |cuts| ==> 0 <= cuts[i] <= n)
    && (forall i, j :: 0 <= i < j < |cuts| ==> cuts[i] <= cuts[j])
  }

  /** The pieces `xs[cuts[i]..cuts[i+1]]`, one per pair of consecutive cuts. */
  function Pieces<T>(xs: seq<T>, cuts: seq<int>): (r: seq<seq<T>>)
    requires CutsWithin(cuts, |xs|)
    ensures |r| == |cuts| - 1
    ensures forall i :: 0 <= i < |r| ==> r[i] == xs[cuts[i]..cuts[i + 1]]
  {
    seq(|cuts| - 1, i requires 0 <= i < |cuts| - 1 => xs[cuts[i]..cuts[i + 1]])
  }

  /** Dropping the last cut drops the last piece. */
  lemma PiecesFront<T>(xs: seq<T>, cuts: seq<int>)
    requires CutsWithin(cuts, |xs|) && |cuts| > 1
    ensures CutsWithin(cuts[..|cuts| - 1], |xs|)
    ensures Pieces(xs, cuts)[..|cuts| - 2] == Pieces(xs, cuts[..|cuts| - 1])
  {
  }

  /** Concatenating the pieces gives back the part of `xs` between the first and the last cut. */
  lemma {:induction false} FlattenPieces<T>(xs: seq<T>, cuts: seq<int>)
    requires CutsWithin(cuts, |xs|)
    ensures Flatten(Pieces(xs, cuts)) == xs[cuts[0]..cuts[|cuts| - 1]]
    decreases |cuts|
  {
    var m := |cuts|;
    if m > 1 {
      var front := cuts[..m - 1];
      PiecesFront(xs, cuts);
      FlattenPieces(xs, front);
      var a, b, c := cuts[0], cuts[m - 2], cuts[m - 1];
      assert xs[a..b] + xs[b..c] == xs[a..c];
    }
  }

  /** Flattening distributes over concatenation. */
  lemma {:induction false} FlattenAppend<T>(a: seq<seq<T>>, b: seq<seq<T>>)
    ensures Flatten(a + b) == Flatten(a) + Flatten(b)
    decreases |b|
  {
    if |b| == 0 {
      assert a + b == a;
    } else {
      var front := b[..|b| - 1];
      assert (a + b)[..|a + b| - 1] == a + front;
      FlattenAppend(a, front);
    }
  }

  /** Block `j` appears whole in the flattening, right after the blocks before it. */
  lemma FlattenBlock<T>(ss: seq<seq<T>>, j: int)
    requires 0 <= j < |ss|
    ensures var off := |Flatten(ss[..j])|;
      off + |ss[j]| <= |Flatten(ss)| && Flatten(ss)[off..off + |ss[j]|] == ss[j]
  {
    assert ss == ss[..j] + [ss[j]] + ss[j + 1..];
    FlattenAppend(ss[..j] + [ss[j]], ss[j + 1..]);
    FlattenAppend(ss[..j], [ss[j]]);
    assert [ss[j]][..0] == [];
    assert Flatten([ss[j]]) == ss[j];
  }

  /** Element `i` of block `j` sits at position `|Flatten(ss[..j])| + i` of the flattening. */
  lemma FlattenBlockAt<T>(ss: seq<seq<T>>, j: int)
    requires 0 <= j < |ss|
    ensures |Flatten(ss[..j])| + |ss[j]| <= |Flatten(ss)|
    ensures forall i :: 0 <= i < |ss[j]| ==> Flatten(ss)[|Flatten(ss[..j])| + i] == ss[j][i]
  {
    FlattenBlock(ss, j);
    var off := |Flatten(ss[..j])|;
    forall i | 0 <= i < |ss[j]|
      ensures Flatten(ss)[off + i] == ss[j][i]
    {
      assert Flatten(ss)[off..off + |ss[j]|][i] == ss[j][i];
    }
  }
}
