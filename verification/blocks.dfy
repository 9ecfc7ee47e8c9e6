/**
 A sequence written as consecutive blocks: the shape of a CSV body in which
 every report contributes a block of rows. The lemmas locate each element of
 the flattened sequence in its block.
 */
module Blocks {

  /** The blocks laid end to end. */
  function Flatten<T>(bs: seq<seq<T>>): (r: seq<T>)
    ensures |r| == TotalLength(bs)
  {
    if |bs| == 0 then [] else bs[0] + Flatten(bs[1..])
  }

  /** Sum of the block lengths. */
  function TotalLength<T>(bs: seq<seq<T>>): nat {
    if |bs| == 0 then 0 else |bs[0]| + TotalLength(bs[1..])
  }

  /** Position in `Flatten(bs)` where block `i` begins. */
  function Start<T>(bs: seq<seq<T>>, i: nat): nat
    requires i <= |bs|
  {
    if i == 0 then 0 else |bs[0]| + Start(bs[1..], i - 1)
  }

  /** Flattening distributes over concatenation of block sequences. */
  lemma {:induction false} FlattenAppend<T>(a: seq<seq<T>>, b: seq<seq<T>>)
    ensures Flatten(a + b) == Flatten(a) + Flatten(b)
  {
    if |a| > 0 {
      calc {
        Flatten(a + b);
        { assert (a + b)[0] == a[0] && (a + b)[1..] == a[1..] + b; }
        a[0] + Flatten(a[1..] + b);
        { FlattenAppend(a[1..], b); }
        a[0] + (Flatten(a[1..]) + Flatten(b));
        (a[0] + Flatten(a[1..])) + Flatten(b);
      }
    } else {
      assert a + b == b;
    }
  }

  /** Flattening one more block of a prefix appends that block. */
  lemma FlattenPrefixStep<T>(bs: seq<seq<T>>, i: nat)
    requires i < |bs|
    ensures Flatten(bs[..i + 1]) == Flatten(bs[..i]) + bs[i]
  {
    assert bs[..i + 1] == bs[..i] + [bs[i]];
    FlattenAppend(bs[..i], [bs[i]]);
    assert Flatten([bs[i]]) == bs[i] + Flatten([]);
  }

  /** When every element of every block has length `w`, so has every element of the flattening. */
  lemma {:induction false} FlattenUniformLength<T>(bs: seq<seq<seq<T>>>, w: nat)
    requires forall i, k :: 0 <= i < |bs| && 0 <= k < |bs[i]| ==> |bs[i][k]| == w
    ensures forall p :: 0 <= p < |Flatten(bs)| ==> |Flatten(bs)[p]| == w
  {
    if |bs| > 0 {
      assert forall i :: 0 <= i < |bs[1..]| ==> bs[1..][i] == bs[i + 1];
      FlattenUniformLength(bs[1..], w);
      assert forall k :: 0 <= k < |bs[0]| ==> |bs[0][k]| == w;
    }
  }

  /** Blocks do not overlap: block `i` ends no later than block `j` begins when `i < j`. */
  lemma {:induction false} StartMonotone<T>(bs: seq<seq<T>>, i: nat, j: nat)
    requires i < j <= |bs|
    ensures Start(bs, i) + |bs[i]| <= Start(bs, j)
  {
    if i > 0 {
      StartMonotone(bs[1..], i - 1, j - 1);
    } else if j > 1 {
      StartMonotone(bs[1..], 0, j - 1);
    }
  }

  /** The last block ends exactly at the end of the flattened sequence. */
  lemma {:induction false} StartOfEnd<T>(bs: seq<seq<T>>)
    ensures Start(bs, |bs|) == TotalLength(bs)
  {
    if |bs| > 0 {
      StartOfEnd(bs[1..]);
    }
  }

  /** Element `k` of block `i` sits at position `Start(bs, i) + k`. */
  lemma {:induction false} FlattenLayout<T>(bs: seq<seq<T>>, i: nat, k: nat)
    requires i < |bs| && k < |bs[i]|
    ensures Start(bs, i) + k < |Flatten(bs)|
    ensures Flatten(bs)[Start(bs, i) + k] == bs[i][k]
  {
    var f := Flatten(bs);
    assert f == bs[0] + Flatten(bs[1..]);
    if i > 0 {
      FlattenLayout(bs[1..], i - 1, k);
      assert bs[1..][i - 1] == bs[i];
      assert Start(bs, i) + k == |bs[0]| + (Start(bs[1..], i - 1) + k);
    }
  }

  /** The block covering position `p` of the flattened sequence. */
  function BlockOf<T>(bs: seq<seq<T>>, p: nat): (i: nat)
    requires p < TotalLength(bs)
    ensures i < |bs|
    ensures Start(bs, i) <= p < Start(bs, i) + |bs[i]|
  {
    if p < |bs[0]| then 0 else 1 + BlockOf(bs[1..], p - |bs[0]|)
  }

  /** Every element of the flattened sequence is the element of its covering block. */
  lemma Locate<T>(bs: seq<seq<T>>, p: nat)
    requires p < TotalLength(bs)
    ensures Flatten(bs)[p] == bs[BlockOf(bs, p)][p - Start(bs, BlockOf(bs, p))]
  {
    var i := BlockOf(bs, p);
    FlattenLayout(bs, i, p - Start(bs, i));
  }
}
