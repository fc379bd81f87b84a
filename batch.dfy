/** Batched evaluation: every candidate tree is ticked and the action of the
    tree whose position equals the batch member's index is kept. */
module Batch {
  import opened Utils
  import opened BT

  /** The first argument bts_fn passes to tree i: STAND up to and including
      the selected tree, the selected tree's status after it. */
  function StateSeen<C>(trees: seq<(int, C) -> Tick>, idx: int, ctx: C, i: nat): int {
    if 0 <= idx < i && idx < |trees| then trees[idx](STAND, ctx).status else STAND
  }

  /** Ticks every tree in order and keeps the action of tree idx, or STAND
      when no tree sits at position idx. The incoming state is overwritten
      before the first tree runs, and the selected status is dropped. */
  method BtsTick<C>(trees: seq<(int, C) -> Tick>, state: int, idx: int, ctx: C)
    returns (action: int, ghost seen: seq<int>)
    ensures |seen| == |trees|
    ensures forall i :: 0 <= i < |trees| ==> seen[i] == StateSeen(trees, idx, ctx, i)
    ensures 0 <= idx < |trees| ==> action == trees[idx](STAND, ctx).action
    ensures !(0 <= idx < |trees|) ==> action == STAND
  {
    var st := STAND;
    action := STAND;
    seen := [];
    var i := 0;
    for k := 0 to |trees|
      invariant i == k
      invariant |seen| == i
      invariant forall j :: 0 <= j < i ==> seen[j] == StateSeen(trees, idx, ctx, j)
      invariant st == StateSeen(trees, idx, ctx, i)
      invariant action == (if 0 <= idx < i then trees[idx](STAND, ctx).action else STAND)
    {
      var bt := trees[k];
      seen := seen + [st];
      var r := bt(st, ctx);
      if idx == i {
        st := r.status;
        action := r.action;
      }
      i := i + 1;
    }
  }

  /** Batched evaluation of compiled trees: the result for a member whose
      index names a tree is that tree's scalar tick. */
  method BatchOfCompiled<C>(registry: map<string, Entry<C>>, nodes: seq<Node>, idx: int, ctx: C)
    returns (action: int)
    requires forall i :: 0 <= i < |nodes| ==> Resolved(registry.Keys, nodes[i])
    ensures 0 <= idx < |nodes| ==> action == Eval(registry, nodes[idx], ctx).action
    ensures !(0 <= idx < |nodes|) ==> action == STAND
  {
    var trees := seq(|nodes|, i requires 0 <= i < |nodes| =>
      (s: int, c: C) => Eval(registry, nodes[i], c));
    ghost var seen;
    action, seen := BtsTick(trees, STAND, idx, ctx);
  }

  /** The batch slot of position k: k mod the number of environments. */
  function SlotIndices(nEnvs: nat, nTrees: nat): (r: seq<int>)
    ensures |r| == nEnvs * nTrees
    ensures forall k :: 0 <= k < |r| ==> 0 <= r[k] < nEnvs
  {
    if nEnvs == 0 then []
    else seq(nEnvs * nTrees, k requires 0 <= k < nEnvs * nTrees => k % nEnvs)
  }

  /** Position t * nEnvs + j of the batch gets slot j: each of the
      nEnvs slots is given to nTrees positions, one per block. */
  lemma SlotOfPosition(nEnvs: nat, nTrees: nat, t: nat, j: nat)
    requires j < nEnvs && t < nTrees
    ensures t * nEnvs + j < nEnvs * nTrees
    ensures SlotIndices(nEnvs, nTrees)[t * nEnvs + j] == j
  {
    assert t * nEnvs + j < (t + 1) * nEnvs <= nTrees * nEnvs;
    ModOfBlock(t, nEnvs, j);
  }

  lemma ModOfBlock(t: nat, n: nat, j: nat)
    requires j < n
    ensures (t * n + j) % n == j
  {
    var x := t * n + j;
    var q, r := x / n, x % n;
    assert x == q * n + r && 0 <= r < n;
    assert (q - t) * n == j - r;
    if q - t >= 1 {
      MulAtLeast(q - t, n);
    } else if q - t <= -1 {
      MulAtLeast(t - q, n);
    }
  }

  lemma {:induction false} MulAtLeast(a: int, n: nat)
    requires a >= 1
    ensures a * n >= n
    decreases a
  {
    if a > 1 {
      MulAtLeast(a - 1, n);
      assert a * n == (a - 1) * n + n;
    }
  }
}
