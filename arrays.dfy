/** The array operations the atomics rely on, with Python/NumPy/JAX
    semantics: negative-end slices, reshaping into rows, index
    normalisation and the `any` reduction. */
module Arrays {

  /** `s[:-k]`: all but the last k entries; empty when k is 0 or at least |s|. */
  function DropLast<T>(s: seq<T>, k: nat): (r: seq<T>)
    ensures k == 0 || k >= |s| ==> r == []
    ensures 0 < k < |s| ==> r == s[..|s| - k]
  {
    if k == 0 || k >= |s| then [] else s[..|s| - k]
  }

  /** `s[-k:]`: the last k entries; all of s when k is 0 or at least |s|. */
  function TakeLast<T>(s: seq<T>, k: nat): (r: seq<T>)
    ensures k == 0 || k >= |s| ==> r == s
    ensures 0 < k < |s| ==> r == s[|s| - k..]
  {
    if k == 0 || k >= |s| then s else s[|s| - k..]
  }

  lemma MulStep(a: nat, w: nat)
    ensures (a + 1) * w == a * w + w
  {
  }

  /** `s.reshape(rows, w)` read row by row. */
  function Reshape<T>(s: seq<T>, w: nat, rows: nat): (r: seq<seq<T>>)
    requires |s| == w * rows
    ensures |r| == rows
    ensures forall k :: 0 <= k < rows ==> |r[k]| == w
    decreases rows
  {
    if rows == 0 then []
    else
      MulStep(rows - 1, w);
      [s[..w]] + Reshape(s[w..], w, rows - 1)
  }

  /** Entry j of row k of a reshaped sequence is entry k * w + j. */
  lemma {:induction false} ReshapeAt<T>(s: seq<T>, w: nat, rows: nat, k: nat, j: nat)
    requires |s| == w * rows && k < rows && j < w
    ensures k * w + j < |s|
    ensures Reshape(s, w, rows)[k][j] == s[k * w + j]
    decreases rows
  {
    MulStep(rows - 1, w);
    if k > 0 {
      ReshapeAt(s[w..], w, rows - 1, k - 1, j);
      MulStep(k - 1, w);
    }
    assert (k + 1) * w <= rows * w by {
      MulMono(k + 1, rows, w);
    }
    MulStep(k, w);
  }

  lemma {:induction false} MulMono(a: nat, b: nat, w: nat)
    requires a <= b
    ensures a * w <= b * w
    decreases b - a
  {
    if a < b {
      MulMono(a + 1, b, w);
      MulStep(a, w);
    }
  }

  /** Concatenation of rows, the inverse of Reshape. */
  function Flatten<T>(rows: seq<seq<T>>): seq<T> {
    if rows == [] then [] else rows[0] + Flatten(rows[1..])
  }

  /** Flattening a reshaped sequence gives the sequence back. */
  lemma {:induction false} FlattenReshape<T>(s: seq<T>, w: nat, rows: nat)
    requires |s| == w * rows
    ensures Flatten(Reshape(s, w, rows)) == s
    decreases rows
  {
    if rows > 0 {
      MulStep(rows - 1, w);
      var head, tail := s[..w], s[w..];
      assert |tail| == w * (rows - 1);
      FlattenReshape(tail, w, rows - 1);
      ReshapeCons(s, w, rows);
      assert s == head + tail;
    }
  }

  lemma ReshapeCons<T>(s: seq<T>, w: nat, rows: nat)
    requires |s| == w * rows && rows > 0
    ensures w <= |s| && |s[w..]| == w * (rows - 1)
    ensures Flatten(Reshape(s, w, rows)) == s[..w] + Flatten(Reshape(s[w..], w, rows - 1))
  {
    MulStep(rows - 1, w);
    var r := Reshape(s, w, rows);
    assert r == [s[..w]] + Reshape(s[w..], w, rows - 1);
    assert r[1..] == Reshape(s[w..], w, rows - 1);
  }

  /** JAX indexing of an axis of length n: a negative index counts from the
      end, and an index still outside the axis is clamped to it. */
  function JaxIndex(i: int, n: nat): (r: nat)
    requires n > 0
    ensures r < n
    ensures 0 <= i < n ==> r == i
    ensures -(n as int) <= i < 0 ==> r as int == i + n
  {
    var j := if i < 0 then i + n else i;
    if j < 0 then 0 else if j >= n then n - 1 else j
  }

  /** `any` over a boolean array. */
  function AnyTrue(m: seq<bool>): (b: bool)
    ensures b <==> exists k :: 0 <= k < |m| && m[k]
  {
    if m == [] then false else m[0] || AnyTrue(m[1..])
  }

  /** The number of true entries. */
  function CountTrue(m: seq<bool>): nat {
    if m == [] then 0 else (if m[0] then 1 else 0) + CountTrue(m[1..])
  }

  lemma {:induction false} CountBounds(m: seq<bool>)
    ensures CountTrue(m) <= |m|
    ensures CountTrue(m) == 0 <==> forall k :: 0 <= k < |m| ==> !m[k]
  {
    if m != [] {
      CountBounds(m[1..]);
      assert forall k :: 1 <= k < |m| ==> m[k] == m[1..][k - 1];
    }
  }

  /** Reversal, `m[::-1]`. */
  function Reverse<T>(m: seq<T>): (r: seq<T>)
    ensures |r| == |m| && forall k :: 0 <= k < |m| ==> r[k] == m[|m| - 1 - k]
  {
    seq(|m|, k requires 0 <= k < |m| => m[|m| - 1 - k])
  }
}
