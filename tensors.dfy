/** Rank-3 and rank-4 tensors as nested sequences, and the shape-level meaning of
    the tfjs operations the cartoonizer component chains together: pad, slice,
    bilinear resize, reshape to a batch of one, squeeze and element-wise maps.
    A shape is a sequence of axis lengths, as `tensor.shape` is in tfjs. */
module Tensors {

  /** t[i][j][c]: row i, column j, channel c. */
  type Tensor3<T> = seq<seq<seq<T>>>

  /** A batch of rank-3 tensors. */
  type Tensor4<T> = seq<Tensor3<T>>

  /** t is a dense [s[0], s[1], s[2]] tensor. */
  predicate HasShape<T>(t: Tensor3<T>, s: seq<nat>)
  {
    && |s| == 3
    && |t| == s[0]
    && (forall i :: 0 <= i < |t| ==> |t[i]| == s[1])
    && (forall i, j :: 0 <= i < |t| && 0 <= j < |t[i]| ==> |t[i][j]| == s[2])
  }

  /** t is a dense [s[0], s[1], s[2], s[3]] tensor. */
  predicate HasShape4<T>(t: Tensor4<T>, s: seq<nat>)
  {
    && |s| == 4
    && |t| == s[0]
    && forall b :: 0 <= b < |t| ==> HasShape(t[b], s[1..])
  }

  /** Every element of t satisfies p. */
  predicate AllValues<T>(t: Tensor3<T>, p: T -> bool)
  {
    forall i, j, c :: 0 <= i < |t| && 0 <= j < |t[i]| && 0 <= c < |t[i][j]| ==> p(t[i][j][c])
  }

  /** Shape of `pad(p)` applied to a tensor of shape s: each axis grows by its
      before and after amounts. */
  function PaddedShape(s: seq<nat>, p: seq<(nat, nat)>): seq<nat>
    requires |p| == |s|
  {
    seq(|s|, k requires 0 <= k < |s| => p[k].0 + s[k] + p[k].1)
  }

  /** The element of a padded tensor at (i, j, c): the original element when
      the position lies inside the copied block, `zero` otherwise. */
  function PadAt<T>(t: Tensor3<T>, s: seq<nat>, p: seq<(nat, nat)>, zero: T, i: nat, j: nat, c: nat): T
    requires HasShape(t, s) && |p| == 3
  {
    if p[0].0 <= i < p[0].0 + s[0] && p[1].0 <= j < p[1].0 + s[1] && p[2].0 <= c < p[2].0 + s[2]
    then t[i - p[0].0][j - p[1].0][c - p[2].0]
    else zero
  }

  /** `tensor.pad(p)` with constant value `zero`: p[k] = (before, after) on axis k.
      The original sits at offset (p[0].0, p[1].0, p[2].0) in the result and
      every other element is `zero`. */
  function Pad<T>(t: Tensor3<T>, s: seq<nat>, p: seq<(nat, nat)>, zero: T): (r: Tensor3<T>)
    requires HasShape(t, s) && |p| == 3
    ensures HasShape(r, PaddedShape(s, p))
    ensures forall i, j, c :: 0 <= i < s[0] && 0 <= j < s[1] && 0 <= c < s[2] ==>
              r[i + p[0].0][j + p[1].0][c + p[2].0] == t[i][j][c]
    ensures forall i, j, c ::
              (0 <= i < |r| && 0 <= j < |r[i]| && 0 <= c < |r[i][j]| &&
               !(p[0].0 <= i < p[0].0 + s[0] && p[1].0 <= j < p[1].0 + s[1] && p[2].0 <= c < p[2].0 + s[2]))
              ==> r[i][j][c] == zero
  {
    var n0, n1, n2 := p[0].0 + s[0] + p[0].1, p[1].0 + s[1] + p[1].1, p[2].0 + s[2] + p[2].1;
    seq(n0, i requires 0 <= i < n0 =>
      seq(n1, j requires 0 <= j < n1 =>
        seq(n2, c requires 0 <= c < n2 => PadAt(t, s, p, zero, i, j, c))))
  }

  /** Shape of `slice(begin)` with the size left out: each axis keeps what lies
      after its begin offset. */
  function SlicedShape(s: seq<nat>, begin: seq<nat>): seq<nat>
    requires |begin| == |s| && forall k :: 0 <= k < |s| ==> begin[k] <= s[k]
  {
    seq(|s|, k requires 0 <= k < |s| => s[k] - begin[k])
  }

  /** `tensor.slice(begin)`: the sub-tensor from offset `begin` to the end of
      every axis. tfjs rejects a begin offset past the end of its axis. */
  function Slice<T>(t: Tensor3<T>, s: seq<nat>, begin: seq<nat>): (r: Tensor3<T>)
    requires HasShape(t, s) && |begin| == 3
    requires forall k :: 0 <= k < 3 ==> begin[k] <= s[k]
    ensures HasShape(r, SlicedShape(s, begin))
    ensures forall i, j, c :: 0 <= i < |r| && 0 <= j < |r[i]| && 0 <= c < |r[i][j]| ==>
              r[i][j][c] == t[i + begin[0]][j + begin[1]][c + begin[2]]
  {
    seq(s[0] - begin[0], i requires 0 <= i < s[0] - begin[0] =>
      seq(s[1] - begin[1], j requires 0 <= j < s[1] - begin[1] =>
        seq(s[2] - begin[2], c requires 0 <= c < s[2] - begin[2] =>
          t[i + begin[0]][j + begin[1]][c + begin[2]])))
  }

  /** `tf.image.resizeBilinear(t, [rows, cols])`. The interpolation arithmetic is
      the parameter `sample`, giving output element (i, j, c) from the input; what
      is fixed here is the shape: [rows, cols] with the channel axis kept. */
  function Resize<T>(t: Tensor3<T>, s: seq<nat>, rows: nat, cols: nat,
                     sample: (Tensor3<T>, nat, nat, nat) -> T): (r: Tensor3<T>)
    requires HasShape(t, s)
    ensures HasShape(r, [rows, cols, s[2]])
    ensures forall i, j, c :: 0 <= i < rows && 0 <= j < cols && 0 <= c < s[2] ==> r[i][j][c] == sample(t, i, j, c)
  {
    seq(rows, i requires 0 <= i < rows =>
      seq(cols, j requires 0 <= j < cols =>
        seq(s[2], c requires 0 <= c < s[2] => sample(t, i, j, c))))
  }

  /** `reshape([1] + s)` of a tensor of shape s: a batch holding that tensor. */
  function Batch<T>(t: Tensor3<T>, s: seq<nat>): (r: Tensor4<T>)
    requires HasShape(t, s)
    ensures HasShape4(r, [1] + s) && r[0] == t
  {
    [t]
  }

  /** tfjs's `squeeze()` on shapes: every axis of length 1 is dropped. */
  function SqueezedShape(s: seq<nat>): (r: seq<nat>)
    ensures |r| <= |s|
    ensures forall k :: 0 <= k < |r| ==> r[k] != 1
  {
    if s == [] then []
    else if s[0] == 1 then SqueezedShape(s[1..])
    else [s[0]] + SqueezedShape(s[1..])
  }

  /** When no axis has length 1, squeezing the shape leaves it as it is. */
  lemma {:induction false} SqueezedShapeKeeps(s: seq<nat>)
    requires forall k :: 0 <= k < |s| ==> s[k] != 1
    ensures SqueezedShape(s) == s
  {
    if s != [] {
      SqueezedShapeKeeps(s[1..]);
    }
  }

  /** `squeeze()` of a [1, a, b, c] tensor none of whose other axes has length 1:
      the single batch element, with shape SqueezedShape([1, a, b, c]). */
  function Squeeze<T>(t: Tensor4<T>, s: seq<nat>): (r: Tensor3<T>)
    requires HasShape4(t, [1] + s)
    requires forall k :: 0 <= k < |s| ==> s[k] != 1
    ensures SqueezedShape([1] + s) == s
    ensures HasShape(r, s) && r == t[0]
  {
    SqueezedShapeKeeps(s);
    assert ([1] + s)[1..] == s;
    t[0]
  }

  /** Element-wise map, as tfjs's scalar arithmetic and `clipByValue` apply. */
  function Map3<T, U>(t: Tensor3<T>, f: T -> U): (r: Tensor3<U>)
    ensures forall s :: HasShape(t, s) ==> HasShape(r, s)
    ensures |r| == |t| && forall i :: 0 <= i < |t| ==> |r[i]| == |t[i]|
    ensures forall i, j, c :: 0 <= i < |t| && 0 <= j < |t[i]| && 0 <= c < |t[i][j]| ==>
              |r[i][j]| == |t[i][j]| && r[i][j][c] == f(t[i][j][c])
  {
    seq(|t|, i requires 0 <= i < |t| =>
      seq(|t[i]|, j requires 0 <= j < |t[i]| =>
        seq(|t[i][j]|, c requires 0 <= c < |t[i][j]| => f(t[i][j][c]))))
  }

  /** Element-wise map over every tensor of a batch. */
  function Map4<T, U>(t: Tensor4<T>, f: T -> U): (r: Tensor4<U>)
    ensures forall s :: HasShape4(t, s) ==> HasShape4(r, s)
    ensures |r| == |t| && forall b :: 0 <= b < |t| ==> r[b] == Map3(t[b], f)
  {
    seq(|t|, b requires 0 <= b < |t| => Map3(t[b], f))
  }

  /** Slicing an element-wise map picks the mapped element at the shifted
      position. */
  lemma SliceOfMap<T, U>(t: Tensor3<T>, s: seq<nat>, begin: seq<nat>, f: T -> U)
    requires HasShape(t, s) && |begin| == 3
    requires forall k :: 0 <= k < 3 ==> begin[k] <= s[k]
    ensures var r := Slice(Map3(t, f), s, begin);
            forall i, j, c :: 0 <= i < |r| && 0 <= j < |r[i]| && 0 <= c < |r[i][j]| ==>
              r[i][j][c] == f(t[i + begin[0]][j + begin[1]][c + begin[2]])
  {
    var m := Map3(t, f);
    var r := Slice(m, s, begin);
    forall i, j, c | 0 <= i < |r| && 0 <= j < |r[i]| && 0 <= c < |r[i][j]|
      ensures r[i][j][c] == f(t[i + begin[0]][j + begin[1]][c + begin[2]])
    {
      assert r[i][j][c] == m[i + begin[0]][j + begin[1]][c + begin[2]];
    }
  }

  /** Slicing from the before-offsets of a pad that adds nothing after any axis
      gives back the tensor that was padded. */
  lemma SliceUndoesPad<T>(t: Tensor3<T>, s: seq<nat>, p: seq<(nat, nat)>, zero: T)
    requires HasShape(t, s) && |p| == 3
    requires forall k :: 0 <= k < 3 ==> p[k].1 == 0
    ensures Slice(Pad(t, s, p, zero), PaddedShape(s, p), [p[0].0, p[1].0, p[2].0]) == t
  {
    var padded := Pad(t, s, p, zero);
    var ps := PaddedShape(s, p);
    var r := Slice(padded, ps, [p[0].0, p[1].0, p[2].0]);
    assert SlicedShape(ps, [p[0].0, p[1].0, p[2].0]) == s;
    forall i | 0 <= i < |r| ensures r[i] == t[i] {
      forall j | 0 <= j < |r[i]| ensures r[i][j] == t[i][j] {
        forall c | 0 <= c < |r[i][j]| ensures r[i][j][c] == t[i][j][c] {
          assert r[i][j][c] == padded[i + p[0].0][j + p[1].0][c + p[2].0];
        }
      }
    }
  }

  /** Padding by zero on every side leaves the tensor as it is. */
  lemma PadNothing<T>(t: Tensor3<T>, s: seq<nat>, zero: T)
    requires HasShape(t, s)
    ensures Pad(t, s, [(0, 0), (0, 0), (0, 0)], zero) == t
  {
    var p := [(0, 0), (0, 0), (0, 0)];
    var r := Pad(t, s, p, zero);
    assert PaddedShape(s, p) == s;
    forall i | 0 <= i < |r| ensures r[i] == t[i] {
      forall j | 0 <= j < |r[i]| ensures r[i][j] == t[i][j] {
        forall c | 0 <= c < |r[i][j]| ensures r[i][j][c] == t[i][j][c] {
          assert r[i + 0][j + 0][c + 0] == t[i][j][c];
        }
      }
    }
  }
}
