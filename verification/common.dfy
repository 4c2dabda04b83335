/** Small shared vocabulary: an optional value, row-major flattening of a
    grid, and sums of real sequences. */
module Common {

  datatype Option<+T> = None | Some(value: T)

  /** The value of a call that may raise; `message` names the exception. */
  datatype Result<+T> = Ok(value: T) | Err(message: string)

  /** The values among `xs` that are present, in order (a list
      comprehension with `if x is not None`). */
  function Present<F>(xs: seq<Option<F>>): (r: seq<F>)
    ensures |r| <= |xs|
    ensures forall k :: 0 <= k < |xs| && xs[k].Some? ==> xs[k].value in r
    ensures forall x :: x in r ==> Some(x) in xs
  {
    if |xs| == 0 then []
    else (if xs[0].Some? then [xs[0].value] else []) + Present(xs[1..])
  }

  /** Row-major concatenation of the rows of a grid (numpy's `reshape(-1, …)`
      and the iteration order of a 2-D slice). */
  function Flatten<T>(rows: seq<seq<T>>): (r: seq<T>)
  {
    if |rows| == 0 then [] else rows[0] + Flatten(rows[1..])
  }

  /** Every row of `rows` has exactly `width` entries. */
  predicate Rectangular<T>(rows: seq<seq<T>>, width: nat)
  {
    forall i :: 0 <= i < |rows| ==> |rows[i]| == width
  }

  /** The flattening of a rectangular grid holds `|rows| * width` entries. */
  lemma {:induction false} FlattenLength<T>(rows: seq<seq<T>>, width: nat)
    requires Rectangular(rows, width)
    ensures |Flatten(rows)| == |rows| * width
  {
    if |rows| > 0 {
      RectangularTail(rows, width);
      FlattenLength(rows[1..], width);
      MulSucc(|rows| - 1, width);
    }
  }

  /** In a rectangular grid, row `i`, column `j` sits at position
      `i * width + j` of the flattening. */
  lemma {:induction false} FlattenAt<T>(rows: seq<seq<T>>, width: nat, i: nat, j: nat)
    requires Rectangular(rows, width)
    requires i < |rows| && j < width
    ensures i * width + j < |Flatten(rows)|
    ensures Flatten(rows)[i * width + j] == rows[i][j]
  {
    FlattenLength(rows, width);
    MulMono(i, |rows| - 1, width);
    MulSucc(|rows| - 1, width);
    if i > 0 {
      RectangularTail(rows, width);
      FlattenAt(rows[1..], width, i - 1, j);
      MulSucc(i - 1, width);
      assert rows[1..][i - 1] == rows[i];
    }
  }

  lemma RectangularTail<T>(rows: seq<seq<T>>, width: nat)
    requires Rectangular(rows, width) && |rows| > 0
    ensures Rectangular(rows[1..], width)
  {
    forall i | 0 <= i < |rows| - 1 ensures |rows[1..][i]| == width {
      assert rows[1..][i] == rows[i + 1];
    }
  }

  lemma MulSucc(i: nat, w: nat)
    ensures (i + 1) * w == i * w + w
  {
  }

  lemma MulMono(i: nat, n: nat, w: nat)
    requires i <= n
    ensures i * w <= n * w
  {
  }

  /** If every entry of every row lies in [lo, hi], so does every entry of
      the flattening. */
  lemma {:induction false} FlattenWithin(rows: seq<seq<real>>, lo: real, hi: real)
    requires forall i, j :: 0 <= i < |rows| && 0 <= j < |rows[i]| ==> lo <= rows[i][j] <= hi
    ensures AllWithin(Flatten(rows), lo, hi)
  {
    if |rows| > 0 {
      FlattenWithin(rows[1..], lo, hi);
      var f := Flatten(rows);
      assert f == rows[0] + Flatten(rows[1..]);
      forall k | 0 <= k < |f| ensures lo <= f[k] <= hi {
        if k >= |rows[0]| {
          assert f[k] == Flatten(rows[1..])[k - |rows[0]|];
        } else {
          assert f[k] == rows[0][k];
        }
      }
    }
  }

  /** Exact sum of a sequence of reals. */
  function Sum(xs: seq<real>): real
  {
    if |xs| == 0 then 0.0 else xs[0] + Sum(xs[1..])
  }

  /** Every entry lies in the closed interval [lo, hi]. */
  predicate AllWithin(xs: seq<real>, lo: real, hi: real)
  {
    forall k :: 0 <= k < |xs| ==> lo <= xs[k] <= hi
  }

  /** A sum of entries bounded by [lo, hi] is bounded by |xs| times each bound. */
  lemma {:induction false} SumBounds(xs: seq<real>, lo: real, hi: real)
    requires AllWithin(xs, lo, hi)
    ensures |xs| as real * lo <= Sum(xs) <= |xs| as real * hi
  {
    if |xs| > 0 {
      var tail := xs[1..];
      assert AllWithin(tail, lo, hi) by {
        forall k | 0 <= k < |tail| ensures lo <= tail[k] <= hi {
          assert tail[k] == xs[k + 1];
        }
      }
      SumBounds(tail, lo, hi);
      assert |xs| as real == |tail| as real + 1.0;
    }
  }
}
