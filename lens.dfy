/** Width accumulation of the adaptive table: the element-wise maximum of the
    widths seen so far and a new row's widths, the shorter side filled with 0. */
module Lens {
  import opened Metrics

  /** `s[i]`, or the fill value 0 past its end. */
  function At(s: seq<nat>, i: nat): nat {
    if i < |s| then s[i] else 0
  }

  function Rest(s: seq<nat>): seq<nat> {
    if s == [] then [] else s[1..]
  }

  /** `zip_longest(a, b, fillvalue=0)`: pairs position by position, as long
      as the longer input, the missing side read as 0. */
  function ZipLongest(a: seq<nat>, b: seq<nat>): (r: seq<(nat, nat)>)
    ensures |r| == Max(|a|, |b|)
    ensures forall i :: 0 <= i < |r| ==> r[i] == (At(a, i), At(b, i))
    decreases |a| + |b|
  {
    if a == [] && b == [] then []
    else
      var tail := ZipLongest(Rest(a), Rest(b));
      var r := [(At(a, 0), At(b, 0))] + tail;
      assert forall i :: 1 <= i < |r| ==> r[i] == (At(a, i), At(b, i)) by {
        forall i | 1 <= i < |r| ensures r[i] == (At(a, i), At(b, i)) {
          assert r[i] == tail[i - 1];
          AtRest(a, i - 1);
          AtRest(b, i - 1);
        }
      }
      r
  }

  lemma AtRest(s: seq<nat>, i: nat)
    ensures At(Rest(s), i) == At(s, i + 1)
  {
  }

  /** `[max(zp) for zp in zips]`: one entry per pair, the larger of the two. */
  function MaxEach(zips: seq<(nat, nat)>): (r: seq<nat>)
    ensures |r| == |zips|
    ensures forall i :: 0 <= i < |r| ==>
      r[i] >= zips[i].0 && r[i] >= zips[i].1 && (r[i] == zips[i].0 || r[i] == zips[i].1)
  {
    seq(|zips|, i requires 0 <= i < |zips| => Max(zips[i].0, zips[i].1))
  }

  /** The accumulation step on widths alone. */
  function Merge(oldLens: seq<nat>, newLens: seq<nat>): (r: seq<nat>)
    ensures |r| == Max(|oldLens|, |newLens|)
    ensures forall i :: 0 <= i < |r| ==> r[i] == Max(At(oldLens, i), At(newLens, i))
  {
    MaxEach(ZipLongest(oldLens, newLens))
  }

  /** `[len_fn(col) for col in cols]`: the first column whose width cannot be
      measured raises. */
  function Measured(lenFn: Measure, cols: seq<string>): (r: Result<seq<nat>>)
    ensures r.Ok? <==> forall i :: 0 <= i < |cols| ==> DisplayLen(lenFn, cols[i]).Ok?
    ensures r.Err? ==> r.error == KeyError(H)
    ensures r.Ok? ==> |r.value| == |cols|
    ensures r.Ok? ==> forall i :: 0 <= i < |cols| ==> r.value[i] == DisplayLen(lenFn, cols[i]).value
  {
    if cols == [] then Ok([])
    else
      match DisplayLen(lenFn, cols[0])
      case Err(e) => Err(e)
      case Ok(w) =>
        var rest := Measured(lenFn, cols[1..]);
        assert forall i :: 1 <= i < |cols| ==> cols[i] == cols[1..][i - 1];
        match rest
        case Err(e) => Err(e)
        case Ok(ws) => Ok([w] + ws)
  }

  /** The width of column `i` of a measurable row, 0 past its end. */
  function ColWidth(lenFn: Measure, cols: seq<string>, i: nat): nat
    requires Measured(lenFn, cols).Ok?
  {
    if i < |cols| then DisplayLen(lenFn, cols[i]).value else 0
  }

  /** `update_lens(old_lens, *cols, len_fn)`: as long as the longer of the two,
      entry `i` the larger of the old width and column `i`'s width, each 0
      where it is missing; fails exactly when a column cannot be measured. */
  function UpdateLens(oldLens: seq<nat>, cols: seq<string>, lenFn: Measure): (r: Result<seq<nat>>)
    ensures r.Ok? <==> Measured(lenFn, cols).Ok?
    ensures r.Err? ==> r.error == KeyError(H)
    ensures r.Ok? ==> |r.value| == Max(|oldLens|, |cols|)
    ensures r.Ok? ==> forall i :: 0 <= i < |r.value| ==> r.value[i] == Max(At(oldLens, i), ColWidth(lenFn, cols, i))
  {
    match Measured(lenFn, cols)
    case Err(e) => Err(e)
    case Ok(newLens) => Ok(Merge(oldLens, newLens))
  }

  /** `x` is at least as long as `y` and at least as wide at every position. */
  predicate Dominates(x: seq<nat>, y: seq<nat>) {
    |x| >= |y| && forall i :: 0 <= i < |y| ==> x[i] >= y[i]
  }

  lemma DominatesTransitive(x: seq<nat>, y: seq<nat>, z: seq<nat>)
    requires Dominates(x, y) && Dominates(y, z)
    ensures Dominates(x, z)
  {
  }

  /** The merge is the least upper bound of its inputs under `Dominates`. */
  lemma MergeIsLeastUpperBound(a: seq<nat>, b: seq<nat>, c: seq<nat>)
    ensures Dominates(Merge(a, b), a) && Dominates(Merge(a, b), b)
    ensures Dominates(c, a) && Dominates(c, b) ==> Dominates(c, Merge(a, b))
  {
  }

  /** The order of the two inputs does not matter. */
  lemma MergeCommutes(a: seq<nat>, b: seq<nat>)
    ensures Merge(a, b) == Merge(b, a)
  {
    assert forall i :: 0 <= i < |Merge(a, b)| ==> Merge(a, b)[i] == Merge(b, a)[i];
  }

  /** Folding three rows in does not depend on their grouping. */
  lemma MergeAssociates(a: seq<nat>, b: seq<nat>, c: seq<nat>)
    ensures Merge(Merge(a, b), c) == Merge(a, Merge(b, c))
  {
    var l, r := Merge(Merge(a, b), c), Merge(a, Merge(b, c));
    assert |l| == |r|;
    forall i | 0 <= i < |l| ensures l[i] == r[i] {
      assert At(Merge(a, b), i) == Max(At(a, i), At(b, i));
      assert At(Merge(b, c), i) == Max(At(b, i), At(c, i));
    }
  }

  /** The empty width vector is the identity of the merge. */
  lemma MergeEmpty(a: seq<nat>)
    ensures Merge([], a) == a && Merge(a, []) == a
  {
    assert forall i :: 0 <= i < |a| ==> Merge([], a)[i] == a[i];
    assert forall i :: 0 <= i < |a| ==> Merge(a, [])[i] == a[i];
  }

  /** Folding in what is already dominated changes nothing. */
  lemma MergeAbsorbs(a: seq<nat>, b: seq<nat>)
    requires Dominates(a, b)
    ensures Merge(a, b) == a
  {
    assert forall i :: 0 <= i < |a| ==> Merge(a, b)[i] == a[i];
  }

  /** The new widths cover the old ones and the row's own widths. */
  lemma UpdateLensCovers(oldLens: seq<nat>, cols: seq<string>, lenFn: Measure)
    requires UpdateLens(oldLens, cols, lenFn).Ok?
    ensures Dominates(UpdateLens(oldLens, cols, lenFn).value, oldLens)
    ensures Dominates(UpdateLens(oldLens, cols, lenFn).value, Measured(lenFn, cols).value)
  {
    MergeIsLeastUpperBound(oldLens, Measured(lenFn, cols).value, []);
  }

  /** Recording the same row twice gives the widths of recording it once. */
  lemma UpdateLensIdempotent(oldLens: seq<nat>, cols: seq<string>, lenFn: Measure)
    requires UpdateLens(oldLens, cols, lenFn).Ok?
    ensures UpdateLens(UpdateLens(oldLens, cols, lenFn).value, cols, lenFn) == UpdateLens(oldLens, cols, lenFn)
  {
    var once := UpdateLens(oldLens, cols, lenFn).value;
    UpdateLensCovers(oldLens, cols, lenFn);
    MergeAbsorbs(once, Measured(lenFn, cols).value);
  }

  /** Starting from no widths, the widths are the row's own. */
  lemma UpdateLensFromEmpty(cols: seq<string>, lenFn: Measure)
    requires Measured(lenFn, cols).Ok?
    ensures UpdateLens([], cols, lenFn) == Measured(lenFn, cols)
  {
    MergeEmpty(Measured(lenFn, cols).value);
  }
}
