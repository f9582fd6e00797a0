/** Rendering one row of the adaptive table: each column justified to its
    column's width, the parts joined by the delimiter. */
module Render {
  import opened Metrics

  /** The parts `only_print` builds over `zip(cols, col_lens)`: as many as
      the shorter of the two, part `i` column `i` justified to width `i`. */
  function JustifiedParts(m: Measure, cols: seq<string>, lens: seq<nat>): (r: Result<seq<string>>)
    ensures r.Ok? <==> forall i :: 0 <= i < Min(|cols|, |lens|) ==> DisplayLen(m, cols[i]).Ok?
    ensures r.Err? ==> r.error == KeyError(H)
    ensures r.Ok? ==> |r.value| == Min(|cols|, |lens|)
    ensures r.Ok? ==> forall i :: 0 <= i < |r.value| ==> Justify(m, cols[i], lens[i]) == Ok(r.value[i])
    decreases |cols|
  {
    if cols == [] || lens == [] then Ok([])
    else
      match Justify(m, cols[0], lens[0])
      case Err(e) => Err(e)
      case Ok(part) =>
        var rest := JustifiedParts(m, cols[1..], lens[1..]);
        assert forall i :: 1 <= i < Min(|cols|, |lens|) ==> cols[i] == cols[1..][i - 1] && lens[i] == lens[1..][i - 1];
        match rest
        case Err(e) => Err(e)
        case Ok(parts) => Ok([part] + parts)
  }

  /** The summed length of the parts. */
  function TotalLen(parts: seq<string>): nat {
    if parts == [] then 0 else |parts[0]| + TotalLen(parts[1..])
  }

  /** `delimiter.join(parts)`: every part in order, one delimiter between
      each two neighbours and none at either end. */
  function Join(delimiter: string, parts: seq<string>): (r: string)
    ensures |r| == TotalLen(parts) + (if parts == [] then 0 else (|parts| - 1) * |delimiter|)
    ensures parts != [] ==> parts[0] <= r
  {
    if parts == [] then ""
    else if |parts| == 1 then parts[0]
    else parts[0] + delimiter + Join(delimiter, parts[1..])
  }

  /** The line `only_print` writes for `cols` against `lens`. */
  function RenderLine(m: Measure, delimiter: string, cols: seq<string>, lens: seq<nat>): (r: Result<string>)
    ensures r.Ok? <==> JustifiedParts(m, cols, lens).Ok?
    ensures r.Err? ==> r.error == KeyError(H)
  {
    match JustifiedParts(m, cols, lens)
    case Err(e) => Err(e)
    case Ok(parts) => Ok(Join(delimiter, parts))
  }

  /** The loop of `only_print`: walk `zip(cols, col_lens)`, appending each
      justified column to `parts`, then join them. */
  method BuildLine(m: Measure, delimiter: string, cols: seq<string>, colLens: seq<nat>)
    returns (line: Result<string>)
    ensures line == RenderLine(m, delimiter, cols, colLens)
  {
    var parts: seq<string> := [];
    var n := Min(|cols|, |colLens|);
    var i := 0;
    while i < n
      invariant 0 <= i <= n
      invariant |parts| == i
      invariant forall k :: 0 <= k < i ==> Justify(m, cols[k], colLens[k]) == Ok(parts[k])
    {
      var adjusted := Justify(m, cols[i], colLens[i]);
      if adjusted.Err? {
        return Err(adjusted.error);
      }
      parts := parts + [adjusted.value];
      i := i + 1;
    }
    assert forall k :: 0 <= k < n ==> DisplayLen(m, cols[k]).Ok?;
    var spec := JustifiedParts(m, cols, colLens);
    assert spec.Ok? && |spec.value| == |parts|;
    assert forall k :: 0 <= k < n ==> spec.value[k] == parts[k];
    assert spec.value == parts;
    line := Ok(Join(delimiter, parts));
  }
}
