/** The adaptive table of atable_jisho.py: the same table as in atable.py,
    with the width update written out inline and the length and padding
    functions chosen at every call instead of once at construction. Its
    `visual_len` and `fw_ljust` come from a module (`jstring`) that is not
    part of this model; the definitions of module Metrics stand in for them. */
module AtableJisho {
  import opened Metrics
  import opened Lens
  import opened Render
  import Atable

  class ATable {
    var colLens: seq<nat>
    const delimiter: string
    const asianChars: bool
    /** The Unicode East Asian Width lookup behind `visual_len`. */
    const eaw: char -> Category
    /** The lines written to standard output, oldest first. */
    var output: seq<string>

    constructor(eaw: char -> Category, delimiter: string := " ", asianChars: bool := true)
      ensures colLens == [] && output == []
      ensures this.delimiter == delimiter && this.asianChars == asianChars && this.eaw == eaw
    {
      colLens := [];
      this.delimiter := delimiter;
      this.asianChars := asianChars;
      this.eaw := eaw;
      output := [];
    }

    /** The measure the table's calls select: `visual_len` and `fw_ljust`
        with `asian_chars`, `len` and `str.ljust` without. */
    function Mode(): Measure {
      Measure(asianChars, eaw)
    }

    /** Measure the row with the selected length function, then replace the
        widths by the element-wise maximum over `zip_longest` with fill 0. */
    method UpdateLens(cols: seq<string>) returns (outcome: Outcome)
      modifies this
      ensures var r := Lens.UpdateLens(old(colLens), cols, Mode());
        && (r.Ok? ==> outcome == Pass && colLens == r.value)
        && (r.Err? ==> outcome == Fail(r.error) && colLens == old(colLens))
      ensures output == old(output)
    {
      var newLens := Measured(Measure(asianChars, eaw), cols);
      if newLens.Err? {
        return Fail(newLens.error);
      }
      var zips := ZipLongest(colLens, newLens.value);
      colLens := MaxEach(zips);
      outcome := Pass;
    }

    /** Walk `zip(cols, col_lens)`, padding each column with `fw_ljust` or
        `str.ljust`, and write the joined parts as one line. */
    method OnlyPrint(cols: seq<string>) returns (outcome: Outcome)
      modifies this
      ensures var r := RenderLine(Mode(), delimiter, cols, old(colLens));
        && (r.Ok? ==> outcome == Pass && output == old(output) + [r.value])
        && (r.Err? ==> outcome == Fail(r.error) && output == old(output))
      ensures colLens == old(colLens)
    {
      var parts: seq<string> := [];
      var n := Min(|cols|, |colLens|);
      var i := 0;
      while i < n
        invariant 0 <= i <= n
        invariant |parts| == i
        invariant forall k :: 0 <= k < i ==> Justify(Mode(), cols[k], colLens[k]) == Ok(parts[k])
      {
        var adjusted := if asianChars then FwLjust(eaw, cols[i], colLens[i]) else Ok(Ljust(cols[i], colLens[i]));
        if adjusted.Err? {
          return Fail(adjusted.error);
        }
        parts := parts + [adjusted.value];
        i := i + 1;
      }
      assert forall k :: 0 <= k < n ==> DisplayLen(Mode(), cols[k]).Ok?;
      ghost var spec := JustifiedParts(Mode(), cols, colLens);
      assert spec.Ok? && |spec.value| == |parts|;
      assert forall k :: 0 <= k < n ==> spec.value[k] == parts[k];
      assert spec.value == parts;
      output := output + [Join(delimiter, parts)];
      outcome := Pass;
    }

    method Print(cols: seq<string>) returns (outcome: Outcome)
      modifies this
      ensures var step := Atable.PrintStep(Mode(), delimiter, old(colLens), cols);
        colLens == step.colLens && output == old(output) + step.emitted && outcome == step.outcome
    {
      outcome := UpdateLens(cols);
      if outcome.Fail? {
        return;
      }
      outcome := OnlyPrint(cols);
    }

    method PrintHeader(cols: seq<string>, headerSeparator: string := "=") returns (outcome: Outcome)
      modifies this
      ensures var step := Atable.HeaderStep(Mode(), delimiter, old(colLens), cols, headerSeparator);
        colLens == step.colLens && output == old(output) + step.emitted && outcome == step.outcome
    {
      var sepRow := Atable.SeparatorRow(headerSeparator, cols);
      ghost var first := Atable.PrintStep(Mode(), delimiter, colLens, cols);
      ghost var second := Atable.PrintStep(Mode(), delimiter, first.colLens, sepRow);
      assert Atable.HeaderStep(Mode(), delimiter, colLens, cols, headerSeparator)
          == if first.outcome.Fail? then first else Atable.Step(second.colLens, first.emitted + second.emitted, second.outcome);
      outcome := Print(cols);
      if outcome.Fail? {
        return;
      }
      assert colLens == first.colLens;
      outcome := Print(sepRow);
    }

    method Reset()
      modifies this
      ensures colLens == [] && output == old(output)
    {
      colLens := [];
    }
  }

  /** A call a client makes on the table. */
  datatype Call = PrintCall(cols: seq<string>) | ResetCall

  /** The widths after a series of calls and the lines they wrote. */
  datatype Trace = Trace(colLens: seq<nat>, emitted: seq<string>)

  /** One call: a print, whose failure leaves the state as it was, or a reset. */
  function Apply(m: Measure, delimiter: string, colLens: seq<nat>, call: Call): Trace {
    match call
    case ResetCall => Trace([], [])
    case PrintCall(cols) =>
      var step := Atable.PrintStep(m, delimiter, colLens, cols);
      Trace(step.colLens, step.emitted)
  }

  /** The calls applied in order, from widths `colLens`. */
  function Run(m: Measure, delimiter: string, colLens: seq<nat>, calls: seq<Call>): Trace
    decreases |calls|
  {
    if calls == [] then Trace(colLens, [])
    else
      var first := Apply(m, delimiter, colLens, calls[0]);
      var rest := Run(m, delimiter, first.colLens, calls[1..]);
      Trace(rest.colLens, first.emitted + rest.emitted)
  }

  /** No width ever shrinks, nor does the width vector get shorter, unless
      a reset is among the calls. */
  lemma {:induction false} WidthsNeverShrinkWithoutReset(m: Measure, delimiter: string, colLens: seq<nat>, calls: seq<Call>)
    requires forall i :: 0 <= i < |calls| ==> calls[i].PrintCall?
    ensures Dominates(Run(m, delimiter, colLens, calls).colLens, colLens)
    decreases |calls|
  {
    if calls != [] {
      var next := Apply(m, delimiter, colLens, calls[0]).colLens;
      Atable.PrintWidthsGrow(m, delimiter, colLens, calls[0].cols);
      WidthsNeverShrinkWithoutReset(m, delimiter, next, calls[1..]);
      DominatesTransitive(Run(m, delimiter, colLens, calls).colLens, next, colLens);
    }
  }

  /** After a reset, the table behaves exactly as a fresh one: whatever was
      printed before it has no effect on the widths or lines after it. */
  lemma {:induction false} ResetForgetsHistory(m: Measure, delimiter: string, colLens: seq<nat>, before: seq<Call>, after: seq<Call>)
    ensures var whole := Run(m, delimiter, colLens, before + [ResetCall] + after);
      var restarted := Run(m, delimiter, [], after);
      && whole.colLens == restarted.colLens
      && whole.emitted == Run(m, delimiter, colLens, before).emitted + restarted.emitted
    decreases |before|
  {
    if before == [] {
      assert before + [ResetCall] + after == [ResetCall] + after;
      assert ([ResetCall] + after)[1..] == after;
    } else {
      var next := Apply(m, delimiter, colLens, before[0]).colLens;
      assert (before + [ResetCall] + after)[1..] == before[1..] + [ResetCall] + after;
      ResetForgetsHistory(m, delimiter, next, before[1..], after);
    }
  }
}
