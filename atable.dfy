/** The adaptive table of atable.py: a stateful printer that keeps the
    running maximum width of every column and left-justifies each row
    against it as the rows arrive, and its sliding-window variant that
    periodically swaps the widths for those of the recent rows only. */
module Atable {
  import opened Metrics
  import opened Lens
  import opened Render

  /** What one call does to the base table: the widths afterwards, the lines
      it writes, and whether it ends normally or with an exception. */
  datatype Step = Step(colLens: seq<nat>, emitted: seq<string>, outcome: Outcome)

  /** `print(*cols)`: record the row's widths, then render the same row
      against them. An exception while measuring leaves the widths as they
      were; one while rendering would come after the update. */
  function PrintStep(m: Measure, delimiter: string, colLens: seq<nat>, cols: seq<string>): (r: Step)
    ensures r.outcome.Pass? ==> |r.emitted| == 1
    ensures r.outcome.Fail? ==> r.emitted == [] && r.outcome.error == KeyError(H)
  {
    match Lens.UpdateLens(colLens, cols, m)
    case Err(e) => Step(colLens, [], Fail(e))
    case Ok(newLens) =>
      match RenderLine(m, delimiter, cols, newLens)
      case Err(e) => Step(newLens, [], Fail(e))
      case Ok(line) => Step(newLens, [line], Pass)
  }

  /** The separator row of `print_header`: column `i` is the separator
      repeated as many times as header column `i` has characters, so a
      one-character separator gives each column exactly its character count. */
  function SeparatorRow(headerSeparator: string, cols: seq<string>): (r: seq<string>)
    ensures |r| == |cols|
    ensures |headerSeparator| == 1 ==> forall i :: 0 <= i < |cols| ==>
      |r[i]| == |cols[i]| && forall k :: 0 <= k < |r[i]| ==> r[i][k] == headerSeparator[0]
    ensures |headerSeparator| > 0 ==> forall i, k :: 0 <= i < |cols| && 0 <= k < |r[i]| ==>
      r[i][k] == headerSeparator[k % |headerSeparator|]
  {
    seq(|cols|, i requires 0 <= i < |cols| => Repeat(headerSeparator, |cols[i]|))
  }

  /** `s * n`: `n` copies of `s` back to back, so character `k` is
      character `k % |s|` of `s`. */
  function Repeat(s: string, n: nat): (r: string)
    ensures |s| == 1 ==> |r| == n && forall k :: 0 <= k < |r| ==> r[k] == s[0]
    ensures |s| > 0 ==> forall k :: 0 <= k < |r| ==> r[k] == s[k % |s|]
  {
    if n == 0 then ""
    else
      var rest := Repeat(s, n - 1);
      assert |s| > 0 ==> forall k :: 0 <= k < |s| + |rest| ==> (s + rest)[k] == s[k % |s|] by {
        if |s| > 0 {
          forall k | 0 <= k < |s| + |rest| ensures (s + rest)[k] == s[k % |s|] {
            if k < |s| {
              DivMod(k, |s|, 0, k);
            } else {
              DivMod(k, |s|, (k - |s|) / |s| + 1, (k - |s|) % |s|);
            }
          }
        }
      }
      s + rest
  }

  /** Division with remainder is unique: `a == q * n + r` with `0 <= r < n`
      fixes both the quotient and the remainder. */
  lemma DivMod(a: int, n: int, q: int, r: int)
    requires n > 0 && 0 <= r < n && a == q * n + r
    ensures a / n == q && a % n == r
  {
    var d := q - a / n;
    assert d * n == q * n - (a / n) * n;
    assert -n < d * n < n;
    assert d >= 1 ==> d * n == (d - 1) * n + n && (d - 1) * n >= 0;
    assert d <= -1 ==> d * n == (d + 1) * n - n && (d + 1) * n <= 0;
  }

  /** `s * n` has `n` times the characters of `s`. */
  lemma {:induction false} RepeatLength(s: string, n: nat)
    ensures |Repeat(s, n)| == |s| * n
  {
    if n > 0 {
      RepeatLength(s, n - 1);
      assert |s| * n == |s| + |s| * (n - 1);
    }
  }

  /** `print_header(*cols)`: print the header row, then its separator row;
      an exception in the first print skips the second. */
  function HeaderStep(m: Measure, delimiter: string, colLens: seq<nat>, cols: seq<string>, headerSeparator: string): (r: Step)
    ensures r.outcome.Pass? ==> |r.emitted| == 2
    ensures r.outcome.Fail? ==> |r.emitted| <= 1 && r.outcome.error == KeyError(H)
  {
    var sepRow := SeparatorRow(headerSeparator, cols);
    var first := PrintStep(m, delimiter, colLens, cols);
    if first.outcome.Fail? then first
    else
      var second := PrintStep(m, delimiter, first.colLens, sepRow);
      Step(second.colLens, first.emitted + second.emitted, second.outcome)
  }

  /** `print_header` ends normally exactly when both the header row and its
      separator row can be measured. It then writes the header line against
      the widths after the header, then the separator line against the final
      widths, and those final widths still cover the header's own. */
  lemma HeaderPassesWhenMeasurable(m: Measure, delimiter: string, colLens: seq<nat>, cols: seq<string>, headerSeparator: string)
    ensures var step := HeaderStep(m, delimiter, colLens, cols, headerSeparator);
      var sepRow := SeparatorRow(headerSeparator, cols);
      var afterHeader := PrintStep(m, delimiter, colLens, cols).colLens;
      && (step.outcome.Pass? <==> Measured(m, cols).Ok? && Measured(m, sepRow).Ok?)
      && (step.outcome.Pass? ==>
            && RenderLine(m, delimiter, cols, afterHeader).Ok?
            && RenderLine(m, delimiter, sepRow, step.colLens).Ok?
            && step.emitted == [RenderLine(m, delimiter, cols, afterHeader).value,
                                RenderLine(m, delimiter, sepRow, step.colLens).value]
            && Dominates(step.colLens, Measured(m, cols).value))
  {
    var sepRow := SeparatorRow(headerSeparator, cols);
    var first := PrintStep(m, delimiter, colLens, cols);
    PrintFailsOnlyWhenMeasuring(m, delimiter, colLens, cols);
    PrintFailsOnlyWhenMeasuring(m, delimiter, first.colLens, sepRow);
    if Measured(m, cols).Ok? && Measured(m, sepRow).Ok? {
      UpdateLensCovers(colLens, cols, m);
      PrintWidthsGrow(m, delimiter, first.colLens, sepRow);
      DominatesTransitive(HeaderStep(m, delimiter, colLens, cols, headerSeparator).colLens, first.colLens, Measured(m, cols).value);
    }
  }

  /** A print fails exactly when some column cannot be measured: once the
      widths are recorded, rendering the same row cannot fail. A failing
      print leaves the widths and the output as they were. */
  lemma PrintFailsOnlyWhenMeasuring(m: Measure, delimiter: string, colLens: seq<nat>, cols: seq<string>)
    ensures PrintStep(m, delimiter, colLens, cols).outcome.Pass? <==> Measured(m, cols).Ok?
    ensures PrintStep(m, delimiter, colLens, cols).outcome.Fail? ==>
      PrintStep(m, delimiter, colLens, cols) == Step(colLens, [], Fail(KeyError(H)))
  {
    var u := Lens.UpdateLens(colLens, cols, m);
    if u.Ok? {
      assert forall i :: 0 <= i < Min(|cols|, |u.value|) ==> DisplayLen(m, cols[i]).Ok?;
    }
  }

  /** The central promise of `print`: every column of the row is emitted,
      each padded (never truncated) to its column's width, and that width
      already covers the column's own width, so a row is never cut against
      itself. */
  lemma PrintCoversOwnRow(m: Measure, delimiter: string, colLens: seq<nat>, cols: seq<string>)
    requires SpaceIsNarrow(m)
    requires Measured(m, cols).Ok?
    ensures var step := PrintStep(m, delimiter, colLens, cols);
      var parts := JustifiedParts(m, cols, step.colLens);
      && step.outcome == Pass
      && parts.Ok?
      && |parts.value| == |cols|
      && step.emitted == [Join(delimiter, parts.value)]
      && forall i :: 0 <= i < |cols| ==>
           && cols[i] <= parts.value[i]
           && DisplayLen(m, parts.value[i]) == Ok(step.colLens[i])
           && step.colLens[i] >= DisplayLen(m, cols[i]).value
  {
    PrintFailsOnlyWhenMeasuring(m, delimiter, colLens, cols);
    var newLens := Lens.UpdateLens(colLens, cols, m).value;
    var parts := JustifiedParts(m, cols, newLens);
    assert |newLens| >= |cols|;
    forall i | 0 <= i < |cols|
      ensures DisplayLen(m, parts.value[i]) == Ok(newLens[i])
      ensures newLens[i] >= DisplayLen(m, cols[i]).value
    {
      assert ColWidth(m, cols, i) == DisplayLen(m, cols[i]).value;
      JustifyWidth(m, cols[i], newLens[i]);
    }
  }

  /** Widths never shrink across a print, whether it succeeds or fails. */
  lemma PrintWidthsGrow(m: Measure, delimiter: string, colLens: seq<nat>, cols: seq<string>)
    ensures Dominates(PrintStep(m, delimiter, colLens, cols).colLens, colLens)
  {
    if Measured(m, cols).Ok? {
      UpdateLensCovers(colLens, cols, m);
    }
  }

  /** After `reset`, a print uses only the row's own widths: the same as the
      first print of a fresh table. */
  lemma PrintAfterReset(m: Measure, delimiter: string, cols: seq<string>)
    requires Measured(m, cols).Ok?
    ensures PrintStep(m, delimiter, [], cols).colLens == Measured(m, cols).value
  {
    UpdateLensFromEmpty(cols, m);
  }

  /** The separator counts characters, not display cells: a one-character
      header two cells wide gets a one-character separator. */
  lemma SeparatorCountsCharacters(eaw: char -> Category)
    requires eaw('東') == W
    ensures VisualLen(eaw, "東") == Ok(2)
    ensures SeparatorRow("=", ["東"]) == ["="]
  {
    assert "東"[1..] == [];
    assert Repeat("=", 1) == "=";
  }

  /** Every character narrow, as in ASCII text. */
  function AllNarrow(): char -> Category {
    _ => Na
  }

  /** The first print of `ab`, `c` on a fresh table with a single-space
      delimiter writes `ab c`. */
  lemma FirstRowExample()
    ensures PrintStep(Measure(true, AllNarrow()), " ", [], ["ab", "c"]) == Step([2, 1], ["ab c"], Pass)
  {
    var m := Measure(true, AllNarrow());
    NarrowTextWidth(AllNarrow(), "ab");
    NarrowTextWidth(AllNarrow(), "c");
    assert Measured(m, ["ab", "c"]).value == [2, 1];
    assert Merge([], [2, 1]) == [2, 1];
    assert JustifiedParts(m, ["ab", "c"], [2, 1]).value == ["ab", "c"];
    assert Join(" ", ["ab", "c"]) == "ab c" by { assert ["ab", "c"][1..] == ["c"]; }
  }

  /** Then `a`, `cde`: the widths grow to [2, 3] and the line is `a  cde`. */
  lemma SecondRowExample()
    ensures PrintStep(Measure(true, AllNarrow()), " ", [2, 1], ["a", "cde"]) == Step([2, 3], ["a  cde"], Pass)
  {
    var m := Measure(true, AllNarrow());
    NarrowTextWidth(AllNarrow(), "a");
    NarrowTextWidth(AllNarrow(), "cde");
    assert Measured(m, ["a", "cde"]).value == [1, 3];
    assert Merge([2, 1], [1, 3]) == [2, 3];
    assert Justify(m, "a", 2).value == "a ";
    assert JustifiedParts(m, ["a", "cde"], [2, 3]).value == ["a ", "cde"];
    assert Join(" ", ["a ", "cde"]) == "a  cde" by { assert ["a ", "cde"][1..] == ["cde"]; }
  }

  /** The base table of atable.py. Its length and padding functions are fixed
      at construction (`self.len`, `self.ljust`). */
  class ATable {
    var colLens: seq<nat>
    const delimiter: string
    const asianChars: bool
    const measure: Measure
    /** The lines written to standard output, oldest first. */
    var output: seq<string>

    /** `eaw` is the Unicode East Asian Width lookup; `max_row_lenght` is
        never used and has no counterpart. */
    constructor(eaw: char -> Category, delimiter: string := "  ", asianChars: bool := true)
      ensures colLens == [] && output == []
      ensures this.delimiter == delimiter && this.asianChars == asianChars
      ensures measure == Measure(asianChars, eaw)
    {
      colLens := [];
      this.delimiter := delimiter;
      this.asianChars := asianChars;
      measure := Measure(asianChars, eaw);
      output := [];
    }

    /** Record a row's widths; an unmeasurable column raises and changes nothing. */
    method UpdateLens(cols: seq<string>) returns (outcome: Outcome)
      modifies this
      ensures var r := Lens.UpdateLens(old(colLens), cols, measure);
        && (r.Ok? ==> outcome == Pass && colLens == r.value)
        && (r.Err? ==> outcome == Fail(r.error) && colLens == old(colLens))
      ensures output == old(output)
    {
      var r := Lens.UpdateLens(colLens, cols, measure);
      if r.Err? {
        return Fail(r.error);
      }
      colLens := r.value;
      outcome := Pass;
    }

    /** Render a row against the current widths and write it as one line. */
    method OnlyPrint(cols: seq<string>) returns (outcome: Outcome)
      modifies this
      ensures var r := RenderLine(measure, delimiter, cols, old(colLens));
        && (r.Ok? ==> outcome == Pass && output == old(output) + [r.value])
        && (r.Err? ==> outcome == Fail(r.error) && output == old(output))
      ensures colLens == old(colLens)
    {
      var line := BuildLine(measure, delimiter, cols, colLens);
      if line.Err? {
        return Fail(line.error);
      }
      output := output + [line.value];
      outcome := Pass;
    }

    method Print(cols: seq<string>) returns (outcome: Outcome)
      modifies this
      ensures var step := PrintStep(measure, delimiter, old(colLens), cols);
        colLens == step.colLens && output == old(output) + step.emitted && outcome == step.outcome
    {
      outcome := UpdateLens(cols);
      if outcome.Fail? {
        return;
      }
      outcome := OnlyPrint(cols);
    }

    method PrintHeader(cols: seq<string>, headerSeparator: string := "=") returns (outcome: Outcome)
      modifies this
      ensures var step := HeaderStep(measure, delimiter, old(colLens), cols, headerSeparator);
        colLens == step.colLens && output == old(output) + step.emitted && outcome == step.outcome
    {
      var sepRow := SeparatorRow(headerSeparator, cols);
      ghost var first := PrintStep(measure, delimiter, colLens, cols);
      outcome := Print(cols);
      if outcome.Fail? {
        return;
      }
      assert colLens == first.colLens;
      outcome := Print(sepRow);
    }

    method Reset()
      modifies this
      ensures colLens == [] && output == old(output)
    {
      colLens := [];
    }
  }

  /** A reset table prints a row exactly as a fresh one with the same
      configuration does. */
  method ResetMatchesFresh(t: ATable, eaw: char -> Category, cols: seq<string>)
    requires t.measure == Measure(t.asianChars, eaw)
    modifies t
    ensures old(t.output) <= t.output
    ensures t.output[|old(t.output)|..] == PrintStep(t.measure, t.delimiter, [], cols).emitted
  {
    t.Reset();
    var newTable := new ATable(eaw, t.delimiter, t.asianChars);
    var before := |t.output|;
    var a := t.Print(cols);
    var b := newTable.Print(cols);
    assert t.output[before..] == newTable.output;
  }

  /** The state of the sliding-window table: the widths used for rendering,
      the shadow widths of the rows since the last boundary, and the number
      of prints so far. */
  datatype SlidingState = SlidingState(colLens: seq<nat>, slidingLens: seq<nat>, printCounter: nat)

  function Abs(x: int): nat {
    if x < 0 then -x else x
  }

  /** `print_counter % reset_window == 0`: the counter has reached a multiple
      of the window (for either sign of the window, as in Python). The first
      boundary after the start is at the window's size. */
  predicate IsBoundary(counter: nat, resetWindow: int)
    requires resetWindow != 0
    ensures counter == 0 || counter == Abs(resetWindow) ==> IsBoundary(counter, resetWindow)
    ensures 0 < counter < Abs(resetWindow) ==> !IsBoundary(counter, resetWindow)
  {
    counter % resetWindow == 0
  }

  /** Boundaries recur every `|reset_window|` prints. */
  lemma BoundaryPeriodic(counter: nat, resetWindow: int)
    requires resetWindow != 0
    ensures IsBoundary(counter + Abs(resetWindow), resetWindow) <==> IsBoundary(counter, resetWindow)
  {
    var w := Abs(resetWindow);
    if resetWindow < 0 {
      DivMod(counter, w, -(counter / resetWindow), counter % resetWindow);
      DivMod(counter + w, w, -((counter + w) / resetWindow), (counter + w) % resetWindow);
    }
    DivMod(counter + w, w, counter / w + 1, counter % w);
  }

  datatype SlidingStep = SlidingStep(state: SlidingState, emitted: seq<string>, outcome: Outcome)

  /** `SlidingResetATable.print`: the base print, with the overridden width
      update folding the row into both width vectors; then the counter
      advances, and at every `resetWindow`-th print the shadow widths replace
      the rendering widths and start over. A zero window raises
      `ZeroDivisionError` after the line has been written. */
  function SlidingPrintStep(m: Measure, delimiter: string, resetWindow: int, s: SlidingState, cols: seq<string>): (r: SlidingStep)
    ensures |r.emitted| <= 1
    ensures r.state.printCounter == s.printCounter + |r.emitted|
    ensures r.emitted == [] ==> r.outcome == Fail(KeyError(H))
    ensures r.outcome == Fail(ZeroDivisionError) <==> r.emitted != [] && resetWindow == 0
  {
    match Lens.UpdateLens(s.colLens, cols, m)
    case Err(e) => SlidingStep(s, [], Fail(e))
    case Ok(newLens) =>
      match Lens.UpdateLens(s.slidingLens, cols, m)
      case Err(e) => SlidingStep(s.(colLens := newLens), [], Fail(e))
      case Ok(newSliding) =>
        match RenderLine(m, delimiter, cols, newLens)
        case Err(e) => SlidingStep(s.(colLens := newLens, slidingLens := newSliding), [], Fail(e))
        case Ok(line) =>
          var counter := s.printCounter + 1;
          if resetWindow == 0 then
            SlidingStep(SlidingState(newLens, newSliding, counter), [line], Fail(ZeroDivisionError))
          else if IsBoundary(counter, resetWindow) then
            SlidingStep(SlidingState(newSliding, [], counter), [line], Pass)
          else
            SlidingStep(SlidingState(newLens, newSliding, counter), [line], Pass)
  }

  /** Every sliding print renders exactly as the base print would against the
      same widths; away from a boundary both width vectors have absorbed the
      row, and at a boundary the rendering widths become the shadow widths
      with the row absorbed, and the shadow widths start over. A row that
      cannot be measured changes nothing. */
  lemma SlidingPrintAbsorbs(m: Measure, delimiter: string, resetWindow: int, s: SlidingState, cols: seq<string>)
    ensures Measured(m, cols).Err? ==>
      SlidingPrintStep(m, delimiter, resetWindow, s, cols) == SlidingStep(s, [], Fail(KeyError(H)))
    ensures Measured(m, cols).Ok? ==>
      var step := SlidingPrintStep(m, delimiter, resetWindow, s, cols);
      var base := PrintStep(m, delimiter, s.colLens, cols);
      var absorbed := Lens.UpdateLens(s.slidingLens, cols, m).value;
      var counter := s.printCounter + 1;
      && base.outcome == Pass
      && step.emitted == base.emitted
      && (resetWindow == 0 ==>
            step == SlidingStep(SlidingState(base.colLens, absorbed, counter), base.emitted, Fail(ZeroDivisionError)))
      && (resetWindow != 0 && IsBoundary(counter, resetWindow) ==>
            step == SlidingStep(SlidingState(absorbed, [], counter), base.emitted, Pass))
      && (resetWindow != 0 && !IsBoundary(counter, resetWindow) ==>
            step == SlidingStep(SlidingState(base.colLens, absorbed, counter), base.emitted, Pass))
  {
    PrintFailsOnlyWhenMeasuring(m, delimiter, s.colLens, cols);
  }

  /** The rendering widths always cover the shadow widths (as long as no
      `reset` intervenes): both absorb the same rows, and at a boundary the
      shadow widths are what the rendering widths become. */
  lemma SlidingKeepsCover(m: Measure, delimiter: string, resetWindow: int, s: SlidingState, cols: seq<string>)
    requires Dominates(s.colLens, s.slidingLens)
    ensures var step := SlidingPrintStep(m, delimiter, resetWindow, s, cols);
      Dominates(step.state.colLens, step.state.slidingLens)
  {
    if Measured(m, cols).Ok? {
      var w := Measured(m, cols).value;
      MergeIsLeastUpperBound(s.colLens, w, Merge(s.colLens, w));
      MergeIsLeastUpperBound(s.slidingLens, w, Merge(s.colLens, w));
      DominatesTransitive(Merge(s.colLens, w), s.colLens, s.slidingLens);
    }
  }

  lemma SlidingFirstPrint()
    ensures SlidingPrintStep(Measure(true, AllNarrow()), "  ", 2, SlidingState([], [], 0), ["a", "b"])
         == SlidingStep(SlidingState([1, 1], [1, 1], 1), ["a  b"], Pass)
  {
    var m := Measure(true, AllNarrow());
    NarrowTextWidth(AllNarrow(), "a");
    NarrowTextWidth(AllNarrow(), "b");
    assert Measured(m, ["a", "b"]).value == [1, 1];
    assert Merge([], [1, 1]) == [1, 1];
    assert JustifiedParts(m, ["a", "b"], [1, 1]).value == ["a", "b"];
    assert Join("  ", ["a", "b"]) == "a  b" by { assert ["a", "b"][1..] == ["b"]; }
  }

  lemma SlidingSecondPrint()
    ensures SlidingPrintStep(Measure(true, AllNarrow()), "  ", 2, SlidingState([1, 1], [1, 1], 1), ["aaaaa", "bbbbb"])
         == SlidingStep(SlidingState([5, 5], [], 2), ["aaaaa  bbbbb"], Pass)
  {
    var m := Measure(true, AllNarrow());
    NarrowTextWidth(AllNarrow(), "aaaaa");
    NarrowTextWidth(AllNarrow(), "bbbbb");
    assert Measured(m, ["aaaaa", "bbbbb"]).value == [5, 5];
    assert Merge([1, 1], [5, 5]) == [5, 5];
    assert JustifiedParts(m, ["aaaaa", "bbbbb"], [5, 5]).value == ["aaaaa", "bbbbb"];
    assert Join("  ", ["aaaaa", "bbbbb"]) == "aaaaa  bbbbb" by { assert ["aaaaa", "bbbbb"][1..] == ["bbbbb"]; }
  }

  lemma SlidingThirdPrint()
    ensures SlidingPrintStep(Measure(true, AllNarrow()), "  ", 2, SlidingState([5, 5], [], 2), ["a", "b"])
         == SlidingStep(SlidingState([5, 5], [1, 1], 3), ["a    " + "  " + "b    "], Pass)
  {
    var m := Measure(true, AllNarrow());
    NarrowTextWidth(AllNarrow(), "a");
    NarrowTextWidth(AllNarrow(), "b");
    assert Measured(m, ["a", "b"]).value == [1, 1];
    assert Merge([5, 5], [1, 1]) == [5, 5];
    assert Merge([], [1, 1]) == [1, 1];
    assert Justify(m, "a", 5).value == "a    ";
    assert Justify(m, "b", 5).value == "b    ";
    assert JustifiedParts(m, ["a", "b"], [5, 5]).value == ["a    ", "b    "];
    assert Join("  ", ["a    ", "b    "]) == "a    " + "  " + "b    " by {
      assert ["a    ", "b    "][1..] == ["b    "];
    }
  }

  /** The inherited `reset` does not last on the sliding table: a reset just
      before a boundary is undone by it, because the shadow widths that take
      over still hold the rows printed before the reset. */
  lemma SlidingResetUndoneAtBoundary()
    ensures SlidingPrintStep(Measure(true, AllNarrow()), "  ", 2, SlidingState([], [5, 5], 1), ["a", "b"]).state
         == SlidingState([5, 5], [], 2)
  {
    var m := Measure(true, AllNarrow());
    NarrowTextWidth(AllNarrow(), "a");
    NarrowTextWidth(AllNarrow(), "b");
    assert Measured(m, ["a", "b"]).value == [1, 1];
    assert Merge([], [1, 1]) == [1, 1];
    assert Merge([5, 5], [1, 1]) == [5, 5];
  }

  /** With a window of two, rows of widths [1, 1], [5, 5], [1, 1]: at the
      second print the shadow widths of the first two rows take over, so the
      narrow third row renders at [5, 5], not [1, 1]. */
  lemma SlidingWindowExample()
    ensures var m := Measure(true, AllNarrow());
      var p1 := SlidingPrintStep(m, "  ", 2, SlidingState([], [], 0), ["a", "b"]);
      var p2 := SlidingPrintStep(m, "  ", 2, p1.state, ["aaaaa", "bbbbb"]);
      var p3 := SlidingPrintStep(m, "  ", 2, p2.state, ["a", "b"]);
      && p2.state == SlidingState([5, 5], [], 2)
      && p3.emitted == ["a    " + "  " + "b    "]
      && p3.state == SlidingState([5, 5], [1, 1], 3)
  {
    SlidingFirstPrint();
    SlidingSecondPrint();
    SlidingThirdPrint();
  }

  /** The sliding-window variant. Written without inheritance: it holds the
      base table's state and its own, and its width update and print stand
      in for the overridden ones. */
  class SlidingResetATable {
    var colLens: seq<nat>
    const delimiter: string
    const asianChars: bool
    const measure: Measure
    var output: seq<string>
    const resetWindow: int
    var printCounter: nat
    var slidingLens: seq<nat>

    constructor(eaw: char -> Category, delimiter: string := "  ", asianChars: bool := true, resetWindow: int := 100)
      ensures colLens == [] && slidingLens == [] && printCounter == 0 && output == []
      ensures this.delimiter == delimiter && this.asianChars == asianChars && this.resetWindow == resetWindow
      ensures measure == Measure(asianChars, eaw)
    {
      colLens := [];
      this.delimiter := delimiter;
      this.asianChars := asianChars;
      measure := Measure(asianChars, eaw);
      output := [];
      this.resetWindow := resetWindow;
      printCounter := 0;
      slidingLens := [];
    }

    function State(): SlidingState
      reads this
    {
      SlidingState(colLens, slidingLens, printCounter)
    }

    /** The overriding width update: the base update, then the same row folded
        into the shadow widths. */
    method UpdateLens(cols: seq<string>) returns (outcome: Outcome)
      modifies this
      ensures var r := Lens.UpdateLens(old(colLens), cols, measure);
        var q := Lens.UpdateLens(old(slidingLens), cols, measure);
        && (r.Err? ==> outcome == Fail(r.error) && colLens == old(colLens) && slidingLens == old(slidingLens))
        && (r.Ok? ==> q.Ok? && outcome == Pass && colLens == r.value && slidingLens == q.value)
      ensures output == old(output) && printCounter == old(printCounter)
    {
      var r := Lens.UpdateLens(colLens, cols, measure);
      if r.Err? {
        return Fail(r.error);
      }
      colLens := r.value;
      // The row has just been measured, so measuring it again succeeds.
      var q := Lens.UpdateLens(slidingLens, cols, measure);
      slidingLens := q.value;
      outcome := Pass;
    }

    method OnlyPrint(cols: seq<string>) returns (outcome: Outcome)
      modifies this
      ensures var r := RenderLine(measure, delimiter, cols, old(colLens));
        && (r.Ok? ==> outcome == Pass && output == old(output) + [r.value])
        && (r.Err? ==> outcome == Fail(r.error) && output == old(output))
      ensures State() == old(State())
    {
      var line := BuildLine(measure, delimiter, cols, colLens);
      if line.Err? {
        return Fail(line.error);
      }
      output := output + [line.value];
      outcome := Pass;
    }

    method Print(cols: seq<string>) returns (outcome: Outcome)
      modifies this
      ensures var step := SlidingPrintStep(measure, delimiter, resetWindow, old(State()), cols);
        State() == step.state && output == old(output) + step.emitted && outcome == step.outcome
    {
      ghost var before := State();
      outcome := UpdateLens(cols);
      if outcome.Fail? {
        return;
      }
      assert Lens.UpdateLens(before.colLens, cols, measure) == Ok(colLens);
      assert Lens.UpdateLens(before.slidingLens, cols, measure) == Ok(slidingLens);
      outcome := OnlyPrint(cols);
      if outcome.Fail? {
        return;
      }
      ghost var step := SlidingPrintStep(measure, delimiter, resetWindow, before, cols);
      assert step.emitted == [RenderLine(measure, delimiter, cols, colLens).value];
      printCounter := printCounter + 1;
      if resetWindow == 0 {
        return Fail(ZeroDivisionError);
      }
      if IsBoundary(printCounter, resetWindow) {
        colLens := slidingLens;
        slidingLens := [];
      }
    }

    /** The inherited `print_header`, whose two prints are sliding prints. */
    method PrintHeader(cols: seq<string>, headerSeparator: string := "=") returns (outcome: Outcome)
      modifies this
      ensures var sepRow := SeparatorRow(headerSeparator, cols);
        var first := SlidingPrintStep(measure, delimiter, resetWindow, old(State()), cols);
        var second := SlidingPrintStep(measure, delimiter, resetWindow, first.state, sepRow);
        && (first.outcome.Fail? ==> State() == first.state && output == old(output) + first.emitted && outcome == first.outcome)
        && (first.outcome.Pass? ==>
              State() == second.state && output == old(output) + first.emitted + second.emitted && outcome == second.outcome)
    {
      var sepRow := SeparatorRow(headerSeparator, cols);
      outcome := Print(cols);
      if outcome.Fail? {
        return;
      }
      outcome := Print(sepRow);
    }

    /** The inherited `reset`: only the rendering widths are cleared; the
        shadow widths and the counter carry on. */
    method Reset()
      modifies this
      ensures colLens == [] && slidingLens == old(slidingLens) && printCounter == old(printCounter)
      ensures output == old(output)
    {
      colLens := [];
    }
  }
}
