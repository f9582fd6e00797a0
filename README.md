# Adaptive-width table printer

A model of a small console table printer. The table does not know its
column widths in advance. It keeps, per column, the largest width seen so
far, and each row is left-justified against those widths as it arrives. It
measures text either by character count or by display width. Display width
follows the Unicode East Asian Width property: wide and fullwidth characters
take two terminal cells, narrow, neutral and ambiguous ones take one.

Two implementations are modelled:

- `atable.py`: the module-level width update `update_lens`, the text
  metrics `visual_len` and `fw_ljust`, the class `ATable`, and its
  sliding-window variant `SlidingResetATable`. The variant keeps a second
  set of widths for the rows since the last boundary. Every
  `reset_window`-th print, those widths replace the rendering widths.
- `atable_jisho.py`: the same `ATable`, with the width update written
  inline and the length and padding functions chosen at every call.

The Dafny modules:

- `Metrics` (metrics.dfy) holds the East Asian Width categories, the
  character width table, `visual_len`, `fw_ljust` and `str.ljust`. It also
  holds the length and padding functions a table selects with `asian_chars`.
  A Python exception is modelled as a `Result` or `Outcome` value.
- `Lens` (lens.dfy) is `update_lens`: `zip_longest` with fill 0, then the
  element-wise maximum. Its lemmas state the algebra of this merge.
- `Render` (render.dfy) is the loop of `only_print`, which justifies each
  column and joins the parts.
- `Atable` (atable.dfy) holds both classes of atable.py. Each is specified
  by a step function over its state: `PrintStep`, `HeaderStep` and
  `SlidingPrintStep`.
- `AtableJisho` (atable_jisho.dfy) holds the class of atable_jisho.py, and a
  trace of client calls used to state what holds across many of them.

Standard output is the field `output`, the lines written so far, oldest
first. The Unicode lookup `unicodedata.east_asian_width` is the parameter
`eaw`.

## Model

| member | source | states |
|---|---|---|
| Metrics.CharWidth | atable.py:89-90 | A character's width is found exactly when its category is not Halfwidth. It is 2 for W and F and 1 for Na, N and A. Otherwise the lookup fails with `KeyError` on `H`. |
| Metrics.VisualLen | atable.py:88-90 | `visual_len` succeeds exactly when no character is Halfwidth, and otherwise raises `KeyError`. On success, `len(text) <= visual_len(text) <= 2*len(text)`. |
| Metrics.VisualLenAppend | atable.py:88-90 | The display width of a concatenation is the sum of the two widths. |
| Metrics.NarrowTextWidth | atable.py:89-90 | Text made only of Na, N and A characters has display width equal to its length. |
| Metrics.WideTextWidth | atable.py:89-90 | Text made only of W and F characters has display width twice its length. |
| Metrics.VisualLenSpaces | atable.py:89-90 | `n` spaces are `n` cells wide. The space is narrow. |
| Metrics.FwLjust | atable.py:93-97 | `fw_ljust` fails exactly when `visual_len` does. It never truncates: the text is a prefix of the result and the rest is spaces. The text is returned unchanged exactly when its width is at least the target. Otherwise exactly `width - visual_len(text)` spaces are added. |
| Metrics.FwLjustWidth | atable.py:93-97 | The result of `fw_ljust` is exactly `max(visual_len(text), width)` cells wide. |
| Metrics.WidthAwarePadding | atable.py:88-97 | Three wide characters are 6 cells, and padding them to 6 adds nothing. Three narrow ones padded to 6 get exactly three spaces. |
| Metrics.Ljust | atable.py:37 | `str.ljust` never truncates: the text is a prefix of the result and the rest is spaces. The length is `max(len(text), width)`. |
| Metrics.DisplayLen | atable.py:35 | Without `asian_chars` the length is the character count and cannot fail. With it, only `KeyError` can occur, and the width lies between the count and twice the count. |
| Metrics.Justify | atable.py:36-38 | The selected padding fails exactly when the selected length does. It never truncates, pads only with spaces, and leaves the text unchanged exactly when it is already at least `width` wide. |
| Metrics.JustifyWidth | atable.py:35-38 | A justified column is exactly `max(own width, width)` wide, in the table's own unit. |
| Lens.ZipLongest | atable.py:23 | `zip_longest(..., fillvalue=0)` is as long as the longer input. Pair `i` holds the two entries at `i`, with 0 for a missing one. |
| Lens.MaxEach | atable.py:24 | `[max(zp) for zp in zips]` has one entry per pair. Each entry is one of the pair's two values and at least as large as both. |
| Lens.Merge | atable.py:23-24 | The merged widths are as long as the longer input. Entry `i` is the maximum of the two entries, with 0 where one is missing. |
| Lens.Measured | atable.py:22 | `[len_fn(col) for col in cols]` fails exactly when some column cannot be measured, and then with `KeyError`. Otherwise it has one width per column, each that column's width. |
| Lens.UpdateLens | atable.py:21-24 | `update_lens` fails exactly when a column cannot be measured. Its result has length `max(len(old_lens), len(cols))`. Entry `i` is `max(old_lens[i] or 0, len_fn(cols[i]) or 0)`. |
| Lens.MergeIsLeastUpperBound | atable.py:23-24 | The merge is at least as long and as wide as both inputs. It is the smallest such vector. |
| Lens.MergeCommutes | atable.py:23-24 | The order of the two width vectors does not matter. |
| Lens.MergeAssociates | atable.py:23-24 | Folding rows in one at a time does not depend on grouping. |
| Lens.MergeEmpty | atable.py:23-24 | The empty width list changes nothing under the merge. |
| Lens.MergeAbsorbs | atable.py:23-24 | Merging widths that are already covered leaves the widths as they are. |
| Lens.UpdateLensCovers | atable.py:21-24 | The updated widths cover both the old widths and the row's own widths. No width decreases. |
| Lens.UpdateLensIdempotent | atable.py:21-24 | Recording the same row twice gives the same widths as recording it once. |
| Lens.UpdateLensFromEmpty | atable.py:21-24 | From no widths, the widths are exactly the row's own. |
| Render.JustifiedParts | atable.py:44-46 | The parts built over `zip(cols, col_lens)` number `min(len(cols), len(col_lens))`. Part `i` is column `i` justified to `col_lens[i]`. Building them fails exactly when a paired column cannot be measured. |
| Render.Join | atable.py:47 | `delimiter.join(parts)` begins with the first part. Its length is the sum of the part lengths plus one delimiter between each two neighbours. |
| Render.RenderLine | atable.py:43-47 | The line is produced exactly when every part can be built. Otherwise the error is `KeyError`. |
| Render.BuildLine | atable.py:43-47 | The loop that appends each justified column to `parts` and then joins them yields exactly the rendered line, or the error of the first column that cannot be padded. |
| Atable.PrintStep | atable.py:49-54 | `print` updates the widths, then renders the same row against them. A measuring error leaves the widths as they were. A successful print writes exactly one line, and a failing one writes nothing and raises `KeyError`. |
| Atable.HeaderStep | atable.py:56-61 | `print_header` prints the header row, then the separator row. A failure in the first print skips the second. A successful call writes exactly two lines, and a failing one at most one, always with `KeyError`. |
| Atable.HeaderPassesWhenMeasurable | atable.py:56-61 | `print_header` ends normally exactly when both the header row and its separator row can be measured. It then writes the header line against the widths after the header, then the separator line against the final widths, and the final widths still cover the header's own. |
| Atable.SeparatorRow | atable.py:59 | The separator row has one column per header column. Column `i` is `header_separator` repeated `len(cols[i])` times: character `k` is separator character `k % len(header_separator)`. With a one-character separator, column `i` has exactly `len(cols[i])` characters. |
| Atable.Repeat | atable.py:59 | Character `k` of `s * n` is character `k % len(s)` of `s`. A one-character string times `n` is `n` copies of that character. |
| Atable.RepeatLength | atable.py:59 | `s * n` has `len(s) * n` characters. |
| Atable.PrintFailsOnlyWhenMeasuring | atable.py:49-54 | `print` ends normally exactly when every column can be measured. Once the widths are recorded, rendering the same row cannot fail. A failing print raises `KeyError` and changes neither the widths nor the output. |
| Atable.PrintCoversOwnRow | atable.py:43-54 | A successful print writes one line, the join of one part per column, so all `len(cols)` columns are emitted. Each part begins with its column and is exactly its column's new width wide. That width covers the column's own width, so no column is truncated. |
| Atable.PrintWidthsGrow | atable.py:40-41 | No width decreases and the width list does not get shorter across a print, whether it succeeds or not. |
| Atable.PrintAfterReset | atable.py:63-64 | After `reset`, a print records exactly the row's own widths. |
| Atable.SeparatorCountsCharacters | atable.py:56-61 | The separator counts characters, not cells: a header `東`, 2 cells wide, gets a separator `=` one character long. |
| Atable.FirstRowExample | atable.py:49-54 | On a fresh table with delimiter `" "`, printing `ab`, `c` records widths [2, 1] and writes `ab c`. |
| Atable.SecondRowExample | atable.py:49-54 | Printing `a`, `cde` next grows the widths to [2, 3] and writes `a  cde`. |
| Atable.ATable.constructor | atable.py:29-38 | A new table has no widths and has written nothing. The default delimiter is two spaces and `asian_chars` defaults to true. |
| Atable.ATable.UpdateLens | atable.py:40-41 | The widths become `update_lens(col_lens, *cols)`. On `KeyError` they stay as they were. Nothing is written. |
| Atable.ATable.OnlyPrint | atable.py:43-47 | Exactly one line is appended, the rendered row, or nothing on `KeyError`. The widths are unchanged. |
| Atable.ATable.Print | atable.py:49-54 | The widths, the lines written and the outcome are those of `PrintStep`: update, then render the same row. |
| Atable.ATable.PrintHeader | atable.py:56-61 | The header row is printed, then the separator row, as `HeaderStep` states. A failure in the first print skips the second. |
| Atable.ATable.Reset | atable.py:63-64 | The widths become empty. Nothing else changes. |
| Atable.ResetMatchesFresh | atable.py:63-64 | After `reset`, a print writes exactly what a fresh table's first print writes. |
| Atable.IsBoundary | atable.py:78 | `print_counter % reset_window == 0`, for either sign of the window. Counter 0 and the window's size are boundaries, and no counter strictly between them is. |
| Atable.BoundaryPeriodic | atable.py:78 | Boundaries recur every `abs(reset_window)` prints. |
| Atable.SlidingPrintStep | atable.py:74-84 | A sliding print writes at most one line, and the counter advances exactly when a line is written. Writing nothing means `KeyError`. `ZeroDivisionError` is raised exactly when a line was written and the window is 0. |
| Atable.SlidingPrintAbsorbs | atable.py:74-84 | A sliding print writes what the base print writes, and both width lists absorb the row. After the counter increments, if `print_counter % reset_window == 0` the rendering widths become the shadow widths and the shadow widths become empty. A zero window raises `ZeroDivisionError` after the line is written. An unmeasurable row changes nothing. |
| Atable.SlidingKeepsCover | atable.py:74-84 | A sliding print keeps the rendering widths covering the shadow widths. The inherited `reset` breaks this. |
| Atable.SlidingResetUndoneAtBoundary | atable.py:63-84 | A `reset` just before a boundary does not last. With window 2, after a reset at counter 1 with shadow widths [5, 5], the next print brings the widths back to [5, 5]. |
| Atable.SlidingFirstPrint | atable.py:74-84 | With window 2, the first row `a`, `b` leaves widths [1, 1] and shadow [1, 1], and the counter at 1. |
| Atable.SlidingSecondPrint | atable.py:74-84 | The second row, 5 cells per column, reaches the boundary. The widths become [5, 5] and the shadow is emptied. |
| Atable.SlidingThirdPrint | atable.py:74-84 | The narrow third row renders at [5, 5], not [1, 1], and starts a new shadow [1, 1]. |
| Atable.SlidingWindowExample | atable.py:74-84 | With window 2 and rows of widths [1, 1], [5, 5], [1, 1], the third row renders at [5, 5]. |
| Atable.SlidingResetATable.constructor | atable.py:68-72 | A new sliding table has no widths, no shadow widths, a counter of 0, and `reset_window` 100 by default. |
| Atable.SlidingResetATable.UpdateLens | atable.py:82-84 | The base update is applied, then the same row is folded into the shadow widths. On `KeyError` neither list changes. |
| Atable.SlidingResetATable.OnlyPrint | atable.py:43-47 | The inherited `only_print` appends the rendered row. The widths, shadow widths and counter are unchanged. |
| Atable.SlidingResetATable.Print | atable.py:74-80 | The new state, the lines written and the outcome are those of `SlidingPrintStep`. |
| Atable.SlidingResetATable.PrintHeader | atable.py:56-61 | The inherited `print_header` makes two sliding prints, header and then separator. A failure in the first skips the second. |
| Atable.SlidingResetATable.Reset | atable.py:63-64 | The inherited `reset` clears only the rendering widths. The shadow widths and the counter carry on. |
| AtableJisho.ATable.constructor | atable_jisho.py:24-27 | A new table has no widths and has written nothing. The default delimiter is one space. |
| AtableJisho.ATable.UpdateLens | atable_jisho.py:29-33 | The inline update leaves exactly the widths of `update_lens`. On `KeyError` the widths stay as they were. |
| AtableJisho.ATable.OnlyPrint | atable_jisho.py:35-40 | The loop choosing `fw_ljust` or `str.ljust` per column appends exactly the rendered row. The widths are unchanged. |
| AtableJisho.ATable.Print | atable_jisho.py:42-47 | The widths, the lines written and the outcome are those of `PrintStep`. |
| AtableJisho.ATable.PrintHeader | atable_jisho.py:49-54 | Header row, then separator row, as `HeaderStep` states. |
| AtableJisho.ATable.Reset | atable_jisho.py:56-57 | The widths become empty. Nothing else changes. |
| AtableJisho.WidthsNeverShrinkWithoutReset | atable_jisho.py:29-33 | Over any series of prints with no reset, no width decreases and the width list does not get shorter. |
| AtableJisho.ResetForgetsHistory | atable_jisho.py:56-57 | Calls before a `reset` have no effect on what happens after it. The final widths and the lines written after the reset are those of a fresh table given the same calls. |

## Left out

- Console output: `print(...)` to standard output is modelled as appending the line to the field `output`.
- Dataclass rows and headers: the expansion through `is_dataclass`, `astuple` and `fields` is not modelled. A row is a sequence of strings and a header a sequence of names.
- `str(col)` conversion: columns are taken to be strings already.
- `unicodedata.east_asian_width` is not part of this model. It is the parameter `eaw`, mapping every character to one of the six categories.
- The `jstring` module imported by atable_jisho.py is not part of this model. Its `visual_len` and `fw_ljust` are taken to be those of atable.py.
- `max_row_lenght` is accepted by both constructors and never used, so it has no counterpart.
- `SlidingResetATable.__init__` passes `self` again as the first positional argument (atable.py:69). The caller's positional arguments therefore shift by one: the first becomes the delimiter. The model's constructor takes its arguments by name and does not reproduce the shift.
- `reset` on `SlidingResetATable` clears only the rendering widths (atable.py:63-64). The shadow widths keep the rows from before the reset, so the next window boundary brings those widths back. The model reproduces this as written.
- Inheritance: `SlidingResetATable` is written as a class of its own. It holds the base table's fields and repeats the inherited `only_print`, `print_header` and `reset`, with its own `update_lens` and `print` in place of the overridden ones.
- Metrics.JustifyWidth: requires that the space character is narrow, as Unicode classifies it. Otherwise padding would not add one cell per space.
- Metrics.FwLjustWidth: requires that the space character is narrow, for the same reason.
- Atable.PrintCoversOwnRow: requires that the space character is narrow, for the same reason.
- The TODO lists (atable.py:9-18, atable_jisho.py:10-19) describe no behaviour.
- Concurrency: there is none.
- The model follows the code in these places:
  - The default delimiter is two spaces in atable.py and one space in atable_jisho.py.
  - A character of an unmapped category raises `KeyError`. It is never counted as one cell.
  - `only_print` pairs columns with widths through `zip`, so a column beyond the widths is dropped, not written unjustified. After the update in `print` this cannot happen.
  - `reset_window` is not checked. A zero window raises `ZeroDivisionError` after the line is written.
  - The sliding table folds the row into its shadow widths inside the overridden `update_lens`, before the line is rendered. Rendering reads only the rendering widths, so the lines written are the same as when folding after the print.
