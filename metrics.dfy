/** Text metrics of the adaptive table: display width of a string under the
    Unicode East Asian Width property, and left-justification to a width,
    either by display width or by character count. */
module Metrics {

  /** The values of the Unicode East Asian Width property (UAX #11). */
  datatype Category = F | H | W | Na | A | N

  /** The exceptions the table can raise. */
  datatype Error =
    | KeyError(key: Category)  // a character whose category has no cell width
    | ZeroDivisionError        // a sliding window of size zero

  datatype Result<T> = Ok(value: T) | Err(error: Error)

  /** What a printing call ends with: normally, or with an exception. */
  datatype Outcome = Pass | Fail(error: Error)

  /** Cells per category. Halfwidth (`H`) has no entry, so looking it up fails. */
  const WidthMap: map<Category, nat> := map[W := 2, Na := 1, N := 1, F := 2, A := 1]

  function Max(a: int, b: int): int { if a >= b then a else b }

  function Min(a: int, b: int): int { if a <= b then a else b }

  /** `n` space characters. */
  function Spaces(n: nat): (r: string)
    ensures |r| == n
    ensures forall i :: 0 <= i < n ==> r[i] == ' '
  {
    seq(n, _ => ' ')
  }

  predicate AllSpaces(s: string) {
    forall i :: 0 <= i < |s| ==> s[i] == ' '
  }

  /** The cell width of one character, looked up through its category. */
  function CharWidth(eaw: char -> Category, c: char): (r: Result<nat>)
    ensures r.Ok? <==> eaw(c) != H
    ensures r.Ok? ==> r.value == (if eaw(c) == W || eaw(c) == F then 2 else 1)
    ensures r.Err? ==> r.error == KeyError(H)
  {
    var key := eaw(c);
    assert key in WidthMap <==> key != H by {
      assert key.F? || key.H? || key.W? || key.Na? || key.A? || key.N?;
    }
    if key in WidthMap then Ok(WidthMap[key]) else Err(KeyError(key))
  }

  /** `visual_len`: the sum of the characters' cell widths, taken from the
      front; the first character without a width raises `KeyError`. */
  function VisualLen(eaw: char -> Category, text: string): (r: Result<nat>)
    ensures r.Ok? <==> forall i :: 0 <= i < |text| ==> eaw(text[i]) != H
    ensures r.Err? ==> r.error == KeyError(H)
    ensures r.Ok? ==> |text| <= r.value <= 2 * |text|
  {
    if text == [] then Ok(0)
    else
      match CharWidth(eaw, text[0])
      case Err(e) => Err(e)
      case Ok(w) =>
        var rest := VisualLen(eaw, text[1..]);
        assert rest.Ok? <==> forall i :: 1 <= i < |text| ==> eaw(text[i]) != H by {
          assert forall i :: 1 <= i < |text| ==> text[i] == text[1..][i - 1];
        }
        match rest
        case Err(e) => Err(e)
        case Ok(v) => Ok(w + v)
  }

  /** Display width is additive over concatenation. */
  lemma {:induction false} VisualLenAppend(eaw: char -> Category, a: string, b: string)
    requires VisualLen(eaw, a).Ok? && VisualLen(eaw, b).Ok?
    ensures VisualLen(eaw, a + b) == Ok(VisualLen(eaw, a).value + VisualLen(eaw, b).value)
  {
    if a == [] {
      assert a + b == b;
    } else {
      assert (a + b)[1..] == a[1..] + b;
      VisualLenAppend(eaw, a[1..], b);
    }
  }

  /** Text made only of narrow characters is one cell per character. */
  lemma {:induction false} NarrowTextWidth(eaw: char -> Category, text: string)
    requires forall i :: 0 <= i < |text| ==> eaw(text[i]) in {Na, N, A}
    ensures VisualLen(eaw, text) == Ok(|text|)
  {
    if text != [] {
      assert forall i :: 0 <= i < |text| - 1 ==> text[1..][i] == text[i + 1];
      NarrowTextWidth(eaw, text[1..]);
    }
  }

  /** Text made only of wide characters is two cells per character. */
  lemma {:induction false} WideTextWidth(eaw: char -> Category, text: string)
    requires forall i :: 0 <= i < |text| ==> eaw(text[i]) in {W, F}
    ensures VisualLen(eaw, text) == Ok(2 * |text|)
  {
    if text != [] {
      assert forall i :: 0 <= i < |text| - 1 ==> text[1..][i] == text[i + 1];
      WideTextWidth(eaw, text[1..]);
    }
  }

  /** With the space character narrow, as Unicode classifies it, `n` spaces
      are `n` cells wide. */
  lemma VisualLenSpaces(eaw: char -> Category, n: nat)
    requires eaw(' ') == Na
    ensures VisualLen(eaw, Spaces(n)) == Ok(n)
  {
    NarrowTextWidth(eaw, Spaces(n));
  }

  /** `fw_ljust`: pad with spaces up to `width` display cells, never truncate. */
  function FwLjust(eaw: char -> Category, text: string, width: nat): (r: Result<string>)
    ensures r.Ok? <==> VisualLen(eaw, text).Ok?
    ensures r.Err? ==> r.error == KeyError(H)
    ensures r.Ok? ==> text <= r.value && AllSpaces(r.value[|text|..])
    ensures r.Ok? ==> (r.value == text <==> VisualLen(eaw, text).value >= width)
    ensures r.Ok? ==> |r.value| == |text| + Max(0, width - VisualLen(eaw, text).value)
  {
    match VisualLen(eaw, text)
    case Err(e) => Err(e)
    case Ok(vlen) =>
      if vlen >= width then Ok(text) else Ok(text + Spaces(width - vlen))
  }

  /** A string that `fw_ljust` has padded is exactly `width` cells wide; one
      already wider keeps its own width. */
  lemma FwLjustWidth(eaw: char -> Category, text: string, width: nat)
    requires eaw(' ') == Na
    requires VisualLen(eaw, text).Ok?
    ensures FwLjust(eaw, text, width).Ok?
    ensures VisualLen(eaw, FwLjust(eaw, text, width).value)
         == Ok(Max(VisualLen(eaw, text).value, width))
  {
    var vlen := VisualLen(eaw, text).value;
    if vlen < width {
      VisualLenSpaces(eaw, width - vlen);
      VisualLenAppend(eaw, text, Spaces(width - vlen));
    }
  }

  /** `str.ljust`: pad with spaces up to `width` characters, never truncate. */
  function Ljust(text: string, width: nat): (r: string)
    ensures text <= r && AllSpaces(r[|text|..])
    ensures |r| == Max(|text|, width)
  {
    if |text| >= width then text else text + Spaces(width - |text|)
  }

  /** How a table measures and pads: `asianChars` selects display width,
      otherwise character count; `eaw` is the Unicode East Asian Width lookup. */
  datatype Measure = Measure(asianChars: bool, eaw: char -> Category)

  /** Unicode classifies the space character as narrow; padding relies on it. */
  predicate SpaceIsNarrow(m: Measure) {
    m.asianChars ==> m.eaw(' ') == Na
  }

  /** The table's length function: `visual_len` or `len`. */
  function DisplayLen(m: Measure, text: string): (r: Result<nat>)
    ensures !m.asianChars ==> r == Ok(|text|)
    ensures r.Err? ==> r.error == KeyError(H)
    ensures r.Ok? ==> |text| <= r.value <= 2 * |text|
  {
    if m.asianChars then VisualLen(m.eaw, text) else Ok(|text|)
  }

  /** The table's padding function: `fw_ljust` or `str.ljust`. */
  function Justify(m: Measure, text: string, width: nat): (r: Result<string>)
    ensures r.Ok? <==> DisplayLen(m, text).Ok?
    ensures r.Err? ==> r.error == KeyError(H)
    ensures r.Ok? ==> text <= r.value && AllSpaces(r.value[|text|..])
    ensures r.Ok? ==> (r.value == text <==> DisplayLen(m, text).value >= width)
  {
    if m.asianChars then FwLjust(m.eaw, text, width) else Ok(Ljust(text, width))
  }

  /** Justifying to `width` yields exactly the larger of `width` and the
      text's own width, in the measure's own units. */
  lemma JustifyWidth(m: Measure, text: string, width: nat)
    requires SpaceIsNarrow(m)
    requires DisplayLen(m, text).Ok?
    ensures Justify(m, text, width).Ok?
    ensures DisplayLen(m, Justify(m, text, width).value) == Ok(Max(DisplayLen(m, text).value, width))
  {
    if m.asianChars {
      FwLjustWidth(m.eaw, text, width);
    }
  }

  /** Three wide characters are six cells, and padding them to six adds
      nothing; three narrow ones padded to six get exactly three spaces. */
  lemma WidthAwarePadding(eaw: char -> Category, wide: string, narrow: string)
    requires |wide| == 3 && forall i :: 0 <= i < 3 ==> eaw(wide[i]) == W
    requires |narrow| == 3 && forall i :: 0 <= i < 3 ==> eaw(narrow[i]) == Na
    ensures VisualLen(eaw, wide) == Ok(6)
    ensures FwLjust(eaw, wide, 6) == Ok(wide)
    ensures FwLjust(eaw, narrow, 6) == Ok(narrow + "   ")
  {
    WideTextWidth(eaw, wide);
    NarrowTextWidth(eaw, narrow);
    assert Spaces(3) == "   ";
  }
}
