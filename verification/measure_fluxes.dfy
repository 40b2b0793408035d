/** Stage 3: measure emission-line fluxes in a calibrated 1D spectrum.

    Each line of the line list is a wavelength window (line_start, line_end).
    Its flux is the sum of the spectrum over the pixels whose wavelength lies
    strictly inside the window; its reported wavelength is the window's
    midpoint and its pixel the first pixel nearest that midpoint. Fluxes are
    normalised to counts per second per fibre (61 fibres).
 */
module MeasureFluxes {
  import opened Outcomes
  import opened Text
  import opened Fits

  /** One row of the line list: the window (line_start, line_end). */
  datatype Line = Line(start: real, end: real)

  /** Number of fibres summed into one spectrum. */
  const FibreCount: int := 61

  /** Column names of the output table, in order. */
  const Columns: seq<string> := ["pixel", "Wavelength", "Flux"]

  /** One output row: nearest pixel, midpoint wavelength, normalised flux. */
  datatype Row = Row(pixel: nat, wavelength: real, flux: real)

  datatype FluxTable = FluxTable(columns: seq<string>, rows: seq<Row>)

  /* ---------------------------------------------------------- window sums */

  /** The window test `(wavelength > lo) & (wavelength < hi)`: open at both ends. */
  predicate Inside(x: real, lo: real, hi: real)
  {
    lo < x && x < hi
  }

  function Sum(xs: seq<real>): real
  {
    if |xs| == 0 then 0.0 else Sum(xs[..|xs| - 1]) + xs[|xs| - 1]
  }

  /** `spectrum[mask]`: the values at the pixels whose wavelength is inside
      (lo, hi), in pixel order. */
  function Masked(w: seq<real>, s: seq<real>, lo: real, hi: real): (r: seq<real>)
    requires |w| == |s|
    ensures |r| <= |s|
  {
    var n := |s|;
    if n == 0 then []
    else Masked(w[..n - 1], s[..n - 1], lo, hi) + (if Inside(w[n - 1], lo, hi) then [s[n - 1]] else [])
  }

  /** The mask on `n` + 1 pixels is the mask on the first `n`, then the
      last pixel's value if it is inside. */
  lemma MaskedLast(w: seq<real>, s: seq<real>, lo: real, hi: real)
    requires |w| == |s| > 0
    ensures Masked(w, s, lo, hi)
         == Masked(w[..|s| - 1], s[..|s| - 1], lo, hi)
            + (if Inside(w[|s| - 1], lo, hi) then [s[|s| - 1]] else [])
  {
  }

  /** Every selected value is the value of a pixel inside the window. */
  lemma {:induction false} MaskedFromInside(w: seq<real>, s: seq<real>, lo: real, hi: real, i: nat)
    requires |w| == |s| && i < |Masked(w, s, lo, hi)|
    ensures exists j :: 0 <= j < |s| && Inside(w[j], lo, hi) && Masked(w, s, lo, hi)[i] == s[j]
    decreases |s|
  {
    var n := |s|;
    var m := Masked(w[..n - 1], s[..n - 1], lo, hi);
    MaskedLast(w, s, lo, hi);
    if i < |m| {
      MaskedFromInside(w[..n - 1], s[..n - 1], lo, hi, i);
      var j :| 0 <= j < n - 1 && Inside(w[..n - 1][j], lo, hi) && m[i] == s[..n - 1][j];
      assert Inside(w[j], lo, hi) && Masked(w, s, lo, hi)[i] == s[j];
    } else {
      assert Inside(w[n - 1], lo, hi) && Masked(w, s, lo, hi)[i] == s[n - 1];
    }
  }

  /** The value of every pixel inside the window is selected. */
  lemma {:induction false} MaskedHasInside(w: seq<real>, s: seq<real>, lo: real, hi: real, j: nat)
    requires |w| == |s| && j < |s| && Inside(w[j], lo, hi)
    ensures s[j] in Masked(w, s, lo, hi)
    decreases |s|
  {
    var n := |s|;
    MaskedLast(w, s, lo, hi);
    if j < n - 1 {
      MaskedHasInside(w[..n - 1], s[..n - 1], lo, hi, j);
      assert s[..n - 1][j] == s[j];
    }
  }

  /** The pixels whose wavelength is inside (lo, hi). */
  function InsidePixels(w: seq<real>, lo: real, hi: real): set<nat>
  {
    set j: nat | j < |w| && Inside(w[j], lo, hi)
  }

  /** One value is selected per pixel inside the window. */
  lemma {:induction false} MaskedCount(w: seq<real>, s: seq<real>, lo: real, hi: real)
    requires |w| == |s|
    ensures |Masked(w, s, lo, hi)| == |InsidePixels(w, lo, hi)|
    decreases |s|
  {
    var n := |s|;
    if n == 0 {
      assert InsidePixels(w, lo, hi) == {};
    } else {
      MaskedLast(w, s, lo, hi);
      MaskedCount(w[..n - 1], s[..n - 1], lo, hi);
      var p, p' := InsidePixels(w, lo, hi), InsidePixels(w[..n - 1], lo, hi);
      if Inside(w[n - 1], lo, hi) {
        assert p == p' + {n - 1};
      } else {
        assert p == p';
      }
    }
  }

  /** What the mask selects: every selected value is the value of a pixel
      inside the window, the value of every such pixel is selected, and one
      value is selected per such pixel. */
  lemma MaskedContents(w: seq<real>, s: seq<real>, lo: real, hi: real)
    requires |w| == |s|
    ensures forall i :: 0 <= i < |Masked(w, s, lo, hi)| ==>
              exists j :: 0 <= j < |s| && Inside(w[j], lo, hi) && Masked(w, s, lo, hi)[i] == s[j]
    ensures forall j :: 0 <= j < |s| && Inside(w[j], lo, hi) ==> s[j] in Masked(w, s, lo, hi)
    ensures |Masked(w, s, lo, hi)| == |InsidePixels(w, lo, hi)|
  {
    forall i | 0 <= i < |Masked(w, s, lo, hi)|
      ensures exists j :: 0 <= j < |s| && Inside(w[j], lo, hi) && Masked(w, s, lo, hi)[i] == s[j]
    {
      MaskedFromInside(w, s, lo, hi, i);
    }
    forall j | 0 <= j < |s| && Inside(w[j], lo, hi) ensures s[j] in Masked(w, s, lo, hi) {
      MaskedHasInside(w, s, lo, hi, j);
    }
    MaskedCount(w, s, lo, hi);
  }

  /** The mask keeps pixel order: the values selected from the first `k`
      pixels come before those selected from the rest. */
  lemma {:induction false} MaskedSplit(w: seq<real>, s: seq<real>, lo: real, hi: real, k: nat)
    requires |w| == |s| && k <= |s|
    ensures Masked(w, s, lo, hi) == Masked(w[..k], s[..k], lo, hi) + Masked(w[k..], s[k..], lo, hi)
    decreases |s|
  {
    var n := |s|;
    if k == n {
      assert w[..k] == w && s[..k] == s;
    } else {
      var w', s' := w[..n - 1], s[..n - 1];
      var wt, st := w[k..], s[k..];
      var tail := if Inside(w[n - 1], lo, hi) then [s[n - 1]] else [];
      MaskedLast(w, s, lo, hi);
      MaskedLast(wt, st, lo, hi);
      MaskedSplit(w', s', lo, hi, k);
      assert w'[..k] == w[..k] && s'[..k] == s[..k];
      assert wt[..|wt| - 1] == w'[k..] && st[..|st| - 1] == s'[k..];
      assert Masked(wt, st, lo, hi) == Masked(w'[k..], s'[k..], lo, hi) + tail;
    }
  }

  /** `np.sum(spectrum[mask])` for one line. */
  function WindowFlux(w: seq<real>, s: seq<real>, line: Line): real
    requires |w| == |s|
  {
    Sum(Masked(w, s, line.start, line.end))
  }

  /** Each pixel contributes its own value to a line's flux exactly when its
      wavelength is strictly inside the window: raising pixel `j` by `d`
      raises the flux by `d` if it is inside and leaves it alone otherwise,
      in particular when the pixel sits on a boundary. */
  lemma {:induction false} PixelContribution(w: seq<real>, s: seq<real>, line: Line, j: nat, d: real)
    requires |w| == |s| && j < |s|
    ensures WindowFlux(w, s[j := s[j] + d], line)
            == WindowFlux(w, s, line) + (if Inside(w[j], line.start, line.end) then d else 0.0)
    decreases |s|
  {
    var n := |s|;
    var s' := s[j := s[j] + d];
    var lo, hi := line.start, line.end;
    var m := Masked(w[..n - 1], s[..n - 1], lo, hi);
    var m' := Masked(w[..n - 1], s'[..n - 1], lo, hi);
    var tail := if Inside(w[n - 1], lo, hi) then [s[n - 1]] else [];
    var tail' := if Inside(w[n - 1], lo, hi) then [s'[n - 1]] else [];
    assert Masked(w, s, lo, hi) == m + tail;
    assert Masked(w, s', lo, hi) == m' + tail';
    SumAppend(m, tail);
    SumAppend(m', tail');
    if j == n - 1 {
      assert s'[..n - 1] == s[..n - 1];
    } else {
      assert s'[..n - 1] == s[..n - 1][j := s[j] + d];
      PixelContribution(w[..n - 1], s[..n - 1], line, j, d);
    }
  }

  /** A sum splits over concatenation. */
  lemma {:induction false} SumAppend(a: seq<real>, b: seq<real>)
    ensures Sum(a + b) == Sum(a) + Sum(b)
    decreases |b|
  {
    if |b| > 0 {
      var b' := b[..|b| - 1];
      assert (a + b)[..|a + b| - 1] == a + b';
      SumAppend(a, b');
    } else {
      assert a + b == a;
    }
  }

  /** A window that holds no pixel measures exactly zero. */
  lemma {:induction false} NoPixelInside(w: seq<real>, s: seq<real>, line: Line)
    requires |w| == |s|
    requires forall j :: 0 <= j < |w| ==> !Inside(w[j], line.start, line.end)
    ensures WindowFlux(w, s, line) == 0.0
    decreases |s|
  {
    var n := |s|;
    if n > 0 {
      NoPixelInside(w[..n - 1], s[..n - 1], line);
      assert Masked(w, s, line.start, line.end) == Masked(w[..n - 1], s[..n - 1], line.start, line.end);
    }
  }

  /** A window with line_start >= line_end, or one lying entirely below or
      above the wavelength range, measures exactly zero. */
  lemma EmptyWindow(w: seq<real>, s: seq<real>, line: Line)
    requires |w| == |s|
    requires || line.start >= line.end
             || (forall j :: 0 <= j < |w| ==> w[j] <= line.start)
             || (forall j :: 0 <= j < |w| ==> w[j] >= line.end)
    ensures WindowFlux(w, s, line) == 0.0
  {
    NoPixelInside(w, s, line);
  }

  /** The wavelength axis 0, 1, ..., n - 1. */
  function Arange(n: nat): (w: seq<real>)
    ensures |w| == n
    ensures forall i :: 0 <= i < n ==> w[i] == i as real
  {
    seq(n, i requires 0 <= i < n => i as real)
  }

  function Min(a: int, b: int): int
  {
    if a < b then a else b
  }

  /** On the axis 0..k-1, the window (lo, hi) with integer ends selects the
      pixels lo + 1 up to hi - 1. */
  lemma {:induction false} MaskedArangePrefix(s: seq<real>, lo: nat, hi: nat, k: nat)
    requires lo < hi && k <= |s|
    ensures Masked(Arange(k), s[..k], lo as real, hi as real)
            == s[Min(lo + 1, k)..Min(hi, k)]
  {
    if k > 0 {
      MaskedArangePrefix(s, lo, hi, k - 1);
      assert Arange(k)[..k - 1] == Arange(k - 1);
      assert s[..k][..k - 1] == s[..k - 1];
    }
  }

  /** The setup of the known-Gaussian test: with wavelengths 0..99 and the
      window (40, 60), exactly pixels 41..59 contribute. */
  lemma ExampleWindow(s: seq<real>)
    requires |s| == 100
    ensures Masked(Arange(100), s, 40.0, 60.0) == s[41..60]
    ensures WindowFlux(Arange(100), s, Line(40.0, 60.0)) == Sum(s[41..60])
  {
    MaskedArangePrefix(s, 40, 60, 100);
    assert s[..100] == s;
  }

  /** `measure_flux`: one flux per line-list row, in row order. */
  method MeasureFlux(w: seq<real>, s: seq<real>, lines: seq<Line>) returns (fluxes: seq<real>)
    requires |w| == |s|
    ensures |fluxes| == |lines|
    ensures forall i :: 0 <= i < |lines| ==> fluxes[i] == WindowFlux(w, s, lines[i])
  {
    fluxes := [];
    var i := 0;
    while i < |lines|
      invariant 0 <= i <= |lines|
      invariant |fluxes| == i
      invariant forall k :: 0 <= k < i ==> fluxes[k] == WindowFlux(w, s, lines[k])
    {
      var lo, hi := lines[i].start, lines[i].end;
      var total := 0.0;
      var j := 0;
      while j < |s|
        invariant 0 <= j <= |s|
        invariant total == Sum(Masked(w[..j], s[..j], lo, hi))
      {
        var picked := if Inside(w[j], lo, hi) then [s[j]] else [];
        assert w[..j + 1][..j] == w[..j] && s[..j + 1][..j] == s[..j];
        assert Masked(w[..j + 1], s[..j + 1], lo, hi) == Masked(w[..j], s[..j], lo, hi) + picked;
        SumAppend(Masked(w[..j], s[..j], lo, hi), picked);
        if Inside(w[j], lo, hi) {
          total := total + s[j];
        }
        j := j + 1;
      }
      assert w[..|s|] == w && s[..|s|] == s;
      fluxes := fluxes + [total];
      i := i + 1;
    }
  }

  /* -------------------------------------------------------- nearest pixel */

  function Distance(x: real, y: real): real
  {
    if x >= y then x - y else y - x
  }

  /** The midpoint of a window, `np.mean([line_start, line_end])`: equally
      far from both ends. */
  function Midpoint(line: Line): (m: real)
    ensures m - line.start == line.end - m
  {
    (line.start + line.end) / 2.0
  }

  /** `p` is the first pixel whose wavelength is nearest `target`. */
  predicate IsFirstNearest(w: seq<real>, target: real, p: nat)
  {
    && p < |w|
    && (forall j :: 0 <= j < |w| ==> Distance(w[p], target) <= Distance(w[j], target))
    && (forall j :: 0 <= j < p ==> Distance(w[p], target) < Distance(w[j], target))
  }

  /** `np.argmin(np.abs(wavelength - target))`: the first minimum, so ties
      go to the lowest pixel index. */
  function NearestPixel(w: seq<real>, target: real): (p: nat)
    requires |w| > 0
    ensures IsFirstNearest(w, target, p)
    ensures forall q :: IsFirstNearest(w, target, q) ==> q == p
  {
    var n := |w|;
    if n == 1 then 0
    else
      var q := NearestPixel(w[..n - 1], target);
      assert forall j :: 0 <= j < n - 1 ==> w[..n - 1][j] == w[j];
      if Distance(w[n - 1], target) < Distance(w[q], target) then n - 1 else q
  }

  /* -------------------------------------------------------- normalisation */

  /** `int(header["EXPTIME"])`: integers as they are, floats truncated
      toward zero, strings parsed. */
  function ExposureOf(h: Header): (r: Result<int>)
    ensures !HasKey(h, "EXPTIME") ==> r == Err(MissingKeyword("EXPTIME"))
    ensures HasKey(h, "EXPTIME") && !Lookup(h, "EXPTIME").value.Str? ==> r.Ok?
    ensures r.Ok? && Lookup(h, "EXPTIME").value.Int? ==> r.value == Lookup(h, "EXPTIME").value.i
    ensures r.Ok? && Lookup(h, "EXPTIME").value.Real? ==>
              var x := Lookup(h, "EXPTIME").value.x;
              if x >= 0.0 then r.value >= 0 && r.value as real <= x < r.value as real + 1.0
              else r.value <= 0 && r.value as real - 1.0 < x <= r.value as real
    ensures Lookup(h, "EXPTIME").Some? && Lookup(h, "EXPTIME").value.Str? ==>
              (r.Ok? <==> IsIntegerLiteral(Lookup(h, "EXPTIME").value.s))
    ensures Lookup(h, "EXPTIME").Some? && Lookup(h, "EXPTIME").value.Str? ==>
              var t := Lookup(h, "EXPTIME").value.s;
              r == if ParseInt(t).Some? then Ok(ParseInt(t).value) else Err(NotAnInteger(t))
  {
    match Lookup(h, "EXPTIME")
    case None => Err(MissingKeyword("EXPTIME"))
    case Some(Int(n)) => Ok(n)
    case Some(Real(x)) => Ok(if x >= 0.0 then x.Floor else -((-x).Floor))
    case Some(Str(t)) =>
      match ParseInt(t)
      case Some(n) => Ok(n)
      case None => Err(NotAnInteger(t))
  }

  /** `flux / exposure_time / number_of_fibres`: multiplying back by the
      exposure time and the fibre count recovers the raw flux. */
  function Normalise(flux: real, exposure: int): (r: real)
    requires exposure != 0
    ensures r * (exposure as real) * (FibreCount as real) == flux
  {
    flux / (exposure as real) / (FibreCount as real)
  }

  /* ----------------------------------------------------------- whole stage */

  function AsReals(data: seq<int>): (r: seq<real>)
    ensures |r| == |data|
    ensures forall i :: 0 <= i < |data| ==> r[i] == data[i] as real
  {
    seq(|data|, i requires 0 <= i < |data| => data[i] as real)
  }

  /** The stage as a whole, given the wavelength of every pixel (computed
      from the header's calibration cards). Errors arise in the order the
      script meets them: the NAXIS1 read, the argmin over an empty axis, the
      EXPTIME read, then a zero exposure time with at least one flux to
      divide (an empty line list divides nothing and gives an empty table). */
  method MeasureLines(hdu: Hdu, wavelength: seq<real>, lines: seq<Line>)
    returns (r: Result<FluxTable>)
    requires |wavelength| == |hdu.data|
    ensures !HasKey(hdu.header, "NAXIS1") ==> r == Err(MissingKeyword("NAXIS1"))
    ensures HasKey(hdu.header, "NAXIS1") && |wavelength| == 0 ==> r == Err(EmptyArgmin)
    ensures HasKey(hdu.header, "NAXIS1") && |wavelength| > 0 && ExposureOf(hdu.header).Err? ==>
              r == Err(ExposureOf(hdu.header).error)
    ensures (&& HasKey(hdu.header, "NAXIS1") && |wavelength| > 0 && ExposureOf(hdu.header).Ok?
             && ExposureOf(hdu.header).value == 0 && |lines| > 0) ==> r == Err(ZeroExposure)
    ensures r.Ok? <==> && HasKey(hdu.header, "NAXIS1") && |wavelength| > 0
                       && ExposureOf(hdu.header).Ok?
                       && (ExposureOf(hdu.header).value != 0 || |lines| == 0)
    ensures r.Ok? ==> r.value.columns == ["pixel", "Wavelength", "Flux"]
    ensures r.Ok? ==> |r.value.rows| == |lines|
    ensures r.Ok? ==> forall i :: 0 <= i < |lines| ==>
              RowFor(wavelength, lines[i], WindowFlux(wavelength, AsReals(hdu.data), lines[i]),
                     ExposureOf(hdu.header).value, r.value.rows[i])
  {
    if !HasKey(hdu.header, "NAXIS1") {
      return Err(MissingKeyword("NAXIS1"));
    }
    if |wavelength| == 0 {
      return Err(EmptyArgmin);
    }
    var spectrum := AsReals(hdu.data);
    var fluxes := MeasureFlux(wavelength, spectrum, lines);
    var exposure := ExposureOf(hdu.header);
    if exposure.Err? {
      return Err(exposure.error);
    }
    if exposure.value == 0 && |lines| > 0 {
      return Err(ZeroExposure);
    }
    var rows := Tabulate(wavelength, lines, fluxes, exposure.value);
    r := Ok(FluxTable(Columns, rows));
  }

  /** `row` reports `line`: its midpoint, the first pixel nearest that
      midpoint, and a flux that times the exposure time and the fibre count
      is the line's raw flux. */
  predicate RowFor(w: seq<real>, line: Line, flux: real, exposure: int, row: Row)
  {
    && row.wavelength == Midpoint(line)
    && IsFirstNearest(w, Midpoint(line), row.pixel)
    && row.flux * (exposure as real) * (FibreCount as real) == flux
  }

  /** The rows of the output table: for each line its first nearest pixel,
      its midpoint and its normalised flux. */
  function Tabulate(w: seq<real>, lines: seq<Line>, fluxes: seq<real>, exposure: int): (rows: seq<Row>)
    requires |w| > 0 && |fluxes| == |lines|
    requires exposure != 0 || |lines| == 0
    ensures |rows| == |lines|
    ensures forall i :: 0 <= i < |lines| ==> RowFor(w, lines[i], fluxes[i], exposure, rows[i])
  {
    seq(|lines|, i requires 0 <= i < |lines| =>
      var mid := Midpoint(lines[i]);
      Row(NearestPixel(w, mid), mid, Normalise(fluxes[i], exposure)))
  }
}
