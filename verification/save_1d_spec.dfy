/** Stage 1: turn a 2D arc-lamp frame into a 1D spectrum.

    The metadata comes from the file stem `<brand>_<lamp>_<ccd>_<N>s_<id>`,
    the spectrum is the dark-subtracted frame summed over its rows (the
    spatial direction), and the result is a new primary HDU whose header
    records the five metadata fields.
 */
module Save1dSpec {
  import opened Outcomes
  import opened Text
  import opened Fits

  /** The five fields read from a file stem. */
  datatype Keywords = Keywords(
    manufacturer: string,
    lamp: string,
    ccd: string,
    exposure: int,
    id: string)

  /* ----------------------------------------------------- file-stem parser */

  /** The exposure token is the integer with `s` stripped from both ends. */
  function ParseExposure(token: string): (r: Result<int>)
    ensures r.Ok? <==> IsIntegerLiteral(Strip(token, 's'))
    ensures r.Err? ==> r.error == NotAnInteger(token)
    ensures r.Ok? ==> ParseInt(Strip(token, 's')) == Some(r.value)
  {
    match ParseInt(Strip(token, 's'))
    case Some(n) => Ok(n)
    case None => Err(NotAnInteger(token))
  }

  /** Metadata from a file stem: manufacturer, lamp and CCD are the first
      three `_` pieces, the exposure the second-to-last, the ID the last.
      Fewer than three pieces is the IndexError of the first three reads. */
  function ParseStem(stem: string): (r: Result<Keywords>)
    ensures var ts := Split(stem, '_');
            && (r.Err? && r.error.TooFewTokens? <==> |ts| < 3)
            && (r.Ok? ==> && r.value.manufacturer == ts[0]
                          && r.value.lamp == ts[1]
                          && r.value.ccd == ts[2]
                          && r.value.id == ts[|ts| - 1]
                          && ParseInt(Strip(ts[|ts| - 2], 's')) == Some(r.value.exposure))
  {
    var ts := Split(stem, '_');
    if |ts| < 3 then Err(TooFewTokens(|ts|))
    else
      var exposure :- ParseExposure(ts[|ts| - 2]);
      Ok(Keywords(ts[0], ts[1], ts[2], exposure, ts[|ts| - 1]))
  }

  /** Parsing a stem assembled from `_`-free pieces: the fixed positions
      0, 1, 2 and the last two are read, any further middle pieces are
      ignored, and with exactly four pieces piece 2 is read both as the CCD
      and as the exposure. */
  lemma ParseStemOfPieces(ts: seq<string>)
    requires |ts| >= 1
    requires forall i :: 0 <= i < |ts| ==> '_' !in ts[i]
    ensures |ts| < 3 ==> ParseStem(Join(ts, '_')) == Err(TooFewTokens(|ts|))
    ensures |ts| >= 3 && !IsIntegerLiteral(Strip(ts[|ts| - 2], 's')) ==>
              ParseStem(Join(ts, '_')) == Err(NotAnInteger(ts[|ts| - 2]))
    ensures |ts| >= 3 && IsIntegerLiteral(Strip(ts[|ts| - 2], 's')) ==>
              ParseStem(Join(ts, '_')) ==
                Ok(Keywords(ts[0], ts[1], ts[2],
                            ParseInt(Strip(ts[|ts| - 2], 's')).value, ts[|ts| - 1]))
  {
    SplitJoin(ts, '_');
  }

  /** The stem the naming convention prescribes for a set of keywords. */
  function FormatStem(k: Keywords): string
  {
    Join([k.manufacturer, k.lamp, k.ccd, ShowInt(k.exposure) + "s", k.id], '_')
  }

  /** Keywords whose text fields can appear in a stem unchanged. */
  predicate Formattable(k: Keywords)
  {
    '_' !in k.manufacturer && '_' !in k.lamp && '_' !in k.ccd && '_' !in k.id
  }

  /** Stripping `s` off the exposure token restores the printed integer. */
  lemma StripExposureSuffix(n: int)
    ensures Strip(ShowInt(n) + "s", 's') == ShowInt(n)
  {
    var t := ShowInt(n);
    assert t[0] != 's' && t[|t| - 1] != 's';
    assert t + "s" == Repeat('s', 0) + t + Repeat('s', 1);
    StripUnique(t + "s", 's', t, 0, 1);
  }

  /** Parsing inverts formatting: a stem written by the naming convention
      reads back as the keywords it was written from. */
  lemma ParseFormatStem(k: Keywords)
    requires Formattable(k)
    ensures ParseStem(FormatStem(k)) == Ok(k)
  {
    var ts := [k.manufacturer, k.lamp, k.ccd, ShowInt(k.exposure) + "s", k.id];
    assert '_' !in ShowInt(k.exposure) + "s" by {
      var t := ShowInt(k.exposure) + "s";
      assert forall i :: 0 <= i < |t| ==> t[i] != '_';
    }
    SplitJoin(ts, '_');
    StripExposureSuffix(k.exposure);
    ParseShowInt(k.exposure);
  }

  /** The example stem of the test suite. */
  lemma ParseExampleStem()
    ensures ParseStem("Photron_ThAr_Red_60s_02") ==
              Ok(Keywords("Photron", "ThAr", "Red", 60, "02"))
  {
    var k := Keywords("Photron", "ThAr", "Red", 60, "02");
    ExampleStemFormat();
    ParseFormatStem(k);
  }

  /** The example stem is what the naming convention writes for its keywords. */
  lemma ExampleStemFormat()
    ensures FormatStem(Keywords("Photron", "ThAr", "Red", 60, "02")) == "Photron_ThAr_Red_60s_02"
  {
    ShowSixty();
    ExampleJoin();
  }

  lemma ShowSixty()
    ensures ShowInt(60) + "s" == "60s"
  {
    assert ShowNat(6) == "6";
  }

  lemma ExampleJoin()
    ensures Join(["Photron", "ThAr", "Red", "60s", "02"], '_') == "Photron_ThAr_Red_60s_02"
  {
    var ts := ["Photron", "ThAr", "Red", "60s", "02"];
    assert Join(ts[3..], '_') == "60s_02";
    assert Join(ts[1..], '_') == "ThAr_Red_60s_02";
  }

  /* ------------------------------------------------------ 2D -> 1D collapse */

  /** A 2D image: `rows` are spatial positions, each holding `width`
      detector pixels (the numpy array has shape (|rows|, width)). */
  datatype Frame = Frame(width: nat, rows: seq<seq<int>>)

  predicate Rectangular(f: Frame)
  {
    forall i :: 0 <= i < |f.rows| ==> |f.rows[i]| == f.width
  }

  predicate SameShape(a: Frame, b: Frame)
  {
    a.width == b.width && |a.rows| == |b.rows|
  }

  /** Sum of column `j` over all rows. */
  function ColumnTotal(rows: seq<seq<int>>, j: nat): int
    requires forall i :: 0 <= i < |rows| ==> j < |rows[i]|
  {
    if |rows| == 0 then 0
    else ColumnTotal(rows[..|rows| - 1], j) + rows[|rows| - 1][j]
  }

  /** `image - dark`, pixel by pixel. */
  function Subtract(image: Frame, dark: Frame): (d: Frame)
    requires Rectangular(image) && Rectangular(dark) && SameShape(image, dark)
    ensures Rectangular(d) && SameShape(d, image)
    ensures forall i, j :: 0 <= i < |d.rows| && 0 <= j < d.width ==>
              d.rows[i][j] == image.rows[i][j] - dark.rows[i][j]
  {
    Frame(image.width,
          seq(|image.rows|, i requires 0 <= i < |image.rows| =>
            seq(image.width, j requires 0 <= j < image.width =>
              image.rows[i][j] - dark.rows[i][j])))
  }

  /** Summing a difference column is the difference of the column sums. */
  lemma {:induction false} ColumnTotalOfDifference(image: Frame, dark: Frame, j: nat)
    requires Rectangular(image) && Rectangular(dark) && SameShape(image, dark)
    requires j < image.width
    ensures ColumnTotal(Subtract(image, dark).rows, j)
            == ColumnTotal(image.rows, j) - ColumnTotal(dark.rows, j)
    decreases |image.rows|
  {
    var d := Subtract(image, dark);
    var n := |image.rows|;
    if n > 0 {
      var image' := Frame(image.width, image.rows[..n - 1]);
      var dark' := Frame(dark.width, dark.rows[..n - 1]);
      ColumnTotalOfDifference(image', dark', j);
      assert Subtract(image', dark').rows == d.rows[..n - 1];
    }
  }

  /** `np.sum(image - dark, axis=0)`: one total per detector column. The
      shapes must agree; a mismatch is the subtraction's error. */
  function Collapse(image: Frame, dark: Frame): (r: Result<seq<int>>)
    requires Rectangular(image) && Rectangular(dark)
    ensures r.Ok? <==> SameShape(image, dark)
    ensures r.Err? ==> r.error == ShapeMismatch
    ensures r.Ok? ==> |r.value| == image.width
    ensures r.Ok? ==> forall j :: 0 <= j < image.width ==>
              r.value[j] == ColumnTotal(image.rows, j) - ColumnTotal(dark.rows, j)
  {
    if !SameShape(image, dark) then Err(ShapeMismatch)
    else
      var d := Subtract(image, dark);
      forall j | 0 <= j < image.width
        ensures ColumnTotal(d.rows, j) == ColumnTotal(image.rows, j) - ColumnTotal(dark.rows, j)
      {
        ColumnTotalOfDifference(image, dark, j);
      }
      Ok(seq(d.width, j requires 0 <= j < d.width => ColumnTotal(d.rows, j)))
  }

  /* --------------------------------------------------------- output header */

  /** The header a new primary HDU carries for a 1D data array. */
  function PrimaryHeader(data: seq<int>): Header
  {
    [Card("NAXIS", Int(1)), Card("NAXIS1", Int(|data|))]
  }

  /** The text fields of `k` are all values a header card accepts. */
  predicate PrintableKeywords(k: Keywords)
  {
    PrintableAscii(k.manufacturer) && PrintableAscii(k.lamp)
    && PrintableAscii(k.ccd) && PrintableAscii(k.id)
  }

  /** The 1D output HDU with the five metadata cards set on it, in the order
      BRAND, LAMP, CCD, EXPTIME, ID. The library checks each value as it is
      set, so the first text field that is not printable ASCII aborts with a
      ValueError; the integer exposure always passes. */
  function MakeNew1dFits(spectrum: seq<int>, k: Keywords): (r: Result<Hdu>)
    ensures r.Ok? <==> PrintableKeywords(k)
    ensures !PrintableAscii(k.manufacturer) ==> r == Err(UnprintableValue("BRAND"))
    ensures PrintableAscii(k.manufacturer) && !PrintableAscii(k.lamp) ==>
              r == Err(UnprintableValue("LAMP"))
    ensures PrintableAscii(k.manufacturer) && PrintableAscii(k.lamp) && !PrintableAscii(k.ccd) ==>
              r == Err(UnprintableValue("CCD"))
    ensures (PrintableAscii(k.manufacturer) && PrintableAscii(k.lamp) && PrintableAscii(k.ccd)
             && !PrintableAscii(k.id)) ==> r == Err(UnprintableValue("ID"))
    ensures r.Ok? ==> r.value.data == spectrum
    ensures r.Ok? ==> Lookup(r.value.header, "BRAND") == Some(Str(k.manufacturer))
    ensures r.Ok? ==> Lookup(r.value.header, "LAMP") == Some(Str(k.lamp))
    ensures r.Ok? ==> Lookup(r.value.header, "CCD") == Some(Str(k.ccd))
    ensures r.Ok? ==> Lookup(r.value.header, "EXPTIME") == Some(Int(k.exposure))
    ensures r.Ok? ==> Lookup(r.value.header, "ID") == Some(Str(k.id))
    ensures r.Ok? ==> Lookup(r.value.header, "NAXIS1") == Some(Int(|spectrum|))
  {
    if !PrintableAscii(k.manufacturer) then Err(UnprintableValue("BRAND"))
    else if !PrintableAscii(k.lamp) then Err(UnprintableValue("LAMP"))
    else if !PrintableAscii(k.ccd) then Err(UnprintableValue("CCD"))
    else if !PrintableAscii(k.id) then Err(UnprintableValue("ID"))
    else Ok(Hdu(spectrum, Stamped(spectrum, k)))
  }

  /** The primary header of `spectrum` after the five assignments. */
  function Stamped(spectrum: seq<int>, k: Keywords): (h: Header)
    ensures Lookup(h, "BRAND") == Some(Str(k.manufacturer))
    ensures Lookup(h, "LAMP") == Some(Str(k.lamp))
    ensures Lookup(h, "CCD") == Some(Str(k.ccd))
    ensures Lookup(h, "EXPTIME") == Some(Int(k.exposure))
    ensures Lookup(h, "ID") == Some(Str(k.id))
    ensures Lookup(h, "NAXIS1") == Some(Int(|spectrum|))
  {
    var h0 := PrimaryHeader(spectrum);
    assert Lookup(h0, "NAXIS1") == Some(Int(|spectrum|)) by {
      assert h0[1..][0] == Card("NAXIS1", Int(|spectrum|));
    }
    var h1 := Set(h0, "BRAND", Str(k.manufacturer));
    var h2 := Set(h1, "LAMP", Str(k.lamp));
    var h3 := Set(h2, "CCD", Str(k.ccd));
    var h4 := Set(h3, "EXPTIME", Int(k.exposure));
    var h5 := Set(h4, "ID", Str(k.id));
    assert Lookup(h5, "EXPTIME") == Some(Int(k.exposure)) by {
      assert Lookup(h5, "EXPTIME") == Lookup(h4, "EXPTIME");
    }
    assert Lookup(h5, "CCD") == Some(Str(k.ccd)) by {
      assert Lookup(h5, "CCD") == Lookup(h4, "CCD");
      assert Lookup(h4, "CCD") == Lookup(h3, "CCD");
    }
    assert Lookup(h5, "LAMP") == Some(Str(k.lamp)) by {
      assert Lookup(h5, "LAMP") == Lookup(h4, "LAMP");
      assert Lookup(h4, "LAMP") == Lookup(h3, "LAMP");
      assert Lookup(h3, "LAMP") == Lookup(h2, "LAMP");
    }
    assert Lookup(h5, "BRAND") == Some(Str(k.manufacturer)) by {
      assert Lookup(h5, "BRAND") == Lookup(h4, "BRAND");
      assert Lookup(h4, "BRAND") == Lookup(h3, "BRAND");
      assert Lookup(h3, "BRAND") == Lookup(h2, "BRAND");
      assert Lookup(h2, "BRAND") == Lookup(h1, "BRAND");
    }
    assert Lookup(h5, "NAXIS1") == Some(Int(|spectrum|)) by {
      assert Lookup(h5, "NAXIS1") == Lookup(h4, "NAXIS1");
      assert Lookup(h4, "NAXIS1") == Lookup(h3, "NAXIS1");
      assert Lookup(h3, "NAXIS1") == Lookup(h2, "NAXIS1");
      assert Lookup(h2, "NAXIS1") == Lookup(h1, "NAXIS1");
      assert Lookup(h1, "NAXIS1") == Lookup(h0, "NAXIS1");
    }
    h5
  }

  /** Keywords read back from a header written by `MakeNew1dFits`. */
  function ReadKeywords(h: Header): Option<Keywords>
  {
    match (Lookup(h, "BRAND"), Lookup(h, "LAMP"), Lookup(h, "CCD"),
           Lookup(h, "EXPTIME"), Lookup(h, "ID"))
    case (Some(Str(b)), Some(Str(l)), Some(Str(c)), Some(Int(e)), Some(Str(i))) =>
      Some(Keywords(b, l, c, e, i))
    case _ => None
  }

  /** Header round trip: reading the five cards back returns the keywords
      the header was made from. */
  lemma HeaderRoundTrip(spectrum: seq<int>, k: Keywords)
    requires PrintableKeywords(k)
    ensures MakeNew1dFits(spectrum, k).Ok?
    ensures ReadKeywords(MakeNew1dFits(spectrum, k).value.header) == Some(k)
  {
  }

  /* ----------------------------------------------------------- whole stage */

  /** The title of the preview plot,
      `"<brand> <lamp> (<ccd>): <N>s exposure"`. */
  function PlotTitle(k: Keywords): string
  {
    k.manufacturer + " " + k.lamp + " (" + k.ccd + "): " + ShowInt(k.exposure) + "s exposure"
  }

  /** The stage as a whole: parse the stem, collapse the dark-subtracted
      frame, draw the preview plot, and wrap the spectrum in a header
      carrying the metadata. Each failure is reported in the order the
      script meets it. Whether the plotting library can draw a given title
      (it rejects, among others, invalid math between `$` signs) is the
      parameter `drawable`. */
  function SaveSpectrum(stem: string, image: Frame, dark: Frame, drawable: string -> bool): (r: Result<Hdu>)
    requires Rectangular(image) && Rectangular(dark)
    ensures r.Ok? <==> && ParseStem(stem).Ok? && SameShape(image, dark)
                       && drawable(PlotTitle(ParseStem(stem).value))
                       && PrintableKeywords(ParseStem(stem).value)
    ensures ParseStem(stem).Err? ==> r == Err(ParseStem(stem).error)
    ensures ParseStem(stem).Ok? && !SameShape(image, dark) ==> r == Err(ShapeMismatch)
    ensures ParseStem(stem).Ok? && SameShape(image, dark) && !drawable(PlotTitle(ParseStem(stem).value)) ==>
              r == Err(PlotFailed(PlotTitle(ParseStem(stem).value)))
    ensures (&& ParseStem(stem).Ok? && SameShape(image, dark) && drawable(PlotTitle(ParseStem(stem).value))
             && !PrintableKeywords(ParseStem(stem).value)) ==> r.Err? && r.error.UnprintableValue?
    ensures r.Ok? ==> && |r.value.data| == image.width
                      && Lookup(r.value.header, "NAXIS1") == Some(Int(image.width))
                      && ReadKeywords(r.value.header) == Some(ParseStem(stem).value)
    ensures r.Ok? ==> forall j :: 0 <= j < image.width ==>
              r.value.data[j] == ColumnTotal(image.rows, j) - ColumnTotal(dark.rows, j)
  {
    var k :- ParseStem(stem);
    var spectrum :- Collapse(image, dark);
    if !drawable(PlotTitle(k)) then Err(PlotFailed(PlotTitle(k)))
    else if PrintableKeywords(k) then
      HeaderRoundTrip(spectrum, k);
      MakeNew1dFits(spectrum, k)
    else
      MakeNew1dFits(spectrum, k)
  }
}
