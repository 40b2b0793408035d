/** Stage 2: attach a linear wavelength calibration to a 1D spectrum.

    The calibration is copied from a reference configuration and depends only
    on the CCD card: the reference pixel is always 2048, and the Blue and Red
    arms each have a fixed step (CDELT) and reference wavelength (CRVAL). The
    data array is passed through untouched; the header is only extended.
 */
module WavelengthCalibration {
  import opened Outcomes
  import opened Fits

  /** CRPIX: the 1-based pixel at which the wavelength equals CRVAL. */
  const ReferencePixel: real := 2048.0

  /** The two spectrograph arms the lookup knows. */
  datatype Channel = Blue | Red

  /** Step per pixel (CDELT, Angstrom) and wavelength at the reference pixel
      (CRVAL, Angstrom). */
  datatype Dispersion = Dispersion(cdelt: real, crval: real)

  /** Which arm a CCD card names: only the exact strings "Blue" and "Red"
      match; every other value takes neither branch. */
  function ChannelOf(ccd: Value): (r: Option<Channel>)
    ensures r == Some(Blue) <==> ccd == Str("Blue")
    ensures r == Some(Red) <==> ccd == Str("Red")
  {
    if ccd == Str("Blue") then Some(Blue)
    else if ccd == Str("Red") then Some(Red)
    else None
  }

  /** The fixed calibration constants of each arm. */
  function DispersionOf(ch: Channel): (d: Dispersion)
    ensures d.cdelt > 0.0
  {
    match ch
    case Blue => Dispersion(0.5470085470085, 4799.726495726)
    case Red => Dispersion(0.5185891473977, 6781.932617188)
  }

  /** The cards the calibration adds: CRPIX1 always, CDELT1 and CRVAL1 only
      for a known arm. */
  function CalibrationCards(ccd: Value): (cards: Header)
    ensures Lookup(cards, "CRPIX1") == Some(Real(ReferencePixel))
    ensures ChannelOf(ccd).Some? ==>
              && Lookup(cards, "CDELT1") == Some(Real(DispersionOf(ChannelOf(ccd).value).cdelt))
              && Lookup(cards, "CRVAL1") == Some(Real(DispersionOf(ChannelOf(ccd).value).crval))
    ensures ChannelOf(ccd).None? ==> !HasKey(cards, "CDELT1") && !HasKey(cards, "CRVAL1")
    ensures KeywordCards(cards) == cards
  {
    match ChannelOf(ccd)
    case Some(ch) => ArmCards(DispersionOf(ch))
    case None =>
      var cards := [Card("CRPIX1", Real(ReferencePixel))];
      assert KeywordCards(cards) == cards by {
        KeywordCardsOfKeywords(cards);
      }
      cards
  }

  /** The three cards of a known arm, in the order the script sets them. */
  function ArmCards(d: Dispersion): (cards: Header)
    ensures Lookup(cards, "CRPIX1") == Some(Real(ReferencePixel))
    ensures Lookup(cards, "CDELT1") == Some(Real(d.cdelt))
    ensures Lookup(cards, "CRVAL1") == Some(Real(d.crval))
    ensures KeywordCards(cards) == cards
  {
    var cards := [Card("CRPIX1", Real(ReferencePixel)), Card("CDELT1", Real(d.cdelt)),
                  Card("CRVAL1", Real(d.crval))];
    assert cards[1..][1..] == [Card("CRVAL1", Real(d.crval))];
    assert Lookup(cards, "CDELT1") == Lookup(cards[1..], "CDELT1");
    assert Lookup(cards, "CRVAL1") == Lookup(cards[1..], "CRVAL1")
           == Lookup(cards[1..][1..], "CRVAL1");
    assert KeywordCards(cards) == cards by {
      KeywordCardsOfKeywords(cards);
    }
    cards
  }

  /** The stage as a whole. Reading CCD or NAXIS1 from a header without
      that card aborts with a KeyError. Otherwise the data is unchanged and
      the header is extended by the calibration cards: every keyword it had
      keeps its value, every keyword it lacked reads as in the calibration
      cards, and its keyword cards are followed by the calibration cards. */
  function ApplyCalibration(hdu: Hdu): (r: Result<Hdu>)
    ensures !HasKey(hdu.header, "CCD") ==> r == Err(MissingKeyword("CCD"))
    ensures HasKey(hdu.header, "CCD") && !HasKey(hdu.header, "NAXIS1") ==>
              r == Err(MissingKeyword("NAXIS1"))
    ensures r.Ok? <==> HasKey(hdu.header, "CCD") && HasKey(hdu.header, "NAXIS1")
    ensures r.Ok? ==> r.value.data == hdu.data
    ensures r.Ok? ==> forall k :: k != "" && HasKey(hdu.header, k) ==>
              Lookup(r.value.header, k) == Lookup(hdu.header, k)
    ensures r.Ok? ==> forall k :: k != "" && !HasKey(hdu.header, k) ==>
              Lookup(r.value.header, k) == Lookup(CalibrationCards(Lookup(hdu.header, "CCD").value), k)
    ensures r.Ok? ==> forall k :: k != "" && !HasKey(CalibrationCards(Lookup(hdu.header, "CCD").value), k) ==>
              Lookup(r.value.header, k) == Lookup(hdu.header, k)
  {
    match Lookup(hdu.header, "CCD")
    case None => Err(MissingKeyword("CCD"))
    case Some(ccd) =>
      match Lookup(hdu.header, "NAXIS1")
      case None => Err(MissingKeyword("NAXIS1"))
      case Some(_) =>
        var h, cards := hdu.header, CalibrationCards(ccd);
        ExtendReadsAll(h, cards);
        Ok(Hdu(hdu.data, Extend(h, cards)))
  }

  /** Where the calibration cards land: the header's keyword cards are
      followed by the calibration cards, and a header that ends in a keyword
      card (as one written by the first stage does) simply gets them
      appended. */
  lemma CalibrationPlacement(hdu: Hdu)
    requires HasKey(hdu.header, "CCD") && HasKey(hdu.header, "NAXIS1")
    ensures var h, r := hdu.header, ApplyCalibration(hdu);
            var cards := CalibrationCards(Lookup(h, "CCD").value);
            && KeywordCards(r.value.header) == KeywordCards(h) + cards
            && (|h| == 0 || !IsCommentary(h[|h| - 1].key) ==> r.value.header == h + cards)
  {
    var h := hdu.header;
    var cards := CalibrationCards(Lookup(h, "CCD").value);
    assert ApplyCalibration(hdu).value.header == Extend(h, cards);
    ExtendKeywordCards(h, cards);
    if |h| == 0 || !IsCommentary(h[|h| - 1].key) {
      KeywordCardsOnly(cards);
      ExtendPlain(h, cards);
    }
  }

  /** The name the CCD card carries for each arm. */
  function ChannelName(ch: Channel): string
  {
    match ch
    case Blue => "Blue"
    case Red => "Red"
  }

  /** A spectrum of a known arm that carried no calibration before reads
      back the reference pixel and that arm's step and reference wavelength. */
  lemma CalibrateKnownChannel(hdu: Hdu, ch: Channel)
    requires Lookup(hdu.header, "CCD") == Some(Str(ChannelName(ch)))
    requires HasKey(hdu.header, "NAXIS1")
    requires !HasKey(hdu.header, "CRPIX1") && !HasKey(hdu.header, "CDELT1")
    requires !HasKey(hdu.header, "CRVAL1")
    ensures var r := ApplyCalibration(hdu);
            && r.Ok?
            && Lookup(r.value.header, "CRPIX1") == Some(Real(ReferencePixel))
            && Lookup(r.value.header, "CDELT1") == Some(Real(DispersionOf(ch).cdelt))
            && Lookup(r.value.header, "CRVAL1") == Some(Real(DispersionOf(ch).crval))
  {
    assert ChannelOf(Str(ChannelName(ch))) == Some(ch);
  }

  /** A Red spectrum that carried no calibration before reads back the Red
      constants and the reference pixel 2048. */
  lemma CalibrateRed(hdu: Hdu)
    requires Lookup(hdu.header, "CCD") == Some(Str("Red"))
    requires HasKey(hdu.header, "NAXIS1")
    requires !HasKey(hdu.header, "CRPIX1") && !HasKey(hdu.header, "CDELT1")
    requires !HasKey(hdu.header, "CRVAL1")
    ensures var r := ApplyCalibration(hdu);
            && r.Ok?
            && Lookup(r.value.header, "CRPIX1") == Some(Real(2048.0))
            && Lookup(r.value.header, "CDELT1") == Some(Real(0.5185891473977))
            && Lookup(r.value.header, "CRVAL1") == Some(Real(6781.932617188))
  {
    CalibrateKnownChannel(hdu, Red);
  }

  /** The same for a Blue spectrum, with the Blue constants. */
  lemma CalibrateBlue(hdu: Hdu)
    requires Lookup(hdu.header, "CCD") == Some(Str("Blue"))
    requires HasKey(hdu.header, "NAXIS1")
    requires !HasKey(hdu.header, "CRPIX1") && !HasKey(hdu.header, "CDELT1")
    requires !HasKey(hdu.header, "CRVAL1")
    ensures var r := ApplyCalibration(hdu);
            && r.Ok?
            && Lookup(r.value.header, "CRPIX1") == Some(Real(2048.0))
            && Lookup(r.value.header, "CDELT1") == Some(Real(0.5470085470085))
            && Lookup(r.value.header, "CRVAL1") == Some(Real(4799.726495726))
  {
    CalibrateKnownChannel(hdu, Blue);
  }

  /** Any other CCD value takes neither branch and does not abort: the
      reference pixel is still added, but CDELT1 and CRVAL1 read as before. */
  lemma CalibrateUnknownChannel(hdu: Hdu)
    requires Lookup(hdu.header, "CCD").Some?
    requires Lookup(hdu.header, "CCD") != Some(Str("Blue"))
    requires Lookup(hdu.header, "CCD") != Some(Str("Red"))
    requires HasKey(hdu.header, "NAXIS1")
    ensures var r := ApplyCalibration(hdu);
            && r.Ok?
            && Lookup(r.value.header, "CDELT1") == Lookup(hdu.header, "CDELT1")
            && Lookup(r.value.header, "CRVAL1") == Lookup(hdu.header, "CRVAL1")
            && (!HasKey(hdu.header, "CRPIX1") ==>
                  Lookup(r.value.header, "CRPIX1") == Some(Real(ReferencePixel)))
  {
    var h := hdu.header;
    var ccd := Lookup(h, "CCD").value;
    assert ChannelOf(ccd) == None;
    var cards := CalibrationCards(ccd);
    var r := Extend(h, cards);
    assert ApplyCalibration(hdu) == Ok(Hdu(hdu.data, r));
    assert Lookup(r, "CDELT1") == Lookup(h, "CDELT1") by {
      ExtendReads(h, cards, "CDELT1");
    }
    assert Lookup(r, "CRVAL1") == Lookup(h, "CRVAL1") by {
      ExtendReads(h, cards, "CRVAL1");
    }
    ExtendReads(h, cards, "CRPIX1");
  }

  /* ------------------------------------------------ pixel -> wavelength map */

  /** The linear map the calibration cards describe, evaluated at 0-based
      pixel `p` (FITS pixels are 1-based, hence `p + 1`). */
  function WavelengthAt(d: Dispersion, p: int): real
  {
    d.crval + ((p + 1) as real - ReferencePixel) * d.cdelt
  }

  /** The wavelength of every pixel of an `n`-pixel spectrum. */
  function Wavelengths(d: Dispersion, n: nat): (w: seq<real>)
    ensures |w| == n
  {
    seq(n, p requires 0 <= p < n => WavelengthAt(d, p))
  }

  /** For either arm the step is positive, so wavelength strictly increases
      with pixel index, and the reference pixel (0-based 2047) sits at CRVAL. */
  lemma WavelengthsIncrease(ch: Channel, n: nat)
    ensures var w := Wavelengths(DispersionOf(ch), n);
            forall i, j :: 0 <= i < j < n ==> w[i] < w[j]
    ensures 2047 < n ==> Wavelengths(DispersionOf(ch), n)[2047] == DispersionOf(ch).crval
  {
    var d := DispersionOf(ch);
    var w := Wavelengths(d, n);
    forall i, j | 0 <= i < j < n ensures w[i] < w[j] {
      assert w[j] - w[i] == (j - i) as real * d.cdelt;
    }
  }
}
