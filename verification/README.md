# Spectrograph calibration pipeline — Dafny model

This project models the three batch scripts of a small spectrograph
calibration pipeline:

1. **save_1d_spec** (module `Save1dSpec`). It reads the lamp manufacturer, lamp type,
   CCD, exposure time and ID from a file stem such as
   `Photron_ThAr_Red_60s_02`. It subtracts a dark frame from a 2D arc-lamp
   image, sums the result over the spatial rows into a 1D spectrum, and
   wraps that spectrum in a new primary HDU whose header carries BRAND,
   LAMP, CCD, EXPTIME and ID. Before that it draws a preview plot whose
   title is built from the stem's fields. The FITS library refuses a string card value
   that is not printable ASCII, so such a stem aborts the stage.
2. **apply_wavelength_calibration** (module `WavelengthCalibration`). It looks
   up the CCD card. For `"Blue"` or `"Red"` it appends the fixed linear
   calibration (CRPIX1 = 2048, plus that arm's CDELT1 and CRVAL1) to the
   header. The data array is left unchanged.
3. **measure_fluxes** (module `MeasureFluxes`). For every window
   (line_start, line_end) of a line list, it sums the spectrum over the
   pixels whose wavelength is strictly inside the window. It also finds the
   window's midpoint and the first pixel nearest that midpoint. Each flux is
   normalised by the exposure time and the 61 fibres. The result is a
   `pixel, Wavelength, Flux` table with one row per line, in input order.

Supporting modules:

- `Outcomes` holds `Option`, `Result`, and the errors the scripts raise.
  Each error's comment names the Python exception that would have aborted
  the run, where there is one. `ZeroExposure` has no exception behind it
  (see below).
- `Text` models Python's `str.split`, one-character `str.strip` and
  `int()` on a decimal literal.
- `Fits` models a FITS header as an ordered list of cards. Reading a key
  returns the first card with that key. `header[k] = v` overwrites or
  appends a card; a string value must be printable ASCII. `extend` appends
  the cards one at a time the way the library's `append` does by default:
  a keyword card goes in before any COMMENT, HISTORY or blank cards that
  end the header, and each non-blank appended card uses up one trailing
  blank card, if there is one.

Every operation is a pure function over `int`, `real`, `string` and
sequences, except `MeasureFlux` (the loop of `measure_flux`) and
`MeasureLines` (the body of `main`), which are methods.
Pixel counts are mathematical integers. Wavelengths, spectra and fluxes
are exact reals. The calibration constants are decimal literals, so they
are exact.

The model follows the code, including four behaviours a reader might not expect:

- The stem parser needs only three `_` pieces, not five. It reads pieces
  0, 1 and 2, then the last two pieces. With four pieces, piece 2 is both
  the CCD and the exposure token.
- The preview plot is drawn before the output header is made, so a stem
  whose fields give a title the plotting library cannot draw (such as
  unbalanced math between `$` signs) aborts stage 1 with that error first.
- For an unknown channel the script still appends CRPIX1. It sets no
  CDELT1/CRVAL1. It does not abort.
- A zero exposure time does not raise in the script: numpy produces
  non-finite values. Reals have no infinity, so the model reports
  `ZeroExposure` instead, but only when there is at least one line to
  divide. An empty line list gives an empty table whatever the exposure.

## Model

| member | source | states |
|---|---|---|
| Text.Split | src/scripts/save_1d_spec.py:23-27 | `split("_")` yields one more piece than there are separators, and no piece contains the separator |
| Text.JoinSplit | src/scripts/save_1d_spec.py:23-27 | joining the pieces of a split with the separator gives back the original stem, so the split loses nothing |
| Text.SplitJoin | src/scripts/save_1d_spec.py:23-27 | splitting a join of separator-free pieces gives back exactly those pieces |
| Text.Strip | src/scripts/save_1d_spec.py:26 | `strip("s")` leaves a string with no `s` at either end, and the input is a run of `s`, then the result, then a run of `s` |
| Text.StripUnique | src/scripts/save_1d_spec.py:26 | any such decomposition determines the strip result, so `Strip` is fully characterised by the property above |
| Text.ParseInt | src/scripts/save_1d_spec.py:26 | `int()` succeeds exactly on an optionally signed non-empty digit string, and an unsigned literal gives a non-negative value |
| Text.ParseLeadingZero | src/scripts/save_1d_spec.py:26 | a leading zero does not change the value `int()` reads from a digit string, so `060s` and `60s` give the same exposure |
| Text.ParseSign | src/scripts/save_1d_spec.py:26 | a leading `+` keeps the value `int()` reads from a digit string and a leading `-` negates it |
| Text.ParseShowInt | src/scripts/save_1d_spec.py:26 | parsing the decimal text of any integer returns that integer |
| Save1dSpec.ParseExposure | src/scripts/save_1d_spec.py:26 | the exposure token parses exactly when the token with `s` stripped from both ends is an integer literal, and then the value is what `int()` reads from the stripped token; otherwise the error names the token |
| Save1dSpec.ParseStem | src/scripts/save_1d_spec.py:21-29 | fewer than three pieces is the index error; on success manufacturer, lamp and CCD are pieces 0-2, the ID is the last piece, and the exposure is the parsed second-to-last piece |
| Save1dSpec.ParseStemOfPieces | src/scripts/save_1d_spec.py:23-27 | for a stem built from `_`-free pieces: under three pieces is an index error, a non-integer second-to-last piece is a value error, and otherwise the keywords come from positions 0, 1, 2 and the last two, so extra middle pieces are ignored |
| Save1dSpec.ParseFormatStem | src/scripts/save_1d_spec.py:21-29 | a stem written in the `<brand>_<lamp>_<ccd>_<N>s_<id>` convention parses back to exactly the keywords it was written from |
| Save1dSpec.ParseExampleStem | tests/test_save_1d_spec.py:18-24 | `Photron_ThAr_Red_60s_02` parses to ("Photron", "ThAr", "Red", 60, "02") |
| Save1dSpec.Subtract | src/scripts/save_1d_spec.py:61 | `image - dark` has the same shape, and every pixel is the difference of the two input pixels |
| Save1dSpec.ColumnTotalOfDifference | src/scripts/save_1d_spec.py:61 | the column sum of `image - dark` equals the image's column sum minus the dark's column sum |
| Save1dSpec.Collapse | src/scripts/save_1d_spec.py:61 | it succeeds exactly when the shapes agree; the 1D spectrum has one entry per image column, and entry j is column-sum(image)[j] minus column-sum(dark)[j] |
| Save1dSpec.MakeNew1dFits | src/scripts/save_1d_spec.py:32-42 | it succeeds exactly when manufacturer, lamp, CCD and ID are all printable ASCII; otherwise the error names the first refused card in assignment order BRAND, LAMP, CCD, ID; on success the HDU holds the spectrum unchanged, BRAND, LAMP, CCD, EXPTIME and ID read back as the five inputs, and NAXIS1 equals the spectrum length |
| Save1dSpec.HeaderRoundTrip | tests/test_save_1d_spec.py:38-48 | for printable keywords, making the header succeeds and reading the five keyword cards back returns the keywords it was made from |
| Save1dSpec.SaveSpectrum | src/scripts/save_1d_spec.py:45-76 | the stage succeeds exactly when the stem parses, the shapes agree, the plot title `"<brand> <lamp> (<ccd>): <N>s exposure"` can be drawn and the string keywords are printable ASCII; failures come in script order: the stem error passed through, then a shape mismatch, then the undrawable title, then the refused card; the output is one-dimensional with one value per column (the dark-subtracted column sum), and its header reads back the parsed keywords |
| Fits.Lookup | src/scripts/apply_wavelength_calibration.py:25-26 | a key read finds nothing exactly when no card has that key; otherwise it returns the value of the first card with that key |
| Fits.Set | src/scripts/save_1d_spec.py:36-40 | after `header[k] = v`, key k reads v, every other key reads as before, and the header grows by one card only when k was new |
| Fits.LookupAppend | src/scripts/apply_wavelength_calibration.py:40 | a key read in an appended header finds the old card if there was one, and the new one otherwise |
| Fits.Extend | src/scripts/apply_wavelength_calibration.py:40 | the header never shrinks and grows by at most one card per added card |
| Fits.AppendReads | src/scripts/apply_wavelength_calibration.py:40 | for every keyword other than the blank one, a header after one `append` reads exactly like the plain concatenation of the header and the card |
| Fits.AppendKeywordCards | src/scripts/apply_wavelength_calibration.py:40 | after one `append`, the header's keyword cards are the old ones in order followed by the new card when it is one |
| Fits.ExtendReads | src/scripts/apply_wavelength_calibration.py:40 | for every keyword other than the blank one, an extended header reads like the concatenation: a keyword already present keeps its value, an absent one reads as in the added cards |
| Fits.ExtendReadsAll | src/scripts/apply_wavelength_calibration.py:40 | the same for all keywords at once, and a keyword not among the added cards reads as before |
| Fits.ExtendKeywordCards | src/scripts/apply_wavelength_calibration.py:40 | the keyword cards of an extended header are the old keyword cards followed by the added ones, in order; only commentary cards can end up elsewhere |
| Fits.ExtendPlain | src/scripts/apply_wavelength_calibration.py:40 | on a header that is empty or ends in a keyword card, extending by keyword cards is exactly concatenation |
| WavelengthCalibration.ChannelOf | src/scripts/apply_wavelength_calibration.py:32-37 | Blue is selected exactly for the string "Blue" and Red exactly for "Red"; nothing else selects an arm |
| WavelengthCalibration.DispersionOf | src/scripts/apply_wavelength_calibration.py:33-36 | both arms have a positive CDELT |
| WavelengthCalibration.CalibrationCards | src/scripts/apply_wavelength_calibration.py:29-37 | CRPIX1 is 2048 for every channel; a known arm adds its CDELT1 and CRVAL1; an unknown channel adds neither; all of them are keyword cards |
| WavelengthCalibration.ApplyCalibration | src/scripts/apply_wavelength_calibration.py:22-41 | a missing CCD or NAXIS1 card is a key error, checked in that order, and otherwise it succeeds; the data is unchanged; every pre-existing keyword keeps its value, every absent one reads as in the calibration cards, and every keyword the calibration does not write reads as before |
| WavelengthCalibration.CalibrationPlacement | src/scripts/apply_wavelength_calibration.py:40 | the calibrated header's keyword cards are the old ones followed by the calibration cards, and on a header that is empty or ends in a keyword card the new header is exactly the old one followed by the calibration cards |
| WavelengthCalibration.CalibrateKnownChannel | src/scripts/apply_wavelength_calibration.py:30-40 | for either arm, a spectrum with no prior calibration cards reads back CRPIX1 = 2048 and that arm's CDELT1 and CRVAL1 after the header is extended |
| WavelengthCalibration.CalibrateRed | src/scripts/apply_wavelength_calibration.py:30-37 | an uncalibrated Red spectrum reads back CRPIX1 = 2048, CDELT1 = 0.5185891473977 and CRVAL1 = 6781.932617188 |
| WavelengthCalibration.CalibrateBlue | src/scripts/apply_wavelength_calibration.py:30-34 | an uncalibrated Blue spectrum reads back CRPIX1 = 2048, CDELT1 = 0.5470085470085 and CRVAL1 = 4799.726495726 |
| WavelengthCalibration.CalibrateUnknownChannel | src/scripts/apply_wavelength_calibration.py:29-40 | any other CCD value takes neither branch: CDELT1/CRVAL1 read exactly as before, and a header without CRPIX1 reads CRPIX1 = 2048 afterwards |
| WavelengthCalibration.WavelengthsIncrease | src/scripts/apply_wavelength_calibration.py:30-37 | under the linear FITS map, wavelength strictly increases with pixel index for both arms, and pixel 2048 (1-based) sits at CRVAL |
| MeasureFluxes.Masked | build/lib/scripts/measure_fluxes.py:27-28 | the masked selection holds no more values than the spectrum |
| MeasureFluxes.MaskedContents | build/lib/scripts/measure_fluxes.py:27-28 | every selected value is the value of a pixel strictly inside the window, the value of every such pixel is selected, and exactly one value is selected per such pixel |
| MeasureFluxes.MaskedSplit | build/lib/scripts/measure_fluxes.py:27-28 | the selection keeps pixel order: splitting the pixels at any point, the values selected from the first part come before those selected from the rest |
| MeasureFluxes.PixelContribution | build/lib/scripts/measure_fluxes.py:26-28 | raising one pixel by d raises a line's flux by d if that pixel's wavelength is strictly inside the window, and otherwise (including exactly on a boundary) leaves the flux unchanged |
| MeasureFluxes.NoPixelInside | build/lib/scripts/measure_fluxes.py:27-28 | a window containing no pixel measures exactly 0 |
| MeasureFluxes.EmptyWindow | build/lib/scripts/measure_fluxes.py:27-28 | a window with start >= end, or one lying wholly below or above the wavelength range, measures exactly 0 |
| MeasureFluxes.MaskedArangePrefix | build/lib/scripts/measure_fluxes.py:27 | on the axis 0..k-1, a window with integer ends (lo, hi) selects exactly pixels lo+1 to hi-1, clipped to the axis |
| MeasureFluxes.ExampleWindow | tests/test_measure_fluxes.py:32-43 | with wavelengths 0..99 and the window (40, 60), exactly pixels 41..59 contribute |
| MeasureFluxes.MeasureFlux | build/lib/scripts/measure_fluxes.py:23-30 | it returns exactly one flux per line-list row, in row order; flux i is the sum of the spectrum over the pixels strictly inside window i |
| MeasureFluxes.Midpoint | build/lib/scripts/measure_fluxes.py:43-45 | the midpoint is equally far from line_start and line_end |
| MeasureFluxes.NearestPixel | build/lib/scripts/measure_fluxes.py:48-50 | the pixel is in range, no pixel is nearer the midpoint, every earlier pixel is strictly farther (first minimum), and it is the only index with these properties |
| MeasureFluxes.ExposureOf | build/lib/scripts/measure_fluxes.py:57 | a missing EXPTIME is a key error; an integer is taken as is; a float is truncated toward zero; a string gives the value `int()` reads from it when it is an integer literal, and otherwise a value error naming the string |
| MeasureFluxes.Normalise | build/lib/scripts/measure_fluxes.py:57-59 | multiplying the normalised flux by the exposure time and by 61 gives back the raw flux |
| MeasureFluxes.Tabulate | build/lib/scripts/measure_fluxes.py:43-61 | one row per line, in order; row i holds line i's midpoint, the first pixel nearest that midpoint, and a flux that times the exposure time and 61 gives back flux i |
| MeasureFluxes.MeasureLines | build/lib/scripts/measure_fluxes.py:33-64 | errors come in script order: NAXIS1, empty argmin, EXPTIME, then a zero exposure with at least one line; an empty line list succeeds whatever the exposure; on success the columns are exactly `pixel, Wavelength, Flux`; there is one row per line in input order, and each row holds the midpoint, the first nearest pixel and a flux that times EXPTIME times 61 is the window sum |

## Left out

- File I/O is not modelled: `fits.open`, `writeto`, `pd.read_csv`, `to_csv`, and the `overwrite` behaviour of writes. The stages take and return in-memory values.
- Save1dSpec.SaveSpectrum: the preview plot is modelled only by its title. Whether the plotting library can draw a title is a parameter, because its mathtext rules (text between `$` signs) are not part of this model. The figure itself and the written image file are not modelled.
- The `print` progress messages and the argparse `__main__` blocks are not modelled. They have no behaviour beyond I/O.
- build/lib/scripts/paths.py is not part of this model. It only defines filesystem paths.
- `Path.stem` extraction is not modelled. The parser takes the stem string as its input.
- MeasureFluxes.MeasureLines: takes the wavelength of every pixel as an input. The library's `pixel_to_world_values` is not modelled. The 0-based linear map it is assumed to compute is stated separately as `WavelengthCalibration.Wavelengths`.
- MeasureFluxes.MeasureLines: reports a zero exposure time with a non-empty line list as `ZeroExposure`. numpy instead returns infinite or NaN fluxes, which reals cannot represent.
- MeasureFluxes.MeasureFlux: stores flux i at position i. The script writes `fluxes[index]` with the row label from `iterrows`; `pd.read_csv` gives the default 0-based integer index, so label and position agree.
- MeasureFluxes.NearestPixel: does not model NaN wavelengths. numpy's argmin returns the first NaN in that case.
- MeasureFluxes.MeasureFlux: requires the wavelength and spectrum arrays to have the same length. In the script both come from the same NAXIS1 axis; numpy would raise on a mismatched boolean mask.
- Text.ParseInt: accepts only an optional sign followed by ASCII digits. Python's `int()` also allows surrounding whitespace, `_` between digits and non-ASCII decimal digits.
- Save1dSpec.Collapse: treats every shape mismatch as an error. numpy broadcasting would also accept some mismatches, such as a single-row dark frame. Unsigned-integer wrap-around in `image - dark` is not modelled, because counts are mathematical integers.
- Save1dSpec.MakeNew1dFits: the primary header is modelled by its NAXIS and NAXIS1 cards only. SIMPLE, BITPIX and EXTEND, and the library's handling of empty data, are not modelled.
- WavelengthCalibration.CalibrationCards: models only the CRPIX1, CDELT1 and CRVAL1 cards. The WCS library may write further cards (such as WCSAXES), and may emit default values for CDELT1/CRVAL1 when no arm matched. That library code is not part of this model.
- Fits.Extend: does not promise that the old header stays a prefix of the new one, or that it grows by exactly one card per added card. The library's placement does neither when the header ends in commentary or blank cards. `Fits.ExtendPlain` states when both do hold.
- WavelengthCalibration.ApplyCalibration: does not promise that the old header is a prefix of the calibrated one, for the same reason. `WavelengthCalibration.CalibrationPlacement` states what does hold.
- Fits.Extend: reads of the blank keyword are not stated, since `header[""]` is not a keyword read the scripts make. A long string value that the library splits over several 80-character records uses up one trailing blank card here rather than one per record. The removal of structural keywords (SIMPLE, BITPIX, NAXIS…) from the added cards and card comments are not modelled; the calibration cards hold neither.
- Fits.Set: a new keyword goes at the very end of the header. The library places it as `append` does, before trailing commentary cards; the freshly made primary header has none, so the result is the same there.
- The `wcs.NAXIS = naxis` assignment is not modelled. It does not change the header that is written.
- The known-Gaussian flux test is not modelled, because it relies on floating-point `exp` and tolerance comparison. Only its window setup is proved, in `ExampleWindow`.
- The `main()`-level tests are not modelled. They call `main` with a different number of arguments than it takes, and only check that files exist.
- Idempotence of the stages needs no lemma: every stage is a pure function of its inputs.
