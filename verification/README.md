# Ground-track speed estimation from geotagged images — Dafny model

This project models the pure logic of `main.py`, a program that photographs
the Earth from the ISS, writes the station's position into each image's EXIF
GPS tags, and afterwards estimates the ground-track speed from consecutive
images. Exact `real` and `int` arithmetic replaces Python floats.

Modules, following the data flow of the program:

- `Types` — `Option` and the decoded fix `Fix(lat, lon, time)`.
- `Decimal` — the digit strings of Python's integer formatting, and parsers
  that read them back, so that every rendering has a proved inverse.
- `Exif` — `extract_coordinates_and_timestamp` from the already-read EXIF
  dictionary onward: `Extract` exactly as written, and `ExtractIntended`,
  which reads the hemisphere letters from the GPS entries that the EXIF 2.3
  standard (section 4.6.6) assigns to them.
- `Capture` — `convert` and the four GPS tags `custom_capture` writes, and
  what the two decoders make of them.
- `Speed` — `calculate_speed`, the pair filter of `main`, the sample list
  and the mean.
- `Report` — the `"{avg:.4f} km/s\n"` result line.

Foreign pieces enter as parameters: the haversine distance is an arbitrary
function `Distance` of the four coordinates (only whether it returns zero
matters to the filter), and `strptime` is an arbitrary `TimeParser` from
text to whole seconds (`None` where Python raises).

## Model

| member | source | states |
|---|---|---|
| Exif.Extract | main.py:117-145 | Yields a fix exactly when tags 0x8825 and 0x9003 exist, the GPS block holds entries 1-4 with indexable triples at 2 and 4, and the timestamp parses; `None` otherwise. Latitude is the degrees/minutes/seconds value of entry 2, negated exactly when entry 3 is "S"; longitude is that of entry 4, negated exactly when entry 1 is "W" |
| Exif.ExtractIntended | main.py:117-140 | Same success condition, timestamp and magnitudes as `Extract`, but latitude is negated exactly when entry 1 (GPSLatitudeRef) is "S" and longitude exactly when entry 3 (GPSLongitudeRef) is "W" |
| Exif.SameMagnitudes | main.py:120-127 | The two decoders succeed on the same inputs, agree on the timestamp, and differ at most in the sign of each coordinate |
| Capture.Convert | main.py:23-25 | The flag is true exactly when the sign is negative; the text reads back as exactly three rationals degrees/1, minutes/1, tenths/10, both leniently and with leading zeros refused, and starts with '0' only for zero degrees |
| Capture.ConvertTextUnique | main.py:24 | Any text that reads back as degrees/1, minutes/1, tenths/10 with no number written with a superfluous leading zero is exactly the text of `convert`, so the f-string output is fixed byte for byte |
| Capture.CapturedGps | main.py:53-56 | The GPS block holds exactly entries 1-4; entry 1 (GPSLatitudeRef) is "N" or "S", and "S" exactly for a negative latitude; entry 3 (GPSLongitudeRef) is "E" or "W", and "W" exactly for a negative longitude |
| Capture.StoredAngle | main.py:24 | The text written by `convert` reads back as a triple whose decimal-degree value is degrees + minutes/60 + (tenths/10)/3600 |
| Capture.CapturedFixNeverNegated | main.py:124-127 | For any fix that `custom_capture` writes (latitude ref N/S in entry 1, longitude ref E/W in entry 3), the decoder as written returns both coordinates unsigned: a southern or western position comes back with the wrong sign |
| Capture.CapturedFixRoundTrip | main.py:53-56 | With the intended decoder, capture followed by decoding restores the signed decimal degrees of both coordinates and the timestamp |
| Capture.SouthernFixLosesSign | main.py:124-127 | A fix at 51° 30' 0.0" South, 0° East decodes to +51.5 as written and to -51.5 as intended |
| Decimal.Show | main.py:24 | The rendering of a non-negative integer is a non-empty digit string without a leading zero whose value is that integer |
| Decimal.ShowUnique | main.py:187 | Any digit string without a leading zero is the rendering of its own value, so the integer rendering is unique |
| Decimal.ShowRationalsReadsBack | main.py:24 | The comma-separated `num/den` text of a non-empty list of rationals reads back as that list, leniently or canonically |
| Decimal.ParseRationalsOnlyShow | main.py:24 | A text that reads back canonically as a list of rationals is exactly that list's comma-separated `num/den` text |
| Decimal.Pad | main.py:187 | A fraction below 10^width is rendered with exactly `width` digits whose value is the fraction |
| Speed.SpeedOf | main.py:164-169 | For a non-zero divisor the speed is non-negative, times the elapsed seconds' magnitude gives the distance's magnitude, and is positive when the distance is non-zero |
| Speed.PairSample | main.py:212-231 | A pair yields a sample exactly when both fixes exist, the names differ, the distance is non-zero and the elapsed seconds are non-zero; the sample carries that distance and elapsed time and a valid speed |
| Speed.CollectSamples | main.py:203-232 | The loop over i = 1 .. len-1 collects exactly the samples of the contributing adjacent pairs, in capture order |
| Speed.TotalSpeed | main.py:237 | The loop total is the sum of the sample speeds |
| Speed.AverageSpeed | main.py:235-237 | The average is the mean of the collected speeds; there is one sample per contributing pair; the average is never negative, is non-zero exactly when some pair contributed, is 0 for 0 or 1 images, and lies between the smallest and largest sample speed |
| Speed.SamplesValid | main.py:216-220 | Every collected sample has non-zero distance, non-zero elapsed time, and a positive speed equal to the distance's magnitude over the elapsed time's magnitude |
| Speed.SamplesBound | main.py:206 | There are at most len(images) - 1 samples, and none for 0 or 1 images |
| Speed.SamplesSound | main.py:206-231 | Every collected sample is the one produced by some contributing adjacent pair (i-1, i) |
| Speed.SamplesComplete | main.py:206-231 | Every contributing adjacent pair's sample is among the collected samples |
| Speed.SamplesInPairOrder | main.py:206-231 | The sample list is exactly one sample per contributing pair, in increasing pair order: there is an increasing list of the contributing indices whose k-th pair yields the k-th sample |
| Speed.SamplesCount | main.py:206-231 | The number of samples equals the number of contributing adjacent pairs |
| Speed.MeanBetween | main.py:235-237 | A non-empty mean is at least one sample speed and at most another |
| Report.RenderSpeed | main.py:187 | The line is the integer part without leading zeros, a '.', exactly four digits holding the fraction, then " km/s" and a newline |
| Report.RenderSpeedReadsBack | main.py:187 | Reading the rendered line back gives the same number of ten-thousandths of a km/s |
| Report.ParseSpeedLineOnlyRendered | main.py:187 | The only line that reads back as a given speed is its rendering, so the rendering is fixed byte for byte |
| Report.RenderExample | main.py:186-187 | 7.6621 km/s renders as "7.6621 km/s\n" |

## Findings

| source | as written | input that shows it | evidently intended | confidence | as-written member | corrected member |
|---|---|---|---|---|---|---|
| main.py:124-127 | Latitude is negated when GPS entry 3 is "S" and longitude when GPS entry 1 is "W"; in the EXIF GPS block entry 1 is GPSLatitudeRef (N/S) and entry 3 is GPSLongitudeRef (E/W), as `custom_capture` writes them (main.py:53-56), so neither test can ever succeed | A fix at 51° 30' 0.0" South, 0° East decodes to latitude +51.5 | Negate latitude when entry 1 is "S" and longitude when entry 3 is "W", giving -51.5 | high; not executed | Capture.SouthernFixLosesSign | Capture.CapturedFixRoundTrip |

The as-written decoder is `Exif.Extract`; `Capture.CapturedFixNeverNegated`
proves it never negates any captured fix. The corrected decoder is
`Exif.ExtractIntended`; `Capture.CapturedFixRoundTrip` proves the capture and
decode round trip for every angle. Both decoders share one definition,
`Exif.DecodeWith`, that differs only in which GPS entries it consults.

## Left out

- Camera setup and the capture loop (main.py:30-106): hardware, `sleep`, wall-clock time and file sizes on disk.
- The ISS position lookup and skyfield's `signed_dms`: `Capture.Convert` takes their sign, degrees, minutes and tenths of seconds as given integers.
- `Capture.Convert`: the `.0f` rounding of `seconds*10` (and of the float degrees and minutes) is taken as already done; the model starts from integers.
- `Image.open` and `_getexif`: the model starts from the decoded EXIF dictionary; a missing dictionary (`_getexif` returning `None`) is not modelled.
- `datetime.strptime`: abstracted to the `TimeParser` parameter giving whole seconds; timestamps are integers, so elapsed time is a plain difference.
- How the camera stores a tag string and the imaging library reads it back is not part of this model: `Capture.StoredTag` reads it as the list of rationals it spells out, or as text otherwise.
- The haversine distance (main.py:148-161) is floating-point trigonometry and is a function parameter; its symmetry, its zero on equal points and the 6779 km radius are not modelled.
- Floating-point arithmetic: all arithmetic is exact, so Python's rounding in `/` and in `sum` is not modelled.
- `Report.RenderSpeed`: takes the speed as a whole number of ten-thousandths of a km/s; the `.4f` rounding of the float average to that number is not modelled.
- `main` runs the analysis only when the capture returned images (main.py:201); with no images it writes no result file, whereas `Speed.AverageSpeed` returns 0 for an empty input.
- `main` extracts each interior image twice (main.py:208-209); extraction is deterministic, so the model extracts once per image.
- The `except ZeroDivisionError` around `calculate_speed` (main.py:226-232) cannot fire after the filter; `Speed.SpeedOf` requires a non-zero divisor instead.
- File writing, console printing and the image-deletion loop (main.py:239-247): I/O.
- The commented-out CSV logger (main.py:172-180).
