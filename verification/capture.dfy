/** What the capture side writes into each image: the EXIF rendering of an
    angle (`convert`, main.py lines 14-25) and the four GPS tags set by
    `custom_capture` (main.py lines 44-59), together with what the decoder of
    module Exif makes of them. */
module Capture {
  import opened Types
  import opened Decimal
  import opened Exif

  /** `convert`: the sign, whole degrees, whole minutes and tenths of seconds
      of an angle as given by `signed_dms` (rounding of `seconds*10` is taken
      as done), rendered as the EXIF rational text "D/1,M/1,T/10" together
      with the flag "the angle is negative". */
  function Convert(sign: int, degrees: nat, minutes: nat, tenths: nat): (r: (bool, string))
    ensures r.0 <==> sign < 0
    ensures ParseRationals(r.1, false) == Some([Rational(degrees, 1), Rational(minutes, 1), Rational(tenths, 10)])
    ensures ParseRationals(r.1, true) == Some([Rational(degrees, 1), Rational(minutes, 1), Rational(tenths, 10)])
    ensures |r.1| >= 1 && (r.1[0] == '0' ==> degrees == 0)
  {
    var text := Show(degrees) + "/1," + Show(minutes) + "/1," + Show(tenths) + "/10";
    ConvertedTextReadsBack(degrees, minutes, tenths, text, false);
    ConvertedTextReadsBack(degrees, minutes, tenths, text, true);
    (sign < 0, text)
  }

  lemma {:induction false} ConvertedTextReadsBack(degrees: nat, minutes: nat, tenths: nat, text: string, canonical: bool)
    requires text == Show(degrees) + "/1," + Show(minutes) + "/1," + Show(tenths) + "/10"
    ensures ParseRationals(text, canonical) == Some([Rational(degrees, 1), Rational(minutes, 1), Rational(tenths, 10)])
  {
    ConvertedTextIsList(degrees, minutes, tenths, text);
    ShowRationalsReadsBack([Rational(degrees, 1), Rational(minutes, 1), Rational(tenths, 10)], canonical);
  }

  /** The text of `convert` is the list text of its three rationals. */
  lemma {:induction false} ConvertedTextIsList(degrees: nat, minutes: nat, tenths: nat, text: string)
    requires text == Show(degrees) + "/1," + Show(minutes) + "/1," + Show(tenths) + "/10"
    ensures text == ShowRationals([Rational(degrees, 1), Rational(minutes, 1), Rational(tenths, 10)])
  {
    var qs := [Rational(degrees, 1), Rational(minutes, 1), Rational(tenths, 10)];
    ConvertedTextShape(degrees, minutes, tenths, text);
    ListStep(qs, qs[0], qs[1..]);
    ListStep(qs[1..], qs[1], qs[2..]);
    assert qs[2..] == [qs[2]];
  }

  /** The text of `convert` as three `num/den` pieces joined by commas. */
  lemma {:induction false} ConvertedTextShape(degrees: nat, minutes: nat, tenths: nat, text: string)
    requires text == Show(degrees) + "/1," + Show(minutes) + "/1," + Show(tenths) + "/10"
    ensures text == RationalText(Rational(degrees, 1), "," +
                    RationalText(Rational(minutes, 1), "," + RationalText(Rational(tenths, 10), [])))
  {
    assert Show(1) == "1";
    assert Show(10) == Show(1) + [DigitChar(0)] == "10";
    var a, b, c := Show(degrees), Show(minutes), Show(tenths);
    var last := c + "/10";
    assert last == RationalText(Rational(tenths, 10), []);
    var middle := b + "/1," + last;
    assert middle == RationalText(Rational(minutes, 1), "," + last);
    assert text == a + "/1," + middle;
    assert text == RationalText(Rational(degrees, 1), "," + middle);
  }

  /** The text of `convert` is the only one without superfluous leading zeros
      that reads back as the rationals degrees/1, minutes/1, tenths/10. */
  lemma {:induction false} ConvertTextUnique(s: string, sign: int, degrees: nat, minutes: nat, tenths: nat)
    requires ParseRationals(s, true) == Some([Rational(degrees, 1), Rational(minutes, 1), Rational(tenths, 10)])
    ensures s == Convert(sign, degrees, minutes, tenths).1
  {
    ParseRationalsOnlyShow(s, [Rational(degrees, 1), Rational(minutes, 1), Rational(tenths, 10)]);
    ConvertedTextIsList(degrees, minutes, tenths, Convert(sign, degrees, minutes, tenths).1);
  }

  /** Decimal degrees of whole degrees, whole minutes and tenths of seconds. */
  function DmsValue(degrees: nat, minutes: nat, tenths: nat): (r: real) {
    degrees as real + minutes as real / 60.0 + (tenths as real / 10.0) / 3600.0
  }

  function RationalValues(qs: seq<Rational>): (r: seq<real>)
    requires forall i :: 0 <= i < |qs| ==> qs[i].den != 0
    ensures |r| == |qs|
    ensures forall i :: 0 <= i < |qs| ==> r[i] == qs[i].num as real / qs[i].den as real
  {
    seq(|qs|, i requires 0 <= i < |qs| => qs[i].num as real / qs[i].den as real)
  }

  /** How a rational tag text reads back from the stored image: as the tuple
      of its values when it is a list of rationals with non-zero denominators,
      and as plain text otherwise. */
  function StoredTag(text: string): (e: GpsEntry)
  {
    match ParseRationals(text, false)
    case Some(qs) =>
      if forall i :: 0 <= i < |qs| ==> qs[i].den != 0 then GpsRationals(RationalValues(qs)) else GpsText(text)
    case None => GpsText(text)
  }

  /** The GPS block `custom_capture` writes, given the two results of
      `convert`: GPSLatitudeRef is "S" or "N", GPSLongitudeRef "W" or "E". */
  function CapturedGps(latitude: (bool, string), longitude: (bool, string)): (r: map<int, GpsEntry>)
    ensures r.Keys == {GpsLatitudeRef, GpsLatitude, GpsLongitudeRef, GpsLongitude}
    ensures r[GpsLatitudeRef] in {GpsText("N"), GpsText("S")}
    ensures r[GpsLongitudeRef] in {GpsText("E"), GpsText("W")}
    ensures r[GpsLatitudeRef] == GpsText("S") <==> latitude.0
    ensures r[GpsLongitudeRef] == GpsText("W") <==> longitude.0
  {
    map[GpsLatitude := StoredTag(latitude.1),
        GpsLatitudeRef := GpsText(if latitude.0 then "S" else "N"),
        GpsLongitude := StoredTag(longitude.1),
        GpsLongitudeRef := GpsText(if longitude.0 then "W" else "E")]
  }

  /** The EXIF dictionary of an image captured with the given GPS tags and
      DateTimeOriginal text. */
  function CapturedExif(latitude: (bool, string), longitude: (bool, string), taken: string): (r: map<int, ExifEntry>) {
    map[GpsInfoTag := GpsBlock(CapturedGps(latitude, longitude)), DateTimeOriginalTag := ExifText(taken)]
  }

  /** The text `convert` writes reads back as the degrees/minutes/seconds
      triple whose decimal value is `DmsValue`. */
  lemma {:induction false} StoredAngle(sign: int, degrees: nat, minutes: nat, tenths: nat)
    ensures IsDms(StoredTag(Convert(sign, degrees, minutes, tenths).1))
    ensures Degrees(StoredTag(Convert(sign, degrees, minutes, tenths).1).parts) == DmsValue(degrees, minutes, tenths)
  {
    var qs := [Rational(degrees, 1), Rational(minutes, 1), Rational(tenths, 10)];
    var parts := [degrees as real, minutes as real, tenths as real / 10.0];
    assert RationalValues(qs) == parts;
  }

  /** As written, the decoder never negates a fix the capture side wrote: the
      South/West letters sit in entries 1 and 3, the decoder looks for "S" in
      entry 3 (which holds "E" or "W") and for "W" in entry 1 (which holds
      "N" or "S"). */
  lemma {:induction false} CapturedFixNeverNegated(
    latSign: int, latDeg: nat, latMin: nat, latTenths: nat,
    lonSign: int, lonDeg: nat, lonMin: nat, lonTenths: nat,
    taken: string, parse: TimeParser)
    requires parse(taken).Some?
    ensures Extract(CapturedExif(Convert(latSign, latDeg, latMin, latTenths),
                                 Convert(lonSign, lonDeg, lonMin, lonTenths), taken), parse)
         == Some(Fix(DmsValue(latDeg, latMin, latTenths), DmsValue(lonDeg, lonMin, lonTenths), parse(taken).value))
  {
    StoredAngle(latSign, latDeg, latMin, latTenths);
    StoredAngle(lonSign, lonDeg, lonMin, lonTenths);
    var exif := CapturedExif(Convert(latSign, latDeg, latMin, latTenths), Convert(lonSign, lonDeg, lonMin, lonTenths), taken);
    assert Decodable(exif, parse);
  }

  /** With the reference tags read from the entries the standard assigns, the
      capture/decode round trip restores the signed angle. */
  lemma {:induction false} CapturedFixRoundTrip(
    latSign: int, latDeg: nat, latMin: nat, latTenths: nat,
    lonSign: int, lonDeg: nat, lonMin: nat, lonTenths: nat,
    taken: string, parse: TimeParser)
    requires parse(taken).Some?
    ensures ExtractIntended(CapturedExif(Convert(latSign, latDeg, latMin, latTenths),
                                         Convert(lonSign, lonDeg, lonMin, lonTenths), taken), parse)
         == Some(Fix(if latSign < 0 then -DmsValue(latDeg, latMin, latTenths) else DmsValue(latDeg, latMin, latTenths),
                     if lonSign < 0 then -DmsValue(lonDeg, lonMin, lonTenths) else DmsValue(lonDeg, lonMin, lonTenths),
                     parse(taken).value))
  {
    StoredAngle(latSign, latDeg, latMin, latTenths);
    StoredAngle(lonSign, lonDeg, lonMin, lonTenths);
    var exif := CapturedExif(Convert(latSign, latDeg, latMin, latTenths), Convert(lonSign, lonDeg, lonMin, lonTenths), taken);
    assert Decodable(exif, parse);
  }

  /** A concrete witness: a fix at 51° 30' 0.0" South, 0° 0' 0.0" East is
      written with latitude "51/1,30/1,0/10" and reference "S"; the decoder as
      written reads it back as +51.5, the intended decoder as -51.5. */
  lemma SouthernFixLosesSign(taken: string, parse: TimeParser)
    requires parse(taken).Some?
    ensures var exif := CapturedExif(Convert(-1, 51, 30, 0), Convert(1, 0, 0, 0), taken);
      && Extract(exif, parse) == Some(Fix(51.5, 0.0, parse(taken).value))
      && ExtractIntended(exif, parse) == Some(Fix(-51.5, 0.0, parse(taken).value))
  {
    CapturedFixNeverNegated(-1, 51, 30, 0, 1, 0, 0, 0, taken, parse);
    CapturedFixRoundTrip(-1, 51, 30, 0, 1, 0, 0, 0, taken, parse);
  }
}
