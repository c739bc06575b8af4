/** Decoding of a geotag from an image's already-read EXIF dictionary
    (`extract_coordinates_and_timestamp`, main.py lines 109-145).

    The EXIF dictionary maps tag ids to values. Tag 0x8825 holds the GPS
    sub-dictionary, itself keyed by the GPS IFD tag numbers of section 4.6.6
    of the EXIF 2.3 standard; tag 0x9003 holds the DateTimeOriginal text. */
module Exif {
  import opened Types

  const GpsInfoTag: int := 0x8825
  const DateTimeOriginalTag: int := 0x9003

  // GPS IFD tag numbers (EXIF 2.3, section 4.6.6)
  const GpsLatitudeRef: int := 1
  const GpsLatitude: int := 2
  const GpsLongitudeRef: int := 3
  const GpsLongitude: int := 4

  /** A value inside the GPS sub-dictionary: a reference letter such as "N",
      or a tuple of rationals (degrees, minutes, seconds), already divided out. */
  datatype GpsEntry = GpsText(text: string) | GpsRationals(parts: seq<real>)

  /** A value of the top-level EXIF dictionary. `ExifOther` stands for every
      value that is neither a GPS block nor text (integers, bytes, ...). */
  datatype ExifEntry = GpsBlock(gps: map<int, GpsEntry>) | ExifText(text: string) | ExifOther

  /** Stands for `datetime.strptime(text, '%Y:%m:%d %H:%M:%S')` giving whole
      seconds, or `None` where Python raises ValueError. */
  type TimeParser = string -> Option<int>

  /** A degrees/minutes/seconds entry that Python can index at 0, 1 and 2. */
  predicate IsDms(e: GpsEntry) {
    e.GpsRationals? && |e.parts| >= 3
  }

  /** Decimal degrees of a degrees/minutes/seconds triple, before any sign. */
  function Degrees(dms: seq<real>): (r: real)
    requires |dms| >= 3
  {
    dms[0] + dms[1] / 60.0 + dms[2] / 3600.0
  }

  /** The conditions under which the extractor's body raises nothing: both
      top-level tags exist, tag 0x8825 is a GPS block holding the four GPS
      entries with indexable triples at 2 and 4, and tag 0x9003 is text that
      parses as a timestamp. Any other input ends in the `except` branch. */
  predicate Decodable(exif: map<int, ExifEntry>, parse: TimeParser) {
    && GpsInfoTag in exif && DateTimeOriginalTag in exif
    && exif[GpsInfoTag].GpsBlock?
    && GpsLatitudeRef in exif[GpsInfoTag].gps
    && GpsLatitude in exif[GpsInfoTag].gps
    && GpsLongitudeRef in exif[GpsInfoTag].gps
    && GpsLongitude in exif[GpsInfoTag].gps
    && IsDms(exif[GpsInfoTag].gps[GpsLatitude])
    && IsDms(exif[GpsInfoTag].gps[GpsLongitude])
    && exif[DateTimeOriginalTag].ExifText?
    && parse(exif[DateTimeOriginalTag].text).Some?
  }

  /** Negates `magnitude` when the GPS entry is the reference letter `letter`. */
  function Hemisphere(magnitude: real, reference: GpsEntry, letter: string): (r: real) {
    if reference == GpsText(letter) then -magnitude else magnitude
  }

  /** The decoder, parameterised by which GPS entries it consults for the
      South and West reference letters. */
  function DecodeWith(exif: map<int, ExifEntry>, parse: TimeParser, southTag: int, westTag: int): (r: Option<Fix>)
    requires southTag in {GpsLatitudeRef, GpsLongitudeRef} && westTag in {GpsLatitudeRef, GpsLongitudeRef}
  {
    if !Decodable(exif, parse) then None
    else
      var gps := exif[GpsInfoTag].gps;
      var lat := Degrees(gps[GpsLatitude].parts);
      var lon := Degrees(gps[GpsLongitude].parts);
      Some(Fix(Hemisphere(lat, gps[southTag], "S"),
               Hemisphere(lon, gps[westTag], "W"),
               parse(exif[DateTimeOriginalTag].text).value))
  }

  /** The extractor exactly as main.py writes it: latitude is negated when GPS
      entry 3 is "S" and longitude when GPS entry 1 is "W". */
  function Extract(exif: map<int, ExifEntry>, parse: TimeParser): (r: Option<Fix>)
    ensures GpsInfoTag !in exif || DateTimeOriginalTag !in exif ==> r.None?
    ensures r.Some? <==> Decodable(exif, parse)
    ensures r.Some? ==> r.value.time == parse(exif[DateTimeOriginalTag].text).value
    ensures r.Some? ==>
      var gps := exif[GpsInfoTag].gps;
      && (gps[GpsLongitudeRef] == GpsText("S") ==> r.value.lat == -Degrees(gps[GpsLatitude].parts))
      && (gps[GpsLongitudeRef] != GpsText("S") ==> r.value.lat == Degrees(gps[GpsLatitude].parts))
      && (gps[GpsLatitudeRef] == GpsText("W") ==> r.value.lon == -Degrees(gps[GpsLongitude].parts))
      && (gps[GpsLatitudeRef] != GpsText("W") ==> r.value.lon == Degrees(gps[GpsLongitude].parts))
  {
    DecodeWith(exif, parse, GpsLongitudeRef, GpsLatitudeRef)
  }

  /** The extractor as the EXIF standard and the rest of the program intend
      it: latitude takes its sign from GPSLatitudeRef (entry 1) and longitude
      from GPSLongitudeRef (entry 3). */
  function ExtractIntended(exif: map<int, ExifEntry>, parse: TimeParser): (r: Option<Fix>)
    ensures GpsInfoTag !in exif || DateTimeOriginalTag !in exif ==> r.None?
    ensures r.Some? <==> Decodable(exif, parse)
    ensures r.Some? ==> r.value.time == parse(exif[DateTimeOriginalTag].text).value
    ensures r.Some? ==>
      var gps := exif[GpsInfoTag].gps;
      && (gps[GpsLatitudeRef] == GpsText("S") ==> r.value.lat == -Degrees(gps[GpsLatitude].parts))
      && (gps[GpsLatitudeRef] != GpsText("S") ==> r.value.lat == Degrees(gps[GpsLatitude].parts))
      && (gps[GpsLongitudeRef] == GpsText("W") ==> r.value.lon == -Degrees(gps[GpsLongitude].parts))
      && (gps[GpsLongitudeRef] != GpsText("W") ==> r.value.lon == Degrees(gps[GpsLongitude].parts))
  {
    DecodeWith(exif, parse, GpsLatitudeRef, GpsLongitudeRef)
  }

  /** Both decoders agree on everything but the signs: same success
      condition, same timestamp, same magnitudes. */
  lemma SameMagnitudes(exif: map<int, ExifEntry>, parse: TimeParser)
    ensures Extract(exif, parse).Some? <==> ExtractIntended(exif, parse).Some?
    ensures Extract(exif, parse).Some? ==>
      var a, b := Extract(exif, parse).value, ExtractIntended(exif, parse).value;
      && a.time == b.time
      && (a.lat == b.lat || a.lat == -b.lat)
      && (a.lon == b.lon || a.lon == -b.lon)
  {
  }
}
