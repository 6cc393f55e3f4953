/**
 * GPS decoding of an EXIF block as the bot does it (`extract_gps_info` with
 * its inner `convert_to_degrees`). The EXIF dictionary is what `piexif.load`
 * returns: IFD names mapped to tag numbers mapped to values. Degrees are
 * exact reals; the source computes them in floating point.
 */
module Gps {
  import opened Wrappers

  newtype byte = x: int | 0 <= x < 256

  /** An EXIF RATIONAL as piexif gives it: a (numerator, denominator) pair. */
  datatype Rational = Rational(num: int, den: int)

  /** The shapes of tag value that matter here. */
  datatype TagValue =
    | Bytes(data: seq<byte>)            // e.g. GPSLatitudeRef = b'N'
    | Rationals(parts: seq<Rational>)   // e.g. GPSLatitude = ((40, 1), (30, 1), (0, 1))
    | Number(n: int)

  type Ifd = map<int, TagValue>
  type ExifData = map<string, Ifd>

  // Tag numbers of piexif.GPSIFD.
  const GPS_LATITUDE_REF := 1
  const GPS_LATITUDE := 2
  const GPS_LONGITUDE_REF := 3
  const GPS_LONGITUDE := 4

  const NORTH: TagValue := Bytes(['N' as int as byte])
  const EAST: TagValue := Bytes(['E' as int as byte])

  /** A value `d, m, s = value` can unpack, each part with a non-zero denominator. */
  predicate IsDms(v: TagValue)
  {
    v.Rationals? && |v.parts| == 3 && forall i :: 0 <= i < 3 ==> v.parts[i].den != 0
  }

  function Ratio(q: Rational): real
    requires q.den != 0
  {
    q.num as real / q.den as real
  }

  /**
   * `convert_to_degrees(value)`: `d + m/60 + s/3600`; `None` stands for the
   * exception a value of another shape or a zero denominator raises.
   */
  function Degrees(v: TagValue): (r: Option<real>)
    ensures r.Some? <==> IsDms(v)
  {
    if IsDms(v) then
      var d, m, s := v.parts[0], v.parts[1], v.parts[2];
      Some(Ratio(d) + Ratio(m) / 60.0 + Ratio(s) / 3600.0)
    else None
  }

  /** The GPS IFD is present, non-empty, and holds both coordinates in a usable shape. */
  predicate HasUsableGps(exif: ExifData)
  {
    "GPS" in exif && |exif["GPS"]| > 0 &&
    var gps := exif["GPS"];
    GPS_LATITUDE in gps && GPS_LATITUDE_REF in gps &&
    GPS_LONGITUDE in gps && GPS_LONGITUDE_REF in gps &&
    IsDms(gps[GPS_LATITUDE]) && IsDms(gps[GPS_LONGITUDE])
  }

  /**
   * `extract_gps_info(exif_data)`: signed (latitude, longitude), negated unless
   * the reference is `b'N'` / `b'E'`; `None` when the GPS IFD is missing or
   * empty and for every exception (a missing key, a bad shape, a zero
   * denominator).
   */
  function ExtractGpsInfo(exif: ExifData): (r: Option<(real, real)>)
  {
    if "GPS" !in exif || |exif["GPS"]| == 0 then None
    else
      var gps := exif["GPS"];
      if GPS_LATITUDE !in gps then None
      else match Degrees(gps[GPS_LATITUDE])
        case None => None
        case Some(latAbs) =>
          if GPS_LATITUDE_REF !in gps then None
          else
            var lat := if gps[GPS_LATITUDE_REF] != NORTH then -latAbs else latAbs;
            if GPS_LONGITUDE !in gps then None
            else match Degrees(gps[GPS_LONGITUDE])
              case None => None
              case Some(lonAbs) =>
                if GPS_LONGITUDE_REF !in gps then None
                else
                  var lon := if gps[GPS_LONGITUDE_REF] != EAST then -lonAbs else lonAbs;
                  Some((lat, lon))
  }

  // ---------------------------------------------------------------------
  // Lemmas

  /** The conversion counts arc-seconds: 3600 per degree, 60 per minute. */
  lemma DegreesAsArcSeconds(v: TagValue)
    requires IsDms(v)
    ensures Degrees(v).Some?
    ensures Degrees(v).value * 3600.0
         == 3600.0 * Ratio(v.parts[0]) + 60.0 * Ratio(v.parts[1]) + Ratio(v.parts[2])
  {
  }

  /** ((40,1), (30,1), (0,1)) is 40.5 degrees. */
  lemma FortyAndAHalf()
    ensures Degrees(Rationals([Rational(40, 1), Rational(30, 1), Rational(0, 1)])) == Some(40.5)
  {
  }

  predicate NonNegativeDms(v: TagValue)
  {
    IsDms(v) && forall i :: 0 <= i < 3 ==> v.parts[i].num >= 0 && v.parts[i].den > 0
  }

  lemma RatioNonNegative(q: Rational)
    requires q.num >= 0 && q.den > 0
    ensures Ratio(q) >= 0.0
  {
    var x, y := q.num as real, q.den as real;
    if x / y < 0.0 {
      assert (x / y) * y < 0.0;
    }
  }

  lemma DegreesNonNegative(v: TagValue)
    requires NonNegativeDms(v)
    ensures Degrees(v).Some? && Degrees(v).value >= 0.0
  {
    RatioNonNegative(v.parts[0]);
    RatioNonNegative(v.parts[1]);
    RatioNonNegative(v.parts[2]);
  }

  /** `None` exactly when the GPS IFD is missing, empty, lacks a key, or a coordinate is unusable. */
  lemma NoneExactlyWhenUnusable(exif: ExifData)
    ensures ExtractGpsInfo(exif).None? <==> !HasUsableGps(exif)
  {
  }

  /**
   * Each coordinate is its degree value, negated exactly when the reference
   * is not `b'N'` (latitude) or not `b'E'` (longitude); with non-negative
   * parts, a north/east reference gives a value `>= 0` and any other `<= 0`.
   */
  lemma HemisphereSigns(exif: ExifData)
    requires HasUsableGps(exif)
    ensures var gps := exif["GPS"];
      var lat, lon := ExtractGpsInfo(exif).value.0, ExtractGpsInfo(exif).value.1;
      var latAbs, lonAbs := Degrees(gps[GPS_LATITUDE]).value, Degrees(gps[GPS_LONGITUDE]).value;
      (lat == if gps[GPS_LATITUDE_REF] == NORTH then latAbs else -latAbs) &&
      (lon == if gps[GPS_LONGITUDE_REF] == EAST then lonAbs else -lonAbs) &&
      (NonNegativeDms(gps[GPS_LATITUDE]) ==>
         (gps[GPS_LATITUDE_REF] == NORTH ==> lat >= 0.0) && (gps[GPS_LATITUDE_REF] != NORTH ==> lat <= 0.0)) &&
      (NonNegativeDms(gps[GPS_LONGITUDE]) ==>
         (gps[GPS_LONGITUDE_REF] == EAST ==> lon >= 0.0) && (gps[GPS_LONGITUDE_REF] != EAST ==> lon <= 0.0))
  {
    var gps := exif["GPS"];
    if NonNegativeDms(gps[GPS_LATITUDE]) {
      DegreesNonNegative(gps[GPS_LATITUDE]);
    }
    if NonNegativeDms(gps[GPS_LONGITUDE]) {
      DegreesNonNegative(gps[GPS_LONGITUDE]);
    }
  }
}
