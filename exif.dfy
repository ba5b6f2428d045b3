/**
 * The part of `analyze_photo_exif` that runs once the metadata parser has
 * produced its tag map: the info record is created with placeholders and
 * its entries are overwritten step by step from the tags.
 */
module Exif {
  import opened Common
  import opened Text

  /** One value of a tag: a rational `num/den`, or anything without `num`/`den`. */
  datatype TagValue = Ratio(num: int, den: int) | NotRatio

  /** A parsed tag: what `str(tag)` prints, and its list of values. */
  datatype IfdTag = IfdTag(printable: string, values: seq<TagValue>)

  /** The parser's output, keyed by names such as "Image Make". */
  type Tags = map<string, IfdTag>

  /** A signed (latitude, longitude) pair. */
  datatype Coordinates = Coordinates(lat: real, lon: real)

  /** The dictionary `analyze_photo_exif` returns. */
  datatype ExifInfo = ExifInfo(
    device: string,
    photoTime: string,
    gps: Option<Coordinates>,
    make: string,
    model: string)

  const MakeKey: string := "Image Make"
  const ModelKey: string := "Image Model"
  const DateTimeOriginalKey: string := "EXIF DateTimeOriginal"
  const DateTimeKey: string := "Image DateTime"
  const LatitudeKey: string := "GPS GPSLatitude"
  const LongitudeKey: string := "GPS GPSLongitude"
  const LatitudeRefKey: string := "GPS GPSLatitudeRef"
  const LongitudeRefKey: string := "GPS GPSLongitudeRef"

  /** `str(tags.get(key, default))`: the tag's printable text, or the default when the key is missing. */
  function TagText(tags: Tags, key: string, default: string): (r: string)
    ensures key in tags ==> r == tags[key].printable
    ensures key !in tags ==> r == default
  {
    if key in tags then tags[key].printable else default
  }

  /**
   * `float(values[0].num) / float(values[0].den)`: the first rational only,
   * or `None` where Python raises (no values, a first value without
   * `num`/`den`, a zero denominator).
   */
  function Degrees(tag: IfdTag): (r: Option<real>)
    ensures r.Some? <==> |tag.values| > 0 && tag.values[0].Ratio? && tag.values[0].den != 0
    ensures r.Some? ==> r.value * tag.values[0].den as real == tag.values[0].num as real
  {
    if |tag.values| > 0 && tag.values[0].Ratio? && tag.values[0].den != 0 then
      Some(tag.values[0].num as real / tag.values[0].den as real)
    else
      None
  }

  /** Minutes, seconds and anything after the first rational have no effect on the coordinate. */
  lemma DegreesOnlyFirstValue(tag: IfdTag, rest: seq<TagValue>)
    requires |tag.values| > 0
    ensures Degrees(IfdTag(tag.printable, [tag.values[0]] + rest)) == Degrees(tag)
  {
  }

  /**
   * Negates the magnitude exactly when the reference names the hemisphere
   * `negative`, whatever the magnitude's own sign (a signed rational stays
   * negated too).
   */
  function Hemisphere(magnitude: real, reference: string, negative: string): (r: real)
    ensures r == magnitude || r == -magnitude
    ensures magnitude > 0.0 ==> (r < 0.0 <==> reference == negative)
    ensures magnitude != 0.0 ==> (r == -magnitude <==> reference == negative)
  {
    if reference == negative then -magnitude else magnitude
  }

  /** A missing reference tag reads as "N" or "E", so the magnitude keeps its sign. */
  lemma MissingReferenceKeepsSign(tags: Tags, magnitude: real)
    requires LatitudeRefKey !in tags && LongitudeRefKey !in tags
    ensures Hemisphere(magnitude, TagText(tags, LatitudeRefKey, "N"), "S") == magnitude
    ensures Hemisphere(magnitude, TagText(tags, LongitudeRefKey, "E"), "W") == magnitude
  {
  }

  /**
   * The GPS block: both coordinate tags must be present, and each value is
   * the first rational of its tag, negated for the "S" or "W" reference
   * (the references default to "N" and "E"). Where the conversion raises,
   * the `except` leaves `None`.
   */
  method GpsCoordinates(tags: Tags) returns (gps: Option<Coordinates>)
    ensures gps.Some? <==>
      && LatitudeKey in tags && LongitudeKey in tags
      && Degrees(tags[LatitudeKey]).Some? && Degrees(tags[LongitudeKey]).Some?
    ensures gps.Some? ==>
      && gps.value.lat ==
           Hemisphere(Degrees(tags[LatitudeKey]).value, TagText(tags, LatitudeRefKey, "N"), "S")
      && gps.value.lon ==
           Hemisphere(Degrees(tags[LongitudeKey]).value, TagText(tags, LongitudeRefKey, "E"), "W")
  {
    gps := None;
    if LatitudeKey in tags && LongitudeKey in tags {
      var latRef := TagText(tags, LatitudeRefKey, "N");
      var lonRef := TagText(tags, LongitudeRefKey, "E");
      var lat := Degrees(tags[LatitudeKey]);
      var lon := Degrees(tags[LongitudeKey]);
      if lat.Some? && lon.Some? {
        var latDecimal := lat.value;
        var lonDecimal := lon.value;
        if latRef == "S" {
          latDecimal := -latDecimal;
        }
        if lonRef == "W" {
          lonDecimal := -lonDecimal;
        }
        gps := Some(Coordinates(latDecimal, lonDecimal));
      } else {
        // the conversion raised: the handler's `except` stores None
        gps := None;
      }
    }
  }

  /**
   * Builds the info record from the tag map. `make` and `model` fall back to
   * `Unknown`; `device` joins them unless both are `Unknown`; the original
   * capture time wins over the file time; `gps` is what the GPS block
   * yields, so a failed conversion touches no other entry.
   */
  method AnalyzePhotoExif(tags: Tags) returns (info: ExifInfo)
    ensures MakeKey in tags ==> info.make == tags[MakeKey].printable
    ensures MakeKey !in tags ==> info.make == Unknown
    ensures ModelKey in tags ==> info.model == tags[ModelKey].printable
    ensures ModelKey !in tags ==> info.model == Unknown
    ensures info.make == Unknown && info.model == Unknown ==> info.device == Unknown
    ensures info.make != Unknown || info.model != Unknown ==>
      info.device == Strip(info.make + " " + info.model)
    ensures DateTimeOriginalKey in tags ==> info.photoTime == tags[DateTimeOriginalKey].printable
    ensures DateTimeOriginalKey !in tags && DateTimeKey in tags ==>
      info.photoTime == tags[DateTimeKey].printable
    ensures DateTimeOriginalKey !in tags && DateTimeKey !in tags ==> info.photoTime == Unknown
    ensures info.gps.Some? <==>
      && LatitudeKey in tags && LongitudeKey in tags
      && Degrees(tags[LatitudeKey]).Some? && Degrees(tags[LongitudeKey]).Some?
    ensures info.gps.Some? ==>
      && info.gps.value.lat ==
           Hemisphere(Degrees(tags[LatitudeKey]).value, TagText(tags, LatitudeRefKey, "N"), "S")
      && info.gps.value.lon ==
           Hemisphere(Degrees(tags[LongitudeKey]).value, TagText(tags, LongitudeRefKey, "E"), "W")
  {
    info := ExifInfo(Unknown, Unknown, None, Unknown, Unknown);

    if MakeKey in tags {
      info := info.(make := tags[MakeKey].printable);
    }
    if ModelKey in tags {
      info := info.(model := tags[ModelKey].printable);
    }
    if info.make != Unknown || info.model != Unknown {
      info := info.(device := Strip(info.make + " " + info.model));
    }

    if DateTimeOriginalKey in tags {
      info := info.(photoTime := tags[DateTimeOriginalKey].printable);
    } else if DateTimeKey in tags {
      info := info.(photoTime := tags[DateTimeKey].printable);
    }

    var gps := GpsCoordinates(tags);
    info := info.(gps := gps);
  }

  /**
   * When make and model are non-empty and carry no surrounding whitespace,
   * the stripped join is exactly "<make> <model>".
   */
  lemma DeviceJoinsTrimmedParts(make: string, model: string)
    requires make != [] && !IsSpace(make[0]) && !IsSpace(make[|make| - 1])
    requires model != [] && !IsSpace(model[0]) && !IsSpace(model[|model| - 1])
    ensures Strip(make + " " + model) == make + " " + model
  {
    var joined := make + " " + model;
    assert joined[0] == make[0];
    assert joined[|joined| - 1] == model[|model| - 1];
    StripKeepsTrimmed(joined);
  }
}
