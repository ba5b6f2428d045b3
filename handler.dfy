/**
 * The `analyze` route once the info record exists: the address is looked up
 * only when coordinates are present, the capture time is reformatted, and
 * the values handed to the result template are gathered.
 */
module Handler {
  import opened Common
  import opened Text
  import opened Exif
  import opened Geocode

  /** The values the result page is rendered with. */
  datatype Page = Page(
    country: string,
    city: string,
    address: string,
    device: string,
    photoTime: string,
    make: string,
    model: string)

  /**
   * `photo_time.replace(':', '-', 2)` unless it is the placeholder: the first
   * two colons (the date separators of "YYYY:MM:DD HH:MM:SS") become dashes,
   * and every later colon and every other character stays.
   */
  function FormatPhotoTime(t: string): (r: string)
    ensures |r| == |t|
    ensures t == Unknown ==> r == t
    ensures t != Unknown ==>
      forall k :: 0 <= k < |t| ==> r[k] == if t[k] == ':' && Occurrences(t[..k], ':') < 2 then '-' else t[k]
    ensures t != Unknown ==> Occurrences(r, ':') == Occurrences(t, ':') - Min(2, Occurrences(t, ':'))
  {
    if t == Unknown then t
    else
      var r := ReplaceFirst(t, ':', '-', 2);
      assert forall k :: 0 <= k < |t| ==> r[k] == if t[k] == ':' && Occurrences(t[..k], ':') < 2 then '-' else t[k] by {
        forall k | 0 <= k < |t| {
          ReplaceFirstAt(t, ':', '-', 2, k);
        }
      }
      ReplaceFirstCount(t, ':', '-', 2);
      r
  }

  /** The placeholder has no colon, so the guard in front of `replace` changes nothing. */
  lemma PlaceholderHasNoColon()
    ensures ReplaceFirst(Unknown, ':', '-', 2) == Unknown
  {
    assert ':' !in Unknown;
    ReplaceFirstAbsent(Unknown, ':', '-', 2);
  }

  /**
   * An EXIF date "YYYY:MM:DD HH:MM:SS" is shown as "YYYY-MM-DD HH:MM:SS":
   * for any year and month without a colon, the two separators after them
   * become dashes and the rest, time colons included, is kept.
   */
  lemma {:induction false} FormatPhotoTimeDate(year: string, month: string, rest: string)
    requires ':' !in year && ':' !in month
    ensures FormatPhotoTime(year + ":" + month + ":" + rest) == year + "-" + month + "-" + rest
  {
    var t := year + ":" + month + ":" + rest;
    assert t == year + ([':'] + (month + ([':'] + rest)));
    assert t[|year|] == ':';
    assert ':' !in Unknown;
    ReplaceFirstTwo(year, month, rest, ':', '-');
    assert year + "-" + month + "-" + rest == year + (['-'] + (month + (['-'] + rest)));
  }

  /**
   * Gathers the page values. The reverse lookup `reverse` is called with the
   * record's coordinates when it has them; otherwise the location is the
   * placeholder record. Device, make and model are passed through.
   */
  method Analyze(info: ExifInfo, reverse: (real, real) -> ReverseOutcome) returns (page: Page)
    ensures info.gps.None? ==>
      page.country == Unknown && page.city == Unknown && page.address == Unknown
    ensures info.gps.Some? ==>
      var location := AddressFromCoords(reverse(info.gps.value.lat, info.gps.value.lon));
      page.country == location.country && page.city == location.city && page.address == location.address
    ensures page.device == info.device && page.make == info.make && page.model == info.model
    ensures page.photoTime == FormatPhotoTime(info.photoTime)
  {
    var locationInfo := UnknownLocation;
    if info.gps.Some? {
      locationInfo := AddressFromCoords(reverse(info.gps.value.lat, info.gps.value.lon));
    }

    var photoTime := FormatPhotoTime(info.photoTime);

    page := Page(locationInfo.country, locationInfo.city, locationInfo.address,
                 info.device, photoTime, info.make, info.model);
  }
}
