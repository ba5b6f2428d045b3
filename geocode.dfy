/**
 * `get_address_from_coords` once the reverse-geocoding service has answered:
 * the `country` and `city` entries are read from the reply's `address`
 * dictionary with Python `or` fallbacks, and every failure path yields the
 * all-placeholder record.
 */
module Geocode {
  import opened Common

  /** A value of the reply's raw JSON object: a string, a nested object of strings, or anything else. */
  datatype RawValue = TextValue(text: string) | Object(fields: map<string, string>) | OtherValue

  /** A location found by the service: its raw JSON object and its one-line address. */
  datatype Location = Location(raw: map<string, RawValue>, address: string)

  /** What `geolocator.reverse` did: raised (timeout, network error) or returned a location or `None`. */
  datatype ReverseOutcome = Raised | Returned(location: Option<Location>)

  /** The dictionary `get_address_from_coords` returns. */
  datatype LocationInfo = LocationInfo(country: string, city: string, address: string)

  const UnknownLocation: LocationInfo := LocationInfo(Unknown, Unknown, Unknown)

  /** The keys tried, in order, before falling back to "suburb". */
  const CityKeys: seq<string> := ["city", "town", "village"]

  /** Python truthiness of `address.get(key)`: `None` (a missing key) and `''` are false, any other string is true. */
  predicate Filled(address: map<string, string>, key: string)
    ensures key !in address ==> !Filled(address, key)
    ensures key in address ==> (Filled(address, key) <==> |address[key]| > 0)
  {
    key in address && address[key] != ""
  }

  /** `address.get(k1) or address.get(k2) or ...`: the value of the first filled key, if any. */
  function FirstFilled(address: map<string, string>, keys: seq<string>): (r: Option<string>)
    ensures r.None? <==> forall i :: 0 <= i < |keys| ==> !Filled(address, keys[i])
    ensures r.Some? ==> exists i :: 0 <= i < |keys| && FirstFilledAt(address, keys, i) && address[keys[i]] == r.value
  {
    if keys == [] then None
    else if Filled(address, keys[0]) then
      assert FirstFilledAt(address, keys, 0);
      Some(address[keys[0]])
    else
      var r := FirstFilled(address, keys[1..]);
      if r.Some? then
        var i :| 0 <= i < |keys[1..]| && FirstFilledAt(address, keys[1..], i) && address[keys[1..][i]] == r.value;
        assert FirstFilledAt(address, keys, i + 1);
        r
      else
        r
  }

  /** `keys[i]` is filled and no key before it is. */
  predicate FirstFilledAt(address: map<string, string>, keys: seq<string>, i: nat)
    requires i < |keys|
  {
    Filled(address, keys[i]) && forall j :: 0 <= j < i ==> !Filled(address, keys[j])
  }

  /**
   * The `city` entry: the first non-empty of "city", "town", "village";
   * failing those the "suburb" value when that key exists, even empty;
   * otherwise the placeholder.
   */
  function City(address: map<string, string>): (r: string)
    ensures Filled(address, "city") ==> r == address["city"]
    ensures !Filled(address, "city") && Filled(address, "town") ==> r == address["town"]
    ensures !Filled(address, "city") && !Filled(address, "town") && Filled(address, "village") ==>
      r == address["village"]
    ensures !Filled(address, "city") && !Filled(address, "town") && !Filled(address, "village") ==>
      r == if "suburb" in address then address["suburb"] else Unknown
  {
    assert CityKeys[0] == "city" && CityKeys[1] == "town" && CityKeys[2] == "village";
    match FirstFilled(address, CityKeys)
    case Some(name) =>
      var i :| 0 <= i < |CityKeys| && FirstFilledAt(address, CityKeys, i) && address[CityKeys[i]] == name;
      assert i > 0 ==> !Filled(address, CityKeys[0]);
      assert i > 1 ==> !Filled(address, CityKeys[1]);
      name
    case None => if "suburb" in address then address["suburb"] else Unknown
  }

  /** The `country` entry: the "country" value when the key exists, even empty, else the placeholder. */
  function Country(address: map<string, string>): (r: string)
    ensures "country" in address ==> r == address["country"]
    ensures "country" !in address ==> r == Unknown
  {
    if "country" in address then address["country"] else Unknown
  }

  /**
   * The record built from the service's answer. A raised call, no location,
   * an empty raw object or an "address" entry that is not an object (whose
   * `.get` raises) all give the placeholder record; a raw object without
   * "address" reads as an empty one.
   */
  function AddressFromCoords(outcome: ReverseOutcome): (r: LocationInfo)
    ensures outcome.Raised? || outcome.location.None? ==> r == UnknownLocation
    ensures outcome.Returned? && outcome.location.Some? ==>
      var loc := outcome.location.value;
      && (loc.raw == map[] ==> r == UnknownLocation)
      && (loc.raw != map[] && "address" !in loc.raw ==> r == LocationInfo(Unknown, Unknown, loc.address))
      && (loc.raw != map[] && "address" in loc.raw && !loc.raw["address"].Object? ==> r == UnknownLocation)
      && (loc.raw != map[] && "address" in loc.raw && loc.raw["address"].Object? ==>
            var fields := loc.raw["address"].fields;
            r == LocationInfo(Country(fields), City(fields), loc.address))
  {
    match outcome
    case Raised => UnknownLocation
    case Returned(None) => UnknownLocation
    case Returned(Some(loc)) =>
      if loc.raw == map[] then UnknownLocation
      else
        var address := if "address" in loc.raw then loc.raw["address"] else Object(map[]);
        match address
        case Object(fields) => LocationInfo(Country(fields), City(fields), loc.address)
        case _ => UnknownLocation
  }

  /** Only a located reply with a usable "address" object can produce a non-placeholder country or city. */
  lemma PlaceholderWithoutAddress(outcome: ReverseOutcome)
    requires !(outcome.Returned? && outcome.location.Some? && "address" in outcome.location.value.raw
               && outcome.location.value.raw["address"].Object?)
    ensures AddressFromCoords(outcome).country == Unknown
    ensures AddressFromCoords(outcome).city == Unknown
  {
  }
}
