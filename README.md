# Photo EXIF and location handler — Dafny model

The repository is a one-page Flask application. A user uploads a photograph. The
handler reads its EXIF tags with the `exifread` library, reverse-geocodes the GPS
position with the Nominatim service, and renders camera, time and place on a result
page. Every value it cannot find is shown as the placeholder `Неизвестно`
("unknown"). This project models the handler's own logic as Dafny and proves what
that logic promises:

- `Exif` turns the tag map produced by the parser into the info record
  (`analyze_photo_exif`). It fills in camera make and model and the joined device
  name. It takes the capture time, preferring the original time over the file
  time. It builds a signed latitude/longitude pair from the GPS tags and their
  hemisphere references `N`/`S`/`E`/`W` (the GPS attribute tags of the Exif
  standard, JEITA CP-3451). It is written as imperative methods that overwrite the
  entries of a record step by step, as the source does with its dictionary.
- `Geocode` builds the country and city from the geocoder's reply
  (`get_address_from_coords`). The city comes from Python `or` fallbacks over
  `city`, `town`, `village` and `suburb`. Every failure gives the all-placeholder
  record.
- `Handler` is the `analyze` route once the info record exists. The address is
  looked up only when coordinates are present. The capture time is reformatted with
  `replace(':', '-', 2)`.
- `Text` holds the two Python string built-ins the handler relies on: `str.strip()`
  (with Python's full `isspace` character set) and `str.replace` with a count.
- `Common` holds `Option` and the single placeholder constant `Unknown`.

Note on the coordinates: as written, the handler converts only the first rational of
each GPS coordinate (the degrees). It ignores minutes and seconds. The model
reproduces this, and `Exif.DegreesOnlyFirstValue` states it. So 55°45'00" N is
reported as 55.0, not 55.75.

Inputs the handler gets from code outside the model are parameters:
- The parser's output is a `map` from tag name to a tag. Each tag has a printable
  string and a list of values. A value is either a rational `num/den` or something
  without `num`/`den`.
- The geocoder's answer is a `ReverseOutcome`. The call either raised, or returned
  no location, or returned a location with its raw JSON object and one-line
  address. `Handler.Analyze` takes the lookup as a function from coordinates to
  that answer.

## Model

| member | source | states |
|---|---|---|
| `Text.IsSpace` | main.py:36 | a character is whitespace for `.strip()` exactly when it is one of the 29 characters listed in `PythonWhitespace`, Python's `str.isspace` set |
| `Text.LeadingSpaces` | main.py:36 | the count of leading whitespace: every character before it is whitespace and the one at it (if any) is not |
| `Text.TrailingSpaces` | main.py:36 | the count of trailing whitespace: every character after the cut is whitespace and the one before it (if any) is not |
| `Text.Strip` | main.py:36 | `.strip()` yields the slice of the input that starts after the leading whitespace, has only whitespace after it, and neither starts nor ends with whitespace |
| `Text.StripEmpty` | main.py:36 | the stripped string is empty exactly when the input is all whitespace (so a make and model of empty strings give an empty device) |
| `Text.StripIdempotent` | main.py:36 | stripping twice equals stripping once |
| `Text.StripKeepsTrimmed` | main.py:36 | a string with non-whitespace ends is returned unchanged |
| `Text.ReplaceFirst` | main.py:127 | `replace(':', '-', 2)` preserves the length of the string |
| `Text.ReplaceFirstAt` | main.py:127 | position by position, a character is replaced exactly when it is the searched character and fewer than `n` of them precede it; every other character is unchanged |
| `Text.ReplaceFirstCount` | main.py:127 | exactly min(n, count) occurrences of the searched character disappear, so every colon after the second survives |
| `Text.ReplaceFirstAbsent` | main.py:127 | a string without the searched character is returned unchanged |
| `Text.ReplaceFirstSkip` | main.py:127 | a prefix without the searched character is copied and does not use up the count |
| `Text.ReplaceFirstNone` | main.py:127 | a count of zero replaces nothing |
| `Text.ReplaceFirstSplit` | main.py:127 | replacing the first m and then the first n of the rest equals replacing the first m + n |
| `Text.ReplaceFirstTwo` | main.py:127 | with no separator in the first two fields, a count of two turns exactly the two separators after them into the new character |
| `Exif.TagText` | main.py:47-48 | `str(tags.get(key, default))` is the tag's printable text when the key is present and the default otherwise |
| `Exif.Degrees` | main.py:54-55 | the coordinate is defined exactly when the first value is a rational with a non-zero denominator, and then it times the denominator equals the numerator |
| `Exif.DegreesOnlyFirstValue` | main.py:54-55 | values after the first (minutes, seconds) never change the coordinate |
| `Exif.Hemisphere` | main.py:57-60 | the magnitude is kept or negated; any non-zero magnitude, of either sign, is negated exactly when the reference names the negative hemisphere, so a positive one turns negative exactly then |
| `Exif.MissingReferenceKeepsSign` | main.py:47-48 | without reference tags the defaults `N`/`E` keep both magnitudes' signs |
| `Exif.GpsCoordinates` | main.py:45-64 | a pair is produced exactly when both coordinate tags exist and both convert; latitude is negated exactly for reference `S`, longitude exactly for `W`; a failed conversion gives `None` instead of an error |
| `Exif.AnalyzePhotoExif` | main.py:22-64 | make and model are the tag strings when present, else the placeholder; the device stays the placeholder when both are, else is the stripped "make model"; the capture time is the original time, else the file time, else the placeholder; GPS as in `GpsCoordinates`, and no GPS outcome affects another entry |
| `Exif.DeviceJoinsTrimmedParts` | main.py:35-36 | a non-empty make and model without surrounding whitespace join into exactly "make model" |
| `Geocode.Filled` | main.py:82-83 | Python truthiness of a dictionary lookup: a missing key (`None`) and an empty string are false, any non-empty string is true |
| `Geocode.FirstFilled` | main.py:82-83 | Python `a or b or c` over dictionary lookups: no result exactly when no key is present with a non-empty value; otherwise the value of the first such key, with every earlier key absent or empty |
| `Geocode.City` | main.py:82-83 | the city is the first non-empty of `city`, `town`, `village`; failing those the `suburb` value when that key exists, even if empty; else the placeholder |
| `Geocode.Country` | main.py:81 | the country is the `country` value when that key exists, even if empty, else the placeholder |
| `Geocode.AddressFromCoords` | main.py:74-89 | a raised call, no location, an empty raw object or a non-object `address` entry give the all-placeholder record; a raw object without `address` gives placeholders with the location's address; otherwise country and city come from the address object |
| `Geocode.PlaceholderWithoutAddress` | main.py:78-89 | without a usable `address` object both country and city are the placeholder |
| `Handler.FormatPhotoTime` | main.py:123-129 | the placeholder is returned unchanged; any other time keeps its length, only its first two colons become dashes, and its colon count drops by min(2, count) |
| `Handler.PlaceholderHasNoColon` | main.py:124-127 | the placeholder has no colon, so `replace` would leave it unchanged even without the guard |
| `Handler.FormatPhotoTimeDate` | main.py:127 | any "YYYY:MM:rest" with colon-free year and month becomes "YYYY-MM-rest", time colons kept (so "2023:05:01 12:30:45" becomes "2023-05-01 12:30:45") |
| `Handler.Analyze` | main.py:118-141 | without coordinates the page shows the placeholder country, city and address; with coordinates it shows what the reverse lookup of exactly those coordinates gives; device, make and model pass through; the time is the reformatted capture time |

## Left out

- File handling and HTTP (main.py:91-110, 131-147): the routes, `request.files` checks, `secure_filename`, `file.save`, `os.remove`, template rendering and the outer `except` in `analyze`. These are I/O. `Handler.Analyze` returns the values passed to the result template instead.
- The `exifread.process_file` call and the file open (main.py:19-20) are a foreign parser and I/O. Their output is the `Tags` input map. Their failure path (main.py:68-70: print, return `None`, error page at main.py:114-115) is not modelled.
- Tag values are simplified. A tag is its printable string and a list of values. Every value that is not a rational (an integer, an ASCII character) is one `NotRatio` case, because the code's only question about a value is whether `.num`/`.den` exist.
- The Nominatim client, its user agent and its 10-second timeout (main.py:75-76) are a network call. `Handler.Analyze` takes the lookup as a function parameter, and `Geocode.AddressFromCoords` takes its outcome. Values of the `address` object are taken to be strings. A non-string value there is not modelled.
- Floating point: `float(num) / float(den)` is a Dafny `real`. IEEE rounding, overflow of huge numerators and the negative zero from `-0.0` are not modelled. `float(...)` of a Python `int` cannot fail otherwise.
- The `try`/`except: pass` around `replace` (main.py:125-129) can never fire on a string, so there is no error path to model.
- `Text.ReplaceFirst` models `str.replace` only for one-character search and replacement strings, which is how the handler calls it.
- `print` diagnostics (main.py:69, 87, 144), the upload-folder setup (main.py:8-14) and `app.run` (main.py:149-150).
