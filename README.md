# PortugalAvesHandler: WorldBirds export to eBird import rows

This project models the conversion core of `ebimport/handlers.py`. `PortugalAvesHandler` reads
a tab-separated export from the WorldBirds database of the Portugal Aves project. It writes one
quoted, comma-separated eBird import row for each bird record. The modelled parts are:

- **Reference tables.** `load_species` and `load_locations` fold rows of the species and
  locations reference files into the handler's two tables, in place. They are the methods
  `LoadSpecies` and `LoadLocations` of the class `Handlers.PortugalAvesHandler`. The tables
  are fields of that class.
- **Header scan.** `read_header` skips everything up to a line reading `Data` (in any case),
  then takes the next non-blank line as the tab-separated column names. It is the method
  `ReadHeader`, proved equal to the function `ScanHeader` over the classified lines.
- **Record reader.** `read_record` strips the line, splits it at tabs and strips each field.
  It then pairs `["Row Number"] + names` with the fields, as `dict(zip(...))` does
  (`Records.ReadRecord`).
- **Field converters.** `convert_species`, `convert_location` and `convert_record` each return
  a `Result` (`Convert.ConvertSpecies`, `Convert.ConvertLocation`, `Convert.ConvertRecord`).
  A `KeyError`, `ValueError` or `IndexError` of the source becomes an `Err` value naming that
  error.
- **File loop.** `convert_file` works on the decoded lines of the export. It returns the rows
  written, whether the output file was opened, and the record counter
  (`ConvertFile` and its loop `WriteRows`).

Python 2 behaviour the code relies on is written out in its own modules:

- `Text`: `unicode.strip()` with the Python 2.7 white-space set, `split('\t')`, `join`,
  `lower()`/`upper()`, `replace('"', "'")`, the `\d` search and `"%d"` formatting.
- `Dicts`: `d[key]` with `KeyError`, in-order `d[k] = v` assignment, and `zip`.
- `Datetimes`: `strptime`/`strftime` for `%Y-%m-%d`, `%m/%d/%Y` and `%H:%M`, and
  `timedelta.seconds`.

The converted record is a datatype (`Records.EbirdRecord`). `Records.AsDict` gives the dict
that `convert_record` returns: 21 keys, the 19 eBird columns and the two "... Converted" marks.

Behaviour of the code that is easy to misread:

- The "Row Number" value is the first field after stripping, not the raw text of the line.
- The dict `convert_record` returns has 21 keys: the 19 eBird columns and the two
  "... Converted" marks.
- The duration is the minute difference modulo one day (`timedelta.seconds`), so it is never
  negative: a visit that ends before it starts counts up to the next day's end time.
- The first record that fails to convert ends the file silently, keeping the rows already
  written.

## Model

| member | source | states |
|---|---|---|
| Records.Fields | ebimport/handlers.py:168 | one field per tab-separated piece of the stripped line; no field has white space at either end or holds a tab |
| Records.ReadRecord | ebimport/handlers.py:168-169 | no value of the record read from a line has white space at either end |
| Records.ReadRecordColumns | ebimport/handlers.py:168-169 | with distinct names, the record has min(\|names\|+1, \|fields\|) keys; "Row Number" gets the first field; names[i] gets field i+1; names past the last field are absent |
| Records.Columns | ebimport/handlers.py:12-32 | a record has one value per eBird column |
| Records.AsDictKeys | ebimport/handlers.py:252-282 | the dict of a converted record has exactly the 19 eBird columns and the two "... Converted" marks as keys |
| Records.AsDictColumns | ebimport/handlers.py:301 | reading the dict in eBird column order gives the record's columns in that order |
| Text.Strip | ebimport/handlers.py:138 | the result is s with white space removed from both ends only, and neither starts nor ends with white space |
| Text.StripIdempotent | ebimport/handlers.py:168 | stripping an already stripped line changes nothing |
| Text.Split | ebimport/handlers.py:146 | split at a one-character separator gives at least one piece, and no piece holds the separator |
| Text.JoinSplit | ebimport/handlers.py:146 | joining the pieces of a split with the separator gives back the string |
| Text.SplitJoin | ebimport/handlers.py:168 | splitting a join of separator-free pieces gives back the pieces |
| Text.IndexOf | ebimport/handlers.py:146 | the position of the first occurrence of a character, or the length when there is none |
| Text.Lower | ebimport/handlers.py:141 | lower() keeps the length, turns each upper-case letter into its lower-case letter, and keeps every other character |
| Text.UpperChar | ebimport/handlers.py:281 | upper() of one character leaves no lower-case letter, and lower-casing it again gives the original letter |
| Text.ReplaceChar | ebimport/handlers.py:265 | replace keeps the length, leaves no replaced character and keeps every other character |
| Text.ReplaceIdempotent | ebimport/handlers.py:282 | replacing a second time changes nothing |
| Text.DecimalValueBound | ebimport/handlers.py:269 | a string of n digits denotes a number below 10^n |
| Text.PadDecimal | ebimport/handlers.py:270 | a zero-padded numeral has exactly the requested width and only digits |
| Text.PadDecimalValue | ebimport/handlers.py:270 | a zero-padded numeral of a number that fits reads back as the number |
| Text.DecimalValuePad | ebimport/handlers.py:269 | a digit string padded back to its own width is unchanged |
| Text.Decimal | ebimport/handlers.py:278 | "%d" gives at least one digit, only digits, and no leading zero except for 0 |
| Text.DecimalRoundTrip | ebimport/handlers.py:278 | the "%d" numeral reads back as the number |
| Dicts.Get | ebimport/handlers.py:102 | d[key] succeeds exactly when the key is present, and fails with KeyError naming the key |
| Dicts.AssignKeys | ebimport/handlers.py:101-103 | assigning pairs adds exactly their keys to the keys already present |
| Dicts.AssignLastWins | ebimport/handlers.py:114-117 | a key holds the value of the last pair that assigns it |
| Dicts.AssignUntouched | ebimport/handlers.py:101-103 | a key no pair assigns keeps its presence and its value |
| Dicts.AssignValues | ebimport/handlers.py:169 | a property shared by the old values and the assigned ones holds of every value of the result |
| Dicts.AssignSize | ebimport/handlers.py:169 | pairs with distinct new keys add one entry each |
| Dicts.Zip | ebimport/handlers.py:169 | zip is as long as the shorter list and pairs the items position by position |
| Dicts.KeyedCount | ebimport/handlers.py:101-103 | the rows before the count all have a key, and the row at the count has none |
| Datetimes.ParseDate | ebimport/handlers.py:269 | a parsed date is a valid calendar date whose "YYYY-MM-DD" text is the input; a failure is a ValueError |
| Datetimes.ParseTime | ebimport/handlers.py:272 | a parsed time is a valid time of day whose "HH:MM" text is the input; a failure is a ValueError |
| Datetimes.DateShapedText | ebimport/handlers.py:269 | a date-shaped text is the "YYYY-MM-DD" text of the numbers it holds |
| Datetimes.TimeShapedText | ebimport/handlers.py:275 | a time-shaped text is the "HH:MM" text of the numbers it holds |
| Datetimes.ParseIsoDateText | ebimport/handlers.py:269 | every valid date parses back from its own "YYYY-MM-DD" text |
| Datetimes.ParseTimeTextRoundTrip | ebimport/handlers.py:272-273 | every valid time parses back from its own "HH:MM" text, so the start time is written as read |
| Datetimes.ReformatDate | ebimport/handlers.py:269-270 | the written date moves the digit groups of YYYY-MM-DD to MM/DD/YYYY |
| Datetimes.DurationIsMinuteDifference | ebimport/handlers.py:275-278 | the duration is (end - start) in minutes modulo 1440, so always below 1440 |
| Datetimes.NinetyMinuteVisit | ebimport/handlers.py:272-278 | a visit from 09:00 to 10:30 has the duration "90" |
| Convert.ConvertSpecies | ebimport/handlers.py:187-199 | succeeds iff the name is present and a matching entry has an eBird Common Name; the mark is true iff the name is in the table; the common name comes from the entry, or is the raw name; Genus and Species are empty |
| Convert.ConvertLocation | ebimport/handlers.py:213-232 | without an exact (Location, Latitude, Longitude) match: the raw values, empty region and country, mark false; with one: mark true, region and country from the entry, and name and coordinates from it only when its eBird Location is not empty; KeyError otherwise |
| Convert.KnownLocationConverts | ebimport/tests/ebconvert/portugalaves/test_convert_location.py:31-95 | the known test location takes Location A, 1.0000, 1.0000, Region A, CC and is marked converted |
| Convert.UnknownLocationKept | ebimport/tests/ebconvert/portugalaves/test_convert_location.py:97-106 | the unknown test location keeps its own values and is not marked converted |
| Convert.CountText | ebimport/handlers.py:260-263 | the count is "X" exactly for an empty count, any capitalisation of "present", or "X" itself; otherwise it is unchanged |
| Convert.CommentText | ebimport/handlers.py:265 | the comment keeps its length, holds no double quote, keeps every other character, and is unchanged by a second replacement |
| Convert.CommentExample | ebimport/handlers.py:282 | quoted speech in a comment is kept with single quotes |
| Convert.ReadParts | ebimport/handlers.py:258-282 | the reads and parses of convert_record succeed exactly when the record is convertible, with the looked-up and parsed values |
| Convert.ConvertRecord | ebimport/handlers.py:252-284 | conversion succeeds exactly when every column read is present, both lookups succeed, the date and times parse and "All birds recorded?" is not empty; species and location columns are those of convert_species and convert_location |
| Convert.ConvertRecordScalars | ebimport/handlers.py:260-282 | count rule, quote-free comments, MM/DD/YYYY date, start time as read, duration modulo a day, observers as read, upper-cased first letter of "All birds recorded?", empty protocol and effort columns |
| Convert.ParseJoinedQuoted | ebimport/handlers.py:301-302 | quoted values free of double quotes, joined by commas, read back as the values |
| Convert.ParseFormatRow | ebimport/handlers.py:301-303 | a row of values free of double quotes, ended by CRLF, reads back as those values |
| Convert.QuoteInValueBreaksRow | ebimport/handlers.py:301 | a double quote left in a value makes the row read back as other values |
| Convert.RowReadsBack | ebimport/handlers.py:301-303 | the row written for a record with no double quote in its columns reads back as its columns in eBird order |
| Handlers.SpeciesKey | ebimport/handlers.py:102 | a species row has a key iff it has a BirdLife common name, and the key is that name |
| Handlers.LocationKeyOf | ebimport/handlers.py:115-116 | a location row has a key iff it has all three Worldbirds columns; the key is their text; a KeyError names the first missing column |
| Handlers.LoadedLastWins | ebimport/handlers.py:101-103 | after a load, a key maps to the last loaded row with that key |
| Handlers.LoadedUntouched | ebimport/handlers.py:114-117 | after a load, a key no loaded row has keeps its entry, or its absence |
| Handlers.LoadedKeys | ebimport/handlers.py:101-103 | the loaded table's keys are the old keys plus those of the loaded rows |
| Handlers.LoadedSpeciesConverts | ebimport/handlers.py:193-195 | after a load, a record naming a loaded species takes that row's eBird Common Name and is marked converted |
| Handlers.LoadedLocationConverts | ebimport/handlers.py:223-231 | after a load, a record at a loaded place takes that row's region and country and is marked converted, and also its eBird name and coordinates when its eBird Location is not empty |
| Handlers.Classify | ebimport/handlers.py:138-141 | a line is blank iff it strips to nothing, the "Data" line iff it lower-cases to "data", and otherwise stripped text |
| Handlers.HeaderAt | ebimport/handlers.py:144-146 | the candidate line gives its tab-separated pieces as the column names iff it holds no digit; otherwise the error is "Found a record instead of the column names" |
| Handlers.ScanHeader | ebimport/handlers.py:135-150 | column names found lie on a line of the export, and there is at least one name |
| Handlers.CandidateShift | ebimport/handlers.py:141-143 | moving the scan past a line keeps the later candidate lines, once the flag records that line |
| Handlers.ScanHeaderCases | ebimport/handlers.py:135-150 | the scan takes the first candidate line; it fails with "Could not find row containing column names" exactly when there is no candidate |
| Handlers.ReadHeaderCases | ebimport/handlers.py:135-150 | on a whole export: the first non-blank line after a "Data" line, other than "Data", holds the names unless it holds a digit, in which case the error is "Found a record instead of the column names"; the scan fails with "Could not find row containing column names" exactly when there is no such line |
| Handlers.ScanHeaderShift | ebimport/handlers.py:137-147 | scanning after a prefix is scanning the rest alone, shifted by the prefix |
| Handlers.SkipsPreamble | ebimport/handlers.py:139-143 | lines before the first "Data" line are skipped, whatever they hold |
| Handlers.PreambleIgnored | ebimport/handlers.py:137-147 | a preamble without a "Data" line does not change the names found, only where records start |
| Handlers.ConvertedRowsPrefix | ebimport/handlers.py:295-307 | the rows written are the conversions of the longest run of leading lines that convert, and the line after them does not convert |
| Handlers.ConvertedRowsFromPrefix | ebimport/handlers.py:293-307 | the same, for the lines after the column names |
| Handlers.BlankLineStops | ebimport/handlers.py:168-169 | a blank line reads as a record with only a row number and never converts |
| Handlers.PortugalAvesHandler.constructor | ebimport/handlers.py:35-79 | a new handler has empty tables and the WorldBirds column list |
| Handlers.PortugalAvesHandler.LoadSpecies | ebimport/handlers.py:92-103 | the species table becomes the loaded table; KeyError on a row without a BirdLife common name, keeping the rows before it; the other fields unchanged |
| Handlers.PortugalAvesHandler.LoadLocations | ebimport/handlers.py:105-117 | the location table becomes the loaded table; the KeyError of the first row without a key; the other fields unchanged |
| Handlers.PortugalAvesHandler.LoadResources | ebimport/handlers.py:84-90 | species first, then locations; a failed species load leaves the locations as they were |
| Handlers.PortugalAvesHandler.ReadHeader | ebimport/handlers.py:119-150 | the state-machine loop gives exactly the scan's result |
| Handlers.PortugalAvesHandler.ConvertFile | ebimport/handlers.py:286-312 | no rows when the header is not found, otherwise the rows of the lines after it read with the handler's own names; the output is opened iff a row is written; the counter is one more than the rows |
| Handlers.PortugalAvesHandler.WriteRows | ebimport/handlers.py:295-304 | the loop writes exactly the rows of the longest run of lines that convert, opening the output before the first one |

## Left out

- File input and output are not modelled. This covers `codecs.open` with UTF-16, `open(fileout, 'wb')`, the UTF-8 encoding of rows and the `close` calls in `finally`. The export is its decoded lines, and the output is the list of rows written plus whether the file was opened.
- `load_resources` locating the packaged files through `pkg_resources` is not modelled. `ebimport/shared.py` (`read_csv_file`) is not part of this model: the loaders take the rows it returns.
- Exceptions are results. The `except Exception: pass` of `convert_file` is modelled by the loop stopping at the first failed line and keeping the rows already written.
- The class-level `species` and `locations` dicts of the source are shared by all handler instances. Here they are fields of each handler, so that sharing is not modelled.
- Datetimes.ParseDate: accepts only the zero-padded fixed-width form "YYYY-MM-DD". Python's `strptime` also accepts one-digit months and days.
- Datetimes.ParseTime: accepts only "HH:MM" with two digits each. Python's `strptime` also accepts one-digit hours and minutes.
- Datetimes.UsDateText: formats every year from 1 to 9999. Python 2's `strftime` raises ValueError for years before 1900, which ends the conversion of the file there.
- Text.Lower: lower-cases ASCII letters only. It is exact for the comparisons the handler makes with "data" and "present", but not for other letters.
- Text.UpperChar: upper-cases ASCII letters only. A non-ASCII first letter of "All birds recorded?" is kept as it is.
- Text.HasDigit: looks for ASCII digits only. With `re.UNICODE`, `\d` also matches other decimal digits.
- Records.ReadRecordColumns: stated for any list of distinct names that does not contain "Row Number". It is not proved that the handler's own 39 names form such a list.
- The column names that `read_header` returns are discarded by `convert_file`, as in the source. `ConvertFile` reads records with the handler's own list.
