/** PortugalAvesHandler (ebimport/handlers.py): the reference tables it loads, finding
    the column names of a WorldBirds export, and the conversion of a whole export to
    eBird rows. Files are modelled by their contents: the rows read_csv_file returns for
    a reference file, and the lines of the export; the lines written are returned. */
module Handlers {
  import opened Errors
  import opened Text
  import opened Dicts
  import opened Records
  import opened Convert

  /** The message of the ValueError raised when the line after "Data" holds a digit. */
  const FOUND_RECORD := "Found a record instead of the column names"

  /** The message of the ValueError raised when no line of column names follows a "Data" line. */
  const NO_HEADER := "Could not find row containing column names"

  /** The key load_species files a row of the species file under. */
  function SpeciesKey(entry: SourceRecord): (r: Result<string>)
    ensures r.Ok? <==> "BirdLife common name" in entry
    ensures r.Ok? ==> r.value == entry["BirdLife common name"]
  {
    Get(entry, "BirdLife common name")
  }

  /** The key load_locations files a row of the locations file under; the columns are read
      in order, so the first one missing is the one named by the KeyError. */
  function LocationKeyOf(entry: SourceRecord): (r: Result<LocationKey>)
    ensures r.Ok? <==> "Worldbirds Location" in entry && "Worldbirds Latitude" in entry && "Worldbirds Longitude" in entry
    ensures r.Ok? ==> r.value == (entry["Worldbirds Location"], entry["Worldbirds Latitude"], entry["Worldbirds Longitude"])
    ensures r.Err? ==> r.error == KeyError(
      if "Worldbirds Location" !in entry then "Worldbirds Location"
      else if "Worldbirds Latitude" !in entry then "Worldbirds Latitude"
      else "Worldbirds Longitude")
  {
    var name :- Get(entry, "Worldbirds Location");
    var latitude :- Get(entry, "Worldbirds Latitude");
    var longitude :- Get(entry, "Worldbirds Longitude");
    Ok((name, latitude, longitude))
  }

  /** A table after loading rows into it: each row that has a key, up to the first that has
      none, is filed under its key, a later row replacing an earlier one with the same key. */
  function Loaded<K, V>(table: map<K, V>, rows: seq<V>, keyOf: V -> Result<K>): map<K, V>
  {
    Assign(table, Keyed(rows[..KeyedCount(rows, keyOf)], keyOf))
  }

  /** A key some loaded row has is filed with the last loaded row that has it. */
  lemma LoadedLastWins<K, V>(table: map<K, V>, rows: seq<V>, keyOf: V -> Result<K>, i: nat)
    requires i < KeyedCount(rows, keyOf)
    requires forall j :: i < j < KeyedCount(rows, keyOf) ==> keyOf(rows[j]) != keyOf(rows[i])
    ensures keyOf(rows[i]).value in Loaded(table, rows, keyOf)
    ensures Loaded(table, rows, keyOf)[keyOf(rows[i]).value] == rows[i]
  {
    var n := KeyedCount(rows, keyOf);
    var pairs := Keyed(rows[..n], keyOf);
    forall j | i < j < |pairs| ensures pairs[j].0 != pairs[i].0 {
      assert keyOf(rows[j]) != keyOf(rows[i]);
    }
    AssignLastWins(table, pairs, i);
  }

  /** A key no loaded row has keeps its entry, or its absence. */
  lemma LoadedUntouched<K, V>(table: map<K, V>, rows: seq<V>, keyOf: V -> Result<K>, k: K)
    requires forall j :: 0 <= j < KeyedCount(rows, keyOf) ==> keyOf(rows[j]) != Ok(k)
    ensures k in Loaded(table, rows, keyOf) <==> k in table
    ensures k in table ==> Loaded(table, rows, keyOf)[k] == table[k]
  {
    var n := KeyedCount(rows, keyOf);
    var pairs := Keyed(rows[..n], keyOf);
    forall j | 0 <= j < |pairs| ensures pairs[j].0 != k {
      assert keyOf(rows[j]) != Ok(k);
    }
    AssignUntouched(table, pairs, k);
  }

  /** The keys of the loaded table: the old keys and those of the loaded rows. */
  lemma LoadedKeys<K, V>(table: map<K, V>, rows: seq<V>, keyOf: V -> Result<K>)
    ensures Loaded(table, rows, keyOf).Keys ==
      table.Keys + set j | 0 <= j < KeyedCount(rows, keyOf) :: keyOf(rows[j]).value
  {
    var n := KeyedCount(rows, keyOf);
    var pairs := Keyed(rows[..n], keyOf);
    AssignKeys(table, pairs);
    assert KeysOf(pairs) == set j | 0 <= j < n :: keyOf(rows[j]).value by {
      forall k | k in KeysOf(pairs) ensures k in set j | 0 <= j < n :: keyOf(rows[j]).value {
        var j :| 0 <= j < |pairs| && pairs[j].0 == k;
        assert keyOf(rows[j]).value == k;
      }
      forall k | k in (set j | 0 <= j < n :: keyOf(rows[j]).value) ensures k in KeysOf(pairs) {
        var j :| 0 <= j < n && keyOf(rows[j]).value == k;
        assert pairs[j].0 == k;
      }
    }
  }

  /** Adding one more keyed row to a load is one more assignment. */
  lemma LoadStep<K, V>(table: map<K, V>, rows: seq<V>, keyOf: V -> Result<K>, i: nat)
    requires i < |rows|
    requires forall j :: 0 <= j <= i ==> keyOf(rows[j]).Ok?
    ensures Assign(table, Keyed(rows[..i + 1], keyOf)) ==
      Assign(table, Keyed(rows[..i], keyOf))[keyOf(rows[i]).value := rows[i]]
  {
    var pairs := Keyed(rows[..i + 1], keyOf);
    assert pairs[..i] == Keyed(rows[..i], keyOf);
    assert pairs[i] == (keyOf(rows[i]).value, rows[i]);
  }

  /** After load_species, a record whose BirdLife common name is the key of a loaded row (and of
      no later one) takes that row's eBird Common Name and is marked converted. */
  lemma LoadedSpeciesConverts(table: SpeciesTable, rows: seq<SourceRecord>, i: nat, rin: SourceRecord)
    requires i < KeyedCount(rows, SpeciesKey)
    requires forall j :: i < j < KeyedCount(rows, SpeciesKey) ==> SpeciesKey(rows[j]) != SpeciesKey(rows[i])
    requires "eBird Common Name" in rows[i]
    requires "BirdLife common name" in rin && rin["BirdLife common name"] == rows[i]["BirdLife common name"]
    ensures ConvertSpecies(Loaded(table, rows, SpeciesKey), rin) ==
      Ok(SpeciesFields(rows[i]["eBird Common Name"], "", "", true))
  {
    LoadedLastWins(table, rows, SpeciesKey, i);
  }

  /** After load_locations, a record at a loaded place (whose key no later row has) takes the
      region and country of that row and is marked converted; with a non-empty eBird Location
      it also takes that row's eBird name and coordinates. */
  lemma LoadedLocationConverts(table: LocationTable, rows: seq<SourceRecord>, i: nat, rin: SourceRecord)
    requires i < KeyedCount(rows, LocationKeyOf)
    requires forall j :: i < j < KeyedCount(rows, LocationKeyOf) ==> LocationKeyOf(rows[j]) != LocationKeyOf(rows[i])
    requires HasLocationColumns(rows[i])
    requires "Location" in rin && "Latitude" in rin && "Longitude" in rin
    requires (rin["Location"], rin["Latitude"], rin["Longitude"]) == LocationKeyOf(rows[i]).value
    ensures var r := ConvertLocation(Loaded(table, rows, LocationKeyOf), rin);
      var entry := rows[i];
      && r.Ok?
      && r.value.converted
      && r.value.region == entry["eBird Region Code"]
      && r.value.country == entry["eBird Country Code"]
      && (entry["eBird Location"] != "" ==>
            r.value.name == entry["eBird Location"]
            && r.value.latitude == entry["eBird Latitude"]
            && r.value.longitude == entry["eBird Longitude"])
  {
    LoadedLastWins(table, rows, LocationKeyOf, i);
  }

  /** The column names found by read_header, and the index of the line after them,
      where reading records resumes. */
  datatype Header = Header(names: seq<string>, next: nat)

  /** What read_header sees in a line once it is stripped: nothing, the "Data" line that opens
      the data section (in any capitalisation), or some other text. */
  datatype LineKind = BlankLine | DataLine | TextLine(text: string)

  function Classify(line: string): (k: LineKind)
    ensures k == BlankLine <==> Strip(line) == ""
    ensures k == DataLine <==> Strip(line) != "" && Lower(Strip(line)) == "data"
    ensures k.TextLine? ==> k.text == Strip(line) && Lower(k.text) != "data" && k.text != ""
  {
    var s := Strip(line);
    if s == "" then BlankLine else if Lower(s) == "data" then DataLine else TextLine(s)
  }

  /** The kind of every line of an export. */
  function Classified(lines: seq<string>): (kinds: seq<LineKind>)
    ensures |kinds| == |lines|
    ensures forall i :: 0 <= i < |lines| ==> kinds[i] == Classify(lines[i])
  {
    seq(|lines|, i requires 0 <= i < |lines| => Classify(lines[i]))
  }

  /** Some line in kinds[lo..hi] opens the data section. */
  predicate DataLineIn(kinds: seq<LineKind>, lo: nat, hi: nat)
  {
    exists s :: lo <= s < hi && s < |kinds| && kinds[s] == DataLine
  }

  /** Scanning from line i (with `seen` telling whether a "Data" line came before it), line h
      could hold the column names: it holds text other than "Data" and follows a "Data" line. */
  predicate IsCandidate(kinds: seq<LineKind>, i: nat, seen: bool, h: nat)
  {
    && i <= h < |kinds|
    && kinds[h].TextLine?
    && (seen || DataLineIn(kinds, i, h))
  }

  predicate IsFirstCandidate(kinds: seq<LineKind>, i: nat, seen: bool, h: nat)
  {
    IsCandidate(kinds, i, seen, h) && forall j :: i <= j < h ==> !IsCandidate(kinds, i, seen, j)
  }

  /** What read_header makes of the line it takes for the column names: a ValueError when the
      line holds a digit, else its tab-separated pieces. */
  function HeaderAt(kinds: seq<LineKind>, h: nat): (r: Result<Header>)
    requires h < |kinds| && kinds[h].TextLine?
    ensures r != Err(ValueError(NO_HEADER))
    ensures r.Err? ==> r == Err(ValueError(FOUND_RECORD))
    ensures r.Ok? <==> !HasDigit(kinds[h].text)
    ensures r.Ok? ==> r.value == Header(Split(kinds[h].text, '\t'), h + 1)
  {
    var line := kinds[h].text;
    if HasDigit(line) then Err(ValueError(FOUND_RECORD)) else Ok(Header(Split(line, '\t'), h + 1))
  }

  /** read_header from line i on, line by line. */
  function ScanHeader(kinds: seq<LineKind>, i: nat, seen: bool): (r: Result<Header>)
    requires i <= |kinds|
    ensures r.Ok? ==> i < r.value.next <= |kinds| && |r.value.names| >= 1
    decreases |kinds| - i
  {
    if i == |kinds| then Err(ValueError(NO_HEADER))
    else
      match kinds[i]
      case BlankLine => ScanHeader(kinds, i + 1, seen)
      case DataLine => ScanHeader(kinds, i + 1, true)
      case TextLine(_) => if seen then HeaderAt(kinds, i) else ScanHeader(kinds, i + 1, seen)
  }

  /** Moving the scan past line i keeps the candidates after it, once line i is recorded in `seen`. */
  lemma CandidateShift(kinds: seq<LineKind>, i: nat, seen: bool, h: nat)
    requires i < h
    requires i < |kinds|
    ensures IsCandidate(kinds, i, seen, h) <==> IsCandidate(kinds, i + 1, seen || kinds[i] == DataLine, h)
  {
    if DataLineIn(kinds, i, h) && kinds[i] != DataLine {
      var s :| i <= s < h && s < |kinds| && kinds[s] == DataLine;
      assert DataLineIn(kinds, i + 1, h);
    }
    if DataLineIn(kinds, i + 1, h) {
      var s :| i + 1 <= s < h && s < |kinds| && kinds[s] == DataLine;
      assert DataLineIn(kinds, i, h);
    }
    if kinds[i] == DataLine {
      assert DataLineIn(kinds, i, h);
    }
  }

  /** The scan from line i takes the first candidate line for the column names, or fails with
      "Could not find row containing column names" exactly when there is no candidate. */
  lemma {:induction false} ScanHeaderCases(kinds: seq<LineKind>, i: nat, seen: bool)
    requires i <= |kinds|
    ensures forall h :: IsFirstCandidate(kinds, i, seen, h) ==> ScanHeader(kinds, i, seen) == HeaderAt(kinds, h)
    ensures ScanHeader(kinds, i, seen) == Err(ValueError(NO_HEADER)) <==> forall h :: !IsCandidate(kinds, i, seen, h)
    ensures ScanHeader(kinds, i, seen) != Err(ValueError(NO_HEADER)) ==> exists h :: IsFirstCandidate(kinds, i, seen, h)
    decreases |kinds| - i
  {
    if i < |kinds| {
      var seen' := seen || kinds[i] == DataLine;
      forall h: nat | i < h ensures IsCandidate(kinds, i, seen, h) <==> IsCandidate(kinds, i + 1, seen', h) {
        CandidateShift(kinds, i, seen, h);
      }
      if kinds[i].TextLine? && seen {
        assert IsFirstCandidate(kinds, i, seen, i);
      } else {
        assert !IsCandidate(kinds, i, seen, i) by {
          assert !DataLineIn(kinds, i, i);
        }
        assert ScanHeader(kinds, i, seen) == ScanHeader(kinds, i + 1, seen');
        ScanHeaderCases(kinds, i + 1, seen');
        if ScanHeader(kinds, i, seen) == Err(ValueError(NO_HEADER)) {
          forall h: nat ensures !IsCandidate(kinds, i, seen, h) {
            if h > i {
              assert !IsCandidate(kinds, i + 1, seen', h);
            }
          }
        }
        if forall h: nat :: !IsCandidate(kinds, i, seen, h) {
          var next := i + 1;
          forall h: nat ensures !IsCandidate(kinds, next, seen', h) {
            if h > i {
              assert !IsCandidate(kinds, i, seen, h);
            }
          }
        }
        forall h: nat | IsFirstCandidate(kinds, i, seen, h) ensures IsFirstCandidate(kinds, i + 1, seen', h) {
          var next := i + 1;
          forall j: nat | next <= j < h ensures !IsCandidate(kinds, next, seen', j) {
            assert !IsCandidate(kinds, i, seen, j);
          }
        }
        forall h: nat | IsFirstCandidate(kinds, i + 1, seen', h) ensures IsFirstCandidate(kinds, i, seen, h) {
          forall j: nat | i <= j < h ensures !IsCandidate(kinds, i, seen, j) {
            if j > i {
              assert !IsCandidate(kinds, i + 1, seen', j);
            }
          }
        }
        if ScanHeader(kinds, i, seen) != Err(ValueError(NO_HEADER)) {
          var h: nat :| IsFirstCandidate(kinds, i + 1, seen', h);
          assert IsFirstCandidate(kinds, i, seen, h);
        }
      }
    }
  }

  /** read_header on a whole export: the first line after a "Data" line that holds text other
      than "Data" holds the column names, unless it holds a digit; it fails with "Could not find
      row containing column names" exactly when there is no such line. */
  lemma ReadHeaderCases(kinds: seq<LineKind>)
    ensures forall h :: IsFirstCandidate(kinds, 0, false, h) ==> ScanHeader(kinds, 0, false) == HeaderAt(kinds, h)
    ensures ScanHeader(kinds, 0, false) == Err(ValueError(NO_HEADER)) <==> forall h :: !IsCandidate(kinds, 0, false, h)
    ensures ScanHeader(kinds, 0, false).Ok? ==>
      var h := ScanHeader(kinds, 0, false).value.next - 1;
      && IsFirstCandidate(kinds, 0, false, h)
      && !HasDigit(kinds[h].text)
      && ScanHeader(kinds, 0, false).value.names == Split(kinds[h].text, '\t')
    ensures ScanHeader(kinds, 0, false).Err? && ScanHeader(kinds, 0, false) != Err(ValueError(NO_HEADER)) ==>
      && ScanHeader(kinds, 0, false) == Err(ValueError(FOUND_RECORD))
      && exists h: nat :: IsFirstCandidate(kinds, 0, false, h) && HasDigit(kinds[h].text)
  {
    ScanHeaderCases(kinds, 0, false);
    if ScanHeader(kinds, 0, false) != Err(ValueError(NO_HEADER)) {
      var h :| IsFirstCandidate(kinds, 0, false, h);
      assert ScanHeader(kinds, 0, false) == HeaderAt(kinds, h);
    }
  }

  function Shifted(r: Result<Header>, n: nat): (s: Result<Header>)
    ensures s.Ok? <==> r.Ok?
    ensures s.Ok? ==> s.value.names == r.value.names && s.value.next == r.value.next + n
    ensures s.Err? ==> s == r
  {
    if r.Ok? then Ok(Header(r.value.names, r.value.next + n)) else r
  }

  /** Scanning the part of an export after a prefix is scanning that part alone, shifted by the prefix. */
  lemma {:induction false} ScanHeaderShift(pre: seq<LineKind>, rest: seq<LineKind>, j: nat, seen: bool)
    requires j <= |rest|
    ensures ScanHeader(pre + rest, |pre| + j, seen) == Shifted(ScanHeader(rest, j, seen), |pre|)
    decreases |rest| - j
  {
    if j < |rest| {
      assert (pre + rest)[|pre| + j] == rest[j];
      ScanHeaderShift(pre, rest, j + 1, seen);
      ScanHeaderShift(pre, rest, j + 1, true);
    }
  }

  /** Lines before the first "Data" line are skipped, whatever they hold. */
  lemma {:induction false} SkipsPreamble(pre: seq<LineKind>, rest: seq<LineKind>, i: nat)
    requires i <= |pre|
    requires forall k :: 0 <= k < |pre| ==> pre[k] != DataLine
    ensures ScanHeader(pre + rest, i, false) == ScanHeader(pre + rest, |pre|, false)
    decreases |pre| - i
  {
    if i < |pre| {
      assert (pre + rest)[i] == pre[i];
      SkipsPreamble(pre, rest, i + 1);
    }
  }

  /** A preamble without a "Data" line does not change the column names read_header finds,
      and only moves the line where records start. */
  lemma PreambleIgnored(pre: seq<string>, rest: seq<string>)
    requires forall k :: 0 <= k < |pre| ==> Classify(pre[k]) != DataLine
    ensures ScanHeader(Classified(pre + rest), 0, false) == Shifted(ScanHeader(Classified(rest), 0, false), |pre|)
  {
    assert Classified(pre + rest) == Classified(pre) + Classified(rest);
    SkipsPreamble(Classified(pre), Classified(rest), 0);
    ScanHeaderShift(Classified(pre), Classified(rest), 0, false);
  }

  /** How convert_file turns one line of the export into an eBird record: read_record with the
      handler's own column names, then convert_record. */
  function ConvertLine(species: SpeciesTable, locations: LocationTable, names: seq<string>, line: string): Result<EbirdRecord>
  {
    ConvertRecord(species, locations, ReadRecord(line, names))
  }

  function LineConverter(species: SpeciesTable, locations: LocationTable, names: seq<string>): string -> Result<EbirdRecord>
  {
    line => ConvertLine(species, locations, names, line)
  }

  /** The rows written for the lines of an export after its column names: one per line, as
      long as the lines convert. */
  function ConvertedRows(convert: string -> Result<EbirdRecord>, lines: seq<string>): seq<string>
  {
    if |lines| == 0 then []
    else
      match convert(lines[0])
      case Err(_) => []
      case Ok(rec) => [RowText(rec)] + ConvertedRows(convert, lines[1..])
  }

  /** The rows are those of the longest run of leading lines that convert: each row is the
      conversion of its line, and the line after the last row, if any, does not convert. */
  lemma {:induction false} ConvertedRowsPrefix(convert: string -> Result<EbirdRecord>, lines: seq<string>)
    ensures var rows := ConvertedRows(convert, lines);
      && |rows| <= |lines|
      && (forall i :: 0 <= i < |rows| ==> convert(lines[i]).Ok? && rows[i] == RowText(convert(lines[i]).value))
      && (|rows| < |lines| ==> convert(lines[|rows|]).Err?)
  {
    if |lines| > 0 && convert(lines[0]).Ok? {
      ConvertedRowsPrefix(convert, lines[1..]);
    }
  }

  /** The rows for the lines from line n on. */
  function ConvertedRowsFrom(convert: string -> Result<EbirdRecord>, lines: seq<string>, n: nat): seq<string>
    requires n <= |lines|
  {
    ConvertedRows(convert, lines[n..])
  }

  /** One step of ConvertedRows from line i: the row of line i before the rest, or nothing. */
  lemma ConvertedRowsStep(convert: string -> Result<EbirdRecord>, lines: seq<string>, i: nat)
    requires i < |lines|
    ensures ConvertedRows(convert, lines[i..]) ==
      if convert(lines[i]).Ok? then [RowText(convert(lines[i]).value)] + ConvertedRows(convert, lines[i + 1..]) else []
  {
    assert lines[i..][0] == lines[i] && lines[i..][1..] == lines[i + 1..];
  }

  /** The rows convert_file writes for an export: none when read_header fails, else those of the
      lines after the column names. */
  function FileRows(convert: string -> Result<EbirdRecord>, lines: seq<string>): seq<string>
  {
    var header := ScanHeader(Classified(lines), 0, false);
    if header.Err? then [] else ConvertedRowsFrom(convert, lines, header.value.next)
  }

  /** The rows for the lines from line `start` on: one per line, in order, up to the first line
      that does not convert. */
  lemma ConvertedRowsFromPrefix(convert: string -> Result<EbirdRecord>, lines: seq<string>, start: nat)
    requires start <= |lines|
    ensures var rows := ConvertedRowsFrom(convert, lines, start);
      && start + |rows| <= |lines|
      && (forall i :: 0 <= i < |rows| ==>
            convert(lines[start + i]).Ok? && rows[i] == RowText(convert(lines[start + i]).value))
      && (start + |rows| < |lines| ==> convert(lines[start + |rows|]).Err?)
  {
    var rest := lines[start..];
    ConvertedRowsPrefix(convert, rest);
    forall i | 0 <= i < |rest| ensures rest[i] == lines[start + i] {
    }
  }

  /** A blank line never converts: it reads as a record with only a row number, so an export
      is converted up to its first blank line after the column names. */
  lemma BlankLineStops(species: SpeciesTable, locations: LocationTable, names: seq<string>, line: string)
    requires Classify(line) == BlankLine
    ensures LineConverter(species, locations, names)(line).Err?
  {
    assert Split("", '\t') == [""];
    assert Strip("") == "";
    assert Fields(line) == [""];
    var pairs := Zip([ROW_NUMBER] + names, Fields(line));
    assert pairs == [(ROW_NUMBER, "")];
    assert Assign(map[], pairs[..0]) == map[];
    assert ReadRecord(line, names) == map[ROW_NUMBER := ""];
    assert "BirdLife common name" !in ReadRecord(line, names);
  }

  class PortugalAvesHandler {
    /** BirdLife common name to the row of the species file. */
    var species: SpeciesTable
    /** (Worldbirds Location, Worldbirds Latitude, Worldbirds Longitude) to the row of the locations file. */
    var locations: LocationTable
    /** The column names records are read with. */
    const headers: seq<string>

    constructor()
      ensures species == map[] && locations == map[] && headers == WORLDBIRDS_HEADERS
    {
      species := map[];
      locations := map[];
      headers := WORLDBIRDS_HEADERS;
    }

    /** load_species: files each row under its BirdLife common name, later rows replacing earlier
        ones; a row without that column raises KeyError and leaves the rows before it loaded. */
    method LoadSpecies(rows: seq<SourceRecord>) returns (r: Result<()>)
      modifies this
      ensures r.Ok? <==> KeyedCount(rows, SpeciesKey) == |rows|
      ensures r.Err? ==> r.error == KeyError("BirdLife common name")
      ensures species == Loaded(old(species), rows, SpeciesKey)
      ensures locations == old(locations)
    {
      var i := 0;
      while i < |rows|
        invariant i <= |rows|
        invariant forall j :: 0 <= j < i ==> SpeciesKey(rows[j]).Ok?
        invariant species == Assign(old(species), Keyed(rows[..i], SpeciesKey))
        invariant locations == old(locations)
      {
        var key := SpeciesKey(rows[i]);
        if key.Err? {
          assert KeyedCount(rows, SpeciesKey) == i;
          return Err(key.error);
        }
        LoadStep(old(species), rows, SpeciesKey, i);
        species := species[key.value := rows[i]];
        i := i + 1;
      }
      assert rows[..i] == rows;
      return Ok(());
    }

    /** load_locations: files each row under its (Worldbirds Location, Worldbirds Latitude,
        Worldbirds Longitude) text, later rows replacing earlier ones; a row missing one of
        those columns raises KeyError and leaves the rows before it loaded. */
    method LoadLocations(rows: seq<SourceRecord>) returns (r: Result<()>)
      modifies this
      ensures r.Ok? <==> KeyedCount(rows, LocationKeyOf) == |rows|
      ensures r.Err? ==> r == Err(LocationKeyOf(rows[KeyedCount(rows, LocationKeyOf)]).error)
      ensures locations == Loaded(old(locations), rows, LocationKeyOf)
      ensures species == old(species)
    {
      var i := 0;
      while i < |rows|
        invariant i <= |rows|
        invariant forall j :: 0 <= j < i ==> LocationKeyOf(rows[j]).Ok?
        invariant locations == Assign(old(locations), Keyed(rows[..i], LocationKeyOf))
        invariant species == old(species)
      {
        var key := LocationKeyOf(rows[i]);
        if key.Err? {
          assert KeyedCount(rows, LocationKeyOf) == i;
          return Err(key.error);
        }
        LoadStep(old(locations), rows, LocationKeyOf, i);
        locations := locations[key.value := rows[i]];
        i := i + 1;
      }
      assert rows[..i] == rows;
      return Ok(());
    }

    /** load_resources: the species rows, then the location rows; a failure loading the species
        leaves the locations as they were. */
    method LoadResources(speciesRows: seq<SourceRecord>, locationRows: seq<SourceRecord>) returns (r: Result<()>)
      modifies this
      ensures species == Loaded(old(species), speciesRows, SpeciesKey)
      ensures KeyedCount(speciesRows, SpeciesKey) < |speciesRows| ==> r.Err? && locations == old(locations)
      ensures KeyedCount(speciesRows, SpeciesKey) == |speciesRows| ==>
        locations == Loaded(old(locations), locationRows, LocationKeyOf)
        && (r.Ok? <==> KeyedCount(locationRows, LocationKeyOf) == |locationRows|)
    {
      r := LoadSpecies(speciesRows);
      if r.Err? {
        return;
      }
      r := LoadLocations(locationRows);
    }

    /** read_header over the lines of an export. */
    method ReadHeader(lines: seq<string>) returns (r: Result<Header>)
      ensures r == ScanHeader(Classified(lines), 0, false)
    {
      ghost var kinds := Classified(lines);
      var headers: seq<string> := [];
      var seen := false;
      var i := 0;
      while i < |lines|
        invariant i <= |lines|
        invariant headers == []
        invariant ScanHeader(kinds, i, seen) == ScanHeader(kinds, 0, false)
      {
        var line := Strip(lines[i]);
        assert kinds[i] == Classify(lines[i]);
        i := i + 1;
        if line == "" {
          continue;
        }
        if Lower(line) == "data" {
          seen := true;
        } else if seen {
          if HasDigit(line) {
            return Err(ValueError(FOUND_RECORD));
          }
          headers := Split(line, '\t');
          break;
        }
      }
      if headers == [] {
        return Err(ValueError(NO_HEADER));
      }
      return Ok(Header(headers, i));
    }

    /** convert_file over the lines of an export: the rows written, whether the output was
        opened (only once a record converted), and the record counter. The column names
        read_header finds are not used; records are read with the handler's own list. */
    method ConvertFile(lines: seq<string>) returns (outputOpened: bool, rows: seq<string>, recordNumber: nat)
      ensures rows == FileRows(LineConverter(species, locations, headers), lines)
      ensures outputOpened <==> rows != []
      ensures recordNumber == |rows| + 1
    {
      var header := ReadHeader(lines);
      if header.Err? {
        return false, [], 1;
      }
      outputOpened, rows, recordNumber := WriteRows(LineConverter(species, locations, headers), lines, header.value.next);
    }

    /** The loop of convert_file over the lines after the column names, with `convert` the
        conversion of one line: the output is opened before the first row is written, and the
        first line that does not convert ends the loop. */
    method WriteRows(convert: string -> Result<EbirdRecord>, lines: seq<string>, start: nat)
      returns (outputOpened: bool, rows: seq<string>, recordNumber: nat)
      requires start <= |lines|
      ensures rows == ConvertedRowsFrom(convert, lines, start)
      ensures outputOpened <==> rows != []
      ensures recordNumber == |rows| + 1
    {
      outputOpened := false;
      rows := [];
      recordNumber := 1;
      var i := start;
      while i < |lines|
        invariant start <= i <= |lines|
        invariant rows + ConvertedRows(convert, lines[i..]) == ConvertedRows(convert, lines[start..])
        invariant outputOpened <==> rows != []
        invariant recordNumber == |rows| + 1
      {
        ConvertedRowsStep(convert, lines, i);
        var rout := convert(lines[i]);
        if rout.Err? {
          break;
        }
        if !outputOpened {
          outputOpened := true;
        }
        rows := rows + [RowText(rout.value)];
        recordNumber := recordNumber + 1;
        i := i + 1;
      }
      assert i == |lines| ==> lines[i..] == [];
    }
  }
}
