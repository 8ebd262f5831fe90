/** The field converters of PortugalAvesHandler (ebimport/handlers.py):
    convert_species, convert_location and convert_record, which map one WorldBirds
    record to one eBird record, and the quoted comma-separated form convert_file
    writes each eBird record in.
    The reference tables are passed in explicitly; the handler owns them. */
module Convert {
  import opened Errors
  import opened Text
  import opened Dicts
  import opened Datetimes
  import opened Records

  /** BirdLife common name to the row of the species file that names it. */
  type SpeciesTable = map<string, SourceRecord>

  /** (Worldbirds Location, Worldbirds Latitude, Worldbirds Longitude), compared as exact text. */
  type LocationKey = (string, string, string)

  /** Location key to the row of the locations file that has it. */
  type LocationTable = map<LocationKey, SourceRecord>

  /** convert_species: with a table entry for the record's BirdLife common name, the eBird
      common name from that entry and the mark true; without one, the name as it is and the
      mark false. Genus and Species are always empty. It fails only when the record has no
      BirdLife common name or the entry found has no eBird Common Name. */
  function ConvertSpecies(species: SpeciesTable, rin: SourceRecord): (r: Result<SpeciesFields>)
    ensures r.Ok? <==>
      && "BirdLife common name" in rin
      && (rin["BirdLife common name"] in species ==> "eBird Common Name" in species[rin["BirdLife common name"]])
    ensures r.Err? ==> r.error.KeyError?
    ensures r.Ok? ==> r.value.genus == "" && r.value.species == ""
    ensures r.Ok? ==>
      var name := rin["BirdLife common name"];
      && (r.value.converted <==> name in species)
      && r.value.commonName == if name in species then species[name]["eBird Common Name"] else name
  {
    var name :- Get(rin, "BirdLife common name");
    if name in species then
      var common :- Get(species[name], "eBird Common Name");
      Ok(SpeciesFields(common, "", "", true))
    else
      Ok(SpeciesFields(name, "", "", false))
  }

  /** The columns convert_location reads from a matching table entry. */
  predicate HasLocationColumns(entry: SourceRecord)
  {
    && "eBird Location" in entry
    && (entry["eBird Location"] != "" ==> "eBird Latitude" in entry && "eBird Longitude" in entry)
    && "eBird Region Code" in entry && "eBird Country Code" in entry
  }

  /** convert_location: with no entry for the exact (Location, Latitude, Longitude) text,
      the record's own location, empty region and country, and the mark false. With one, the
      mark true, region and country from the entry, and name, latitude and longitude from the
      entry only when its eBird Location is not empty. */
  function ConvertLocation(locations: LocationTable, rin: SourceRecord): (r: Result<LocationFields>)
    ensures r.Ok? <==>
      && "Location" in rin && "Latitude" in rin && "Longitude" in rin
      && ((rin["Location"], rin["Latitude"], rin["Longitude"]) in locations ==>
            HasLocationColumns(locations[(rin["Location"], rin["Latitude"], rin["Longitude"])]))
    ensures r.Err? ==> r.error.KeyError?
    ensures r.Ok? ==>
      var key := (rin["Location"], rin["Latitude"], rin["Longitude"]);
      if key !in locations then
        r.value == LocationFields(key.0, key.1, key.2, "", "", false)
      else
        var entry := locations[key];
        && r.value.converted
        && r.value.region == entry["eBird Region Code"]
        && r.value.country == entry["eBird Country Code"]
        && if entry["eBird Location"] != "" then
             && r.value.name == entry["eBird Location"]
             && r.value.latitude == entry["eBird Latitude"]
             && r.value.longitude == entry["eBird Longitude"]
           else
             && r.value.name == key.0
             && r.value.latitude == key.1
             && r.value.longitude == key.2
  {
    var name :- Get(rin, "Location");
    var latitude :- Get(rin, "Latitude");
    var longitude :- Get(rin, "Longitude");
    var key := (name, latitude, longitude);
    if key !in locations then
      Ok(LocationFields(name, latitude, longitude, "", "", false))
    else
      var entry := locations[key];
      var ebirdName :- Get(entry, "eBird Location");
      if ebirdName != "" then
        var ebirdLatitude :- Get(entry, "eBird Latitude");
        var ebirdLongitude :- Get(entry, "eBird Longitude");
        var region :- Get(entry, "eBird Region Code");
        var country :- Get(entry, "eBird Country Code");
        Ok(LocationFields(ebirdName, ebirdLatitude, ebirdLongitude, region, country, true))
      else
        var region :- Get(entry, "eBird Region Code");
        var country :- Get(entry, "eBird Country Code");
        Ok(LocationFields(name, latitude, longitude, region, country, true))
  }

  /** The location table of the handler's location tests: two places, each with its eBird name,
      region, country and rounded coordinates. */
  function ExampleLocations(): LocationTable
  {
    map[
      ("location a", "1.1", "1.1") := map[
        "eBird Location" := "Location A", "eBird Region Code" := "Region A", "eBird Country Code" := "CC",
        "eBird Latitude" := "1.0000", "eBird Longitude" := "1.0000"],
      ("location b", "2.0001", "2.0001") := map[
        "eBird Location" := "Location B", "eBird Region Code" := "Region B", "eBird Country Code" := "CC",
        "eBird Latitude" := "2.0000", "eBird Longitude" := "2.0000"]]
  }

  /** A known place takes the eBird name, region, country and coordinates of its entry and is
      marked converted. */
  lemma KnownLocationConverts()
    ensures ConvertLocation(ExampleLocations(),
      map["Location" := "location a", "Region/State" := "region a", "Latitude" := "1.1", "Longitude" := "1.1"])
      == Ok(LocationFields("Location A", "1.0000", "1.0000", "Region A", "CC", true))
  {
    var entry := ExampleLocations()[("location a", "1.1", "1.1")];
    assert entry["eBird Location"] == "Location A";
  }

  /** An unknown place keeps its own name and coordinates and is not marked converted. */
  lemma UnknownLocationKept()
    ensures ConvertLocation(ExampleLocations(),
      map["Location" := "location z", "Region/State" := "region z", "Latitude" := "1.1", "Longitude" := "1.1"])
      == Ok(LocationFields("location z", "1.1", "1.1", "", "", false))
  {
    assert ("location z", "1.1", "1.1") !in ExampleLocations();
  }

  /** The eBird count: "X" (present, not counted) for an empty count or any capitalisation
      of "present", otherwise the count as it is. */
  function CountText(number: string): (r: string)
    ensures r == "X" <==> number == "" || Lower(number) == "present" || number == "X"
    ensures r != "X" ==> r == number
  {
    if number == "" || Lower(number) == "present" then "X" else number
  }

  /** Double quotes in free text become single quotes, so that the value can sit between
      the double quotes of the output row. */
  function CommentText(notes: string): (r: string)
    ensures |r| == |notes| && '"' !in r
    ensures forall i :: 0 <= i < |notes| && notes[i] != '"' ==> r[i] == notes[i]
    ensures ReplaceChar(r, '"', '\'') == r
  {
    ReplaceIdempotent(notes, '"', '\'');
    ReplaceChar(notes, '"', '\'')
  }

  /** What convert_record needs of a record to succeed: both lookups succeed, every
      column it reads is there, the date and both times parse, and "All birds recorded?"
      is not empty. */
  predicate Convertible(species: SpeciesTable, locations: LocationTable, rin: SourceRecord)
  {
    && ConvertSpecies(species, rin).Ok?
    && ConvertLocation(locations, rin).Ok?
    && "Number" in rin && "Visit species notes" in rin && "Visit date" in rin
    && "Start time" in rin && "End time" in rin && "Number of observers" in rin
    && "All birds recorded?" in rin && "Visit notes" in rin
    && ParseDate(rin["Visit date"]).Ok?
    && ParseTime(rin["Start time"]).Ok?
    && ParseTime(rin["End time"]).Ok?
    && rin["All birds recorded?"] != ""
  }

  /** What convert_record reads and parses from a record, before it builds the output. */
  datatype Parts = Parts(
    speciesFields: SpeciesFields, number: string, speciesNotes: string,
    locationFields: LocationFields, date: Date, start: Time, end: Time,
    observers: string, allBirds: string, visitNotes: string)

  /** The reads and parses of convert_record, in the order the source makes them;
      the first that fails is the error. */
  function ReadParts(species: SpeciesTable, locations: LocationTable, rin: SourceRecord): (r: Result<Parts>)
    ensures r.Ok? <==> Convertible(species, locations, rin)
    ensures r.Ok? ==> r.value == Parts(
      ConvertSpecies(species, rin).value, rin["Number"], rin["Visit species notes"],
      ConvertLocation(locations, rin).value, ParseDate(rin["Visit date"]).value,
      ParseTime(rin["Start time"]).value, ParseTime(rin["End time"]).value,
      rin["Number of observers"], rin["All birds recorded?"], rin["Visit notes"])
  {
    var speciesFields :- ConvertSpecies(species, rin);
    var number :- Get(rin, "Number");
    var speciesNotes :- Get(rin, "Visit species notes");
    var locationFields :- ConvertLocation(locations, rin);
    var dateText :- Get(rin, "Visit date");
    var date :- ParseDate(dateText);
    var startText :- Get(rin, "Start time");
    var start :- ParseTime(startText);
    var endText :- Get(rin, "End time");
    var end :- ParseTime(endText);
    var observers :- Get(rin, "Number of observers");
    var allBirds :- Get(rin, "All birds recorded?");
    if allBirds == "" then Err(IndexError)
    else
      var visitNotes :- Get(rin, "Visit notes");
      Ok(Parts(speciesFields, number, speciesNotes, locationFields, date, start, end, observers, allBirds, visitNotes))
  }

  /** convert_record: the species and location conversions, and the remaining columns.
      It fails exactly when a column it reads is missing, a lookup fails, the date or a
      time does not parse, or "All birds recorded?" is empty (its first character is taken). */
  function ConvertRecord(species: SpeciesTable, locations: LocationTable, rin: SourceRecord): (r: Result<EbirdRecord>)
    ensures r.Ok? <==> Convertible(species, locations, rin)
    ensures r.Ok? ==> r.value.species == ConvertSpecies(species, rin).value
    ensures r.Ok? ==> r.value.location == ConvertLocation(locations, rin).value
  {
    var p :- ReadParts(species, locations, rin);
    Ok(EbirdRecord(
      p.speciesFields, CountText(p.number), CommentText(p.speciesNotes), p.locationFields,
      UsDateText(p.date), TimeText(p.start), "", p.observers,
      Decimal(DurationMinutes(p.start, p.end)), [UpperChar(p.allBirds[0])], "", "",
      CommentText(p.visitNotes)))
  }

  /** The scalar columns of a converted record, stated against the source record:
      the count rule, quote-free comments, the date moved from YYYY-MM-DD to MM/DD/YYYY,
      the start time as given, the duration as the minute difference modulo a day, the
      observers as given, the upper-cased first letter of "All birds recorded?", and the
      three effort columns empty. */
  lemma ConvertRecordScalars(species: SpeciesTable, locations: LocationTable, rin: SourceRecord)
    requires ConvertRecord(species, locations, rin).Ok?
    ensures var rec := ConvertRecord(species, locations, rin).value;
      && rec.number == CountText(rin["Number"])
      && rec.speciesComments == CommentText(rin["Visit species notes"])
      && rec.submissionComments == CommentText(rin["Visit notes"])
      && rec.date == rin["Visit date"][5..7] + "/" + rin["Visit date"][8..] + "/" + rin["Visit date"][..4]
      && rec.startTime == rin["Start time"]
      && rec.duration == Decimal(
           (MinuteOfDay(ParseTime(rin["End time"]).value) - MinuteOfDay(ParseTime(rin["Start time"]).value)) % 1440)
      && rec.observers == rin["Number of observers"]
      && rec.allReported == [UpperChar(rin["All birds recorded?"][0])]
      && rec.protocol == "" && rec.effortMiles == "" && rec.effortAcres == ""
  {
    ReformatDate(rin["Visit date"]);
    DurationIsMinuteDifference(ParseTime(rin["Start time"]).value, ParseTime(rin["End time"]).value);
  }

  function Quote(s: string): string
  {
    "\"" + s + "\""
  }

  /** One output line: each value between double quotes (nothing escaped), joined by
      commas, ended by CRLF. */
  function FormatRow(values: seq<string>): string
  {
    Join(",", seq(|values|, i requires 0 <= i < |values| => Quote(values[i]))) + "\r\n"
  }

  /** Reads back the values of one line written by FormatRow: quoted values separated by
      commas, up to a final CRLF. */
  function ParseRow(line: string): Result<seq<string>>
  {
    if |line| >= 2 && line[|line| - 2..] == "\r\n" then ParseQuoted(line[..|line| - 2])
    else Err(ValueError("row does not end with CRLF"))
  }

  function ParseQuoted(s: string): Result<seq<string>>
    decreases |s|
  {
    if |s| < 2 || s[0] != '"' then Err(ValueError("expected a quoted value"))
    else
      var k := 1 + IndexOf(s[1..], '"');
      if k >= |s| then Err(ValueError("unterminated quoted value"))
      else
        var value := s[1..k];
        var rest := s[k + 1..];
        if rest == "" then Ok([value])
        else if rest[0] != ',' then Err(ValueError("expected a comma"))
        else
          var values :- ParseQuoted(rest[1..]);
          Ok([value] + values)
  }

  /** Values free of double quotes, each quoted and joined by commas, read back as the values. */
  lemma {:induction false} ParseJoinedQuoted(values: seq<string>)
    requires |values| >= 1
    requires forall i :: 0 <= i < |values| ==> '"' !in values[i]
    ensures ParseQuoted(Join(",", seq(|values|, i requires 0 <= i < |values| => Quote(values[i])))) == Ok(values)
  {
    var quoted := seq(|values|, i requires 0 <= i < |values| => Quote(values[i]));
    var v := values[0];
    var tail := if |values| == 1 then "" else "," + Join(",", quoted[1..]);
    var s := Join(",", quoted);
    assert s == "\"" + v + "\"" + tail;
    assert s[1..] == v + ['"'] + tail;
    IndexOfPrefix(v, '"', tail);
    var k := 1 + |v|;
    assert 1 + IndexOf(s[1..], '"') == k;
    assert s[1..k] == v;
    assert s[k + 1..] == tail;
    if |values| > 1 {
      var rest := values[1..];
      assert quoted[1..] == seq(|rest|, i requires 0 <= i < |rest| => Quote(rest[i]));
      ParseJoinedQuoted(rest);
      assert tail[0] == ',';
      assert tail[1..] == Join(",", quoted[1..]);
      assert ParseQuoted(tail[1..]) == Ok(rest);
      assert ParseQuoted(s) == Ok([v] + rest);
      assert values == [v] + rest;
    } else {
      assert ParseQuoted(s) == Ok([v]);
      assert values == [v];
    }
  }

  /** A row of values free of double quotes reads back as those values. */
  lemma ParseFormatRow(values: seq<string>)
    requires |values| >= 1
    requires forall i :: 0 <= i < |values| ==> '"' !in values[i]
    ensures ParseRow(FormatRow(values)) == Ok(values)
  {
    var line := FormatRow(values);
    var body := Join(",", seq(|values|, i requires 0 <= i < |values| => Quote(values[i])));
    assert line[..|line| - 2] == body;
    ParseJoinedQuoted(values);
  }

  /** A double quote in a value breaks the row: the row reads back as different values. */
  lemma QuoteInValueBreaksRow()
    ensures ParseRow(FormatRow(["say \"hi\""])) != Ok(["say \"hi\""])
  {
    var line := FormatRow(["say \"hi\""]);
    assert line == "\"say \"hi\"\"\r\n";
    var s := line[..|line| - 2];
    assert s[1..][4] == '"';
    assert IndexOf(s[1..], '"') <= 4;
  }

  /** A comment with quoted speech keeps its words,
      with single quotes. */
  lemma CommentExample()
    ensures CommentText("He said \"hi\"") == "He said 'hi'"
  {
  }

  /** The line convert_file writes for an eBird record: its columns in eBird order. */
  function RowText(rec: EbirdRecord): string
  {
    FormatRow(Columns(rec))
  }

  /** A record whose columns hold no double quote reads back, column by column,
      from the row convert_file writes for it. */
  lemma RowReadsBack(rec: EbirdRecord)
    requires forall i :: 0 <= i < |EBIRD_HEADERS| ==> '"' !in Columns(rec)[i]
    ensures ParseRow(RowText(rec)) == Ok(Columns(rec))
  {
    ParseFormatRow(Columns(rec));
  }
}
