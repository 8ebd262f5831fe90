/** The record shapes on both sides of the conversion, the two fixed column lists,
    and read_record (ebimport/handlers.py): one tab-separated line of a WorldBirds export
    turned into a dict from column name to trimmed value. */
module Records {
  import opened Text
  import opened Dicts

  /** One WorldBirds record (and one row of a reference table): column name to text. */
  type SourceRecord = map<string, string>

  /** What convert_species contributes to an eBird record; `converted` is the
      "Species Converted" mark. */
  datatype SpeciesFields = SpeciesFields(commonName: string, genus: string, species: string, converted: bool)

  /** What convert_location contributes to an eBird record; `converted` is the
      "Location Converted" mark. */
  datatype LocationFields = LocationFields(
    name: string, latitude: string, longitude: string, region: string, country: string, converted: bool)

  /** One eBird record as convert_record builds it. */
  datatype EbirdRecord = EbirdRecord(
    species: SpeciesFields, number: string, speciesComments: string, location: LocationFields,
    date: string, startTime: string, protocol: string, observers: string, duration: string,
    allReported: string, effortMiles: string, effortAcres: string, submissionComments: string)

  /** A value of the dict convert_record returns: text, or the Python bool of a "... Converted" mark. */
  datatype Value = Str(s: string) | Bool(b: bool)

  /** The eBird import columns, in the order they are written. */
  const EBIRD_HEADERS: seq<string> := [
    "Common Name",
    "Genus",
    "Species",
    "Number",
    "Species Comments",
    "Location Name",
    "Latitude",
    "Longitude",
    "Date",
    "Start Time",
    "State/Province",
    "Country Code",
    "Protocol",
    "Number of Observers",
    "Duration",
    "All observations reported?",
    "Effort Distance Miles",
    "Effort area acres",
    "Submission Comments"
  ]

  /** The keys of the dict convert_record returns: every eBird column and the two "... Converted" marks. */
  const OUTPUT_KEYS: set<string> := {
    "Common Name", "Genus", "Species", "Number", "Species Comments", "Location Name", "Latitude",
    "Longitude", "Date", "Start Time", "State/Province", "Country Code", "Protocol",
    "Number of Observers", "Duration", "All observations reported?", "Effort Distance Miles",
    "Effort area acres", "Submission Comments", "Species Converted", "Location Converted"}

  /** The dict convert_record returns for a record, keyed as in the source. */
  function AsDict(rec: EbirdRecord): map<string, Value>
  {
    map[
      "Protocol" := Str(rec.protocol),
      "Effort Distance Miles" := Str(rec.effortMiles),
      "Effort area acres" := Str(rec.effortAcres),
      "Common Name" := Str(rec.species.commonName),
      "Genus" := Str(rec.species.genus),
      "Species" := Str(rec.species.species),
      "Species Converted" := Bool(rec.species.converted),
      "Number" := Str(rec.number),
      "Species Comments" := Str(rec.speciesComments),
      "Location Name" := Str(rec.location.name),
      "Latitude" := Str(rec.location.latitude),
      "Longitude" := Str(rec.location.longitude),
      "State/Province" := Str(rec.location.region),
      "Country Code" := Str(rec.location.country),
      "Location Converted" := Bool(rec.location.converted),
      "Date" := Str(rec.date),
      "Start Time" := Str(rec.startTime),
      "Duration" := Str(rec.duration),
      "Number of Observers" := Str(rec.observers),
      "All observations reported?" := Str(rec.allReported),
      "Submission Comments" := Str(rec.submissionComments)]
  }

  /** The values of a record in eBird column order: what `rout[name] for name in EBIRD_HEADERS` reads. */
  function Columns(rec: EbirdRecord): (values: seq<string>)
    ensures |values| == |EBIRD_HEADERS|
  {
    [rec.species.commonName, rec.species.genus, rec.species.species, rec.number, rec.speciesComments,
     rec.location.name, rec.location.latitude, rec.location.longitude, rec.date, rec.startTime,
     rec.location.region, rec.location.country, rec.protocol, rec.observers, rec.duration,
     rec.allReported, rec.effortMiles, rec.effortAcres, rec.submissionComments]
  }

  /** The dict of a converted record has exactly the eBird columns and the two marks as keys. */
  lemma AsDictKeys(rec: EbirdRecord)
    ensures AsDict(rec).Keys == OUTPUT_KEYS
    ensures forall i :: 0 <= i < |EBIRD_HEADERS| ==> EBIRD_HEADERS[i] in AsDict(rec)
  {
  }

  /** Reading the dict in eBird column order gives the record's columns, in four groups. */
  lemma AsDictColumns(rec: EbirdRecord)
    ensures forall i :: 0 <= i < |EBIRD_HEADERS| ==>
      EBIRD_HEADERS[i] in AsDict(rec) && AsDict(rec)[EBIRD_HEADERS[i]] == Str(Columns(rec)[i])
  {
    AsDictColumnsFrom(rec, 0, 5);
    AsDictColumnsFrom(rec, 5, 10);
    AsDictColumnsFrom(rec, 10, 15);
    AsDictColumnsFrom(rec, 15, 19);
  }

  lemma AsDictColumnsFrom(rec: EbirdRecord, lo: nat, hi: nat)
    requires (lo, hi) in {(0, 5), (5, 10), (10, 15), (15, 19)}
    ensures forall i :: lo <= i < hi ==>
      EBIRD_HEADERS[i] in AsDict(rec) && AsDict(rec)[EBIRD_HEADERS[i]] == Str(Columns(rec)[i])
  {
    if lo == 0 {
    } else if lo == 5 {
    } else if lo == 10 {
    } else {
    }
  }

  /** The columns of a WorldBirds export, as the handler lists them (PortugalAvesHandler.headers). */
  const WORLDBIRDS_HEADERS: seq<string> := [
    "Family name",
    "Family sequence",
    "Species sequence",
    "Scientific name",
    "Common name",
    "BirdLife common name",
    "Location", "Region/State",
    "Location area",
    "Minimum Altitude",
    "Maximum Altitude",
    "Latitude", "Longitude",
    "Location notes",
    "WBDB code",
    "Location is IBA",
    "Location can have subunits",
    "Location is private",
    "Location validated",
    "Location accuracy",
    "Visit date",
    "Start time",
    "End time",
    "Timebirding",
    "Number of observers",
    "Visit notes", "Number",
    "Activity",
    "Purpose",
    "Duplicate",
    "Observation is private",
    "Status",
    "Validation notes",
    "All birds recorded?",
    "Poor conditions",
    "Visit species notes",
    "Location ID",
    "Visit ID",
    "Visit Species ID"
  ]

  /** The name read_record gives the first column of a line. */
  const ROW_NUMBER := "Row Number"

  predicate Distinct(names: seq<string>)
  {
    forall i, j :: 0 <= i < j < |names| ==> names[i] != names[j]
  }

  /** The columns of a line: the stripped line split at tabs, each piece stripped. */
  function Fields(line: string): (fields: seq<string>)
    ensures |fields| == |Split(Strip(line), '\t')| >= 1
    ensures forall i :: 0 <= i < |fields| ==> Trimmed(fields[i]) && '\t' !in fields[i]
  {
    var parts := Split(Strip(line), '\t');
    seq(|parts|, i requires 0 <= i < |parts| =>
      var f := Strip(parts[i]);
      assert forall j :: 0 <= j < |f| ==> f[j] == parts[i][SpaceRunEnd(parts[i], 0) + j];
      f)
  }

  /** read_record(line, names): dict(zip(['Row Number'] + names, fields)).
      No value has white space at either end. */
  function ReadRecord(line: string, names: seq<string>): (r: SourceRecord)
    ensures forall k :: k in r ==> Trimmed(r[k])
  {
    var fields := Fields(line);
    var pairs := Zip([ROW_NUMBER] + names, fields);
    assert forall i :: 0 <= i < |pairs| ==> pairs[i].1 == fields[i];
    AssignValues(map[], pairs, Trimmed);
    Assign(map[], pairs)
  }

  /** With distinct names other than "Row Number", read_record pairs columns and names
      shifted by one: "Row Number" gets the first column, names[i] gets column i + 1,
      and there are as many keys as the shorter of the two lists; names past the last
      column are absent. */
  lemma ReadRecordColumns(line: string, names: seq<string>)
    requires Distinct(names) && ROW_NUMBER !in names
    ensures var fields := Fields(line);
      var n := if |names| + 1 < |fields| then |names| + 1 else |fields|;
      var r := ReadRecord(line, names);
      && |r| == n
      && ROW_NUMBER in r && r[ROW_NUMBER] == fields[0]
      && (forall i :: 0 <= i < |names| && i + 1 < |fields| ==> names[i] in r && r[names[i]] == fields[i + 1])
      && (forall i :: 0 <= i < |names| && i + 1 >= |fields| ==> names[i] !in r)
  {
    var fields := Fields(line);
    var keys := [ROW_NUMBER] + names;
    var pairs := Zip(keys, fields);
    var r := Assign(map[], pairs);
    assert Distinct(keys) by {
      forall i, j | 0 <= i < j < |keys| ensures keys[i] != keys[j] {
        if i == 0 {
          assert keys[j] == names[j - 1];
        } else {
          assert keys[i] == names[i - 1] && keys[j] == names[j - 1];
        }
      }
    }
    AssignSize(map[], pairs);
    forall i | 0 <= i < |pairs|
      ensures pairs[i].0 in r && r[pairs[i].0] == pairs[i].1
    {
      AssignLastWins(map[], pairs, i);
    }
    assert pairs[0] == (ROW_NUMBER, fields[0]);
    forall i | 0 <= i < |names| && i + 1 < |fields|
      ensures names[i] in r && r[names[i]] == fields[i + 1]
    {
      assert pairs[i + 1] == (names[i], fields[i + 1]);
    }
    forall i | 0 <= i < |names| && i + 1 >= |fields|
      ensures names[i] !in r
    {
      forall j | 0 <= j < |pairs| ensures pairs[j].0 != names[i] {
        assert pairs[j].0 == keys[j] && names[i] == keys[i + 1];
      }
      AssignUntouched(map[], pairs, names[i]);
    }
  }
}
