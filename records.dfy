/**
  The rows of the volcano table. A `RawRow` is a row as the CSV reader hands it
  over, where any cell may be missing; a `Record` is a row that survived
  cleaning, in which Latitude, Longitude, Country and Elevation (Meters) are
  present. Volcano Name and Type may still be missing in a `Record`.
*/
module Records {
  import opened Wrappers

  datatype RawRow = RawRow(
    name: Option<string>,
    country: Option<string>,
    kind: Option<string>,
    elevation: Option<int>,
    latitude: Option<real>,
    longitude: Option<real>)

  datatype Record = Record(
    name: Option<string>,
    country: string,
    kind: Option<string>,
    elevation: int,
    latitude: real,
    longitude: real)

  /** The row has every column the cleaning step requires. */
  predicate Complete(row: RawRow) {
    && row.latitude.Some?
    && row.longitude.Some?
    && row.country.Some?
    && row.elevation.Some?
  }

  function ToRecord(row: RawRow): Record
    requires Complete(row)
  {
    Record(row.name, row.country.value, row.kind, row.elevation.value,
           row.latitude.value, row.longitude.value)
  }

  /** The raw row a record was read from: cleaning loses no information. */
  function AsRow(rec: Record): (row: RawRow)
    ensures Complete(row)
    ensures ToRecord(row) == rec
  {
    RawRow(rec.name, Some(rec.country), rec.kind, Some(rec.elevation),
           Some(rec.latitude), Some(rec.longitude))
  }

  function AsRows(recs: seq<Record>): (rows: seq<RawRow>)
    ensures |rows| == |recs|
    ensures forall i :: 0 <= i < |recs| ==> rows[i] == AsRow(recs[i])
  {
    seq(|recs|, i requires 0 <= i < |recs| => AsRow(recs[i]))
  }

  lemma AsRowsCons(rec: Record, recs: seq<Record>)
    ensures AsRows([rec] + recs) == [AsRow(rec)] + AsRows(recs)
  {
  }

  lemma AsRowToRecord(row: RawRow)
    requires Complete(row)
    ensures AsRow(ToRecord(row)) == row
  {
  }
}
