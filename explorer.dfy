/**
  One run of the explorer once a file has been read: clean the table, offer
  its countries, select by the chosen country and elevation range, rank the
  selection, and summarise it.
*/
module Explorer {
  import opened Wrappers
  import opened Records
  import opened Cleaning
  import opened Countries
  import opened Query
  import opened Ranking
  import opened Report

  datatype View = View(
    choices: seq<string>,
    filtered: seq<Record>,
    top: seq<Record>,
    summary: Summary)

  /**
    Why a run stops before showing anything: no uploaded row is complete, so
    the elevation slider has no bounds and `int(NaN)` raises `ValueError`.
  */
  datatype ExploreError = NoCompleteRows

  lemma ChoicesFromRows(rows: seq<RawRow>, c: string)
    ensures c in CountryChoices(Clean(rows)) <==> exists row :: row in rows && Complete(row) && row.country == Some(c)
  {
    var table := Clean(rows);
    if c in CountryChoices(table) {
      var rec :| rec in table && rec.country == c;
      assert AsRow(rec) in rows;
    }
    if exists row :: row in rows && Complete(row) && row.country == Some(c) {
      var row :| row in rows && Complete(row) && row.country == Some(c);
      assert ToRecord(row) in table;
    }
  }

  function Explore(rows: seq<RawRow>, country: string, minElev: int, maxElev: int): (r: Result<View, ExploreError>)
    ensures r.Failure? <==> forall row :: row in rows ==> !Complete(row)
    ensures r.Success? ==> StrictlySorted(r.value.choices)
    ensures r.Success? ==> forall c :: c in r.value.choices <==> exists row :: row in rows && Complete(row) && row.country == Some(c)
    ensures r.Success? ==> forall rec :: rec in r.value.filtered ==> AsRow(rec) in rows && Matches(rec, country, minElev, maxElev)
    ensures r.Success? ==> forall row :: row in rows && Complete(row) && Matches(ToRecord(row), country, minElev, maxElev)
                                   ==> ToRecord(row) in r.value.filtered
    ensures r.Success? ==> IsTop(r.value.filtered, r.value.top)
    ensures r.Success? ==> r.value.summary.total == |r.value.filtered|
    ensures r.Success? ==> (r.value.summary.celebration == WarningAndSnow <==> r.value.filtered == [])
    ensures r.Success? ==> (r.value.summary.celebration == Balloons <==> |r.value.filtered| >= ManyThreshold)
  {
    var table := Clean(rows);
    if ElevationRange(table).None? then
      assert forall row :: row in rows ==> !Complete(row);
      Failure(NoCompleteRows)
    else
      var choices := CountryChoices(table);
      assert forall c :: c in choices <==> exists row :: row in rows && Complete(row) && row.country == Some(c) by {
        forall c { ChoicesFromRows(rows, c); }
      }
      assert exists row :: row in rows && Complete(row) by {
        assert AsRow(table[0]) in rows;
      }
      var filtered := Filter(table, country, minElev, maxElev);
      Success(View(choices, filtered, Top5(filtered), Summarize(filtered, country)))
  }
}
