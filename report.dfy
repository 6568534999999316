/**
  The count shown after the query: a success message with the number of
  filtered volcanoes, balloons from ten matches up, and a warning with snow
  when nothing matches.
*/
module Report {
  import opened Records
  import opened Query

  const ManyThreshold: nat := 10

  /** The animation that goes with the success message. */
  datatype Celebration = Balloons | WarningAndSnow | Quiet

  /** "Found {total} volcanoes in {country}!" and what accompanies it. */
  datatype Summary = Summary(total: nat, country: string, celebration: Celebration)

  function Summarize(filtered: seq<Record>, country: string): (s: Summary)
    ensures s.total == |filtered| && s.country == country
    ensures s.celebration == WarningAndSnow <==> filtered == []
    ensures s.celebration == Balloons <==> |filtered| >= ManyThreshold
    ensures s.celebration == Quiet <==> 0 < |filtered| < ManyThreshold
  {
    var total := |filtered|;
    var celebration :=
      if total >= ManyThreshold then Balloons
      else if total == 0 then WarningAndSnow
      else Quiet;
    Summary(total, country, celebration)
  }

  /**
    The summary read against the table itself: the count is the number of
    matching rows, the warning appears exactly when no row matches and the
    balloons exactly when at least ten rows match.
  */
  lemma SummaryOfTable(recs: seq<Record>, country: string, minElev: int, maxElev: int)
    ensures var s := Summarize(Filter(recs, country, minElev, maxElev), country);
      && s.country == country
      && s.total == |MatchingIndices(recs, country, minElev, maxElev)|
      && (s.celebration == WarningAndSnow <==> forall rec :: rec in recs ==> !Matches(rec, country, minElev, maxElev))
      && (s.celebration == Balloons <==> |MatchingIndices(recs, country, minElev, maxElev)| >= ManyThreshold)
  {
    var filtered := Filter(recs, country, minElev, maxElev);
    FilterLength(recs, country, minElev, maxElev);
    if filtered != [] {
      assert filtered[0] in filtered;
    }
  }
}
