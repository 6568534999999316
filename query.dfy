/**
  The country and elevation filter: a boolean-mask selection that keeps the
  records of the chosen country whose elevation lies in the chosen range,
  both ends included, in table order.
*/
module Query {
  import opened Wrappers
  import opened Records
  import opened Sequences

  /** The mask: same country, elevation inside the range. An inverted range matches nothing. */
  predicate Matches(rec: Record, country: string, minElev: int, maxElev: int)
    ensures Matches(rec, country, minElev, maxElev) ==> minElev <= maxElev
  {
    rec.country == country && minElev <= rec.elevation && rec.elevation <= maxElev
  }

  /**
    The bounds the elevation slider is built from: the lowest and highest
    elevation of the table. An empty table has none (pandas gives NaN, and
    converting NaN to an integer raises).
  */
  function ElevationRange(recs: seq<Record>): (b: Option<(int, int)>)
    ensures b.None? <==> recs == []
    ensures b.Some? ==> forall rec :: rec in recs ==> b.value.0 <= rec.elevation <= b.value.1
    ensures b.Some? ==> exists rec :: rec in recs && rec.elevation == b.value.0
    ensures b.Some? ==> exists rec :: rec in recs && rec.elevation == b.value.1
  {
    if recs == [] then None
    else
      var e := recs[0].elevation;
      match ElevationRange(recs[1..])
      case None => Some((e, e))
      case Some((lo, hi)) =>
        assert forall rec :: rec in recs[1..] ==> rec in recs;
        Some((if e < lo then e else lo, if e > hi then e else hi))
  }

  function Filter(recs: seq<Record>, country: string, minElev: int, maxElev: int): (r: seq<Record>)
    ensures |r| <= |recs|
    ensures forall rec :: rec in r ==> rec in recs && Matches(rec, country, minElev, maxElev)
    ensures forall rec :: rec in recs && Matches(rec, country, minElev, maxElev) ==> rec in r
  {
    if recs == [] then []
    else if Matches(recs[0], country, minElev, maxElev) then [recs[0]] + Filter(recs[1..], country, minElev, maxElev)
    else Filter(recs[1..], country, minElev, maxElev)
  }

  /** Every matching record appears exactly as often as in the table; no other record appears. */
  lemma {:induction false} FilterCount(recs: seq<Record>, country: string, minElev: int, maxElev: int, rec: Record)
    ensures multiset(Filter(recs, country, minElev, maxElev))[rec]
         == if Matches(rec, country, minElev, maxElev) then multiset(recs)[rec] else 0
  {
    if recs != [] {
      FilterCount(recs[1..], country, minElev, maxElev, rec);
      assert recs == [recs[0]] + recs[1..];
    }
  }

  /** The mask selection keeps table order. */
  lemma {:induction false} FilterKeepsOrder(recs: seq<Record>, country: string, minElev: int, maxElev: int)
    ensures IsSubsequence(Filter(recs, country, minElev, maxElev), recs)
  {
    if recs != [] {
      FilterKeepsOrder(recs[1..], country, minElev, maxElev);
      var r := Filter(recs, country, minElev, maxElev);
      if Matches(recs[0], country, minElev, maxElev) {
        assert r[1..] == Filter(recs[1..], country, minElev, maxElev);
      }
    }
  }

  /** The filter works record by record. */
  lemma {:induction false} FilterAppend(a: seq<Record>, b: seq<Record>, country: string, minElev: int, maxElev: int)
    ensures Filter(a + b, country, minElev, maxElev)
         == Filter(a, country, minElev, maxElev) + Filter(b, country, minElev, maxElev)
  {
    if a != [] {
      assert (a + b)[1..] == a[1..] + b;
      FilterAppend(a[1..], b, country, minElev, maxElev);
    } else {
      assert a + b == b;
    }
  }

  /** The positions of the table the mask selects. */
  function MatchingIndices(recs: seq<Record>, country: string, minElev: int, maxElev: int): set<nat> {
    set i: nat | i < |recs| && Matches(recs[i], country, minElev, maxElev)
  }

  /** Appending one record adds its position to the selection exactly when it matches. */
  lemma MatchingIndicesSnoc(front: seq<Record>, last: Record, country: string, minElev: int, maxElev: int)
    ensures MatchingIndices(front + [last], country, minElev, maxElev)
         == MatchingIndices(front, country, minElev, maxElev)
          + (if Matches(last, country, minElev, maxElev) then {|front|} else {})
  {
  }

  /** `len(filtered_df)` is the number of selected positions of the table. */
  lemma {:induction false} FilterLength(recs: seq<Record>, country: string, minElev: int, maxElev: int)
    ensures |Filter(recs, country, minElev, maxElev)| == |MatchingIndices(recs, country, minElev, maxElev)|
    decreases |recs|
  {
    if recs == [] {
      assert MatchingIndices(recs, country, minElev, maxElev) == {};
    } else {
      var n := |recs| - 1;
      var front := recs[..n];
      assert recs == front + [recs[n]];
      FilterAppend(front, [recs[n]], country, minElev, maxElev);
      FilterLength(front, country, minElev, maxElev);
      MatchingIndicesSnoc(front, recs[n], country, minElev, maxElev);
      assert n !in MatchingIndices(front, country, minElev, maxElev);
    }
  }
}
