/**
  The "Top 5 Tallest Volcanoes" view: the filtered records sorted by
  elevation, highest first, cut after five. The sort used by the source is
  not stable, so nothing is promised about the order of equal elevations.
*/
module Ranking {
  import opened Records

  const TopCount: nat := 5

  /** Elevations never increase along `s`. */
  predicate Descending(s: seq<Record>) {
    forall i, j :: 0 <= i < j < |s| ==> s[i].elevation >= s[j].elevation
  }

  /**
    What the source promises of the top view of `filtered`: at most five of its
    records, highest first, and no record left out is higher than one kept.
  */
  ghost predicate IsTop(filtered: seq<Record>, top: seq<Record>) {
    && |top| == (if |filtered| < TopCount then |filtered| else TopCount)
    && Descending(top)
    && multiset(top) <= multiset(filtered)
    && forall rec, t :: multiset(top)[rec] < multiset(filtered)[rec] && t in top ==> rec.elevation <= t.elevation
  }

  /** A record no lower than any of a descending sequence can head it. */
  lemma ConsDescending(h: Record, t: seq<Record>)
    requires Descending(t)
    requires forall x :: x in t ==> x.elevation <= h.elevation
    ensures Descending([h] + t)
  {
    var r := [h] + t;
    forall i, j | 0 <= i < j < |r| ensures r[i].elevation >= r[j].elevation {
      assert r[j] == t[j - 1];
      if i > 0 { assert r[i] == t[i - 1]; }
    }
  }

  function InsertDescending(rec: Record, s: seq<Record>): (r: seq<Record>)
    requires Descending(s)
    ensures Descending(r)
    ensures multiset(r) == multiset(s) + multiset{rec}
    ensures forall x :: x in r ==> x in s || x == rec
  {
    if s == [] || rec.elevation >= s[0].elevation then
      ConsDescending(rec, s);
      [rec] + s
    else
      var rest := InsertDescending(rec, s[1..]);
      assert s == [s[0]] + s[1..];
      assert forall x :: x in s[1..] ==> x.elevation <= s[0].elevation;
      ConsDescending(s[0], rest);
      [s[0]] + rest
  }

  /** `sort_values("Elevation (Meters)", ascending=False)`, with one particular tie order. */
  function SortDescending(s: seq<Record>): (r: seq<Record>)
    ensures Descending(r)
    ensures multiset(r) == multiset(s)
  {
    if s == [] then []
    else
      assert s == [s[0]] + s[1..];
      InsertDescending(s[0], SortDescending(s[1..]))
  }

  /** Cutting a descending sequence leaves nothing higher behind than what is kept. */
  lemma PrefixOfDescending(sorted: seq<Record>, k: nat)
    requires Descending(sorted) && k <= |sorted|
    ensures Descending(sorted[..k])
    ensures multiset(sorted[..k]) <= multiset(sorted)
    ensures forall rec, t :: multiset(sorted[..k])[rec] < multiset(sorted)[rec] && t in sorted[..k] ==> rec.elevation <= t.elevation
  {
    var top := sorted[..k];
    assert sorted == top + sorted[k..];
    assert multiset(sorted) == multiset(top) + multiset(sorted[k..]);
    forall rec, t | multiset(top)[rec] < multiset(sorted)[rec] && t in top
      ensures rec.elevation <= t.elevation
    {
      assert rec in multiset(sorted[k..]);
      var j :| 0 <= j < |sorted[k..]| && sorted[k..][j] == rec;
      var i :| 0 <= i < k && top[i] == t;
      assert sorted[i] == t && sorted[k + j] == rec;
    }
  }

  /** `.head(5)` of the sorted records. */
  function Top5(filtered: seq<Record>): (top: seq<Record>)
    ensures IsTop(filtered, top)
  {
    var sorted := SortDescending(filtered);
    var k := if |sorted| < TopCount then |sorted| else TopCount;
    PrefixOfDescending(sorted, k);
    sorted[..k]
  }

  /** The records of `s` higher than `e`, in order. */
  ghost function Above(s: seq<Record>, e: int): (r: seq<Record>)
    ensures |r| <= |s|
  {
    if s == [] then []
    else if s[0].elevation > e then [s[0]] + Above(s[1..], e)
    else Above(s[1..], e)
  }

  /** `Above` keeps every occurrence of a higher record and nothing else. */
  lemma {:induction false} AboveCount(s: seq<Record>, e: int, x: Record)
    ensures multiset(Above(s, e))[x] == if x.elevation > e then multiset(s)[x] else 0
  {
    if s != [] {
      AboveCount(s[1..], e, x);
      assert s == [s[0]] + s[1..];
    }
  }

  lemma {:induction false} AboveAppend(a: seq<Record>, b: seq<Record>, e: int)
    ensures Above(a + b, e) == Above(a, e) + Above(b, e)
  {
    if a == [] {
      assert a + b == b;
    } else {
      assert (a + b)[1..] == a[1..] + b;
      AboveAppend(a[1..], b, e);
    }
  }

  lemma {:induction false} AboveAll(s: seq<Record>, e: int)
    requires forall x :: x in s ==> x.elevation > e
    ensures Above(s, e) == s
  {
    if s != [] {
      assert forall x :: x in s[1..] ==> x in s;
      AboveAll(s[1..], e);
      assert Above(s, e) == [s[0]] + Above(s[1..], e);
      assert s == [s[0]] + s[1..];
    }
  }

  lemma {:induction false} AboveNone(s: seq<Record>, e: int)
    requires forall x :: x in s ==> x.elevation <= e
    ensures Above(s, e) == []
  {
    if s != [] {
      assert forall x :: x in s[1..] ==> x in s;
      AboveNone(s[1..], e);
    }
  }

  lemma SubMultisetSize(a: multiset<Record>, b: multiset<Record>)
    requires a <= b
    ensures |a| <= |b|
  {
    assert b == a + (b - a);
  }

  /** The first `i + 1` records of a descending sequence are all higher than a bound below its `i`-th. */
  lemma AboveOfDescendingAtLeast(s: seq<Record>, i: nat, e: int)
    requires Descending(s) && i < |s| && s[i].elevation > e
    ensures |Above(s, e)| >= i + 1
  {
    assert s == s[..i + 1] + s[i + 1..];
    AboveAppend(s[..i + 1], s[i + 1..], e);
    AboveAll(s[..i + 1], e);
  }

  /** Of a descending sequence, at most the first `i` records are higher than its `i`-th. */
  lemma AboveOfDescendingAtMost(s: seq<Record>, i: nat)
    requires Descending(s) && i < |s|
    ensures |Above(s, s[i].elevation)| <= i
  {
    var e := s[i].elevation;
    assert s == s[..i] + s[i..];
    AboveAppend(s[..i], s[i..], e);
    AboveNone(s[i..], e);
  }

  /**
    Position `i` of one top view is never higher than position `i` of another.
    Were `t1[i]` higher than `e := t2[i].elevation`, `t1` would hold at least
    `i + 1` records above `e` and `t2` at most `i`, so some record above `e`
    would be left out of `t2` while `t2[i]`, at `e`, was kept.
  */
  lemma TopNotHigherAt(filtered: seq<Record>, t1: seq<Record>, t2: seq<Record>, i: nat)
    requires IsTop(filtered, t1) && IsTop(filtered, t2) && i < |t1|
    ensures t1[i].elevation <= t2[i].elevation
  {
    assert t2[i] in t2;
    if t1[i].elevation > t2[i].elevation {
      var e := t2[i].elevation;
      var a1, a2 := Above(t1, e), Above(t2, e);
      AboveOfDescendingAtLeast(t1, i, e);
      AboveOfDescendingAtMost(t2, i);
      if multiset(a1) <= multiset(a2) {
        SubMultisetSize(multiset(a1), multiset(a2));
        assert false;
      }
      var r: Record :| multiset(a1)[r] > multiset(a2)[r];
      AboveCount(t1, e, r);
      AboveCount(t2, e, r);
    }
  }

  /**
    The tie order is unobservable in the elevations: any two top views of the
    same records show the same elevations, position by position.
  */
  lemma TopElevationsDetermined(filtered: seq<Record>, t1: seq<Record>, t2: seq<Record>)
    requires IsTop(filtered, t1) && IsTop(filtered, t2)
    ensures |t1| == |t2|
    ensures forall i :: 0 <= i < |t1| ==> t1[i].elevation == t2[i].elevation
  {
    forall i | 0 <= i < |t1| ensures t1[i].elevation == t2[i].elevation {
      TopNotHigherAt(filtered, t1, t2, i);
      TopNotHigherAt(filtered, t2, t1, i);
    }
  }
}
