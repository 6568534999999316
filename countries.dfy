/**
  The country selector's choices: the distinct countries of the cleaned table,
  in ascending order. Python orders strings lexicographically by code point,
  a proper prefix before any of its extensions.
*/
module Countries {
  import opened Records

  predicate StrLess(a: string, b: string)
    ensures StrLess(a, b) ==> a != b
  {
    if a == [] then b != []
    else if b == [] then false
    else a[0] < b[0] || (a[0] == b[0] && StrLess(a[1..], b[1..]))
  }

  lemma {:induction false} StrLessTransitive(a: string, b: string, c: string)
    requires StrLess(a, b) && StrLess(b, c)
    ensures StrLess(a, c)
  {
    if a != [] && b != [] && c != [] && a[0] == b[0] && b[0] == c[0] {
      StrLessTransitive(a[1..], b[1..], c[1..]);
    }
  }

  lemma {:induction false} StrLessTotal(a: string, b: string)
    ensures a == b || StrLess(a, b) || StrLess(b, a)
  {
    if a != [] && b != [] && a[0] == b[0] {
      StrLessTotal(a[1..], b[1..]);
      if a[1..] == b[1..] {
        assert a == [a[0]] + a[1..] && b == [b[0]] + b[1..];
      }
    }
  }

  /** Ascending with no repeats. */
  predicate StrictlySorted(s: seq<string>) {
    forall i, j :: 0 <= i < j < |s| ==> StrLess(s[i], s[j])
  }

  /** The countries that occur in the table. */
  function CountriesOf(recs: seq<Record>): set<string> {
    set rec | rec in recs :: rec.country
  }

  /** Adds `c` to an ascending list of distinct countries. */
  function Insert(s: seq<string>, c: string): (r: seq<string>)
    requires StrictlySorted(s)
    ensures StrictlySorted(r)
    ensures forall x :: x in r <==> x in s || x == c
  {
    if s == [] then [c]
    else if c == s[0] then s
    else if StrLess(c, s[0]) then
      assert forall j :: 0 < j < |s| ==> StrLess(c, s[j]) by {
        forall j | 0 < j < |s| { StrLessTransitive(c, s[0], s[j]); }
      }
      [c] + s
    else
      var rest := Insert(s[1..], c);
      assert forall x :: x in rest ==> StrLess(s[0], x) by {
        StrLessTotal(c, s[0]);
      }
      [s[0]] + rest
  }

  /** `sorted(df['Country'].unique())`. */
  function CountryChoices(recs: seq<Record>): (r: seq<string>)
    ensures StrictlySorted(r)
    ensures forall c :: c in r <==> c in CountriesOf(recs)
  {
    if recs == [] then []
    else
      var rest := CountryChoices(recs[1..]);
      assert CountriesOf(recs) == CountriesOf(recs[1..]) + {recs[0].country} by {
        assert recs == [recs[0]] + recs[1..];
      }
      Insert(rest, recs[0].country)
  }

  /** An ascending list has no duplicates: each country is offered once. */
  lemma StrictlySortedDistinct(s: seq<string>, i: int, j: int)
    requires StrictlySorted(s)
    requires 0 <= i < |s| && 0 <= j < |s| && i != j
    ensures s[i] != s[j]
  {
  }

  /** The selector offers one entry per distinct country. */
  lemma ChoicesCardinality(recs: seq<Record>)
    ensures |CountryChoices(recs)| == |CountriesOf(recs)|
  {
    var r := CountryChoices(recs);
    DistinctCardinality(r);
    assert (set c | c in r) == CountriesOf(recs);
  }

  lemma {:induction false} DistinctCardinality(s: seq<string>)
    requires StrictlySorted(s)
    ensures |set c | c in s| == |s|
  {
    if s != [] {
      DistinctCardinality(s[1..]);
      forall j | 0 < j < |s| ensures s[j] != s[0] { StrictlySortedDistinct(s, 0, j); }
      assert (set c | c in s) == (set c | c in s[1..]) + {s[0]};
    }
  }
}
