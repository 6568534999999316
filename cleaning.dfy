/**
  The cleaning step of the loader: every row that lacks Latitude, Longitude,
  Country or Elevation (Meters) is dropped, and the surviving rows keep their
  file order.
*/
module Cleaning {
  import opened Records
  import opened Sequences

  function Clean(rows: seq<RawRow>): (recs: seq<Record>)
    ensures |recs| <= |rows|
    ensures forall rec :: rec in recs ==> AsRow(rec) in rows
    ensures forall row :: row in rows && Complete(row) ==> ToRecord(row) in recs
  {
    if rows == [] then []
    else if Complete(rows[0]) then [ToRecord(rows[0])] + Clean(rows[1..])
    else Clean(rows[1..])
  }

  /** Each complete row survives as often as it occurs; an incomplete row never does. */
  lemma {:induction false} CleanCount(rows: seq<RawRow>, row: RawRow)
    ensures multiset(AsRows(Clean(rows)))[row] == if Complete(row) then multiset(rows)[row] else 0
  {
    if rows != [] {
      var head, tail := rows[0], AsRows(Clean(rows[1..]));
      CleanCount(rows[1..], row);
      assert rows == [head] + rows[1..];
      assert multiset(rows) == multiset{head} + multiset(rows[1..]);
      if Complete(head) {
        AsRowToRecord(head);
        AsRowsCons(ToRecord(head), Clean(rows[1..]));
        assert AsRows(Clean(rows)) == [head] + tail;
      } else {
        assert AsRows(Clean(rows)) == tail;
        assert Complete(row) ==> row != head;
      }
    }
  }

  /** The cleaned table, read back as raw rows, is the input with some rows deleted. */
  lemma {:induction false} CleanKeepsOrder(rows: seq<RawRow>)
    ensures IsSubsequence(AsRows(Clean(rows)), rows)
  {
    if rows != [] {
      CleanKeepsOrder(rows[1..]);
      var tail := AsRows(Clean(rows[1..]));
      if Complete(rows[0]) {
        AsRowToRecord(rows[0]);
        AsRowsCons(ToRecord(rows[0]), Clean(rows[1..]));
        assert AsRows(Clean(rows)) == [rows[0]] + tail;
        assert AsRows(Clean(rows))[1..] == tail;
      }
    }
  }

  /** Cleaning works row by row: cleaning a concatenation cleans each part. */
  lemma {:induction false} CleanAppend(a: seq<RawRow>, b: seq<RawRow>)
    ensures Clean(a + b) == Clean(a) + Clean(b)
  {
    if a != [] {
      assert (a + b)[1..] == a[1..] + b;
      CleanAppend(a[1..], b);
    } else {
      assert a + b == b;
    }
  }
}
