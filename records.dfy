/**
 * Saved quiz results as the admin dashboard holds them, the payload that a
 * finished pass hands to the record store, and the dashboard's removal of a
 * deleted record from its in-memory list.
 */
module Records {
  import opened Optional

  /**
   * A stored result. Records read back from the device's fallback list were
   * saved without an id, so the id is optional.
   */
  datatype SavedRecord = SavedRecord(
    id: Option<string>,
    timestamp: string,
    score: int,
    totalQuestions: int,
    rankTitle: string)

  /** What `saveToCloud` submits: a record before the store assigns an id. */
  datatype RecordPayload = RecordPayload(
    timestamp: string,
    score: int,
    totalQuestions: int,
    rankTitle: string)

  /** `a` is `b` with some elements dropped, the others kept in order. */
  predicate IsSubsequence<T(==)>(a: seq<T>, b: seq<T>)
    decreases |b|
  {
    if a == [] then true
    else if b == [] then false
    else (a[0] == b[0] && IsSubsequence(a[1..], b[1..])) || IsSubsequence(a, b[1..])
  }

  /**
   * `records.filter(r => r.id !== id)`: every record whose id differs from
   * `id` keeps all its occurrences, every record with that id is gone.
   */
  function Without(records: seq<SavedRecord>, id: Option<string>): (r: seq<SavedRecord>)
    ensures forall x :: multiset(r)[x] == if x.id != id then multiset(records)[x] else 0
    ensures forall x :: x in r <==> x in records && x.id != id
  {
    if records == [] then []
    else
      var rest := Without(records[1..], id);
      assert records == [records[0]] + records[1..];
      if records[0].id != id then [records[0]] + rest else rest
  }

  /** The filter keeps the dashboard's order. */
  lemma {:induction false} WithoutKeepsOrder(records: seq<SavedRecord>, id: Option<string>)
    ensures IsSubsequence(Without(records, id), records)
  {
    if records != [] {
      WithoutKeepsOrder(records[1..], id);
      var rest := Without(records[1..], id);
      if records[0].id != id {
        var r := [records[0]] + rest;
        assert r[0] == records[0] && r[1..] == rest;
      } else if rest != [] {
        assert IsSubsequence(rest, records[1..]);
      }
    }
  }

  /** Deleting an id that no record carries leaves the list as it was. */
  lemma {:induction false} WithoutAbsent(records: seq<SavedRecord>, id: Option<string>)
    requires forall k :: 0 <= k < |records| ==> records[k].id != id
    ensures Without(records, id) == records
  {
    if records != [] {
      WithoutAbsent(records[1..], id);
      assert [records[0]] + records[1..] == records;
    }
  }

  /** A second delete of the same id changes nothing. */
  lemma WithoutIdempotent(records: seq<SavedRecord>, id: Option<string>)
    ensures Without(Without(records, id), id) == Without(records, id)
  {
    var r := Without(records, id);
    forall k | 0 <= k < |r| ensures r[k].id != id {
      assert r[k] in r;
    }
    WithoutAbsent(r, id);
  }
}
