/**
 * The selection tracker's pieces: the per-page slices, the test behind the
 * save button, the filter in the selection handler, and the order in which
 * handleJobSave's for...in loop visits the pages.
 */
module Selections {
  import opened Jobs
  import opened Sorting

  /**
   * Object.values(m).some(selectedJobs => selectedJobs.length > 0), read
   * through the keys: some page has a non-empty slice.
   */
  predicate HasAnySelection(m: map<int, seq<Job>>)
  {
    exists page | page in m :: |m[page]| > 0
  }

  /** Object.values(m), listing the slices in the page order given. */
  function Values(m: map<int, seq<Job>>, order: seq<int>): (slices: seq<seq<Job>>)
    ensures |slices| == |order|
    ensures forall i | 0 <= i < |order| :: slices[i] == SliceOf(m, order[i])
  {
    seq(|order|, i requires 0 <= i < |order| => SliceOf(m, order[i]))
  }

  /** slices.some(selectedJobs => selectedJobs.length > 0) */
  predicate SomeNonEmpty(slices: seq<seq<Job>>)
  {
    if slices == [] then false else |slices[0]| > 0 || SomeNonEmpty(slices[1..])
  }

  /** The some() over the values finds a non-empty slice exactly when one of the listed pages has one. */
  lemma {:induction false} SomeNonEmptyValues(m: map<int, seq<Job>>, order: seq<int>)
    ensures SomeNonEmpty(Values(m, order)) <==> exists k | k in order :: |SliceOf(m, k)| > 0
  {
    if order != [] {
      SomeNonEmptyValues(m, order[1..]);
      assert Values(m, order)[1..] == Values(m, order[1..]);
      assert forall k | k in order :: k == order[0] || k in order[1..];
    }
  }

  /** Listing every page of m, the some() over its values is HasAnySelection. */
  lemma SomeNonEmptyIsAnySelection(m: map<int, seq<Job>>, order: seq<int>)
    requires forall k :: k in order <==> k in m
    ensures SomeNonEmpty(Values(m, order)) <==> HasAnySelection(m)
  {
    SomeNonEmptyValues(m, order);
    if HasAnySelection(m) {
      var p :| p in m && |m[p]| > 0;
      assert p in order && |SliceOf(m, p)| > 0;
    }
  }

  /** Emptying one page's slice can only take away a selection that page held. */
  lemma ClearingASliceKeepsTheOthers(m: map<int, seq<Job>>, page: int)
    ensures HasAnySelection(m[page := []]) ==> HasAnySelection(m)
  {
    if HasAnySelection(m[page := []]) {
      var p :| p in m[page := []] && |m[page := []][p]| > 0;
      assert p != page && p in m && m[p] == m[page := []][p];
    }
  }

  /** m[page] || [] */
  function SliceOf(m: map<int, seq<Job>>, page: int): seq<Job>
  {
    if page in m then m[page] else []
  }

  /** rows.map(row => row.id) */
  function Ids(rows: seq<Job>): (ids: seq<string>)
    ensures |ids| == |rows|
    ensures forall i | 0 <= i < |rows| :: ids[i] == rows[i].id
  {
    seq(|rows|, i requires 0 <= i < |rows| => rows[i].id)
  }

  /** The two kinds of value that meet in the selection handler's Set: identifier strings and row objects. */
  datatype JsValue = JsString(s: string) | JsObject(row: Job)

  /** new Set(selectedRows.map(row => String(row.id))): a set of strings only. */
  function IdSet(rows: seq<Job>): (ids: set<JsValue>)
    ensures forall v | v in ids :: v.JsString?
    ensures forall r | r in rows :: JsString(r.id) in ids
  {
    set r | r in rows :: JsString(r.id)
  }

  /**
   * rows.filter(id => !ids.has(id)). The callback is handed each row object,
   * and a Set of strings never has an object (SameValueZero tells a string
   * from an object), so against IdSet the filter keeps every row.
   */
  function KeepNotYetSelected(rows: seq<Job>, ids: set<JsValue>): (kept: seq<Job>)
    ensures forall r | r in kept :: r in rows && JsObject(r) !in ids
    ensures (forall v | v in ids :: v.JsString?) ==> kept == rows
  {
    if rows == [] then []
    else (if JsObject(rows[0]) in ids then [] else [rows[0]]) + KeepNotYetSelected(rows[1..], ids)
  }

  /** 2^32 - 1: integer keys below it are array indices, which for...in visits first and in ascending order. */
  const ArrayIndexLimit: int := 4294967295

  predicate IsArrayIndex(k: int)
  {
    0 <= k < ArrayIndexLimit
  }

  ghost predicate Distinct(s: seq<int>)
  {
    forall i, j | 0 <= i < j < |s| :: s[i] != s[j]
  }

  /** The recorded insertion order lists each page of m exactly once. */
  ghost predicate KeysRecorded(order: seq<int>, m: map<int, seq<Job>>)
  {
    Distinct(order) && forall k :: k in order <==> k in m
  }

  /** The insertion order after m[page] is assigned: a page seen for the first time goes last. */
  function AppendKey(order: seq<int>, m: map<int, seq<Job>>, page: int): (r: seq<int>)
    ensures order <= r
    ensures page in m ==> r == order
    ensures page !in m ==> r == order + [page]
  {
    if page in m then order else order + [page]
  }

  /** Assigning any slice keeps the recorded order exact. */
  lemma AppendKeyRecords(order: seq<int>, m: map<int, seq<Job>>, page: int, slice: seq<Job>)
    requires KeysRecorded(order, m)
    ensures KeysRecorded(AppendKey(order, m, page), m[page := slice])
  {
    var r := AppendKey(order, m, page);
    if page !in m {
      assert page !in order;
      forall i, j | 0 <= i < j < |r| ensures r[i] != r[j] {
        if j == |r| - 1 {
          assert r[i] == order[i];
        }
      }
    }
  }

  /** The keys that are array indices, in the order given. */
  function IndexKeys(keys: seq<int>): (r: seq<int>)
    ensures forall k | k in r :: IsArrayIndex(k)
  {
    if keys == [] then []
    else (if IsArrayIndex(keys[0]) then [keys[0]] else []) + IndexKeys(keys[1..])
  }

  /** The keys that are not array indices (negative or too large), in the order given. */
  function OtherKeys(keys: seq<int>): (r: seq<int>)
    ensures forall k | k in r :: !IsArrayIndex(k)
  {
    if keys == [] then []
    else (if IsArrayIndex(keys[0]) then [] else [keys[0]]) + OtherKeys(keys[1..])
  }

  lemma {:induction false} PartitionKeys(keys: seq<int>)
    ensures multiset(IndexKeys(keys)) + multiset(OtherKeys(keys)) == multiset(keys)
  {
    if keys != [] {
      PartitionKeys(keys[1..]);
      assert keys == [keys[0]] + keys[1..];
    }
  }

  lemma {:induction false} AllIndexKeys(keys: seq<int>)
    requires forall k | k in keys :: IsArrayIndex(k)
    ensures IndexKeys(keys) == keys && OtherKeys(keys) == []
  {
    if keys != [] {
      AllIndexKeys(keys[1..]);
    }
  }

  /**
   * The order in which for...in visits an object's integer keys, given the
   * order in which they were added: array indices ascending, then the other
   * keys in the order they were added.
   */
  function ForInOrder(insertionOrder: seq<int>): (order: seq<int>)
  {
    SortBy(IndexKeys(insertionOrder), IntDifference) + OtherKeys(insertionOrder)
  }

  /** The loop visits every key exactly once, the array indices first and ascending. */
  lemma ForInOrderVisitsEachKey(insertionOrder: seq<int>)
    ensures multiset(ForInOrder(insertionOrder)) == multiset(insertionOrder)
    ensures forall i, j | 0 <= i < j < |ForInOrder(insertionOrder)| && IsArrayIndex(ForInOrder(insertionOrder)[j]) ::
              IsArrayIndex(ForInOrder(insertionOrder)[i]) && ForInOrder(insertionOrder)[i] <= ForInOrder(insertionOrder)[j]
    ensures ForInOrder(insertionOrder)[|ForInOrder(insertionOrder)| - |OtherKeys(insertionOrder)|..] == OtherKeys(insertionOrder)
  {
    var ascending := SortBy(IndexKeys(insertionOrder), IntDifference);
    var order := ForInOrder(insertionOrder);
    PartitionKeys(insertionOrder);
    SortIntsAscending(IndexKeys(insertionOrder));
    forall i, j | 0 <= i < j < |order| && IsArrayIndex(order[j]) ensures IsArrayIndex(order[i]) && order[i] <= order[j] {
      if j < |ascending| {
        assert order[i] == ascending[i] && order[j] == ascending[j];
        assert ascending[i] in multiset(IndexKeys(insertionOrder));
      }
    }
  }

  /** When every key is an array index, for...in visits the pages in ascending page number. */
  lemma ForInOrderAscending(insertionOrder: seq<int>)
    requires forall k | k in insertionOrder :: IsArrayIndex(k)
    ensures multiset(ForInOrder(insertionOrder)) == multiset(insertionOrder)
    ensures forall i, j | 0 <= i < j < |ForInOrder(insertionOrder)| :: ForInOrder(insertionOrder)[i] <= ForInOrder(insertionOrder)[j]
  {
    AllIndexKeys(insertionOrder);
    SortIntsAscending(insertionOrder);
  }

  /** With the keys recorded, the some() over Object.values in for...in order is HasAnySelection. */
  lemma SomeValueInForInOrder(order: seq<int>, m: map<int, seq<Job>>)
    ensures KeysRecorded(order, m) ==> (SomeNonEmpty(Values(m, ForInOrder(order))) <==> HasAnySelection(m))
  {
    if KeysRecorded(order, m) {
      ForInOrderVisitsEachKey(order);
      assert forall k :: k in ForInOrder(order) <==> k in multiset(order);
      SomeNonEmptyIsAnySelection(m, ForInOrder(order));
    }
  }

  /**
   * The batch the for...in loop builds: the slices of m in the page order
   * given, each kept in its own order (a page m does not have adds nothing,
   * as hasOwnProperty skips it).
   */
  function Flatten(m: map<int, seq<Job>>, order: seq<int>): (batch: seq<Job>)
  {
    if order == [] then []
    else Flatten(m, order[..|order| - 1]) + SliceOf(m, order[|order| - 1])
  }

  /** A job is in the batch exactly when it is in the slice of some key visited. */
  lemma {:induction false} FlattenContains(m: map<int, seq<Job>>, order: seq<int>)
    ensures forall x :: x in Flatten(m, order) <==> exists k | k in order :: x in SliceOf(m, k)
  {
    if order != [] {
      var last := order[|order| - 1];
      FlattenContains(m, order[..|order| - 1]);
      assert forall k | k in order :: k in order[..|order| - 1] || k == last;
    }
  }

  /** Extending the keys visited by one appends that key's slice. */
  lemma FlattenStep(m: map<int, seq<Job>>, order: seq<int>, i: nat)
    requires i < |order|
    ensures Flatten(m, order[..i + 1]) == Flatten(m, order[..i]) + SliceOf(m, order[i])
  {
    assert order[..i + 1][..i] == order[..i];
  }
}
