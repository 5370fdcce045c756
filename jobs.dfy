/**
 * Result rows and the column comparator that handleTableSort hands to
 * Array.prototype.sort (sortByField and the closure it returns).
 */
module Jobs {
  import opened JsValues
  import opened Sorting

  /**
   * What a row holds under one column name. JavaScript's null and undefined
   * are kept apart because the comparator tests for each of them.
   */
  datatype FieldValue = Null | Undefined | Num(n: int) | Str(s: string)

  /** One search result: its identifier and its display fields by column name. */
  datatype Job = Job(id: string, fields: map<string, FieldValue>)

  /** job[name]: a column the row does not carry reads as undefined. */
  function FieldOf(job: Job, name: string): FieldValue
  {
    if name in job.fields then job.fields[name] else Undefined
  }

  /** null, undefined and the empty string count as "no value". */
  predicate IsMissing(v: FieldValue)
  {
    v == Null || v == Undefined || v == Str("")
  }

  /** String(v). */
  function Render(v: FieldValue): string
  {
    match v
    case Null => "null"
    case Undefined => "undefined"
    case Num(n) => IntToString(n)
    case Str(s) => s
  }

  /** 1 for the direction 'asc', -1 for every other direction. */
  function Multiplier(direction: string): (m: int)
    ensures m == 1 || m == -1
    ensures m == 1 <==> direction == "asc"
  {
    if direction == "asc" then 1 else -1
  }

  /**
   * The comparator closure's body. `collate` stands for comparing two texts
   * after lower-casing them with localeCompare.
   */
  function CompareJobs(field: string, direction: string, collate: (string, string) -> int,
                       firstJob: Job, secondJob: Job): (c: int)
    // two rows without a value tie
    ensures IsMissing(FieldOf(firstJob, field)) && IsMissing(FieldOf(secondJob, field)) ==> c == 0
    // a row without a value goes first when ascending and last otherwise
    ensures IsMissing(FieldOf(firstJob, field)) && !IsMissing(FieldOf(secondJob, field)) ==>
              if direction == "asc" then c < 0 else c > 0
    ensures !IsMissing(FieldOf(firstJob, field)) && IsMissing(FieldOf(secondJob, field)) ==>
              if direction == "asc" then c > 0 else c < 0
    // two present numbers compare by their difference
    ensures !IsMissing(FieldOf(firstJob, field)) && !IsMissing(FieldOf(secondJob, field)) &&
            FieldOf(firstJob, field).Num? && FieldOf(secondJob, field).Num? ==>
              c == Multiplier(direction) * (FieldOf(firstJob, field).n - FieldOf(secondJob, field).n)
    // any other two present values compare as text
    ensures !IsMissing(FieldOf(firstJob, field)) && !IsMissing(FieldOf(secondJob, field)) &&
            !(FieldOf(firstJob, field).Num? && FieldOf(secondJob, field).Num?) ==>
              c == Multiplier(direction) * collate(Render(FieldOf(firstJob, field)), Render(FieldOf(secondJob, field)))
  {
    var multiplier := Multiplier(direction);
    var firstValue := FieldOf(firstJob, field);
    var secondValue := FieldOf(secondJob, field);
    if IsMissing(firstValue) then
      if IsMissing(secondValue) then 0 else -multiplier
    else if IsMissing(secondValue) then
      multiplier
    else if firstValue.Num? && secondValue.Num? then
      multiplier * (firstValue.n - secondValue.n)
    else
      multiplier * collate(Render(firstValue), Render(secondValue))
  }

  /** sortByField(field, direction): the comparator handed to the sort. */
  function SortByField(sortByField: string, sortByDirection: string, collate: (string, string) -> int): (cmp: (Job, Job) -> int)
    ensures forall a, b :: cmp(a, b) == CompareJobs(sortByField, sortByDirection, collate, a, b)
  {
    (a: Job, b: Job) => CompareJobs(sortByField, sortByDirection, collate, a, b)
  }

  /** The descending comparison is the ascending one negated, whatever the direction's text. */
  lemma DescendingNegatesAscending(field: string, direction: string, collate: (string, string) -> int, a: Job, b: Job)
    requires direction != "asc"
    ensures CompareJobs(field, direction, collate, a, b) == -CompareJobs(field, "asc", collate, a, b)
  {
  }

  /**
   * What localeCompare promises: its sign flips when the arguments swap, and
   * "at most" is transitive.
   */
  ghost predicate IsCollation(collate: (string, string) -> int)
  {
    && (forall x, y :: collate(x, y) < 0 <==> collate(y, x) > 0)
    && (forall x, y, z | collate(x, y) <= 0 && collate(y, z) <= 0 :: collate(x, z) <= 0)
  }

  /** The present values of the column are all numbers or all texts. */
  ghost predicate SingleKindColumn(rows: seq<Job>, field: string)
  {
    || (forall j | j in rows && !IsMissing(FieldOf(j, field)) :: FieldOf(j, field).Num?)
    || (forall j | j in rows && !IsMissing(FieldOf(j, field)) :: FieldOf(j, field).Str?)
  }

  /** Two values the comparator can order consistently. */
  predicate SameKind(v: FieldValue, w: FieldValue)
  {
    IsMissing(v) || IsMissing(w) || (v.Num? && w.Num?) || (v.Str? && w.Str?)
  }

  lemma CompareTotal(field: string, direction: string, collate: (string, string) -> int, a: Job, b: Job)
    requires IsCollation(collate)
    ensures CompareJobs(field, direction, collate, a, b) <= 0 || CompareJobs(field, direction, collate, b, a) <= 0
  {
    var va, vb := FieldOf(a, field), FieldOf(b, field);
    if !IsMissing(va) && !IsMissing(vb) && !(va.Num? && vb.Num?) {
      var x, y := Render(va), Render(vb);
      assert collate(x, y) < 0 <==> collate(y, x) > 0;
      assert collate(y, x) < 0 <==> collate(x, y) > 0;
    }
  }

  lemma CompareTransitive(field: string, direction: string, collate: (string, string) -> int, a: Job, b: Job, c: Job)
    requires IsCollation(collate)
    requires SameKind(FieldOf(a, field), FieldOf(b, field))
    requires SameKind(FieldOf(b, field), FieldOf(c, field))
    requires SameKind(FieldOf(a, field), FieldOf(c, field))
    requires CompareJobs(field, direction, collate, a, b) <= 0
    requires CompareJobs(field, direction, collate, b, c) <= 0
    ensures CompareJobs(field, direction, collate, a, c) <= 0
  {
    var va, vb, vc := FieldOf(a, field), FieldOf(b, field), FieldOf(c, field);
    if !IsMissing(va) && !IsMissing(vb) && !IsMissing(vc) && va.Str? {
      var x, y, z := Render(va), Render(vb), Render(vc);
      if direction == "asc" {
        assert collate(x, y) <= 0 && collate(y, z) <= 0;
      } else {
        assert collate(x, y) >= 0 && collate(y, z) >= 0;
        assert collate(y, x) <= 0 by { assert collate(x, y) < 0 <==> collate(y, x) > 0; assert collate(y, x) < 0 <==> collate(x, y) > 0; }
        assert collate(z, y) <= 0 by { assert collate(y, z) < 0 <==> collate(z, y) > 0; assert collate(z, y) < 0 <==> collate(y, z) > 0; }
        assert collate(z, x) <= 0;
        assert collate(z, x) < 0 <==> collate(x, z) > 0;
        assert collate(x, z) < 0 <==> collate(z, x) > 0;
      }
    }
  }

  /**
   * On a column whose present values are all numbers or all texts, and with
   * a consistent collation, the comparator is a total preorder: sorting by
   * it orders the page.
   */
  lemma ComparatorOrdersSingleKindColumn(field: string, direction: string, collate: (string, string) -> int, rows: seq<Job>)
    requires IsCollation(collate)
    requires SingleKindColumn(rows, field)
    ensures TotalPreorderOn(SortByField(field, direction, collate), rows)
  {
    var cmp := SortByField(field, direction, collate);
    forall a, b | a in rows && b in rows ensures cmp(a, b) <= 0 || cmp(b, a) <= 0 {
      CompareTotal(field, direction, collate, a, b);
    }
    forall a, b, c | a in rows && b in rows && c in rows && cmp(a, b) <= 0 && cmp(b, c) <= 0
      ensures cmp(a, c) <= 0
    {
      CompareTransitive(field, direction, collate, a, b, c);
    }
  }

  /** Whenever the comparator can order the page, sorting by it does. */
  lemma SortRowsOrders(rows: seq<Job>, field: string, direction: string, collate: (string, string) -> int)
    requires IsCollation(collate)
    requires SingleKindColumn(rows, field)
    ensures Sorted(SortBy(rows, SortByField(field, direction, collate)), SortByField(field, direction, collate))
  {
    ComparatorOrdersSingleKindColumn(field, direction, collate, rows);
    SortByOrders(rows, SortByField(field, direction, collate));
  }

  lemma SortRowsOrdersWhenOrderable(rows: seq<Job>, field: string, direction: string, collate: (string, string) -> int)
    ensures IsCollation(collate) && SingleKindColumn(rows, field) ==>
              Sorted(SortBy(rows, SortByField(field, direction, collate)), SortByField(field, direction, collate))
  {
    if IsCollation(collate) && SingleKindColumn(rows, field) {
      SortRowsOrders(rows, field, direction, collate);
    }
  }

  /**
   * [...rows].sort(sortByField(field, direction)): a new sequence holding
   * exactly the rows given, in comparator order whenever the comparator can
   * order them.
   */
  function SortRows(rows: seq<Job>, field: string, direction: string, collate: (string, string) -> int): (sorted: seq<Job>)
    ensures multiset(sorted) == multiset(rows)
    ensures IsCollation(collate) && SingleKindColumn(rows, field) ==> Sorted(sorted, SortByField(field, direction, collate))
  {
    SortRowsOrdersWhenOrderable(rows, field, direction, collate);
    SortBy(rows, SortByField(field, direction, collate))
  }
}
