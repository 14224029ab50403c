/** The row length filter applied before embedding (embeddings/get_embs.py). */
module GetEmbs {
  import opened Rows

  /** Both text columns must be strictly shorter than this many characters. */
  const MaxChars: int := 10000

  /** The row holds text in both columns the filter reads. */
  predicate TextRow(row: Fields)
  {
    HasText(row, CodeKey) && HasText(row, DocKey)
  }

  /** The filter's lambda.  Python's `and` stops at a long code string, so
      the documentation column is only read when the code is short. */
  predicate ShortEnough(row: Fields): (b: bool)
    requires HasText(row, CodeKey)
    requires |row[CodeKey].s| < MaxChars ==> HasText(row, DocKey)
    ensures |row[CodeKey].s| >= MaxChars ==> !b
    ensures |row[CodeKey].s| < MaxChars ==> (b <==> |row[DocKey].s| < MaxChars)
  {
    |row[CodeKey].s| < MaxChars && |row[DocKey].s| < MaxChars
  }

  /** The lambda runs without raising: the code is text, and so is the
      documentation whenever the code is short enough for `and` to read it. */
  predicate Measurable(row: Fields)
  {
    HasText(row, CodeKey) && (|row[CodeKey].s| < MaxChars ==> HasText(row, DocKey))
  }

  /** The lambda, as a total test on rows it can measure. */
  predicate KeepRow(row: Fields)
  {
    Measurable(row) && ShortEnough(row)
  }

  /** `dataset.filter` with that lambda, on rows it can measure. */
  function FilterByLength(rows: seq<Fields>): (kept: seq<Fields>)
    requires forall i :: 0 <= i < |rows| ==> Measurable(rows[i])
    ensures kept == Filter(rows, KeepRow)
    ensures forall row :: multiset(kept)[row] == (if KeepRow(row) then multiset(rows)[row] else 0)
    ensures |kept| <= |rows|
    ensures forall j :: 0 <= j < |kept| ==>
      kept[j] in rows && TextRow(kept[j]) &&
      |kept[j][CodeKey].s| < MaxChars && |kept[j][DocKey].s| < MaxChars
    ensures forall i :: 0 <= i < |rows| && TextRow(rows[i]) && |rows[i][CodeKey].s| < MaxChars && |rows[i][DocKey].s| < MaxChars ==>
      rows[i] in kept
    ensures forall i :: 0 <= i < |rows| && Measurable(rows[i]) && |rows[i][CodeKey].s| >= MaxChars ==>
      rows[i] !in kept
  {
    var kept := Filter(rows, KeepRow);
    FilterCounts(rows, KeepRow);
    assert forall j :: 0 <= j < |kept| ==> kept[j] in kept;
    kept
  }

  /** The filter keeps the surviving rows in their input order: on two
      batches of rows it gives the survivors of the first batch followed by
      those of the second. */
  lemma FilterByLengthAppend(a: seq<Fields>, b: seq<Fields>)
    requires forall i :: 0 <= i < |a| ==> Measurable(a[i])
    requires forall i :: 0 <= i < |b| ==> Measurable(b[i])
    ensures forall i :: 0 <= i < |a + b| ==> Measurable((a + b)[i])
    ensures FilterByLength(a + b) == FilterByLength(a) + FilterByLength(b)
  {
    FilterAppend(a, b, KeepRow);
  }

  /** The bound is strict: a column of exactly 10000 characters drops the row. */
  lemma BoundaryRowDropped(rows: seq<Fields>, i: nat)
    requires forall k :: 0 <= k < |rows| ==> Measurable(rows[k])
    requires i < |rows| && Measurable(rows[i])
    requires |rows[i][CodeKey].s| == MaxChars ||
             (HasText(rows[i], DocKey) && |rows[i][DocKey].s| == MaxChars)
    ensures rows[i] !in FilterByLength(rows)
  {
  }

  /** A row whose code is too long is dropped before its documentation is
      read, so a None documentation beside it raises nothing. */
  lemma LongCodeNullDocDropped()
    ensures var row := map[CodeKey := Text(seq(MaxChars, _ => 'x')), DocKey := Null];
            Measurable(row) && FilterByLength([row]) == []
  {
    var row := map[CodeKey := Text(seq(MaxChars, _ => 'x')), DocKey := Null];
    assert !KeepRow(row);
  }
}
