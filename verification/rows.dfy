/** Dataset rows as the embedding and cleaning scripts see them: a dictionary
    from column name to value, with two text columns that every script reads. */
module Rows {

  /** A column value: a string, a null (Python's None), or any other value
      the dataset may hold (a token list, a float NaN), which the scripts
      never look inside. */
  datatype Value = Text(s: string) | Null | Opaque(id: int)

  /** One dataset row, keyed by column name. */
  type Fields = map<string, Value>

  const CodeKey: string := "func_code_string"
  const DocKey: string := "func_documentation_string"

  /** The row has column `key` and it holds a string. */
  predicate HasText(row: Fields, key: string)
  {
    key in row && row[key].Text?
  }

  /** The rows of `s` for which `keep` holds, in their original order. */
  function Filter<T(!new)>(s: seq<T>, keep: T -> bool): (r: seq<T>)
    ensures |r| <= |s|
    ensures forall x :: x in r <==> x in s && keep(x)
  {
    if s == [] then []
    else (if keep(s[0]) then [s[0]] else []) + Filter(s[1..], keep)
  }

  /** Filtering keeps every copy of each surviving row and no copy of the
      others. */
  lemma {:induction false} FilterCounts<T(!new)>(s: seq<T>, keep: T -> bool)
    ensures forall x :: multiset(Filter(s, keep))[x] == if keep(x) then multiset(s)[x] else 0
  {
    if s != [] {
      FilterCounts(s[1..], keep);
      assert s == [s[0]] + s[1..];
    }
  }

  /** Filtering commutes with concatenation, so the survivors keep their
      relative order. */
  lemma {:induction false} FilterAppend<T(!new)>(a: seq<T>, b: seq<T>, keep: T -> bool)
    ensures Filter(a + b, keep) == Filter(a, keep) + Filter(b, keep)
  {
    if a == [] {
      assert a + b == b;
    } else {
      assert (a + b)[0] == a[0];
      assert (a + b)[1..] == a[1..] + b;
      FilterAppend(a[1..], b, keep);
      var head := if keep(a[0]) then [a[0]] else [];
      calc {
        Filter(a + b, keep);
        head + Filter(a[1..] + b, keep);
        head + (Filter(a[1..], keep) + Filter(b, keep));
        (head + Filter(a[1..], keep)) + Filter(b, keep);
      }
    }
  }
}
