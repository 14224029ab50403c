/** Row truncation before embedding (embeddings/embed.py). */
module Embed {
  import opened Rows

  /** The default `max_len` of `truncate`. */
  const DefaultMaxLen: int := 8192

  /** Python's `s[:n]`: the first n characters, or, for negative n, all but
      the last -n characters. */
  function SlicePrefix(s: string, n: int): (r: string)
    ensures r <= s
    ensures n >= 0 ==> |r| == if n < |s| then n else |s|
    ensures n < 0 ==> |r| == if |s| + n > 0 then |s| + n else 0
  {
    if n >= 0 then (if n < |s| then s[..n] else s)
    else if |s| + n > 0 then s[..|s| + n]
    else ""
  }

  /** The row's fields after `truncate`: both text columns cut to their
      first `maxLen` characters, every other column as it was. */
  function TruncatedFields(f: Fields, maxLen: int): (g: Fields)
    requires HasText(f, CodeKey) && HasText(f, DocKey)
    ensures g.Keys == f.Keys
    ensures HasText(g, CodeKey) && HasText(g, DocKey)
    ensures g[CodeKey].s <= f[CodeKey].s && g[DocKey].s <= f[DocKey].s
    ensures maxLen >= 0 ==> |g[CodeKey].s| <= maxLen && |g[DocKey].s| <= maxLen
    ensures maxLen >= 0 ==>
      |g[CodeKey].s| == (if |f[CodeKey].s| < maxLen then |f[CodeKey].s| else maxLen) &&
      |g[DocKey].s| == (if |f[DocKey].s| < maxLen then |f[DocKey].s| else maxLen)
    ensures maxLen < 0 ==>
      |g[CodeKey].s| == (if |f[CodeKey].s| + maxLen > 0 then |f[CodeKey].s| + maxLen else 0) &&
      |g[DocKey].s| == (if |f[DocKey].s| + maxLen > 0 then |f[DocKey].s| + maxLen else 0)
    ensures 0 <= |f[CodeKey].s| <= maxLen ==> g[CodeKey] == f[CodeKey]
    ensures 0 <= |f[DocKey].s| <= maxLen ==> g[DocKey] == f[DocKey]
    ensures forall k :: k in f && k != CodeKey && k != DocKey ==> g[k] == f[k]
  {
    f[CodeKey := Text(SlicePrefix(f[CodeKey].s, maxLen))]
     [DocKey := Text(SlicePrefix(f[DocKey].s, maxLen))]
  }

  /** A dataset row: a dictionary that `truncate` updates in place. */
  class Row {
    var fields: Fields

    constructor (fields: Fields)
      ensures this.fields == fields
    {
      this.fields := fields;
    }
  }

  /** `truncate`: overwrite the two text columns of `row` with their
      prefixes of at most `maxLen` characters and hand back the same row. */
  method Truncate(row: Row, maxLen: int := DefaultMaxLen) returns (r: Row)
    requires HasText(row.fields, CodeKey) && HasText(row.fields, DocKey)
    modifies row
    ensures r == row
    ensures row.fields == TruncatedFields(old(row.fields), maxLen)
  {
    row.fields := row.fields[CodeKey := Text(SlicePrefix(row.fields[CodeKey].s, maxLen))];
    row.fields := row.fields[DocKey := Text(SlicePrefix(row.fields[DocKey].s, maxLen))];
    r := row;
  }

  /** Cutting a string to a non-negative length twice is cutting it once. */
  lemma SlicePrefixIdempotent(s: string, n: int)
    requires n >= 0
    ensures SlicePrefix(SlicePrefix(s, n), n) == SlicePrefix(s, n)
  {
  }

  /** `truncate` is idempotent for every non-negative `max_len`. */
  lemma TruncateIdempotent(f: Fields, maxLen: int)
    requires HasText(f, CodeKey) && HasText(f, DocKey) && maxLen >= 0
    ensures TruncatedFields(TruncatedFields(f, maxLen), maxLen) == TruncatedFields(f, maxLen)
  {
  }

  /** With a negative `max_len`, Python's slice drops characters from the
      end on every call, so a second `truncate` changes the row again. */
  lemma NegativeMaxLenNotIdempotent()
    ensures var f := map[CodeKey := Text("ab"), DocKey := Text("")];
            TruncatedFields(TruncatedFields(f, -1), -1) != TruncatedFields(f, -1)
  {
  }
}
