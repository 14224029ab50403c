/** The comment and docstring stripper used to clean the test set
    (utils/clean_testset.py).  Python's tokenizer is not part of this model:
    the stripper receives the token stream it would produce. */
module CleanTestset {
  import opened Rows

  /** The token categories the stripper tells apart; every other category of
      Python's tokenizer (NAME, OP, NL, NUMBER, DEDENT, ...) is `Other`. */
  datatype TokType = Comment | Str | Indent | Newline | Other

  /** A (line, column) position as the tokenizer reports it. */
  datatype Pos = Pos(line: int, col: nat)

  /** One token: its category, its text, where it starts and where it ends. */
  datatype Token = Token(kind: TokType, text: string, start: Pos, end: Pos)

  /** How the stripper's run on a source text went: the tokens it read,
      or an exception raised anywhere inside it — by the tokenizer part-way
      through, or by the debug print of the result. */
  datatype Tokenized = Tokens(tokens: seq<Token>) | Raised

  /** Python's `" " * n`: n blanks, none when n is not positive. */
  function Spaces(n: int): (s: string)
    ensures |s| == if n > 0 then n else 0
    ensures forall k :: 0 <= k < |s| ==> s[k] == ' '
  {
    seq(if n > 0 then n else 0, _ => ' ')
  }

  // ---------------------------------------------------------------------
  // Reference definition: what each token contributes, computed from the
  // token and its predecessor only, without the scanner's running state.
  // ---------------------------------------------------------------------

  /** The category of the token before token i; before the first token the
      scanner pretends to have seen an INDENT. */
  function PrevType(ts: seq<Token>, i: nat): TokType
    requires i <= |ts|
  {
    if i == 0 then Indent else ts[i - 1].kind
  }

  /** The column alignment of token i is measured from: where the previous
      token ended, or 0 when token i starts on a later line than that (and
      always 0 for the first token). */
  function LastCol(ts: seq<Token>, i: nat): int
    requires i < |ts|
  {
    if i == 0 || ts[i].start.line > ts[i - 1].end.line then 0 else ts[i - 1].end.col
  }

  /** The number of alignment blanks written before token i (when positive). */
  function Pad(ts: seq<Token>, i: nat): int
    requires i < |ts|
  {
    ts[i].start.col - LastCol(ts, i)
  }

  /** Whether a token reaches the output, given the category before it:
      comments never do; a string does only when it follows neither an
      INDENT nor a NEWLINE and does not start in column 0; everything else
      does. */
  predicate Keeps(prev: TokType, t: Token): (b: bool)
    ensures t.kind == Comment ==> !b
    ensures t.kind == Str && (prev == Indent || prev == Newline) ==> !b
    ensures t.kind == Str && t.start.col == 0 ==> !b
    ensures t.kind == Str && prev != Indent && prev != Newline && t.start.col > 0 ==> b
    ensures t.kind != Comment && t.kind != Str ==> b
  {
    match t.kind
    case Comment => false
    case Str => prev != Indent && prev != Newline && t.start.col > 0
    case _ => true
  }

  /** What token i adds to the output: its alignment blanks, then its text
      if it is kept. */
  function Piece(ts: seq<Token>, i: nat): string
    requires i < |ts|
  {
    Spaces(Pad(ts, i)) + (if Keeps(PrevType(ts, i), ts[i]) then ts[i].text else "")
  }

  /** The output after the first n tokens. */
  function StrippedPrefix(ts: seq<Token>, n: nat): string
    requires n <= |ts|
  {
    if n == 0 then "" else StrippedPrefix(ts, n - 1) + Piece(ts, n - 1)
  }

  /** The text the stripper returns for a whole token stream. */
  function Stripped(ts: seq<Token>): string
  {
    StrippedPrefix(ts, |ts|)
  }

  /** Where token i's contribution starts in the output. */
  function Offset(ts: seq<Token>, i: nat): nat
    requires i <= |ts|
  {
    |StrippedPrefix(ts, i)|
  }

  // ---------------------------------------------------------------------
  // The scanner: one pass over the tokens with the running state
  // out, prev_toktype, last_lineno and last_col.
  // ---------------------------------------------------------------------

  /** `_remove_comments_and_docstrings` on the given token stream.  The loop
      invariants state the scanner's state after each token: prev_toktype is
      that token's category, last_col and last_lineno its end position. */
  method StripCommentsAndDocstrings(tokens: seq<Token>) returns (out: string)
    ensures out == Stripped(tokens)
  {
    out := "";
    var prevToktype := Indent;
    var lastLineno := -1;
    var lastCol := 0;
    for i := 0 to |tokens|
      invariant out == StrippedPrefix(tokens, i)
      invariant prevToktype == PrevType(tokens, i)
      invariant i == 0 ==> lastLineno == -1 && lastCol == 0
      invariant i > 0 ==> lastLineno == tokens[i - 1].end.line && lastCol == tokens[i - 1].end.col
    {
      var tok := tokens[i];
      ghost var before := out;
      if tok.start.line > lastLineno {
        lastCol := 0;
      }
      assert lastCol == LastCol(tokens, i);
      if tok.start.col > lastCol {
        out := out + Spaces(tok.start.col - lastCol);
      }
      assert out == before + Spaces(Pad(tokens, i));
      if tok.kind == Comment {
        // comments are dropped
      } else if tok.kind == Str {
        if prevToktype != Indent {
          if prevToktype != Newline {
            if tok.start.col > 0 {
              out := out + tok.text;
            }
          }
        }
      } else {
        out := out + tok.text;
      }
      assert out == before + Piece(tokens, i);
      prevToktype := tok.kind;
      lastCol := tok.end.col;
      lastLineno := tok.end.line;
    }
  }

  /** `remove_comments_and_docstrings`: strip the tokens, or hand the source
      back unchanged when tokenizing it raised. */
  function RemoveCommentsAndDocstrings(source: string, scan: Tokenized): (r: string)
    ensures scan.Raised? ==> r == source
    ensures scan.Tokens? ==> r == Stripped(scan.tokens)
  {
    match scan
    case Raised => source
    case Tokens(ts) => Stripped(ts)
  }

  /** The cleaned value of a code column.  A string is stripped, or kept
      when the stripper raises.  A null reads as an empty stream, so the
      stripper runs on the empty source; when it raises, the wrapper hands
      back its argument, the null itself.  Any other value makes the
      stripper raise before tokenizing, so the wrapper hands it back as it
      is.  `scan` is the stripper's outcome on the text that is read. */
  function CleanCode(v: Value, scan: Tokenized): (r: Value)
    ensures v.Text? ==> r == Text(RemoveCommentsAndDocstrings(v.s, scan))
    ensures v.Null? && scan.Raised? ==> r == v
    ensures v.Null? && scan.Tokens? ==> r == Text(Stripped(scan.tokens))
    ensures v.Opaque? ==> r == v
    ensures r.Text? <==> v.Text? || (v.Null? && scan.Tokens?)
  {
    match v
    case Text(s) => Text(RemoveCommentsAndDocstrings(s, scan))
    case Null => if scan.Raised? then v else Text(Stripped(scan.tokens))
    case Opaque(_) => v
  }

  /** The row filter of `clean_dataset`: keep rows whose code is not "". */
  predicate NonEmptyCode(row: Fields): (b: bool)
    ensures CodeKey in row && row[CodeKey].Text? ==> (b <==> row[CodeKey].s != "")
    ensures CodeKey in row && !row[CodeKey].Text? ==> b
  {
    CodeKey in row ==> row[CodeKey] != Text("")
  }

  /** One row with its code column replaced by its cleaned value. */
  function CleanRow(row: Fields, scan: Tokenized): (r: Fields)
    requires CodeKey in row
    ensures r.Keys == row.Keys
    ensures r[CodeKey] == CleanCode(row[CodeKey], scan)
    ensures forall k :: k in row && k != CodeKey ==> r[k] == row[k]
  {
    row[CodeKey := CleanCode(row[CodeKey], scan)]
  }

  /** Every row with its code column replaced by its cleaned value, as
      `apply` does to the column. */
  function CleanedColumn(rows: seq<Fields>, scans: seq<Tokenized>): (r: seq<Fields>)
    requires |scans| == |rows|
    requires forall i :: 0 <= i < |rows| ==> CodeKey in rows[i]
    ensures |r| == |rows|
    ensures forall i :: 0 <= i < |rows| ==> r[i] == CleanRow(rows[i], scans[i])
  {
    if rows == [] then []
    else [CleanRow(rows[0], scans[0])] + CleanedColumn(rows[1..], scans[1..])
  }

  /** `clean_dataset` without its parquet I/O: clean every row's code, then
      keep the rows whose cleaned code is not the empty string.  `scans[i]`
      is the tokenizer's outcome on row i's code. */
  function CleanDataset(rows: seq<Fields>, scans: seq<Tokenized>): (kept: seq<Fields>)
    requires |scans| == |rows|
    requires forall i :: 0 <= i < |rows| ==> CodeKey in rows[i]
    ensures kept == Filter(CleanedColumn(rows, scans), NonEmptyCode)
    ensures forall row :: multiset(kept)[row] ==
                          (if NonEmptyCode(row) then multiset(CleanedColumn(rows, scans))[row] else 0)
    ensures |kept| <= |rows|
    ensures forall row :: row in kept ==>
      row in CleanedColumn(rows, scans) && CodeKey in row && row[CodeKey] != Text("")
    ensures forall i :: 0 <= i < |rows| && CleanCode(rows[i][CodeKey], scans[i]) != Text("") ==>
      CleanedColumn(rows, scans)[i] in kept
  {
    var cleaned := CleanedColumn(rows, scans);
    var kept := Filter(cleaned, NonEmptyCode);
    FilterCounts(cleaned, NonEmptyCode);
    assert forall i :: 0 <= i < |cleaned| ==> CodeKey in cleaned[i];
    assert forall i :: 0 <= i < |rows| && CleanCode(rows[i][CodeKey], scans[i]) != Text("") ==>
      cleaned[i] in kept by {
      forall i | 0 <= i < |rows| && CleanCode(rows[i][CodeKey], scans[i]) != Text("")
        ensures cleaned[i] in kept
      {
        assert cleaned[i][CodeKey] == CleanCode(rows[i][CodeKey], scans[i]);
        assert NonEmptyCode(cleaned[i]);
        assert cleaned[i] in cleaned;
      }
    }
    kept
  }

  /** Cleaning works row by row: cleaning two batches of rows one after the
      other gives the cleaned rows of both, in the same order. */
  lemma CleanedColumnAppend(a: seq<Fields>, sa: seq<Tokenized>, b: seq<Fields>, sb: seq<Tokenized>)
    requires |sa| == |a| && |sb| == |b|
    requires forall i :: 0 <= i < |a| ==> CodeKey in a[i]
    requires forall i :: 0 <= i < |b| ==> CodeKey in b[i]
    ensures forall i :: 0 <= i < |a + b| ==> CodeKey in (a + b)[i]
    ensures CleanedColumn(a + b, sa + sb) == CleanedColumn(a, sa) + CleanedColumn(b, sb)
  {
    assert forall i :: 0 <= i < |a + b| ==> CodeKey in (a + b)[i] by {
      forall i | 0 <= i < |a + b| ensures CodeKey in (a + b)[i] {
        if i >= |a| { assert (a + b)[i] == b[i - |a|]; }
      }
    }
    var whole, left, right := CleanedColumn(a + b, sa + sb), CleanedColumn(a, sa), CleanedColumn(b, sb);
    forall i | 0 <= i < |whole| ensures whole[i] == (left + right)[i] {
      if i < |a| {
        assert (a + b)[i] == a[i] && (sa + sb)[i] == sa[i];
      } else {
        assert (a + b)[i] == b[i - |a|] && (sa + sb)[i] == sb[i - |a|];
      }
    }
  }

  /** `clean_dataset` keeps the surviving rows in their input order: on two
      batches of rows it gives the survivors of the first batch followed by
      those of the second. */
  lemma CleanDatasetAppend(a: seq<Fields>, sa: seq<Tokenized>, b: seq<Fields>, sb: seq<Tokenized>)
    requires |sa| == |a| && |sb| == |b|
    requires forall i :: 0 <= i < |a| ==> CodeKey in a[i]
    requires forall i :: 0 <= i < |b| ==> CodeKey in b[i]
    ensures forall i :: 0 <= i < |a + b| ==> CodeKey in (a + b)[i]
    ensures CleanDataset(a + b, sa + sb) == CleanDataset(a, sa) + CleanDataset(b, sb)
  {
    CleanedColumnAppend(a, sa, b, sb);
    FilterAppend(CleanedColumn(a, sa), CleanedColumn(b, sb), NonEmptyCode);
  }

  /** The token stream the tokenizer gives for an empty text: tokens with no
      text, all starting in column 0 (the end marker). */
  predicate BlankTokens(ts: seq<Token>)
  {
    forall i :: 0 <= i < |ts| ==> ts[i].text == "" && ts[i].start.col == 0
  }

  /** Such a stream strips to the empty string. */
  lemma {:induction false} BlankTokensStripToEmpty(ts: seq<Token>, n: nat)
    requires n <= |ts| && BlankTokens(ts)
    ensures StrippedPrefix(ts, n) == ""
  {
    if n > 0 {
      BlankTokensStripToEmpty(ts, n - 1);
      assert Pad(ts, n - 1) <= 0;
    }
  }

  /** A null code value that tokenizes to the empty stream cleans to the
      empty string, so `clean_dataset` drops its row. */
  lemma NullCodeRowDropped(rows: seq<Fields>, scans: seq<Tokenized>, i: nat)
    requires |scans| == |rows|
    requires forall k :: 0 <= k < |rows| ==> CodeKey in rows[k]
    requires i < |rows| && rows[i][CodeKey] == Null
    requires scans[i].Tokens? && BlankTokens(scans[i].tokens)
    ensures CleanedColumn(rows, scans)[i][CodeKey] == Text("")
    ensures CleanedColumn(rows, scans)[i] !in CleanDataset(rows, scans)
  {
    BlankTokensStripToEmpty(scans[i].tokens, |scans[i].tokens|);
  }

  /** When the stripper raises on a null code, the wrapper returns the null,
      which is not "", so `clean_dataset` keeps the row with its null. */
  lemma NullCodeRaisedRowKept(rows: seq<Fields>, scans: seq<Tokenized>, i: nat)
    requires |scans| == |rows|
    requires forall k :: 0 <= k < |rows| ==> CodeKey in rows[k]
    requires i < |rows| && rows[i][CodeKey] == Null && scans[i].Raised?
    ensures CleanedColumn(rows, scans)[i] == rows[i]
    ensures rows[i] in CleanDataset(rows, scans)
  {
    var cleaned := CleanedColumn(rows, scans);
    assert cleaned[i] == rows[i];
  }

  // ---------------------------------------------------------------------
  // Properties of the stripper.
  // ---------------------------------------------------------------------

  /** The output grows only at its end: the output after i tokens is a
      prefix of the output after j >= i tokens. */
  lemma {:induction false} PrefixGrows(ts: seq<Token>, i: nat, j: nat)
    requires i <= j <= |ts|
    ensures StrippedPrefix(ts, i) <= StrippedPrefix(ts, j)
  {
    if i < j {
      PrefixGrows(ts, i, j - 1);
    }
  }

  /** Token i's contribution sits, whole, between Offset(i) and Offset(i+1)
      of the final output: contributions appear in input order and nothing
      else is written between them. */
  lemma TokenSlot(ts: seq<Token>, i: nat)
    requires i < |ts|
    ensures Offset(ts, i) + |Piece(ts, i)| == Offset(ts, i + 1) <= |Stripped(ts)|
    ensures Stripped(ts)[Offset(ts, i)..Offset(ts, i + 1)] == Piece(ts, i)
  {
    PrefixGrows(ts, i + 1, |ts|);
    var before, upto := StrippedPrefix(ts, i), StrippedPrefix(ts, i + 1);
    assert upto == before + Piece(ts, i);
    assert Stripped(ts)[..|upto|] == upto;
    assert upto[|before|..] == Piece(ts, i);
  }

  /** The part of the final output that token i contributed. */
  function Slot(ts: seq<Token>, i: nat): string
    requires i < |ts|
  {
    TokenSlot(ts, i);
    Stripped(ts)[Offset(ts, i)..Offset(ts, i + 1)]
  }

  /** Before every token, kept or not, the output receives exactly
      start_col - last_col blanks when that is positive, where last_col is
      0 at the first token and after a line change and otherwise the
      previous token's end column. */
  lemma AlignmentPrecedesToken(ts: seq<Token>, i: nat)
    requires i < |ts|
    ensures var n := ts[i].start.col - (if i == 0 || ts[i].start.line > ts[i - 1].end.line
                                        then 0 else ts[i - 1].end.col);
            Spaces(n) <= Slot(ts, i)
  {
    TokenSlot(ts, i);
  }

  /** A comment contributes only its alignment blanks: its text never
      reaches the output. */
  lemma CommentDropped(ts: seq<Token>, i: nat)
    requires i < |ts| && ts[i].kind == Comment
    ensures Slot(ts, i) == Spaces(Pad(ts, i))
    ensures forall k :: 0 <= k < |Slot(ts, i)| ==> Slot(ts, i)[k] == ' '
  {
    TokenSlot(ts, i);
    assert Piece(ts, i) == Spaces(Pad(ts, i));
  }

  /** A string right after an INDENT or a NEWLINE (or first in the stream,
      where the scanner's initial category is INDENT) is taken for a
      docstring: only its alignment blanks are written. */
  lemma DocstringAfterIndentOrNewlineDropped(ts: seq<Token>, i: nat)
    requires i < |ts| && ts[i].kind == Str
    requires i == 0 || ts[i - 1].kind == Indent || ts[i - 1].kind == Newline
    ensures Slot(ts, i) == Spaces(Pad(ts, i))
  {
    TokenSlot(ts, i);
  }

  /** A string starting in column 0 is taken for a module docstring and
      dropped, whatever precedes it. */
  lemma ColumnZeroStringDropped(ts: seq<Token>, i: nat)
    requires i < |ts| && ts[i].kind == Str && ts[i].start.col == 0
    ensures Slot(ts, i) == ""
  {
    TokenSlot(ts, i);
  }

  /** A string that follows neither an INDENT nor a NEWLINE and starts in a
      later column than 0 is copied verbatim after its blanks. */
  lemma InnerStringKept(ts: seq<Token>, i: nat)
    requires 0 < i < |ts| && ts[i].kind == Str && ts[i].start.col > 0
    requires ts[i - 1].kind != Indent && ts[i - 1].kind != Newline
    ensures Slot(ts, i) == Spaces(Pad(ts, i)) + ts[i].text
  {
    TokenSlot(ts, i);
  }

  /** Every token that is neither a comment nor a string is copied
      verbatim after its blanks. */
  lemma CodeTokenKept(ts: seq<Token>, i: nat)
    requires i < |ts| && ts[i].kind != Comment && ts[i].kind != Str
    ensures Slot(ts, i) == Spaces(Pad(ts, i)) + ts[i].text
  {
    TokenSlot(ts, i);
  }

  /** The first token, when it is a string, is always dropped. */
  lemma LeadingStringDropped(ts: seq<Token>)
    requires |ts| > 0 && ts[0].kind == Str
    ensures Slot(ts, 0) == Spaces(ts[0].start.col)
  {
    DocstringAfterIndentOrNewlineDropped(ts, 0);
  }
}
