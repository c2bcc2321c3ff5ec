/**
 * The statement splitter of the SQLUpdate command-line tool: it turns the
 * text of a file into the ordered SQL statements to issue.
 *
 * With no separator every line is a statement of its own: lines are trimmed,
 * and blank lines and lines starting with '#' are skipped. With a separator
 * the lines are concatenated, untrimmed and without line breaks, into an
 * accumulator until a line holds the separator; a line starting with '#' or
 * "--" empties the accumulator.
 */
module SQLUpdate {
  import opened Wrappers
  import opened JavaStrings
  import opened StringTokenizer

  // ---------------------------------------------------------------------
  // No-separator mode
  // ---------------------------------------------------------------------

  /** A trimmed line is issued unless it is empty or starts with '#' ("--" is not a comment here). */
  predicate IsStatementLine(trimmed: string)
  {
    !StartsWith(trimmed, "#") && trimmed != ""
  }

  /** What one line token contributes with no separator: its trim, or nothing. */
  function LineStatement(line: string): (r: seq<string>)
    ensures |r| <= 1
  {
    var token := Trim(line);
    if IsStatementLine(token) then [token] else []
  }

  /** The statements issued for `lines` when there is no separator. */
  function LineStatements(lines: seq<string>): (r: seq<string>)
    ensures |r| <= |lines|
  {
    if lines == [] then [] else LineStatement(lines[0]) + LineStatements(lines[1..])
  }

  // ---------------------------------------------------------------------
  // Separator mode
  // ---------------------------------------------------------------------

  /** A comment line in separator mode, checked on the untrimmed line. */
  predicate IsCommentLine(line: string)
    ensures IsCommentLine(line) ==> line != [] && (line[0] == '#' || line[0] == '-')
  {
    StartsWith(line, "#") || StartsWith(line, "--")
  }

  /** A line that ends a statement: not a comment and holding the separator. */
  predicate IsTerminator(line: string, separator: string)
  {
    !IsCommentLine(line) && IndexOf(line, separator) >= 0
  }

  /**
   * The statements issued for `lines` when the accumulator already holds
   * `acc`: a comment line empties the accumulator; a line holding the
   * separator issues the accumulator followed by the line's text before the
   * separator's first occurrence, and empties it; any other line is appended
   * whole.
   */
  function SeparatedStatements(lines: seq<string>, separator: string, acc: string): (r: seq<string>)
    ensures |r| <= |lines|
  {
    if lines == [] then []
    else
      var line := lines[0];
      if IsCommentLine(line) then
        SeparatedStatements(lines[1..], separator, "")
      else
        var pos := IndexOf(line, separator);
        if pos >= 0 then
          [acc + line[..pos]] + SeparatedStatements(lines[1..], separator, "")
        else
          SeparatedStatements(lines[1..], separator, acc + line)
  }

  /** What the accumulator holds after `lines`, when it held `acc` before them. */
  function Pending(lines: seq<string>, separator: string, acc: string): (r: string)
    ensures lines != [] && (IsCommentLine(lines[|lines| - 1]) || IndexOf(lines[|lines| - 1], separator) >= 0)
            ==> r == ""
  {
    if lines == [] then acc
    else
      var line := lines[0];
      if IsCommentLine(line) then Pending(lines[1..], separator, "")
      else
        var pos := IndexOf(line, separator);
        if pos >= 0 then Pending(lines[1..], separator, "")
        else Pending(lines[1..], separator, acc + line)
  }

  // ---------------------------------------------------------------------
  // splitSQL
  // ---------------------------------------------------------------------

  /** The statements `splitSQL(text, separator)` returns; `None` is a null separator. */
  function SplitSpec(text: string, separator: Option<string>): (r: seq<string>)
    ensures |r| <= |Tokenize(text)|
  {
    match separator
    case None => LineStatements(Tokenize(text))
    case Some(sep) => SeparatedStatements(Tokenize(text), sep, "")
  }

  /**
   * `splitSQL(text, separator)`: a null separator selects the one-statement-
   * per-line loop, any other separator (the empty one included) the
   * accumulating loop.
   */
  method SplitSQL(text: string, separator: Option<string>) returns (statements: seq<string>)
    ensures statements == SplitSpec(text, separator)
  {
    if separator == None {
      statements := SplitLines(text);
    } else {
      statements := SplitSeparated(text, separator.value);
    }
  }

  /**
   * The loop of `splitSQL` for a null separator: each line token is trimmed
   * and added to the list unless it is empty or starts with '#'.
   */
  method SplitLines(text: string) returns (statements: seq<string>)
    ensures statements == LineStatements(Tokenize(text))
  {
    statements := [];
    var st := new LineTokenizer(text);
    var more := st.HasMoreTokens();
    while more
      invariant st.Valid() && more == (st.Remaining() != [])
      invariant statements + LineStatements(st.Remaining()) == LineStatements(Tokenize(text))
      decreases |st.Remaining()|
    {
      ghost var before := st.Remaining();
      var token := st.NextToken();
      token := Trim(token);
      if !StartsWith(token, "#") && token != "" {
        assert LineStatement(before[0]) == [token];
        assert statements + LineStatements(before)
            == (statements + [token]) + LineStatements(st.Remaining());
        statements := statements + [token];
      } else {
        assert LineStatements(before) == LineStatements(st.Remaining());
      }
      more := st.HasMoreTokens();
    }
  }

  /**
   * The loop of `splitSQL` for a given separator, with the accumulator `sb`
   * (the StringBuilder): a comment line clears it, a line holding the
   * separator appends its text before the separator, issues it and clears
   * it, and any other line is appended whole.
   */
  method SplitSeparated(text: string, separator: string) returns (statements: seq<string>)
    ensures statements == SeparatedStatements(Tokenize(text), separator, "")
  {
    statements := [];
    var sb := "";
    var st := new LineTokenizer(text);
    var more := st.HasMoreTokens();
    while more
      invariant st.Valid() && more == (st.Remaining() != [])
      invariant statements + SeparatedStatements(st.Remaining(), separator, sb)
             == SeparatedStatements(Tokenize(text), separator, "")
      decreases |st.Remaining()|
    {
      var line := st.NextToken();
      if StartsWith(line, "#") || StartsWith(line, "--") {
        sb := "";
      } else {
        var pos := IndexOf(line, separator);
        if pos >= 0 {
          sb := sb + line[..pos];
          statements := statements + [sb];
          sb := "";
        } else {
          sb := sb + line;
        }
      }
      more := st.HasMoreTokens();
    }
  }
}
