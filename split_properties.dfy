/**
 * What `splitSQL` promises about the statements it returns, proved about
 * its specification `SplitSpec` (and so, through `SplitSQL`'s
 * postcondition, about the method).
 */
module SplitProperties {
  import opened Wrappers
  import opened JavaStrings
  import opened StringTokenizer
  import opened SQLUpdate

  // ---------------------------------------------------------------------
  // Both modes
  // ---------------------------------------------------------------------

  /** A text that is empty or holds only line breaks yields no statement, whatever the separator. */
  lemma OnlyLineBreaks(text: string, separator: Option<string>)
    requires AllDelimiters(text)
    ensures SplitSpec(text, separator) == []
  {
    TokenizeEmpty(text);
  }

  lemma {:induction false} LineStatementsNoDelimiter(lines: seq<string>)
    requires forall l :: l in lines ==> NoDelimiter(l)
    ensures forall s :: s in LineStatements(lines) ==> NoDelimiter(s)
  {
    if lines != [] {
      assert lines[0] in lines;
      forall c | c in Trim(lines[0]) ensures !IsDelimiter(c) {
        TrimChars(lines[0], c);
      }
      assert forall l :: l in lines[1..] ==> l in lines;
      LineStatementsNoDelimiter(lines[1..]);
    }
  }

  lemma {:induction false} SeparatedNoDelimiter(lines: seq<string>, separator: string, acc: string)
    requires NoDelimiter(acc)
    requires forall l :: l in lines ==> NoDelimiter(l)
    ensures forall s :: s in SeparatedStatements(lines, separator, acc) ==> NoDelimiter(s)
  {
    if lines != [] {
      var line := lines[0];
      assert line in lines;
      assert forall l :: l in lines[1..] ==> l in lines;
      if IsCommentLine(line) {
        SeparatedNoDelimiter(lines[1..], separator, "");
      } else {
        var pos := IndexOf(line, separator);
        if pos >= 0 {
          assert NoDelimiter(acc + line[..pos]);
          SeparatedNoDelimiter(lines[1..], separator, "");
        } else {
          assert NoDelimiter(acc + line);
          SeparatedNoDelimiter(lines[1..], separator, acc + line);
        }
      }
    }
  }

  /** No statement, in either mode, contains a line break. */
  lemma NoLineBreaks(text: string, separator: Option<string>)
    ensures forall s :: s in SplitSpec(text, separator) ==> NoDelimiter(s)
  {
    var lines := Tokenize(text);
    match separator
    case None => LineStatementsNoDelimiter(lines);
    case Some(sep) => SeparatedNoDelimiter(lines, sep, "");
  }

  // ---------------------------------------------------------------------
  // No-separator mode
  // ---------------------------------------------------------------------

  /** The statements of consecutive pieces of text come out in the pieces' order. */
  lemma {:induction false} LineStatementsAppend(a: seq<string>, b: seq<string>)
    ensures LineStatements(a + b) == LineStatements(a) + LineStatements(b)
  {
    if a != [] {
      var head := LineStatement(a[0]);
      assert (a + b)[0] == a[0];
      assert (a + b)[1..] == a[1..] + b;
      assert LineStatements(a + b) == head + LineStatements(a[1..] + b);
      LineStatementsAppend(a[1..], b);
      AppendAssoc(head, LineStatements(a[1..]), LineStatements(b));
    } else {
      assert a + b == b;
    }
  }

  /** Concatenation of sequences is associative. */
  lemma AppendAssoc<T>(x: seq<T>, y: seq<T>, z: seq<T>)
    ensures x + (y + z) == (x + y) + z
  {
  }

  /**
   * A string is a statement exactly when it is the trim of some line and
   * is neither empty nor starts with '#'.
   */
  lemma {:induction false} LineStatementsMembers(lines: seq<string>, s: string)
    ensures s in LineStatements(lines)
        <==> IsStatementLine(s) && exists t :: t in lines && Trim(t) == s
  {
    if lines != [] {
      LineStatementsMembers(lines[1..], s);
      if s in LineStatements(lines[1..]) {
        var t :| t in lines[1..] && Trim(t) == s;
        assert t in lines;
      }
      if IsStatementLine(s) && exists t :: t in lines && Trim(t) == s {
        var t :| t in lines && Trim(t) == s;
        if t != lines[0] {
          assert t in lines[1..];
        }
      }
    }
  }

  /**
   * With no separator a string is issued exactly when it is the trim of a
   * line token and is neither empty nor starts with '#'.
   */
  lemma NoSeparatorMembers(text: string, s: string)
    ensures s in SplitSpec(text, None) <==>
      IsStatementLine(s) && exists t :: t in Tokenize(text) && Trim(t) == s
  {
    LineStatementsMembers(Tokenize(text), s);
  }

  lemma {:induction false} LineStatementsWellFormed(lines: seq<string>)
    ensures forall s :: s in LineStatements(lines) ==> s != "" && Trim(s) == s && !StartsWith(s, "#")
  {
    if lines != [] {
      TrimIdempotent(lines[0]);
      LineStatementsWellFormed(lines[1..]);
    }
  }

  /**
   * With no separator every statement is non-empty, is its own trim and
   * does not start with '#'.
   */
  lemma NoSeparatorStatements(text: string)
    ensures forall s :: s in SplitSpec(text, None) ==> s != "" && Trim(s) == s && !StartsWith(s, "#")
  {
    LineStatementsWellFormed(Tokenize(text));
  }

  /** With no separator "--" is no comment: a line whose trim starts with "--" is issued. */
  lemma DashLinesIssued(text: string, t: string)
    requires t in Tokenize(text) && StartsWith(Trim(t), "--")
    ensures Trim(t) in SplitSpec(text, None)
  {
    var r := Trim(t);
    assert r[0] == '-';
    assert IsStatementLine(r);
    var lines := Tokenize(text);
    LineStatementsMembers(lines, r);
    assert r in LineStatements(lines);
  }

  // ---------------------------------------------------------------------
  // Separator mode
  // ---------------------------------------------------------------------

  /** How many of `lines` end a statement. */
  function TerminatorCount(lines: seq<string>, separator: string): nat
  {
    if lines == [] then 0
    else (if IsTerminator(lines[0], separator) then 1 else 0) + TerminatorCount(lines[1..], separator)
  }

  /** One statement is issued per non-comment line holding the separator. */
  lemma {:induction false} SeparatedCount(lines: seq<string>, separator: string, acc: string)
    ensures |SeparatedStatements(lines, separator, acc)| == TerminatorCount(lines, separator)
  {
    if lines != [] {
      var line := lines[0];
      if IsCommentLine(line) {
        SeparatedCount(lines[1..], separator, "");
      } else if IndexOf(line, separator) >= 0 {
        SeparatedCount(lines[1..], separator, "");
      } else {
        SeparatedCount(lines[1..], separator, acc + line);
      }
    }
  }

  /**
   * With a separator, the number of statements is the number of line tokens
   * that are not comment lines and contain the separator.
   */
  lemma StatementCount(text: string, separator: string)
    ensures |SplitSpec(text, Some(separator))| == TerminatorCount(Tokenize(text), separator)
  {
    SeparatedCount(Tokenize(text), separator, "");
  }

  /**
   * Processing `a` then `b` issues the statements of `a`, then those of `b`
   * started with whatever `a` left in the accumulator.
   */
  lemma {:induction false} SeparatedAppend(a: seq<string>, b: seq<string>, separator: string, acc: string)
    ensures SeparatedStatements(a + b, separator, acc)
         == SeparatedStatements(a, separator, acc) + SeparatedStatements(b, separator, Pending(a, separator, acc))
  {
    if a != [] {
      var line := a[0];
      assert (a + b)[0] == line;
      assert (a + b)[1..] == a[1..] + b;
      if IsCommentLine(line) {
        SeparatedAppend(a[1..], b, separator, "");
      } else if IndexOf(line, separator) >= 0 {
        SeparatedAppend(a[1..], b, separator, "");
      } else {
        SeparatedAppend(a[1..], b, separator, acc + line);
      }
    } else {
      assert a + b == b;
    }
  }

  /**
   * A comment line empties the accumulator: what follows it is split as if
   * the text started there, so nothing from before the comment line appears
   * in a later statement.
   */
  lemma CommentResets(a: seq<string>, comment: string, b: seq<string>, separator: string, acc: string)
    requires IsCommentLine(comment)
    ensures SeparatedStatements(a + [comment] + b, separator, acc)
         == SeparatedStatements(a, separator, acc) + SeparatedStatements(b, separator, "")
  {
    SeparatedAppend(a, [comment] + b, separator, acc);
    assert a + [comment] + b == a + ([comment] + b);
    assert ([comment] + b)[1..] == b;
  }

  /**
   * A comment line inside a statement that spans lines discards the lines
   * before it, but the line after it that holds the separator still issues
   * its own text before the separator.
   */
  lemma CommentInsideStatement(first: string, comment: string, last: string, separator: string)
    requires IsContinuation(first, separator)
    requires IsCommentLine(comment)
    requires IsTerminator(last, separator)
    ensures SeparatedStatements([first, comment, last], separator, "")
         == [last[..IndexOf(last, separator)]]
  {
    CommentResets([first], comment, [last], separator, "");
    assert [first] + [comment] + [last] == [first, comment, last];
    assert SeparatedStatements([first], separator, "") == [];
    assert SeparatedStatements([last], separator, "") == ["" + last[..IndexOf(last, separator)]];
    assert "" + last[..IndexOf(last, separator)] == last[..IndexOf(last, separator)];
  }

  lemma {:induction false} NoTerminatorNoStatement(lines: seq<string>, separator: string, acc: string)
    requires forall l :: l in lines ==> !IsTerminator(l, separator)
    ensures SeparatedStatements(lines, separator, acc) == []
  {
    if lines != [] {
      assert lines[0] in lines;
      assert forall l :: l in lines[1..] ==> l in lines;
      if IsCommentLine(lines[0]) {
        NoTerminatorNoStatement(lines[1..], separator, "");
      } else {
        NoTerminatorNoStatement(lines[1..], separator, acc + lines[0]);
      }
    }
  }

  /** Text after the last line holding the separator is never issued. */
  lemma TrailingTextDropped(a: seq<string>, b: seq<string>, separator: string, acc: string)
    requires forall l :: l in b ==> !IsTerminator(l, separator)
    ensures SeparatedStatements(a + b, separator, acc) == SeparatedStatements(a, separator, acc)
  {
    SeparatedAppend(a, b, separator, acc);
    NoTerminatorNoStatement(b, separator, Pending(a, separator, acc));
  }

  /** The lines of `lines` written one after the other, with nothing in between. */
  function Concat(lines: seq<string>): string
  {
    if lines == [] then "" else lines[0] + Concat(lines[1..])
  }

  /** A line that continues a statement: not a comment and without the separator. */
  predicate IsContinuation(line: string, separator: string)
  {
    !IsCommentLine(line) && IndexOf(line, separator) < 0
  }

  /**
   * A statement is the accumulator, followed by the plain concatenation of
   * the continuation lines since then, followed by the text of the
   * terminating line before the first occurrence of the separator.
   */
  lemma {:induction false} StatementShape(pending: seq<string>, terminator: string, rest: seq<string>,
                                         separator: string, acc: string)
    requires forall l :: l in pending ==> IsContinuation(l, separator)
    requires IsTerminator(terminator, separator)
    ensures SeparatedStatements(pending + ([terminator] + rest), separator, acc)
         == [acc + Concat(pending) + terminator[..IndexOf(terminator, separator)]]
            + SeparatedStatements(rest, separator, "")
    decreases |pending|, 1
  {
    if pending == [] {
      assert pending + ([terminator] + rest) == [terminator] + rest;
      TerminatorStep(terminator, rest, separator, acc);
      assert acc + Concat(pending) == acc;
    } else {
      PendingStep(pending, terminator, rest, separator, acc);
    }
  }

  /** The inductive step of `StatementShape`: the first pending line goes into the accumulator. */
  lemma {:induction false} PendingStep(pending: seq<string>, terminator: string, rest: seq<string>,
                                      separator: string, acc: string)
    requires pending != []
    requires forall l :: l in pending ==> IsContinuation(l, separator)
    requires IsTerminator(terminator, separator)
    ensures SeparatedStatements(pending + ([terminator] + rest), separator, acc)
         == [acc + Concat(pending) + terminator[..IndexOf(terminator, separator)]]
            + SeparatedStatements(rest, separator, "")
    decreases |pending|, 0
  {
    var line := pending[0];
    assert line in pending;
    assert pending + ([terminator] + rest) == [line] + (pending[1..] + ([terminator] + rest));
    ContinuationStep(line, pending[1..] + ([terminator] + rest), separator, acc);
    StatementShape(pending[1..], terminator, rest, separator, acc + line);
    ConcatFirst(pending, acc, terminator[..IndexOf(terminator, separator)]);
  }

  /** Moving the first line out of the accumulator into the concatenation changes nothing. */
  lemma ConcatFirst(lines: seq<string>, acc: string, tail: string)
    requires lines != []
    ensures acc + lines[0] + Concat(lines[1..]) + tail == acc + Concat(lines) + tail
  {
    assert Concat(lines) == lines[0] + Concat(lines[1..]);
  }

  /** A line that continues a statement is appended to the accumulator. */
  lemma ContinuationStep(line: string, lines: seq<string>, separator: string, acc: string)
    requires IsContinuation(line, separator)
    ensures SeparatedStatements([line] + lines, separator, acc)
         == SeparatedStatements(lines, separator, acc + line)
  {
    assert ([line] + lines)[1..] == lines;
  }

  /** A line that ends a statement issues the accumulator with the line's text before the separator. */
  lemma TerminatorStep(line: string, lines: seq<string>, separator: string, acc: string)
    requires IsTerminator(line, separator)
    ensures SeparatedStatements([line] + lines, separator, acc)
         == [acc + line[..IndexOf(line, separator)]] + SeparatedStatements(lines, separator, "")
  {
    assert ([line] + lines)[1..] == lines;
  }

  /** How many of `lines` are not comment lines. */
  function NonCommentCount(lines: seq<string>): nat
  {
    if lines == [] then 0
    else (if IsCommentLine(lines[0]) then 0 else 1) + NonCommentCount(lines[1..])
  }

  /**
   * The empty separator occurs at position 0 of every line, so each
   * non-comment line issues one empty statement and the accumulator stays
   * empty.
   */
  lemma {:induction false} EmptySeparatedStatements(lines: seq<string>)
    ensures SeparatedStatements(lines, "", "") == seq(NonCommentCount(lines), _ => "")
    ensures Pending(lines, "", "") == ""
  {
    if lines != [] {
      var line := lines[0];
      var n := NonCommentCount(lines[1..]);
      EmptySeparatedStatements(lines[1..]);
      if !IsCommentLine(line) {
        assert OccursAt(line, "", 0);
        assert IndexOf(line, "") == 0;
        assert "" + line[..0] == "";
        assert seq(n + 1, _ => "") == [""] + seq(n, _ => "");
      }
    }
  }

  /** With the empty separator every statement is empty, one per non-comment line token. */
  lemma EmptySeparator(text: string)
    ensures SplitSpec(text, Some("")) == seq(NonCommentCount(Tokenize(text)), _ => "")
  {
    EmptySeparatedStatements(Tokenize(text));
  }
}
