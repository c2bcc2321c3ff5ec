# SQLUpdate statement splitter, in Dafny

SQLUpdate is the DBPool command-line tool that reads a text file of SQL
statements and issues them, in order, over a pooled database connection.
Its one piece of real logic is `splitSQL(text, separator)`, which turns the
file's text into the ordered array of statements. This project models that
splitter and proves what it returns.

- **No separator** (`separator == null`): the text is cut into line tokens
  on runs of `\n`/`\r` (empty lines never appear as tokens), each token is
  trimmed (Java `trim` drops leading and trailing characters of code at most
  U+0020), and every trimmed token that is non-empty and does not start with
  `#` is a statement. A line starting with `--` *is* a statement in this
  mode.
- **With a separator** (any non-null string, the empty one included): the
  same line tokens are read untrimmed into an accumulator (the
  `StringBuilder`). A line starting with `#` or `--` (checked on the
  untrimmed line) clears the accumulator. Any other line is searched for the
  first occurrence of the separator: if found, the text before it is
  appended, the accumulator is issued and cleared; if not, the whole line is
  appended, with no line break in between. Whatever is left at the end is
  dropped. With the empty separator every non-comment line issues one empty
  statement.

Modules:

- `JavaStrings` (`java_strings.dfy`): `startsWith`, `trim` and `indexOf` of
  `java.lang.String`, as functions. `StartsWith` compares characters one
  by one; the postconditions of `IndexOf`, `TrimLeading` and `TrimTrailing`
  characterise them; `Trim` is characterised by the lemmas `TrimSlice` and
  `TrimUnique`.
- `StringTokenizer` (`string_tokenizer.dfy`): `java.util.StringTokenizer`
  with delimiters `"\n\r"`. `Tokenize` is the list of tokens a fresh
  tokenizer hands out; the class `LineTokenizer` holds the text and the
  current position and its methods (`HasMoreTokens`, `NextToken`, with the
  `SkipDelimiters`/`ScanToken` scans) are proved against `Tokenize`.
- `SQLUpdate` (`sql_update.dfy`): the specification `SplitSpec` (built from
  `LineStatements` for the no-separator mode and `SeparatedStatements`, an
  accumulator-passing function, for the separator mode) and the imperative
  `SplitSQL`. The two `while (st.hasMoreTokens())` loops of `splitSQL` are
  the methods `SplitLines` and `SplitSeparated`, each walking a fresh
  `LineTokenizer` and growing a statement list (and, in the second, the
  accumulator `sb`) with loop invariants that tie them to the
  specification.
- `SplitProperties` (`split_properties.dfy`): the properties of the
  returned statements, proved about `SplitSpec`.
- `Wrappers` (`wrappers.dfy`): `Option`, used for the nullable separator.

In separator mode a comment line inside an unfinished multi-line statement
discards only what was accumulated before it; the line after the comment
still ends a statement. So `"INSERT INTO\n-- oops\nt VALUES (1);"` with
separator `;` yields `["t VALUES (1)"]`, not an empty result.
`SplitProperties.CommentInsideStatement` proves this for every continuation
line, comment line and terminating line.

## Model

| member | source | states |
|---|---|---|
| `JavaStrings.Trim` | src/main/java/snaq/db/SQLUpdate.java:210 | the trimmed line is no longer than the line and neither starts nor ends with a character of code at most U+0020; `TrimSlice` and `TrimUnique` fix which slice of the line it is |
| `JavaStrings.TrimSlice` | src/main/java/snaq/db/SQLUpdate.java:210 | the trimmed line is the slice of the line that starts right after the leading run of characters of code at most U+0020, and everything after it is such a character as well |
| `JavaStrings.TrimUnique` | src/main/java/snaq/db/SQLUpdate.java:210 | for any cut of the line into a trimmable front, a middle that neither starts nor ends with a trimmable character, and a trimmable back, the trimmed line is that middle: the result of `trim` is fully determined |
| `JavaStrings.StartsWith` | src/main/java/snaq/db/SQLUpdate.java:225 | `startsWith`, defined character by character (also used at line 211); `StartsWithSlice` states it as a comparison of slices |
| `JavaStrings.StartsWithSlice` | src/main/java/snaq/db/SQLUpdate.java:225 | a string starts with a prefix exactly when the prefix is no longer than the string and equals the string's first `|prefix|` characters |
| `JavaStrings.TrimEmpty` | src/main/java/snaq/db/SQLUpdate.java:210-211 | a trimmed line is empty exactly when the line holds only characters of code at most U+0020 |
| `JavaStrings.TrimLeading` | src/main/java/snaq/db/SQLUpdate.java:210 | the leading part of `trim`: a suffix of the line, everything dropped is trimmable, and it does not start with a trimmable character |
| `JavaStrings.TrimTrailing` | src/main/java/snaq/db/SQLUpdate.java:210 | the trailing part of `trim`: a prefix, everything dropped is trimmable, and it does not end with a trimmable character |
| `JavaStrings.TrimIdempotent` | src/main/java/snaq/db/SQLUpdate.java:210 | trimming a trimmed token changes nothing |
| `JavaStrings.TrimChars` | src/main/java/snaq/db/SQLUpdate.java:210 | every character of a trimmed token comes from the token |
| `JavaStrings.IndexOf` | src/main/java/snaq/db/SQLUpdate.java:231-232 | the result is -1 exactly when the separator occurs nowhere in the line; otherwise it is a position where it occurs and no earlier position holds it (so the empty separator is found at 0) |
| `JavaStrings.IndexFrom` | src/main/java/snaq/db/SQLUpdate.java:231 | the search from a position on finds the least occurrence at or after it, or -1 when there is none |
| `StringTokenizer.TokenLength` | src/main/java/snaq/db/SQLUpdate.java:207 | a token runs up to the first line break or the end of the text, and holds no line break |
| `StringTokenizer.Tokenize` | src/main/java/snaq/db/SQLUpdate.java:207 | every token is non-empty and holds no `\n` or `\r` |
| `StringTokenizer.SkipLeadingDelimiters` | src/main/java/snaq/db/SQLUpdate.java:207 | line breaks in front of the text do not change its tokens |
| `StringTokenizer.TokenizeEmpty` | src/main/java/snaq/db/SQLUpdate.java:207-208 | there is no token exactly when the text is empty or only line breaks |
| `StringTokenizer.TokenLengthAppend` | src/main/java/snaq/db/SQLUpdate.java:207 | text after a line break does not change the length of the first token |
| `StringTokenizer.TokenizeAtDelimiter` | src/main/java/snaq/db/SQLUpdate.java:207 | a line break splits the text: its tokens are those of the part before it followed by those of the part after it |
| `StringTokenizer.TokenizeLine` | src/main/java/snaq/db/SQLUpdate.java:207 | a non-empty text without line breaks is one token |
| `StringTokenizer.TokenLengthOfLine` | src/main/java/snaq/db/SQLUpdate.java:207 | a line without line breaks followed by a line break is a token of the line's length |
| `StringTokenizer.TokenizeJoinLines` | src/main/java/snaq/db/SQLUpdate.java:207 | writing non-empty lines one per line and tokenizing gives the same lines back |
| `StringTokenizer.LineTokenizer.constructor` | src/main/java/snaq/db/SQLUpdate.java:207 | a new tokenizer has all tokens of the text still to hand out |
| `StringTokenizer.LineTokenizer.SkipDelimiters` | src/main/java/snaq/db/SQLUpdate.java:208 | the position reached is past line breaks only, at a non-break or the end, and the tokens from there are the same |
| `StringTokenizer.LineTokenizer.ScanToken` | src/main/java/snaq/db/SQLUpdate.java:210 | the scan stops after exactly one token's length |
| `StringTokenizer.LineTokenizer.HasMoreTokens` | src/main/java/snaq/db/SQLUpdate.java:208 | true exactly when a token remains |
| `StringTokenizer.LineTokenizer.NextToken` | src/main/java/snaq/db/SQLUpdate.java:210 | returns the first remaining token and removes it from the remaining ones |
| `SQLUpdate.SplitSpec` | src/main/java/snaq/db/SQLUpdate.java:201-243 | what `splitSQL` returns: at most one statement per line token; the lemmas of `SplitProperties` (`NoSeparatorMembers`, `StatementCount`, `StatementShape`, `EmptySeparator`, `NoLineBreaks`) state its content |
| `SQLUpdate.LineStatement` | src/main/java/snaq/db/SQLUpdate.java:210-212 | one line token contributes at most one statement (its trim, when non-empty and not `#`-prefixed; see `SplitProperties.LineStatementsMembers`) |
| `SQLUpdate.LineStatements` | src/main/java/snaq/db/SQLUpdate.java:207-213 | no more statements than line tokens; `SplitProperties.LineStatementsMembers`, `LineStatementsWellFormed` and `LineStatementsAppend` state which statements, in which order |
| `SQLUpdate.IsCommentLine` | src/main/java/snaq/db/SQLUpdate.java:225 | a comment line is non-empty and starts with `#` or `-` (the untrimmed line starts with `#` or `--`); `SplitProperties.CommentResets` states its effect |
| `SQLUpdate.SeparatedStatements` | src/main/java/snaq/db/SQLUpdate.java:218-241 | no more statements than line tokens; `SplitProperties.SeparatedCount`, `StatementShape`, `SeparatedAppend` and `CommentResets` state which statements |
| `SQLUpdate.Pending` | src/main/java/snaq/db/SQLUpdate.java:226-243 | the accumulator is empty after a last line that is a comment or holds the separator; `SplitProperties.SeparatedAppend` and `TrailingTextDropped` state what happens to what is left at the end |
| `SQLUpdate.SplitSQL` | src/main/java/snaq/db/SQLUpdate.java:201-244 | the statements returned are `SplitSpec(text, separator)` for both the null and the non-null separator |
| `SQLUpdate.SplitLines` | src/main/java/snaq/db/SQLUpdate.java:205-214 | the loop over line tokens returns the trimmed tokens that are non-empty and do not start with `#`, in order |
| `SQLUpdate.SplitSeparated` | src/main/java/snaq/db/SQLUpdate.java:215-242 | the accumulator loop returns exactly the statements of `SeparatedStatements` started with an empty accumulator |
| `SplitProperties.OnlyLineBreaks` | src/main/java/snaq/db/SQLUpdate.java:207-219 | an empty text, or one of line breaks only, yields no statement in either mode |
| `SplitProperties.LineStatementsNoDelimiter` | src/main/java/snaq/db/SQLUpdate.java:207-212 | trimmed line tokens hold no line break |
| `SplitProperties.SeparatedNoDelimiter` | src/main/java/snaq/db/SQLUpdate.java:218-239 | concatenating tokens and token prefixes never introduces a line break |
| `SplitProperties.NoLineBreaks` | src/main/java/snaq/db/SQLUpdate.java:207-239 | no statement, in either mode, contains `\n` or `\r` |
| `SplitProperties.LineStatementsAppend` | src/main/java/snaq/db/SQLUpdate.java:208-212 | the statements of two consecutive runs of lines are those of the first run followed by those of the second: the original order is kept |
| `SplitProperties.LineStatementsMembers` | src/main/java/snaq/db/SQLUpdate.java:208-212 | a string is a statement exactly when it is the trim of one of the lines and is non-empty and not `#`-prefixed |
| `SplitProperties.NoSeparatorMembers` | src/main/java/snaq/db/SQLUpdate.java:207-212 | with no separator, a string is issued exactly when it is the trim of a line token, non-empty and not starting with `#` |
| `SplitProperties.LineStatementsWellFormed` | src/main/java/snaq/db/SQLUpdate.java:210-212 | every statement kept from a run of lines is non-empty, its own trim and not `#`-prefixed |
| `SplitProperties.NoSeparatorStatements` | src/main/java/snaq/db/SQLUpdate.java:210-212 | with no separator every statement is non-empty, equals its own trim and does not start with `#` |
| `SplitProperties.DashLinesIssued` | src/main/java/snaq/db/SQLUpdate.java:211-212 | with no separator a line token whose trim starts with `--` is issued: only `#` marks a comment in this mode |
| `SplitProperties.SeparatedCount` | src/main/java/snaq/db/SQLUpdate.java:225-239 | one statement per non-comment line holding the separator, whatever the accumulator held |
| `SplitProperties.StatementCount` | src/main/java/snaq/db/SQLUpdate.java:218-241 | with a separator, the number of statements is the number of line tokens that do not start with `#` or `--` and contain the separator |
| `SplitProperties.SeparatedAppend` | src/main/java/snaq/db/SQLUpdate.java:219-241 | splitting two consecutive runs of lines issues the first run's statements, then the second run's started from the accumulator the first run left |
| `SplitProperties.CommentResets` | src/main/java/snaq/db/SQLUpdate.java:225-228 | after a comment line the statements are those of the following lines alone: nothing from before the comment appears in a later statement |
| `SplitProperties.CommentInsideStatement` | src/main/java/snaq/db/SQLUpdate.java:225-236 | a continuation line, a comment line and a line holding the separator yield exactly the last line's text before the separator |
| `SplitProperties.NoTerminatorNoStatement` | src/main/java/snaq/db/SQLUpdate.java:238-243 | lines none of which ends a statement issue nothing, whatever is accumulated |
| `SplitProperties.TrailingTextDropped` | src/main/java/snaq/db/SQLUpdate.java:241-243 | text after the last line that ends a statement is never issued |
| `SplitProperties.ContinuationStep` | src/main/java/snaq/db/SQLUpdate.java:238-239 | a non-comment line without the separator is appended whole to the accumulator and issues nothing |
| `SplitProperties.TerminatorStep` | src/main/java/snaq/db/SQLUpdate.java:231-236 | a non-comment line holding the separator issues the accumulator followed by its text before the first occurrence, and empties the accumulator |
| `SplitProperties.PendingStep` | src/main/java/snaq/db/SQLUpdate.java:231-239 | the inductive step of `StatementShape`: a leading continuation line moves into the accumulator without changing the statement |
| `SplitProperties.StatementShape` | src/main/java/snaq/db/SQLUpdate.java:231-239 | a statement is the accumulator, then the plain concatenation of the separator-free non-comment lines since, then the terminating line's text before the first separator |
| `SplitProperties.EmptySeparatedStatements` | src/main/java/snaq/db/SQLUpdate.java:231-236 | with the empty separator the accumulator stays empty and each non-comment line issues one empty statement |
| `SplitProperties.EmptySeparator` | src/main/java/snaq/db/SQLUpdate.java:231-236 | with the empty separator `splitSQL` returns as many empty strings as there are non-comment line tokens |

## Left out

- `loadTextFile` (reading the file and decoding it with the platform charset): file I/O; the text is a parameter.
- The constructors, `openConnection`, `close` and `doStatement`: JDBC connection and statement handling through `ConnectionPoolManager` and `java.sql`, which are calls into code that is not part of this model; SLF4J logging likewise.
- `main`: argument handling, console output, `System.exit` codes and the loop that issues each statement in turn (the first `SQLException` ends it) are out, as they only call the parts above.
- A null `text` (`StringTokenizer` would throw `NullPointerException`): `text` is a non-null string.
- `StringTokenizer.LineTokenizer.NextToken`: requires a token to remain instead of modelling `NoSuchElementException`; `splitSQL` only calls it after `hasMoreTokens` answered true.
- Java strings are UTF-16 code units while a Dafny `char` is a Unicode scalar value; the two differ only for a text or separator holding an unpaired surrogate (such as `"a\uD800;"`), which the model cannot express.
- The `StringBuilder` is a string variable that is reassigned, and the `ArrayList` and the returned array are one sequence.
