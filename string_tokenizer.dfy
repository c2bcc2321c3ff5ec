/**
 * java.util.StringTokenizer as the statement splitter uses it: the
 * delimiter set is {'\n', '\r'} and delimiters are not returned as tokens.
 * A token is a maximal run of non-delimiter characters, so the empty
 * "lines" between consecutive line breaks never appear.
 */
module StringTokenizer {

  /** A line break: one of the two delimiters "\n\r". */
  predicate IsDelimiter(c: char)
  {
    c == '\n' || c == '\r'
  }

  predicate NoDelimiter(s: string)
  {
    forall k :: 0 <= k < |s| ==> !IsDelimiter(s[k])
  }

  predicate AllDelimiters(s: string)
  {
    forall k :: 0 <= k < |s| ==> IsDelimiter(s[k])
  }

  /** The length of the longest delimiter-free prefix of `s`. */
  function TokenLength(s: string): (n: nat)
    ensures n <= |s|
    ensures NoDelimiter(s[..n])
    ensures n < |s| ==> IsDelimiter(s[n])
  {
    if s == [] || IsDelimiter(s[0]) then 0
    else
      var n := 1 + TokenLength(s[1..]);
      assert forall k :: 1 <= k < n ==> s[..n][k] == s[1..][..n - 1][k - 1];
      n
  }

  /** The tokens a fresh tokenizer over `s` hands out, in order. */
  function Tokenize(s: string): (tokens: seq<string>)
    ensures forall t :: t in tokens ==> t != [] && NoDelimiter(t)
    decreases |s|
  {
    if s == [] then []
    else if IsDelimiter(s[0]) then Tokenize(s[1..])
    else
      var n := TokenLength(s);
      [s[..n]] + Tokenize(s[n..])
  }

  /** Delimiters in front of the text do not change its tokens. */
  lemma {:induction false} SkipLeadingDelimiters(s: string, k: nat)
    requires k <= |s| && AllDelimiters(s[..k])
    ensures Tokenize(s) == Tokenize(s[k..])
  {
    if k > 0 {
      assert IsDelimiter(s[..k][0]);
      assert s[1..][..k - 1] == s[..k][1..];
      SkipLeadingDelimiters(s[1..], k - 1);
      assert s[1..][k - 1..] == s[k..];
    }
  }

  /** A text has no tokens exactly when it consists of line breaks only (the empty text included). */
  lemma {:induction false} TokenizeEmpty(s: string)
    ensures Tokenize(s) == [] <==> AllDelimiters(s)
  {
    if AllDelimiters(s) {
      SkipLeadingDelimiters(s, |s|);
      assert s[..|s|] == s;
    } else {
      var j :| 0 <= j < |s| && !IsDelimiter(s[j]);
      var k := 0;
      while k < |s| && IsDelimiter(s[k])
        invariant k <= j && AllDelimiters(s[..k])
      {
        assert s[..k + 1] == s[..k] + [s[k]];
        k := k + 1;
      }
      SkipLeadingDelimiters(s, k);
      assert Tokenize(s[k..]) != [];
    }
  }

  lemma {:induction false} TokenLengthAppend(a: string, rest: string)
    requires rest == [] || IsDelimiter(rest[0])
    ensures TokenLength(a + rest) == TokenLength(a)
  {
    if a != [] && !IsDelimiter(a[0]) {
      assert (a + rest)[1..] == a[1..] + rest;
      TokenLengthAppend(a[1..], rest);
    } else if a == [] {
      assert a + rest == rest;
    }
  }

  /** A line break splits the text in two: the tokens are those of each side, in order. */
  lemma {:induction false} TokenizeAtDelimiter(a: string, d: char, b: string)
    requires IsDelimiter(d)
    ensures Tokenize(a + [d] + b) == Tokenize(a) + Tokenize(b)
    decreases |a|
  {
    var s := a + [d] + b;
    if a == [] {
      assert s[1..] == b;
    } else if IsDelimiter(a[0]) {
      assert s[1..] == a[1..] + [d] + b;
      TokenizeAtDelimiter(a[1..], d, b);
    } else {
      TokenLengthAppend(a, [d] + b);
      assert s == a + ([d] + b);
      var n := TokenLength(a);
      assert s[..n] == a[..n];
      assert s[n..] == a[n..] + [d] + b;
      TokenizeAtDelimiter(a[n..], d, b);
    }
  }

  /** A non-empty text without line breaks is a single token. */
  lemma TokenizeLine(line: string)
    requires line != [] && NoDelimiter(line)
    ensures Tokenize(line) == [line]
  {
    TokenLengthOfLine(line, []);
    assert line + [] == line;
    assert line[..|line|] == line;
  }

  /**
   * The lines `lines` written one after the other with a "\n" between each
   * two of them.
   */
  function JoinLines(lines: seq<string>): string
  {
    if lines == [] then ""
    else if |lines| == 1 then lines[0]
    else lines[0] + "\n" + JoinLines(lines[1..])
  }

  lemma {:induction false} TokenLengthOfLine(line: string, rest: string)
    requires NoDelimiter(line)
    requires rest == [] || IsDelimiter(rest[0])
    ensures TokenLength(line + rest) == |line|
  {
    if line != [] {
      assert (line + rest)[1..] == line[1..] + rest;
      TokenLengthOfLine(line[1..], rest);
    }
  }

  /**
   * Writing non-empty lines without line breaks one per line and tokenizing
   * the result gives the lines back.
   */
  lemma {:induction false} TokenizeJoinLines(lines: seq<string>)
    requires forall l :: l in lines ==> l != [] && NoDelimiter(l)
    ensures Tokenize(JoinLines(lines)) == lines
  {
    if lines != [] {
      var line := lines[0];
      var rest := if |lines| == 1 then "" else "\n" + JoinLines(lines[1..]);
      var s := line + rest;
      assert JoinLines(lines) == s;
      TokenLengthOfLine(line, rest);
      assert s[..|line|] == line;
      assert s[|line|..] == rest;
      if |lines| == 1 {
        assert Tokenize(rest) == [];
      } else {
        assert rest[1..] == JoinLines(lines[1..]);
        assert forall l :: l in lines[1..] ==> l in lines;
        TokenizeJoinLines(lines[1..]);
      }
    }
  }

  /**
   * The tokenizer object: the text it walks over and its current position
   * (StringTokenizer's `currentPosition`).
   */
  class LineTokenizer {
    const text: string
    var position: nat

    ghost predicate Valid()
      reads this
    {
      position <= |text|
    }

    /** The tokens still to be handed out. */
    ghost function Remaining(): seq<string>
      reads this
      requires Valid()
    {
      Tokenize(text[position..])
    }

    /** `new StringTokenizer(text, "\n\r")`. */
    constructor (text: string)
      ensures Valid() && this.text == text
      ensures Remaining() == Tokenize(text)
    {
      this.text := text;
      position := 0;
      new;
      assert text[0..] == text;
    }

    /** `skipDelimiters`: the first position at or after `from` that is not a line break. */
    method SkipDelimiters(from: nat) returns (p: nat)
      requires from <= |text|
      ensures from <= p <= |text|
      ensures AllDelimiters(text[from..p])
      ensures p < |text| ==> !IsDelimiter(text[p])
      ensures Tokenize(text[from..]) == Tokenize(text[p..])
    {
      p := from;
      while p < |text| && IsDelimiter(text[p])
        invariant from <= p <= |text|
        invariant AllDelimiters(text[from..p])
        invariant Tokenize(text[from..]) == Tokenize(text[p..])
      {
        assert text[p..][1..] == text[p + 1..];
        assert text[from..p + 1] == text[from..p] + [text[p]];
        p := p + 1;
      }
    }

    /** `scanToken`: the end of the run of non-delimiters that starts at `from`. */
    method ScanToken(from: nat) returns (q: nat)
      requires from <= |text|
      ensures from <= q <= |text|
      ensures q - from == TokenLength(text[from..])
    {
      q := from;
      while q < |text| && !IsDelimiter(text[q])
        invariant from <= q <= |text|
        invariant TokenLength(text[from..]) == (q - from) + TokenLength(text[q..])
      {
        assert text[q..][1..] == text[q + 1..];
        q := q + 1;
      }
    }

    /** `hasMoreTokens()`: whether a token is left; it does not move the position. */
    method HasMoreTokens() returns (more: bool)
      requires Valid()
      ensures more <==> Remaining() != []
    {
      var p := SkipDelimiters(position);
      more := p < |text|;
    }

    /** `nextToken()`: hands out the next token and moves past it. */
    method NextToken() returns (token: string)
      requires Valid() && Remaining() != []
      modifies this
      ensures Valid()
      ensures token == old(Remaining())[0]
      ensures Remaining() == old(Remaining())[1..]
    {
      var start := SkipDelimiters(position);
      var end := ScanToken(start);
      token := text[start..end];
      position := end;
      assert text[start..][..end - start] == token;
      assert text[start..][end - start..] == text[end..];
    }
  }
}
