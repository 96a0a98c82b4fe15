/**
 * Line structure of a text file: what a sequence of `write` calls leaves in the
 * file (their concatenation) and what Python's `readlines()` returns for it.
 */
module Lines {
  /** The file contents after writing each string in turn. */
  function Concat(chunks: seq<string>): string
  {
    if chunks == [] then "" else chunks[0] + Concat(chunks[1..])
  }

  /**
   * Reading a file opened in text mode: `"\r\n"` and a lone `"\r"` are each
   * read as one `"\n"` (Python's universal newlines).
   */
  function TranslateNewlines(s: string): (t: string)
    ensures '\r' !in t
  {
    if s == [] then []
    else if s[0] == '\r' then
      if |s| >= 2 && s[1] == '\n' then "\n" + TranslateNewlines(s[2..])
      else "\n" + TranslateNewlines(s[1..])
    else [s[0]] + TranslateNewlines(s[1..])
  }

  /** Text before the first carriage return is read as written. */
  lemma {:induction false} TranslateAfterPlain(a: string, b: string)
    requires '\r' !in a
    ensures TranslateNewlines(a + b) == a + TranslateNewlines(b)
  {
    if a == [] {
      assert a + b == b;
    } else {
      var s := a + b;
      assert a[0] in a;
      assert s[0] == a[0] && s[1..] == a[1..] + b;
      assert '\r' !in a[1..] by {
        assert forall c :: c in a[1..] ==> c in a;
      }
      TranslateAfterPlain(a[1..], b);
      assert a == [a[0]] + a[1..];
    }
  }

  /** Text without carriage returns is read as written. */
  lemma TranslatePlain(s: string)
    requires '\r' !in s
    ensures TranslateNewlines(s) == s
  {
    TranslateAfterPlain(s, []);
    assert s + [] == s;
  }

  /** No newline before the last character. */
  predicate NoEarlyNewline(l: string) {
    forall j :: 0 <= j < |l| - 1 ==> l[j] != '\n'
  }

  /**
   * The text cut after every newline, each line keeping its terminator; a
   * final fragment without one is a line of its own.
   */
  function SplitLines(s: string): (lines: seq<string>)
    ensures Concat(lines) == s
    ensures forall i :: 0 <= i < |lines| ==> lines[i] != "" && NoEarlyNewline(lines[i])
    ensures forall i :: 0 <= i < |lines| - 1 ==> lines[i][|lines[i]| - 1] == '\n'
  {
    if s == [] then []
    else
      var rest := SplitLines(s[1..]);
      if s[0] == '\n' || rest == [] then [[s[0]]] + rest
      else
        var first := [s[0]] + rest[0];
        assert NoEarlyNewline(first) by {
          assert NoEarlyNewline(rest[0]);
          forall j | 1 <= j < |first| - 1 ensures first[j] != '\n' {
            assert first[j] == rest[0][j - 1];
          }
        }
        [first] + rest[1..]
  }

  /**
   * `readlines()` on a file opened for reading: the text with its line endings
   * translated, cut after every newline. Every line but the last ends in a
   * newline, no line holds a newline before its end, and none holds `'\r'`.
   */
  function ReadLines(s: string): (lines: seq<string>)
    ensures Concat(lines) == TranslateNewlines(s)
    ensures forall i :: 0 <= i < |lines| ==> lines[i] != "" && '\r' !in lines[i] && NoEarlyNewline(lines[i])
    ensures forall i :: 0 <= i < |lines| - 1 ==> lines[i][|lines[i]| - 1] == '\n'
  {
    var lines := SplitLines(TranslateNewlines(s));
    forall i | 0 <= i < |lines| ensures '\r' !in lines[i] {
      ConcatHolds(lines, i);
    }
    lines
  }

  /** Every character of a written chunk is in the file. */
  lemma {:induction false} ConcatHolds(chunks: seq<string>, i: int)
    requires 0 <= i < |chunks|
    ensures forall c :: c in chunks[i] ==> c in Concat(chunks)
  {
    if i > 0 {
      ConcatHolds(chunks[1..], i - 1);
    }
  }

  /** A character no chunk holds is not in the file. */
  lemma {:induction false} ConcatAvoids(chunks: seq<string>, c: char)
    requires forall i :: 0 <= i < |chunks| ==> c !in chunks[i]
    ensures c !in Concat(chunks)
  {
    if chunks != [] {
      ConcatAvoids(chunks[1..], c);
    }
  }

  /** One complete line: ends with a newline and holds no other. */
  predicate IsLine(l: string) {
    |l| >= 1 && l[|l| - 1] == '\n' && '\n' !in l[..|l| - 1]
  }

  lemma {:induction false} ConcatAppend(chunks: seq<string>, last: string)
    ensures Concat(chunks + [last]) == Concat(chunks) + last
  {
    if chunks != [] {
      assert (chunks + [last])[1..] == chunks[1..] + [last];
      ConcatAppend(chunks[1..], last);
    }
  }

  /** Cutting a text that starts with one complete line. */
  lemma {:induction false} SplitLinesFirst(l: string, rest: string)
    requires IsLine(l)
    ensures SplitLines(l + rest) == [l] + SplitLines(rest)
  {
    var s := l + rest;
    if |l| == 1 {
      assert s[1..] == rest;
    } else {
      var l' := l[1..];
      assert l'[..|l'| - 1] == l[..|l| - 1][1..];
      assert s[1..] == l' + rest;
      SplitLinesFirst(l', rest);
      assert l[0] != '\n' by { assert l[0] == l[..|l| - 1][0]; }
      assert [l[0]] + l' == l;
    }
  }

  /** Complete lines written one after the other are cut back into those lines. */
  lemma {:induction false} SplitLinesConcat(lines: seq<string>)
    requires forall i :: 0 <= i < |lines| ==> IsLine(lines[i])
    ensures SplitLines(Concat(lines)) == lines
  {
    if lines != [] {
      SplitLinesConcat(lines[1..]);
      SplitLinesFirst(lines[0], Concat(lines[1..]));
    }
  }

  /**
   * Complete lines without a carriage return, written one after the other,
   * are read back unchanged.
   */
  lemma ReadLinesConcat(lines: seq<string>)
    requires forall i :: 0 <= i < |lines| ==> IsLine(lines[i]) && '\r' !in lines[i]
    ensures ReadLines(Concat(lines)) == lines
  {
    ConcatAvoids(lines, '\r');
    TranslatePlain(Concat(lines));
    SplitLinesConcat(lines);
  }

  /**
   * A carriage return not followed by a newline (an old Mac line ending) is
   * read as a newline.
   */
  lemma LoneCarriageReturn(a: string, b: string)
    requires '\r' !in a
    requires b == [] || b[0] != '\n'
    ensures TranslateNewlines(a + "\r" + b) == a + "\n" + TranslateNewlines(b)
  {
    TranslateAfterPlain(a, "\r" + b);
    assert ("\r" + b)[1..] == b;
    assert a + "\r" + b == a + ("\r" + b);
  }

  /** A carriage return and newline pair (a Windows line ending) is read as one newline. */
  lemma CarriageReturnNewline(a: string, b: string)
    requires '\r' !in a
    ensures TranslateNewlines(a + "\r\n" + b) == a + "\n" + TranslateNewlines(b)
  {
    TranslateAfterPlain(a, "\r\n" + b);
    assert ("\r\n" + b)[2..] == b;
    assert a + "\r\n" + b == a + ("\r\n" + b);
  }
}
