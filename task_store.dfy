/**
 * The two text files of the task tracker. `tasks.txt` holds one line
 * "<priority> <text>\n" per pending task, by ascending priority; reading it
 * merges each line into the pending map. `completed.txt` holds one line per
 * completed task, read back with `readlines()`, terminators included.
 */
module TaskStore {
  import opened Options
  import opened Decimal
  import opened Words
  import opened Lines
  import opened Keys

  /** `line[:-1]`: the line without its last character ("" stays ""). */
  function DropLast(line: string): string
  {
    if line == [] then [] else line[..|line| - 1]
  }

  /** The line `write_current` writes for one pending task. */
  function FormatLine(key: int, text: string): string
  {
    IntToString(key) + " " + text + "\n"
  }

  /**
   * How `read_current` reads one line: drop the last character, split at
   * spaces, read the first piece as the priority and join the rest with
   * spaces as the text. `None` where `int()` raises.
   */
  function ParseLine(line: string): Option<(int, string)>
  {
    var items := Split(DropLast(line), ' ');
    match ParseInt(items[0])
    case None => None
    case Some(key) => Some((key, Join(items[1..], ' ')))
  }

  /** A written line reads back as the same priority and text. */
  lemma LineRoundTrip(key: int, text: string)
    ensures ParseLine(FormatLine(key, text)) == Some((key, text))
  {
    var digits := IntToString(key);
    var line := FormatLine(key, text);
    assert DropLast(line) == digits + [' '] + text;
    assert ' ' !in digits by {
      forall i | 0 <= i < |digits| ensures digits[i] != ' ' { }
    }
    SplitAfterWord(digits, text, ' ');
    var items := Split(DropLast(line), ' ');
    assert items[0] == digits && items[1..] == Split(text, ' ');
    IntRoundTrip(key);
    JoinSplit(text, ' ');
  }

  /**
   * No pending text holds a newline or a carriage return (reading would cut
   * its line in two at either).
   */
  predicate SingleLineTexts(pending: map<int, string>) {
    forall k :: k in pending ==> '\n' !in pending[k] && '\r' !in pending[k]
  }

  /** The lines `write_current` writes, one per task, by ascending priority. */
  ghost function CurrentLines(pending: map<int, string>): (lines: seq<string>)
    ensures |lines| == |pending|
  {
    var ks := SortedKeys(pending.Keys);
    seq(|ks|, i requires 0 <= i < |ks| => FormatLine(ks[i], pending[ks[i]]))
  }

  /** The contents of `tasks.txt` after `write_current`. */
  ghost function CurrentText(pending: map<int, string>): string
  {
    Concat(CurrentLines(pending))
  }

  /**
   * Line `i` of the file holds the `i`-th smallest priority and its text,
   * so the lines are in strictly ascending priority order.
   */
  lemma CurrentLineAt(pending: map<int, string>, i: int)
    requires 0 <= i < |pending|
    ensures var ks := SortedKeys(pending.Keys);
      ks[i] in pending && ParseLine(CurrentLines(pending)[i]) == Some((ks[i], pending[ks[i]]))
  {
    var ks := SortedKeys(pending.Keys);
    assert ks[i] in ks;
    LineRoundTrip(ks[i], pending[ks[i]]);
  }

  /**
   * `read_current` over a list of lines: each parsed line overwrites its
   * priority in the existing map; the first line whose priority does not
   * parse ends the read, keeping what the earlier lines did.
   */
  function MergeLines(pending: map<int, string>, lines: seq<string>): map<int, string>
    decreases |lines|
  {
    if lines == [] then pending
    else match ParseLine(lines[0])
      case None => pending
      case Some((key, text)) => MergeLines(pending[key := text], lines[1..])
  }

  /** Reading never removes a priority that was already pending. */
  lemma {:induction false} MergeKeeps(pending: map<int, string>, lines: seq<string>)
    ensures pending.Keys <= MergeLines(pending, lines).Keys
    decreases |lines|
  {
    if lines != [] {
      match ParseLine(lines[0])
      case None =>
      case Some((key, text)) => MergeKeeps(pending[key := text], lines[1..]);
    }
  }

  /** A line that does not parse hides it and every later line. */
  lemma {:induction false} MergeStopsAt(pending: map<int, string>, lines: seq<string>, i: int)
    requires 0 <= i < |lines| && ParseLine(lines[i]).None?
    ensures MergeLines(pending, lines) == MergeLines(pending, lines[..i])
    decreases i
  {
    if i > 0 {
      assert lines[..i][0] == lines[0] && lines[..i][1..] == lines[1..][..i - 1];
      match ParseLine(lines[0])
      case None =>
      case Some((key, text)) => MergeStopsAt(pending[key := text], lines[1..], i - 1);
    }
  }

  /** The tasks whose priorities are listed in `ks`. */
  function Restrict(pending: map<int, string>, ks: seq<int>): map<int, string>
  {
    map k | k in pending && k in ks :: pending[k]
  }

  lemma {:induction false} MergeParsed(acc: map<int, string>, pending: map<int, string>, ks: seq<int>, lines: seq<string>)
    requires |lines| == |ks|
    requires forall i :: 0 <= i < |ks| ==> ks[i] in pending && ParseLine(lines[i]) == Some((ks[i], pending[ks[i]]))
    ensures MergeLines(acc, lines) == acc + Restrict(pending, ks)
    decreases |lines|
  {
    if lines == [] {
      assert Restrict(pending, ks) == map[];
    } else {
      var k := ks[0];
      var next := acc[k := pending[k]];
      assert ParseLine(lines[0]) == Some((k, pending[k]));
      assert MergeLines(acc, lines) == MergeLines(next, lines[1..]);
      forall i | 0 <= i < |ks[1..]|
        ensures ks[1..][i] in pending && ParseLine(lines[1..][i]) == Some((ks[1..][i], pending[ks[1..][i]]))
      {
        assert ks[1..][i] == ks[i + 1] && lines[1..][i] == lines[i + 1];
      }
      MergeParsed(next, pending, ks[1..], lines[1..]);
      RestrictCons(acc, pending, ks);
    }
  }

  lemma RestrictCons(acc: map<int, string>, pending: map<int, string>, ks: seq<int>)
    requires |ks| >= 1 && ks[0] in pending
    ensures acc[ks[0] := pending[ks[0]]] + Restrict(pending, ks[1..]) == acc + Restrict(pending, ks)
  {
    var left := acc[ks[0] := pending[ks[0]]] + Restrict(pending, ks[1..]);
    var right := acc + Restrict(pending, ks);
    forall x | x in ks ensures x == ks[0] || x in ks[1..] {
      var t :| 0 <= t < |ks| && ks[t] == x;
      if t > 0 { assert ks[1..][t - 1] == x; }
    }
    assert left.Keys == right.Keys;
    forall x | x in left ensures left[x] == right[x] { }
  }

  /**
   * Round trip of the pending file: reading what `write_current` wrote into a
   * map `acc` gives `acc` overwritten by every pending task; from an empty
   * map, exactly the pending tasks.
   */
  lemma CurrentRoundTrip(acc: map<int, string>, pending: map<int, string>)
    requires SingleLineTexts(pending)
    ensures MergeLines(acc, ReadLines(CurrentText(pending))) == acc + pending
    ensures MergeLines(map[], ReadLines(CurrentText(pending))) == pending
  {
    var lines := CurrentLines(pending);
    CurrentLinesComplete(pending);
    ReadLinesConcat(lines);
    assert ReadLines(CurrentText(pending)) == lines;
    MergeCurrentLines(acc, pending);
    MergeCurrentLines(map[], pending);
    assert map[] + pending == pending;
  }

  lemma MergeCurrentLines(acc: map<int, string>, pending: map<int, string>)
    ensures MergeLines(acc, CurrentLines(pending)) == acc + pending
  {
    var lines := CurrentLines(pending);
    var ks := SortedKeys(pending.Keys);
    forall i | 0 <= i < |ks|
      ensures ks[i] in pending && ParseLine(lines[i]) == Some((ks[i], pending[ks[i]]))
    {
      CurrentLineAt(pending, i);
    }
    MergeParsed(acc, pending, ks, lines);
    RestrictAll(pending, ks);
  }

  lemma RestrictAll(pending: map<int, string>, ks: seq<int>)
    requires forall k :: k in ks <==> k in pending
    ensures Restrict(pending, ks) == pending
  {
    var r := Restrict(pending, ks);
    forall k ensures k in r <==> k in pending {
      if k in pending { assert k in ks; }
    }
    assert r.Keys == pending.Keys;
    forall k | k in r ensures r[k] == pending[k] { }
  }

  /** Every line written for single-line texts is one complete line. */
  lemma CurrentLinesComplete(pending: map<int, string>)
    requires SingleLineTexts(pending)
    ensures forall i :: 0 <= i < |pending| ==> IsLine(CurrentLines(pending)[i]) && '\r' !in CurrentLines(pending)[i]
  {
    var lines := CurrentLines(pending);
    var ks := SortedKeys(pending.Keys);
    forall i | 0 <= i < |lines| ensures IsLine(lines[i]) && '\r' !in lines[i] {
      assert ks[i] in ks;
      var digits := IntToString(ks[i]);
      var text := pending[ks[i]];
      assert '\n' !in digits && '\r' !in digits by {
        forall j | 0 <= j < |digits| ensures digits[j] != '\n' && digits[j] != '\r' { }
      }
      assert lines[i][..|lines[i]| - 1] == digits + " " + text;
      assert lines[i] == digits + " " + text + "\n";
    }
  }

  /** The contents of `completed.txt` after `write_completed`: each item and a newline. */
  function CompletedText(completed: seq<string>): string
  {
    Concat(seq(|completed|, i requires 0 <= i < |completed| => completed[i] + "\n"))
  }

  /**
   * `read_completed` after `write_completed` does not give the list back:
   * items without a line ending come back with a newline appended.
   */
  lemma CompletedRoundTrip(completed: seq<string>)
    requires forall i :: 0 <= i < |completed| ==> '\n' !in completed[i] && '\r' !in completed[i]
    ensures ReadLines(CompletedText(completed))
         == seq(|completed|, i requires 0 <= i < |completed| => completed[i] + "\n")
  {
    var written := seq(|completed|, i requires 0 <= i < |completed| => completed[i] + "\n");
    forall i | 0 <= i < |written| ensures IsLine(written[i]) && '\r' !in written[i] {
      assert written[i][..|written[i]| - 1] == completed[i];
    }
    ReadLinesConcat(written);
  }

  /** Each item followed by a line holding only a newline. */
  function WithBlankLines(completed: seq<string>): (lines: seq<string>)
    ensures |lines| == 2 * |completed|
  {
    if completed == [] then [] else [completed[0], "\n"] + WithBlankLines(completed[1..])
  }

  /** Line `2i` is item `i` and line `2i + 1` is a bare newline. */
  lemma {:induction false} WithBlankLinesAt(completed: seq<string>, i: int)
    requires 0 <= i < |completed|
    ensures WithBlankLines(completed)[2 * i] == completed[i]
    ensures WithBlankLines(completed)[2 * i + 1] == "\n"
  {
    if i > 0 {
      WithBlankLinesAt(completed[1..], i - 1);
      var rest := WithBlankLines(completed[1..]);
      assert WithBlankLines(completed)[2 * i] == rest[2 * (i - 1)];
      assert WithBlankLines(completed)[2 * i + 1] == rest[2 * (i - 1) + 1];
    }
  }

  /** Complete items give complete lines. */
  lemma {:induction false} WithBlankLinesComplete(completed: seq<string>, j: int)
    requires forall i :: 0 <= i < |completed| ==> IsLine(completed[i]) && '\r' !in completed[i]
    requires 0 <= j < 2 * |completed|
    ensures IsLine(WithBlankLines(completed)[j]) && '\r' !in WithBlankLines(completed)[j]
  {
    if j >= 2 {
      WithBlankLinesComplete(completed[1..], j - 2);
      assert WithBlankLines(completed)[j] == WithBlankLines(completed[1..])[j - 2];
    } else if j == 1 {
      assert "\n"[..0] == [];
    }
  }

  lemma {:induction false} CompletedTextBlank(completed: seq<string>)
    ensures Concat(WithBlankLines(completed)) == CompletedText(completed)
  {
    if completed != [] {
      var chunks := seq(|completed|, i requires 0 <= i < |completed| => completed[i] + "\n");
      var restChunks := seq(|completed| - 1, i requires 0 <= i < |completed| - 1 => completed[1..][i] + "\n");
      assert chunks[1..] == restChunks;
      assert Concat(chunks) == completed[0] + "\n" + Concat(restChunks);
      CompletedTextBlank(completed[1..]);
      var lines := [completed[0], "\n"] + WithBlankLines(completed[1..]);
      assert lines[1..][1..] == WithBlankLines(completed[1..]);
      assert Concat(lines) == completed[0] + ("\n" + Concat(WithBlankLines(completed[1..])));
    }
  }

  /**
   * Items that were themselves read from the file, so each ends in its
   * newline, come back from the next write and read each followed by a line
   * that is empty but for its newline.
   */
  lemma CompletedGrowsBlankLine(completed: seq<string>)
    requires forall i :: 0 <= i < |completed| ==> IsLine(completed[i]) && '\r' !in completed[i]
    ensures ReadLines(CompletedText(completed)) == WithBlankLines(completed)
    ensures forall i :: 0 <= i < |completed| ==>
      ReadLines(CompletedText(completed))[2 * i] == completed[i] && ReadLines(CompletedText(completed))[2 * i + 1] == "\n"
  {
    var lines := WithBlankLines(completed);
    forall i | 0 <= i < |completed| ensures lines[2 * i] == completed[i] && lines[2 * i + 1] == "\n" {
      WithBlankLinesAt(completed, i);
    }
    forall j | 0 <= j < |lines| ensures IsLine(lines[j]) && '\r' !in lines[j] {
      WithBlankLinesComplete(completed, j);
    }
    ReadLinesConcat(lines);
    CompletedTextBlank(completed);
  }

  /**
   * A task line that ends in `"\r\n"`, as written on Windows, is read as the
   * line `write_current` writes for the same priority and text.
   */
  lemma WindowsLine(key: int, text: string)
    requires '\n' !in text && '\r' !in text
    ensures ReadLines(IntToString(key) + " " + text + "\r\n") == [FormatLine(key, text)]
  {
    var digits := IntToString(key);
    var body := digits + " " + text;
    assert '\n' !in digits && '\r' !in digits by {
      forall j | 0 <= j < |digits| ensures digits[j] != '\n' && digits[j] != '\r' { }
    }
    assert '\n' !in body && '\r' !in body;
    CarriageReturnNewline(body, []);
    TranslatePlain([]);
    assert body + "\r\n" + [] == body + "\r\n";
    var line := FormatLine(key, text);
    assert body + "\r\n" == IntToString(key) + " " + text + "\r\n";
    assert TranslateNewlines(body + "\r\n") == line;
    assert line[..|line| - 1] == body;
    assert Concat([line]) == line + Concat([]) == line;
    SplitLinesConcat([line]);
    assert SplitLines(TranslateNewlines(body + "\r\n")) == [line];
  }

  /** A one-task `tasks.txt` with a Windows line ending reads as that task. */
  lemma ReadsWindowsTasksFile(key: int, text: string)
    requires '\n' !in text && '\r' !in text
    ensures MergeLines(map[], ReadLines(IntToString(key) + " " + text + "\r\n")) == map[key := text]
  {
    WindowsLine(key, text);
    var line := FormatLine(key, text);
    LineRoundTrip(key, text);
    assert MergeLines(map[], [line]) == MergeLines(map[key := text], []);
  }
}
