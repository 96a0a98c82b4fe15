/**
 * The task tracker's command object: the pending tasks (priority to text), the
 * completed tasks in completion order, and the contents of the two files it
 * reads and writes, `tasks.txt` and `completed.txt`.
 */
module Tasks {
  import opened Options
  import opened Words
  import opened Lines
  import opened Keys
  import opened Decimal
  import opened TaskStore
  import opened PriorityInsert
  import opened Listing

  /** A key at position `t` of an ascending list does not occur before it. */
  lemma FirstOccurrence(ks: seq<int>, t: int)
    requires Ascending(ks) && 0 <= t < |ks|
    ensures ks[t] !in ks[..t]
    ensures ks[..t + 1] == ks[..t] + [ks[t]]
  {
    forall s | 0 <= s < t ensures ks[..t][s] != ks[t] {
      assert ks[s] < ks[t];
    }
  }

  /** Python's `sorted(d.keys())`, called where the source calls it. */
  method Sorted(keys: set<int>) returns (ks: seq<int>)
    ensures ks == SortedKeys(keys)
  {
    ks := SortedKeysRec(keys);
    SortedKeysComputed(keys);
  }

  lemma AddSteps(before: map<int, string>, priority: int, top: int, text: string)
    requires priority in before && before != map[] && top == SortedKeys(before.Keys)[|before| - 1]
    ensures (before[priority + 1 := before[priority]][top := text] - {priority})[priority := text]
         == AddResult(before, priority, text)
  {
    LastSortedIsMax(before.Keys);
  }

  /** Lines built one per sorted priority are the pending listing. */
  lemma ListingFrom(pending: map<int, string>, keys: seq<int>, lines: seq<string>)
    requires keys == SortedKeys(pending.Keys) && |lines| == |keys|
    requires forall t :: 0 <= t < |keys| ==> keys[t] in pending && lines[t] == ListingLine(t + 1, pending[keys[t]], keys[t])
    ensures lines == PendingListing(pending)
  {
    var listing := PendingListing(pending);
    forall t | 0 <= t < |lines| ensures lines[t] == listing[t] {
    }
  }

  /** Lines written one per sorted priority are the lines of `tasks.txt`. */
  lemma CurrentLinesFrom(pending: map<int, string>, keys: seq<int>, lines: seq<string>)
    requires keys == SortedKeys(pending.Keys) && |lines| == |keys|
    requires forall t :: 0 <= t < |keys| ==> keys[t] in pending && lines[t] == FormatLine(keys[t], pending[keys[t]])
    ensures lines == CurrentLines(pending)
  {
    var expected := CurrentLines(pending);
    forall t | 0 <= t < |lines| ensures lines[t] == expected[t] {
    }
  }

  class TasksCommand {
    /** `current_items`: the text of each pending task by priority. */
    var current: map<int, string>
    /** `completed_items`: completed task texts in completion order. */
    var completed: seq<string>
    /** The contents of `tasks.txt`. */
    var tasksFile: string
    /** The contents of `completed.txt`. */
    var completedFile: string

    constructor (tasksFile: string, completedFile: string)
      ensures current == map[] && completed == []
      ensures this.tasksFile == tasksFile && this.completedFile == completedFile
    {
      current := map[];
      completed := [];
      this.tasksFile := tasksFile;
      this.completedFile := completedFile;
    }

    /**
     * `read_current`: merge every line of `tasks.txt` into the pending map
     * (existing entries are kept unless a line overwrites them); the first
     * line whose priority is not an integer ends the read.
     */
    method ReadCurrent()
      modifies this`current
      ensures current == MergeLines(old(current), ReadLines(tasksFile))
    {
      var lines := ReadLines(tasksFile);
      var i := 0;
      while i < |lines|
        invariant 0 <= i <= |lines|
        invariant MergeLines(current, lines[i..]) == MergeLines(old(current), lines)
      {
        assert lines[i..][0] == lines[i] && lines[i..][1..] == lines[i + 1..];
        var parsed := ParseLine(lines[i]);
        if parsed.None? {
          break;
        }
        current := current[parsed.value.0 := parsed.value.1];
        i := i + 1;
      }
    }

    /** `read_completed`: the completed list becomes the lines of `completed.txt`. */
    method ReadCompleted()
      modifies this`completed
      ensures completed == ReadLines(completedFile)
    {
      completed := ReadLines(completedFile);
    }

    /** `write_current`: rewrite `tasks.txt` with one line per task by ascending priority. */
    method WriteCurrent()
      modifies this`tasksFile
      ensures tasksFile == CurrentText(current)
    {
      var keys := Sorted(current.Keys);
      ghost var written: seq<string> := [];
      tasksFile := "";
      var i := 0;
      while i < |keys|
        invariant 0 <= i <= |keys|
        invariant tasksFile == Concat(written)
        invariant |written| == i
        invariant forall t :: 0 <= t < i ==> keys[t] in current && written[t] == FormatLine(keys[t], current[keys[t]])
      {
        var key := keys[i];
        assert key in keys;
        var line := FormatLine(key, current[key]);
        ConcatAppend(written, line);
        written := written + [line];
        tasksFile := tasksFile + line;
        i := i + 1;
      }
      CurrentLinesFrom(current, keys, written);
    }

    /** `write_completed`: rewrite `completed.txt` with each item followed by a newline. */
    method WriteCompleted()
      modifies this`completedFile
      ensures completedFile == CompletedText(completed)
    {
      ghost var items := completed;
      ghost var chunks := seq(|items|, i requires 0 <= i < |items| => items[i] + "\n");
      completedFile := "";
      var i := 0;
      while i < |completed|
        invariant 0 <= i <= |completed|
        invariant completedFile == Concat(chunks[..i])
      {
        ConcatAppend(chunks[..i], chunks[i]);
        assert chunks[..i + 1] == chunks[..i] + [chunks[i]];
        assert chunks[i] == completed[i] + "\n";
        completedFile := completedFile + (completed[i] + "\n");
        i := i + 1;
      }
      assert chunks[..i] == chunks;
    }

    /**
     * `add`: the words joined with spaces become the task text. At a taken
     * priority, the loop over the sorted priorities has the old text copied
     * one priority up and leaves `priority2` at the largest priority, which
     * is then overwritten with the new text; finally the new text is stored
     * at the priority and `tasks.txt` is rewritten.
     */
    method Add(priority: int, words: seq<string>)
      modifies this`current, this`tasksFile
      ensures current == AddResult(old(current), priority, Join(words, ' '))
      ensures tasksFile == CurrentText(current)
    {
      var text := Join(words, ' ');
      if priority in current {
        ghost var before := current;
        var priority2 := priority;
        var keys := Sorted(current.Keys);
        var j := 0;
        while j < |keys|
          invariant 0 <= j <= |keys|
          invariant priority !in keys[..j] ==> current == before
          invariant priority in keys[..j] ==> current == before[priority + 1 := before[priority]]
          invariant 0 < j ==> priority2 == keys[j - 1]
        {
          FirstOccurrence(keys, j);
          priority2 := keys[j];
          if priority2 == priority {
            CopyUp(priority);
          }
          j := j + 1;
        }
        assert keys[..j] == keys && priority in keys;
        assert priority2 == keys[|keys| - 1];
        AddSteps(before, priority, priority2, text);
        current := current[priority2 := text];
        current := current - {priority};
      }
      current := current[priority := text];
      WriteCurrent();
    }

    /**
     * The inner loop of `add`: over the sorted priorities, the text at
     * `priority` is copied to `priority + 1`, overwriting what was there.
     */
    method CopyUp(priority: int)
      requires priority in current
      modifies this`current
      ensures current == old(current)[priority + 1 := old(current)[priority]]
    {
      ghost var before := current;
      var keys := Sorted(current.Keys);
      var t := 0;
      while t < |keys|
        invariant 0 <= t <= |keys|
        invariant priority !in keys[..t] ==> current == before
        invariant priority in keys[..t] ==> current == before[priority + 1 := before[priority]]
      {
        FirstOccurrence(keys, t);
        var i := keys[t];
        assert i in keys;
        if i == priority {
          current := current[i + 1 := current[i]];
        }
        t := t + 1;
      }
      assert keys[..t] == keys && priority in keys;
    }

    /**
     * `done`: a priority that is not pending raises at the lookup, before the
     * append, so nothing changes. Otherwise its text is appended to the
     * completed list, it leaves the pending map, and both files are rewritten.
     */
    method Done(priority: int) returns (found: bool)
      modifies this`current, this`completed, this`tasksFile, this`completedFile
      ensures found == (priority in old(current))
      ensures found ==> (current == old(current) - {priority}
                         && completed == old(completed) + [old(current)[priority]]
                         && tasksFile == CurrentText(current)
                         && completedFile == CompletedText(completed))
      ensures !found ==> (current == old(current) && completed == old(completed)
                          && tasksFile == old(tasksFile) && completedFile == old(completedFile))
    {
      if priority !in current {
        return false;
      }
      completed := completed + [current[priority]];
      current := current - {priority};
      WriteCurrent();
      WriteCompleted();
      found := true;
    }

    /**
     * `delete`: a priority that is not pending changes nothing; otherwise that
     * one entry is removed and `tasks.txt` is rewritten.
     */
    method Delete(priority: int) returns (found: bool)
      modifies this`current, this`tasksFile
      ensures found == (priority in old(current))
      ensures found ==> current == old(current) - {priority} && tasksFile == CurrentText(current)
      ensures !found ==> current == old(current) && tasksFile == old(tasksFile)
    {
      if priority !in current {
        return false;
      }
      current := current - {priority};
      WriteCurrent();
      found := true;
    }

    /** `ls`: the pending tasks numbered from 1 by ascending priority. */
    method Ls() returns (lines: seq<string>)
      ensures lines == PendingListing(current)
    {
      var keys := Sorted(current.Keys);
      lines := [];
      var i := 0;
      while i < |keys|
        invariant 0 <= i <= |keys|
        invariant |lines| == i
        invariant forall t :: 0 <= t < i ==> keys[t] in current && lines[t] == ListingLine(t + 1, current[keys[t]], keys[t])
      {
        var key := keys[i];
        assert key in keys;
        lines := lines + [ListingLine(i + 1, current[key], key)];
        i := i + 1;
      }
      ListingFrom(current, keys, lines);
    }

    /**
     * `report`: the number of pending tasks and their listing, then (after a
     * blank line) the number of completed tasks and their numbered texts.
     */
    method Report() returns (lines: seq<string>)
      ensures lines == ["Pending : " + IntToString(|current|)] + PendingListing(current)
                     + ["\nCompleted : " + IntToString(|completed|)] + CompletedListing(completed)
    {
      var pending := Ls();
      lines := ["Pending : " + IntToString(|current|)] + pending
             + ["\nCompleted : " + IntToString(|completed|)];
      ghost var head := lines;
      var i := 0;
      while i < |completed|
        invariant 0 <= i <= |completed|
        invariant lines == head + CompletedListing(completed)[..i]
      {
        lines := lines + [IntToString(i + 1) + ". " + completed[i]];
        i := i + 1;
      }
    }
  }
}
