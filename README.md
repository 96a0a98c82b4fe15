# Task tracker command object, in Dafny

This project models `TasksCommand` from `solve_me.py`, a command-line tracker of prioritised tasks. The object keeps:

- `current_items`: a dictionary from integer priority to task text;
- `completed_items`: the list of completed task texts, in completion order;
- two text files, `tasks.txt` and `completed.txt`, that it reads at start-up and rewrites after each change.

The model is the class `Tasks.TasksCommand` (file `tasks_command.dfy`). Its fields are `current`, `completed` and the contents of the two files, `tasksFile` and `completedFile`. Its methods follow the source's methods loop for loop:

- `ReadCurrent`, `ReadCompleted`, `WriteCurrent`, `WriteCompleted`: the file readers and writers;
- `Add`, with its inner copy loop in `CopyUp`;
- `Done` and `Delete`;
- `Ls` and `Report`, which return the lines the source prints.

Each method is proved against a specification function in the pure modules:

- `Decimal`: `str(int)`, and `int(str)` on signed decimal literals.
- `Words`: `str.split(" ")` and `" ".join`.
- `Lines`: `readlines()` on a file opened in text mode (so `"\r\n"` and `"\r"` read as `"\n"`), and the file text left by successive writes.
- `Keys`: `sorted(d.keys())`, the largest key, and the rank of a key.
- `TaskStore`: the line format `"<priority> <text>\n"` of `tasks.txt`, how `read_current` merges lines, and the format of `completed.txt`.
- `PriorityInsert`: the effect of `add` on the pending map, plus the "shift the run" insertion that the comment at solve_me.py:71 intends, as a reference.
- `Listing`: the `"<rank>. <text> [<priority>]"` lines of `ls` and `report`.

### Where the intent and the code disagree (the model follows the code)

- **`add` at a taken priority.** The comment at solve_me.py:71 says the existing task's priority is increased by one. Carried through, that moves the whole run of consecutive taken priorities from `p` up by one, so no task is lost. The code does something else:
  - It copies the text at `p` to `p + 1`.
  - Its loop variable ends on the largest pending priority, and it writes the new text there.
  - It then sets `p` to the new text.

  The results agree exactly when `p` is free, or is the largest pending priority, or has `p + 1` free while the largest pending priority already holds the new text (`AddMatchesShiftRun`). Otherwise tasks are lost (`AddLosesTasks`): adding "x" at 2 to {1:"a", 2:"b", 3:"c"} gives {1:"a", 2:"x", 3:"x"}. `Add` is proved equal to this as-written result, `AddResult`. The intended rule is kept as the reference `ShiftRun`, with its own no-loss lemmas.
- **`read_current` does not clear the map first.** It merges into whatever the dictionary already holds (solve_me.py:13). `MergeLines` models this.
- **Completed tasks gain a newline on every save and reload.** `read_completed` keeps each line's `"\n"` (solve_me.py:21), and `write_completed` adds another (solve_me.py:36). So a save followed by a reload is not the identity (`CompletedRoundTrip`, `CompletedGrowsBlankLine`).
- **Delete command name.** The usage text calls the command `del` (solve_me.py:59), but the dispatcher matches `delete` (solve_me.py:45).

## Model

| member | source | states |
|---|---|---|
| `Decimal.IntToString` | solve_me.py:30 | `str(key)` is non-empty and made only of a minus sign and decimal digits, so it holds no space and no newline |
| `Decimal.IntRoundTrip` | solve_me.py:13 | `int()` applied to the text `str()` wrote for a priority gives back that priority |
| `Decimal.RejectsNonNumeric` | solve_me.py:13 | a priority field with no digit and no sign is not an integer, so `int()` raises |
| `Words.Split` | solve_me.py:12 | `split(" ")` yields at least one piece, and no piece contains a space |
| `Words.JoinSplit` | solve_me.py:13 | joining the pieces of a split with the separator restores the original text |
| `Words.SplitAfterWord` | solve_me.py:12 | a first word with no space splits off as the first piece, and the rest splits on its own |
| `Words.SplitJoin` | solve_me.py:68 | splitting a join of space-free words gives back the words |
| `Lines.TranslateNewlines` | solve_me.py:10 | what a file opened in text mode reads as holds no carriage return |
| `Lines.TranslatePlain` | solve_me.py:10 | a text without carriage returns is read exactly as written |
| `Lines.CarriageReturnNewline` | solve_me.py:10 | a `"\r\n"` ending after text without carriage returns is read as one `"\n"`, and the rest is read on its own |
| `Lines.LoneCarriageReturn` | solve_me.py:10 | a `"\r"` not followed by a newline, after text without carriage returns, is read as `"\n"`, and the rest is read on its own |
| `Lines.ReadLines` | solve_me.py:11 | `readlines()` cuts the translated file into non-empty lines whose concatenation is the translated file; every line but the last ends in a newline, no line holds a newline before its end, and no line holds a carriage return |
| `Lines.ReadLinesConcat` | solve_me.py:21 | complete lines, each ending in one newline and holding no carriage return, written one after another are read back as the same lines |
| `Keys.SortedKeys` | solve_me.py:29 | `sorted(keys)` is strictly ascending, has as many entries as there are keys, and lists exactly the keys |
| `Keys.SortedKeysComputed` | solve_me.py:29 | the enumeration the code computes (smallest remaining key first) is that sorted list |
| `Keys.LastSortedIsMax` | solve_me.py:72 | the last key of the sorted list, where the loop variable of `add` stops, is the largest pending priority |
| `Keys.SortedKeysRank` | solve_me.py:109 | the key at position `i` of the sorted list has exactly `i + 1` keys at or below it |
| `Tasks.Sorted` | solve_me.py:72 | the keys snapshot that the `add` and `write_current` loops iterate over is the ascending key list |
| `TaskStore.LineRoundTrip` | solve_me.py:12-13 | for any priority and any text, including texts with spaces or empty ones, parsing the line written for them (drop the newline, split on spaces, `int` the first piece, join the rest) gives back that priority and text |
| `TaskStore.CurrentLineAt` | solve_me.py:29-30 | line `i` of `tasks.txt` holds the `i`-th smallest pending priority and its text, so lines are in strictly ascending priority order |
| `TaskStore.MergeKeeps` | solve_me.py:13 | reading `tasks.txt` never removes a priority already in the dictionary |
| `TaskStore.MergeStopsAt` | solve_me.py:11-16 | the first line whose priority is not an integer ends the read; earlier lines stay merged and later lines are ignored |
| `TaskStore.CurrentRoundTrip` | solve_me.py:8-16 | reading back what `write_current` wrote, for texts without a newline or a carriage return, overwrites the existing map with every pending task; from an empty map it gives exactly the pending tasks |
| `TaskStore.CompletedRoundTrip` | solve_me.py:18-24 | reading back what `write_completed` wrote gives each item that has no newline and no carriage return with a newline appended, not the list itself |
| `TaskStore.CompletedGrowsBlankLine` | solve_me.py:35-36 | items that were read with their newline (complete lines without a carriage return), written and read again, come back each followed by an extra line holding only a newline: twice as many lines |
| `TaskStore.WindowsLine` | solve_me.py:10-11 | a task line ending in `"\r\n"` is read as the line `write_current` writes for the same priority and text |
| `TaskStore.ReadsWindowsTasksFile` | solve_me.py:8-16 | a one-task `tasks.txt` with a `"\r\n"` ending reads as exactly that task, without a trailing carriage return |
| `PriorityInsert.AddPlacesText` | solve_me.py:79 | after `add(p, text)`, `p` holds `text`, whatever was pending before |
| `PriorityInsert.AddAtFree` | solve_me.py:69-79 | at a free priority, `add` inserts just that entry, and every other priority keeps its text |
| `PriorityInsert.AddKeys` | solve_me.py:69-79 | `add` never removes a priority: the keys afterwards are the old keys plus `p`, plus `p + 1` when `p` was taken |
| `PriorityInsert.AddAtTop` | solve_me.py:69-79 | at a taken priority that is the largest one, the old text moves to `p + 1` (which was free), the new text takes `p`, and nothing else changes |
| `PriorityInsert.AddOverwritesTop` | solve_me.py:72-77 | at a taken priority below the largest, the largest priority's task is overwritten with the new text |
| `PriorityInsert.AddLosesTasks` | solve_me.py:65-79 | adding "x" at 2 to {1:"a", 2:"b", 3:"c"} gives {1:"a", 2:"x", 3:"x"}; no task keeps "b" or "c" |
| `PriorityInsert.AddTwiceAtSamePriority` | solve_me.py:69-79 | from an empty map, adding "hello" at 2 and then "world" at 2 gives {2:"world", 3:"hello"} |
| `PriorityInsert.RunEnd` | solve_me.py:71 | the end of the run is the first free priority at or above `p`, and every priority from `p` up to it is taken |
| `PriorityInsert.ShiftRunKeeps` | solve_me.py:71 | the intended insertion keeps every old task's text, at its priority moved up by one inside the run and unchanged outside it |
| `PriorityInsert.ShiftRunGrows` | solve_me.py:71 | the intended insertion puts the new text at `p` and leaves exactly one task more than before |
| `PriorityInsert.ShiftRunExample` | solve_me.py:71 | the intended insertion of "x" at 2 into {1:"a", 2:"b", 3:"c"} gives {1:"a", 2:"x", 3:"b", 4:"c"} |
| `PriorityInsert.AddMatchesShiftRun` | solve_me.py:69-79 | the code's `add` equals the intended insertion if and only if `p` is free, or is the largest pending priority, or has `p + 1` free while the largest priority already holds the new text |
| `Listing.ListingShowsEach` | solve_me.py:109-110 | every pending task appears on the line numbered with its rank among the pending priorities (1 to n), showing its text and priority |
| `Listing.RankIncreasing` | solve_me.py:109 | a smaller priority has a smaller rank, so it is listed earlier |
| `Tasks.TasksCommand.constructor` | solve_me.py:1-6 | a fresh object has no pending and no completed tasks, and holds the given file contents |
| `Tasks.TasksCommand.ReadCurrent` | solve_me.py:8-16 | the dictionary becomes the old dictionary merged, line by line, with the parsed lines of `tasks.txt`, up to the first unparsable line |
| `Tasks.TasksCommand.ReadCompleted` | solve_me.py:18-24 | the completed list becomes the lines of `completed.txt`, terminators included, with `"\r\n"` and `"\r"` endings read as `"\n"` |
| `Tasks.TasksCommand.WriteCurrent` | solve_me.py:26-30 | `tasks.txt` becomes one `"<priority> <text>\n"` line per pending task, by ascending priority |
| `Tasks.TasksCommand.WriteCompleted` | solve_me.py:32-36 | `completed.txt` becomes each completed item followed by a newline, in list order |
| `Tasks.TasksCommand.Add` | solve_me.py:65-81 | the loops over the sorted key snapshot leave the dictionary equal to `AddResult` for the text of the joined words, and `tasks.txt` is rewritten from it |
| `Tasks.TasksCommand.CopyUp` | solve_me.py:74-76 | the inner loop copies the text at `p` to `p + 1` and changes nothing else |
| `Tasks.TasksCommand.Done` | solve_me.py:83-94 | if `p` is pending, it leaves the dictionary and appends exactly its text to the completed list, and both files are rewritten; if not, the lookup fails before anything changes |
| `Tasks.TasksCommand.Delete` | solve_me.py:96-105 | if `p` is pending, exactly that entry is removed and `tasks.txt` is rewritten; if not, nothing changes |
| `Tasks.TasksCommand.Ls` | solve_me.py:107-110 | the printed lines are the pending listing: `"<rank>. <text> [<priority>]"` by ascending priority, ranks 1 to n |
| `Tasks.TasksCommand.Report` | solve_me.py:112-119 | the printed lines are the pending count, the pending listing, the completed count, and the completed items numbered from 1 in list order |

## Left out

- File opening, truncation and closing, and the `try`/`except Exception: pass` around the reads. The files are string fields. A missing `tasks.txt` or `completed.txt` behaves like an empty one, whose contents the caller supplies to the constructor.
- The printed confirmation and error messages of `add`, `done` and `delete`, and the `help` text. `Done` and `Delete` return whether the priority was pending in place of the error message.
- The `run` dispatcher. It only maps a command word to one of the modelled methods after calling both readers.
- `current_items` and `completed_items` being class attributes, and so shared by all instances. In the model they are ordinary per-object fields.
- Decimal.ParseInt: covers only Python's `int()` on an optional sign followed by ASCII digits. It does not cover the surrounding whitespace, `_` separators or non-ASCII digits that `int()` also accepts, since the task file never contains them when written by `write_current`.
- `int(args[0])` failing on a non-numeric command-line argument: `Add`, `Done` and `Delete` take the priority as an integer.
- TaskStore.CurrentRoundTrip: holds only for texts without a newline or a carriage return. Either character in a text splits its line of `tasks.txt` into two on the next read. What the read then does with the second fragment is not stated.
- `solve_me.py` has no web front end, so none is modelled.
