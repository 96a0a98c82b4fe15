/**
 * What `add` does to the pending map. `AddResult` is the effect of the code as
 * written: when the priority is taken, the old text is copied one priority up,
 * the largest pending priority (where the loop over the sorted keys stops) is
 * overwritten with the new text, and the new text is put at the priority.
 * `ShiftRun` is the behaviour the comment at solve_me.py:71 intends, moving
 * the whole run of consecutive taken priorities up by one. The two agree when
 * the priority is free or is the largest one, and otherwise (but for a
 * coincidence of texts) differ.
 */
module PriorityInsert {
  import opened Keys

  /** The pending map after `add(priority, text)`, as the code computes it. */
  function AddResult(pending: map<int, string>, priority: int, text: string): map<int, string>
  {
    if priority in pending then
      var top := MaxKey(pending.Keys);
      var copied := pending[priority + 1 := pending[priority]];
      (copied[top := text] - {priority})[priority := text]
    else pending[priority := text]
  }

  /** Whatever was pending before, the priority ends up holding the new text. */
  lemma AddPlacesText(pending: map<int, string>, priority: int, text: string)
    ensures priority in AddResult(pending, priority, text)
    ensures AddResult(pending, priority, text)[priority] == text
  {
  }

  /** At a free priority the task is inserted and nothing else changes. */
  lemma AddAtFree(pending: map<int, string>, priority: int, text: string)
    requires priority !in pending
    ensures AddResult(pending, priority, text).Keys == pending.Keys + {priority}
    ensures forall k :: k in pending ==> AddResult(pending, priority, text)[k] == pending[k]
  {
  }

  /**
   * No priority is ever removed: afterwards the pending priorities are the old
   * ones, the new one, and the one above it when the new one was taken.
   */
  lemma AddKeys(pending: map<int, string>, priority: int, text: string)
    ensures AddResult(pending, priority, text).Keys
         == pending.Keys + {priority} + (if priority in pending then {priority + 1} else {})
  {
  }

  /**
   * At a taken priority that is also the largest one, the old text moves one
   * up, the new text takes its place, and nothing else changes.
   */
  lemma AddAtTop(pending: map<int, string>, priority: int, text: string)
    requires priority in pending && priority == MaxKey(pending.Keys)
    ensures priority + 1 !in pending
    ensures AddResult(pending, priority, text) == pending[priority := text][priority + 1 := pending[priority]]
  {
    var r := AddResult(pending, priority, text);
    var expected := pending[priority := text][priority + 1 := pending[priority]];
    assert r.Keys == expected.Keys;
    forall k | k in r ensures r[k] == expected[k] { }
  }

  /**
   * At a taken priority below the largest one, the new text is written twice:
   * at the priority and at the largest priority, whose task is overwritten.
   */
  lemma AddOverwritesTop(pending: map<int, string>, priority: int, text: string)
    requires priority in pending && priority != MaxKey(pending.Keys)
    ensures var top := MaxKey(pending.Keys);
      priority < top && top in AddResult(pending, priority, text)
      && AddResult(pending, priority, text)[top] == text
  {
  }

  /** Every priority from `lo` up to but excluding `hi` is taken. */
  predicate AllTaken(pending: map<int, string>, lo: int, hi: int) {
    forall k :: lo <= k < hi ==> k in pending
  }

  /**
   * The first free priority at or above `priority`: the end of the run of
   * consecutive taken priorities that starts there.
   */
  function RunEnd(pending: map<int, string>, priority: int): (e: int)
    ensures priority <= e && e !in pending
    ensures AllTaken(pending, priority, e)
    decreases |pending|
  {
    if priority in pending then
      var rest := pending - {priority};
      assert rest.Keys == pending.Keys - {priority};
      assert |rest| < |pending| by {
        assert |rest.Keys| < |pending.Keys|;
      }
      var e := RunEnd(rest, priority + 1);
      assert forall k :: k in rest ==> k in pending;
      e
    else priority
  }

  /**
   * The intended `add`: at a taken priority, every task of the run from the
   * priority up to the first free one moves up by one; then the new task is
   * placed at the priority.
   */
  function ShiftRun(pending: map<int, string>, priority: int, text: string): map<int, string>
  {
    if priority !in pending then pending[priority := text]
    else
      var e := RunEnd(pending, priority);
      map k | k in pending.Keys + {e} ::
        if k == priority then text else if priority < k <= e then pending[k - 1] else pending[k]
  }

  /** Where `ShiftRun` puts the task that was at `k`. */
  function Moved(pending: map<int, string>, priority: int, k: int): int
  {
    if priority in pending && priority <= k < RunEnd(pending, priority) then k + 1 else k
  }

  /**
   * The intended `add` loses nothing: every old task keeps its text at its
   * moved priority (and the new task sits at the priority, as `AddPlacesText`
   * states for both versions).
   */
  lemma ShiftRunKeeps(pending: map<int, string>, priority: int, text: string, k: int)
    requires k in pending
    ensures Moved(pending, priority, k) in ShiftRun(pending, priority, text)
    ensures ShiftRun(pending, priority, text)[Moved(pending, priority, k)] == pending[k]
  {
    var r := ShiftRun(pending, priority, text);
    if priority in pending {
      var e := RunEnd(pending, priority);
      if priority <= k < e {
        assert Moved(pending, priority, k) == k + 1;
        assert k + 1 in r;
        assert r[k + 1] == pending[k];
      } else {
        assert Moved(pending, priority, k) == k;
        assert k != priority;
        assert k in r;
      }
    }
  }

  /** With the intended `add` there is always exactly one task more than before. */
  lemma ShiftRunGrows(pending: map<int, string>, priority: int, text: string)
    ensures priority in ShiftRun(pending, priority, text)
    ensures ShiftRun(pending, priority, text)[priority] == text
    ensures |ShiftRun(pending, priority, text)| == |pending| + 1
  {
    var r := ShiftRun(pending, priority, text);
    if priority in pending {
      var e := RunEnd(pending, priority);
      assert r.Keys == pending.Keys + {e};
      assert |r.Keys| == |pending.Keys| + 1;
    } else {
      assert r.Keys == pending.Keys + {priority};
      assert |r.Keys| == |pending.Keys| + 1;
    }
  }

  /**
   * The code's `add` gives the intended result exactly when the priority is
   * free, or is the largest pending priority, or has a free priority above it
   * while the largest pending priority already holds the new text (so that
   * overwriting it changes nothing).
   */
  lemma AddMatchesShiftRun(pending: map<int, string>, priority: int, text: string)
    ensures AddResult(pending, priority, text) == ShiftRun(pending, priority, text)
        <==> (priority !in pending || priority == MaxKey(pending.Keys)
              || (priority + 1 !in pending && pending[MaxKey(pending.Keys)] == text))
  {
    if priority in pending {
      var top := MaxKey(pending.Keys);
      if priority == top {
        AddAtTop(pending, priority, text);
        ShiftRunOfOne(pending, priority, text);
      } else if priority + 1 in pending {
        var e := RunEnd(pending, priority);
        assert e != priority && e != priority + 1;
        assert e in ShiftRun(pending, priority, text);
        AddKeys(pending, priority, text);
        assert e !in AddResult(pending, priority, text);
      } else {
        ShiftRunOfOne(pending, priority, text);
        AddOverwritesTop(pending, priority, text);
        var a := AddResult(pending, priority, text);
        var r := ShiftRun(pending, priority, text);
        assert top != priority + 1;
        assert r[top] == pending[top];
        if pending[top] == text {
          AddKeys(pending, priority, text);
          assert a.Keys == r.Keys;
          forall k | k in a ensures a[k] == r[k] { }
        }
      }
    }
  }

  /** A run of one task: it moves up by one and the new task takes its place. */
  lemma ShiftRunOfOne(pending: map<int, string>, priority: int, text: string)
    requires priority in pending && priority + 1 !in pending
    ensures ShiftRun(pending, priority, text) == pending[priority := text][priority + 1 := pending[priority]]
  {
    var e := RunEnd(pending, priority);
    assert e == priority + 1;
    var r := ShiftRun(pending, priority, text);
    var expected := pending[priority := text][priority + 1 := pending[priority]];
    assert r.Keys == expected.Keys;
    forall k | k in r ensures r[k] == expected[k] {
      if k == priority + 1 {
        assert r[k] == pending[priority];
      }
    }
  }

  /**
   * Below the largest priority the code loses tasks: adding "x" at 2 to
   * {1:"a", 2:"b", 3:"c"} leaves {1:"a", 2:"x", 3:"x"}, so "b" and "c" are gone.
   */
  lemma AddLosesTasks(pending: map<int, string>)
    requires pending == map[1 := "a", 2 := "b", 3 := "c"]
    ensures AddResult(pending, 2, "x") == map[1 := "a", 2 := "x", 3 := "x"]
    ensures forall k :: k in AddResult(pending, 2, "x") ==> AddResult(pending, 2, "x")[k] !in {"b", "c"}
  {
    var top := MaxKey(pending.Keys);
    assert top == 3 by {
      assert pending.Keys == {1, 2, 3};
    }
    var a := AddResult(pending, 2, "x");
    assert a == (pending[3 := "b"][3 := "x"] - {2})[2 := "x"];
    assert a == map[1 := "a", 2 := "x", 3 := "x"];
  }

  /** The intended `add` of the same example gives {1:"a", 2:"x", 3:"b", 4:"c"}. */
  lemma ShiftRunExample()
    ensures ShiftRun(map[1 := "a", 2 := "b", 3 := "c"], 2, "x") == map[1 := "a", 2 := "x", 3 := "b", 4 := "c"]
  {
    var pending := map[1 := "a", 2 := "b", 3 := "c"];
    var e := RunEnd(pending, 2);
    assert e == 4 by {
      assert 4 !in pending && AllTaken(pending, 2, e);
    }
    var r := ShiftRun(pending, 2, "x");
    assert r.Keys == {1, 2, 3, 4};
    assert r[3] == "b" && r[4] == "c";
  }

  /** Starting empty, adding "hello" then "world" at 2 gives {2:"world", 3:"hello"}. */
  lemma AddTwiceAtSamePriority()
    ensures AddResult(AddResult(map[], 2, "hello"), 2, "world") == map[2 := "world", 3 := "hello"]
  {
    var once := AddResult(map[], 2, "hello");
    assert once == map[2 := "hello"];
    assert MaxKey(once.Keys) == 2;
    AddAtTop(once, 2, "world");
  }
}
