/**
 * Python's `sorted(d.keys())` for a dictionary with integer keys, the largest
 * key (the last element of that list) and the 1-based rank of a key in it.
 */
module Keys {
  predicate Ascending(ks: seq<int>) {
    forall i, j :: 0 <= i < j < |ks| ==> ks[i] < ks[j]
  }

  /** `m` is the smallest element of `s`. */
  predicate IsLeast(m: int, s: set<int>) {
    m in s && forall x :: x in s ==> m <= x
  }

  lemma {:induction false} HasMinimum(s: set<int>)
    requires s != {}
    ensures exists m :: IsLeast(m, s)
  {
    assert exists y :: y in s by {
      if forall y :: y !in s { assert false; }
    }
    var y :| y in s;
    var rest := s - {y};
    if rest == {} {
      assert IsLeast(y, s) by {
        forall x | x in s ensures y <= x {
          assert x !in rest;
        }
      }
    } else {
      HasMinimum(rest);
      var m :| IsLeast(m, rest);
      var least := if y < m then y else m;
      assert IsLeast(least, s) by {
        forall x | x in s ensures least <= x {
          if x != y {
            assert x in rest;
          }
        }
      }
    }
  }

  function MinKey(s: set<int>): (m: int)
    requires s != {}
    ensures IsLeast(m, s)
  {
    HasMinimum(s);
    var m :| IsLeast(m, s); m
  }

  /**
   * The keys in ascending order, each once, built by repeatedly taking the
   * smallest remaining key.
   */
  function SortedKeysRec(s: set<int>): (ks: seq<int>)
    ensures Ascending(ks) && |ks| == |s|
    ensures forall k :: k in ks <==> k in s
    decreases |s|
  {
    if s == {} then []
    else
      var m := MinKey(s);
      var rest := SortedKeysRec(s - {m});
      assert forall j :: 0 <= j < |rest| ==> m < rest[j] by {
        forall j | 0 <= j < |rest| ensures m < rest[j] {
          assert rest[j] in rest;
        }
      }
      [m] + rest
  }

  /** Two ascending sequences with the same elements are the same sequence. */
  lemma {:induction false} AscendingUnique(a: seq<int>, b: seq<int>)
    requires Ascending(a) && Ascending(b)
    requires forall k :: k in a <==> k in b
    ensures a == b
  {
    if a != [] {
      assert a[0] in a;
    }
    if b != [] {
      assert b[0] in b;
    }
    if a != [] {
      assert a[0] in b && b[0] in a;
      var t :| 0 <= t < |b| && b[t] == a[0];
      var u :| 0 <= u < |a| && a[u] == b[0];
      assert b[0] <= a[0] <= b[0];
      forall k ensures k in a[1..] <==> k in b[1..] {
        if k in a[1..] {
          var i :| 1 <= i < |a| && a[i] == k;
          assert k in b && k != b[0];
          var j :| 0 <= j < |b| && b[j] == k;
          assert b[1..][j - 1] == k;
        }
        if k in b[1..] {
          var j :| 1 <= j < |b| && b[j] == k;
          assert k in a && k != a[0];
          var i :| 0 <= i < |a| && a[i] == k;
          assert a[1..][i - 1] == k;
        }
      }
      AscendingUnique(a[1..], b[1..]);
      assert a == [a[0]] + a[1..] && b == [b[0]] + b[1..];
    }
  }

  /** The keys in ascending order, each once: `sorted(keys)`. */
  ghost function SortedKeys(s: set<int>): (ks: seq<int>)
    ensures Ascending(ks) && |ks| == |s|
    ensures forall k :: k in ks <==> k in s
  {
    var built := SortedKeysRec(s);
    assert Ascending(built) && |built| == |s| && forall k :: k in built <==> k in s;
    var ks :| Ascending(ks) && |ks| == |s| && forall k :: k in ks <==> k in s; ks
  }

  /** The computed enumeration is the sorted key list. */
  lemma SortedKeysComputed(s: set<int>)
    ensures SortedKeysRec(s) == SortedKeys(s)
  {
    AscendingUnique(SortedKeysRec(s), SortedKeys(s));
  }

  /** `m` is the largest element of `s`. */
  predicate IsGreatest(m: int, s: set<int>) {
    m in s && forall x :: x in s ==> x <= m
  }

  lemma {:induction false} HasMaximum(s: set<int>)
    requires s != {}
    ensures exists m :: IsGreatest(m, s)
  {
    assert exists y :: y in s by {
      if forall y :: y !in s { assert false; }
    }
    var y :| y in s;
    var rest := s - {y};
    if rest == {} {
      assert IsGreatest(y, s) by {
        forall x | x in s ensures x <= y {
          assert x !in rest;
        }
      }
    } else {
      HasMaximum(rest);
      var m :| IsGreatest(m, rest);
      var greatest := if y > m then y else m;
      assert IsGreatest(greatest, s) by {
        forall x | x in s ensures x <= greatest {
          if x != y {
            assert x in rest;
          }
        }
      }
    }
  }

  /** The largest key. */
  function MaxKey(s: set<int>): (k: int)
    requires s != {}
    ensures IsGreatest(k, s)
  {
    HasMaximum(s);
    var m :| IsGreatest(m, s); m
  }

  /**
   * The last of the sorted keys is the largest one: where the source's loop
   * over `sorted(keys)` stops.
   */
  lemma LastSortedIsMax(s: set<int>)
    requires s != {}
    ensures |SortedKeys(s)| >= 1 && SortedKeys(s)[|SortedKeys(s)| - 1] == MaxKey(s)
  {
    var ks := SortedKeys(s);
    var last := ks[|ks| - 1];
    assert last in ks;
    forall j | j in s ensures j <= last {
      var t :| 0 <= t < |ks| && ks[t] == j;
    }
    assert IsGreatest(last, s);
  }

  /** The 1-based position of `k` among the keys: how many keys are at most `k`. */
  ghost function Rank(s: set<int>, k: int): nat
  {
    |set j | j in s && j <= k|
  }

  lemma {:induction false} AscendingCard(ks: seq<int>)
    requires Ascending(ks)
    ensures |set x | x in ks| == |ks|
  {
    if ks != [] {
      AscendingCard(ks[1..]);
      assert (set x | x in ks) == {ks[0]} + (set x | x in ks[1..]);
      assert ks[0] !in ks[1..];
    }
  }

  /** The key at position `i` of the sorted list has rank `i + 1`. */
  lemma SortedKeysRank(s: set<int>, i: int)
    requires 0 <= i < |s|
    ensures Rank(s, SortedKeys(s)[i]) == i + 1
  {
    var ks := SortedKeys(s);
    RankOfListed(s, ks, i);
  }

  lemma RankOfListed(s: set<int>, ks: seq<int>, i: int)
    requires Ascending(ks) && forall k :: k in ks <==> k in s
    requires 0 <= i < |ks|
    ensures Rank(s, ks[i]) == i + 1
  {
    var prefix := ks[..i + 1];
    AtMostListed(s, ks, i);
    assert (set j | j in s && j <= ks[i]) == (set x | x in prefix);
    assert Ascending(prefix);
    AscendingCard(prefix);
  }

  lemma AtMostListed(s: set<int>, ks: seq<int>, i: int)
    requires Ascending(ks) && forall k :: k in ks <==> k in s
    requires 0 <= i < |ks|
    ensures forall j :: j in s && j <= ks[i] <==> j in ks[..i + 1]
  {
    forall j | j in s && j <= ks[i] ensures j in ks[..i + 1] {
      var t :| 0 <= t < |ks| && ks[t] == j;
      assert t <= i;
      assert ks[..i + 1][t] == j;
    }
  }
}
