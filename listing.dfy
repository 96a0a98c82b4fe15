/**
 * The text of `ls` and `report`: pending tasks as "<rank>. <text> [<priority>]"
 * by ascending priority, completed tasks as "<rank>. <text>" in list order.
 */
module Listing {
  import opened Decimal
  import opened Keys

  /** One line of the pending listing. */
  function ListingLine(rank: int, text: string, key: int): string
  {
    IntToString(rank) + ". " + text + " [" + IntToString(key) + "]"
  }

  /** The lines `ls` prints, one per pending task. */
  ghost function PendingListing(pending: map<int, string>): (lines: seq<string>)
    ensures |lines| == |pending|
  {
    var ks := SortedKeys(pending.Keys);
    seq(|ks|, i requires 0 <= i < |ks| => ListingLine(i + 1, pending[ks[i]], ks[i]))
  }

  /** The lines `report` prints for the completed tasks. */
  function CompletedListing(completed: seq<string>): (lines: seq<string>)
    ensures |lines| == |completed|
  {
    seq(|completed|, i requires 0 <= i < |completed| => IntToString(i + 1) + ". " + completed[i])
  }

  /**
   * Every pending task is listed on the line numbered with its rank among the
   * pending priorities (how many of them are at most its own), showing its
   * text and its priority.
   */
  lemma ListingShowsEach(pending: map<int, string>, k: int)
    requires k in pending
    ensures 1 <= Rank(pending.Keys, k) <= |pending|
    ensures PendingListing(pending)[Rank(pending.Keys, k) - 1] == ListingLine(Rank(pending.Keys, k), pending[k], k)
  {
    var ks := SortedKeys(pending.Keys);
    var i :| 0 <= i < |ks| && ks[i] == k;
    SortedKeysRank(pending.Keys, i);
  }

  /** A smaller priority has a smaller rank, so it is listed earlier. */
  lemma RankIncreasing(pending: map<int, string>, j: int, k: int)
    requires j in pending && k in pending && j < k
    ensures Rank(pending.Keys, j) < Rank(pending.Keys, k)
  {
    var below := set x | x in pending.Keys && x <= j;
    var upTo := set x | x in pending.Keys && x <= k;
    var extra := upTo - below;
    assert k in extra;
    assert upTo == below + extra && below !! extra;
    assert |upTo| == |below| + |extra|;
    assert Rank(pending.Keys, j) == |below| && Rank(pending.Keys, k) == |upTo|;
  }
}
