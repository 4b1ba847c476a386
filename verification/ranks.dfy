/**
 * The rank recalculation of test_dj.py:17-62. A list of users, assumed to be
 * ordered already (best first), is relabelled in place: the first three get
 * the three top labels, the rest are split over nine ordered sub-tiers in
 * contiguous, as-equal-as-possible groups, and a final pass gives anything
 * left over the lowest sub-tier.
 *
 * The list is an array of user records; relabelling a user replaces its
 * record by the same record with another rank.
 */
module Ranks {
  import opened Users
  import opened Buckets

  /** The labels of the first three users, best first. They are the display
      names of the_legend, elite and master, not those keys. */
  const TopRanks: seq<string> := ["Легенда", "Элита", "Мастер"]

  /** The nine sub-tiers, highest first. */
  const SubTiers: seq<string> := [
    "gold 3", "gold 2", "gold 1",
    "silver 3", "silver 2", "silver 1",
    "bronze 3", "bronze 2", "bronze 1"
  ]

  /** The label of the catch-all pass. */
  const CatchAll: string := "bronze 1"

  /** Index of the first user after the top slots. */
  const FirstSubTierIndex: nat := 3

  /** The sub-tier of user i (past the top slots) in a list of n users. */
  function SubTierOf(n: nat, i: nat): (k: nat)
    requires FirstSubTierIndex <= i < n
    ensures k < |SubTiers|
  {
    GroupOf(n - FirstSubTierIndex, |SubTiers|, i - FirstSubTierIndex)
  }

  /** The label a recalculation leaves on user i of a list of n users. */
  function RankAt(n: nat, i: nat): string
    requires i < n
  {
    if i < |TopRanks| then TopRanks[i] else SubTiers[SubTierOf(n, i)]
  }

  /** assign_rank_to_users: gives `rankName` to the users at indices
      start .. start + count - 1 that exist, and returns start + count even
      when that is past the end of the list (or below start, for a negative
      count, when nothing is written). */
  method AssignRankToUsers(users: array<UserRecord>, start: nat, count: int, rankName: string)
    returns (end: int)
    modifies users
    ensures end == start + count
    ensures forall i :: 0 <= i < users.Length ==>
              users[i] == if start <= i < start + count then old(users[i]).(rank := rankName) else old(users[i])
  {
    end := start + count;
    var stop := Min(end, users.Length);
    var i := start;
    while i < stop
      invariant start <= i && (i <= stop || i == start)
      invariant forall k :: 0 <= k < users.Length ==>
                  users[k] == if start <= k < i then old(users[k]).(rank := rankName) else old(users[k])
    {
      users[i] := users[i].(rank := rankName);
      i := i + 1;
    }
  }

  /** distribute_remaining_users: walks the groups in order, giving each the
      floor share of the users from `start` on plus one extra for the first
      (remainder) groups. It returns the list length for every start, since
      the group counts add up to length - start, negative or not. */
  method DistributeRemainingUsers(users: array<UserRecord>, start: nat, rankGroups: seq<string>)
    returns (current: int)
    requires |rankGroups| > 0
    modifies users
    ensures current == users.Length
    ensures forall i :: 0 <= i < users.Length ==>
              users[i] == if start <= i
                          then old(users[i]).(rank := rankGroups[GroupOf(users.Length - start, |rankGroups|, i - start)])
                          else old(users[i])
  {
    var g := |rankGroups|;
    current := start;
    var totalUsers := users.Length - start;
    var groupSize := totalUsers / g;
    var remainder := totalUsers % g;
    for k := 0 to g
      invariant current == start + GroupStart(totalUsers, g, k)
      invariant remainder == if k < totalUsers % g then totalUsers % g - k else 0
      invariant forall i :: 0 <= i < users.Length ==>
                  users[i] == if start <= i < current
                              then old(users[i]).(rank := rankGroups[GroupOf(totalUsers, g, i - start)])
                              else old(users[i])
    {
      GroupStartBetween(totalUsers, g, k);
      GroupStartBetween(totalUsers, g, k + 1);
      var count := groupSize + (if remainder > 0 then 1 else 0);
      ghost var before := current;
      current := AssignRankToUsers(users, current, count, rankGroups[k]);
      remainder := remainder - (if remainder > 0 then 1 else 0);
      forall i | 0 <= i < users.Length
        ensures users[i] == if start <= i < current
                            then old(users[i]).(rank := rankGroups[GroupOf(totalUsers, g, i - start)])
                            else old(users[i])
      {
        if before <= i < current {
          GroupOfExactly(totalUsers, g, i - start, k);
        }
      }
    }
    GroupStartTotal(totalUsers, g);
  }

  /** calculate_user_ranks: relabels every user in place and hands back the
      list (an empty one for an empty input, when nothing is written). */
  method CalculateUserRanks(users: array<UserRecord>) returns (ranked: seq<UserRecord>)
    modifies users
    ensures ranked == users[..]
    ensures forall i :: 0 <= i < users.Length ==>
              users[i] == old(users[i]).(rank := RankAt(users.Length, i))
  {
    if users.Length == 0 {
      return [];
    }
    var top := Min(|TopRanks|, users.Length);
    for i := 0 to top
      invariant forall k :: 0 <= k < users.Length ==>
                  users[k] == if k < i then old(users[k]).(rank := TopRanks[k]) else old(users[k])
    {
      users[i] := users[i].(rank := TopRanks[i]);
    }
    var current := DistributeRemainingUsers(users, FirstSubTierIndex, SubTiers);
    var _ := AssignRankToUsers(users, current, users.Length - current, CatchAll);
    ranked := users[..];
  }

  /** The top labels go to the first min(3, n) users, in order, and to nobody
      else: a top label appears at index i exactly when i < 3, so each is used
      at most once. */
  lemma TopLabelsOnlyAtTop(n: nat, i: nat)
    requires i < n
    ensures RankAt(n, i) in TopRanks <==> i < |TopRanks|
    ensures i < |TopRanks| ==> RankAt(n, i) == TopRanks[i]
  {
    if i >= |TopRanks| {
      var tier := SubTiers[SubTierOf(n, i)];
      assert tier[0] in "gbs";
      assert forall t :: t in TopRanks ==> t[0] !in "gbs";
    }
  }

  /** Two different users never share a top label. */
  lemma TopLabelsUnique(n: nat, i: nat, j: nat)
    requires i < j < n
    requires RankAt(n, i) == RankAt(n, j)
    ensures RankAt(n, i) !in TopRanks
  {
    TopLabelsOnlyAtTop(n, i);
    TopLabelsOnlyAtTop(n, j);
  }

  /** Sub-tiers are handed out in order: a later user never gets a higher
      sub-tier than an earlier one. */
  lemma SubTierMonotone(n: nat, i: nat, j: nat)
    requires FirstSubTierIndex <= i <= j < n
    ensures SubTierOf(n, i) <= SubTierOf(n, j)
  {
    GroupOfMonotone(n - FirstSubTierIndex, |SubTiers|, i - FirstSubTierIndex, j - FirstSubTierIndex);
  }

  /** Sub-tier k labels exactly one contiguous run of users, starting right
      after the runs of the higher sub-tiers. */
  lemma SubTierShare(n: nat, k: nat, i: nat)
    requires FirstSubTierIndex <= i < n && k < |SubTiers|
    ensures var total := n - FirstSubTierIndex;
            RankAt(n, i) == SubTiers[k] <==>
            FirstSubTierIndex + GroupStart(total, |SubTiers|, k) <= i < FirstSubTierIndex + GroupStart(total, |SubTiers|, k + 1)
  {
    var total := n - FirstSubTierIndex;
    GroupOfExactly(total, |SubTiers|, i - FirstSubTierIndex, k);
    var k' := SubTierOf(n, i);
    assert RankAt(n, i) == SubTiers[k'];
    if k' < k {
      SubTiersDistinct(k', k);
    } else if k < k' {
      SubTiersDistinct(k, k');
    }
  }

  /** Sub-tier k labels somebody exactly when its group count is positive:
      with fewer than nine users past the top slots the lowest sub-tiers stay
      unused. */
  lemma SubTierUsed(n: nat, k: nat)
    requires k < |SubTiers|
    ensures (exists i :: FirstSubTierIndex <= i < n && RankAt(n, i) == SubTiers[k]) <==>
            GroupSize(n - FirstSubTierIndex, |SubTiers|, k) > 0
  {
    var total := n - FirstSubTierIndex;
    var g := |SubTiers|;
    if GroupSize(total, g, k) > 0 {
      GroupStartBetween(total, g, k);
      GroupStartBetween(total, g, k + 1);
      var i := FirstSubTierIndex + GroupStart(total, g, k);
      SubTierShare(n, k, i);
    } else {
      forall i | FirstSubTierIndex <= i < n
        ensures RankAt(n, i) != SubTiers[k]
      {
        SubTierShare(n, k, i);
      }
    }
  }

  lemma SubTiersDistinct(a: nat, b: nat)
    requires a < b < |SubTiers|
    ensures SubTiers[a] != SubTiers[b]
  {
  }

  /** Twelve users: after the top three, each of the nine sub-tiers labels
      exactly one user, highest first. */
  lemma TwelveUsersOnePerSubTier(i: nat)
    requires FirstSubTierIndex <= i < 12
    ensures RankAt(12, i) == SubTiers[i - FirstSubTierIndex]
  {
  }

  /** Four users: the fourth gets the highest sub-tier. */
  lemma FourUsersFourthIsGold3()
    ensures RankAt(4, 3) == "gold 3"
  {
  }

  /** The sub-tier labels and the catch-all label are rank keys of the user
      model; the three top labels are not. */
  lemma LabelsAgainstRankKeys()
    ensures forall t :: t in SubTiers ==> t in RankKeys
    ensures CatchAll in SubTiers
    ensures forall t :: t in TopRanks ==> t !in RankKeys
  {
    assert forall t :: t in TopRanks ==> t[0] !in "bsgmet";
    assert forall t :: t in RankKeys ==> t[0] in "bsgmet";
  }
}
