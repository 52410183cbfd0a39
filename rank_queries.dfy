/**
 * The rank queries (src/controllers/rankController.js): rank information with progress,
 * the upgrade history, and the leaderboard's limit parsing and ordering.
 */
module RankQueries {
  import opened Common
  import opened Ranks
  import opened Tables
  import opened RankService
  import opened Sorting
  import Text

  /** The `progress` part of the rank-information reply. */
  datatype ProgressView = ProgressView(current: int, nextRank: Option<Rank>, tasksToNext: int, isMaxRank: bool)

  datatype RankInfoReply = RankInfoReply(rank: RankInfo, progress: ProgressView)

  /** `getRankInfo`: any failure of the lookup, a storage error included, is answered with
      404, never with 500. A success reports the stored row, and progress computed from the
      raw counter, not from the stored tier. */
  function GetRankInfo(users: map<UserId, User>, userId: UserId, storageFails: bool)
    : (r: Outcome<RankInfoReply>)
    ensures r.NotFound? <==> storageFails || userId !in users
    ensures r.Ok? || r.NotFound?
    ensures r.Ok? ==> r.value.rank == GetUserRankInfo(users, userId, false).value
    ensures r.Ok? ==>
              var c := users[userId].totalCompleted;
              r.value.rank.current == users[userId].currentRank &&
              r.value.rank.totalCompleted == c &&
              r.value.progress.current == GetRankProgress(c).progress &&
              r.value.progress.nextRank == GetRankProgress(c).nextRank &&
              r.value.progress.tasksToNext == GetRankProgress(c).tasksToNext &&
              r.value.progress.isMaxRank == (c >= 200)
  {
    match GetUserRankInfo(users, userId, storageFails)
    case Failure(message) => NotFound(message)
    case Success(info) =>
      var p := GetRankProgress(info.totalCompleted);
      GetRankProgressMax(info.totalCompleted);
      Ok(RankInfoReply(info, ProgressView(p.progress, p.nextRank, p.tasksToNext, p.isMaxRank)))
  }

  /** After an un-completion the reply can contradict itself: a user stored as silver whose
      counter fell back to 9 is shown as silver, with silver as the next tier and one task
      to go. */
  lemma GetRankInfoStaleTier()
    ensures var r := GetRankInfo(map["u" := User("ann", "silver", 9, true)], "u", false);
            r.Ok? && r.value.rank.current == "silver" && r.value.rank.displayName == "Silver" &&
            r.value.progress.nextRank == Some(Silver) && r.value.progress.tasksToNext == 1 &&
            r.value.progress.current == 90
  {
    CalculateRankTable(9);
    assert ParseRank("silver") == Some(Silver);
  }

  /** `getRankUpgradeHistory`: a failed lookup is answered with 500 and its message; a
      success passes the history through unchanged. */
  function GetRankUpgradeHistory(upgrades: seq<UpgradeEvent>, userId: UserId, storageFails: bool)
    : (r: Outcome<seq<HistoryEntry>>)
    ensures r.Ok? <==> !storageFails
    ensures r.ServerError? <==> storageFails
    ensures r.Ok? ==> r.value == History(upgrades, userId)
  {
    match GetRankHistory(upgrades, userId, storageFails)
    case Failure(message) => ServerError(message)
    case Success(history) => Ok(history)
  }

  /** `parseInt(req.query.limit) || 10`: NaN and 0 fall back to 10, any other integer is
      kept, a negative one included. An absent parameter parses as NaN. The limit is never
      0, and a number that parses is kept unless it is 0. */
  function LeaderboardLimit(query: Option<string>): (limit: int)
    ensures limit != 0
    ensures query.None? ==> limit == 10
    ensures query.Some? && Text.ParseInt(query.value).Some? && Text.ParseInt(query.value).value != 0 ==>
              limit == Text.ParseInt(query.value).value
    ensures query.Some? && (Text.ParseInt(query.value).None? || Text.ParseInt(query.value) == Some(0)) ==>
              limit == 10
  {
    var parsed := if query.Some? then Text.ParseInt(query.value) else None;
    match parsed
    case None => 10
    case Some(n) => if n == 0 then 10 else n
  }

  /** A decimal numeral is the limit it spells (0 falling back to 10), a negated one too, and
      text with no digit falls back to 10. */
  lemma LeaderboardLimitSpec(n: nat, text: string)
    ensures LeaderboardLimit(Some(Text.Decimal(n))) == if n == 0 then 10 else n
    ensures n > 0 ==> LeaderboardLimit(Some("-" + Text.Decimal(n))) == -(n as int)
    ensures (forall k :: 0 <= k < |text| ==> !('0' <= text[k] <= '9')) ==>
              LeaderboardLimit(Some(text)) == 10
  {
    Text.ParseIntDecimal(n);
    if forall k :: 0 <= k < |text| ==> !('0' <= text[k] <= '9') {
      Text.ParseIntNoDigits(text);
    }
  }

  /** A row of the leaderboard query. */
  datatype LeaderRow = LeaderRow(username: string, currentRank: string, totalCompleted: int,
                                 rankUpgradedAt: bool)

  /** `FIELD(current_rank, 'todo_master', 'platinum', 'diamond', 'gold', 'silver', 'iron')`:
      the 1-based position in the list, 0 for a string not in it. A higher tier gets a
      smaller position, so it is listed first; a string that names no tier gets 0 and is
      listed before every tier. */
  function FieldPosition(rank: string): (p: nat)
    ensures ParseRank(rank).Some? ==> p == |RankOrder| - Index(ParseRank(rank).value)
    ensures ParseRank(rank).None? ==> p == 0
  {
    if rank == "todo_master" then 1
    else if rank == "platinum" then 2
    else if rank == "diamond" then 3
    else if rank == "gold" then 4
    else if rank == "silver" then 5
    else if rank == "iron" then 6
    else 0
  }

  /** `ORDER BY FIELD(...), total_completed_tasks DESC`: `a` may come before `b`. */
  predicate Precedes(a: LeaderRow, b: LeaderRow)
  {
    FieldPosition(a.currentRank) < FieldPosition(b.currentRank) ||
    (FieldPosition(a.currentRank) == FieldPosition(b.currentRank) && a.totalCompleted >= b.totalCompleted)
  }

  lemma PrecedesIsPreorder()
    ensures TotalPreorder(Precedes)
  {
  }

  /** The leaderboard query over the users table read in `rows` order: the rows sorted by
      tier position, then by counter descending, cut to `limit`. A negative limit makes the
      `LIMIT` clause invalid SQL, which is answered with 500. */
  function Leaderboard(rows: seq<LeaderRow>, limit: int, storageFails: bool): (r: Outcome<seq<LeaderRow>>)
    ensures r.Ok? <==> !storageFails && limit >= 0
    ensures r.ServerError? <==> storageFails || limit < 0
    ensures r.Ok? ==> SortedBy(r.value, Precedes)
    ensures r.Ok? ==> |r.value| == Min(limit, |rows|)
    ensures r.Ok? ==> multiset(r.value) <= multiset(rows)
    ensures r.Ok? ==> forall x, y :: x in r.value && y in multiset(rows) - multiset(r.value) ==> Precedes(x, y)
  {
    if storageFails || limit < 0 then ServerError("Failed to get leaderboard")
    else
      PrecedesIsPreorder();
      var sorted := Sort(rows, Precedes);
      var top := Take(sorted, limit);
      TopOfSorted(sorted, limit);
      Ok(top)
  }

  /** The first `k` rows of a sorted list come before every row after them. */
  lemma TopOfSorted(s: seq<LeaderRow>, k: nat)
    requires SortedBy(s, Precedes)
    ensures multiset(Take(s, k)) <= multiset(s)
    ensures forall x, y :: x in Take(s, k) && y in multiset(s) - multiset(Take(s, k)) ==> Precedes(x, y)
  {
    if k < |s| {
      assert s == s[..k] + s[k..];
      assert multiset(s) == multiset(s[..k]) + multiset(s[k..]);
      forall x, y | x in s[..k] && y in multiset(s) - multiset(s[..k]) ensures Precedes(x, y) {
        assert y in multiset(s[k..]);
        assert y in s[k..];
        var i :| 0 <= i < k && s[i] == x;
        var j :| k <= j < |s| && s[j] == y;
      }
    }
  }
}
