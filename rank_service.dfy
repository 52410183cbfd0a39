/**
 * The rank service (src/services/rankService.js): the effect of `updateUserRank` on the
 * users table and the upgrade log, and the two read projections `getUserRankInfo` and
 * `getRankHistory`.
 */
module RankService {
  import opened Common
  import opened Ranks
  import opened Tables

  /** Which statement of `updateUserRank`, if any, the storage rejects: the read of the
      user's row, the rank write, or the event insert. */
  datatype RankFault = NoFault | ReadFails | RankWriteFails | EventInsertFails

  /** What `updateUserRank` returns. An upgrade also carries `RANK_THRESHOLDS[toRank]`,
      which is `Thresholds(toRank)`. */
  datatype RankUpdateResult =
    | RankFailure(message: string)
    | Upgraded(fromRank: string, toRank: Rank)
    | NotUpgraded(currentRank: Rank)

  /** The tables after `updateUserRank`, with its result. */
  datatype RankUpdate = RankUpdate(users: map<UserId, User>, upgrades: seq<UpgradeEvent>,
                                   result: RankUpdateResult)

  /**
   * `updateUserRank`, run on the caller's connection after the counter was incremented.
   * The stored counter is taken as the new count and the count one below it as the old
   * one. On a crossing, the user's tier is overwritten with the tier of the count and one
   * event is appended whose source tier is the tier that was stored. Every error is caught
   * and turned into a failure result; writes made before the failing statement stay in
   * the caller's transaction. A repeated event id is a primary-key violation of the insert.
   * It never changes a counter, never touches another user's row, and appends at most one
   * event; when it reports anything but an upgrade it appended nothing.
   */
  function RankUpdateOf(users: map<UserId, User>, upgrades: seq<UpgradeEvent>, userId: UserId,
                        upgradeId: string, fault: RankFault): (r: RankUpdate)
    ensures r.users.Keys == users.Keys
    ensures forall v :: v in users ==> r.users[v].totalCompleted == users[v].totalCompleted
    ensures forall v :: v in users && v != userId ==> r.users[v] == users[v]
    ensures r.upgrades == upgrades ||
            (|r.upgrades| == |upgrades| + 1 && r.upgrades[..|upgrades|] == upgrades)
    ensures !r.result.Upgraded? ==> r.upgrades == upgrades
  {
    if fault == ReadFails then RankUpdate(users, upgrades, RankFailure("Failed to update rank"))
    else if userId !in users then RankUpdate(users, upgrades, RankFailure("User not found"))
    else
      var user := users[userId];
      var total := user.totalCompleted;
      var newRank := CalculateRank(total);
      var upgrade := CheckRankUpgrade(total - 1, total);
      if upgrade.Some? && upgrade.value.upgraded then
        if fault == RankWriteFails then RankUpdate(users, upgrades, RankFailure("Failed to update rank"))
        else
          var users' := users[userId := user.(currentRank := Name(newRank), rankUpgradedAt := true)];
          assert users'.Keys == users.Keys && users'[userId].totalCompleted == total;
          if fault == EventInsertFails || UsedUpgradeId(upgrades, upgradeId) then
            RankUpdate(users', upgrades, RankFailure("Failed to update rank"))
          else
            var event := UpgradeEvent(upgradeId, userId, user.currentRank, Name(newRank), total);
            assert (upgrades + [event])[..|upgrades|] == upgrades;
            RankUpdate(users', upgrades + [event], Upgraded(user.currentRank, newRank))
      else RankUpdate(users, upgrades, NotUpgraded(newRank))
  }

  /** With no row for the user the result is "User not found" and nothing is written. */
  lemma RankUpdateMissingUser(users: map<UserId, User>, upgrades: seq<UpgradeEvent>, userId: UserId,
                              upgradeId: string, fault: RankFault)
    requires userId !in users
    ensures var r := RankUpdateOf(users, upgrades, userId, upgradeId, fault);
            r.users == users && r.upgrades == upgrades && r.result.RankFailure? &&
            (fault != ReadFails ==> r.result.message == "User not found")
  {
  }

  /** Without a crossing from one below the stored count nothing is written, a stale stored
      tier stays as it is, and the reported tier is the tier of the count. */
  lemma RankUpdateNoCrossing(users: map<UserId, User>, upgrades: seq<UpgradeEvent>, userId: UserId,
                             upgradeId: string, fault: RankFault)
    requires userId in users && fault != ReadFails
    requires CheckRankUpgrade(users[userId].totalCompleted - 1, users[userId].totalCompleted).None?
    ensures RankUpdateOf(users, upgrades, userId, upgradeId, fault) ==
            RankUpdate(users, upgrades, NotUpgraded(CalculateRank(users[userId].totalCompleted)))
  {
  }

  /** A completed task that lands on a boundary count rewrites the stored tier to the tier
      of the count and appends exactly one event, whose source is the tier that was stored
      (not the tier of the count below), whose destination is the new tier and whose count
      is the stored counter. */
  lemma RankUpdateCrossing(users: map<UserId, User>, upgrades: seq<UpgradeEvent>, userId: UserId,
                           upgradeId: string)
    requires userId in users && !UsedUpgradeId(upgrades, upgradeId)
    requires users[userId].totalCompleted in {10, 25, 50, 100, 200}
    ensures var user := users[userId];
            var total := user.totalCompleted;
            var r := RankUpdateOf(users, upgrades, userId, upgradeId, NoFault);
            r.users == users[userId := user.(currentRank := Name(CalculateRank(total)), rankUpgradedAt := true)] &&
            r.upgrades == upgrades + [UpgradeEvent(upgradeId, userId, user.currentRank, Name(CalculateRank(total)), total)] &&
            r.result == Upgraded(user.currentRank, CalculateRank(total))
  {
    var user := users[userId];
    var total := user.totalCompleted;
    var newRank := CalculateRank(total);
    CheckRankUpgradeStep(total);
    var upgrade := CheckRankUpgrade(total - 1, total);
    assert upgrade.Some? && upgrade.value.upgraded;
    var users' := users[userId := user.(currentRank := Name(newRank), rankUpgradedAt := true)];
    var event := UpgradeEvent(upgradeId, userId, user.currentRank, Name(newRank), total);
    assert RankUpdateOf(users, upgrades, userId, upgradeId, NoFault) ==
           RankUpdate(users', upgrades + [event], Upgraded(user.currentRank, newRank));
  }

  /** The recorded log stays a log of boundary crossings with distinct ids. */
  lemma RankUpdateKeepsLogValid(users: map<UserId, User>, upgrades: seq<UpgradeEvent>, userId: UserId,
                                upgradeId: string, fault: RankFault)
    requires EventsAreCrossings(upgrades) && UpgradeIdsUnique(upgrades)
    ensures var r := RankUpdateOf(users, upgrades, userId, upgradeId, fault);
            EventsAreCrossings(r.upgrades) && UpgradeIdsUnique(r.upgrades)
  {
    if fault != ReadFails && userId in users {
      var user := users[userId];
      var total := user.totalCompleted;
      var upgrade := CheckRankUpgrade(total - 1, total);
      if upgrade.Some? && upgrade.value.upgraded && fault != RankWriteFails &&
         fault != EventInsertFails && !UsedUpgradeId(upgrades, upgradeId) {
        var e := UpgradeEvent(upgradeId, userId, user.currentRank, Name(CalculateRank(total)), total);
        var ups := upgrades + [e];
        assert RankUpdateOf(users, upgrades, userId, upgradeId, fault).upgrades == ups;
        assert IsCrossing(e);
        forall i | 0 <= i < |ups| ensures IsCrossing(ups[i]) {
          if i < |upgrades| {
            assert ups[i] == upgrades[i];
          }
        }
        forall i, j | 0 <= i < j < |ups| ensures ups[i].upgradeId != ups[j].upgradeId {
          assert ups[i] == upgrades[i];
          if j < |upgrades| {
            assert ups[j] == upgrades[j];
          } else {
            assert ups[j] == e;
          }
        }
      }
    }
  }

  /** The stored tier is not a high-water mark across an upward crossing: a user stored as
      gold whose counter fell back to 9 and climbs to 10 is rewritten to silver, and the
      event records gold as the source tier. */
  lemma RankUpdateCanLowerStoredTier()
    ensures var users := map["u" := User("ann", "gold", 10, true)];
            var r := RankUpdateOf(users, [], "u", "e1", NoFault);
            r.users["u"].currentRank == "silver" &&
            r.upgrades == [UpgradeEvent("e1", "u", "gold", "silver", 10)] &&
            r.result == Upgraded("gold", Silver)
  {
    var users := map["u" := User("ann", "gold", 10, true)];
    CheckRankUpgradeExamples();
    CalculateRankTable(10);
    assert !UsedUpgradeId([], "e1");
    RankUpdateCrossing(users, [], "u", "e1");
  }

  /** What `getUserRankInfo` reports for a user. */
  datatype RankInfo = RankInfo(current: string, displayName: string, color: string,
                               totalCompleted: int, upgradedAt: bool)

  /** `RANK_THRESHOLDS[stored] || RANK_THRESHOLDS.iron`. */
  function DisplayThreshold(stored: string): Threshold
  {
    match ParseRank(stored)
    case Some(r) => Thresholds(r)
    case None => Thresholds(Iron)
  }

  /** `getUserRankInfo`; `storageFails` stands for any storage error, which is caught.
      The lookup fails exactly for a storage error or a missing user. Otherwise it reports
      the stored tier string and the raw counter as they are; the display name and colour
      are those of the stored tier, or iron's when the stored string names no tier. */
  function GetUserRankInfo(users: map<UserId, User>, userId: UserId, storageFails: bool): (r: Result<RankInfo>)
    ensures r.Failure? <==> storageFails || userId !in users
    ensures !storageFails && userId !in users ==> r.message == "User not found"
    ensures r.Success? ==>
              var user := users[userId];
              r.value.current == user.currentRank && r.value.totalCompleted == user.totalCompleted &&
              r.value.upgradedAt == user.rankUpgradedAt &&
              (ParseRank(user.currentRank).Some? ==>
                 r.value.displayName == Thresholds(ParseRank(user.currentRank).value).displayName &&
                 r.value.color == Thresholds(ParseRank(user.currentRank).value).color) &&
              (ParseRank(user.currentRank).None? ==>
                 r.value.displayName == "Iron" && r.value.color == "#9CA3AF")
  {
    if storageFails then Failure("Failed to get rank info")
    else if userId !in users then Failure("User not found")
    else
      var user := users[userId];
      var display := DisplayThreshold(user.currentRank);
      Success(RankInfo(user.currentRank, display.displayName, display.color,
                       user.totalCompleted, user.rankUpgradedAt))
  }

  /** One line of `getRankHistory`. */
  datatype HistoryEntry = HistoryEntry(upgradeId: string, fromRank: string, toRank: string,
                                       tasksCompleted: int)

  /** `RANK_THRESHOLDS[stored]?.displayName || stored`. */
  function DisplayNameOr(stored: string): (r: string)
    ensures ParseRank(stored).Some? ==> r == Thresholds(ParseRank(stored).value).displayName
    ensures ParseRank(stored).None? ==> r == stored
  {
    match ParseRank(stored)
    case Some(rank) => Thresholds(rank).displayName
    case None => stored
  }

  function Entry(e: UpgradeEvent): HistoryEntry
  {
    HistoryEntry(e.upgradeId, DisplayNameOr(e.fromRank), DisplayNameOr(e.toRank), e.tasksCompleted)
  }

  /** The user's events, oldest first: `WHERE user_id = ?` over the log in insertion order.
      It selects exactly the user's events: each one it lists belongs to the user and comes
      from the log, and each of the user's events in the log is listed. `EventsOfAppend`
      states the order. */
  function EventsOf(log: seq<UpgradeEvent>, u: UserId): (r: seq<UpgradeEvent>)
    ensures |r| <= |log|
    ensures forall i :: 0 <= i < |r| ==> r[i].userId == u && r[i] in log
    ensures forall e :: e in log && e.userId == u ==> e in r
  {
    if log == [] then []
    else (if log[0].userId == u then [log[0]] else []) + EventsOf(log[1..], u)
  }

  /** An event appended to the log ends the selection of its user and leaves every other
      user's selection as it was; with `EventsOf([], u) == []` this fixes the selection as
      the user's events in log order. */
  lemma {:induction false} EventsOfAppend(log: seq<UpgradeEvent>, e: UpgradeEvent, u: UserId)
    ensures EventsOf(log + [e], u) == EventsOf(log, u) + (if e.userId == u then [e] else [])
  {
    if log == [] {
      assert [e][1..] == [];
    } else {
      assert (log + [e])[1..] == log[1..] + [e];
      EventsOfAppend(log[1..], e, u);
    }
  }

  /** `ORDER BY upgraded_at DESC` and the `map` to display names: the user's entries, most
      recent first, at most one per event; `HistoryNewestFirst` states which. Events inserted
      later carry later timestamps. */
  function History(log: seq<UpgradeEvent>, u: UserId): (h: seq<HistoryEntry>)
    ensures |h| <= |log|
  {
    if log == [] then []
    else History(log[1..], u) + (if log[0].userId == u then [Entry(log[0])] else [])
  }

  /** The history lists exactly the user's events, newest first. */
  lemma {:induction false} HistoryNewestFirst(log: seq<UpgradeEvent>, u: UserId)
    ensures var h := History(log, u);
            var ev := EventsOf(log, u);
            |h| == |ev| && forall i :: 0 <= i < |h| ==> h[i] == Entry(ev[|ev| - 1 - i])
  {
    if log != [] {
      HistoryNewestFirst(log[1..], u);
    }
  }

  /** An event appended to the log heads the history of its user and leaves every other
      user's history as it was. */
  lemma {:induction false} HistoryAppend(log: seq<UpgradeEvent>, e: UpgradeEvent, u: UserId)
    ensures e.userId == u ==> History(log + [e], u) == [Entry(e)] + History(log, u)
    ensures e.userId != u ==> History(log + [e], u) == History(log, u)
  {
    if log == [] {
      assert [e][1..] == [];
    } else {
      assert (log + [e])[1..] == log[1..] + [e];
      HistoryAppend(log[1..], e, u);
    }
  }

  /** `getRankHistory`; `storageFails` stands for any storage error, which is caught. It
      fails exactly on a storage error, and otherwise lists the user's events newest first. */
  function GetRankHistory(upgrades: seq<UpgradeEvent>, userId: UserId, storageFails: bool)
    : (r: Result<seq<HistoryEntry>>)
    ensures r.Failure? <==> storageFails
    ensures r.Success? ==>
              var ev := EventsOf(upgrades, userId);
              |r.value| == |ev| && forall i :: 0 <= i < |ev| ==> r.value[i] == Entry(ev[|ev| - 1 - i])
  {
    if storageFails then Failure("Failed to get rank history")
    else
      HistoryNewestFirst(upgrades, userId);
      Success(History(upgrades, userId))
  }
}
