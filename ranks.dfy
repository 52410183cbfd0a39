/**
 * The rank ladder: six tiers over the completed-task counter, the count-to-tier
 * lookup, the tier-crossing detector and the progress-to-next-tier arithmetic
 * (shared/constants/ranks.js).
 */
module Ranks {
  import opened Common

  datatype Rank = Iron | Silver | Gold | Diamond | Platinum | TodoMaster

  /** The string under which a tier is stored in the users table and sent to clients. */
  function Name(r: Rank): string
  {
    match r
    case Iron => "iron"
    case Silver => "silver"
    case Gold => "gold"
    case Diamond => "diamond"
    case Platinum => "platinum"
    case TodoMaster => "todo_master"
  }

  /** Looks a stored rank string up in the table; `None` for a string that names no tier. */
  function ParseRank(s: string): (r: Option<Rank>)
    ensures r.Some? ==> Name(r.value) == s
    ensures r.None? ==> forall t :: Name(t) != s
  {
    if s == "iron" then Some(Iron)
    else if s == "silver" then Some(Silver)
    else if s == "gold" then Some(Gold)
    else if s == "diamond" then Some(Diamond)
    else if s == "platinum" then Some(Platinum)
    else if s == "todo_master" then Some(TodoMaster)
    else None
  }

  /** Every tier's stored name reads back as that tier. */
  lemma ParseRankName(r: Rank)
    ensures ParseRank(Name(r)) == Some(r)
  {
  }

  /** The upper end of a tier's range; only the last tier has none (`Infinity`). */
  datatype Bound = AtMost(n: int) | Unbounded

  datatype Threshold = Threshold(min: int, max: Bound, displayName: string, color: string)

  /** `RANK_THRESHOLDS`: every tier starts at a non-negative count, every tier but the top
      one has an upper end no lower than its start, and every tier has a display name. */
  function Thresholds(r: Rank): (t: Threshold)
    ensures 0 <= t.min
    ensures t.max.Unbounded? <==> r == TodoMaster
    ensures t.max.AtMost? ==> t.min <= t.max.n
    ensures t.displayName != []
  {
    match r
    case Iron => Threshold(0, AtMost(9), "Iron", "#9CA3AF")
    case Silver => Threshold(10, AtMost(24), "Silver", "#C0C0C0")
    case Gold => Threshold(25, AtMost(49), "Gold", "#FFD700")
    case Diamond => Threshold(50, AtMost(99), "Diamond", "#B9F2FF")
    case Platinum => Threshold(100, AtMost(199), "Platinum", "#E5E4E2")
    case TodoMaster => Threshold(200, Unbounded, "Todo Master", "#DC2626")
  }

  /** `RANK_ORDER`: lowest tier first. */
  const RankOrder: seq<Rank> := [Iron, Silver, Gold, Diamond, Platinum, TodoMaster]

  /** `RANK_ORDER.indexOf(r)`. */
  function Index(r: Rank): (i: nat)
    ensures i < |RankOrder| && RankOrder[i] == r
  {
    match r
    case Iron => 0
    case Silver => 1
    case Gold => 2
    case Diamond => 3
    case Platinum => 4
    case TodoMaster => 5
  }

  /** `completedTasks >= threshold.min && completedTasks <= threshold.max`. */
  predicate InRange(r: Rank, c: int)
  {
    var t := Thresholds(r);
    t.min <= c && (t.max.AtMost? ==> c <= t.max.n)
  }

  /** The ranges are contiguous: iron starts at 0, each tier starts one past the previous
      tier's end, and only the last tier is unbounded. */
  lemma TiersContiguous()
    ensures Thresholds(RankOrder[0]).min == 0
    ensures forall i :: 0 <= i < |RankOrder| - 1 ==>
      Thresholds(RankOrder[i]).max.AtMost? &&
      Thresholds(RankOrder[i + 1]).min == Thresholds(RankOrder[i]).max.n + 1
    ensures Thresholds(RankOrder[|RankOrder| - 1]).max.Unbounded?
  {
  }

  /** The ranges are disjoint. */
  lemma InRangeUnique(r1: Rank, r2: Rank, c: int)
    requires InRange(r1, c) && InRange(r2, c)
    ensures r1 == r2
  {
  }

  /** Some tier's range holds every non-negative count; none holds a negative one. */
  lemma TierCovers(c: int)
    ensures c >= 0 <==> exists i :: 0 <= i < |RankOrder| && InRange(RankOrder[i], c)
  {
    if c >= 0 {
      var i := if c < 10 then 0 else if c < 25 then 1 else if c < 50 then 2
               else if c < 100 then 3 else if c < 200 then 4 else 5;
      assert InRange(RankOrder[i], c);
    }
  }

  /** Exactly one tier matches any non-negative count. */
  lemma ExactlyOneTier(c: int)
    requires c >= 0
    ensures exists r :: InRange(r, c) && forall r' :: InRange(r', c) ==> r' == r
  {
    TierCovers(c);
    var i :| 0 <= i < |RankOrder| && InRange(RankOrder[i], c);
    forall r' | InRange(r', c) ensures r' == RankOrder[i] {
      InRangeUnique(r', RankOrder[i], c);
    }
  }

  /** The loop of `calculateRank`: the first tier of `order` whose range holds `c`. */
  function FirstMatch(order: seq<Rank>, c: int): (r: Option<Rank>)
    ensures r.Some? <==> exists i :: 0 <= i < |order| && InRange(order[i], c)
    ensures r.Some? ==> InRange(r.value, c) && r.value in order
    ensures r.Some? ==> exists i :: 0 <= i < |order| && order[i] == r.value &&
                                    forall j :: 0 <= j < i ==> !InRange(order[j], c)
  {
    if order == [] then None
    else if InRange(order[0], c) then Some(order[0])
    else
      var rest := order[1..];
      var r := FirstMatch(rest, c);
      assert forall i :: 0 < i < |order| ==> order[i] == rest[i - 1];
      assert (exists i :: 0 <= i < |order| && InRange(order[i], c)) ==> r.Some? by {
        if exists i :: 0 <= i < |order| && InRange(order[i], c) {
          var i :| 0 <= i < |order| && InRange(order[i], c);
          assert InRange(rest[i - 1], c);
        }
      }
      assert r.Some? ==> exists i :: 0 <= i < |order| && order[i] == r.value &&
                                     forall j :: 0 <= j < i ==> !InRange(order[j], c) by {
        if r.Some? {
          var k :| 0 <= k < |rest| && rest[k] == r.value &&
                   forall j :: 0 <= j < k ==> !InRange(rest[j], c);
          assert order[k + 1] == r.value;
        }
      }
      r
  }

  /** `calculateRank`: the tier of a counter; iron when no range matches. */
  function CalculateRank(c: int): (r: Rank)
    ensures c >= 0 ==> InRange(r, c)
    ensures c < 0 ==> r == Iron
  {
    TierCovers(c);
    match FirstMatch(RankOrder, c)
    case Some(r) => r
    case None => Iron
  }

  /** The tier table of `calculateRank`, range by range. */
  lemma CalculateRankTable(c: int)
    ensures 0 <= c <= 9 ==> CalculateRank(c) == Iron
    ensures 10 <= c <= 24 ==> CalculateRank(c) == Silver
    ensures 25 <= c <= 49 ==> CalculateRank(c) == Gold
    ensures 50 <= c <= 99 ==> CalculateRank(c) == Diamond
    ensures 100 <= c <= 199 ==> CalculateRank(c) == Platinum
    ensures 200 <= c ==> CalculateRank(c) == TodoMaster
    ensures c < 0 ==> CalculateRank(c) == Iron
  {
    if c >= 0 {
      var r := CalculateRank(c);
      if 0 <= c <= 9 { InRangeUnique(r, Iron, c); }
      else if c <= 24 { InRangeUnique(r, Silver, c); }
      else if c <= 49 { InRangeUnique(r, Gold, c); }
      else if c <= 99 { InRangeUnique(r, Diamond, c); }
      else if c <= 199 { InRangeUnique(r, Platinum, c); }
      else { InRangeUnique(r, TodoMaster, c); }
    }
  }

  /** For a non-negative count, `calculateRank` returns exactly the tier whose range holds it. */
  lemma CalculateRankIsTier(c: int, r: Rank)
    requires c >= 0
    ensures CalculateRank(c) == r <==> InRange(r, c)
  {
    if InRange(r, c) {
      InRangeUnique(r, CalculateRank(c), c);
    }
  }

  /** `calculateRank` is monotone in the order of `RANK_ORDER`. */
  lemma CalculateRankMonotone(a: int, b: int)
    requires a <= b
    ensures Index(CalculateRank(a)) <= Index(CalculateRank(b))
  {
    CalculateRankTable(a);
    CalculateRankTable(b);
  }

  /** `checkRankUpgrade`'s report; `upgraded` is always true in a report. */
  datatype Upgrade = Upgrade(fromRank: Rank, toRank: Rank, upgraded: bool)

  /** `checkRankUpgrade`: a report exactly when the tiers of the two counts differ, naming
      both tiers and flagged `upgraded`. A report between a smaller and a larger count is a
      strict climb of the ladder; one between a larger and a smaller count is a strict
      descent, still flagged `upgraded`. */
  function CheckRankUpgrade(oldCount: int, newCount: int): (r: Option<Upgrade>)
    ensures r.None? <==> CalculateRank(oldCount) == CalculateRank(newCount)
    ensures r.Some? ==> r.value == Upgrade(CalculateRank(oldCount), CalculateRank(newCount), true)
    ensures r.Some? && oldCount <= newCount ==> Index(r.value.fromRank) < Index(r.value.toRank)
    ensures r.Some? && oldCount > newCount ==> Index(r.value.fromRank) > Index(r.value.toRank)
  {
    var oldRank := CalculateRank(oldCount);
    var newRank := CalculateRank(newCount);
    var r := if oldRank != newRank then Some(Upgrade(oldRank, newRank, true)) else None;
    if oldCount <= newCount then
      CalculateRankMonotone(oldCount, newCount); r
    else
      CalculateRankMonotone(newCount, oldCount); r
  }

  /** Equal counts never report. */
  lemma CheckRankUpgradeSameCount(c: int)
    ensures CheckRankUpgrade(c, c).None?
  {
  }

  /** The crossings 9 to 10 (iron to silver) and 199 to 200 (platinum to todo_master). */
  lemma CheckRankUpgradeExamples()
    ensures CheckRankUpgrade(9, 10) == Some(Upgrade(Iron, Silver, true))
    ensures CheckRankUpgrade(199, 200) == Some(Upgrade(Platinum, TodoMaster, true))
  {
    CalculateRankTable(9);
    CalculateRankTable(10);
    CalculateRankTable(199);
    CalculateRankTable(200);
  }

  /** One more completed task crosses a tier boundary exactly at the first count of
      silver, gold, diamond, platinum and todo_master, and then climbs exactly one tier. */
  lemma CheckRankUpgradeStep(c: int)
    ensures CheckRankUpgrade(c - 1, c).Some? <==> c == 10 || c == 25 || c == 50 || c == 100 || c == 200
    ensures CheckRankUpgrade(c - 1, c).Some? <==> c > 0 && c == Thresholds(CalculateRank(c)).min
    ensures CheckRankUpgrade(c - 1, c).Some? ==>
            var u := CheckRankUpgrade(c - 1, c).value;
            u.toRank == CalculateRank(c) && Index(u.toRank) == Index(u.fromRank) + 1
  {
    CalculateRankTable(c - 1);
    CalculateRankTable(c);
  }

  /** `getRankProgress`'s result. */
  datatype Progress = Progress(currentRank: Rank, nextRank: Option<Rank>, progress: int,
                               tasksToNext: int, isMaxRank: bool)

  /**
   * `Math.round(Math.min(100, (done / width) * 100))` in integer arithmetic:
   * `Math.round(x)` is `floor(x + 1/2)`, so the rounded percentage is
   * `floor((200 * done + width) / (2 * width))`. No tier width (10, 15, 25, 50, 100)
   * puts the exact quotient on a half, so floating-point error cannot change the result.
   */
  function RoundedPercent(done: int, width: int): (p: int)
    requires width > 0
    ensures done >= width ==> p == 100
    ensures done < width ==> 2 * width * p - width <= 200 * done < 2 * width * p + width
  {
    if done >= width then 100
    else
      var d := 2 * width;
      var n := 200 * done + width;
      assert n == d * (n / d) + n % d;
      n / d
  }

  /** For `0 <= done < width` the rounded percentage lies in 0..100, and in 0..99 when the
      tier is narrower than 200 (every tier of the table is). */
  lemma RoundedPercentNearest(done: int, width: int)
    requires width > 0 && 0 <= done < width
    ensures 0 <= RoundedPercent(done, width) <= 100
    ensures width < 200 ==> RoundedPercent(done, width) <= 99
  {
    var d := 2 * width;
    var n := 200 * done + width;
    var p := RoundedPercent(done, width);
    assert d * p <= n < d * p + d;
    assert n <= 201 * width - 200;
    if p < 0 {
      MulMonotone(d, p, -1);
    }
    if p > 100 {
      MulMonotone(d, 101, p);
    }
    if width < 200 && p > 99 {
      MulMonotone(d, 100, p);
    }
  }

  /** Multiplying by a positive factor keeps the order. */
  lemma MulMonotone(k: int, a: int, b: int)
    requires k > 0 && a <= b
    ensures k * a <= k * b
  {
  }

  /** `getRankProgress`: the tier of the count; unless it is the top tier, the next tier of
      `RANK_ORDER` and the distance to that tier's first count. */
  function GetRankProgress(c: int): (p: Progress)
    ensures p.currentRank == CalculateRank(c)
    ensures p.isMaxRank <==> p.nextRank.None?
    ensures p.nextRank.Some? ==>
              Index(p.nextRank.value) == Index(p.currentRank) + 1 &&
              p.tasksToNext == Thresholds(p.nextRank.value).min - c
  {
    var current := CalculateRank(c);
    var i := Index(current);
    if i == |RankOrder| - 1 then
      Progress(current, None, 100, 0, true)
    else
      var next := RankOrder[i + 1];
      var t := Thresholds(current);
      match t.max
      case AtMost(max) =>
        Progress(current, Some(next), RoundedPercent(c - t.min, max - t.min + 1),
                 Thresholds(next).min - c, false)
      case Unbounded => assert false; Progress(current, None, 100, 0, true)
  }

  /** From 200 completed tasks on: the top tier, nothing next, 100 percent, nothing to go. */
  lemma GetRankProgressAtTop(c: int)
    requires c >= 200
    ensures GetRankProgress(c) == Progress(TodoMaster, None, 100, 0, true)
  {
    CalculateRankTable(c);
  }

  /** Below 200 completed tasks: the next tier in `RANK_ORDER`, at least one task to go,
      and a percentage in 0..99 that is the rounded share of the current tier's range. */
  lemma GetRankProgressBelowTop(c: int)
    requires 0 <= c < 200
    ensures var p := GetRankProgress(c);
            var t := Thresholds(p.currentRank);
            p.currentRank == CalculateRank(c) &&
            !p.isMaxRank &&
            p.currentRank != TodoMaster && t.max.AtMost? &&
            p.nextRank == Some(RankOrder[Index(p.currentRank) + 1]) &&
            p.tasksToNext == Thresholds(p.nextRank.value).min - c >= 1 &&
            0 <= p.progress <= 99 &&
            var w := t.max.n - t.min + 1;
            2 * w * p.progress - w <= 200 * (c - t.min) < 2 * w * p.progress + w
  {
    CalculateRankTable(c);
    var r := CalculateRank(c);
    var t := Thresholds(r);
    RoundedPercentNearest(c - t.min, t.max.n - t.min + 1);
  }

  /** A negative counter is placed in iron; its percentage and tasks-to-next are computed from
      iron's range all the same, so the percentage is negative. */
  lemma GetRankProgressNegative(c: int)
    requires c < 0
    ensures GetRankProgress(c) == Progress(Iron, Some(Silver), (200 * c + 10) / 20, 10 - c, false)
    ensures GetRankProgress(c).progress < 0
  {
  }

  /** The top tier is reported exactly from 200 on, and exactly then is there no next tier. */
  lemma GetRankProgressMax(c: int)
    ensures GetRankProgress(c).isMaxRank <==> c >= 200
    ensures GetRankProgress(c).nextRank.None? <==> c >= 200
  {
    CalculateRankTable(c);
  }
}
