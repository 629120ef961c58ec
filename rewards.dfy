/**
 * The daily-reward rule of the game server (handlers/rewards.go), lifted out
 * of its HTTP handler: the user row is an input (absent when the lookup
 * fails), the clock reading `now` is one parameter per request, and the
 * outcome of the save is an input as well.
 */
module Rewards {

  /** Optional value: a user row that may not have been found. */
  datatype Option<T> = None | Some(value: T)

  // ---------------------------------------------------------------------------
  // Go's 64-bit `int`
  // ---------------------------------------------------------------------------

  const MinInt64: int := -0x8000_0000_0000_0000
  const MaxInt64: int := 0x7fff_ffff_ffff_ffff
  const TwoTo64: int := 0x1_0000_0000_0000_0000

  newtype Int64 = x: int | -0x8000_0000_0000_0000 <= x <= 0x7fff_ffff_ffff_ffff

  predicate InInt64(x: int) {
    MinInt64 <= x <= MaxInt64
  }

  /** Two's-complement wrap-around of an unbounded integer into 64 bits. */
  function Wrap64(x: int): (r: Int64)
    ensures InInt64(x) ==> r as int == x
    ensures (x - r as int) % TwoTo64 == 0
  {
    var k := (x - MinInt64) / TwoTo64;
    var y := x - MinInt64 - k * TwoTo64 + MinInt64;
    assert x - y == k * TwoTo64;
    assert InInt64(x) ==> k == 0;
    y as Int64
  }

  /** Go's `a + b` on `int`: wraps around on overflow. */
  function Add64(a: Int64, b: Int64): (r: Int64)
    ensures InInt64(a as int + b as int) ==> r as int == a as int + b as int
    ensures (a as int + b as int - r as int) % TwoTo64 == 0
  {
    Wrap64(a as int + b as int)
  }

  /** Go's `a * b` on `int`: wraps around on overflow. */
  function Mul64(a: Int64, b: Int64): (r: Int64)
    ensures InInt64(a as int * b as int) ==> r as int == a as int * b as int
    ensures (a as int * b as int - r as int) % TwoTo64 == 0
  {
    Wrap64(a as int * b as int)
  }

  // ---------------------------------------------------------------------------
  // Time
  // ---------------------------------------------------------------------------

  /** An instant, in nanoseconds since the Unix epoch. */
  type Time = int

  /** Go's zero `time.Time` (January 1, year 1, 00:00:00 UTC), the value `IsZero` tests for. */
  const ZeroTime: Time := -62_135_596_800_000_000_000

  const Hour: int := 3_600_000_000_000
  const Day: int := 24 * Hour

  predicate IsZero(t: Time) {
    t == ZeroTime
  }

  // ---------------------------------------------------------------------------
  // The user record and the responses
  // ---------------------------------------------------------------------------

  /**
   * The columns of a user row that the reward handlers read or write; the
   * creation, update and deletion timestamps that every row also carries are
   * not modelled.
   */
  datatype User = User(
    id: nat,
    username: string,
    password: string,
    lastLogin: Time,
    lastReward: Time,
    rewardStreak: Int64,
    coins: Int64)

  /** The body of the reward-status reply, or the lookup failure. */
  datatype StatusResponse =
    | StatusNotFound
    | Status(canClaim: bool, nextReward: Time, streak: Int64)

  /** The `reward` object of a successful claim reply. */
  datatype Reward = Reward(
    baseReward: Int64,
    streakBonus: Int64,
    totalReward: Int64,
    newBalance: Int64,
    newStreak: Int64,
    nextReward: Time)

  /** The four replies of the claim handler; only `Claimed` carries a stored row. */
  datatype ClaimOutcome =
    | UserNotFound
    | TooEarly(nextReward: Time)
    | SaveFailed
    | Claimed(reward: Reward, saved: User)

  const BaseReward: Int64 := 100
  const BonusPerStreakDay: Int64 := 10

  // ---------------------------------------------------------------------------
  // The rule
  // ---------------------------------------------------------------------------

  /** The claim handler's refusal test: a previous reward less than a day ago. */
  predicate ClaimTooEarly(lastReward: Time, now: Time) {
    !IsZero(lastReward) && now < lastReward + Day
  }

  /** The streak-reset test: a previous reward more than two days ago. */
  predicate StreakLapsed(lastReward: Time, now: Time) {
    !IsZero(lastReward) && now > lastReward + 2 * Day
  }

  /** The reward-status query. */
  function GetDailyReward(lookup: Option<User>, now: Time): (r: StatusResponse)
    ensures r.StatusNotFound? <==> lookup.None?
    ensures r.Status? ==> r.streak == lookup.value.rewardStreak
    ensures r.Status? && IsZero(lookup.value.lastReward) ==> r.canClaim && IsZero(r.nextReward)
    ensures r.Status? && !IsZero(lookup.value.lastReward) ==>
              r.nextReward == lookup.value.lastReward + Day && (r.canClaim <==> now > r.nextReward)
  {
    match lookup
    case None => StatusNotFound
    case Some(user) =>
      if user.lastReward == ZeroTime then Status(true, ZeroTime, user.rewardStreak)
      else
        var nextReward := user.lastReward + 24 * Hour;
        Status(now > nextReward, nextReward, user.rewardStreak)
  }

  /**
   * The claim handler. The row is updated field by field, as the handler
   * does, and stored only when the save succeeds.
   */
  method ClaimDailyReward(lookup: Option<User>, now: Time, saveSucceeds: bool) returns (out: ClaimOutcome)
    ensures out.UserNotFound? <==> lookup.None?
    ensures out.TooEarly? <==> lookup.Some? && ClaimTooEarly(lookup.value.lastReward, now)
    ensures out.TooEarly? ==> out.nextReward == lookup.value.lastReward + Day
    ensures out.SaveFailed? <==> lookup.Some? && !ClaimTooEarly(lookup.value.lastReward, now) && !saveSucceeds
    ensures out.Claimed? ==>
              var u := lookup.value;
              var streak: Int64 := if StreakLapsed(u.lastReward, now) then 0 else u.rewardStreak;
              && out.reward.baseReward == BaseReward
              && out.reward.streakBonus == Mul64(streak, BonusPerStreakDay)
              && out.reward.totalReward == Add64(BaseReward, out.reward.streakBonus)
              && out.saved == u.(coins := Add64(u.coins, out.reward.totalReward),
                                 rewardStreak := Add64(streak, 1),
                                 lastReward := now)
              && out.reward.newBalance == out.saved.coins
              && out.reward.newStreak == out.saved.rewardStreak
              && out.reward.nextReward == now + Day
    ensures out.Claimed? ==>
              var u := lookup.value;
              var streak := if StreakLapsed(u.lastReward, now) then 0 else u.rewardStreak as int;
              && InInt64(10 * streak) && InInt64(100 + 10 * streak)
              && InInt64(u.coins as int + 100 + 10 * streak) && InInt64(streak + 1)
              ==>
                && out.reward.totalReward as int == 100 + 10 * streak
                && out.saved.coins as int == u.coins as int + 100 + 10 * streak
                && out.saved.rewardStreak as int == streak + 1
  {
    if lookup.None? {
      return UserNotFound;
    }
    var user := lookup.value;

    if user.lastReward != ZeroTime {
      var nextReward := user.lastReward + 24 * Hour;
      if now < nextReward {
        return TooEarly(nextReward);
      }
      if now > user.lastReward + 48 * Hour {
        user := user.(rewardStreak := 0);
      }
    }

    var baseReward: Int64 := 100;
    var streakBonus := Mul64(user.rewardStreak, 10);
    var totalReward := Add64(baseReward, streakBonus);

    user := user.(coins := Add64(user.coins, totalReward));
    user := user.(rewardStreak := Add64(user.rewardStreak, 1));
    user := user.(lastReward := now);

    if !saveSucceeds {
      return SaveFailed;
    }
    out := Claimed(Reward(baseReward, streakBonus, totalReward, user.coins, user.rewardStreak, user.lastReward + 24 * Hour), user);
  }

  // ---------------------------------------------------------------------------
  // How the status query and the claim relate
  // ---------------------------------------------------------------------------

  /** Whenever the status query reports that a claim is possible, the claim is not refused. */
  lemma StatusCanClaimImpliesClaimAccepted(user: User, now: Time)
    ensures GetDailyReward(Some(user), now).canClaim ==> !ClaimTooEarly(user.lastReward, now)
  {
  }

  /**
   * The two handlers disagree at exactly one instant: a day after the last
   * reward the status query says "not yet" (strict After) while the claim
   * goes through (strict Before).
   */
  lemma StatusAndClaimDisagreeExactlyAtOneDay(user: User, now: Time)
    ensures (!GetDailyReward(Some(user), now).canClaim && !ClaimTooEarly(user.lastReward, now))
            <==> (!IsZero(user.lastReward) && now == user.lastReward + Day)
  {
  }

  /** The status query's `next_reward` is the instant at which the claim stops being refused. */
  lemma NextRewardIsFirstClaimableInstant(user: User, now: Time)
    requires !IsZero(user.lastReward)
    ensures ClaimTooEarly(user.lastReward, now) <==> now < GetDailyReward(Some(user), now).nextReward
  {
  }

  /** Resolution of the store's timestamp columns: one microsecond. */
  const Microsecond: int := 1_000

  /**
   * A successful claim at `now` stores `LastReward = now`, but the store keeps
   * timestamps only to the microsecond, so a later status query reads back an
   * instant `stored` within a microsecond of `now`. That query reports
   * `next_reward = stored + 24h`, within a microsecond of the claim reply's
   * `next_reward`, and allows the next claim only strictly after it, while the
   * claim handler accepts from that instant on.
   */
  method StatusAfterClaim(user: User, now: Time, stored: Time, later: Time) returns (out: ClaimOutcome)
    requires !IsZero(stored)
    requires now - Microsecond < stored < now + Microsecond
    ensures out.Claimed? || out.TooEarly?
    ensures out.Claimed? ==>
              var s := GetDailyReward(Some(out.saved.(lastReward := stored)), later);
              && out.saved.lastReward == now
              && s.nextReward == stored + Day
              && out.reward.nextReward - Microsecond < s.nextReward < out.reward.nextReward + Microsecond
              && (s.canClaim <==> later > stored + Day)
              && (ClaimTooEarly(stored, later) <==> later < stored + Day)
  {
    out := ClaimDailyReward(Some(user), now, true);
  }
}
