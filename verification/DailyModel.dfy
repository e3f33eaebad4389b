/**
 Daily login rewards as a value: the reward calendar, the player records and the global totals.
 */
module DailyModel {
  import opened Host

  const DAY_SECS: nat := 86_400
  const CALENDAR_DAYS: nat := 28
  const BONUS_PER_DAY: nat := 500
  const MAX_BONUS: nat := 30_000
  const BASE_ESSENCE: nat := 50
  const MILESTONE_MULTIPLIER: nat := 4
  const CYCLE_MULTIPLIER: nat := 10

  datatype DailyError = AlreadyClaimedToday | ProfileNotFound | ArithmeticOverflow | InvalidCalendarDay

  datatype RewardKind = Essence | StellarDust | DarkMatter | ExoticMatter | Energy | CosmeticRoll

  datatype Reward = Reward(calendarDay: nat, kind: RewardKind, baseAmount: int, amount: int, bonus: nat,
                           milestone: bool)

  datatype LoginRecord = LoginRecord(lastDay: nat, streak: nat, longest: nat, claims: nat, cycles: nat, lifetime: int)

  /** The part of a player profile that claims touch. */
  datatype Profile = Profile(streak: nat, longest: nat, lastDay: nat, essence: int)

  datatype Rewards = Rewards(
    records: map<Address, LoginRecord>,
    profiles: map<Address, Profile>,
    totalClaims: nat,
    totalPaid: int,
    uniqueClaimers: nat)

  const NO_REWARDS := Rewards(map[], map[], 0, 0, 0)

  // ----- the calendar --------------------------------------------------------------------------

  predicate Milestone(day: nat) {
    day % 7 == 0
  }

  function KindOf(day: nat): RewardKind {
    if day == CALENDAR_DAYS then CosmeticRoll
    else if Milestone(day) then ExoticMatter
    else match day % 6
      case 0 => Energy
      case 1 => Essence
      case 2 => StellarDust
      case 3 => Essence
      case 4 => DarkMatter
      case _ => Energy
  }

  function BaseAmount(day: nat): int {
    if day == CALENDAR_DAYS then BASE_ESSENCE * CYCLE_MULTIPLIER
    else if Milestone(day) then BASE_ESSENCE * MILESTONE_MULTIPLIER
    else BASE_ESSENCE
  }

  function BonusOf(streak: nat): nat {
    Min(Min(MinusOrZero(streak, 1) * BONUS_PER_DAY, U32_MAX), MAX_BONUS)
  }

  function Resolve(day: nat, streak: nat): (r: Result<Reward, DailyError>)
    ensures r.Ok? ==> r.value.calendarDay == day
  {
    if day == 0 || day > CALENDAR_DAYS then Err(InvalidCalendarDay)
    else
      var base := BaseAmount(day);
      Ok(Reward(day, KindOf(day), base, base * (10_000 + BonusOf(streak)) / 10_000, BonusOf(streak), Milestone(day)))
  }

  function NextDay(claims: nat): nat {
    claims % CALENDAR_DAYS + 1
  }

  // ----- claiming -------------------------------------------------------------------------------

  /** The streak a claim on `today` reaches. */
  function NextStreak(r: LoginRecord, today: nat): nat {
    if today == r.lastDay + 1 then Min(r.streak + 1, U32_MAX) else 1
  }

  /** The streak as read back: zero once a day has been missed. */
  function CurrentStreak(s: Rewards, player: Address, now: nat): nat {
    if player in s.records && now / DAY_SECS <= s.records[player].lastDay + 1 then s.records[player].streak else 0
  }

  function Preview(s: Rewards, player: Address, now: nat): Result<Reward, DailyError> {
    var today := now / DAY_SECS;
    if player !in s.records then Resolve(NextDay(0), 1)
    else if today <= s.records[player].lastDay then Err(AlreadyClaimedToday)
    else Resolve(NextDay(s.records[player].claims), NextStreak(s.records[player], today))
  }

  const NEVER_CLAIMED := LoginRecord(0, 0, 0, 0, 0, 0)

  /** The record after a claim that grants `reward` at streak `streak`. */
  function NextRecord(r: LoginRecord, today: nat, streak: nat, reward: Reward): LoginRecord {
    LoginRecord(today, streak, Max(r.longest, streak), r.claims + 1,
                if reward.calendarDay == CALENDAR_DAYS then Min(r.cycles + 1, U32_MAX) else r.cycles,
                r.lifetime + reward.amount)
  }

  /** The profile's copy of the streak ignores a day it has already seen. */
  function Mirror(p: Profile, today: nat, streak: nat): Profile {
    if today <= p.lastDay && p.lastDay != 0 then p
    else p.(streak := streak, longest := Max(p.longest, streak), lastDay := today)
  }

  /** What a claim at this moment grants and records, or why it fails. */
  function Claim(s: Rewards, player: Address, now: nat): Result<(Rewards, Reward), DailyError> {
    if player !in s.profiles then Err(ProfileNotFound)
    else
      var today, known := now / DAY_SECS, player in s.records;
      var r := if known then s.records[player] else NEVER_CLAIMED;
      if known && today <= r.lastDay then Err(AlreadyClaimedToday)
      else
        var streak := if known then NextStreak(r, today) else 1;
        match Resolve(NextDay(r.claims), streak)
        case Err(error) => Err(error)
        case Ok(reward) =>
          var mirrored := Mirror(s.profiles[player], today, streak);
          if r.claims + 1 > U32_MAX || !IsI128(r.lifetime + reward.amount) || !IsI128(mirrored.essence + reward.amount)
          then Err(ArithmeticOverflow)
          else Ok((Rewards(
            s.records[player := NextRecord(r, today, streak, reward)],
            s.profiles[player := mirrored.(essence := mirrored.essence + reward.amount)],
            Min(s.totalClaims + 1, U64_MAX),
            Min(s.totalPaid + reward.amount, I128_MAX),
            if known then s.uniqueClaimers else Min(s.uniqueClaimers + 1, U64_MAX)), reward))
  }
}
