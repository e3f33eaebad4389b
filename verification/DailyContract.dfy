/**
 Daily rewards as the contract runs them: the player record and the global totals updated per claim.
 */
module DailyContract {
  import opened Host
  import opened DailyModel
  import opened DailyProofs

  class DailyRewards {
    var records: map<Address, LoginRecord>
    var profiles: map<Address, Profile>
    var totalClaims: nat
    var totalPaid: int
    var uniqueClaimers: nat

    ghost function Model(): Rewards
      reads this
    {
      Rewards(records, profiles, totalClaims, totalPaid, uniqueClaimers)
    }

    constructor ()
      ensures Model() == NO_REWARDS
    {
      records, profiles, totalClaims, totalPaid, uniqueClaimers := map[], map[], 0, 0, 0;
    }

    /** Whatever the player's claim days are, the length of their run that ends today or yesterday, else zero. */
    method GetStreak(player: Address, now: nat) returns (streak: nat)
      ensures streak == CurrentStreak(Model(), player, now)
      ensures forall days :: PlayerOk(Model(), player, days) ==> StreakStands(days, now / DAY_SECS, streak)
    {
      forall days | PlayerOk(Model(), player, days)
        ensures StreakStands(days, now / DAY_SECS, CurrentStreak(Model(), player, now))
      {
        StreakOfHistory(Model(), player, now, days);
      }
      hide PlayerOk, StreakStands;
      if player !in records {
        return 0;
      }
      var today := now / DAY_SECS;
      streak := if today <= records[player].lastDay + 1 then records[player].streak else 0;
    }

    method PreviewDailyReward(player: Address, now: nat) returns (r: Result<Reward, DailyError>)
      ensures r == Preview(Model(), player, now)
    {
      hide Resolve;
      var today := now / DAY_SECS;
      var claims, streak := 0, 1;
      if player in records {
        var record := records[player];
        if today <= record.lastDay {
          return Err(AlreadyClaimedToday);
        }
        claims := record.claims;
        if today == record.lastDay + 1 {
          streak := Min(record.streak + 1, U32_MAX);
        }
      }
      r := Resolve(NextDay(claims), streak);
    }

    /** The whole calendar at a hypothetical streak. */
    method GetRewardCalendar(streak: nat) returns (calendar: seq<Reward>)
      ensures |calendar| == 28
      ensures forall d :: 1 <= d <= 28 ==> calendar[d - 1] == Granted(d, streak)
    {
      hide Resolve, Granted;
      calendar := [];
      for day := 1 to CALENDAR_DAYS + 1
        invariant |calendar| == day - 1
        invariant forall d :: 1 <= d < day ==> calendar[d - 1] == Granted(d, streak)
      {
        RewardExactly(day, streak);
        var reward := Resolve(day, streak);
        if reward.Ok? {
          calendar := calendar + [reward.value];
        }
      }
    }

    /** Advance the calendar, extend or reset the streak, credit the payout and count it. */
    method ClaimDailyReward(player: Address, now: nat) returns (r: Result<Reward, DailyError>)
      modifies this
      ensures match Claim(old(Model()), player, now)
              case Ok((s, reward)) => r == Ok(reward) && Model() == s
              case Err(error) => r == Err(error) && Model() == old(Model())
    {
      hide Resolve;
      if player !in profiles {
        return Err(ProfileNotFound);
      }
      var today := now / DAY_SECS;
      var existing := player in records;
      var before := if existing then records[player] else NEVER_CLAIMED;
      if existing && today <= before.lastDay {
        return Err(AlreadyClaimedToday);
      }
      var continues := existing && today == before.lastDay + 1;
      var streak := if continues then Min(before.streak + 1, U32_MAX) else 1;
      var calendarDay := NextDay(before.claims);
      var resolved := Resolve(calendarDay, streak);
      if resolved.Err? {
        return Err(resolved.error);
      }
      var reward := resolved.value;
      if before.claims + 1 > U32_MAX || !IsI128(before.lifetime + reward.amount) {
        return Err(ArithmeticOverflow);
      }
      var credited := Settle(player, before, today, streak, reward);
      if !credited {
        return Err(ArithmeticOverflow);
      }
      CountClaim(!existing, reward.amount);
      r := Ok(reward);
    }

    /** Store the record and the profile; a failed essence credit rolls both back. */
    method Settle(player: Address, before: LoginRecord, today: nat, streak: nat, reward: Reward) returns (ok: bool)
      requires player in profiles
      modifies this`records, this`profiles
      ensures var mirrored := Mirror(old(profiles)[player], today, streak);
              && (ok <==> IsI128(mirrored.essence + reward.amount))
              && records == (if ok then old(records)[player := NextRecord(before, today, streak, reward)]
                             else old(records))
              && profiles == (if ok then old(profiles)[player := mirrored.(essence := mirrored.essence + reward.amount)]
                              else old(profiles))
    {
      var savedRecords, savedProfiles := records, profiles;
      var cycles := if reward.calendarDay == CALENDAR_DAYS then Min(before.cycles + 1, U32_MAX) else before.cycles;
      records := records[player := LoginRecord(today, streak, Max(before.longest, streak), before.claims + 1, cycles,
                                               before.lifetime + reward.amount)];
      RecordLogin(player, today, streak);
      if !IsI128(profiles[player].essence + reward.amount) {
        records, profiles := savedRecords, savedProfiles;
        return false;
      }
      profiles := profiles[player := profiles[player].(essence := profiles[player].essence + reward.amount)];
      ok := true;
    }

    method CountClaim(first: bool, amount: int)
      modifies this`totalClaims, this`totalPaid, this`uniqueClaimers
      ensures totalClaims == Min(old(totalClaims) + 1, U64_MAX)
      ensures totalPaid == Min(old(totalPaid) + amount, I128_MAX)
      ensures uniqueClaimers == if first then Min(old(uniqueClaimers) + 1, U64_MAX) else old(uniqueClaimers)
    {
      totalClaims := Min(totalClaims + 1, U64_MAX);
      totalPaid := Min(totalPaid + amount, I128_MAX);
      if first {
        uniqueClaimers := Min(uniqueClaimers + 1, U64_MAX);
      }
    }

    /** Copy the streak to the profile, ignoring a day it has already seen. */
    method RecordLogin(player: Address, day: nat, streak: nat)
      requires player in profiles
      modifies this`profiles
      ensures profiles == old(profiles)[player := Mirror(old(profiles)[player], day, streak)]
    {
      var p := profiles[player];
      if day <= p.lastDay && p.lastDay != 0 {
        return;
      }
      profiles := profiles[player := p.(streak := streak, longest := Max(p.longest, streak), lastDay := day)];
    }
  }
}
