/**
 The incremental login bookkeeping against the whole claim history of each player.
 */
module DailyProofs {
  import opened Host
  import opened Arith
  import opened Sums
  import opened DailyModel

  // ----- runs of consecutive days, from the history alone ----------------------------------------

  /** The i-th claim fell on the day after the one before. */
  predicate Follows(days: seq<nat>, i: int) {
    0 < i < |days| && days[i] == days[i - 1] + 1
  }

  /** Claims lo..hi fell on consecutive days. */
  ghost predicate IsRun(days: seq<nat>, lo: int, hi: int) {
    0 <= lo < hi <= |days| && forall i :: lo < i < hi ==> Follows(days, i)
  }

  /** `n` is the length of the longest run ending with the last claim. */
  ghost predicate EndsWithRun(days: seq<nat>, n: nat) {
    if days == [] then n == 0
    else 1 <= n <= |days| && IsRun(days, |days| - n, |days|) &&
         (n < |days| ==> !Follows(days, |days| - n))
  }

  /** `n` is the length of the longest run anywhere. */
  ghost predicate LongestRun(days: seq<nat>, n: nat) {
    && (forall lo, hi :: IsRun(days, lo, hi) ==> hi - lo <= n)
    && (if days == [] then n == 0 else exists lo, hi :: IsRun(days, lo, hi) && hi - lo == n)
  }

  /** The streak a claim on day `d` reaches, read off the days before it. */
  ghost predicate StreakAfter(days: seq<nat>, d: nat, streak: nat, next: nat) {
    next == if days != [] && d == days[|days| - 1] + 1 then streak + 1 else 1
  }

  /** Appending a claim changes nothing about the earlier ones. */
  lemma SameBefore(days: seq<nat>, d: nat, i: int)
    requires i < |days|
    ensures Follows(days + [d], i) <==> Follows(days, i)
  {}

  lemma RunGrows(days: seq<nat>, d: nat, streak: nat, next: nat)
    requires EndsWithRun(days, streak) && StreakAfter(days, d, streak, next)
    ensures EndsWithRun(days + [d], next)
  {
    forall i | i < |days| ensures Follows(days + [d], i) <==> Follows(days, i) {
      SameBefore(days, d, i);
    }
  }

  lemma RunsBelow(days: seq<nat>, d: nat, lo: int, hi: int)
    requires hi <= |days|
    ensures IsRun(days + [d], lo, hi) <==> IsRun(days, lo, hi)
  {
    forall i | i < |days| ensures Follows(days + [d], i) <==> Follows(days, i) {
      SameBefore(days, d, i);
    }
  }

  lemma LongestGrows(days: seq<nat>, d: nat, streak: nat, longest: nat, next: nat)
    requires EndsWithRun(days, streak) && LongestRun(days, longest) && StreakAfter(days, d, streak, next)
    ensures LongestRun(days + [d], Max(longest, next))
  {
    hide Follows, StreakAfter;
    var all := days + [d];
    RunGrows(days, d, streak, next);
    assert IsRun(all, |all| - next, |all|) && (next < |all| ==> !Follows(all, |all| - next));
    forall lo, hi | IsRun(all, lo, hi) ensures hi - lo <= Max(longest, next) {
      if hi <= |days| {
        RunsBelow(days, d, lo, hi);
      }
    }
    if longest > next {
      LongestStill(days, d, longest);
    }
  }

  lemma LongestStill(days: seq<nat>, d: nat, longest: nat)
    requires LongestRun(days, longest) && days != []
    ensures exists lo, hi :: IsRun(days + [d], lo, hi) && hi - lo == longest
  {
    var lo, hi :| IsRun(days, lo, hi) && hi - lo == longest;
    RunsBelow(days, d, lo, hi);
  }

  // ----- what the rewards of a history are worth --------------------------------------------------

  /** The streak reached by the i-th claim. */
  function StreakAt(days: seq<nat>, i: nat): nat
    requires i < |days|
  {
    if i > 0 && days[i] == days[i - 1] + 1 then StreakAt(days, i - 1) + 1 else 1
  }

  /** Five percent more for every further day of a streak, up to 300 %. */
  function StreakBonus(streak: nat): nat {
    if streak <= 1 then 0 else Min(StreakBonus(streak - 1) + 500, 30_000)
  }

  function SlotBase(day: nat): int {
    if day == 28 then 500 else if day in {7, 14, 21} then 200 else 50
  }

  function SlotKind(day: nat): RewardKind {
    if day == 28 then CosmeticRoll
    else if day in {7, 14, 21} then ExoticMatter
    else if day in {2, 8, 20, 26} then StellarDust
    else if day in {4, 10, 16, 22} then DarkMatter
    else if day in {5, 6, 11, 12, 17, 18, 23, 24} then Energy
    else Essence
  }

  /** The reward of a calendar day at a streak, written out. */
  function Granted(day: nat, streak: nat): Reward {
    var base, bonus := SlotBase(day), StreakBonus(streak);
    Reward(day, SlotKind(day), base, base * (10_000 + bonus) / 10_000, bonus, day in {7, 14, 21, 28})
  }

  lemma {:induction false} BonusExactly(streak: nat)
    ensures StreakBonus(streak) == BonusOf(streak)
    ensures StreakBonus(streak) == 30_000 <==> streak >= 61
    ensures 1 <= streak <= 61 ==> StreakBonus(streak) == 500 * (streak - 1)
  {
    if streak > 1 {
      BonusExactly(streak - 1);
    }
  }

  /** The calendar: every day from 1 to 28 grants its reward, and there are no other days. */
  lemma RewardExactly(day: nat, streak: nat)
    ensures Resolve(day, streak) == if 1 <= day <= 28 then Ok(Granted(day, streak)) else Err(InvalidCalendarDay)
  {
    hide BonusOf, StreakBonus;
    BonusExactly(streak);
  }

  /** The i-th reward of a history: calendar slot by claim count, amount by streak. */
  function RewardAt(days: seq<nat>, i: nat): Reward
    requires i < |days|
  {
    Granted(i % 28 + 1, StreakAt(days, i))
  }

  lemma NextDayInRange(claims: nat)
    ensures 1 <= NextDay(claims) <= CALENDAR_DAYS
    ensures NextDay(claims) == CALENDAR_DAYS <==> (claims + 1) % CALENDAR_DAYS == 0
  {}

  function Worth(days: seq<nat>): int {
    if days == [] then 0 else Worth(days[..|days| - 1]) + RewardAt(days, |days| - 1).amount
  }

  function BaseWorth(days: seq<nat>): int {
    if days == [] then 0 else BaseWorth(days[..|days| - 1]) + RewardAt(days, |days| - 1).baseAmount
  }

  /** The bonus lies between nothing and 300 %. */
  lemma RewardBounds(day: nat, streak: nat)
    requires 1 <= day <= CALENDAR_DAYS
    ensures var r := Resolve(day, streak).value;
            && 50 <= r.baseAmount <= 500 && r.baseAmount <= r.amount <= 4 * r.baseAmount && r.bonus <= MAX_BONUS
  {
    var base, factor := BaseAmount(day), 10_000 + BonusOf(streak);
    MulMono(base, 10_000, factor);
    MulMono(base, factor, 40_000);
    DivMono(base * 10_000, base * factor, 10_000);
    DivMono(base * factor, base * 40_000, 10_000);
  }

  lemma {:induction false} WorthBounds(days: seq<nat>)
    ensures BaseWorth(days) <= Worth(days) <= 4 * BaseWorth(days) && 50 * |days| <= BaseWorth(days) <= 500 * |days|
  {
    hide Resolve, Granted;
    if days != [] {
      var n := |days| - 1;
      WorthBounds(days[..n]);
      RewardExactly(n % 28 + 1, StreakAt(days, n));
      RewardBounds(n % 28 + 1, StreakAt(days, n));
    }
  }

  lemma {:induction false} StreakAtAppend(days: seq<nat>, d: nat, i: nat)
    requires i < |days|
    ensures StreakAt(days + [d], i) == StreakAt(days, i)
  {
    if i > 0 {
      StreakAtAppend(days, d, i - 1);
    }
  }

  /**
   The calendar is said never to repeat a kind on adjacent days. It does so on exactly the pairs
   (5,6), (11,12), (17,18) and (23,24), which all pay energy.
   */
  lemma AdjacentKinds(day: nat)
    requires 1 <= day < CALENDAR_DAYS
    ensures KindOf(day) == KindOf(day + 1) <==> day % 6 == 5
    ensures KindOf(day) == KindOf(day + 1) ==> KindOf(day) == Energy
    ensures KindOf(day) == ExoticMatter || KindOf(day) == CosmeticRoll <==> Milestone(day)
  {}

  // ----- the record of a history ------------------------------------------------------------------

  /** The stored record says about a non-empty history exactly what it is. */
  ghost predicate Describes(r: LoginRecord, days: seq<nat>) {
    && days != [] && r.lastDay == days[|days| - 1]
    && EndsWithRun(days, r.streak) && r.streak == StreakAt(days, |days| - 1)
    && LongestRun(days, r.longest)
    && r.claims == |days| <= U32_MAX && r.cycles == |days| / CALENDAR_DAYS
    && r.lifetime == Worth(days)
  }

  lemma CyclesGrow(n: nat)
    ensures (n + 1) / CALENDAR_DAYS == n / CALENDAR_DAYS + if NextDay(n) == CALENDAR_DAYS then 1 else 0
  {}

  lemma FirstClaim(today: nat, reward: Reward)
    requires reward == RewardAt([today], 0)
    ensures Describes(NextRecord(NEVER_CLAIMED, today, 1, reward), [today])
  {
    assert IsRun([today], 0, 1);
    assert [today][..0] == [];
    assert Worth([today]) == reward.amount;
  }

  lemma NextClaim(r: LoginRecord, days: seq<nat>, today: nat, reward: Reward)
    requires Describes(r, days) && r.lastDay < today && r.claims + 1 <= U32_MAX
    requires reward == RewardAt(days + [today], |days|)
    ensures NextStreak(r, today) == StreakAt(days + [today], |days|)
    ensures Describes(NextRecord(r, today, NextStreak(r, today), reward), days + [today])
  {
    hide EndsWithRun, LongestRun, SlotKind, SlotBase, StreakBonus;
    StreakNoMoreThanClaims(days, r.streak);
    var all, next := days + [today], NextStreak(r, today);
    StreakAtAppend(days, today, |days| - 1);
    RunGrows(days, today, r.streak, next);
    LongestGrows(days, today, r.streak, r.longest, next);
    CyclesGrow(|days|);
    assert all[..|days|] == days;
  }

  lemma StreakNoMoreThanClaims(days: seq<nat>, streak: nat)
    requires EndsWithRun(days, streak)
    ensures streak <= |days|
  {}

  // ----- every run ------------------------------------------------------------------------------------

  datatype Op =
    | ClaimOp(player: Address)
    | CreateProfileOp(player: Address)
    | EssenceOp(player: Address, essence: int)

  /** Profiles appear, and other subsystems change their essence, in any way between claims. */
  datatype Call = Call(op: Op, now: nat)

  function Step(s: Rewards, call: Call): Rewards {
    match call.op
    case ClaimOp(player) => if Claim(s, player, call.now).Ok? then Claim(s, player, call.now).value.0 else s
    case CreateProfileOp(player) =>
      if player in s.profiles then s else s.(profiles := s.profiles[player := Profile(0, 0, 0, 0)])
    case EssenceOp(player, essence) =>
      if player in s.profiles then s.(profiles := s.profiles[player := s.profiles[player].(essence := essence)]) else s
  }

  function Run(calls: seq<Call>): Rewards {
    if calls == [] then NO_REWARDS else Step(Run(calls[..|calls| - 1]), calls[|calls| - 1])
  }

  /** The days on which a player's claims succeeded. */
  function ClaimDays(calls: seq<Call>, player: Address): seq<nat> {
    if calls == [] then []
    else
      var before, call := calls[..|calls| - 1], calls[|calls| - 1];
      ClaimDays(before, player) +
      if call.op == ClaimOp(player) && Claim(Run(before), player, call.now).Ok? then [call.now / 86_400] else []
  }

  /** One player's record, profile copy and history agree. */
  ghost predicate PlayerOk(s: Rewards, player: Address, days: seq<nat>) {
    if player in s.records then
      && Describes(s.records[player], days)
      && player in s.profiles
      && s.profiles[player].streak == s.records[player].streak
      && s.profiles[player].longest == s.records[player].longest
      && s.profiles[player].lastDay == s.records[player].lastDay
    else
      days == [] && (player in s.profiles ==> s.profiles[player].lastDay == 0 && s.profiles[player].longest == 0)
  }

  /** Exactly when a claim succeeds: the player has a profile, has not claimed today, and nothing overflows. */
  lemma ClaimExactly(s: Rewards, player: Address, now: nat)
    ensures var today, known := now / 86_400, player in s.records;
            var r := if known then s.records[player] else NEVER_CLAIMED;
            var streak := if known && today == r.lastDay + 1 then Min(r.streak + 1, U32_MAX) else 1;
            var amount := Granted(r.claims % 28 + 1, streak).amount;
            Claim(s, player, now).Ok? <==>
            && player in s.profiles && (known ==> r.lastDay < today)
            && r.claims < U32_MAX && IsI128(r.lifetime + amount) && IsI128(s.profiles[player].essence + amount)
  {
    hide Resolve, Granted;
    var r := if player in s.records then s.records[player] else NEVER_CLAIMED;
    RewardExactly(NextDay(r.claims), if player in s.records then NextStreak(r, now / 86_400) else 1);
  }

  /** Copying a login again changes nothing, and an earlier day is ignored. */
  lemma LoginIdempotent(p: Profile, day: nat, streak: nat, again: nat, earlier: nat)
    requires 0 < earlier <= day
    ensures Mirror(Mirror(p, day, streak), earlier, again) == Mirror(p, day, streak)
  {}

  /** A claim credits the reward to the claimer's essence and leaves every other player alone. */
  lemma ClaimPays(s: Rewards, player: Address, now: nat, other: Address)
    requires Claim(s, player, now).Ok?
    ensures var (s', reward) := Claim(s, player, now).value;
            && player in s'.profiles && s'.profiles[player].essence == s.profiles[player].essence + reward.amount
            && s'.profiles.Keys == s.profiles.Keys && s'.records.Keys == s.records.Keys + {player}
            && (other != player && other in s.profiles ==> s'.profiles[other] == s.profiles[other])
            && (other != player && other in s.records ==> s'.records[other] == s.records[other])
  {
    hide Resolve;
  }

  /** A successful claim grants the next reward of the history and extends it by today. */
  lemma ClaimExtends(s: Rewards, player: Address, now: nat, days: seq<nat>)
    requires PlayerOk(s, player, days) && Claim(s, player, now).Ok?
    ensures var (s', reward) := Claim(s, player, now).value;
            && reward == RewardAt(days + [now / 86_400], |days|)
            && PlayerOk(s', player, days + [now / 86_400])
  {
    hide Describes, Resolve, Granted;
    var today, known := now / 86_400, player in s.records;
    var (s', reward) := Claim(s, player, now).value;
    if known {
      DescribesClaims(s.records[player], days);
      StreakReached(s.records[player], days, today);
      RewardExactly(NextDay(|days|), NextStreak(s.records[player], today));
      NextClaim(s.records[player], days, today, reward);
    } else {
      assert [] + [today] == [today];
      RewardExactly(1, 1);
      FirstClaim(today, reward);
    }
  }

  lemma DescribesClaims(r: LoginRecord, days: seq<nat>)
    requires Describes(r, days)
    ensures r.claims == |days| && days != []
  {}

  lemma StreakReached(r: LoginRecord, days: seq<nat>, today: nat)
    requires Describes(r, days) && r.claims + 1 <= U32_MAX
    ensures NextStreak(r, today) == StreakAt(days + [today], |days|)
  {
    StreakNoMoreThanClaims(days, r.streak);
    StreakAtAppend(days, today, |days| - 1);
  }

  lemma OthersUntouched(s: Rewards, call: Call, player: Address, days: seq<nat>)
    requires PlayerOk(s, player, days) && call.op != ClaimOp(player)
    ensures PlayerOk(Step(s, call), player, days)
  {
    hide Describes, Resolve, Mirror;
  }

  /**
   In every run each player's record describes the whole history of their claims: the streak is the
   consecutive run ending at the last claim, the longest is the maximum run, cycles are claims / 28
   and the lifetime value is the sum of the resolved rewards; the profile carries the same streak.
   */
  lemma {:induction false} RecordDescribesHistory(calls: seq<Call>, player: Address)
    ensures PlayerOk(Run(calls), player, ClaimDays(calls, player))
  {
    if calls != [] {
      hide Claim, PlayerOk;
      var before, call := calls[..|calls| - 1], calls[|calls| - 1];
      RecordDescribesHistory(before, player);
      assert ClaimDays(before, player) + [] == ClaimDays(before, player);
      if call.op == ClaimOp(player) {
        if Claim(Run(before), player, call.now).Ok? {
          ClaimExtends(Run(before), player, call.now, ClaimDays(before, player));
        }
      } else {
        OthersUntouched(Run(before), call, player, ClaimDays(before, player));
      }
    } else {
      assert PlayerOk(NO_REWARDS, player, []);
    }
  }

  /** `n` is the length of the run of claims that ends no earlier than yesterday, or zero if there is none. */
  ghost predicate StreakStands(days: seq<nat>, today: nat, n: nat) {
    if days == [] || days[|days| - 1] + 1 < today then n == 0 else n > 0 && EndsWithRun(days, n)
  }

  lemma StreakOfHistory(s: Rewards, player: Address, now: nat, days: seq<nat>)
    requires PlayerOk(s, player, days)
    ensures StreakStands(days, now / 86_400, CurrentStreak(s, player, now))
  {
    if player in s.records {
      StreakPositive(days, s.records[player].streak);
    }
  }

  lemma StreakPositive(days: seq<nat>, streak: nat)
    requires days != [] && streak == StreakAt(days, |days| - 1)
    ensures streak > 0
  {}

  /** In every run the streak read back is the run of claim days that ends today or yesterday. */
  lemma CurrentStreakIsRun(calls: seq<Call>, player: Address, now: nat)
    ensures StreakStands(ClaimDays(calls, player), now / 86_400, CurrentStreak(Run(calls), player, now))
  {
    hide Run, ClaimDays, PlayerOk, StreakStands, CurrentStreak;
    RecordDescribesHistory(calls, player);
    StreakOfHistory(Run(calls), player, now, ClaimDays(calls, player));
  }

  /** Lifetime value lies between the sum of base amounts and four times it. */
  lemma LifetimeBounds(calls: seq<Call>, player: Address)
    requires player in Run(calls).records
    ensures var days, r := ClaimDays(calls, player), Run(calls).records[player];
            r.lifetime == Worth(days) && BaseWorth(days) <= r.lifetime <= 4 * BaseWorth(days)
  {
    RecordDescribesHistory(calls, player);
    WorthBounds(ClaimDays(calls, player));
  }

  /** The preview is the next reward of the history, or refused on a day already claimed. */
  lemma PreviewOfHistory(s: Rewards, player: Address, now: nat, days: seq<nat>)
    requires PlayerOk(s, player, days) && |days| < U32_MAX
    ensures var today := now / 86_400;
            Preview(s, player, now) ==
            if days != [] && today <= days[|days| - 1] then Err(AlreadyClaimedToday)
            else Ok(RewardAt(days + [today], |days|))
  {
    hide Resolve, Granted, EndsWithRun, LongestRun;
    var today := now / 86_400;
    if player in s.records {
      StreakReached(s.records[player], days, today);
      RewardExactly(NextDay(|days|), NextStreak(s.records[player], today));
    } else {
      assert [] + [today] == [today];
      RewardExactly(1, 1);
    }
  }

  /** For a player with a profile the preview is the reward the next claim grants, or the reason it is refused. */
  lemma PreviewIsNextReward(s: Rewards, player: Address, now: nat)
    requires player in s.profiles
    ensures match Preview(s, player, now)
            case Err(error) => Claim(s, player, now) == Err(error)
            case Ok(reward) =>
              match Claim(s, player, now)
              case Ok(granted) => granted.1 == reward
              case Err(error) => error == ArithmeticOverflow
  {
    hide KindOf, BaseAmount, BonusOf, Mirror;
  }

  // ----- global totals ------------------------------------------------------------------------------------

  ghost function ClaimsOf(s: Rewards): map<Address, int> {
    map p | p in s.records :: s.records[p].claims
  }

  ghost function LifetimesOf(s: Rewards): map<Address, int> {
    map p | p in s.records :: s.records[p].lifetime
  }

  /** The global counters are the sums over all players, up to their saturation. */
  ghost predicate TotalsOk(s: Rewards) {
    && s.totalClaims == Min(SumValues(ClaimsOf(s)), U64_MAX)
    && s.totalPaid == Min(SumValues(LifetimesOf(s)), I128_MAX)
    && s.uniqueClaimers == Min(|s.records|, U64_MAX)
  }

  /** A claim adds one to the player's count and a positive reward to their value, and the same to the totals. */
  lemma ClaimAdds(s: Rewards, player: Address, now: nat)
    requires Claim(s, player, now).Ok?
    ensures var (s', reward) := Claim(s, player, now).value;
            var r := if player in s.records then s.records[player] else NEVER_CLAIMED;
            && reward.amount > 0 && player in s'.records && s'.records == s.records[player := s'.records[player]]
            && s'.records[player].claims == r.claims + 1 && s'.records[player].lifetime == r.lifetime + reward.amount
            && s'.totalClaims == Min(s.totalClaims + 1, U64_MAX)
            && s'.totalPaid == Min(s.totalPaid + reward.amount, I128_MAX)
            && s'.uniqueClaimers == (if player in s.records then s.uniqueClaimers
                                     else Min(s.uniqueClaimers + 1, U64_MAX))
  {
    hide KindOf, BaseAmount, BonusOf, Mirror;
    var today, known := now / 86_400, player in s.records;
    var r := if known then s.records[player] else NEVER_CLAIMED;
    NextDayInRange(r.claims);
    RewardBounds(NextDay(r.claims), if known then NextStreak(r, today) else 1);
  }

  lemma ClaimsAfter(s: Rewards, s': Rewards, player: Address)
    requires player in s'.records && s'.records == s.records[player := s'.records[player]]
    ensures SumValues(ClaimsOf(s')) ==
            SumValues(ClaimsOf(s)) + s'.records[player].claims -
            (if player in s.records then s.records[player].claims else 0)
  {
    hide SumValues;
    SumUpdate(ClaimsOf(s), player, s'.records[player].claims);
    assert ClaimsOf(s') == ClaimsOf(s)[player := s'.records[player].claims];
  }

  lemma LifetimesAfter(s: Rewards, s': Rewards, player: Address)
    requires player in s'.records && s'.records == s.records[player := s'.records[player]]
    ensures SumValues(LifetimesOf(s')) ==
            SumValues(LifetimesOf(s)) + s'.records[player].lifetime -
            (if player in s.records then s.records[player].lifetime else 0)
  {
    hide SumValues;
    SumUpdate(LifetimesOf(s), player, s'.records[player].lifetime);
    assert LifetimesOf(s') == LifetimesOf(s)[player := s'.records[player].lifetime];
  }

  lemma ClaimersAfter(s: Rewards, s': Rewards, player: Address)
    requires player in s'.records && s'.records == s.records[player := s'.records[player]]
    ensures |s'.records| == |s.records| + (if player in s.records then 0 else 1)
  {
    assert s'.records.Keys == s.records.Keys + {player};
  }

  lemma ClaimTotals(s: Rewards, player: Address, now: nat)
    requires TotalsOk(s) && Claim(s, player, now).Ok?
    ensures TotalsOk(Claim(s, player, now).value.0)
  {
    hide Claim, SumValues, ClaimsOf, LifetimesOf;
    ClaimAdds(s, player, now);
    var s' := Claim(s, player, now).value.0;
    ClaimsAfter(s, s', player);
    LifetimesAfter(s, s', player);
    ClaimersAfter(s, s', player);
  }

  /** After every run the global totals are the sums over all players. */
  lemma {:induction false} RunTotals(calls: seq<Call>)
    ensures TotalsOk(Run(calls))
  {
    if calls == [] {
      assert ClaimsOf(NO_REWARDS) == map[] && LifetimesOf(NO_REWARDS) == map[];
    } else {
      hide Claim, SumValues;
      var before, call := calls[..|calls| - 1], calls[|calls| - 1];
      RunTotals(before);
      var s, s' := Run(before), Run(calls);
      if call.op.ClaimOp? && Claim(s, call.op.player, call.now).Ok? {
        ClaimTotals(s, call.op.player, call.now);
      } else {
        assert ClaimsOf(s') == ClaimsOf(s) && LifetimesOf(s') == LifetimesOf(s);
      }
    }
  }
}
