/**
 Player statistics as functions of everything the player ever unlocked.
 */
module LeaderboardHistory {
  import opened Host
  import opened LeaderboardModel
  import opened LeaderboardProofs

  function Worth(tier: Tier): nat {
    if tier == Bronze then 10 else if tier == Silver then 25 else if tier == Gold then 50 else 100
  }

  function Points(unlocked: seq<Achievement>): nat {
    if unlocked == [] then 0 else Points(unlocked[..|unlocked| - 1]) + Worth(unlocked[|unlocked| - 1].tier)
  }

  function OfTier(unlocked: seq<Achievement>, tier: Tier): nat {
    if unlocked == [] then 0
    else OfTier(unlocked[..|unlocked| - 1], tier) + if unlocked[|unlocked| - 1].tier == tier then 1 else 0
  }

  function Secrets(unlocked: seq<Achievement>): nat {
    if unlocked == [] then 0 else Secrets(unlocked[..|unlocked| - 1]) + if unlocked[|unlocked| - 1].secret then 1 else 0
  }

  function Metas(unlocked: seq<Achievement>): nat {
    if unlocked == [] then 0 else Metas(unlocked[..|unlocked| - 1]) + if unlocked[|unlocked| - 1].meta then 1 else 0
  }

  /** Whether one more unlock keeps the points and the completion product within a u32. */
  predicate Countable(unlocked: seq<Achievement>, a: Achievement) {
    Points(unlocked) + Worth(a.tier) <= U32_MAX && (|unlocked| + 1) * 100 <= U32_MAX
  }

  /** What a player has unlocked, read off the calls alone. */
  function Unlocked(calls: seq<Call>, player: Address): seq<Achievement> {
    if calls == [] then []
    else
      var before, call := Unlocked(calls[..|calls| - 1], player), calls[|calls| - 1];
      if call.player == player && Countable(before, call.achievement) then before + [call.achievement] else before
  }

  /** The statistics of a history: completion is the percentage of 250 achievements. */
  function StatsFor(h: seq<Achievement>): Stats {
    Stats(|h|, Points(h), OfTier(h, Bronze), OfTier(h, Silver), OfTier(h, Gold), OfTier(h, Platinum),
          Secrets(h), Metas(h), |h| * 100 / 250)
  }

  lemma StatsGrow(h: seq<Achievement>, a: Achievement)
    ensures AddUnlock(StatsFor(h), a) == StatsFor(h + [a])
    ensures Overflows(StatsFor(h), a) <==> !Countable(h, a)
  {
    assert (h + [a])[..|h|] == h;
  }

  lemma UnlockStats(b: Board, player: Address, a: Achievement, p: Address)
    ensures Unlock(b, player, a).Some? <==> !Overflows(StatsOf(b, player), a)
    ensures Unlock(b, player, a).Some? ==>
              StatsOf(Unlock(b, player, a).value, p) ==
              (if p == player then AddUnlock(StatsOf(b, p), a) else StatsOf(b, p))
    ensures Unlock(b, player, a).Some? ==> (p in Unlock(b, player, a).value.stats <==> p == player || p in b.stats)
  {
    hide Recorded, AddUnlock, Overflows;
  }

  /** After every run each player's statistics are those of everything they unlocked. */
  lemma {:induction false} StatsOfHistory(calls: seq<Call>, player: Address)
    ensures StatsOf(Run(calls), player) == StatsFor(Unlocked(calls, player))
    ensures player in Run(calls).stats <==> Unlocked(calls, player) != []
  {
    if calls != [] {
      var before, call := calls[..|calls| - 1], calls[|calls| - 1];
      StatsOfHistory(before, player);
      StatsGrow(Unlocked(before, player), call.achievement);
      UnlockStats(Run(before), call.player, call.achievement, player);
      hide StatsFor, AddUnlock, Unlock, StatsOf, Countable, Overflows;
    }
  }

  /** After every run each entry of the leaderboard shows the number and the points of what its player unlocked. */
  lemma EntriesShowHistory(calls: seq<Call>, e: Entry)
    requires e in Run(calls).entries
    ensures e.count == |Unlocked(calls, e.player)| && e.points == Points(Unlocked(calls, e.player))
  {
    hide Run, Unlocked, Points, NobodyOvertakes, Distinct, Descending;
    RunOk(calls);
    StatsOfHistory(calls, e.player);
  }
}
