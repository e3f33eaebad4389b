/**
 Player statistics and the bounded points leaderboard that summarises them.
 */
module LeaderboardModel {
  import opened Host

  const BOARD_SIZE: nat := 100
  const TOTAL_ACHIEVEMENTS: nat := 250

  datatype Tier = Bronze | Silver | Gold | Platinum

  function TierPoints(tier: Tier): nat {
    match tier
    case Bronze => 10
    case Silver => 25
    case Gold => 50
    case Platinum => 100
  }

  /** What the catalogue says about an achievement. */
  datatype Achievement = Achievement(tier: Tier, secret: bool, meta: bool)

  datatype Stats = Stats(
    unlocked: nat, points: nat,
    bronze: nat, silver: nat, gold: nat, platinum: nat,
    secret: nat, meta: nat, completionPct: nat)

  const NO_STATS := Stats(0, 0, 0, 0, 0, 0, 0, 0, 0)

  datatype Entry = Entry(player: Address, count: nat, points: nat, rank: nat)

  datatype Board = Board(stats: map<Address, Stats>, entries: seq<Entry>)

  const EMPTY_BOARD := Board(map[], [])

  function StatsOf(b: Board, player: Address): Stats {
    if player in b.stats then b.stats[player] else NO_STATS
  }

  function AddUnlock(st: Stats, a: Achievement): Stats {
    var n := st.unlocked + 1;
    Stats(
      n,
      st.points + TierPoints(a.tier),
      st.bronze + if a.tier.Bronze? then 1 else 0,
      st.silver + if a.tier.Silver? then 1 else 0,
      st.gold + if a.tier.Gold? then 1 else 0,
      st.platinum + if a.tier.Platinum? then 1 else 0,
      st.secret + if a.secret then 1 else 0,
      st.meta + if a.meta then 1 else 0,
      (n * 100) / TOTAL_ACHIEVEMENTS)
  }

  /** The u32 arithmetic that aborts the call; the per-tier counters are no larger than `unlocked`. */
  predicate Overflows(st: Stats, a: Achievement) {
    st.points + TierPoints(a.tier) > U32_MAX || (st.unlocked + 1) * 100 > U32_MAX
  }

  // ----- the list: remove, insert, truncate, rank --------------------------------------------

  function Others(entries: seq<Entry>, player: Address): seq<Entry> {
    if entries == [] then []
    else
      var last := entries[|entries| - 1];
      Others(entries[..|entries| - 1], player) + if last.player == player then [] else [last]
  }

  /** The first position whose points the newcomer reaches. */
  function InsertPoint(entries: seq<Entry>, points: nat): (k: nat)
    ensures k <= |entries|
    ensures forall i :: 0 <= i < k ==> points < entries[i].points
    ensures k < |entries| ==> points >= entries[k].points
  {
    if entries == [] || points >= entries[0].points then 0 else 1 + InsertPoint(entries[1..], points)
  }

  function Insert(entries: seq<Entry>, e: Entry): seq<Entry> {
    var k := InsertPoint(entries, e.points);
    entries[..k] + [e] + entries[k..]
  }

  function Ranked(entries: seq<Entry>): seq<Entry> {
    seq(Min(|entries|, BOARD_SIZE), i requires 0 <= i < Min(|entries|, BOARD_SIZE) => entries[i].(rank := i + 1))
  }

  function Recorded(entries: seq<Entry>, player: Address, count: nat, points: nat): seq<Entry> {
    Ranked(Insert(Others(entries, player), Entry(player, count, points, 0)))
  }

  /** Unlock an achievement: statistics first, then the leaderboard. None where the host aborts. */
  function Unlock(b: Board, player: Address, a: Achievement): Option<Board> {
    var st := StatsOf(b, player);
    if Overflows(st, a) then None
    else
      var next := AddUnlock(st, a);
      Some(Board(b.stats[player := next], Recorded(b.entries, player, next.unlocked, next.points)))
  }

  datatype Call = Call(player: Address, achievement: Achievement)

  function Run(calls: seq<Call>): Board {
    if calls == [] then EMPTY_BOARD
    else
      var before := Run(calls[..|calls| - 1]);
      match Unlock(before, calls[|calls| - 1].player, calls[|calls| - 1].achievement)
      case Some(b) => b
      case None => before
  }
}
