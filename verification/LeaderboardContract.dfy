/**
 Statistics and leaderboard as the contract runs them: stored records and vectors built in loops.
 */
module LeaderboardContract {
  import opened Host
  import opened LeaderboardModel

  class Achievements {
    var stats: map<Address, Stats>
    var entries: seq<Entry>

    ghost function Model(): Board
      reads this
    {
      Board(stats, entries)
    }

    constructor ()
      ensures Model() == EMPTY_BOARD
    {
      stats, entries := map[], [];
    }

    /** Count an unlock and refresh the leaderboard; false where the host aborts and rolls back. */
    method TryUnlock(player: Address, a: Achievement) returns (ok: bool)
      modifies this
      ensures match Unlock(old(Model()), player, a)
              case Some(b) => ok && Model() == b
              case None => !ok && Model() == old(Model())
    {
      ok := IncrementPlayerStats(player, a);
      if ok {
        RecordLeaderboardEntry(player, stats[player].unlocked, stats[player].points);
      }
    }

    method IncrementPlayerStats(player: Address, a: Achievement) returns (ok: bool)
      modifies this`stats
      ensures ok <==> !Overflows(StatsOf(old(Model()), player), a)
      ensures stats == if ok then old(stats)[player := AddUnlock(StatsOf(old(Model()), player), a)] else old(stats)
    {
      var st := if player in stats then stats[player] else NO_STATS;
      if st.points + TierPoints(a.tier) > U32_MAX || (st.unlocked + 1) * 100 > U32_MAX {
        return false;
      }
      st := st.(unlocked := st.unlocked + 1, points := st.points + TierPoints(a.tier));
      match a.tier {
        case Bronze => st := st.(bronze := st.bronze + 1);
        case Silver => st := st.(silver := st.silver + 1);
        case Gold => st := st.(gold := st.gold + 1);
        case Platinum => st := st.(platinum := st.platinum + 1);
      }
      if a.secret {
        st := st.(secret := st.secret + 1);
      }
      if a.meta {
        st := st.(meta := st.meta + 1);
      }
      st := st.(completionPct := (st.unlocked * 100) / TOTAL_ACHIEVEMENTS);
      stats := stats[player := st];
      ok := true;
    }

    /** Remove the player's old entry, insert the new one by points, keep the first hundred and number them. */
    method RecordLeaderboardEntry(player: Address, count: nat, points: nat)
      modifies this`entries
      ensures entries == Recorded(old(entries), player, count, points)
    {
      var withoutPlayer := WithoutPlayer(entries, player);
      var sorted := InsertSorted(withoutPlayer, Entry(player, count, points, 0));
      var ranked := [];
      for i := 0 to Min(|sorted|, BOARD_SIZE)
        invariant |ranked| == i && forall j :: 0 <= j < i ==> ranked[j] == sorted[j].(rank := j + 1)
      {
        ranked := ranked + [sorted[i].(rank := i + 1)];
      }
      assert ranked == Ranked(sorted);
      entries := ranked;
    }

    static method WithoutPlayer(list: seq<Entry>, player: Address) returns (out: seq<Entry>)
      ensures out == Others(list, player)
    {
      out := [];
      for i := 0 to |list|
        invariant out == Others(list[..i], player)
      {
        assert list[..i + 1][..i] == list[..i];
        if list[i].player != player {
          out := out + [list[i]];
        }
      }
      assert list[..|list|] == list;
    }

    static method InsertSorted(list: seq<Entry>, e: Entry) returns (sorted: seq<Entry>)
      ensures sorted == Insert(list, e)
    {
      hide InsertPoint;
      ghost var k := InsertPoint(list, e.points);
      sorted := [];
      var inserted := false;
      for i := 0 to |list|
        invariant inserted <==> k < i
        invariant sorted == if inserted then list[..k] + [e] + list[k..i] else list[..i]
      {
        if !inserted && e.points >= list[i].points {
          sorted := sorted + [e];
          inserted := true;
        }
        sorted := sorted + [list[i]];
      }
      assert list[k..|list|] == list[k..] && list[..|list|] == list;
      if !inserted {
        sorted := sorted + [e];
      }
    }
  }
}
