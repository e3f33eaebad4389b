/**
 The bounded leaderboard always agrees with the statistics of all players.
 */
module LeaderboardProofs {
  import opened Host
  import opened Sums
  import opened LeaderboardModel

  ghost predicate Distinct(entries: seq<Entry>) {
    forall i, j :: 0 <= i < j < |entries| ==> entries[i].player != entries[j].player
  }

  ghost predicate Descending(entries: seq<Entry>) {
    forall i, j :: 0 <= i < j < |entries| ==> entries[i].points >= entries[j].points
  }

  function Players(entries: seq<Entry>): set<Address> {
    set e | e in entries :: e.player
  }

  /** A listed entry repeats its player's current statistics. */
  predicate Current(stats: map<Address, Stats>, e: Entry) {
    e.player in stats && e.count == stats[e.player].unlocked && e.points == stats[e.player].points
  }

  /** Nobody left out has more points than anybody listed. */
  ghost predicate NobodyOvertakes(b: Board) {
    forall p, e :: p in b.stats && p !in Players(b.entries) && e in b.entries ==> b.stats[p].points <= e.points
  }

  ghost predicate BoardOk(b: Board) {
    && |b.entries| == Min(|b.stats|, 100)
    && Distinct(b.entries) && Descending(b.entries)
    && (forall e :: e in b.entries ==> Current(b.stats, e))
    && (forall i :: 0 <= i < |b.entries| ==> b.entries[i].rank == i + 1)
    && NobodyOvertakes(b)
  }

  // ----- the list operations ---------------------------------------------------------------

  lemma {:induction false} PlayersCard(entries: seq<Entry>)
    requires Distinct(entries)
    ensures |Players(entries)| == |entries|
  {
    if entries != [] {
      var front, last := entries[..|entries| - 1], entries[|entries| - 1];
      PlayersCard(front);
      assert entries == front + [last];
      assert Players(entries) == Players(front) + {last.player};
      assert last.player !in Players(front);
    }
  }

  lemma {:induction false} OthersMembers(entries: seq<Entry>, player: Address)
    ensures forall e :: e in Others(entries, player) <==> e in entries && e.player != player
  {
    if entries != [] {
      var front, last := entries[..|entries| - 1], entries[|entries| - 1];
      OthersMembers(front, player);
      assert entries == front + [last];
    }
  }

  lemma {:induction false} OthersOrdered(entries: seq<Entry>, player: Address)
    requires Distinct(entries) && Descending(entries)
    ensures Distinct(Others(entries, player)) && Descending(Others(entries, player))
  {
    if entries != [] {
      var front, last := entries[..|entries| - 1], entries[|entries| - 1];
      OthersOrdered(front, player);
      OthersMembers(front, player);
      assert forall e :: e in front ==> e.player != last.player && e.points >= last.points;
      AppendOrdered(Others(front, player), last);
    }
  }

  lemma AppendOrdered(entries: seq<Entry>, e: Entry)
    requires Distinct(entries) && Descending(entries)
    requires forall x :: x in entries ==> x.player != e.player && x.points >= e.points
    ensures Distinct(entries + [e]) && Descending(entries + [e])
  {}

  lemma InsertMembers(entries: seq<Entry>, e: Entry)
    ensures forall x :: x in Insert(entries, e) <==> x == e || x in entries
    ensures |Insert(entries, e)| == |entries| + 1
  {
    hide InsertPoint;
    var k := InsertPoint(entries, e.points);
    assert entries == entries[..k] + entries[k..];
  }

  lemma InsertOrdered(entries: seq<Entry>, e: Entry)
    requires Distinct(entries) && Descending(entries)
    requires forall x :: x in entries ==> x.player != e.player
    ensures Distinct(Insert(entries, e)) && Descending(Insert(entries, e))
  {
    var k := InsertPoint(entries, e.points);
    hide InsertPoint;
    var a, c := entries[..k], entries[k..];
    assert forall x :: x in a ==> x in entries;
    AppendOrdered(a, e);
    var s := a + [e];
    assert Insert(entries, e) == s + c;
    forall i, j | 0 <= i < |s| && 0 <= j < |c| ensures s[i].player != c[j].player && s[i].points >= c[j].points {
      assert c[j] == entries[k + j] && c[j] in entries;
      if i < k {
        assert s[i] == entries[i];
      }
    }
    JoinOrdered(s, c);
  }

  lemma JoinOrdered(s: seq<Entry>, c: seq<Entry>)
    requires Distinct(s) && Descending(s) && Distinct(c) && Descending(c)
    requires forall i, j :: 0 <= i < |s| && 0 <= j < |c| ==> s[i].player != c[j].player && s[i].points >= c[j].points
    ensures Distinct(s + c) && Descending(s + c)
  {
    var t := s + c;
    forall i, j | 0 <= i < j < |t| ensures t[i].player != t[j].player && t[i].points >= t[j].points {
      if i < |s| && j >= |s| {
        assert t[i] == s[i] && t[j] == c[j - |s|];
      }
    }
  }

  /** The list before truncation: the newcomer's entry and everyone else's, in order. */
  function Merged(entries: seq<Entry>, e: Entry): seq<Entry> {
    Insert(Others(entries, e.player), e)
  }

  lemma MergedList(entries: seq<Entry>, e: Entry)
    requires Distinct(entries) && Descending(entries)
    ensures var s := Merged(entries, e);
            && Distinct(s) && Descending(s)
            && (forall x :: x in s <==> x == e || (x in entries && x.player != e.player))
            && Players(s) == Players(entries) + {e.player}
            && |s| == |entries| + if e.player in Players(entries) then 0 else 1
  {
    hide Others, Insert, Distinct, Descending;
    var o, s := Others(entries, e.player), Merged(entries, e);
    OthersMembers(entries, e.player);
    OthersOrdered(entries, e.player);
    InsertMembers(o, e);
    InsertOrdered(o, e);
    assert Players(s) == Players(entries) + {e.player} by {
      forall p | p in Players(entries) ensures p in Players(s) {
        var x :| x in entries && x.player == p;
        if p != e.player {
          assert x in s;
        } else {
          assert e in s;
        }
      }
      assert e in s;
    }
    PlayersCard(entries);
    PlayersCard(s);
  }

  lemma RankedList(s: seq<Entry>)
    requires Distinct(s) && Descending(s)
    ensures var r := Ranked(s);
            && Distinct(r) && Descending(r) && |r| == Min(|s|, 100)
            && (forall i :: 0 <= i < |r| ==> r[i] == s[i].(rank := i + 1))
            && (forall y :: y in r ==> exists x :: x in s && y == x.(rank := y.rank))
  {
    var r := Ranked(s);
    forall y | y in r ensures exists x :: x in s && y == x.(rank := y.rank) {
      var i :| 0 <= i < |r| && r[i] == y;
      assert s[i] in s;
    }
  }

  /** Truncation keeps the best: whoever is cut has no more points than anyone kept. */
  lemma RankedCut(s: seq<Entry>, x: Entry, y: Entry)
    requires Distinct(s) && Descending(s) && x in s && x.player !in Players(Ranked(s)) && y in Ranked(s)
    ensures x.points <= y.points
  {
    var r := Ranked(s);
    hide Distinct;
    var i :| 0 <= i < |s| && s[i] == x;
    var j :| 0 <= j < |r| && r[j] == y;
    assert i >= |r| by {
      assert forall k :: 0 <= k < |r| ==> r[k] in r && s[k].player == r[k].player && s[k].player in Players(r);
    }
  }

  // ----- one unlock ---------------------------------------------------------------------------

  lemma UnlistedMeansFull(b: Board, p: Address)
    requires BoardOk(b) && p in b.stats && p !in Players(b.entries)
    ensures |b.entries| == 100 && |b.stats| > 100
  {
    PlayersCard(b.entries);
    var listed := Players(b.entries);
    assert listed <= b.stats.Keys - {p} by {
      forall q | q in listed ensures q in b.stats.Keys {
        var e :| e in b.entries && e.player == q;
        assert Current(b.stats, e);
      }
    }
    SubsetCard(listed, b.stats.Keys - {p});
  }

  /** Someone unlisted before and after has no more points than the newcomer, if the newcomer is kept. */
  lemma NewcomerNotOvertaken(b: Board, e: Entry, s: seq<Entry>, p: Address)
    requires BoardOk(b) && p in b.stats && p !in Players(b.entries) && p != e.player
    requires e.points >= StatsOf(b, e.player).points
    requires s == Merged(b.entries, e) && e in s && e.player in Players(Ranked(s))
    ensures b.stats[p].points <= e.points
  {
    hide Others, Insert, Merged, Ranked;
    UnlistedMeansFull(b, p);
    MergedList(b.entries, e);
    if e.player in Players(b.entries) {
      var x :| x in b.entries && x.player == e.player;
      assert Current(b.stats, x);
    } else {
      LastIsNoBetter(s, e);
      var last := s[100];
      assert last in s;
      assert last in b.entries;
    }
  }

  /** In a list one too long, an entry that survives truncation is not the last and has at least its points. */
  lemma LastIsNoBetter(s: seq<Entry>, e: Entry)
    requires Distinct(s) && Descending(s) && |s| == 100 + 1 && e in s && e.player in Players(Ranked(s))
    ensures s[100] != e && s[100].points <= e.points
  {
    var y :| y in Ranked(s) && y.player == e.player;
    var i :| 0 <= i < |Ranked(s)| && Ranked(s)[i] == y;
    assert s[i].player == e.player;
    var j :| 0 <= j < |s| && s[j] == e;
  }

  lemma UnlockNobodyOvertakes(b: Board, player: Address, a: Achievement)
    requires BoardOk(b) && Unlock(b, player, a).Some?
    ensures NobodyOvertakes(Unlock(b, player, a).value)
  {
    hide Others, Insert, Ranked, Distinct, Descending;
    var t := Unlock(b, player, a).value;
    var e := Entry(player, t.stats[player].unlocked, t.stats[player].points, 0);
    var s, r := Merged(b.entries, e), t.entries;
    assert r == Ranked(s);
    MergedList(b.entries, e);
    hide Merged;
    RankedList(s);
    forall p, y | p in t.stats && p !in Players(r) && y in r ensures t.stats[p].points <= y.points {
      var x :| x in s && y == x.(rank := y.rank);
      if p in Players(s) {
        var z :| z in s && z.player == p;
        assert Current(t.stats, z);
        RankedCut(s, z, y);
      } else if x == e {
        assert y.player == e.player;
        assert e.player in Players(r);
        NewcomerNotOvertaken(b, e, s, p);
      } else {
        assert x in b.entries;
      }
    }
  }

  /** One unlock keeps the board in agreement with the statistics. */
  lemma UnlockOk(b: Board, player: Address, a: Achievement)
    requires BoardOk(b) && Unlock(b, player, a).Some?
    ensures BoardOk(Unlock(b, player, a).value)
  {
    hide Others, Insert, Ranked, Distinct, Descending, NobodyOvertakes;
    var t := Unlock(b, player, a).value;
    var e := Entry(player, t.stats[player].unlocked, t.stats[player].points, 0);
    var s := Merged(b.entries, e);
    assert t.entries == Ranked(s);
    UnlockNobodyOvertakes(b, player, a);
    MergedList(b.entries, e);
    hide Merged, AddUnlock;
    RankedList(s);
    forall y | y in t.entries ensures Current(t.stats, y) {
      var x :| x in s && y == x.(rank := y.rank);
      if x != e {
        assert Current(b.stats, x);
      }
    }
    BoardLength(b, player, t, s);
  }

  /** Among equals the most recent unlock comes first: everyone ahead of it has strictly more points. */
  lemma NewcomerLeadsTies(b: Board, player: Address, a: Achievement, i: nat, j: nat)
    requires BoardOk(b) && Unlock(b, player, a).Some?
    requires j < i < |Unlock(b, player, a).value.entries| && Unlock(b, player, a).value.entries[i].player == player
    ensures Unlock(b, player, a).value.entries[j].points > Unlock(b, player, a).value.entries[i].points
  {
    var t := Unlock(b, player, a).value;
    var e := Entry(player, t.stats[player].unlocked, t.stats[player].points, 0);
    var o := Others(b.entries, player);
    OthersMembers(b.entries, player);
    hide Others, Distinct, Descending, Insert, InsertPoint, AddUnlock;
    InsertedLeads(o, e, i, j);
  }

  /** Whoever stands ahead of an inserted entry has strictly more points. */
  lemma InsertedLeads(o: seq<Entry>, e: Entry, i: nat, j: nat)
    requires forall x :: x in o ==> x.player != e.player
    requires j < i < |Insert(o, e)| && Insert(o, e)[i].player == e.player
    ensures Insert(o, e)[j].points > Insert(o, e)[i].points
  {
    assert forall x :: 0 <= x < |o| ==> o[x] in o && o[x].player != e.player;
    assert i == InsertPoint(o, e.points);
  }

  lemma BoardLength(b: Board, player: Address, t: Board, s: seq<Entry>)
    requires BoardOk(b) && player in t.stats && t.stats == b.stats[player := t.stats[player]]
    requires |t.entries| == Min(|s|, 100)
    requires |s| == |b.entries| + if player in Players(b.entries) then 0 else 1
    ensures |t.entries| == Min(|t.stats|, 100)
  {
    assert t.stats.Keys == b.stats.Keys + {player};
    if player in Players(b.entries) {
      var e :| e in b.entries && e.player == player;
      assert Current(b.stats, e);
    } else if player in b.stats {
      UnlistedMeansFull(b, player);
    }
  }

  // ----- every run ------------------------------------------------------------------------------

  /** The counters of a player add up to the totals. */
  predicate StatsAddUp(st: Stats) {
    && st.unlocked == st.bronze + st.silver + st.gold + st.platinum
    && st.points == 10 * st.bronze + 25 * st.silver + 50 * st.gold + 100 * st.platinum
    && st.secret <= st.unlocked && st.meta <= st.unlocked
  }

  /** After every run the board agrees with all statistics, and every player's counters add up. */
  lemma {:induction false} RunOk(calls: seq<Call>)
    ensures BoardOk(Run(calls))
    ensures forall p :: p in Run(calls).stats ==> StatsAddUp(Run(calls).stats[p])
  {
    hide Recorded, BoardOk;
    if calls == [] {
      EmptyOk();
    } else {
      var before, call := calls[..|calls| - 1], calls[|calls| - 1];
      RunOk(before);
      if Unlock(Run(before), call.player, call.achievement).Some? {
        UnlockOk(Run(before), call.player, call.achievement);
      }
    }
  }

  lemma EmptyOk()
    ensures BoardOk(EMPTY_BOARD)
  {}

  /** While there are at most as many scorers as places, everyone is listed. */
  lemma EveryoneListed(calls: seq<Call>)
    requires |Run(calls).stats| <= 100
    ensures Players(Run(calls).entries) == Run(calls).stats.Keys
  {
    RunOk(calls);
    var b := Run(calls);
    hide Run;
    forall p | p in b.stats ensures p in Players(b.entries) {
      if p !in Players(b.entries) {
        UnlistedMeansFull(b, p);
      }
    }
    forall p | p in Players(b.entries) ensures p in b.stats {
      var e :| e in b.entries && e.player == p;
      assert Current(b.stats, e);
    }
  }
}
