/**
 The resumable pruner of one namespace, reduced to what decides its progress: the index seen
 as a ring of keys, the stored cursor, and the set of keys that are dead.
 */
module PruneRing {
  import opened Host
  import opened Arith
  import opened Sums

  const MAX_PRUNE_BATCH: nat := 50
  const PRUNE_SCAN_FACTOR: nat := 4

  /** The index of a namespace and the position where its next prune starts. */
  datatype Ring = Ring(keys: seq<Symbol>, cursor: nat)

  ghost predicate NoDup(keys: seq<Symbol>) {
    forall i, j :: 0 <= i < j < |keys| ==> keys[i] != keys[j]
  }

  function ToSet(keys: seq<Symbol>): set<Symbol> {
    set k | k in keys
  }

  /** A position on a ring of `n` keys. */
  function Wrap(x: nat, n: nat): (i: nat)
    requires n > 0
    ensures i < n
  {
    x % n
  }

  /** The i-th key met when walking the ring from `start`. */
  function At(keys: seq<Symbol>, start: nat, i: nat): Symbol
    requires |keys| > 0
  {
    keys[Wrap(start + i, |keys|)]
  }

  /** The dead keys among the first `n` keys met from `start`, in the order met. */
  function Hits(keys: seq<Symbol>, dead: set<Symbol>, start: nat, n: nat): (hits: seq<Symbol>)
    requires |keys| > 0
    ensures |hits| <= n
  {
    if n == 0 then []
    else Hits(keys, dead, start, n - 1) + if At(keys, start, n - 1) in dead then [At(keys, start, n - 1)] else []
  }

  /** Where a scan that has examined `i` keys stops: at the window's end or with `limit` hits. */
  function StopAt(keys: seq<Symbol>, dead: set<Symbol>, start: nat, window: nat, limit: nat, i: nat): nat
    requires |keys| > 0 && i <= window
    decreases window - i
  {
    if i == window || |Hits(keys, dead, start, i)| >= limit then i
    else StopAt(keys, dead, start, window, limit, i + 1)
  }

  /** The keys outside `drop`, in order. */
  function Without(keys: seq<Symbol>, drop: set<Symbol>): seq<Symbol> {
    if keys == [] then []
    else
      var last := keys[|keys| - 1];
      Without(keys[..|keys| - 1], drop) + if last in drop then [] else [last]
  }

  function Limit(maxEntries: nat): nat {
    Min(maxEntries, MAX_PRUNE_BATCH)
  }

  /** How many keys one call may examine. */
  function Window(len: nat, maxEntries: nat): nat {
    Min(len, Limit(maxEntries) * PRUNE_SCAN_FACTOR)
  }

  function Start(r: Ring): nat
    requires r.keys != []
  {
    Wrap(r.cursor, |r.keys|)
  }

  function Scanned(r: Ring, dead: set<Symbol>, maxEntries: nat): nat
    requires r.keys != []
  {
    StopAt(r.keys, dead, Start(r), Window(|r.keys|, maxEntries), Limit(maxEntries), 0)
  }

  /** The keys one prune call removes, in the order met. */
  function Removed(r: Ring, dead: set<Symbol>, maxEntries: nat): seq<Symbol> {
    if Limit(maxEntries) == 0 || r.keys == [] then []
    else Hits(r.keys, dead, Start(r), Scanned(r, dead, maxEntries))
  }

  /** The ring one prune call leaves. */
  function Sweep(r: Ring, dead: set<Symbol>, maxEntries: nat): Ring {
    if Limit(maxEntries) == 0 || r.keys == [] then r
    else
      var gone := Removed(r, dead, maxEntries);
      var kept := Without(r.keys, ToSet(gone));
      Ring(kept, if kept == [] then 0 else Wrap(Start(r) + Scanned(r, dead, maxEntries) - |gone|, |kept|))
  }

  // ----- what one scan finds -------------------------------------------------------

  /** Every key found dead within the first `n` steps is a hit. */
  lemma {:induction false} HitsComplete(keys: seq<Symbol>, dead: set<Symbol>, start: nat, n: nat, j: nat)
    requires |keys| > 0 && j < n && At(keys, start, j) in dead
    ensures At(keys, start, j) in Hits(keys, dead, start, n)
  {
    if j < n - 1 {
      HitsComplete(keys, dead, start, n - 1, j);
    }
  }

  /** Hits are dead keys of the ring met within the first `n` steps. */
  lemma {:induction false} HitsSound(keys: seq<Symbol>, dead: set<Symbol>, start: nat, n: nat)
    requires |keys| > 0
    ensures forall k :: k in Hits(keys, dead, start, n) ==>
              k in keys && k in dead && exists j: nat :: j < n && k == At(keys, start, j)
  {
    if n > 0 {
      HitsSound(keys, dead, start, n - 1);
      forall k | k in Hits(keys, dead, start, n)
        ensures k in keys && k in dead && exists j: nat :: j < n && k == At(keys, start, j)
      {
        if k in Hits(keys, dead, start, n - 1) {
          var j: nat :| j < n - 1 && k == At(keys, start, j);
          assert j < n;
        } else {
          assert k == At(keys, start, n - 1);
        }
      }
    }
  }

  lemma RingDistinct(keys: seq<Symbol>, start: nat, i: nat, j: nat)
    requires NoDup(keys) && start < |keys| && i < j < |keys|
    ensures At(keys, start, i) != At(keys, start, j)
  {
    ModOnce(start + i, |keys|);
    ModOnce(start + j, |keys|);
  }

  /** Within one turn of a duplicate-free ring no key is hit twice. */
  lemma {:induction false} HitsNoDup(keys: seq<Symbol>, dead: set<Symbol>, start: nat, n: nat)
    requires NoDup(keys) && start < |keys| && n <= |keys|
    ensures NoDup(Hits(keys, dead, start, n))
  {
    if n > 0 {
      HitsNoDup(keys, dead, start, n - 1);
      HitsSound(keys, dead, start, n - 1);
      var k := At(keys, start, n - 1);
      if k in Hits(keys, dead, start, n - 1) {
        var j: nat :| j < n - 1 && k == At(keys, start, j);
        RingDistinct(keys, start, j, n - 1);
      }
    }
  }

  lemma {:induction false} StopAtBounds(keys: seq<Symbol>, dead: set<Symbol>, start: nat, window: nat, limit: nat,
                                        i: nat)
    requires |keys| > 0 && i <= window && |Hits(keys, dead, start, i)| <= limit
    ensures var stop := StopAt(keys, dead, start, window, limit, i);
            i <= stop <= window && |Hits(keys, dead, start, stop)| <= limit &&
            (stop < window ==> |Hits(keys, dead, start, stop)| == limit)
    decreases window - i
  {
    if i < window && |Hits(keys, dead, start, i)| < limit {
      StopAtBounds(keys, dead, start, window, limit, i + 1);
    }
  }

  lemma {:induction false} HitsGrow(keys: seq<Symbol>, dead: set<Symbol>, start: nat, m: nat, n: nat)
    requires |keys| > 0 && m <= n
    ensures Hits(keys, dead, start, m) <= Hits(keys, dead, start, n)
    decreases n
  {
    if m < n {
      HitsGrow(keys, dead, start, m, n - 1);
    }
  }

  /** A call removes the first dead keys of its window, in the order met: all of them, or as many as its batch. */
  lemma RemovedExactly(r: Ring, dead: set<Symbol>, maxEntries: nat)
    requires r.keys != []
    ensures var found := Hits(r.keys, dead, Start(r), Min(|r.keys|, 4 * Min(maxEntries, 50)));
            Removed(r, dead, maxEntries) == found[..Min(|found|, Min(maxEntries, 50))]
  {
    if maxEntries > 0 {
      var window := Window(|r.keys|, maxEntries);
      StopAtBounds(r.keys, dead, Start(r), window, Limit(maxEntries), 0);
      HitsGrow(r.keys, dead, Start(r), Scanned(r, dead, maxEntries), window);
    }
  }

  // ----- removing keys from the index -----------------------------------------------

  lemma {:induction false} WithoutMembers(keys: seq<Symbol>, drop: set<Symbol>)
    ensures forall k :: k in Without(keys, drop) <==> k in keys && k !in drop
    ensures NoDup(keys) ==> NoDup(Without(keys, drop))
  {
    if keys != [] {
      var front := keys[..|keys| - 1];
      WithoutMembers(front, drop);
      assert keys == front + [keys[|keys| - 1]];
    }
  }

  lemma {:induction false} NoDupCard(keys: seq<Symbol>)
    requires NoDup(keys)
    ensures |ToSet(keys)| == |keys|
  {
    if keys == [] {
      assert ToSet(keys) == {};
    } else {
      var front, last := keys[..|keys| - 1], keys[|keys| - 1];
      NoDupCard(front);
      assert keys == front + [last];
      assert ToSet(keys) == ToSet(front) + {last};
      assert last !in front;
    }
  }

  lemma WithoutLength(keys: seq<Symbol>, drop: set<Symbol>)
    requires NoDup(keys) && drop <= ToSet(keys)
    ensures |Without(keys, drop)| == |keys| - |drop|
  {
    WithoutMembers(keys, drop);
    var kept := Without(keys, drop);
    NoDupCard(keys); NoDupCard(kept);
    assert ToSet(keys) == ToSet(kept) + drop;
    assert ToSet(kept) !! drop;
  }

  lemma {:induction false} WithoutNone(keys: seq<Symbol>, drop: set<Symbol>)
    requires forall k :: k in keys ==> k !in drop
    ensures Without(keys, drop) == keys
  {
    if keys != [] {
      var front := keys[..|keys| - 1];
      assert forall k :: k in front ==> k in keys;
      WithoutNone(front, drop);
    }
  }

  lemma {:induction false} WithoutTwice(keys: seq<Symbol>, a: set<Symbol>, b: set<Symbol>)
    ensures Without(Without(keys, a), b) == Without(keys, a + b)
  {
    if keys != [] {
      var front, last := keys[..|keys| - 1], keys[|keys| - 1];
      WithoutTwice(front, a, b);
      var kept := Without(front, a);
      if last !in a {
        assert Without(keys, a) == kept + [last] && (kept + [last])[..|kept|] == kept;
      } else {
        assert Without(keys, a) == kept;
      }
    }
  }

  // ----- one call --------------------------------------------------------------------

  /** A prune call removes only dead keys of the index, each once, and never more than its batch. */
  lemma SweepEffect(r: Ring, dead: set<Symbol>, maxEntries: nat)
    requires NoDup(r.keys)
    ensures var gone := Removed(r, dead, maxEntries);
            && |gone| == |ToSet(gone)| <= Limit(maxEntries) && ToSet(gone) <= dead * ToSet(r.keys)
            && NoDup(Sweep(r, dead, maxEntries).keys)
            && Sweep(r, dead, maxEntries).keys == Without(r.keys, ToSet(gone))
            && |Sweep(r, dead, maxEntries).keys| == |r.keys| - |gone|
  {
    var gone := Removed(r, dead, maxEntries);
    if Limit(maxEntries) == 0 || r.keys == [] {
      WithoutNone(r.keys, {});
      assert ToSet(gone) == {};
    } else {
      var stop := Scanned(r, dead, maxEntries);
      StopAtBounds(r.keys, dead, Start(r), Window(|r.keys|, maxEntries), Limit(maxEntries), 0);
      HitsSound(r.keys, dead, Start(r), stop);
      HitsNoDup(r.keys, dead, Start(r), stop);
      NoDupCard(gone);
      WithoutMembers(r.keys, ToSet(gone));
      WithoutLength(r.keys, ToSet(gone));
    }
  }

  /** A call that removes nothing examined its whole window and moves the cursor just past it. */
  lemma IdleSweepAdvances(r: Ring, dead: set<Symbol>, maxEntries: nat)
    requires NoDup(r.keys) && r.keys != [] && maxEntries > 0
    requires Removed(r, dead, maxEntries) == []
    ensures Scanned(r, dead, maxEntries) == Window(|r.keys|, maxEntries)
    ensures Sweep(r, dead, maxEntries) == Ring(r.keys, Wrap(Start(r) + Window(|r.keys|, maxEntries), |r.keys|))
  {
    StopAtBounds(r.keys, dead, Start(r), Window(|r.keys|, maxEntries), Limit(maxEntries), 0);
    WithoutNone(r.keys, ToSet([]));
  }

  /** Which step of a full turn meets the key at position `i`. */
  lemma StepsTo(r: Ring, i: nat) returns (d: nat)
    requires i < |r.keys|
    ensures d < |r.keys| && At(r.keys, Start(r), d) == r.keys[i]
  {
    var start := Start(r);
    d := if i >= start then i - start else i + |r.keys| - start;
    ModOnce(start + d, |r.keys|);
  }

  // ----- repeated calls ----------------------------------------------------------------

  /** `n` prune calls in a row at one time, with nothing in between. */
  function SweepTimes(r: Ring, dead: set<Symbol>, maxEntries: nat, n: nat): Ring
    decreases n
  {
    if n == 0 then r else SweepTimes(Sweep(r, dead, maxEntries), dead, maxEntries, n - 1)
  }

  lemma SweepTimesFirst(r: Ring, dead: set<Symbol>, maxEntries: nat, n: nat)
    requires n > 0
    ensures SweepTimes(r, dead, maxEntries, n) == SweepTimes(Sweep(r, dead, maxEntries), dead, maxEntries, n - 1)
  {}

  lemma {:induction false} SweepTimesSplit(r: Ring, dead: set<Symbol>, maxEntries: nat, m: nat, n: nat)
    ensures SweepTimes(r, dead, maxEntries, m + n) ==
            SweepTimes(SweepTimes(r, dead, maxEntries, m), dead, maxEntries, n)
    decreases m
  {
    hide Sweep;
    if m > 0 {
      SweepTimesSplit(Sweep(r, dead, maxEntries), dead, maxEntries, m - 1, n);
    }
  }

  /** Repeated calls remove some dead keys and keep all others in order. */
  lemma {:induction false} SweepTimesRemoves(r: Ring, dead: set<Symbol>, maxEntries: nat, n: nat)
    returns (gone: set<Symbol>)
    requires NoDup(r.keys)
    ensures gone <= dead * ToSet(r.keys)
    ensures SweepTimes(r, dead, maxEntries, n).keys == Without(r.keys, gone)
    ensures |SweepTimes(r, dead, maxEntries, n).keys| == |r.keys| - |gone|
    ensures NoDup(SweepTimes(r, dead, maxEntries, n).keys)
    decreases n
  {
    hide Sweep, Removed, NoDup, Without;
    if n == 0 {
      gone := {};
      WithoutNone(r.keys, {});
    } else {
      SweepEffect(r, dead, maxEntries);
      var first := ToSet(Removed(r, dead, maxEntries));
      var rest := SweepTimesRemoves(Sweep(r, dead, maxEntries), dead, maxEntries, n - 1);
      gone := first + rest;
      WithoutMembers(r.keys, first);
      WithoutTwice(r.keys, first, rest);
      WithoutMembers(r.keys, gone);
      WithoutLength(r.keys, gone);
    }
  }

  /** A dead key inside the window is not missed: the call removes something. */
  lemma WindowIsSearched(r: Ring, dead: set<Symbol>, maxEntries: nat, d: nat)
    requires NoDup(r.keys) && r.keys != [] && maxEntries > 0
    requires d < Window(|r.keys|, maxEntries) && At(r.keys, Start(r), d) in dead
    ensures Removed(r, dead, maxEntries) != []
  {
    if Removed(r, dead, maxEntries) == [] {
      IdleSweepAdvances(r, dead, maxEntries);
      HitsComplete(r.keys, dead, Start(r), Window(|r.keys|, maxEntries), d);
    }
  }

  lemma OneCallFewer(n: nat, w: nat, d: nat)
    requires n * w > d
    ensures n > 0 && (n - 1) * w > d - w
  {
    assert n * w == w + (n - 1) * w;
  }

  /** A dead key `d` steps ahead of the cursor forces a removal within any `n` calls that together look that far. */
  lemma {:induction false} RemovalByDistance(r: Ring, dead: set<Symbol>, maxEntries: nat, d: nat, n: nat)
    requires NoDup(r.keys) && r.keys != [] && maxEntries > 0
    requires At(r.keys, Start(r), d) in dead
    requires n * Window(|r.keys|, maxEntries) > d
    ensures |SweepTimes(r, dead, maxEntries, n).keys| < |r.keys|
    decreases n
  {
    hide Sweep, SweepTimes, Removed, Window, At, Start, NoDup, Without;
    var w := Window(|r.keys|, maxEntries);
    OneCallFewer(n, w, d);
    var next := Sweep(r, dead, maxEntries);
    SweepTimesFirst(r, dead, maxEntries, n);
    SweepEffect(r, dead, maxEntries);
    if Removed(r, dead, maxEntries) != [] {
      var _ := SweepTimesRemoves(next, dead, maxEntries, n - 1);
    } else {
      IdleSweepAdvances(r, dead, maxEntries);
      if d < w {
        WindowIsSearched(r, dead, maxEntries, d);
      } else {
        FurtherOn(r, next, w, d);
        RemovalByDistance(next, dead, maxEntries, d - w, n - 1);
      }
    }
  }

  /** After the cursor moved `w` steps, the key `d` steps ahead is `d - w` steps ahead. */
  lemma FurtherOn(r: Ring, next: Ring, w: nat, d: nat)
    requires r.keys != [] && w <= d && next == Ring(r.keys, Wrap(Start(r) + w, |r.keys|))
    ensures At(next.keys, Start(next), d - w) == At(r.keys, Start(r), d)
  {
    hide Wrap;
    WrapTwice(Start(r), w, d, |r.keys|);
  }

  lemma WrapTwice(s: nat, w: nat, d: nat, len: nat)
    requires len > 0 && w <= d
    ensures Wrap(Wrap(Wrap(s + w, len), len) + (d - w), len) == Wrap(s + d, len)
  {
    var t := (s + w) % len;
    assert t % len == t by { ModOnce(t, len); }
    assert (t + (d - w)) % len == (s + w + (d - w)) % len by { ModShift(s + w, d - w, len); }
  }

  /**
   While any indexed key is dead, any `n` calls whose windows together cover the index remove something;
   the least such n is ceil(len / min(len, 4 * batch)).
   */
  lemma SweepsProgress(r: Ring, dead: set<Symbol>, maxEntries: nat, n: nat)
    requires NoDup(r.keys) && maxEntries > 0 && dead * ToSet(r.keys) != {}
    requires n * Window(|r.keys|, maxEntries) >= |r.keys|
    ensures |SweepTimes(r, dead, maxEntries, n).keys| < |r.keys|
  {
    var k :| k in dead * ToSet(r.keys);
    var i: nat :| i < |r.keys| && r.keys[i] == k;
    var d := StepsTo(r, i);
    RemovalByDistance(r, dead, maxEntries, d, n);
  }

  /** ceil(len / min(len, 4 * batch)): the calls whose windows cover an index of length `len`. */
  function CallsPerRound(len: nat, maxEntries: nat): (m: nat)
    requires maxEntries > 0
    ensures m * Window(len, maxEntries) >= len
    ensures m > 0 ==> (m - 1) * Window(len, maxEntries) < len
  {
    if len == 0 then 0
    else
      var w := Window(len, maxEntries);
      DivGreatest(len + w - 1, w, (len + w - 1) / w);
      DivGreatest(len + w - 1, w, (len + w - 1) / w + 1);
      (len + w - 1) / w
  }

  lemma RoundCoversSmaller(len: nat, shorter: nat, maxEntries: nat, m: nat)
    requires shorter <= len && maxEntries > 0 && 0 < m && m * Window(len, maxEntries) >= len
    ensures m * Window(shorter, maxEntries) >= shorter
  {
    if Window(shorter, maxEntries) == shorter {
      MulMono(shorter, 1, m);
    } else {
      MulMono(m, Window(len, maxEntries), Window(shorter, maxEntries));
    }
  }

  /** A covering round leaves fewer dead keys, if there were any. */
  lemma RoundRemoves(r: Ring, dead: set<Symbol>, maxEntries: nat, m: nat)
    requires NoDup(r.keys) && maxEntries > 0 && dead * ToSet(r.keys) != {}
    requires m * Window(|r.keys|, maxEntries) >= |r.keys|
    ensures var p := SweepTimes(r, dead, maxEntries, m);
            && NoDup(p.keys) && |p.keys| < |r.keys|
            && |dead * ToSet(p.keys)| < |dead * ToSet(r.keys)|
  {
    hide Sweep, Removed, Window, SweepTimes, NoDup, Without;
    var p := SweepTimes(r, dead, maxEntries, m);
    SweepsProgress(r, dead, maxEntries, m);
    var gone := SweepTimesRemoves(r, dead, maxEntries, m);
    WithoutMembers(r.keys, gone);
    assert dead * ToSet(p.keys) + gone == dead * ToSet(r.keys);
    assert dead * ToSet(p.keys) !! gone;
  }

  lemma NothingDeadStaysSo(r: Ring, dead: set<Symbol>, maxEntries: nat, n: nat)
    requires NoDup(r.keys) && dead * ToSet(r.keys) == {}
    ensures dead * ToSet(SweepTimes(r, dead, maxEntries, n).keys) == {}
  {
    hide Sweep, SweepTimes, NoDup, Without;
    var gone := SweepTimesRemoves(r, dead, maxEntries, n);
    WithoutMembers(r.keys, gone);
  }

  /** One round of calls per dead key leaves no dead key. */
  lemma {:induction false} RoundsClear(r: Ring, dead: set<Symbol>, maxEntries: nat, m: nat, rounds: nat)
    requires NoDup(r.keys) && maxEntries > 0 && 0 < m
    requires m * Window(|r.keys|, maxEntries) >= |r.keys|
    requires rounds >= |dead * ToSet(r.keys)|
    ensures dead * ToSet(SweepTimes(r, dead, maxEntries, rounds * m).keys) == {}
    decreases rounds
  {
    hide *;
    if dead * ToSet(r.keys) == {} {
      NothingDeadStaysSo(r, dead, maxEntries, rounds * m);
    } else {
      var p := SweepTimes(r, dead, maxEntries, m);
      RoundRemoves(r, dead, maxEntries, m);
      assert rounds * m == m + (rounds - 1) * m;
      SweepTimesSplit(r, dead, maxEntries, m, (rounds - 1) * m);
      RoundCoversSmaller(|r.keys|, |p.keys|, maxEntries, m);
      RoundsClear(p, dead, maxEntries, m, rounds - 1);
    }
  }

  /**
   Finitely many bounded calls leave exactly the live keys, in their order, although a call that
   wraps around and removes keys leaves the cursor only approximately placed.
   */
  lemma SweepsClear(r: Ring, dead: set<Symbol>, maxEntries: nat, n: nat)
    requires NoDup(r.keys) && maxEntries > 0
    requires n >= |dead * ToSet(r.keys)| * CallsPerRound(|r.keys|, maxEntries)
    ensures SweepTimes(r, dead, maxEntries, n).keys == Without(r.keys, dead)
  {
    hide SweepTimes, CallsPerRound, Window, NoDup, Without;
    var there := dead * ToSet(r.keys);
    var m := CallsPerRound(|r.keys|, maxEntries);
    var end := SweepTimes(r, dead, maxEntries, n).keys;
    var gone := SweepTimesRemoves(r, dead, maxEntries, n);
    WithoutMembers(r.keys, gone);
    if r.keys != [] {
      var enough := |there| * m;
      RoundsClear(r, dead, maxEntries, m, |there|);
      SweepTimesSplit(r, dead, maxEntries, enough, n - enough);
      var g := SweepTimesRemoves(r, dead, maxEntries, enough);
      var done := SweepTimes(r, dead, maxEntries, enough);
      var later := SweepTimesRemoves(done, dead, maxEntries, n - enough);
      WithoutMembers(done.keys, later);
    }
    assert forall k :: k in r.keys && k in dead ==> k in gone;
    SameOnKeys(r.keys, gone, dead);
  }

  /** A batch of 50 examines an index of at most 100 keys completely unless it fills up. */
  lemma FullBatchFindsAll(r: Ring, dead: set<Symbol>, k: Symbol)
    requires NoDup(r.keys) && |r.keys| <= 100 && k in dead && k in r.keys
    requires |Removed(r, dead, MAX_PRUNE_BATCH)| < MAX_PRUNE_BATCH
    ensures k in Removed(r, dead, MAX_PRUNE_BATCH)
  {
    hide StopAt, Hits, At, NoDup;
    var i: nat :| i < |r.keys| && r.keys[i] == k;
    var d := StepsTo(r, i);
    assert Hits(r.keys, dead, Start(r), 0) == [];
    StopAtBounds(r.keys, dead, Start(r), |r.keys|, MAX_PRUNE_BATCH, 0);
    HitsComplete(r.keys, dead, Start(r), |r.keys|, d);
  }

  /** What a full batch removes; fewer removals than the batch mean nothing dead is left. */
  lemma FullBatchIsExhaustive(r: Ring, dead: set<Symbol>)
    requires NoDup(r.keys) && |r.keys| <= 100
    ensures |Removed(r, dead, MAX_PRUNE_BATCH)| == Min(|dead * ToSet(r.keys)|, MAX_PRUNE_BATCH)
    ensures |Removed(r, dead, MAX_PRUNE_BATCH)| < MAX_PRUNE_BATCH ==>
              Sweep(r, dead, MAX_PRUNE_BATCH).keys == Without(r.keys, dead)
  {
    hide Removed, Sweep, NoDup, Without;
    var gone, there := ToSet(Removed(r, dead, MAX_PRUNE_BATCH)), dead * ToSet(r.keys);
    SweepEffect(r, dead, MAX_PRUNE_BATCH);
    SubsetCard(gone, there);
    if |gone| < MAX_PRUNE_BATCH {
      forall k | k in there ensures k in gone {
        FullBatchFindsAll(r, dead, k);
      }
      assert gone == there;
      SameOnKeys(r.keys, gone, dead);
    }
  }

  /** Only the dropped keys that occur matter. */
  lemma {:induction false} SameOnKeys(keys: seq<Symbol>, a: set<Symbol>, b: set<Symbol>)
    requires forall k :: k in keys ==> (k in a <==> k in b)
    ensures Without(keys, a) == Without(keys, b)
  {
    if keys != [] {
      var front, last := keys[..|keys| - 1], keys[|keys| - 1];
      assert last in keys && forall k :: k in front ==> k in keys;
      SameOnKeys(front, a, b);
    }
  }

  // ----- where the cursor is left -------------------------------------------------------------

  /** A surviving key moves left by the number of keys dropped before it. */
  lemma {:induction false} PositionAfterDrop(keys: seq<Symbol>, drop: set<Symbol>, i: nat)
    requires i < |keys| && keys[i] !in drop
    ensures var pos := |Without(keys[..i], drop)|;
            pos < |Without(keys, drop)| && Without(keys, drop)[pos] == keys[i]
  {
    var front := keys[..|keys| - 1];
    if i < |front| {
      PositionAfterDrop(front, drop, i);
      assert front[..i] == keys[..i];
    } else {
      assert keys[..i] == front;
    }
  }

  lemma DroppedBefore(keys: seq<Symbol>, drop: set<Symbol>, i: nat)
    requires NoDup(keys) && i <= |keys|
    ensures |Without(keys[..i], drop)| == i - |drop * ToSet(keys[..i])|
  {
    hide Without;
    var before := keys[..i];
    SameOnKeys(before, drop, drop * ToSet(before));
    WithoutLength(before, drop * ToSet(before));
  }

  lemma SameResidue(e: nat, r: nat, n: nat)
    requires 0 <= e - r < n
    ensures e % n == e - r <==> r % n == 0
  {
    if r % n == 0 {
      assert e == n * (r / n) + (e - r);
      UniqueRemainder(e, n, r / n, e - r);
    }
    if e % n == e - r {
      assert r == n * (e / n) + 0;
      UniqueRemainder(r, n, e / n, 0);
    }
  }

  /** The first key not examined is not among the removed ones. */
  lemma ResumeKeySurvives(r: Ring, dead: set<Symbol>, maxEntries: nat)
    requires NoDup(r.keys) && r.keys != [] && Scanned(r, dead, maxEntries) < |r.keys|
    ensures At(r.keys, Start(r), Scanned(r, dead, maxEntries)) !in Removed(r, dead, maxEntries)
  {
    hide StopAt;
    var stop := Scanned(r, dead, maxEntries);
    HitsSound(r.keys, dead, Start(r), stop);
    var k := At(r.keys, Start(r), stop);
    if k in Hits(r.keys, dead, Start(r), stop) {
      var j: nat :| j < stop && k == At(r.keys, Start(r), j);
      RingDistinct(r.keys, Start(r), j, stop);
    }
  }

  /** Without wrapping, every removed key lies before the resume point. */
  lemma RemovedBeforeResume(r: Ring, dead: set<Symbol>, maxEntries: nat)
    requires NoDup(r.keys) && r.keys != [] && Start(r) + Scanned(r, dead, maxEntries) < |r.keys|
    ensures ToSet(Removed(r, dead, maxEntries)) <= ToSet(r.keys[..Start(r) + Scanned(r, dead, maxEntries)])
  {
    hide StopAt, Hits, NoDup;
    var start, stop := Start(r), Scanned(r, dead, maxEntries);
    HitsSound(r.keys, dead, start, stop);
    forall k | k in Removed(r, dead, maxEntries) ensures k in r.keys[..start + stop] {
      var j: nat :| j < stop && k == At(r.keys, start, j);
      ModOnce(start + j, |r.keys|);
      assert r.keys[..start + stop][start + j] == k;
    }
  }

  /**
   The stored cursor points at the first key not examined if the scan did not wrap. If it wrapped, it does so
   exactly when the number of keys removed in front of that key is a multiple of the number of keys left.
   */
  lemma CursorExactness(r: Ring, dead: set<Symbol>, maxEntries: nat)
    requires NoDup(r.keys) && r.keys != [] && maxEntries > 0 && Scanned(r, dead, maxEntries) < |r.keys|
    ensures var next, stop := Sweep(r, dead, maxEntries), Scanned(r, dead, maxEntries);
            var i := Wrap(Start(r) + stop, |r.keys|);
            var ahead := |ToSet(Removed(r, dead, maxEntries)) * ToSet(r.keys[..i])|;
            && next.keys != [] && next.cursor < |next.keys|
            && (next.keys[next.cursor] == r.keys[i] <==> Start(r) + stop < |r.keys| || ahead % |next.keys| == 0)
  {
    hide StopAt, Hits, Without, Scanned, Removed, Sweep, Start, Wrap, NoDup;
    var next, start, stop := Sweep(r, dead, maxEntries), Start(r), Scanned(r, dead, maxEntries);
    var gone, i := ToSet(Removed(r, dead, maxEntries)), Wrap(start + stop, |r.keys|);
    var ahead := |gone * ToSet(r.keys[..i])|;
    CursorFacts(r, dead, maxEntries);
    if start + stop < |r.keys| {
      RemovedBeforeResume(r, dead, maxEntries);
      assert gone * ToSet(r.keys[..i]) == gone;
    }
    CursorArith(|r.keys|, start + stop, i, |gone|, ahead, next.cursor);
    OnlyOnce(next.keys, next.cursor, i - ahead);
  }

  lemma OnlyOnce(keys: seq<Symbol>, i: int, j: int)
    requires NoDup(keys) && 0 <= i < |keys| && 0 <= j < |keys|
    ensures keys[i] == keys[j] <==> i == j
  {}

  /** The numbers a call that leaves something unexamined ends with. */
  lemma CursorFacts(r: Ring, dead: set<Symbol>, maxEntries: nat)
    requires NoDup(r.keys) && r.keys != [] && maxEntries > 0 && Scanned(r, dead, maxEntries) < |r.keys|
    ensures var next, sum, len := Sweep(r, dead, maxEntries), Start(r) + Scanned(r, dead, maxEntries), |r.keys|;
            var gone, i := ToSet(Removed(r, dead, maxEntries)), Wrap(Start(r) + Scanned(r, dead, maxEntries), |r.keys|);
            var ahead := |gone * ToSet(r.keys[..i])|;
            && sum < 2 * len && i == (if sum < len then sum else sum - len)
            && |next.keys| == len - |gone| > 0 && NoDup(next.keys) && |gone| <= sum
            && next.cursor == (sum - |gone|) % |next.keys|
            && 0 <= i - ahead < |next.keys| && next.keys[i - ahead] == r.keys[i]
  {
    hide StopAt, Hits, Without, NoDup;
    var gone, i := ToSet(Removed(r, dead, maxEntries)), Wrap(Start(r) + Scanned(r, dead, maxEntries), |r.keys|);
    ModOnce(Start(r) + Scanned(r, dead, maxEntries), |r.keys|);
    SweepEffect(r, dead, maxEntries);
    ResumeKeySurvives(r, dead, maxEntries);
    PositionAfterDrop(r.keys, gone, i);
    DroppedBefore(r.keys, gone, i);
  }

  lemma CursorArith(len: nat, sum: nat, i: nat, gone: nat, ahead: nat, cursor: nat)
    requires gone < len && gone <= sum < 2 * len && i == (if sum < len then sum else sum - len)
    requires 0 <= i - ahead < len - gone && (sum < len ==> ahead == gone)
    requires cursor == (sum - gone) % (len - gone)
    ensures cursor < len - gone
    ensures cursor == i - ahead <==> sum < len || ahead % (len - gone) == 0
  {
    var n := len - gone;
    if sum < len {
      ModOnce(sum - gone, n);
    } else {
      assert sum - gone == n * 1 + i;
      MultipleDropsOut(n, 1, i);
      SameResidue(i, ahead, n);
    }
  }
}
