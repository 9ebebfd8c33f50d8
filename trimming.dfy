/** Remainder removal of the generate handler (server.js:154-172): when the
    number of registrations is not a multiple of the team size, the excess
    players are spliced out of a copy of the registrations, either the ones
    farthest from the pool's mean rating (balanced mode) or randomly drawn ones. */
module Trimming {
  import opened Records
  import opened Draws

  datatype Split = Split(kept: seq<Player>, removed: seq<Player>)

  /** `count * |p.mmr - sum / count|`: the distance of a rating from the mean,
      scaled by the pool size so that no division is needed. */
  function Deviation(p: Player, sum: nat, count: nat): nat
  {
    if count * p.mmr >= sum then count * p.mmr - sum else sum - count * p.mmr
  }

  /** The index the reduce at server.js:162-164 returns: it starts at 0 and
      moves to a later index only on a strictly larger deviation. */
  function Outlier(ps: seq<Player>, sum: nat, count: nat): (k: nat)
    requires ps != []
    ensures k < |ps|
    decreases |ps|
  {
    if |ps| == 1 then 0
    else
      var best := Outlier(ps[..|ps| - 1], sum, count);
      if Deviation(ps[|ps| - 1], sum, count) > Deviation(ps[best], sum, count) then |ps| - 1 else best
  }

  /** The reduce yields the first player of maximal deviation. */
  lemma {:induction false} OutlierIsFirstMaximum(ps: seq<Player>, sum: nat, count: nat)
    requires ps != []
    ensures var k := Outlier(ps, sum, count);
      (forall j :: 0 <= j < |ps| ==> Deviation(ps[j], sum, count) <= Deviation(ps[k], sum, count))
      && (forall j :: 0 <= j < k ==> Deviation(ps[j], sum, count) < Deviation(ps[k], sum, count))
    decreases |ps|
  {
    if |ps| > 1 {
      var init := ps[..|ps| - 1];
      OutlierIsFirstMaximum(init, sum, count);
      assert forall j :: 0 <= j < |init| ==> init[j] == ps[j];
    }
  }

  /** `k` rounds of the balanced loop: remove the outlier, measured against the
      fixed mean `sum / count`, from what is left. */
  function RemoveOutliers(ps: seq<Player>, sum: nat, count: nat, k: nat): (s: Split)
    requires k <= |ps|
    ensures |s.removed| == k && |s.kept| + k == |ps|
    decreases k
  {
    if k == 0 then Split(ps, [])
    else
      var o := Outlier(ps, sum, count);
      var s := RemoveOutliers(RemoveAt(ps, o), sum, count, k - 1);
      Split(s.kept, [ps[o]] + s.removed)
  }

  /** Balanced trimming loses no player and invents none. */
  lemma {:induction false} RemoveOutliersConserves(ps: seq<Player>, sum: nat, count: nat, k: nat)
    requires k <= |ps|
    ensures var s := RemoveOutliers(ps, sum, count, k);
      multiset(s.kept) + multiset(s.removed) == multiset(ps)
    decreases k
  {
    if k > 0 {
      var o := Outlier(ps, sum, count);
      var rest := RemoveAt(ps, o);
      RemoveOutliersConserves(rest, sum, count, k - 1);
      RemoveOutliersStep(ps, sum, count, k);
      var s := RemoveOutliers(rest, sum, count, k - 1);
      RemoveAtMultiset(ps, o);
      MultisetMove(s.kept, s.removed, ps[o], rest, ps);
    }
  }

  lemma RemoveOutliersStep(ps: seq<Player>, sum: nat, count: nat, k: nat)
    requires 0 < k <= |ps|
    ensures var o := Outlier(ps, sum, count);
      var s := RemoveOutliers(RemoveAt(ps, o), sum, count, k - 1);
      RemoveOutliers(ps, sum, count, k) == Split(s.kept, [ps[o]] + s.removed)
  {
  }

  /** The draws a random trim needs: one per excess player, each an index into
      the pool left at that moment. */
  predicate TrimDrawsFit(draws: seq<nat>, n: nat, teamSize: nat)
    requires teamSize >= 1
  {
    |draws| == n % teamSize && ValidPicks(draws, n)
  }

  /** The pool the generate handler passes on, and its `removedPlayers`. */
  function Trimmed(registrations: seq<Player>, teamSize: nat, mode: BalanceMode, draws: seq<nat>): (s: Split)
    requires teamSize >= 1
    requires mode == Random ==> TrimDrawsFit(draws, |registrations|, teamSize)
    ensures |s.removed| == |registrations| % teamSize
    ensures |s.kept| == teamSize * (|registrations| / teamSize)
    ensures |s.kept| % teamSize == 0 && |s.kept| / teamSize == |registrations| / teamSize
  {
    var n := |registrations|;
    DropRemainder(n, teamSize);
    var remainder := n % teamSize;
    if remainder == 0 then Split(registrations, [])
    else if mode == Balanced then RemoveOutliers(registrations, SumMmr(registrations), n, remainder)
    else
      var d := Draw(registrations, draws);
      Split(d.rest, d.picked)
  }

  /** The trimming block as the handler runs it: a copy of the registrations
      from which `remainder` players are spliced, one per loop round. */
  method Trim(registrations: seq<Player>, teamSize: nat, mode: BalanceMode, draws: seq<nat>)
    returns (players: seq<Player>, removedPlayers: seq<Player>)
    requires teamSize >= 1
    requires mode == Random ==> TrimDrawsFit(draws, |registrations|, teamSize)
    ensures Split(players, removedPlayers) == Trimmed(registrations, teamSize, mode, draws)
  {
    players := registrations;
    removedPlayers := [];
    var remainder := |players| % teamSize;
    if remainder != 0 {
      if mode == Balanced {
        var sum := SumMmr(players);
        players, removedPlayers := SpliceOutliers(players, sum, |players|, remainder);
      } else {
        players, removedPlayers := SpliceDrawn(players, draws);
      }
    }
  }

  /** The balanced loop (server.js:160-166); `sum` and `count` are those of the
      original pool, computed once before the loop. */
  method SpliceOutliers(registrations: seq<Player>, sum: nat, count: nat, remainder: nat)
    returns (players: seq<Player>, removedPlayers: seq<Player>)
    requires remainder <= |registrations|
    ensures Split(players, removedPlayers) == RemoveOutliers(registrations, sum, count, remainder)
  {
    players, removedPlayers := registrations, [];
    for i := 0 to remainder
      invariant |players| + i == |registrations|
      invariant RemoveOutliers(registrations, sum, count, remainder)
        == var s := RemoveOutliers(players, sum, count, remainder - i);
           Split(s.kept, removedPlayers + s.removed)
    {
      var outlierIndex := Outlier(players, sum, count);
      SpliceOutlierStep(players, sum, count, remainder - i, removedPlayers);
      removedPlayers := removedPlayers + [players[outlierIndex]];
      players := RemoveAt(players, outlierIndex);
    }
    assert RemoveOutliers(players, sum, count, 0) == Split(players, []);
  }

  /** One round of the balanced loop: what remains to be removed, after what
      was removed so far, is the current outlier and then the rounds that follow. */
  lemma SpliceOutlierStep(players: seq<Player>, sum: nat, count: nat, left: nat, removed: seq<Player>)
    requires 0 < left <= |players|
    ensures var o := Outlier(players, sum, count);
      var s := RemoveOutliers(players, sum, count, left);
      var s' := RemoveOutliers(RemoveAt(players, o), sum, count, left - 1);
      Split(s.kept, removed + s.removed) == Split(s'.kept, (removed + [players[o]]) + s'.removed)
  {
    RemoveOutliersStep(players, sum, count, left);
    var o := Outlier(players, sum, count);
    var s' := RemoveOutliers(RemoveAt(players, o), sum, count, left - 1);
    ConcatAssoc(removed, [players[o]], s'.removed);
  }

  /** The random loop (server.js:168-170): `draws[i]` stands for
      `Math.floor(Math.random() * players.length)` in round `i`. */
  method SpliceDrawn(registrations: seq<Player>, draws: seq<nat>)
    returns (players: seq<Player>, removedPlayers: seq<Player>)
    requires ValidPicks(draws, |registrations|)
    ensures Drawn(removedPlayers, players) == Draw(registrations, draws)
  {
    players, removedPlayers := registrations, [];
    for i := 0 to |draws|
      invariant |players| + i == |registrations|
      invariant ValidPicks(draws[i..], |players|)
      invariant Draw(registrations, draws)
        == var d := Draw(players, draws[i..]);
           Drawn(removedPlayers + d.picked, d.rest)
    {
      DrawnAfter(players, draws[i..], removedPlayers);
      assert draws[i..][1..] == draws[i + 1..];
      var index := draws[i];
      removedPlayers := removedPlayers + [players[index]];
      players := RemoveAt(players, index);
    }
    assert draws[|draws|..] == [];
  }

  /** Trimming removes exactly `n % teamSize` players, keeps a multiple of
      `teamSize`, and the kept and removed players together are the
      registrations, rearranged. */
  lemma TrimmedConserves(registrations: seq<Player>, teamSize: nat, mode: BalanceMode, draws: seq<nat>)
    requires teamSize >= 1
    requires mode == Random ==> TrimDrawsFit(draws, |registrations|, teamSize)
    ensures var s := Trimmed(registrations, teamSize, mode, draws);
      multiset(s.kept) + multiset(s.removed) == multiset(registrations)
  {
    var n := |registrations|;
    if n % teamSize != 0 {
      if mode == Balanced {
        RemoveOutliersConserves(registrations, SumMmr(registrations), n, n % teamSize);
      } else {
        DrawConserves(registrations, draws);
      }
    }
  }

  /** No element of `s` deviates more than `bound`. */
  predicate WithinDeviation(s: seq<Player>, bound: nat, sum: nat, count: nat)
  {
    forall q :: q in s ==> Deviation(q, sum, count) <= bound
  }

  /** Balanced trimming removes outliers of the original pool's mean: every
      removed player deviates from it at least as much as every kept player. */
  lemma {:induction false} OutliersDominate(ps: seq<Player>, sum: nat, count: nat, k: nat)
    requires k <= |ps|
    ensures forall i :: 0 <= i < k ==>
      WithinDeviation(RemoveOutliers(ps, sum, count, k).kept,
                      Deviation(RemoveOutliers(ps, sum, count, k).removed[i], sum, count), sum, count)
    decreases k
  {
    if k > 0 {
      var o := Outlier(ps, sum, count);
      var rest := RemoveAt(ps, o);
      RemoveOutliersStep(ps, sum, count, k);
      FirstRemovedDominates(ps, sum, count, k);
      OutliersDominate(rest, sum, count, k - 1);
      var s := RemoveOutliers(rest, sum, count, k - 1);
      var r := RemoveOutliers(ps, sum, count, k);
      forall i | 0 < i < k
        ensures WithinDeviation(r.kept, Deviation(r.removed[i], sum, count), sum, count)
      {
        assert r.removed[i] == s.removed[i - 1];
      }
    }
  }

  /** Players are removed in non-increasing order of deviation. */
  lemma {:induction false} OutliersInOrder(ps: seq<Player>, sum: nat, count: nat, k: nat)
    requires k <= |ps|
    ensures forall i, j :: 0 <= i < j < k ==>
      Deviation(RemoveOutliers(ps, sum, count, k).removed[j], sum, count)
        <= Deviation(RemoveOutliers(ps, sum, count, k).removed[i], sum, count)
    decreases k
  {
    if k > 0 {
      var o := Outlier(ps, sum, count);
      var rest := RemoveAt(ps, o);
      RemoveOutliersStep(ps, sum, count, k);
      FirstRemovedDominates(ps, sum, count, k);
      OutliersInOrder(rest, sum, count, k - 1);
      var r := RemoveOutliers(ps, sum, count, k);
      assert r.removed[1..] == RemoveOutliers(rest, sum, count, k - 1).removed;
      ConsInOrder(r.removed, sum, count);
    }
  }

  /** A sequence whose tail is in non-increasing order of deviation and
      deviates no more than its head is in that order. */
  lemma ConsInOrder(s: seq<Player>, sum: nat, count: nat)
    requires s != []
    requires forall i, j :: 0 <= i < j < |s| - 1 ==>
      Deviation(s[1..][j], sum, count) <= Deviation(s[1..][i], sum, count)
    requires WithinDeviation(s[1..], Deviation(s[0], sum, count), sum, count)
    ensures forall i, j :: 0 <= i < j < |s| ==> Deviation(s[j], sum, count) <= Deviation(s[i], sum, count)
  {
    forall i, j | 0 <= i < j < |s| ensures Deviation(s[j], sum, count) <= Deviation(s[i], sum, count) {
      assert s[j] == s[1..][j - 1];
      if i > 0 {
        assert s[i] == s[1..][i - 1];
      }
    }
  }

  /** The first player removed deviates at least as much as everyone removed
      after it and everyone kept. */
  lemma FirstRemovedDominates(ps: seq<Player>, sum: nat, count: nat, k: nat)
    requires 0 < k <= |ps|
    ensures WithinDeviation(RemoveOutliers(ps, sum, count, k).kept,
                            Deviation(RemoveOutliers(ps, sum, count, k).removed[0], sum, count), sum, count)
    ensures WithinDeviation(RemoveOutliers(ps, sum, count, k).removed[1..],
                            Deviation(RemoveOutliers(ps, sum, count, k).removed[0], sum, count), sum, count)
  {
    var o := Outlier(ps, sum, count);
    var rest := RemoveAt(ps, o);
    RemoveOutliersStep(ps, sum, count, k);
    OutlierBoundsRest(ps, sum, count);
    RemoveOutliersConserves(rest, sum, count, k - 1);
    var s := RemoveOutliers(rest, sum, count, k - 1);
    var top := Deviation(ps[o], sum, count);
    WithinPart(s.kept, rest, top, sum, count);
    WithinPart(s.removed, rest, top, sum, count);
    assert RemoveOutliers(ps, sum, count, k).removed[1..] == s.removed;
  }

  /** A bound on a pool bounds every part of it. */
  lemma WithinPart(part: seq<Player>, whole: seq<Player>, bound: nat, sum: nat, count: nat)
    requires multiset(part) <= multiset(whole)
    requires WithinDeviation(whole, bound, sum, count)
    ensures WithinDeviation(part, bound, sum, count)
  {
    forall q | q in part ensures Deviation(q, sum, count) <= bound {
      assert q in multiset(part);
      assert q in multiset(whole);
    }
  }

  /** What is left after removing the outlier deviates no more than it did. */
  lemma OutlierBoundsRest(ps: seq<Player>, sum: nat, count: nat)
    requires ps != []
    ensures var o := Outlier(ps, sum, count);
      WithinDeviation(RemoveAt(ps, o), Deviation(ps[o], sum, count), sum, count)
  {
    var o := Outlier(ps, sum, count);
    OutlierIsFirstMaximum(ps, sum, count);
    var rest := RemoveAt(ps, o);
    RemoveAtMultiset(ps, o);
    forall q | q in rest ensures Deviation(q, sum, count) <= Deviation(ps[o], sum, count) {
      assert q in multiset(rest);
      assert q in multiset(ps);
    }
  }

  /** The removed players of a balanced trim dominate the kept ones, measured
      against the mean of all registrations, and leave in non-increasing order
      of that deviation. */
  lemma BalancedTrimDominates(registrations: seq<Player>, teamSize: nat)
    requires teamSize >= 1
    ensures var s := Trimmed(registrations, teamSize, Balanced, []);
      forall i :: 0 <= i < |s.removed| ==>
        WithinDeviation(s.kept, Deviation(s.removed[i], SumMmr(registrations), |registrations|),
                        SumMmr(registrations), |registrations|)
    ensures var s := Trimmed(registrations, teamSize, Balanced, []);
      forall i, j :: 0 <= i < j < |s.removed| ==>
        Deviation(s.removed[j], SumMmr(registrations), |registrations|)
          <= Deviation(s.removed[i], SumMmr(registrations), |registrations|)
  {
    var n := |registrations|;
    if n % teamSize != 0 {
      var s := Trimmed(registrations, teamSize, Balanced, []);
      var r := RemoveOutliers(registrations, SumMmr(registrations), n, n % teamSize);
      assert s == r;
      OutliersDominate(registrations, SumMmr(registrations), n, n % teamSize);
      OutliersInOrder(registrations, SumMmr(registrations), n, n % teamSize);
      assert forall i :: 0 <= i < |r.removed| ==>
        WithinDeviation(r.kept, Deviation(r.removed[i], SumMmr(registrations), n), SumMmr(registrations), n);
    }
  }

  /** Three players rated 1000 and one rated 10, teams of three: the player
      rated 10 is the one excluded. */
  lemma TrimExample(a: Player, b: Player, c: Player, d: Player)
    requires a.mmr == 1000 && b.mmr == 1000 && c.mmr == 1000 && d.mmr == 10
    ensures Trimmed([a, b, c, d], 3, Balanced, []) == Split([a, b, c], [d])
  {
    var ps := [a, b, c, d];
    ExampleSum(a, b, c, d);
    ExampleOutlier(a, b, c, d);
    assert RemoveAt(ps, 3) == [a, b, c];
    RemoveOutliersStep(ps, 3010, 4, 1);
  }

  lemma ExampleSum(a: Player, b: Player, c: Player, d: Player)
    requires a.mmr == 1000 && b.mmr == 1000 && c.mmr == 1000 && d.mmr == 10
    ensures SumMmr([a, b, c, d]) == 3010
  {
    SumMmrAppend([], a);
    SumMmrAppend([a], b);
    SumMmrAppend([a, b], c);
    SumMmrAppend([a, b, c], d);
    assert [] + [a] == [a] && [a] + [b] == [a, b] && [a, b] + [c] == [a, b, c] && [a, b, c] + [d] == [a, b, c, d];
  }

  lemma ExampleOutlier(a: Player, b: Player, c: Player, d: Player)
    requires a.mmr == 1000 && b.mmr == 1000 && c.mmr == 1000 && d.mmr == 10
    ensures Outlier([a, b, c, d], 3010, 4) == 3
  {
    assert Deviation(a, 3010, 4) == 990 && Deviation(b, 3010, 4) == 990;
    assert Deviation(c, 3010, 4) == 990 && Deviation(d, 3010, 4) == 2970;
    assert [a, b, c, d][..3] == [a, b, c] && [a, b, c][..2] == [a, b] && [a, b][..1] == [a];
    assert Outlier([a], 3010, 4) == 0;
    assert Outlier([a, b], 3010, 4) == 0;
    assert Outlier([a, b, c], 3010, 4) == 0;
  }
}
