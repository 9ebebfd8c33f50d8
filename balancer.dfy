/** `balanceTeams` (server.js:242-290): `floor(n / teamSize)` empty teams;
    pre-assigned players go to their team when it exists; the others, highest
    rating first, each join a team with the fewest players and, among those,
    the lowest total rating; finally every team gets its rounded mean. */
module Balancer {
  import opened Records
  import opened Sorting

  /** `p.preAssignedTeam` is truthy: a number other than 0 (NaN and an absent
      property are falsy). */
  predicate IsPreAssigned(p: Player)
  {
    p.preAssignedTeam.Number? && p.preAssignedTeam.n != 0
  }

  /** `player.preAssignedTeam - 1`, the 0-based team index; a slot without a
      number gives an index that is never in range. */
  function TeamIndex(p: Player): int
  {
    if p.preAssignedTeam.Number? then p.preAssignedTeam.n - 1 else -1
  }

  /** `players.filter(p => p.preAssignedTeam)` when `wanted`, and
      `players.filter(p => !p.preAssignedTeam)` otherwise. */
  function Select(ps: seq<Player>, wanted: bool): seq<Player>
  {
    if ps == [] then []
    else
      var p := ps[|ps| - 1];
      Select(ps[..|ps| - 1], wanted) + (if IsPreAssigned(p) == wanted then [p] else [])
  }

  /** The players whose team index is below `m`, in order. */
  function InRange(ps: seq<Player>, m: nat): seq<Player>
  {
    if ps == [] then []
    else
      var p := ps[|ps| - 1];
      InRange(ps[..|ps| - 1], m) + (if 0 <= TeamIndex(p) < m then [p] else [])
  }

  lemma {:induction false} SelectMembers(ps: seq<Player>, wanted: bool)
    ensures forall p :: p in Select(ps, wanted) <==> p in ps && IsPreAssigned(p) == wanted
  {
    if ps != [] {
      SelectMembers(ps[..|ps| - 1], wanted);
      assert ps == ps[..|ps| - 1] + [ps[|ps| - 1]];
    }
  }

  lemma {:induction false} InRangeMembers(ps: seq<Player>, m: nat)
    ensures forall p :: p in InRange(ps, m) <==> p in ps && 0 <= TeamIndex(p) < m
  {
    if ps != [] {
      InRangeMembers(ps[..|ps| - 1], m);
      assert ps == ps[..|ps| - 1] + [ps[|ps| - 1]];
    }
  }

  /** `filter` keeps the players' relative order: filtering two lists one
      after the other is filtering each and concatenating. */
  lemma {:induction false} SelectAppend(a: seq<Player>, b: seq<Player>, wanted: bool)
    ensures Select(a + b, wanted) == Select(a, wanted) + Select(b, wanted)
    decreases |b|
  {
    if b == [] {
      assert a + b == a;
    } else {
      var x := b[|b| - 1];
      var b' := b[..|b| - 1];
      assert (a + b)[..|a + b| - 1] == a + b';
      assert (a + b)[|a + b| - 1] == x;
      SelectAppend(a, b', wanted);
      ConcatAssoc(Select(a, wanted), Select(b', wanted), if IsPreAssigned(x) == wanted then [x] else []);
    }
  }

  /** The two filters split the players between them. */
  lemma {:induction false} SelectPartitions(ps: seq<Player>)
    ensures multiset(Select(ps, true)) + multiset(Select(ps, false)) == multiset(ps)
  {
    if ps != [] {
      SelectPartitions(ps[..|ps| - 1]);
      assert ps == ps[..|ps| - 1] + [ps[|ps| - 1]];
    }
  }

  /** `Array.from({ length: m }, (_, i) => ({ teamNumber: i + 1, players: [] }))`. */
  function EmptyTeams(m: nat): (t: seq<Team>)
    ensures |t| == m
  {
    seq(m, i requires 0 <= i < m => Team(i + 1, [], NaN))
  }

  /** `team.players.push(p)`. */
  function Join(t: Team, p: Player): Team
  {
    t.(players := t.players + [p])
  }

  /** The first `forEach` (server.js:256-261): each pre-assigned player, in
      order, joins the team at its index when that team exists. */
  function PlaceAssigned(teams: seq<Team>, ps: seq<Player>): (r: seq<Team>)
    ensures |r| == |teams|
  {
    if ps == [] then teams
    else
      var t := PlaceAssigned(teams, ps[..|ps| - 1]);
      var p := ps[|ps| - 1];
      var k := TeamIndex(p);
      if 0 <= k < |t| then t[k := Join(t[k], p)] else t
  }

  /** Team `u` is a better target than team `t`: fewer players, or as many
      players and a lower total rating. */
  predicate Prefers(teams: seq<Team>, u: nat, t: nat)
    requires u < |teams| && t < |teams|
  {
    |teams[u].players| < |teams[t].players|
    || (|teams[u].players| == |teams[t].players|
        && SumMmr(teams[u].players) < SumMmr(teams[t].players))
  }

  /** `targetTeam` (server.js:268-279): the stable sort by size puts the
      smallest teams first in index order, the filter keeps those, and the
      reduce with a strict `<` keeps the first of lowest total rating. Folding
      the teams from the left with the same strict comparison gives that team. */
  function Target(teams: seq<Team>): (k: nat)
    requires teams != []
    ensures k < |teams|
  {
    if |teams| == 1 then 0
    else
      var b := Target(teams[..|teams| - 1]);
      var u := |teams| - 1;
      if Prefers(teams, u, b) then u else b
  }

  /** The target is the first team that no other team is preferred to. */
  lemma {:induction false} TargetIsFirstBest(teams: seq<Team>)
    requires teams != []
    ensures forall j :: 0 <= j < |teams| ==> !Prefers(teams, j, Target(teams))
    ensures forall j :: 0 <= j < Target(teams) ==> Prefers(teams, Target(teams), j)
  {
    if |teams| > 1 {
      var init := teams[..|teams| - 1];
      var u := |teams| - 1;
      var b := Target(init);
      TargetIsFirstBest(init);
      forall j | 0 <= j < |init| ensures !Prefers(teams, j, b) {
        assert !Prefers(init, j, b);
        assert init[j] == teams[j] && init[b] == teams[b];
      }
      forall j | 0 <= j < b ensures Prefers(teams, b, j) {
        assert Prefers(init, b, j);
        assert init[j] == teams[j] && init[b] == teams[b];
      }
      if Prefers(teams, u, b) {
        assert Target(teams) == u;
        forall j | 0 <= j < |teams| ensures !Prefers(teams, j, u) {
          if j < u {
            assert !Prefers(teams, j, b);
          }
        }
        forall j | 0 <= j < u ensures Prefers(teams, u, j) {
          assert !Prefers(teams, j, b);
          if j < b {
            assert Prefers(teams, b, j);
          }
        }
      } else {
        assert Target(teams) == b;
      }
    }
  }

  /** The second `forEach` (server.js:267-282): each player in turn joins the
      target team of the moment. */
  function Draft(teams: seq<Team>, ps: seq<Player>): (r: seq<Team>)
    requires teams != [] || ps == []
    ensures |r| == |teams|
  {
    if ps == [] then teams
    else
      var t := Draft(teams, ps[..|ps| - 1]);
      var k := Target(t);
      t[k := Join(t[k], ps[|ps| - 1])]
  }

  /** The last `forEach` (server.js:285-287). */
  function WithAverages(teams: seq<Team>): (r: seq<Team>)
    ensures |r| == |teams|
  {
    seq(|teams|, i requires 0 <= i < |teams| => teams[i].(avgMMR := MeanOf(teams[i].players)))
  }

  /** What `balanceTeams(players, teamSize)` returns. With no team and an
      unassigned player, `teamsSorted[0]` is undefined and the call throws;
      the second requires excludes exactly that case. */
  function BalancedTeams(players: seq<Player>, teamSize: nat): seq<Team>
    requires teamSize >= 1
    requires |players| / teamSize > 0 || forall p :: p in players ==> IsPreAssigned(p)
  {
    var m := |players| / teamSize;
    var placed := PlaceAssigned(EmptyTeams(m), Select(players, true));
    DraftFits(players, teamSize);
    var sorted := SortByMmr(Select(players, false));
    WithAverages(Draft(placed, sorted))
  }

  /** With no team, every player is pre-assigned, so none is drafted. */
  lemma DraftFits(players: seq<Player>, teamSize: nat)
    requires teamSize >= 1
    requires |players| / teamSize > 0 || forall p :: p in players ==> IsPreAssigned(p)
    ensures |players| / teamSize > 0 || Select(players, false) == []
  {
    if |players| / teamSize == 0 {
      SelectUniform(players, true);
    }
  }

  /** When every player is (or no player is) pre-assigned, one filter keeps
      them all and the other none. */
  lemma {:induction false} SelectUniform(ps: seq<Player>, wanted: bool)
    requires forall p :: p in ps ==> IsPreAssigned(p) == wanted
    ensures Select(ps, wanted) == ps && Select(ps, !wanted) == []
  {
    if ps != [] {
      var init, p := ps[..|ps| - 1], ps[|ps| - 1];
      assert ps == init + [p];
      assert forall q :: q in init ==> q in ps;
      SelectUniform(init, wanted);
      assert IsPreAssigned(p) == wanted;
      assert Select(ps, wanted) == Select(init, wanted) + [p];
      assert Select(ps, !wanted) == Select(init, !wanted) + [];
    }
  }

  /** `balanceTeams` step by step: the teams are an array whose entries the
      three loops update. */
  method BalanceTeams(players: seq<Player>, teamSize: nat) returns (teams: seq<Team>)
    requires teamSize >= 1
    requires |players| / teamSize > 0 || forall p :: p in players ==> IsPreAssigned(p)
    ensures teams == BalancedTeams(players, teamSize)
  {
    var numTeams := |players| / teamSize;
    var t := new Team[numTeams](i requires 0 <= i < numTeams => Team(i + 1, [], NaN));
    assert t[..] == EmptyTeams(numTeams);
    var assignedPlayers := Select(players, true);
    var unassignedPlayers := Select(players, false);
    PlacePreAssigned(t, assignedPlayers);
    DraftFits(players, teamSize);
    var sorted := SortByMmr(unassignedPlayers);
    DraftSorted(t, sorted);
    SetAverages(t);
    teams := t[..];
  }

  /** The first `forEach`: pushes each pre-assigned player onto its team when
      the team index is in range. */
  method PlacePreAssigned(t: array<Team>, assignedPlayers: seq<Player>)
    modifies t
    ensures t[..] == PlaceAssigned(old(t[..]), assignedPlayers)
  {
    ghost var start := t[..];
    for j := 0 to |assignedPlayers|
      invariant t[..] == PlaceAssigned(start, assignedPlayers[..j])
    {
      assert assignedPlayers[..j + 1][..j] == assignedPlayers[..j];
      var player := assignedPlayers[j];
      var teamIndex := TeamIndex(player);
      if 0 <= teamIndex < t.Length {
        t[teamIndex] := Join(t[teamIndex], player);
      }
    }
    assert assignedPlayers[..|assignedPlayers|] == assignedPlayers;
  }

  /** The second `forEach`: pushes each sorted player onto the target team of
      the moment. */
  method DraftSorted(t: array<Team>, sorted: seq<Player>)
    requires t.Length > 0 || sorted == []
    modifies t
    ensures t[..] == Draft(old(t[..]), sorted)
  {
    ghost var start := t[..];
    for j := 0 to |sorted|
      invariant t[..] == Draft(start, sorted[..j])
    {
      assert sorted[..j + 1][..j] == sorted[..j];
      var targetTeam := Target(t[..]);
      t[targetTeam] := Join(t[targetTeam], sorted[j]);
    }
    assert sorted[..|sorted|] == sorted;
  }

  /** The last `forEach`: sets every team's `avgMMR`. */
  method SetAverages(t: array<Team>)
    modifies t
    ensures t[..] == WithAverages(old(t[..]))
  {
    ghost var start := t[..];
    for j := 0 to t.Length
      invariant forall i :: 0 <= i < j ==> t[i] == start[i].(avgMMR := MeanOf(start[i].players))
      invariant forall i :: j <= i < t.Length ==> t[i] == start[i]
    {
      t[j] := t[j].(avgMMR := MeanOf(t[j].players));
    }
  }

  // ---------------------------------------------------------------------
  // Shape

  lemma {:induction false} PlaceKeepsNumbers(teams: seq<Team>, ps: seq<Player>)
    ensures forall i :: 0 <= i < |teams| ==>
      PlaceAssigned(teams, ps)[i].teamNumber == teams[i].teamNumber
  {
    if ps != [] {
      PlaceKeepsNumbers(teams, ps[..|ps| - 1]);
    }
  }

  lemma {:induction false} DraftKeepsNumbers(teams: seq<Team>, ps: seq<Player>)
    requires teams != [] || ps == []
    ensures forall i :: 0 <= i < |teams| ==> Draft(teams, ps)[i].teamNumber == teams[i].teamNumber
  {
    if ps != [] {
      DraftKeepsNumbers(teams, ps[..|ps| - 1]);
    }
  }

  /** `floor(n / teamSize)` teams numbered 1, 2, ... in order, each carrying the
      rounded mean rating of its players (NaN for an empty team). */
  lemma BalancedShape(players: seq<Player>, teamSize: nat)
    requires teamSize >= 1
    requires |players| / teamSize > 0 || forall p :: p in players ==> IsPreAssigned(p)
    ensures |BalancedTeams(players, teamSize)| == |players| / teamSize
    ensures forall i :: 0 <= i < |players| / teamSize ==>
      BalancedTeams(players, teamSize)[i].teamNumber == i + 1
      && BalancedTeams(players, teamSize)[i].avgMMR == MeanOf(BalancedTeams(players, teamSize)[i].players)
  {
    var m := |players| / teamSize;
    var placed := PlaceAssigned(EmptyTeams(m), Select(players, true));
    DraftFits(players, teamSize);
    var sorted := SortByMmr(Select(players, false));
    PlaceKeepsNumbers(EmptyTeams(m), Select(players, true));
    DraftKeepsNumbers(placed, sorted);
  }

  // ---------------------------------------------------------------------
  // Conservation

  lemma {:induction false} FlattenJoin(t: seq<Team>, k: nat, p: Player)
    requires k < |t|
    ensures multiset(Flatten(t[k := Join(t[k], p)])) == multiset(Flatten(t)) + multiset{p}
    decreases |t|
  {
    var u := t[k := Join(t[k], p)];
    var n := |t| - 1;
    if k == n {
      assert u[..n] == t[..n];
    } else {
      assert u[..n] == t[..n][k := Join(t[k], p)];
      FlattenJoin(t[..n], k, p);
    }
  }

  lemma {:induction false} PlaceConserves(teams: seq<Team>, ps: seq<Player>)
    ensures multiset(Flatten(PlaceAssigned(teams, ps)))
      == multiset(Flatten(teams)) + multiset(InRange(ps, |teams|))
  {
    if ps != [] {
      var init := ps[..|ps| - 1];
      var p := ps[|ps| - 1];
      var t := PlaceAssigned(teams, init);
      PlaceConserves(teams, init);
      PlaceStep(teams, ps);
      if 0 <= TeamIndex(p) < |teams| {
        FlattenJoin(t, TeamIndex(p), p);
        assert multiset(InRange(init, |teams|) + [p]) == multiset(InRange(init, |teams|)) + multiset{p};
      }
    }
  }

  /** One more pre-assigned player: placed, and counted as in range, exactly
      when its team exists. */
  lemma PlaceStep(teams: seq<Team>, ps: seq<Player>)
    requires ps != []
    ensures var t := PlaceAssigned(teams, ps[..|ps| - 1]);
      var p := ps[|ps| - 1];
      if 0 <= TeamIndex(p) < |teams| then
        PlaceAssigned(teams, ps) == t[TeamIndex(p) := Join(t[TeamIndex(p)], p)]
        && InRange(ps, |teams|) == InRange(ps[..|ps| - 1], |teams|) + [p]
      else
        PlaceAssigned(teams, ps) == t && InRange(ps, |teams|) == InRange(ps[..|ps| - 1], |teams|)
  {
  }

  lemma {:induction false} DraftConserves(teams: seq<Team>, ps: seq<Player>)
    requires teams != [] || ps == []
    ensures multiset(Flatten(Draft(teams, ps))) == multiset(Flatten(teams)) + multiset(ps)
  {
    if ps != [] {
      var init, p := ps[..|ps| - 1], ps[|ps| - 1];
      var t := Draft(teams, init);
      DraftConserves(teams, init);
      var k := Target(t);
      DraftStep(teams, ps);
      FlattenJoin(t, k, p);
      MultisetSnoc(ps);
    }
  }

  /** One more player joins the target team. */
  lemma DraftStep(teams: seq<Team>, ps: seq<Player>)
    requires teams != [] && ps != []
    ensures Draft(teams, ps)
      == var t := Draft(teams, ps[..|ps| - 1]);
         t[Target(t) := Join(t[Target(t)], ps[|ps| - 1])]
  {
  }

  lemma {:induction false} FlattenSamePlayers(a: seq<Team>, b: seq<Team>)
    requires |a| == |b|
    requires forall i :: 0 <= i < |a| ==> a[i].players == b[i].players
    ensures Flatten(a) == Flatten(b)
  {
    if a != [] {
      FlattenSamePlayers(a[..|a| - 1], b[..|b| - 1]);
    }
  }

  lemma {:induction false} FlattenEmptyTeams(m: nat)
    ensures Flatten(EmptyTeams(m)) == []
  {
    if m > 0 {
      assert EmptyTeams(m)[..m - 1] == EmptyTeams(m - 1);
      FlattenEmptyTeams(m - 1);
    }
  }

  /** The players in the teams are the pre-assigned players whose team exists
      and all unassigned players, each as often as it was given. */
  lemma BalancedConserves(players: seq<Player>, teamSize: nat)
    requires teamSize >= 1
    requires |players| / teamSize > 0 || forall p :: p in players ==> IsPreAssigned(p)
    ensures multiset(Flatten(BalancedTeams(players, teamSize)))
      == multiset(InRange(Select(players, true), |players| / teamSize)) + multiset(Select(players, false))
  {
    var m := |players| / teamSize;
    var chosen, unassigned := Select(players, true), Select(players, false);
    var empty := EmptyTeams(m);
    var placed := PlaceAssigned(empty, chosen);
    DraftFits(players, teamSize);
    var sorted := SortByMmr(unassigned);
    var drafted := Draft(placed, sorted);
    assert BalancedTeams(players, teamSize) == WithAverages(drafted);
    FlattenEmptyTeams(m);
    PlaceConserves(empty, chosen);
    assert multiset(Flatten(placed)) == multiset(InRange(chosen, m));
    DraftConserves(placed, sorted);
    SortByMmrSorts(unassigned);
    assert multiset(Flatten(drafted)) == multiset(InRange(chosen, m)) + multiset(unassigned);
    WithAveragesFlatten(drafted);
  }

  lemma WithAveragesFlatten(teams: seq<Team>)
    ensures Flatten(WithAverages(teams)) == Flatten(teams)
  {
    FlattenSamePlayers(WithAverages(teams), teams);
  }

  /** Every unassigned player is in the teams exactly as often as among the
      players given: once, when the players are distinct. */
  lemma UnassignedPlacedOnce(players: seq<Player>, teamSize: nat, p: Player)
    requires teamSize >= 1
    requires |players| / teamSize > 0 || forall p :: p in players ==> IsPreAssigned(p)
    requires !IsPreAssigned(p)
    ensures multiset(Flatten(BalancedTeams(players, teamSize)))[p] == multiset(players)[p]
  {
    BalancedConserves(players, teamSize);
    SelectMembers(players, true);
    InRangeMembers(Select(players, true), |players| / teamSize);
    assert p !in InRange(Select(players, true), |players| / teamSize);
    SelectPartitions(players);
    assert p !in Select(players, true);
  }

  /** A pre-assigned player whose team number exceeds the number of teams (or
      is negative) is in no team. */
  lemma OutOfRangeDropped(players: seq<Player>, teamSize: nat, p: Player)
    requires teamSize >= 1
    requires |players| / teamSize > 0 || forall p :: p in players ==> IsPreAssigned(p)
    requires IsPreAssigned(p) && !(0 <= TeamIndex(p) < |players| / teamSize)
    ensures p !in Flatten(BalancedTeams(players, teamSize))
  {
    BalancedConserves(players, teamSize);
    InRangeMembers(Select(players, true), |players| / teamSize);
    SelectMembers(players, false);
    assert p !in InRange(Select(players, true), |players| / teamSize);
    assert p !in Select(players, false);
    assert multiset(Flatten(BalancedTeams(players, teamSize)))[p] == 0;
  }

  // ---------------------------------------------------------------------
  // Pre-assignment

  lemma {:induction false} PlaceGrows(teams: seq<Team>, ps: seq<Player>, i: nat, q: Player)
    requires i < |teams| && q in teams[i].players
    ensures q in PlaceAssigned(teams, ps)[i].players
  {
    if ps != [] {
      PlaceGrows(teams, ps[..|ps| - 1], i, q);
    }
  }

  lemma {:induction false} PlaceSeats(teams: seq<Team>, ps: seq<Player>, p: Player)
    requires p in ps && 0 <= TeamIndex(p) < |teams|
    ensures p in PlaceAssigned(teams, ps)[TeamIndex(p)].players
  {
    var init := ps[..|ps| - 1];
    if p == ps[|ps| - 1] {
    } else {
      assert ps == init + [ps[|ps| - 1]];
      PlaceSeats(teams, init, p);
      var t := PlaceAssigned(teams, init);
      var k := TeamIndex(ps[|ps| - 1]);
      if 0 <= k < |t| {
        assert t[k := Join(t[k], ps[|ps| - 1])][TeamIndex(p)].players
          == if k == TeamIndex(p) then t[k].players + [ps[|ps| - 1]] else t[TeamIndex(p)].players;
      }
    }
  }

  lemma {:induction false} DraftGrows(teams: seq<Team>, ps: seq<Player>, i: nat, q: Player)
    requires teams != [] || ps == []
    requires i < |teams| && q in teams[i].players
    ensures q in Draft(teams, ps)[i].players
  {
    if ps != [] {
      DraftGrows(teams, ps[..|ps| - 1], i, q);
    }
  }

  /** A player pre-assigned to team `k`, `1 <= k <= floor(n / teamSize)`, is
      in team `k`. */
  lemma PreAssignedLands(players: seq<Player>, teamSize: nat, p: Player)
    requires teamSize >= 1
    requires |players| / teamSize > 0 || forall p :: p in players ==> IsPreAssigned(p)
    requires p in players && IsPreAssigned(p) && 0 <= TeamIndex(p) < |players| / teamSize
    ensures p in BalancedTeams(players, teamSize)[p.preAssignedTeam.n - 1].players
  {
    var m := |players| / teamSize;
    SelectMembers(players, true);
    PlaceSeats(EmptyTeams(m), Select(players, true), p);
    var placed := PlaceAssigned(EmptyTeams(m), Select(players, true));
    DraftFits(players, teamSize);
    var sorted := SortByMmr(Select(players, false));
    DraftGrows(placed, sorted, TeamIndex(p), p);
  }

  // ---------------------------------------------------------------------
  // Placement

  /** The unassigned players are handed out highest rating first, and each
      joins the target team of the moment, which is the first team that has
      the fewest players and, among those, the lowest total rating. */
  lemma DraftOrder(players: seq<Player>, teams: seq<Team>, j: nat)
    requires teams != []
    requires j < |SortByMmr(Select(players, false))|
    ensures NonIncreasing(SortByMmr(Select(players, false)))
    ensures Draft(teams, SortByMmr(Select(players, false))[..j + 1])
      == var t := Draft(teams, SortByMmr(Select(players, false))[..j]);
         t[Target(t) := Join(t[Target(t)], SortByMmr(Select(players, false))[j])]
    ensures forall i :: 0 <= i < |teams| ==>
      !Prefers(Draft(teams, SortByMmr(Select(players, false))[..j]), i,
               Target(Draft(teams, SortByMmr(Select(players, false))[..j])))
    ensures forall i :: 0 <= i < Target(Draft(teams, SortByMmr(Select(players, false))[..j])) ==>
      Prefers(Draft(teams, SortByMmr(Select(players, false))[..j]),
              Target(Draft(teams, SortByMmr(Select(players, false))[..j])), i)
  {
    var sorted := SortByMmr(Select(players, false));
    SortByMmrSorts(Select(players, false));
    assert sorted[..j + 1][..j] == sorted[..j];
    TargetIsFirstBest(Draft(teams, sorted[..j]));
  }

  // ---------------------------------------------------------------------
  // Even teams

  /** Team sizes differ by at most one. */
  predicate Level(teams: seq<Team>)
  {
    forall i, j :: 0 <= i < |teams| && 0 <= j < |teams| ==>
      |teams[i].players| <= |teams[j].players| + 1
  }

  lemma {:induction false} DraftLevels(teams: seq<Team>, ps: seq<Player>)
    requires teams != [] && Level(teams)
    ensures Level(Draft(teams, ps))
  {
    if ps != [] {
      DraftLevels(teams, ps[..|ps| - 1]);
      var t := Draft(teams, ps[..|ps| - 1]);
      TargetIsFirstBest(t);
      var k := Target(t);
      forall j | 0 <= j < |t| ensures |t[k].players| <= |t[j].players| {
        assert !Prefers(t, j, k);
      }
    }
  }

  lemma {:induction false} SizesAtLeast(teams: seq<Team>, lo: nat, a: nat)
    requires forall i :: 0 <= i < |teams| ==> |teams[i].players| >= lo
    requires a < |teams| && |teams[a].players| > lo
    ensures |Flatten(teams)| >= lo * |teams| + 1
  {
    var n := |teams| - 1;
    var init := teams[..n];
    if a == n {
      SizesAtLeastAll(init, lo);
    } else {
      SizesAtLeast(init, lo, a);
    }
    assert lo * |teams| == lo * n + lo;
  }

  lemma {:induction false} SizesAtLeastAll(teams: seq<Team>, lo: nat)
    requires forall i :: 0 <= i < |teams| ==> |teams[i].players| >= lo
    ensures |Flatten(teams)| >= lo * |teams|
  {
    if teams != [] {
      var n := |teams| - 1;
      SizesAtLeastAll(teams[..n], lo);
      assert lo * |teams| == lo * n + lo;
    }
  }

  lemma {:induction false} SizesAtMost(teams: seq<Team>, hi: nat, a: nat)
    requires forall i :: 0 <= i < |teams| ==> |teams[i].players| <= hi
    requires a < |teams| && |teams[a].players| < hi
    ensures |Flatten(teams)| + 1 <= hi * |teams|
  {
    var n := |teams| - 1;
    var init := teams[..n];
    if a == n {
      SizesAtMostAll(init, hi);
    } else {
      SizesAtMost(init, hi, a);
    }
    assert hi * |teams| == hi * n + hi;
  }

  lemma {:induction false} SizesAtMostAll(teams: seq<Team>, hi: nat)
    requires forall i :: 0 <= i < |teams| ==> |teams[i].players| <= hi
    ensures |Flatten(teams)| <= hi * |teams|
  {
    if teams != [] {
      var n := |teams| - 1;
      SizesAtMostAll(teams[..n], hi);
      assert hi * |teams| == hi * n + hi;
    }
  }

  /** Level teams holding `size * |teams|` players all hold exactly `size`. */
  lemma LevelFull(teams: seq<Team>, size: nat)
    requires Level(teams) && |Flatten(teams)| == size * |teams|
    ensures forall i :: 0 <= i < |teams| ==> |teams[i].players| == size
  {
    forall a | 0 <= a < |teams| ensures |teams[a].players| == size {
      var s := |teams[a].players|;
      if s > size {
        MulMonotone(size, s - 1, |teams|);
        SizesAtLeast(teams, s - 1, a);
        assert false;
      } else if s < size {
        MulMonotone(s + 1, size, |teams|);
        SizesAtMost(teams, s + 1, a);
        assert false;
      }
    }
  }

  /** Without pre-assignment, the balanced teams are the draft of all players
      into empty teams, with averages set. */
  lemma BalancedIsDraft(players: seq<Player>, teamSize: nat)
    requires teamSize >= 1 && |players| / teamSize > 0
    requires forall p :: p in players ==> !IsPreAssigned(p)
    ensures |BalancedTeams(players, teamSize)| == |players| / teamSize
    ensures forall i :: 0 <= i < |players| / teamSize ==>
      BalancedTeams(players, teamSize)[i].players
        == Draft(EmptyTeams(|players| / teamSize), SortByMmr(players))[i].players
  {
    var m := |players| / teamSize;
    SelectUniform(players, false);
    assert PlaceAssigned(EmptyTeams(m), Select(players, true)) == EmptyTeams(m);
    var drafted := Draft(EmptyTeams(m), SortByMmr(players));
    assert BalancedTeams(players, teamSize) == WithAverages(drafted);
  }

  /** Without pre-assignment the team sizes differ by at most one, and when the
      team size divides the number of players every team is full. */
  lemma EvenWithoutPreAssignment(players: seq<Player>, teamSize: nat)
    requires teamSize >= 1 && |players| / teamSize > 0
    requires forall p :: p in players ==> !IsPreAssigned(p)
    ensures Level(BalancedTeams(players, teamSize))
    ensures |players| % teamSize == 0 ==>
      forall i :: 0 <= i < |players| / teamSize ==>
        |BalancedTeams(players, teamSize)[i].players| == teamSize
  {
    var m := |players| / teamSize;
    var drafted := Draft(EmptyTeams(m), SortByMmr(players));
    var r := BalancedTeams(players, teamSize);
    BalancedIsDraft(players, teamSize);
    DraftLevels(EmptyTeams(m), SortByMmr(players));
    forall i, j | 0 <= i < |r| && 0 <= j < |r| ensures |r[i].players| <= |r[j].players| + 1 {
      assert r[i].players == drafted[i].players && r[j].players == drafted[j].players;
    }
    if |players| % teamSize == 0 {
      EvenFull(players, teamSize);
    }
  }

  lemma EvenFull(players: seq<Player>, teamSize: nat)
    requires teamSize >= 1 && |players| / teamSize > 0 && |players| % teamSize == 0
    requires forall p :: p in players ==> !IsPreAssigned(p)
    requires Level(BalancedTeams(players, teamSize))
    ensures forall i :: 0 <= i < |players| / teamSize ==>
      |BalancedTeams(players, teamSize)[i].players| == teamSize
  {
    var r := BalancedTeams(players, teamSize);
    BalancedConserves(players, teamSize);
    BalancedShape(players, teamSize);
    SelectUniform(players, false);
    assert InRange([], |players| / teamSize) == [];
    assert |Flatten(r)| == |multiset(Flatten(r))| == |multiset(players)| == |players|;
    DropRemainder(|players|, teamSize);
    assert |Flatten(r)| == teamSize * |r|;
    LevelFull(r, teamSize);
  }
}
