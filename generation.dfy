/** What the generate handler computes (server.js:146-183): the trimmed pool
    is split into teams by `balanceTeams` when the mode is "balanced" and by
    `randomTeams` otherwise; the excluded players are kept beside the teams. */
module Generation {
  import opened Records
  import opened Draws
  import opened Trimming
  import opened Balancer
  import opened RandomMode

  datatype Outcome = Outcome(teams: seq<Team>, removedPlayers: seq<Player>)

  /** The random choices a generation consumes: in random mode, one draw per
      excess player and a shuffle of the players that remain. */
  predicate ChoicesFit(n: nat, teamSize: nat, mode: BalanceMode, trimDraws: seq<nat>, order: seq<nat>)
    requires teamSize >= 1
  {
    mode == Random ==>
      TrimDrawsFit(trimDraws, n, teamSize)
      && |order| == n - n % teamSize && ValidPicks(order, n - n % teamSize)
  }

  /** After trimming no team can be missing for an unassigned player: with no
      team the trimmed pool is empty. */
  lemma KeptFits(registrations: seq<Player>, teamSize: nat, mode: BalanceMode, trimDraws: seq<nat>)
    requires teamSize >= 1
    requires mode == Random ==> TrimDrawsFit(trimDraws, |registrations|, teamSize)
    ensures |Trimmed(registrations, teamSize, mode, trimDraws).kept| == |registrations| - |registrations| % teamSize
    ensures |Trimmed(registrations, teamSize, mode, trimDraws).kept| / teamSize > 0
            || Trimmed(registrations, teamSize, mode, trimDraws).kept == []
  {
    var n := |registrations|;
    var kept := Trimmed(registrations, teamSize, mode, trimDraws).kept;
    DropRemainder(n, teamSize);
    assert |kept| == teamSize * (n / teamSize);
    if n / teamSize == 0 {
      assert kept == [];
    }
  }

  /** The teams and the excluded players the generate handler stores, given
      the random choices it makes. */
  function GenerateTeams(registrations: seq<Player>, teamSize: nat, mode: BalanceMode,
                         trimDraws: seq<nat>, order: seq<nat>): Outcome
    requires teamSize >= 1
    requires ChoicesFit(|registrations|, teamSize, mode, trimDraws, order)
  {
    var s := Trimmed(registrations, teamSize, mode, trimDraws);
    KeptFits(registrations, teamSize, mode, trimDraws);
    if mode == Balanced then Outcome(BalancedTeams(s.kept, teamSize), s.removed)
    else Outcome(ChunkedTeams(Shuffle(s.kept, order), teamSize), s.removed)
  }

  /** Every player in a generated team is one of the players trimming kept. */
  lemma TeamsFromKept(registrations: seq<Player>, teamSize: nat, mode: BalanceMode,
                      trimDraws: seq<nat>, order: seq<nat>, q: Player)
    requires teamSize >= 1
    requires ChoicesFit(|registrations|, teamSize, mode, trimDraws, order)
    requires q in Flatten(GenerateTeams(registrations, teamSize, mode, trimDraws, order).teams)
    ensures q in Trimmed(registrations, teamSize, mode, trimDraws).kept
  {
    var kept := Trimmed(registrations, teamSize, mode, trimDraws).kept;
    KeptFits(registrations, teamSize, mode, trimDraws);
    var teams := GenerateTeams(registrations, teamSize, mode, trimDraws, order).teams;
    assert q in multiset(Flatten(teams));
    if mode == Balanced {
      BalancedConserves(kept, teamSize);
      var m := |kept| / teamSize;
      SelectMembers(kept, true);
      SelectMembers(kept, false);
      InRangeMembers(Select(kept, true), m);
      assert q in multiset(InRange(Select(kept, true), m)) + multiset(Select(kept, false));
    } else {
      RandomConserves(kept, teamSize, order);
      assert q in multiset(kept);
    }
  }

  /** With distinct registrations, a player excluded by trimming is in no
      generated team. */
  lemma RemovedNotInTeams(registrations: seq<Player>, teamSize: nat, mode: BalanceMode,
                          trimDraws: seq<nat>, order: seq<nat>, x: Player, i: nat)
    requires teamSize >= 1
    requires ChoicesFit(|registrations|, teamSize, mode, trimDraws, order)
    requires Distinct(registrations)
    requires x in GenerateTeams(registrations, teamSize, mode, trimDraws, order).removedPlayers
    requires i < |GenerateTeams(registrations, teamSize, mode, trimDraws, order).teams|
    ensures x !in GenerateTeams(registrations, teamSize, mode, trimDraws, order).teams[i].players
  {
    var g := GenerateTeams(registrations, teamSize, mode, trimDraws, order);
    var s := Trimmed(registrations, teamSize, mode, trimDraws);
    TrimmedConserves(registrations, teamSize, mode, trimDraws);
    DistinctOccursOnce(registrations, x);
    assert x in multiset(s.removed);
    assert (multiset(s.kept) + multiset(s.removed))[x] <= 1;
    assert x !in multiset(s.kept);
    if x in g.teams[i].players {
      FlattenContains(g.teams, i, x);
      TeamsFromKept(registrations, teamSize, mode, trimDraws, order, x);
      assert false;
    }
  }

  /** When the team size divides the number of registrations nobody is
      excluded and there are `n / teamSize` teams of exactly `teamSize`
      players: always in random mode, and in balanced mode when no player is
      pre-assigned. */
  lemma DivisibleFillsTeams(registrations: seq<Player>, teamSize: nat, mode: BalanceMode,
                            trimDraws: seq<nat>, order: seq<nat>)
    requires teamSize >= 1
    requires ChoicesFit(|registrations|, teamSize, mode, trimDraws, order)
    requires |registrations| % teamSize == 0
    requires mode == Balanced ==> forall p :: p in registrations ==> !IsPreAssigned(p)
    ensures GenerateTeams(registrations, teamSize, mode, trimDraws, order).removedPlayers == []
    ensures |GenerateTeams(registrations, teamSize, mode, trimDraws, order).teams| == |registrations| / teamSize
    ensures forall i :: 0 <= i < |registrations| / teamSize ==>
      |GenerateTeams(registrations, teamSize, mode, trimDraws, order).teams[i].players| == teamSize
  {
    var s := Trimmed(registrations, teamSize, mode, trimDraws);
    assert s.kept == registrations;
    KeptFits(registrations, teamSize, mode, trimDraws);
    if mode == Balanced {
      BalancedShape(registrations, teamSize);
      if |registrations| / teamSize > 0 {
        EvenWithoutPreAssignment(registrations, teamSize);
      }
    } else {
      ChunkedShape(Shuffle(registrations, order), teamSize);
    }
  }
}
