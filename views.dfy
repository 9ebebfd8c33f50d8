/** What the read-only handlers return: the list of public tournaments open
    for registration (server.js:44-59), the lookup of a tournament by its code
    (server.js:61-70) and the record returned when the request's query string
    does not carry `isCreator=true` (server.js:309-339). The tournaments are taken in the store's insertion
    order. */
module Views {
  import opened Records
  import opened Ledger

  /** An entry of the public list. */
  datatype Listing = Listing(
    id: string,
    code: string,
    name: string,
    maxPlayers: int,
    teamSize: int,
    currentPlayers: nat,
    region: string,
    balanceMode: BalanceMode)

  /** The filter of server.js:46. */
  predicate Listed(t: Tournament)
    reads t
  {
    t.isPublic && t.status == Open
  }

  /** The map of server.js:47-56. */
  function ListingOf(t: Tournament): Listing
    reads t
  {
    Listing(t.id, t.code, t.name, t.maxPlayers, t.teamSize, |t.registrations|, t.region, t.balanceMode)
  }

  function PublicTournaments(ts: seq<Tournament>): seq<Listing>
    reads ts
  {
    if ts == [] then []
    else (if Listed(ts[0]) then [ListingOf(ts[0])] else []) + PublicTournaments(ts[1..])
  }

  /** The list holds exactly the listings of the public open tournaments, and
      no more entries than there are tournaments. */
  lemma {:induction false} PublicTournamentsMembers(ts: seq<Tournament>)
    ensures |PublicTournaments(ts)| <= |ts|
    ensures forall l :: l in PublicTournaments(ts) <==>
      exists i :: 0 <= i < |ts| && Listed(ts[i]) && l == ListingOf(ts[i])
  {
    if ts != [] {
      PublicTournamentsMembers(ts[1..]);
      forall l | l in PublicTournaments(ts)
        ensures exists i :: 0 <= i < |ts| && Listed(ts[i]) && l == ListingOf(ts[i])
      {
        if l !in PublicTournaments(ts[1..]) {
          assert Listed(ts[0]) && l == ListingOf(ts[0]);
        } else {
          var i :| 0 <= i < |ts[1..]| && Listed(ts[1..][i]) && l == ListingOf(ts[1..][i]);
          assert ts[1..][i] == ts[i + 1];
        }
      }
      forall l | exists i :: 0 <= i < |ts| && Listed(ts[i]) && l == ListingOf(ts[i])
        ensures l in PublicTournaments(ts)
      {
        var i :| 0 <= i < |ts| && Listed(ts[i]) && l == ListingOf(ts[i]);
        if i > 0 {
          assert ts[1..][i - 1] == ts[i];
        }
      }
    }
  }

  lemma {:induction false} PublicTournamentsAll(ts: seq<Tournament>)
    requires forall i :: 0 <= i < |ts| ==> Listed(ts[i])
    ensures PublicTournaments(ts) == seq(|ts|, i reads ts requires 0 <= i < |ts| => ListingOf(ts[i]))
  {
    if ts != [] {
      assert forall i :: 0 <= i < |ts[1..]| ==> ts[1..][i] == ts[i + 1];
      PublicTournamentsAll(ts[1..]);
      var all := seq(|ts|, i reads ts requires 0 <= i < |ts| => ListingOf(ts[i]));
      var rest := seq(|ts[1..]|, i reads ts[1..] requires 0 <= i < |ts[1..]| => ListingOf(ts[1..][i]));
      assert all == [ListingOf(ts[0])] + rest;
    }
  }

  /** A single tournament is listed, as its listing, exactly when it is
      public and open. */
  lemma PublicTournamentsOne(t: Tournament)
    ensures Listed(t) ==> PublicTournaments([t]) == [ListingOf(t)]
    ensures !Listed(t) ==> PublicTournaments([t]) == []
  {
    assert [t][1..] == [];
  }

  /** `filter` and `map` work tournament by tournament: the list of two
      stores one after the other is the first list followed by the second,
      so the listings keep store order and each listed tournament gives one
      entry. */
  lemma {:induction false} PublicTournamentsAppend(a: seq<Tournament>, b: seq<Tournament>)
    ensures PublicTournaments(a + b) == PublicTournaments(a) + PublicTournaments(b)
  {
    if a == [] {
      assert a + b == b;
    } else {
      assert (a + b)[0] == a[0];
      assert (a + b)[1..] == a[1..] + b;
      PublicTournamentsAppend(a[1..], b);
      ConcatAssoc(if Listed(a[0]) then [ListingOf(a[0])] else [], PublicTournaments(a[1..]), PublicTournaments(b));
    }
  }

  /** `Array.from(tournaments.values()).find(t => t.code === code.toUpperCase())`,
      answered with the tournament's id; `None` is the 404. */
  function FindByCode(ts: seq<Tournament>, code: string): (r: Option<string>)
    reads ts
    ensures r.None? <==> forall i :: 0 <= i < |ts| ==> ts[i].code != Upper(code)
    ensures r.Some? ==>
      exists i :: 0 <= i < |ts| && ts[i].code == Upper(code) && r.value == ts[i].id
                  && forall j :: 0 <= j < i ==> ts[j].code != Upper(code)
  {
    if ts == [] then None
    else if ts[0].code == Upper(code) then Some(ts[0].id)
    else
      var r := FindByCode(ts[1..], code);
      assert forall i :: 1 <= i < |ts| ==> ts[i] == ts[1..][i - 1];
      r
  }

  // ---------------------------------------------------------------------
  // The record returned without `isCreator=true`

  /** A registration without its rating: server.js:321-325. */
  datatype Entry = Entry(displayName: string, epicId: string, timestamp: int)

  /** A team member without its rating: server.js:330-333. */
  datatype Member = Member(displayName: string, epicId: string)

  /** A team with its members redacted; number and average stay. */
  datatype PublicTeam = PublicTeam(teamNumber: nat, players: seq<Member>, avgMMR: Average)

  /** The copy `{ ...tournament }` with its lists replaced; `R` is the type its
      excluded players are shown as. */
  datatype View<R> = View(
    id: string,
    code: string,
    name: string,
    maxPlayers: int,
    teamSize: int,
    region: string,
    isPublic: bool,
    balanceMode: BalanceMode,
    registrations: seq<Entry>,
    teams: seq<PublicTeam>,
    status: Status,
    createdAt: int,
    removedPlayers: seq<R>)

  function EntryOf(p: Player): Entry
  {
    Entry(p.displayName, p.epicId, p.timestamp)
  }

  function Entries(ps: seq<Player>): seq<Entry>
  {
    seq(|ps|, i requires 0 <= i < |ps| => EntryOf(ps[i]))
  }

  function MemberOf(p: Player): Member
  {
    Member(p.displayName, p.epicId)
  }

  function PublicTeams(teams: seq<Team>): seq<PublicTeam>
  {
    seq(|teams|, i requires 0 <= i < |teams| =>
      PublicTeam(teams[i].teamNumber,
                 seq(|teams[i].players|, j requires 0 <= j < |teams[i].players| => MemberOf(teams[i].players[j])),
                 teams[i].avgMMR))
  }

  /** The view without `isCreator=true` as server.js:319-335 builds it: registrations and
      team members are redacted, but `removedPlayers` is copied with the
      rest of the record and keeps the excluded players' ratings. */
  function PublicView(t: Tournament): View<Player>
    reads t
  {
    View(t.id, t.code, t.name, t.maxPlayers, t.teamSize, t.region, t.isPublic, t.balanceMode,
         Entries(t.registrations), PublicTeams(t.teams), t.status, t.createdAt, t.removedPlayers)
  }

  /** That view with the excluded players redacted like the
      registrations they came from. */
  function RedactedView(t: Tournament): View<Entry>
    reads t
  {
    View(t.id, t.code, t.name, t.maxPlayers, t.teamSize, t.region, t.isPublic, t.balanceMode,
         Entries(t.registrations), PublicTeams(t.teams), t.status, t.createdAt, Entries(t.removedPlayers))
  }

  /** Two player lists that differ at most in ratings and pre-assignments. */
  predicate SameButRatings(a: seq<Player>, b: seq<Player>)
  {
    |a| == |b| && forall i :: 0 <= i < |a| ==> EntryOf(a[i]) == EntryOf(b[i])
  }

  /** Two team lists that differ at most in their members' ratings and in
      the team averages. */
  predicate SameTeamsButRatings(a: seq<Team>, b: seq<Team>)
  {
    |a| == |b|
    && forall i :: 0 <= i < |a| ==>
      a[i].teamNumber == b[i].teamNumber
      && |a[i].players| == |b[i].players|
      && forall j :: 0 <= j < |a[i].players| ==> MemberOf(a[i].players[j]) == MemberOf(b[i].players[j])
  }

  /** Two team lists with the same averages, team by team. */
  predicate SameAverages(a: seq<Team>, b: seq<Team>)
  {
    |a| == |b| && forall i :: 0 <= i < |a| ==> a[i].avgMMR == b[i].avgMMR
  }

  /** Two tournaments whose records agree except in the players' ratings and
      pre-assignments and in the team averages. */
  predicate SameButRatingsRecord(t: Tournament, u: Tournament)
    reads t, u
  {
    t.id == u.id && t.code == u.code && t.name == u.name && t.maxPlayers == u.maxPlayers
    && t.teamSize == u.teamSize && t.region == u.region && t.isPublic == u.isPublic
    && t.balanceMode == u.balanceMode && t.status == u.status && t.createdAt == u.createdAt
    && SameButRatings(t.registrations, u.registrations)
    && SameTeamsButRatings(t.teams, u.teams)
  }

  lemma EntriesIgnoreRatings(a: seq<Player>, b: seq<Player>)
    requires SameButRatings(a, b)
    ensures Entries(a) == Entries(b)
  {
    assert forall i :: 0 <= i < |a| ==> Entries(a)[i] == Entries(b)[i];
  }

  lemma PublicTeamsIgnoreRatings(a: seq<Team>, b: seq<Team>)
    requires SameTeamsButRatings(a, b) && SameAverages(a, b)
    ensures PublicTeams(a) == PublicTeams(b)
  {
    forall i | 0 <= i < |a| ensures PublicTeams(a)[i] == PublicTeams(b)[i] {
      assert PublicTeams(a)[i].players == PublicTeams(b)[i].players;
    }
  }

  /** As written, the view hides the ratings of registered and team players
      as far as the team averages it keeps allow: tournaments that differ only
      there, with the same averages and excluded players, look the same. */
  lemma PublicViewHidesRegisteredRatings(t: Tournament, u: Tournament)
    requires SameButRatingsRecord(t, u) && SameAverages(t.teams, u.teams)
    requires t.removedPlayers == u.removedPlayers
    ensures PublicView(t) == PublicView(u)
  {
    EntriesIgnoreRatings(t.registrations, u.registrations);
    PublicTeamsIgnoreRatings(t.teams, u.teams);
  }

  /** As written, the view shows every excluded player's rating: two
      tournaments that differ only in those ratings look different. */
  lemma PublicViewShowsRemovedRatings(t: Tournament, u: Tournament, k: nat)
    requires SameButRatingsRecord(t, u) && SameButRatings(t.removedPlayers, u.removedPlayers)
    requires k < |t.removedPlayers| && t.removedPlayers[k].mmr != u.removedPlayers[k].mmr
    ensures PublicView(t) != PublicView(u)
    ensures PublicView(t).removedPlayers[k].mmr == t.removedPlayers[k].mmr
  {
    assert PublicView(t).removedPlayers[k] != PublicView(u).removedPlayers[k];
  }

  /** With the excluded players redacted, no rating reaches the view except
      through the team averages: tournaments that differ only in ratings and
      pre-assignments, with the same team averages, look the same. */
  lemma RedactedViewHidesRatings(t: Tournament, u: Tournament)
    requires SameButRatingsRecord(t, u) && SameAverages(t.teams, u.teams)
    requires SameButRatings(t.removedPlayers, u.removedPlayers)
    ensures RedactedView(t) == RedactedView(u)
  {
    EntriesIgnoreRatings(t.registrations, u.registrations);
    PublicTeamsIgnoreRatings(t.teams, u.teams);
    EntriesIgnoreRatings(t.removedPlayers, u.removedPlayers);
  }

  /** The team averages the view keeps from `{ ...t }` are computed from the
      members' ratings, so a team of one shows its member's rating, in the
      view as written and in the redacted one alike: two tournaments that
      differ only in that rating look different. */
  lemma ViewsShowSoloRatings(t: Tournament, u: Tournament, i: nat)
    requires SameButRatingsRecord(t, u) && SameButRatings(t.removedPlayers, u.removedPlayers)
    requires i < |t.teams| && |t.teams[i].players| == 1
    requires t.teams[i].avgMMR == MeanOf(t.teams[i].players)
    requires u.teams[i].avgMMR == MeanOf(u.teams[i].players)
    requires t.teams[i].players[0].mmr != u.teams[i].players[0].mmr
    ensures RedactedView(t).teams[i].avgMMR == Rounded(t.teams[i].players[0].mmr)
    ensures PublicView(t).teams[i].avgMMR == Rounded(t.teams[i].players[0].mmr)
    ensures RedactedView(t) != RedactedView(u) && PublicView(t) != PublicView(u)
  {
    SoloMean(t.teams[i].players);
    SoloMean(u.teams[i].players);
    assert RedactedView(t).teams[i] != RedactedView(u).teams[i];
    assert PublicView(t).teams[i] != PublicView(u).teams[i];
  }

  /** The average of one player is that player's rating. */
  lemma SoloMean(ps: seq<Player>)
    requires |ps| == 1
    ensures MeanOf(ps) == Rounded(ps[0].mmr)
  {
    assert ps == [] + [ps[0]];
    SumMmrAppend([], ps[0]);
  }
}
