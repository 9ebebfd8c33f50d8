/** The tournament record and the handlers that change it: create
    (server.js:21-42), register (server.js:72-112), generate (server.js:146-183),
    remove a player (server.js:186-208), assign a player to a team
    (server.js:211-240) and overwrite the teams (server.js:341-354). Each
    handler runs to completion before the next starts. */
module Ledger {
  import opened Records
  import opened Draws
  import opened Trimming
  import opened Balancer
  import opened RandomMode
  import opened Generation

  /** The refusals of the handlers, in the order the handlers test them. */
  datatype Error =
    | RegistrationsClosed  // status is not 'open' (400)
    | TournamentFull       // registrations.length >= maxPlayers (400)
    | AlreadyRegistered    // an equal Epic id is registered (400)
    | AccountNotFound      // the rating service does not know the account (404)
    | LookupFailed         // the rating service failed otherwise (500)
    | PlayerNotFound       // no registration with that Epic id (404)

  datatype Reply =
    | Registered(mmr: nat)
    | Removed(player: Player)
    | Assigned(player: Player)
    | Refused(error: Error)

  /** The answer of `verifyPlayer(epicId)`: the account exists with a rating,
      the service answered 404, or the call threw. */
  datatype Lookup = Found(mmr: nat) | NotFound | Failed

  /** The duplicate test of server.js:90: some registration has the same Epic
      id, compared first exactly and then after `toLowerCase`. */
  predicate IsRegistered(registrations: seq<Player>, epicId: string)
  {
    exists i :: 0 <= i < |registrations|
      && (registrations[i].epicId == epicId || SameId(registrations[i].epicId, epicId))
  }

  /** The exact comparison adds nothing: the test is case-insensitive equality. */
  lemma IsRegisteredIgnoresCase(registrations: seq<Player>, epicId: string, other: string)
    requires SameId(epicId, other)
    ensures IsRegistered(registrations, epicId)
      <==> exists i :: 0 <= i < |registrations| && SameId(registrations[i].epicId, other)
  {
  }

  /** "Foo" counts as registered when "foo" is. */
  lemma DuplicateExample(p: Player)
    requires p.epicId == "foo"
    ensures IsRegistered([p], "Foo")
  {
    assert Lower("Foo") == "foo" by {
      assert LowerChar('F') == 'f';
    }
    assert Lower("foo") == "foo";
    assert [p][0].epicId == "foo";
  }

  /** `registrations.findIndex(p => p.epicId.toLowerCase() === epicId.toLowerCase())`,
      and the registration `find` selects: the first case-insensitive match. */
  function FindIndex(registrations: seq<Player>, epicId: string): (r: Option<nat>)
    ensures r.Some? ==> r.value < |registrations| && SameId(registrations[r.value].epicId, epicId)
    ensures r.Some? ==> forall j :: 0 <= j < r.value ==> !SameId(registrations[j].epicId, epicId)
    ensures r.None? <==> forall j :: 0 <= j < |registrations| ==> !SameId(registrations[j].epicId, epicId)
  {
    if registrations == [] then None
    else if SameId(registrations[0].epicId, epicId) then Some(0)
    else
      var r := FindIndex(registrations[1..], epicId);
      assert forall j :: 1 <= j < |registrations| ==> registrations[j] == registrations[1..][j - 1];
      if r.None? then None else Some(r.value + 1)
  }

  /** No two registrations share a case-folded Epic id. */
  predicate DistinctIds(registrations: seq<Player>)
  {
    forall i, j :: 0 <= i < j < |registrations| ==>
      !SameId(registrations[i].epicId, registrations[j].epicId)
  }

  /** Registrations with distinct ids are distinct. */
  lemma DistinctIdsDistinct(registrations: seq<Player>)
    requires DistinctIds(registrations)
    ensures Distinct(registrations)
  {
    forall i, j | 0 <= i < |registrations| && 0 <= j < |registrations| && i != j
      ensures registrations[i] != registrations[j]
    {
      if i < j {
        assert !SameId(registrations[i].epicId, registrations[j].epicId);
      } else {
        assert !SameId(registrations[j].epicId, registrations[i].epicId);
      }
    }
  }

  lemma DistinctIdsAppend(registrations: seq<Player>, p: Player)
    requires DistinctIds(registrations) && !IsRegistered(registrations, p.epicId)
    ensures DistinctIds(registrations + [p])
  {
    var s := registrations + [p];
    forall i, j | 0 <= i < j < |s| ensures !SameId(s[i].epicId, s[j].epicId) {
      if j == |registrations| {
        assert s[i] == registrations[i];
        assert !(registrations[i].epicId == p.epicId || SameId(registrations[i].epicId, p.epicId));
      } else {
        assert s[i] == registrations[i] && s[j] == registrations[j];
      }
    }
  }

  lemma DistinctIdsRemoveAt(registrations: seq<Player>, k: nat)
    requires DistinctIds(registrations) && k < |registrations|
    ensures DistinctIds(RemoveAt(registrations, k))
  {
    var s := RemoveAt(registrations, k);
    forall i, j | 0 <= i < j < |s| ensures !SameId(s[i].epicId, s[j].epicId) {
      RemoveAtIndex(registrations, k, i);
      RemoveAtIndex(registrations, k, j);
      var i' := if i < k then i else i + 1;
      var j' := if j < k then j else j + 1;
      assert s[i] == registrations[i'] && s[j] == registrations[j'] && i' < j';
    }
  }

  /** The capacity `maxPlayers` stands for; none when it is not positive. */
  function Capacity(maxPlayers: int): nat
  {
    if maxPlayers < 0 then 0 else maxPlayers
  }

  class Tournament {
    const id: string
    const code: string
    const name: string
    const maxPlayers: int
    const teamSize: int
    const region: string
    const isPublic: bool
    const balanceMode: BalanceMode
    const createdAt: int
    var registrations: seq<Player>
    var teams: seq<Team>
    var status: Status
    var removedPlayers: seq<Player>

    /** What the handlers keep true: the tournament is never over capacity, no
        Epic id is registered twice, and nothing has been generated while
        registrations are open. */
    predicate Valid()
      reads this
    {
      |registrations| <= Capacity(maxPlayers)
      && DistinctIds(registrations)
      && (status == Open ==> teams == [] && removedPlayers == [])
    }

    /** The record the create handler stores; `id`, `code` and `createdAt` come
        from the clock and the code generator. */
    constructor Create(id: string, code: string, name: string, maxPlayers: int, teamSize: int,
                       region: string, isPublic: bool, balanceMode: BalanceMode, createdAt: int)
      ensures this.id == id && this.code == code && this.name == name
      ensures this.maxPlayers == maxPlayers && this.teamSize == teamSize
      ensures this.region == region && this.isPublic == isPublic
      ensures this.balanceMode == balanceMode && this.createdAt == createdAt
      ensures registrations == [] && teams == [] && status == Open && removedPlayers == []
      ensures Valid()
    {
      this.id := id;
      this.code := code;
      this.name := name;
      this.maxPlayers := maxPlayers;
      this.teamSize := teamSize;
      this.region := region;
      this.isPublic := isPublic;
      this.balanceMode := balanceMode;
      this.createdAt := createdAt;
      registrations := [];
      teams := [];
      status := Open;
      removedPlayers := [];
    }

    /** The three guards of the register handler before the rating lookup. */
    predicate Admits(epicId: string)
      reads this
    {
      status == Open && |registrations| < maxPlayers && !IsRegistered(registrations, epicId)
    }

    /** Registers an account: refused when registrations are closed, then when
        the tournament is full, then when the id is taken, then when the
        lookup finds no account or fails; otherwise exactly one entry, without
        pre-assignment, is appended. */
    method Register(displayName: string, epicId: string, lookup: Lookup, timestamp: int)
      returns (reply: Reply)
      requires Valid()
      modifies this`registrations
      ensures Valid()
      ensures status != Open ==> reply == Refused(RegistrationsClosed)
      ensures status == Open && |old(registrations)| >= maxPlayers ==> reply == Refused(TournamentFull)
      ensures status == Open && |old(registrations)| < maxPlayers && IsRegistered(old(registrations), epicId)
        ==> reply == Refused(AlreadyRegistered)
      ensures old(Admits(epicId)) && lookup == NotFound ==> reply == Refused(AccountNotFound)
      ensures old(Admits(epicId)) && lookup == Failed ==> reply == Refused(LookupFailed)
      ensures old(Admits(epicId)) && lookup.Found? ==>
        reply == Registered(lookup.mmr)
        && registrations == old(registrations) + [Player(displayName, epicId, lookup.mmr, timestamp, Absent)]
      ensures !reply.Registered? ==> registrations == old(registrations)
    {
      if status != Open {
        return Refused(RegistrationsClosed);
      }
      if |registrations| >= maxPlayers {
        return Refused(TournamentFull);
      }
      if IsRegistered(registrations, epicId) {
        return Refused(AlreadyRegistered);
      }
      match lookup {
        case NotFound =>
          reply := Refused(AccountNotFound);
        case Failed =>
          reply := Refused(LookupFailed);
        case Found(mmr) =>
          var entry := Player(displayName, epicId, mmr, timestamp, Absent);
          DistinctIdsAppend(registrations, entry);
          registrations := registrations + [entry];
          reply := Registered(mmr);
      }
    }

    /** Removes the first registration whose id matches case-insensitively,
        keeping the others in order; refused while registrations are closed
        or when no registration matches. */
    method RemovePlayer(epicId: string) returns (reply: Reply)
      requires Valid()
      modifies this`registrations
      ensures Valid()
      ensures status != Open ==> reply == Refused(RegistrationsClosed)
      ensures status == Open && FindIndex(old(registrations), epicId).None? ==> reply == Refused(PlayerNotFound)
      ensures status == Open && FindIndex(old(registrations), epicId).Some? ==>
        var i := FindIndex(old(registrations), epicId).value;
        reply == Removed(old(registrations)[i]) && registrations == RemoveAt(old(registrations), i)
      ensures !reply.Removed? ==> registrations == old(registrations)
    {
      if status != Open {
        return Refused(RegistrationsClosed);
      }
      var playerIndex := FindIndex(registrations, epicId);
      if playerIndex.None? {
        return Refused(PlayerNotFound);
      }
      var i := playerIndex.value;
      var removedPlayer := registrations[i];
      DistinctIdsRemoveAt(registrations, i);
      registrations := RemoveAt(registrations, i);
      reply := Removed(removedPlayer);
    }

    /** Sets the pre-assignment of the first matching registration to `slot`
        (`Absent` for a null or missing team number, which deletes the
        property) and changes nothing else; refused as removal is. */
    method AssignPlayer(epicId: string, slot: Slot) returns (reply: Reply)
      requires Valid()
      modifies this`registrations
      ensures Valid()
      ensures status != Open ==> reply == Refused(RegistrationsClosed)
      ensures status == Open && FindIndex(old(registrations), epicId).None? ==> reply == Refused(PlayerNotFound)
      ensures status == Open && FindIndex(old(registrations), epicId).Some? ==>
        var i := FindIndex(old(registrations), epicId).value;
        registrations == old(registrations)[i := old(registrations)[i].(preAssignedTeam := slot)]
        && reply == Assigned(registrations[i])
      ensures !reply.Assigned? ==> registrations == old(registrations)
    {
      if status != Open {
        return Refused(RegistrationsClosed);
      }
      var found := FindIndex(registrations, epicId);
      if found.None? {
        return Refused(PlayerNotFound);
      }
      var i := found.value;
      var player := registrations[i].(preAssignedTeam := slot);
      registrations := registrations[i := player];
      assert forall j :: 0 <= j < |registrations| ==> registrations[j].epicId == old(registrations)[j].epicId;
      reply := Assigned(player);
    }

    /** The generate handler: trims the registrations, builds the teams by the
        tournament's mode, stores both and closes registrations. No excluded
        player is in a team. */
    method Generate(trimDraws: seq<nat>, order: seq<nat>)
      requires Valid() && teamSize >= 1
      requires ChoicesFit(|registrations|, teamSize, balanceMode, trimDraws, order)
      modifies this`teams, this`status, this`removedPlayers
      ensures Outcome(teams, removedPlayers)
        == GenerateTeams(registrations, teamSize, balanceMode, trimDraws, order)
      ensures status == Generated && Valid()
      ensures forall x, i :: x in removedPlayers && 0 <= i < |teams| ==> x !in teams[i].players
    {
      var players, removed := Trim(registrations, teamSize, balanceMode, trimDraws);
      var newTeams: seq<Team>;
      KeptFits(registrations, teamSize, balanceMode, trimDraws);
      if balanceMode == Balanced {
        newTeams := BalanceTeams(players, teamSize);
      } else {
        newTeams := RandomTeams(players, teamSize, order);
      }
      teams := newTeams;
      status := Generated;
      removedPlayers := removed;
      DistinctIdsDistinct(registrations);
      forall x, i | x in removedPlayers && 0 <= i < |teams| ensures x !in teams[i].players {
        RemovedNotInTeams(registrations, teamSize, balanceMode, trimDraws, order, x, i);
      }
    }

    /** The update-teams handler: the teams given replace the stored ones and
        the tournament counts as generated. */
    method UpdateTeams(newTeams: seq<Team>)
      requires Valid()
      modifies this`teams, this`status
      ensures teams == newTeams && status == Generated && Valid()
    {
      teams := newTeams;
      status := Generated;
    }
  }
}
