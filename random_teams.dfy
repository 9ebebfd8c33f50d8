/** `randomTeams` (server.js:292-307): the players are shuffled and the
    shuffle is cut into `floor(n / teamSize)` consecutive teams of `teamSize`;
    players after the last full team are left out. The shuffle is given by a
    sequence of draws (see `Draws.Shuffle`). */
module RandomMode {
  import opened Records
  import opened Draws

  /** Team `i` fits inside the shuffled players. */
  lemma ChunkFits(n: nat, teamSize: nat, i: nat)
    requires teamSize >= 1 && i < n / teamSize
    ensures i * teamSize + teamSize == (i + 1) * teamSize <= n
  {
    DropRemainder(n, teamSize);
    MulMonotone(i + 1, n / teamSize, teamSize);
  }

  /** Team `i` of the loop at server.js:297-304: `shuffled.slice(i * teamSize,
      (i + 1) * teamSize)`, its rating total divided by `teamSize` and rounded. */
  function Chunk(shuffled: seq<Player>, teamSize: nat, i: nat): Team
    requires teamSize >= 1 && i < |shuffled| / teamSize
  {
    ChunkFits(|shuffled|, teamSize, i);
    var players := shuffled[i * teamSize .. (i + 1) * teamSize];
    Team(i + 1, players, Rounded(RoundedMean(SumMmr(players), teamSize)))
  }

  /** The teams cut from a shuffle. */
  function ChunkedTeams(shuffled: seq<Player>, teamSize: nat): seq<Team>
    requires teamSize >= 1
  {
    seq(|shuffled| / teamSize, i requires 0 <= i < |shuffled| / teamSize => Chunk(shuffled, teamSize, i))
  }

  /** `randomTeams(players, teamSize)`, with `order` standing for the outcome
      of the `Math.random()` comparator sort. */
  method RandomTeams(players: seq<Player>, teamSize: nat, order: seq<nat>) returns (teams: seq<Team>)
    requires teamSize >= 1
    requires |order| == |players| && ValidPicks(order, |players|)
    ensures teams == ChunkedTeams(Shuffle(players, order), teamSize)
  {
    var shuffled := Shuffle(players, order);
    teams := CutTeams(shuffled, teamSize);
  }

  /** The loop of `randomTeams`: one team per `teamSize` consecutive players. */
  method CutTeams(shuffled: seq<Player>, teamSize: nat) returns (teams: seq<Team>)
    requires teamSize >= 1
    ensures teams == ChunkedTeams(shuffled, teamSize)
  {
    teams := [];
    var numTeams := |shuffled| / teamSize;
    for i := 0 to numTeams
      invariant |teams| == i
      invariant forall j :: 0 <= j < i ==> teams[j] == Chunk(shuffled, teamSize, j)
    {
      ChunkFits(|shuffled|, teamSize, i);
      var lo := i * teamSize;
      var hi := lo + teamSize;
      var team := Team(i + 1, shuffled[lo..hi], NaN);
      team := team.(avgMMR := Rounded(RoundedMean(SumMmr(team.players), teamSize)));
      ChunkAt(shuffled, teamSize, i, team);
      teams := teams + [team];
    }
    ChunkedTeamsAt(shuffled, teamSize, teams);
  }

  lemma ChunkAt(shuffled: seq<Player>, teamSize: nat, i: nat, team: Team)
    requires teamSize >= 1 && i < |shuffled| / teamSize
    requires (i + 1) * teamSize <= |shuffled|
    requires team.teamNumber == i + 1
    requires team.players == shuffled[i * teamSize .. (i + 1) * teamSize]
    requires team.avgMMR == Rounded(RoundedMean(SumMmr(team.players), teamSize))
    ensures team == Chunk(shuffled, teamSize, i)
  {
  }

  lemma ChunkedTeamsAt(shuffled: seq<Player>, teamSize: nat, teams: seq<Team>)
    requires teamSize >= 1 && |teams| == |shuffled| / teamSize
    requires forall j :: 0 <= j < |teams| ==> teams[j] == Chunk(shuffled, teamSize, j)
    ensures teams == ChunkedTeams(shuffled, teamSize)
  {
  }

  /** `floor(n / teamSize)` teams numbered from 1; team `i` holds exactly the
      shuffled players at positions `i * teamSize` up to `(i + 1) * teamSize`,
      so `teamSize` of them, and its average, being divided by `teamSize`, is
      the rounded mean of its players. */
  lemma ChunkedShape(shuffled: seq<Player>, teamSize: nat)
    requires teamSize >= 1
    ensures |ChunkedTeams(shuffled, teamSize)| == |shuffled| / teamSize
    ensures forall i :: 0 <= i < |shuffled| / teamSize ==>
      (i + 1) * teamSize <= |shuffled|
      && ChunkedTeams(shuffled, teamSize)[i].teamNumber == i + 1
      && ChunkedTeams(shuffled, teamSize)[i].players == shuffled[i * teamSize .. (i + 1) * teamSize]
      && |ChunkedTeams(shuffled, teamSize)[i].players| == teamSize
      && ChunkedTeams(shuffled, teamSize)[i].avgMMR == MeanOf(ChunkedTeams(shuffled, teamSize)[i].players)
  {
    forall i | 0 <= i < |shuffled| / teamSize
      ensures (i + 1) * teamSize <= |shuffled|
      ensures |ChunkedTeams(shuffled, teamSize)[i].players| == teamSize
    {
      ChunkFits(|shuffled|, teamSize, i);
      assert (i + 1) * teamSize - i * teamSize == teamSize;
    }
  }

  lemma {:induction false} FlattenChunksPrefix(shuffled: seq<Player>, teamSize: nat, j: nat)
    requires teamSize >= 1 && j <= |shuffled| / teamSize
    ensures j * teamSize <= |shuffled|
    ensures Flatten(ChunkedTeams(shuffled, teamSize)[..j]) == shuffled[..j * teamSize]
  {
    if j > 0 {
      var teams := ChunkedTeams(shuffled, teamSize);
      FlattenChunksPrefix(shuffled, teamSize, j - 1);
      ChunkFits(|shuffled|, teamSize, j - 1);
      assert teams[..j][..j - 1] == teams[..j - 1];
      assert (j - 1) * teamSize + teamSize == j * teamSize;
      SliceConcat(shuffled, (j - 1) * teamSize, j * teamSize);
    }
  }

  /** Read team after team, the teams are the shuffle without its trailing
      `n % teamSize` players. */
  lemma FlattenChunks(shuffled: seq<Player>, teamSize: nat)
    requires teamSize >= 1
    ensures Flatten(ChunkedTeams(shuffled, teamSize))
      == shuffled[..|shuffled| - |shuffled| % teamSize]
  {
    var m := |shuffled| / teamSize;
    FlattenChunksPrefix(shuffled, teamSize, m);
    DropRemainder(|shuffled|, teamSize);
    assert ChunkedTeams(shuffled, teamSize)[..m] == ChunkedTeams(shuffled, teamSize);
    assert m * teamSize == teamSize * m;
  }

  /** The random teams hold `n - n % teamSize` of the given players, each at
      most as often as it was given; when the team size divides their number,
      they hold every player. */
  lemma RandomConserves(players: seq<Player>, teamSize: nat, order: seq<nat>)
    requires teamSize >= 1
    requires |order| == |players| && ValidPicks(order, |players|)
    ensures |Flatten(ChunkedTeams(Shuffle(players, order), teamSize))| == |players| - |players| % teamSize
    ensures multiset(Flatten(ChunkedTeams(Shuffle(players, order), teamSize))) <= multiset(players)
    ensures |players| % teamSize == 0 ==>
      multiset(Flatten(ChunkedTeams(Shuffle(players, order), teamSize))) == multiset(players)
  {
    var shuffled := Shuffle(players, order);
    DropRemainder(|players|, teamSize);
    var cut := |players| - |players| % teamSize;
    FlattenChunks(shuffled, teamSize);
    ShufflePermutes(players, order);
    MultisetSplit(shuffled, cut);
    if |players| % teamSize == 0 {
      assert shuffled[cut..] == [];
    }
  }
}
