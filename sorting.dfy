/** `[...unassignedPlayers].sort((a, b) => b.mmr - a.mmr)` (server.js:264):
    a stable sort, highest rating first. Players of equal rating keep the
    order they had, because `Array.prototype.sort` is stable and the
    comparator answers 0 for them. */
module Sorting {
  import opened Records

  /** Highest rating first. */
  predicate NonIncreasing(s: seq<Player>)
  {
    forall i, j :: 0 <= i < j < |s| ==> s[j].mmr <= s[i].mmr
  }

  /** Places `p` in front of the first player rated no higher than it, that
      is, behind every player rated strictly higher. */
  function InsertByMmr(p: Player, s: seq<Player>): (r: seq<Player>)
    ensures |r| == |s| + 1
  {
    if s == [] || p.mmr >= s[0].mmr then [p] + s
    else [s[0]] + InsertByMmr(p, s[1..])
  }

  /** Sorts the tail, then inserts the head in front of its equals, so that
      among equal ratings the earlier player stays first. */
  function SortByMmr(ps: seq<Player>): (r: seq<Player>)
    ensures |r| == |ps|
  {
    if ps == [] then [] else InsertByMmr(ps[0], SortByMmr(ps[1..]))
  }

  /** The players of rating `v`, in their order. */
  function Rated(s: seq<Player>, v: nat): seq<Player>
  {
    if s == [] then []
    else (if s[0].mmr == v then [s[0]] else []) + Rated(s[1..], v)
  }

  lemma {:induction false} InsertKeepsOrder(p: Player, s: seq<Player>)
    requires NonIncreasing(s)
    ensures NonIncreasing(InsertByMmr(p, s))
    ensures multiset(InsertByMmr(p, s)) == multiset(s) + multiset{p}
  {
    InsertMultiset(p, s);
    if s != [] && p.mmr < s[0].mmr {
      NonIncreasingTail(s);
      InsertKeepsOrder(p, s[1..]);
      InsertBounded(p, s[1..], s[0].mmr);
      NonIncreasingCons(s[0], InsertByMmr(p, s[1..]));
    }
  }

  /** The tail of a sorted sequence is sorted and rated no higher than its head. */
  lemma NonIncreasingTail(s: seq<Player>)
    requires s != [] && NonIncreasing(s)
    ensures NonIncreasing(s[1..])
    ensures forall i :: 0 <= i < |s[1..]| ==> s[1..][i].mmr <= s[0].mmr
  {
    forall i, j | 0 <= i < j < |s[1..]| ensures s[1..][j].mmr <= s[1..][i].mmr {
      assert s[1..][i] == s[i + 1] && s[1..][j] == s[j + 1];
    }
    forall i | 0 <= i < |s[1..]| ensures s[1..][i].mmr <= s[0].mmr {
      assert s[1..][i] == s[i + 1];
    }
  }

  /** A head rated at least as high as a sorted tail gives a sorted sequence. */
  lemma NonIncreasingCons(x: Player, t: seq<Player>)
    requires NonIncreasing(t) && forall k :: 0 <= k < |t| ==> t[k].mmr <= x.mmr
    ensures NonIncreasing([x] + t)
  {
    var r := [x] + t;
    forall i, j | 0 <= i < j < |r| ensures r[j].mmr <= r[i].mmr {
      assert r[j] == t[j - 1];
      if i > 0 {
        assert r[i] == t[i - 1];
      }
    }
  }

  lemma {:induction false} InsertMultiset(p: Player, s: seq<Player>)
    ensures multiset(InsertByMmr(p, s)) == multiset(s) + multiset{p}
  {
    if s != [] && p.mmr < s[0].mmr {
      InsertMultiset(p, s[1..]);
      assert s == [s[0]] + s[1..];
    }
  }

  /** Inserting a player rated at most `b` among players rated at most `b`
      gives players rated at most `b`. */
  lemma {:induction false} InsertBounded(p: Player, s: seq<Player>, b: nat)
    requires p.mmr <= b && forall i :: 0 <= i < |s| ==> s[i].mmr <= b
    ensures forall k :: 0 <= k < |InsertByMmr(p, s)| ==> InsertByMmr(p, s)[k].mmr <= b
  {
    if s != [] && p.mmr < s[0].mmr {
      InsertBounded(p, s[1..], b);
      var t := InsertByMmr(p, s[1..]);
      assert forall k :: 1 <= k < |t| + 1 ==> ([s[0]] + t)[k] == t[k - 1];
    }
  }

  /** The sort yields a rearrangement of its input, highest rating first. */
  lemma {:induction false} SortByMmrSorts(ps: seq<Player>)
    ensures NonIncreasing(SortByMmr(ps))
    ensures multiset(SortByMmr(ps)) == multiset(ps)
  {
    if ps != [] {
      SortByMmrSorts(ps[1..]);
      InsertKeepsOrder(ps[0], SortByMmr(ps[1..]));
      assert ps == [ps[0]] + ps[1..];
    }
  }

  lemma {:induction false} InsertRated(p: Player, s: seq<Player>, v: nat)
    ensures Rated(InsertByMmr(p, s), v) == (if p.mmr == v then [p] else []) + Rated(s, v)
  {
    if s == [] || p.mmr >= s[0].mmr {
      assert ([p] + s)[1..] == s;
    } else {
      InsertRated(p, s[1..], v);
      assert ([s[0]] + InsertByMmr(p, s[1..]))[1..] == InsertByMmr(p, s[1..]);
    }
  }

  /** Stability: the players of any one rating appear in the sorted sequence in
      exactly the order they had. */
  lemma {:induction false} SortByMmrIsStable(ps: seq<Player>, v: nat)
    ensures Rated(SortByMmr(ps), v) == Rated(ps, v)
  {
    if ps != [] {
      SortByMmrIsStable(ps[1..], v);
      InsertRated(ps[0], SortByMmr(ps[1..]), v);
    }
  }
}
