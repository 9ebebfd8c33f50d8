/** Values shared by the registration ledger and the team balancer: player
    registrations, teams, the rounding of averages, the case folding of Epic ids
    and the `splice(i, 1)` of an array. */
module Records {

  datatype Option<T> = None | Some(value: T)

  /** The `preAssignedTeam` property of a registration: absent (never set, or
      removed with `delete`), the integer `parseInt` produced, or NaN when
      `parseInt` could not read a number. */
  datatype Slot = Absent | Number(n: int) | NotANumber

  datatype Player = Player(
    displayName: string,
    epicId: string,
    mmr: nat,
    timestamp: int,
    preAssignedTeam: Slot)

  /** A team's `avgMMR`: a rounded mean, or NaN for a team without players
      (the division by zero of `balanceTeams`). */
  datatype Average = Rounded(value: nat) | NaN

  datatype Team = Team(teamNumber: nat, players: seq<Player>, avgMMR: Average)

  datatype Status = Open | Generated

  /** `balanceMode`: the string "balanced" selects the balanced policy; every
      other value behaves as the random one. */
  datatype BalanceMode = Balanced | Random

  /** `players.reduce((sum, p) => sum + p.mmr, 0)`, folded from the left. */
  function SumMmr(ps: seq<Player>): nat
  {
    if ps == [] then 0 else SumMmr(ps[..|ps| - 1]) + ps[|ps| - 1].mmr
  }

  lemma SumMmrAppend(ps: seq<Player>, p: Player)
    ensures SumMmr(ps + [p]) == SumMmr(ps) + p.mmr
  {
    assert (ps + [p])[..|ps|] == ps;
  }

  /** `Math.round(sum / count)` for non-negative integers: half a unit added,
      then the floor, computed on doubled values so that no fraction is needed. */
  function RoundedMean(sum: nat, count: nat): nat
    requires count > 0
  {
    (2 * sum + count) / (2 * count)
  }

  /** `RoundedMean` is the nearest integer to `sum / count`, halves rounded
      up: `r - 1/2 <= sum / count < r + 1/2`. */
  lemma RoundedMeanIsNearest(sum: nat, count: nat)
    requires count > 0
    ensures var r := RoundedMean(sum, count);
      2 * count * r <= 2 * sum + count < 2 * count * (r + 1)
  {
    var d := 2 * count;
    var q := (2 * sum + count) / d;
    assert d * q + (2 * sum + count) % d == 2 * sum + count;
    assert 2 * count * q == d * q;
    assert 2 * count * (q + 1) == d * q + d;
  }

  /** The `avgMMR` that `balanceTeams` assigns: the rounded mean of the
      members' ratings, NaN when there are none. */
  function MeanOf(ps: seq<Player>): (a: Average)
    ensures a.NaN? <==> ps == []
  {
    if ps == [] then NaN else Rounded(RoundedMean(SumMmr(ps), |ps|))
  }

  /** A team's average is within half a unit of its members' mean rating. */
  lemma MeanOfIsNearest(ps: seq<Player>)
    requires ps != []
    ensures MeanOf(ps).Rounded?
    ensures 2 * |ps| * MeanOf(ps).value <= 2 * SumMmr(ps) + |ps| < 2 * |ps| * (MeanOf(ps).value + 1)
  {
    RoundedMeanIsNearest(SumMmr(ps), |ps|);
  }

  /** `toLowerCase` and `toUpperCase` on ASCII letters. */
  function LowerChar(c: char): char
  {
    if 'A' <= c <= 'Z' then (c as int - 'A' as int + 'a' as int) as char else c
  }

  function UpperChar(c: char): char
  {
    if 'a' <= c <= 'z' then (c as int - 'a' as int + 'A' as int) as char else c
  }

  function Lower(s: string): string
  {
    seq(|s|, i requires 0 <= i < |s| => LowerChar(s[i]))
  }

  function Upper(s: string): string
  {
    seq(|s|, i requires 0 <= i < |s| => UpperChar(s[i]))
  }

  /** Two Epic ids denote the same account when they agree after `toLowerCase`. */
  predicate SameId(a: string, b: string)
  {
    Lower(a) == Lower(b)
  }

  /** `array.splice(i, 1)`: the sequence without its element at `i`. */
  function RemoveAt<T>(s: seq<T>, i: nat): (r: seq<T>)
    requires i < |s|
    ensures |r| == |s| - 1
  {
    s[..i] + s[i + 1..]
  }

  /** `splice(i, 1)` removes exactly the element at `i`. */
  lemma RemoveAtMultiset<T>(s: seq<T>, i: nat)
    requires i < |s|
    ensures multiset(RemoveAt(s, i)) + multiset{s[i]} == multiset(s)
  {
    assert s == s[..i] + [s[i]] + s[i + 1..];
  }

  /** Where the elements of `s` are after `splice(i, 1)`. */
  lemma RemoveAtIndex<T>(s: seq<T>, i: nat, j: nat)
    requires i < |s| && j < |s| - 1
    ensures RemoveAt(s, i)[j] == if j < i then s[j] else s[j + 1]
  {
  }

  /** Moving one element from the pool to the front of the removed part keeps
      the whole unchanged. */
  lemma MultisetMove<T>(kept: seq<T>, removed: seq<T>, x: T, rest: seq<T>, whole: seq<T>)
    requires multiset(kept) + multiset(removed) == multiset(rest)
    requires multiset(rest) + multiset{x} == multiset(whole)
    ensures multiset(kept) + multiset([x] + removed) == multiset(whole)
  {
    assert multiset([x] + removed) == multiset{x} + multiset(removed);
    forall e ensures (multiset(kept) + multiset([x] + removed))[e] == multiset(whole)[e] {
      assert (multiset(kept) + multiset(removed))[e] == multiset(rest)[e];
      assert (multiset(rest) + multiset{x})[e] == multiset(whole)[e];
    }
  }

  /** The elements of a non-empty sequence: those before the last, and the last. */
  lemma MultisetSnoc<T>(s: seq<T>)
    requires s != []
    ensures multiset(s) == multiset(s[..|s| - 1]) + multiset{s[|s| - 1]}
  {
    assert s == s[..|s| - 1] + [s[|s| - 1]];
  }

  lemma ConcatAssoc<T>(a: seq<T>, b: seq<T>, c: seq<T>)
    ensures a + (b + c) == (a + b) + c
  {
  }

  lemma SliceConcat<T>(s: seq<T>, a: nat, b: nat)
    requires a <= b <= |s|
    ensures s[..a] + s[a..b] == s[..b]
  {
  }

  lemma MultisetSplit<T>(s: seq<T>, a: nat)
    requires a <= |s|
    ensures multiset(s[..a]) + multiset(s[a..]) == multiset(s)
  {
    assert s == s[..a] + s[a..];
  }

  /** Pairwise distinct elements. */
  predicate Distinct<T(==)>(s: seq<T>)
  {
    forall i, j :: 0 <= i < |s| && 0 <= j < |s| && i != j ==> s[i] != s[j]
  }

  lemma {:induction false} DistinctOccursOnce<T>(s: seq<T>, x: T)
    requires Distinct(s)
    ensures multiset(s)[x] <= 1
  {
    if s != [] {
      assert s == [s[0]] + s[1..];
      assert Distinct(s[1..]) by {
        forall i, j | 0 <= i < |s[1..]| && 0 <= j < |s[1..]| && i != j
          ensures s[1..][i] != s[1..][j]
        {
          assert s[1..][i] == s[i + 1] && s[1..][j] == s[j + 1];
        }
      }
      DistinctOccursOnce(s[1..], x);
      assert s[0] !in s[1..];
    }
  }

  /** The players of all teams, in team order: the concatenation of the teams'
      `players` arrays. */
  function Flatten(teams: seq<Team>): seq<Player>
  {
    if teams == [] then [] else Flatten(teams[..|teams| - 1]) + teams[|teams| - 1].players
  }

  lemma {:induction false} FlattenContains(teams: seq<Team>, i: nat, p: Player)
    requires i < |teams| && p in teams[i].players
    ensures p in Flatten(teams)
  {
    if i < |teams| - 1 {
      FlattenContains(teams[..|teams| - 1], i, p);
    }
  }

  /** `(n - n % k) / k == n / k` and `n - n % k` is a multiple of `k`. */
  lemma DropRemainder(n: nat, k: nat)
    requires k >= 1
    ensures n % k <= n && n - n % k == k * (n / k)
    ensures (n - n % k) % k == 0 && (n - n % k) / k == n / k
  {
    DivModUnique(n - n % k, k, n / k, 0);
  }

  /** Quotient and remainder are the unique pair with `a == k * q + r`, `0 <= r < k`. */
  lemma DivModUnique(a: int, k: int, q: int, r: int)
    requires k > 0 && 0 <= r < k && a == k * q + r
    ensures a / k == q && a % k == r
  {
    var q', r' := a / k, a % k;
    assert a == k * q' + r';
    if q' > q {
      var d := q' - q;
      assert k * q' == k * q + k * d;
      MulAtLeast(k, d);
      assert false;
    } else if q' < q {
      var d := q - q';
      assert k * q == k * q' + k * d;
      MulAtLeast(k, d);
      assert false;
    }
  }

  lemma MulMonotone(a: nat, b: nat, c: nat)
    requires a <= b
    ensures a * c <= b * c
  {
  }

  lemma MulAtLeast(k: nat, d: nat)
    requires d >= 1
    ensures k * d >= k
  {
  }
}
