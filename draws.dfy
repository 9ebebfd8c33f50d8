/** The server's two uses of `Math.random()` as injected choices. A random draw
    `Math.floor(Math.random() * pool.length)` is an index below the length of the
    pool at that moment; a sequence of such draws, each removing the drawn
    element, describes both the random trimming (server.js:168-170) and, when
    every element is drawn, a shuffle (server.js:293). */
module Draws {
  import opened Records

  /** Each pick is a valid index into the pool left at that moment: the first
      is below `n`, and the rest are valid for the `n - 1` elements left. */
  predicate ValidPicks(picks: seq<nat>, n: nat)
  {
    picks == [] || (picks[0] < n && ValidPicks(picks[1..], n - 1))
  }

  datatype Drawn<T> = Drawn(picked: seq<T>, rest: seq<T>)

  /** Draws `pool[picks[0]]`, then `picks[1]` from what is left, and so on;
      returns the drawn elements in order and what remains, in its order. */
  function Draw<T>(pool: seq<T>, picks: seq<nat>): (d: Drawn<T>)
    requires ValidPicks(picks, |pool|)
    ensures |d.picked| == |picks| && |d.picked| + |d.rest| == |pool|
    decreases |picks|
  {
    if picks == [] then Drawn([], pool)
    else
      var k := picks[0];
      var d := Draw(RemoveAt(pool, k), picks[1..]);
      Drawn([pool[k]] + d.picked, d.rest)
  }

  /** One draw, then the draws that follow from what is left. */
  lemma DrawStep<T>(pool: seq<T>, picks: seq<nat>)
    requires picks != [] && ValidPicks(picks, |pool|)
    ensures picks[0] < |pool| && ValidPicks(picks[1..], |pool| - 1)
    ensures var d := Draw(RemoveAt(pool, picks[0]), picks[1..]);
      Draw(pool, picks) == Drawn([pool[picks[0]]] + d.picked, d.rest)
  {
  }

  /** One draw moves the drawn element to the end of what was drawn before. */
  lemma DrawnAfter<T>(pool: seq<T>, picks: seq<nat>, before: seq<T>)
    requires picks != [] && ValidPicks(picks, |pool|)
    ensures picks[0] < |pool| && ValidPicks(picks[1..], |pool| - 1)
    ensures var d := Draw(pool, picks);
      var d' := Draw(RemoveAt(pool, picks[0]), picks[1..]);
      Drawn(before + d.picked, d.rest) == Drawn((before + [pool[picks[0]]]) + d'.picked, d'.rest)
  {
    DrawStep(pool, picks);
    var d' := Draw(RemoveAt(pool, picks[0]), picks[1..]);
    ConcatAssoc(before, [pool[picks[0]]], d'.picked);
  }

  /** Drawing loses no element and invents none. */
  lemma {:induction false} DrawConserves<T>(pool: seq<T>, picks: seq<nat>)
    requires ValidPicks(picks, |pool|)
    ensures multiset(Draw(pool, picks).rest) + multiset(Draw(pool, picks).picked) == multiset(pool)
    decreases |picks|
  {
    if picks != [] {
      DrawStep(pool, picks);
      var rest := RemoveAt(pool, picks[0]);
      DrawConserves(rest, picks[1..]);
      var d := Draw(rest, picks[1..]);
      RemoveAtMultiset(pool, picks[0]);
      MultisetMove(d.rest, d.picked, pool[picks[0]], rest, pool);
    }
  }

  /** A shuffle: every element drawn. */
  function Shuffle<T>(pool: seq<T>, order: seq<nat>): (s: seq<T>)
    requires |order| == |pool| && ValidPicks(order, |pool|)
    ensures |s| == |pool|
  {
    Draw(pool, order).picked
  }

  /** A shuffle is a rearrangement of the pool. */
  lemma ShufflePermutes<T>(pool: seq<T>, order: seq<nat>)
    requires |order| == |pool| && ValidPicks(order, |pool|)
    ensures multiset(Shuffle(pool, order)) == multiset(pool)
  {
    DrawConserves(pool, order);
    assert Draw(pool, order).rest == [];
  }

  /** A shuffle starts with the element of the first draw, followed by a
      shuffle of the others. */
  lemma ShuffleStep<T>(pool: seq<T>, order: seq<nat>)
    requires order != [] && |order| == |pool| && ValidPicks(order, |pool|)
    ensures order[0] < |pool| && ValidPicks(order[1..], |pool| - 1)
    ensures Shuffle(pool, order) == [pool[order[0]]] + Shuffle(RemoveAt(pool, order[0]), order[1..])
  {
    DrawStep(pool, order);
  }

  /** Shuffles lose nothing of generality: every rearrangement of a pool is the
      shuffle of some sequence of draws. */
  lemma EveryOrderIsDrawn<T>(pool: seq<T>, target: seq<T>)
    requires multiset(target) == multiset(pool)
    ensures exists order :: |order| == |pool| && ValidPicks(order, |pool|)
                            && Shuffle(pool, order) == target
  {
    DrawsFor(pool, target);
  }

  /** The draws that produce `target`: each time, the index of the next
      target element in what is left of the pool. */
  ghost function PicksFor<T>(pool: seq<T>, target: seq<T>): seq<nat>
    requires multiset(target) == multiset(pool)
    decreases |pool|
  {
    if pool == [] then []
    else
      assert |target| == |multiset(target)| == |multiset(pool)| == |pool|;
      assert target[0] in multiset(pool);
      var k :| 0 <= k < |pool| && pool[k] == target[0];
      RestMatches(pool, k, target);
      [k] + PicksFor(RemoveAt(pool, k), target[1..])
  }

  lemma {:induction false} DrawsFor<T>(pool: seq<T>, target: seq<T>)
    requires multiset(target) == multiset(pool)
    ensures |PicksFor(pool, target)| == |pool| && ValidPicks(PicksFor(pool, target), |pool|)
    ensures Shuffle(pool, PicksFor(pool, target)) == target
    decreases |pool|
  {
    assert |target| == |multiset(target)| == |multiset(pool)| == |pool|;
    if pool != [] {
      var order := PicksFor(pool, target);
      var k := order[0];
      assert pool[k] == target[0];
      RestMatches(pool, k, target);
      assert order[1..] == PicksFor(RemoveAt(pool, k), target[1..]);
      DrawsFor(RemoveAt(pool, k), target[1..]);
      ShuffleStep(pool, order);
      assert target == [target[0]] + target[1..];
    }
  }

  lemma RestMatches<T>(pool: seq<T>, k: nat, target: seq<T>)
    requires k < |pool| && target != [] && pool[k] == target[0]
    requires multiset(target) == multiset(pool)
    ensures multiset(target[1..]) == multiset(RemoveAt(pool, k))
  {
    assert target == [target[0]] + target[1..];
    RemoveAtMultiset(pool, k);
    var r := RemoveAt(pool, k);
    var a, b := multiset(target[1..]), multiset(r);
    assert multiset{target[0]} + a == b + multiset{target[0]};
    forall x ensures a[x] == b[x] {
      assert (multiset{target[0]} + a)[x] == (b + multiset{target[0]})[x];
    }
  }
}
