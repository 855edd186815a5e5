/** The six-slot trackers of the draw-ball game, as values.

    A tracker is a sequence of integers in which 0 marks an empty slot and any
    other value is a ball number.  This module holds the pure facts the game
    relies on: JavaScript's Array.prototype.indexOf over such a tracker, the
    shape invariants of the picked and winning trackers, the match count and
    the existence of a value the random draw can still choose. */
module Slots {

  /** Slots in the picked tracker and in the winning tracker. */
  const SlotCount: nat := 6

  /** Balls on the board, numbered 1 to BallCount. */
  const BallCount: nat := 59

  /** Largest value `Math.floor(Math.random() * 58 + 1)` can yield (the smallest is 1). */
  const RandomMax: nat := 58

  /** Array.prototype.indexOf: the lowest index holding `x`, or -1 when `x` does not occur. */
  function IndexOf(s: seq<int>, x: int): (r: int)
    ensures -1 <= r < |s|
    ensures r == -1 <==> x !in s
    ensures 0 <= r ==> s[r] == x && forall k :: 0 <= k < r ==> s[k] != x
  {
    if |s| == 0 then -1
    else if s[0] == x then 0
    else
      var t := IndexOf(s[1..], x);
      if t < 0 then -1 else t + 1
  }

  /** No two slots hold the same ball (empty slots may repeat). */
  ghost predicate DistinctBalls(s: seq<int>)
  {
    forall a, b :: 0 <= a < |s| && 0 <= b < |s| && a != b && s[a] != 0 ==> s[a] != s[b]
  }

  /** All slots pairwise different. */
  ghost predicate AllDistinct(s: seq<int>)
  {
    forall a, b :: 0 <= a < |s| && 0 <= b < |s| && a != b ==> s[a] != s[b]
  }

  /** Every occupied slot holds a ball number in lo..hi. */
  ghost predicate BallsWithin(s: seq<int>, lo: int, hi: int)
  {
    forall k :: 0 <= k < |s| && s[k] != 0 ==> lo <= s[k] <= hi
  }

  /** Every slot is empty. */
  predicate Cleared(s: seq<int>)
  {
    forall k :: 0 <= k < |s| ==> s[k] == 0
  }

  /** The invariant of the player's tracker: six slots, balls on the board, no ball twice. */
  ghost predicate PickedShape(s: seq<int>)
  {
    |s| == SlotCount && BallsWithin(s, 1, BallCount) && DistinctBalls(s)
  }

  /** The invariant of the winning tracker together with the number of drawn balls on
      display: either nothing is drawn and every slot is empty, or six distinct values
      the random source can produce are drawn and shown. */
  ghost predicate WinningShape(s: seq<int>, shown: nat)
  {
    && |s| == SlotCount
    && ((shown == 0 && Cleared(s))
        || (shown == SlotCount && 0 !in s && BallsWithin(s, 1, RandomMax) && AllDistinct(s)))
  }

  /** The values a tracker holds. */
  function Elements(s: seq<int>): set<int>
  {
    set x | x in s
  }

  /** Number of winning slots whose value occurs somewhere in the picked tracker. */
  function Matches(picked: seq<int>, winning: seq<int>): (n: nat)
    ensures n <= |winning|
  {
    if |winning| == 0 then 0
    else
      Matches(picked, winning[..|winning| - 1])
      + (if winning[|winning| - 1] in picked then 1 else 0)
  }

  /** The tracker with every slot holding `v` dropped. */
  function Without(s: seq<int>, v: int): (r: seq<int>)
    ensures |r| <= |s|
    ensures v in s ==> |r| < |s|
    ensures forall x :: x in r <==> x in s && x != v
  {
    if |s| == 0 then []
    else if s[0] == v then Without(s[1..], v)
    else [s[0]] + Without(s[1..], v)
  }

  /** A tracker shorter than the random range always leaves a value the draw can choose:
      this is why the source's retry loops always find a value eventually. */
  lemma {:induction false} FreshValueExists(s: seq<int>, hi: nat)
    requires |s| < hi
    ensures exists r :: 1 <= r <= hi && r !in s
    decreases hi
  {
    if hi !in s {
      assert 1 <= hi <= hi && hi !in s;
    } else {
      var rest := Without(s, hi);
      FreshValueExists(rest, hi - 1);
      var r :| 1 <= r <= hi - 1 && r !in rest;
      assert 1 <= r <= hi && r !in s;
    }
  }

  lemma {:induction false} MatchesAppend(picked: seq<int>, winning: seq<int>, x: int)
    ensures Matches(picked, winning + [x]) == Matches(picked, winning) + (if x in picked then 1 else 0)
  {
    assert (winning + [x])[..|winning|] == winning;
  }

  /** When the winning values are pairwise distinct the match count is the size of the
      intersection of the two trackers' values. */
  lemma {:induction false} MatchesIsIntersection(picked: seq<int>, winning: seq<int>)
    requires AllDistinct(winning)
    ensures Matches(picked, winning) == |Elements(winning) * Elements(picked)|
  {
    if |winning| == 0 {
      assert Elements(winning) == {};
    } else {
      var init := winning[..|winning| - 1];
      var x := winning[|winning| - 1];
      assert winning == init + [x];
      assert AllDistinct(init);
      MatchesIsIntersection(picked, init);
      assert x !in init;
      assert Elements(winning) == Elements(init) + {x};
      var common := Elements(init) * Elements(picked);
      if x in picked {
        assert Elements(winning) * Elements(picked) == common + {x};
      } else {
        assert Elements(winning) * Elements(picked) == common;
      }
    }
  }

  /** Every winning value is matched exactly when the match count is the number of
      winning slots. */
  lemma {:induction false} AllMatchedIff(picked: seq<int>, winning: seq<int>)
    ensures Matches(picked, winning) == |winning| <==> forall k :: 0 <= k < |winning| ==> winning[k] in picked
  {
    if |winning| > 0 {
      var init := winning[..|winning| - 1];
      AllMatchedIff(picked, init);
      if forall k :: 0 <= k < |winning| ==> winning[k] in picked {
        assert forall k :: 0 <= k < |init| ==> init[k] in picked by {
          forall k | 0 <= k < |init| ensures init[k] in picked {
            assert init[k] == winning[k];
          }
        }
      }
    }
  }

  /** For two trackers each without repeats, counting winning values among the picks and
      counting picks among the winning values agree. */
  lemma MatchesSymmetric(picked: seq<int>, winning: seq<int>)
    requires AllDistinct(picked) && AllDistinct(winning)
    ensures Matches(picked, winning) == Matches(winning, picked)
  {
    MatchesIsIntersection(picked, winning);
    MatchesIsIntersection(winning, picked);
    assert Elements(winning) * Elements(picked) == Elements(picked) * Elements(winning);
  }
}
