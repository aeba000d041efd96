/**
  `shuffleArray`: the Fisher-Yates (Durstenfeld) shuffle run on a copy of
  its input. The random draw `Math.floor(Math.random() * (i + 1))` is an
  oracle: `draws[i]` is the index drawn while the loop is at `i`.
 */
module Shuffle {

  /** Exchanges the elements at positions `i` and `j`. */
  function Swap<T>(s: seq<T>, i: nat, j: nat): (r: seq<T>)
    requires i < |s| && j < |s|
    ensures |r| == |s| && r[i] == s[j] && r[j] == s[i]
    ensures forall k :: 0 <= k < |s| && k != i && k != j ==> r[k] == s[k]
  {
    s[i := s[j]][j := s[i]]
  }

  /** A swap only moves elements about. */
  lemma SwapPermutes<T>(s: seq<T>, i: nat, j: nat)
    requires i < |s| && j < |s|
    ensures multiset(Swap(s, i, j)) == multiset(s)
  {
  }

  /**
    What the random source may hand the loop: one index per step, and at
    step `i` (for `0 < i < n`) an index in `[0, i]`. Slot 0 is never
    consulted, since the loop stops before `i` reaches 0.
   */
  predicate ValidDraws(draws: seq<nat>, n: nat)
  {
    |draws| == n && forall i :: 0 < i < n ==> draws[i] <= i
  }

  /**
    The draw itself, over the reals: `floor(u * (i + 1))` for a uniform
    sample `u` in `[0, 1)` always lands in `[0, i]`.
   */
  function Draw(u: real, i: nat): (j: nat)
    requires 0.0 <= u < 1.0
    ensures j <= i
  {
    var m := (i + 1) as real;
    assert 0.0 <= u * m < m by {
      assert m - u * m == (1.0 - u) * m;
    }
    (u * m).Floor
  }

  /** A whole run's draws from a sequence of samples: always valid. */
  function DrawAll(us: seq<real>): (draws: seq<nat>)
    requires forall k :: 0 <= k < |us| ==> 0.0 <= us[k] < 1.0
    ensures ValidDraws(draws, |us|)
  {
    seq(|us|, k requires 0 <= k < |us| => Draw(us[k], k))
  }

  /**
    The order the shuffle produces for the given draws: the top slot is
    settled first (swapped with the drawn slot, then never touched again)
    and the prefix below it is shuffled with the remaining draws.
   */
  function Shuffled<T>(s: seq<T>, draws: seq<nat>): (r: seq<T>)
    requires ValidDraws(draws, |s|)
    ensures |r| == |s|
    ensures |s| <= 1 ==> r == s
    decreases |s|
  {
    if |s| <= 1 then s
    else
      var last := |s| - 1;
      var t := Swap(s, last, draws[last]);
      Shuffled(t[..last], draws[..last]) + [t[last]]
  }

  /**
    Whatever the draws, the shuffle returns a rearrangement of its input:
    the same elements, each as often as before.
   */
  lemma {:induction false} ShuffledPermutes<T>(s: seq<T>, draws: seq<nat>)
    requires ValidDraws(draws, |s|)
    ensures multiset(Shuffled(s, draws)) == multiset(s)
    decreases |s|
  {
    if |s| > 1 {
      var last := |s| - 1;
      var t := Swap(s, last, draws[last]);
      var rest := Shuffled(t[..last], draws[..last]);
      assert Shuffled(s, draws) == rest + [t[last]];
      assert multiset(rest) == multiset(t[..last]) by {
        ShuffledPermutes(t[..last], draws[..last]);
      }
      assert multiset(t) == multiset(t[..last]) + multiset{t[last]} by {
        SplitLast(t);
      }
      assert multiset(t) == multiset(s) by {
        SwapPermutes(s, last, draws[last]);
      }
    }
  }

  /** The destructuring swap `[a[i], a[j]] = [a[j], a[i]]` on the array. */
  method SwapInPlace<T>(a: array<T>, i: nat, j: nat)
    requires i < a.Length && j < a.Length
    modifies a
    ensures a[..] == Swap(old(a[..]), i, j)
  {
    a[i], a[j] := a[j], a[i];
  }

  /** The array copy and the swap loop; the input array is left alone. */
  method ShuffleArray<T>(input: array<T>, draws: seq<nat>) returns (output: array<T>)
    requires ValidDraws(draws, input.Length)
    ensures fresh(output)
    ensures output[..] == Shuffled(input[..], draws)
    ensures multiset(output[..]) == multiset(input[..])
    ensures unchanged(input)
  {
    var copy := input[..];
    output := new T[|copy|](k requires 0 <= k < |copy| => copy[k]);
    // `settled` is `i + 1` of the source loop: slots from it upwards are final.
    var settled := output.Length;
    assert output[..] == copy;
    NothingSettled(copy, draws);
    while settled > 1
      invariant 0 <= settled <= output.Length
      invariant output.Length > 0 ==> settled >= 1
      invariant unchanged(input)
      invariant Shuffled(output[..][..settled], draws[..settled]) + output[..][settled..] == Shuffled(copy, draws)
    {
      var i := settled - 1;
      var j := draws[i];
      ShuffleStep(output[..], draws, i);
      SwapInPlace(output, i, j);
      settled := i;
    }
    AllSettled(output[..], draws, settled);
    ShuffledPermutes(copy, draws);
  }

  /** Before the loop nothing is settled: the whole array is still to be shuffled. */
  lemma NothingSettled<T>(s: seq<T>, draws: seq<nat>)
    requires ValidDraws(draws, |s|)
    ensures Shuffled(s[..|s|], draws[..|s|]) + s[|s|..] == Shuffled(s, draws)
  {
    assert s[..|s|] == s && draws[..|s|] == draws && s[|s|..] == [];
  }

  /** When at most one slot is left, the loop has nothing more to do. */
  lemma AllSettled<T>(s: seq<T>, draws: seq<nat>, settled: nat)
    requires ValidDraws(draws, |s|) && settled <= 1 && settled <= |s|
    ensures Shuffled(s[..settled], draws[..settled]) + s[settled..] == s
  {
    assert s[..settled] + s[settled..] == s;
  }

  /**
    One turn of the loop at `i`: swapping slot `i` with the drawn slot
    settles slot `i`, leaving the prefix below it to be shuffled.
   */
  lemma ShuffleStep<T>(a: seq<T>, draws: seq<nat>, i: nat)
    requires ValidDraws(draws, |a|) && 0 < i < |a|
    ensures Shuffled(a[..i + 1], draws[..i + 1]) + a[i + 1..]
         == Shuffled(Swap(a, i, draws[i])[..i], draws[..i]) + Swap(a, i, draws[i])[i..]
  {
    var b := Swap(a, i, draws[i]);
    assert Swap(a[..i + 1], i, draws[i]) == b[..i + 1];
    assert draws[..i + 1][..i] == draws[..i];
    assert b[..i + 1][..i] == b[..i];
    assert b[i + 1..] == a[i + 1..];
    assert [b[i]] + b[i + 1..] == b[i..];
  }

  /** No repeated element. */
  ghost predicate Distinct<T>(s: seq<T>)
  {
    forall i, j :: 0 <= i < j < |s| ==> s[i] != s[j]
  }

  /**
    Draws that turn `s` into the rearrangement `t`: at each step, draw
    the position currently holding the element `t` wants in the top slot.
   */
  lemma {:induction false} DrawsFor<T>(s: seq<T>, t: seq<T>) returns (draws: seq<nat>)
    requires multiset(s) == multiset(t)
    ensures ValidDraws(draws, |s|) && Shuffled(s, draws) == t
    decreases |s|
  {
    assert |t| == |s| by {
      assert |t| == |multiset(t)| == |multiset(s)| == |s|;
    }
    if |s| == 0 {
      draws := [];
    } else if |s| == 1 {
      assert s == t by {
        assert t[0] in multiset(s);
        assert s == [s[0]];
      }
      draws := [0];
    } else {
      var last := |s| - 1;
      var x := t[last];
      assert x in multiset(s);
      var j :| 0 <= j < |s| && s[j] == x;
      var u := Swap(s, last, j);
      assert multiset(u[..last]) == multiset(t[..last]) by {
        SwapPermutes(s, last, j);
        SameRestAfterTop(s, t, u);
      }
      var rest := DrawsFor(u[..last], t[..last]);
      draws := rest + [j];
      SettleTopThenRest(s, t, j, rest);
    }
  }

  /**
    Drawing `j` for the top slot and then `rest` for the prefix yields `t`,
    when `s[j]` is what `t` has on top and `rest` shuffles the prefix into
    the prefix of `t`.
   */
  lemma SettleTopThenRest<T>(s: seq<T>, t: seq<T>, j: nat, rest: seq<nat>)
    requires |s| == |t| > 1 && j < |s| && s[j] == t[|t| - 1]
    requires ValidDraws(rest, |s| - 1)
    requires Shuffled(Swap(s, |s| - 1, j)[..|s| - 1], rest) == t[..|t| - 1]
    ensures ValidDraws(rest + [j], |s|) && Shuffled(s, rest + [j]) == t
  {
    ShuffledSplit(s, j, rest);
    SplitLast(t);
  }

  /** The first turn of the loop, read off the outcome: the top slot and the prefix below it. */
  lemma ShuffledSplit<T>(s: seq<T>, j: nat, rest: seq<nat>)
    requires |s| > 1 && j < |s| && ValidDraws(rest, |s| - 1)
    ensures ValidDraws(rest + [j], |s|)
    ensures Shuffled(s, rest + [j]) == Shuffled(Swap(s, |s| - 1, j)[..|s| - 1], rest) + [s[j]]
  {
    var draws := rest + [j];
    assert draws[|s| - 1] == j && draws[..|s| - 1] == rest;
  }

  /** A non-empty sequence is its prefix followed by its last element. */
  lemma SplitLast<T>(t: seq<T>)
    requires |t| > 0
    ensures t == t[..|t| - 1] + [t[|t| - 1]]
  {
  }

  /** Once both end in the same element, the prefixes are rearrangements of each other. */
  lemma SameRestAfterTop<T>(s: seq<T>, t: seq<T>, u: seq<T>)
    requires multiset(s) == multiset(t) && multiset(u) == multiset(s)
    requires |u| == |t| > 0 && u[|u| - 1] == t[|t| - 1]
    ensures multiset(u[..|u| - 1]) == multiset(t[..|t| - 1])
  {
    var last := |u| - 1;
    var x := t[last];
    assert u == u[..last] + [x];
    assert t == t[..last] + [x];
    assert multiset(u) == multiset(u[..last]) + multiset{x};
    assert multiset(t) == multiset(t[..last]) + multiset{x};
    assert multiset(u[..last]) == multiset(u) - multiset{x};
    assert multiset(t[..last]) == multiset(t) - multiset{x};
  }

  /**
    Whatever the random source hands out, every rearrangement of the
    input is a possible outcome: each permutation is produced by some
    valid sequence of draws.
   */
  lemma EveryPermutationReachable<T>(s: seq<T>, t: seq<T>)
    requires multiset(s) == multiset(t)
    ensures exists draws :: ValidDraws(draws, |s|) && Shuffled(s, draws) == t
  {
    var draws := DrawsFor(s, t);
  }

  /** Swapping two positions keeps a sequence free of repeats. */
  lemma SwapDistinct<T>(s: seq<T>, i: nat, j: nat)
    requires i < |s| && j < |s| && Distinct(s)
    ensures Distinct(Swap(s, i, j))
  {
    var r := Swap(s, i, j);
    forall p, q | 0 <= p < q < |r|
      ensures r[p] != r[q]
    {
      var p' := if p == i then j else if p == j then i else p;
      var q' := if q == i then j else if q == j then i else q;
      assert r[p] == s[p'] && r[q] == s[q'] && p' != q';
    }
  }

  /**
    On an input without repeats, the outcome determines every draw the
    loop consults: distinct valid draw sequences give distinct orders.
    With the surjectivity above this is a one-to-one correspondence
    between draw sequences and orderings.
   */
  lemma {:induction false} DrawsDetermineOrder<T>(s: seq<T>, d1: seq<nat>, d2: seq<nat>)
    requires Distinct(s) && ValidDraws(d1, |s|) && ValidDraws(d2, |s|)
    requires Shuffled(s, d1) == Shuffled(s, d2)
    ensures forall i :: 0 < i < |s| ==> d1[i] == d2[i]
    decreases |s|
  {
    if |s| > 1 {
      var last := |s| - 1;
      SplitLast(d1);
      SplitLast(d2);
      ShuffledSplit(s, d1[last], d1[..last]);
      ShuffledSplit(s, d2[last], d2[..last]);
      var u1, u2 := Swap(s, last, d1[last]), Swap(s, last, d2[last]);
      AppendLastInjective(Shuffled(u1[..last], d1[..last]), s[d1[last]],
                          Shuffled(u2[..last], d2[..last]), s[d2[last]]);
      assert d1[last] == d2[last];
      assert Distinct(u1[..last]) by {
        SwapDistinct(s, last, d1[last]);
      }
      DrawsDetermineOrder(u1[..last], d1[..last], d2[..last]);
      forall i | 0 < i < |s|
        ensures d1[i] == d2[i]
      {
        if i < last {
          assert d1[..last][i] == d2[..last][i];
        }
      }
    }
  }

  /** Two sequences of the same length, each with one element appended, are equal only piecewise. */
  lemma AppendLastInjective<T>(a1: seq<T>, x1: T, a2: seq<T>, x2: T)
    requires a1 + [x1] == a2 + [x2]
    ensures a1 == a2 && x1 == x2
  {
    assert |a1| == |a2|;
    assert a1 == (a1 + [x1])[..|a1|] && a2 == (a2 + [x2])[..|a2|];
    assert x1 == (a1 + [x1])[|a1|];
  }
}
