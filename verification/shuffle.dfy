/**
  `Array.shuffle()` with its randomness made explicit. The random numbers the
  shuffle consumes are a parameter `draws`; each draw selects, modulo the number
  of elements still unplaced, the element that goes next. A missing draw selects
  the first unplaced element. Over all possible draws the outputs are exactly
  the permutations of the input (ShufflePermutes, ShuffleReachesEvery), which is
  all the quiz relies on.
 */
module Shuffling {

  /** Position selected by the next draw among `n` unplaced elements. */
  function Choice(n: nat, draws: seq<nat>): (k: nat)
    requires n > 0
    ensures k < n
  {
    Reduce(if |draws| == 0 then 0 else draws[0], n)
  }

  /** A random number reduced into `0..n-1` (`d mod n`, by repeated subtraction). */
  function Reduce(d: nat, n: nat): (k: nat)
    requires n > 0
    ensures k < n
    ensures d < n ==> k == d
    decreases d
  {
    if d < n then d else Reduce(d - n, n)
  }

  /** The draws left after one has been consumed. */
  function Rest(draws: seq<nat>): (r: seq<nat>)
    ensures |r| == if |draws| == 0 then 0 else |draws| - 1
  {
    if |draws| == 0 then [] else draws[1..]
  }

  /** `xs` with position `k` removed. */
  function Without<T>(xs: seq<T>, k: nat): (r: seq<T>)
    requires k < |xs|
    ensures |r| == |xs| - 1
  {
    xs[..k] + xs[k + 1..]
  }

  lemma WithoutRemovesOne<T>(xs: seq<T>, k: nat)
    requires k < |xs|
    ensures multiset(Without(xs, k)) == multiset(xs) - multiset{xs[k]}
  {
    assert xs == xs[..k] + [xs[k]] + xs[k + 1..];
    assert multiset(xs) == multiset(xs[..k]) + multiset{xs[k]} + multiset(xs[k + 1..]);
  }

  function Shuffle<T>(xs: seq<T>, draws: seq<nat>): (r: seq<T>)
    ensures multiset(r) == multiset(xs)
    decreases |xs|
  {
    if |xs| == 0 then []
    else
      var k := Choice(|xs|, draws);
      WithoutRemovesOne(xs, k);
      [xs[k]] + Shuffle(Without(xs, k), Rest(draws))
  }

  /** The shuffle keeps every element with its multiplicity. */
  lemma ShufflePermutes<T>(xs: seq<T>, draws: seq<nat>)
    ensures multiset(Shuffle(xs, draws)) == multiset(xs)
    ensures |Shuffle(xs, draws)| == |xs|
    ensures forall x :: x in Shuffle(xs, draws) <==> x in xs
  {
    var r := Shuffle(xs, draws);
    assert |r| == |multiset(r)| == |multiset(xs)| == |xs|;
    forall x
      ensures x in r <==> x in xs
    {
      assert x in r <==> x in multiset(r);
      assert x in xs <==> x in multiset(xs);
    }
  }

  lemma ShuffleStep<T>(xs: seq<T>, draws: seq<nat>)
    requires |xs| > 0
    ensures Shuffle(xs, draws)
         == [xs[Choice(|xs|, draws)]] + Shuffle(Without(xs, Choice(|xs|, draws)), Rest(draws))
  {
  }

  /** Prefixing the draws with `k` puts `xs[k]` in front of what the other draws produce. */
  lemma PrependDraw<T>(xs: seq<T>, ys: seq<T>, k: nat, tail: seq<nat>)
    requires k < |xs| && |ys| > 0 && xs[k] == ys[0]
    requires Shuffle(Without(xs, k), tail) == ys[1..]
    ensures Shuffle(xs, [k] + tail) == ys
  {
    LeadingDraw(k, |xs|, tail);
    ShuffleStep(xs, [k] + tail);
    assert [ys[0]] + ys[1..] == ys;
  }

  lemma LeadingDraw(k: nat, n: nat, tail: seq<nat>)
    requires k < n
    ensures Choice(n, [k] + tail) == k
    ensures Rest([k] + tail) == tail
  {
    assert ([k] + tail)[1..] == tail;
  }

  lemma TailMatchesRemainder<T>(xs: seq<T>, ys: seq<T>, k: nat)
    requires multiset(ys) == multiset(xs)
    requires k < |xs| && |ys| > 0 && xs[k] == ys[0]
    ensures multiset(ys[1..]) == multiset(Without(xs, k))
  {
    WithoutRemovesOne(xs, k);
    assert ys == [ys[0]] + ys[1..];
    assert multiset(ys) == multiset{ys[0]} + multiset(ys[1..]);
    assert multiset(ys[1..]) == multiset(ys) - multiset{ys[0]};
  }

  /** Every permutation of `xs` is the outcome of some draws, which this lemma constructs. */
  lemma {:induction false} ShuffleReachesEvery<T>(xs: seq<T>, ys: seq<T>) returns (draws: seq<nat>)
    requires multiset(ys) == multiset(xs)
    ensures Shuffle(xs, draws) == ys
    decreases |xs|
  {
    if |xs| == 0 {
      assert |ys| == |multiset(ys)| == 0;
      draws := [];
    } else {
      assert |ys| == |multiset(ys)| == |xs|;
      assert ys[0] in multiset(xs);
      assert ys[0] in xs;
      var k: nat :| k < |xs| && xs[k] == ys[0];
      var rest := Without(xs, k);
      TailMatchesRemainder(xs, ys, k);
      var tail := ShuffleReachesEvery(rest, ys[1..]);
      draws := [k] + tail;
      PrependDraw(xs, ys, k, tail);
    }
  }
}
